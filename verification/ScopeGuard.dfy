/**
 The move-only guard (src/common_utils/scope_guard.h), which runs a callback when it is destroyed.
 A callback that throws has still run: the destructor swallows the exception.
 */
module ScopeGuard {
  import opened Wrappers

  /** The callbacks that have run, in order. */
  class Executions {
    var ran: seq<nat>

    constructor ()
      ensures ran == []
    {
      ran := [];
    }
  }

  class Guard {
    var callback: Option<nat>

    constructor Make(callback: nat)
      ensures this.callback == Some(callback)
    {
      this.callback := Some(callback);
    }

    constructor Move(other: Guard)
      modifies other
      ensures callback == old(other.callback) && other.callback == None
    {
      callback := other.callback;
      new;
      other.callback := None;
    }

    method Disable()
      modifies this
      ensures callback == None
    {
      callback := None;
    }

    method Destroy(log: Executions)
      modifies log
      ensures log.ran == old(log.ran) + (if callback.Some? then [callback.value] else [])
    {
      if callback.Some? {
        log.ran := log.ran + [callback.value];
      }
    }
  }

  // ----- histories -----

  /**
   `guards` gives the callback of each live guard. `made` and `disabled` record the callbacks that
   were ever put into a guard, and those whose owner was disabled.
   */
  datatype World = World(guards: map<nat, Option<nat>>, ran: seq<nat>, made: set<nat>, disabled: set<nat>)

  datatype Action = Make(g: nat, callback: nat) | Move(g: nat, from: nat) | Disable(g: nat) | Destroy(g: nat)

  function Held(w: World, g: nat): Option<nat> {
    if g in w.guards then w.guards[g] else None
  }

  function AsSet(o: Option<nat>): set<nat> {
    if o.Some? then {o.value} else {}
  }

  /** A new guard needs a new object; actions on objects that do not exist change nothing. */
  function Step(w: World, a: Action): World {
    match a
    case Make(g, callback) =>
      if g in w.guards || callback in w.made then w
      else w.(guards := w.guards[g := Some(callback)], made := w.made + {callback})
    case Move(g, from) =>
      if g in w.guards || from !in w.guards then w
      else w.(guards := w.guards[g := w.guards[from]][from := None])
    case Disable(g) =>
      if g !in w.guards then w
      else w.(guards := w.guards[g := None], disabled := w.disabled + AsSet(w.guards[g]))
    case Destroy(g) =>
      if g !in w.guards then w
      else w.(guards := w.guards - {g}, ran := w.ran + if w.guards[g].Some? then [w.guards[g].value] else [])
  }

  function Run(w: World, actions: seq<Action>): World {
    if actions == [] then w else Step(Run(w, actions[..|actions| - 1]), actions[|actions| - 1])
  }

  const EMPTY: World := World(map[], [], {}, {})

  ghost predicate Owned(w: World, callback: nat) {
    exists g: nat :: Held(w, g) == Some(callback)
  }

  /** How often a callback has run. */
  function Runs(ran: seq<nat>, callback: nat): nat {
    multiset(ran)[callback]
  }

  /** Each callback is in exactly one place: with one live guard, among those run, or disabled. */
  ghost predicate Accounted(w: World, c: nat) {
    && (forall g: nat, h: nat | Held(w, g) == Some(c) && Held(w, h) == Some(c) :: g == h)
    && (Owned(w, c) ==> c in w.made && Runs(w.ran, c) == 0 && c !in w.disabled)
    && (c in w.disabled ==> c in w.made && Runs(w.ran, c) == 0)
    && Runs(w.ran, c) <= 1
    && (Runs(w.ran, c) == 1 ==> c in w.made)
    && (c in w.made ==> Owned(w, c) || Runs(w.ran, c) == 1 || c in w.disabled)
  }

  lemma StepAccounts(w: World, a: Action, c: nat)
    requires forall d: nat :: Accounted(w, d)
    ensures Accounted(Step(w, a), c)
  {
    var t := Step(w, a);
    assert Accounted(w, c);
    if t != w {
      var held := Held(w, if a.Move? then a.from else a.g);
      if held.Some? {
        assert Accounted(w, held.value);
      }
      assert forall g: nat :: Held(t, g) == Some(c) ==>
        || Held(w, g) == Some(c)
        || (a.Make? && g == a.g && a.callback == c)
        || (a.Move? && g == a.g && Held(w, a.from) == Some(c));
      if Owned(w, c) {
        var g :| Held(w, g) == Some(c);
        assert Held(t, g) == Some(c) || (a.Move? && Held(t, a.g) == Some(c)) || held == Some(c);
      }
      if a.Make? {
        assert Held(t, a.g) == Some(a.callback);
      }
    }
  }

  /**
   Over every history, each callback is held by at most one live guard, runs at most once, and runs
   exactly once when all guards are gone unless its owner was disabled.
   */
  lemma {:induction false} GuardsRunOnce(actions: seq<Action>, c: nat)
    ensures var w := Run(EMPTY, actions);
            && Accounted(w, c)
            && (w.guards == map[] && c in w.made ==> Runs(w.ran, c) == if c in w.disabled then 0 else 1)
  {
    if actions != [] {
      var before := actions[..|actions| - 1];
      forall d: nat ensures Accounted(Run(EMPTY, before), d) {
        GuardsRunOnce(before, d);
      }
      StepAccounts(Run(EMPTY, before), actions[|actions| - 1], c);
    }
  }

  // ----- where a callback is, told from the actions -----

  /** Not in any guard yet, with the guard its moves have led to, given up, or run. */
  datatype Fate = Unmade | KeptBy(guard: nat) | GivenUp | Done

  /** The guard objects that exist. */
  function Live(actions: seq<Action>): set<nat> {
    if actions == [] then {}
    else
      var before := actions[..|actions| - 1];
      match actions[|actions| - 1]
      case Make(g, callback) => if FateOf(before, callback).Unmade? then Live(before) + {g} else Live(before)
      case Move(g, from) => if from in Live(before) then Live(before) + {g} else Live(before)
      case Disable(_) => Live(before)
      case Destroy(g) => Live(before) - {g}
  }

  /** Follows one callback: from the guard it is made in along its moves, until that guard ends its story. */
  function FateOf(actions: seq<Action>, c: nat): Fate {
    if actions == [] then Unmade
    else
      var before := actions[..|actions| - 1];
      var fate := FateOf(before, c);
      match actions[|actions| - 1]
      case Make(g, callback) => if callback == c && fate.Unmade? && g !in Live(before) then KeptBy(g) else fate
      case Move(g, from) => if fate == KeptBy(from) && g !in Live(before) then KeptBy(g) else fate
      case Disable(g) => if fate == KeptBy(g) then GivenUp else fate
      case Destroy(g) => if fate == KeptBy(g) then Done else fate
  }

  /** How many actions it takes until the callback has run. */
  function DoneAfter(actions: seq<Action>, c: nat): nat {
    if actions == [] then 0
    else
      var before := actions[..|actions| - 1];
      if FateOf(before, c).Done? then DoneAfter(before, c) else |actions|
  }

  ghost predicate Follows(w: World, actions: seq<Action>) {
    && w.guards.Keys == Live(actions)
    && (forall c: nat, g: nat :: Held(w, g) == Some(c) <==> FateOf(actions, c) == KeptBy(g))
    && (forall c: nat :: c in w.made <==> !FateOf(actions, c).Unmade?)
    && (forall c: nat :: c in w.disabled <==> FateOf(actions, c).GivenUp?)
    && (forall c: nat :: c in w.ran <==> FateOf(actions, c).Done?)
  }

  lemma StepFollows(w: World, before: seq<Action>, a: Action)
    requires Follows(w, before) && forall c: nat :: Accounted(w, c)
    ensures Follows(Step(w, a), before + [a])
  {
    var after := before + [a];
    assert after[..|before|] == before;
    assert forall c: nat, g: nat :: Held(w, g) == Some(c) <==> FateOf(before, c) == KeptBy(g);
    forall c: nat, g: nat
      ensures Held(Step(w, a), g) == Some(c) <==> FateOf(after, c) == KeptBy(g)
    {
      assert Accounted(w, c);
    }
  }

  /**
   Over every history: the guard objects that exist, and for every callback whether it is held and by
   which guard, has run, or was given up, are what following that callback alone says.
   */
  lemma {:induction false} FateExactly(actions: seq<Action>)
    ensures Follows(Run(EMPTY, actions), actions)
  {
    if actions != [] {
      var before := actions[..|actions| - 1];
      FateExactly(before);
      forall c: nat ensures Accounted(Run(EMPTY, before), c) {
        GuardsRunOnce(before, c);
      }
      StepFollows(Run(EMPTY, before), before, actions[|actions| - 1]);
      assert before + [actions[|actions| - 1]] == actions;
    }
  }

  /** A callback has run since the action that destroyed its keeper. */
  lemma {:induction false} DoneByDestruction(actions: seq<Action>, c: nat)
    requires FateOf(actions, c).Done?
    ensures var n := DoneAfter(actions, c);
            && 0 < n <= |actions| && actions[n - 1].Destroy?
            && FateOf(actions[..n - 1], c) == KeptBy(actions[n - 1].g)
  {
    var before := actions[..|actions| - 1];
    if FateOf(before, c).Done? {
      DoneByDestruction(before, c);
      var n := DoneAfter(before, c);
      assert before[..n - 1] == actions[..n - 1];
    }
  }

  ghost predicate InOrder(ran: seq<nat>, actions: seq<Action>) {
    forall i, j | 0 <= i < j < |ran| :: DoneAfter(actions, ran[i]) < DoneAfter(actions, ran[j])
  }

  lemma LastRun(w: World, a: Action)
    ensures var t := Step(w, a);
            || t.ran == w.ran
            || (a.Destroy? && Held(w, a.g).Some? && t.ran == w.ran + [Held(w, a.g).value])
  {
  }

  /** The callbacks have run in the order in which their keepers were destroyed. */
  lemma {:induction false} RunsInOrder(actions: seq<Action>)
    ensures InOrder(Run(EMPTY, actions).ran, actions)
  {
    if actions != [] {
      var before := actions[..|actions| - 1];
      var w := Run(EMPTY, before);
      RunsInOrder(before);
      FateExactly(before);
      FateExactly(actions);
      forall i | 0 <= i < |w.ran|
        ensures DoneAfter(actions, w.ran[i]) == DoneAfter(before, w.ran[i]) < |actions|
      {
        assert w.ran[i] in w.ran;
        DoneByDestruction(before, w.ran[i]);
      }
      LastRun(w, actions[|actions| - 1]);
    }
  }
  /** Carries a history out on guard objects: what runs is what the history says. */
  method Replay(actions: seq<Action>) returns (log: Executions)
    ensures fresh(log) && log.ran == Run(EMPTY, actions).ran
  {
    log := new Executions();
    var guards: map<nat, Guard> := map[];
    var made: set<nat> := {};
    ghost var w := EMPTY;
    for i := 0 to |actions|
      invariant w == Run(EMPTY, actions[..i])
      invariant fresh(log) && log.ran == w.ran && made == w.made
      invariant guards.Keys == w.guards.Keys
      invariant forall g | g in guards :: fresh(guards[g]) && guards[g].callback == w.guards[g]
      invariant forall g, h | g in guards && h in guards && g != h :: guards[g] != guards[h]
    {
      assert actions[..i + 1][..i] == actions[..i];
      var a := actions[i];
      w := Step(w, a);
      if a.Make? && a.g !in guards && a.callback !in made {
        var guard := new Guard.Make(a.callback);
        guards, made := guards[a.g := guard], made + {a.callback};
      } else if a.Move? && a.g !in guards && a.from in guards {
        var guard := new Guard.Move(guards[a.from]);
        guards := guards[a.g := guard];
      } else if a.Disable? && a.g in guards {
        guards[a.g].Disable();
      } else if a.Destroy? && a.g in guards {
        guards[a.g].Destroy(log);
        guards := guards - {a.g};
      }
    }
    assert actions[..|actions|] == actions;
  }
}
