/**
 The CPU power-limit tool (src/cpu_powerlimit.cpp): any number of processes that take a lock file,
 set the limits of their profile, wait for a signal, restore the default profile and unlock.
 */
module PowerLimit {
  import opened Wrappers

  /** Limits in the units of the configuration file; a missing `tctl` is not passed on. */
  datatype Profile = Profile(stapm: real, fast: real, slow: real, tctl: Option<real>)

  /** What the hardware is limited to. */
  datatype Limits = Limits(stapm: real, fast: real, slow: real, tctl: real)

  function Applied(p: Profile, hw: Limits): Limits {
    Limits(p.stapm, p.fast, p.slow, if p.tctl.Some? then p.tctl.value else hw.tctl)
  }

  // ----- profiles and the configuration -----

  /** A parsed configuration file; `Other` stands for strings, arrays and null. */
  datatype Json = Number(value: real) | Boolean(flag: bool) | Object(members: map<string, Json>) | Other

  /** The number at a key, if there is one; a boolean counts as one or zero. */
  function NumberAt(input: Json, key: string): Option<real> {
    if !input.Object? || key !in input.members then None
    else
      match input.members[key]
      case Number(value) => Some(value)
      case Boolean(flag) => Some(if flag then 1.0 else 0.0)
      case _ => None
  }

  /** A number counts as itself and a boolean as one or zero; strings, arrays, objects and null do not count. */
  lemma NumbersExactly(members: map<string, Json>, key: string, entry: Json, x: real)
    ensures NumberAt(Object(members[key := entry]), key) == Some(x)
       <==> entry in {Number(x), Boolean(true), Boolean(false)}
            && (entry == Boolean(true) ==> x == 1.0) && (entry == Boolean(false) ==> x == 0.0)
    ensures key !in members ==> NumberAt(Object(members), key) == None
  {
  }

  const KEYS: set<string> := {"stapm_limit", "fast_limit", "slow_limit", "tctl_temp"}

  predicate CompleteProfile(input: Json) {
    forall key | key in KEYS :: NumberAt(input, key).Some?
  }

  /** The hardware behind the helper program that sets the limits. */
  class Hardware {
    var limits: Limits

    constructor (limits: Limits)
      ensures this.limits == limits
    {
      this.limits := limits;
    }
  }

  class LimitProfile {
    var stapm: real
    var fast: real
    var slow: real
    var tctl: Option<real>

    function Value(): Profile
      reads this
    {
      Profile(stapm, fast, slow, tctl)
    }

    constructor ()
      ensures Value() == Profile(-1.0, -1.0, -1.0, None)
    {
      stapm, fast, slow, tctl := -1.0, -1.0, -1.0, None;
    }

    constructor Copy(p: Profile)
      ensures Value() == p
    {
      stapm, fast, slow, tctl := p.stapm, p.fast, p.slow, p.tctl;
    }

    /** Fails at the first key without a number; the fields before it have been set by then. */
    method Parse(input: Json) returns (ok: bool)
      modifies this
      ensures ok <==> CompleteProfile(input)
      ensures ok ==> ProfileIs(input, Value())
      ensures stapm == NumberOr(input, ["stapm_limit"], old(stapm))
      ensures fast == NumberOr(input, ["stapm_limit", "fast_limit"], old(fast))
      ensures slow == NumberOr(input, ["stapm_limit", "fast_limit", "slow_limit"], old(slow))
      ensures !ok ==> tctl == old(tctl)
    {
      var number := NumberAt(input, "stapm_limit");
      if number == None {
        return false;
      }
      stapm := number.value;
      number := NumberAt(input, "fast_limit");
      if number == None {
        return false;
      }
      fast := number.value;
      number := NumberAt(input, "slow_limit");
      if number == None {
        return false;
      }
      slow := number.value;
      number := NumberAt(input, "tctl_temp");
      if number == None {
        return false;
      }
      tctl := number;
      return true;
    }

    /** Runs the helper; if it reports an error, it has left the hardware as `failure` says. */
    method Apply(hw: Hardware, failure: Option<Limits>) returns (throws: bool)
      modifies hw
      ensures throws <==> failure.Some?
      ensures hw.limits == if throws then failure.value else Applied(Value(), old(hw.limits))
      ensures !throws ==>
              && hw.limits.stapm == stapm && hw.limits.fast == fast && hw.limits.slow == slow
              && hw.limits.tctl == if tctl.Some? then tctl.value else old(hw.limits.tctl)
    {
      hw.limits := if failure.Some? then failure.value
                   else Limits(stapm, fast, slow, if tctl.Some? then tctl.value else hw.limits.tctl);
      throws := failure.Some?;
    }
  }

  /** The number at the last of the keys if all have one, and otherwise what was there before. */
  function NumberOr(input: Json, keys: seq<string>, before: real): real
    requires keys != []
  {
    if forall key | key in keys :: NumberAt(input, key).Some? then NumberAt(input, keys[|keys| - 1]).value else before
  }

  ghost predicate ProfileIs(input: Json, p: Profile) {
    && NumberAt(input, "stapm_limit") == Some(p.stapm)
    && NumberAt(input, "fast_limit") == Some(p.fast)
    && NumberAt(input, "slow_limit") == Some(p.slow)
    && p.tctl.Some? && NumberAt(input, "tctl_temp") == p.tctl
  }

  /** A configuration, as read. */
  datatype Config = Config(fastMultiplier: real, slowMultiplier: real, profiles: map<string, Profile>)

  predicate Full(p: Profile) {
    p.tctl.Some?
  }

  /** What reading a configuration establishes, or else the program ends. */
  ghost predicate Readable(c: Config) {
    "default" in c.profiles && forall name | name in c.profiles :: Full(c.profiles[name])
  }

  predicate HasProfiles(input: Json) {
    input.Object? && "profiles" in input.members && input.members["profiles"].Object?
  }

  ghost predicate CompleteConfig(input: Json) {
    && NumberAt(input, "fast_multiplier").Some? && NumberAt(input, "slow_multiplier").Some?
    && HasProfiles(input) && "default" in input.members["profiles"].members
    && forall name | name in input.members["profiles"].members ::
         CompleteProfile(input.members["profiles"].members[name])
  }

  /** The file says what the configuration says: both multipliers and every profile, and no other. */
  ghost predicate Describes(input: Json, c: Config) {
    && NumberAt(input, "fast_multiplier") == Some(c.fastMultiplier)
    && NumberAt(input, "slow_multiplier") == Some(c.slowMultiplier)
    && HasProfiles(input)
    && input.members["profiles"].members.Keys == c.profiles.Keys
    && forall name | name in c.profiles :: ProfileIs(input.members["profiles"].members[name], c.profiles[name])
  }

  /**
   Reads the two multipliers, then the profiles one by one. A `profiles` entry that is no object has
   no default profile in it either.
   */
  method ReadConfig(input: Json) returns (r: Option<Config>)
    ensures r.Some? <==> CompleteConfig(input)
    ensures r.Some? ==> Readable(r.value) && Describes(input, r.value)
  {
    var fast := NumberAt(input, "fast_multiplier");
    var slow := NumberAt(input, "slow_multiplier");
    if fast == None || slow == None || !HasProfiles(input) {
      return None;
    }
    var profiles: map<string, Profile> := map[];
    var items := input.members["profiles"].members;
    var left := items.Keys;
    var hasDefault := false;
    while left != {}
      invariant left <= items.Keys && profiles.Keys == items.Keys - left
      invariant hasDefault <==> "default" in profiles
      invariant forall name | name in profiles ::
        CompleteProfile(items[name]) && ProfileIs(items[name], profiles[name]) && Full(profiles[name])
      decreases |left|
    {
      var name :| name in left;
      if name == "default" {
        hasDefault := true;
      }
      var profile := new LimitProfile();
      var ok := profile.Parse(items[name]);
      if !ok {
        return None;
      }
      profiles := profiles[name := Profile(profile.stapm, profile.fast, profile.slow, profile.tctl)];
      left := left - {name};
    }
    if !hasDefault {
      return None;
    }
    return Some(Config(fast.value, slow.value, profiles));
  }

  lemma DescribesOnce(input: Json, c: Config, d: Config)
    requires Describes(input, c) && Describes(input, d)
    ensures c == d
  {
    assert forall name | name in c.profiles :: ProfileIs(input.members["profiles"].members[name], d.profiles[name]);
    assert c.profiles == d.profiles;
  }

  // ----- a configuration written out -----

  function WrittenProfile(p: Profile): Json
    requires Full(p)
  {
    Object(map["stapm_limit" := Number(p.stapm), "fast_limit" := Number(p.fast), "slow_limit" := Number(p.slow),
               "tctl_temp" := Number(p.tctl.value)])
  }

  function Written(c: Config): Json
    requires forall name | name in c.profiles :: Full(c.profiles[name])
  {
    File(c.fastMultiplier, c.slowMultiplier, map name | name in c.profiles :: WrittenProfile(c.profiles[name]))
  }

  function File(fast: real, slow: real, profiles: map<string, Json>): (r: Json)
    ensures NumberAt(r, "fast_multiplier") == Some(fast) && NumberAt(r, "slow_multiplier") == Some(slow)
    ensures HasProfiles(r) && r.members["profiles"].members == profiles
  {
    Object(map["fast_multiplier" := Number(fast), "slow_multiplier" := Number(slow), "profiles" := Object(profiles)])
  }

  lemma WrittenProfileRead(p: Profile, r: Profile)
    requires Full(p)
    ensures CompleteProfile(WrittenProfile(p))
    ensures ProfileIs(WrittenProfile(p), r) <==> r == p
  {
  }

  /** Reading inverts writing: a written configuration is accepted, and describes nothing but itself. */
  lemma ReadsWritten(c: Config, r: Config)
    requires Readable(c)
    ensures CompleteConfig(Written(c))
    ensures Describes(Written(c), r) <==> r == c
  {
    var profiles := Written(c).members["profiles"].members;
    assert profiles.Keys == c.profiles.Keys;
    forall name | name in c.profiles
      ensures CompleteProfile(profiles[name]) && ProfileIs(profiles[name], c.profiles[name])
      ensures name in r.profiles && ProfileIs(profiles[name], r.profiles[name]) ==> r.profiles[name] == c.profiles[name]
    {
      WrittenProfileRead(c.profiles[name], c.profiles[name]);
      if name in r.profiles {
        WrittenProfileRead(c.profiles[name], r.profiles[name]);
      }
    }
    if Describes(Written(c), r) {
      assert r.profiles == c.profiles;
    }
  }

  function Default(c: Config): Profile
    requires Readable(c)
  {
    c.profiles["default"]
  }

  /** The limits a full profile sets, whatever they were before. */
  function LimitsOf(p: Profile): Limits
    requires Full(p)
  {
    Limits(p.stapm, p.fast, p.slow, p.tctl.value)
  }

  // ----- the processes -----

  datatype Mode = Init | Named(name: string)

  /** Where a process stands in the program; `Waiting` is the pause between apply and restore. */
  datatype Proc =
    | NotStarted
    | Opened(mode: Mode)
    | Locked(mode: Mode)
    | Waiting(mode: Mode)
    | Unlocking(mode: Mode)
    | Exited(success: bool)
  {
    predicate Critical() {
      Locked? || Waiting? || Unlocking?
    }
  }

  datatype State = State(limits: Limits, lock: Option<nat>, lockFile: bool, procs: map<nat, Proc>)

  /**
   `ApplyFails` is a helper program that reports an error and leaves the hardware in any state; a
   `Kill` includes a signal that arrives before its handler is installed. The kernel drops the lock
   of a process that ends.
   */
  datatype Action =
    | Open(p: nat, mode: Mode)
    | TryLock(p: nat)
    | Apply(p: nat)
    | Restore(p: nat)
    | Unlock(p: nat)
    | ApplyFails(p: nat, left: Limits)
    | Kill(p: nat)

  function At(s: State, p: nat): Proc {
    if p in s.procs then s.procs[p] else NotStarted
  }

  function Goto(s: State, p: nat, proc: Proc): State {
    s.(procs := s.procs[p := proc])
  }

  function ProfileOf(c: Config, mode: Mode): Option<Profile>
    requires Readable(c)
  {
    match mode
    case Init => Some(Default(c))
    case Named(name) => if name in c.profiles then Some(c.profiles[name]) else None
  }

  /** An action that does not fit where its process stands changes nothing. */
  function Step(c: Config, s: State, a: Action): State
    requires Readable(c)
  {
    match a
    case Open(p, mode) =>
      if !At(s, p).NotStarted? then s
      else if ProfileOf(c, mode) == None || (mode.Named? && !s.lockFile) then Goto(s, p, Exited(false))
      else Goto(s, p, Opened(mode)).(lockFile := true)
    case TryLock(p) =>
      if !At(s, p).Opened? then s
      else if s.lock.Some? then Goto(s, p, Exited(false))
      else Goto(s, p, Locked(At(s, p).mode)).(lock := Some(p))
    case Apply(p) =>
      if !At(s, p).Locked? || ProfileOf(c, At(s, p).mode) == None then s
      else
        var next := if At(s, p).mode.Init? then Unlocking(At(s, p).mode) else Waiting(At(s, p).mode);
        Goto(s, p, next).(limits := Applied(ProfileOf(c, At(s, p).mode).value, s.limits))
    case Restore(p) =>
      if !At(s, p).Waiting? then s
      else Goto(s, p, Unlocking(At(s, p).mode)).(limits := Applied(Default(c), s.limits))
    case Unlock(p) =>
      if !At(s, p).Unlocking? then s
      else Goto(s, p, Exited(true)).(lock := None)
    case ApplyFails(p, left) =>
      if !At(s, p).Locked? && !At(s, p).Waiting? then s
      else Goto(s, p, Exited(false)).(lock := None, limits := left)
    case Kill(p) =>
      var proc := At(s, p);
      if proc.NotStarted? || proc.Exited? then s
      else
        Goto(s, p, Exited(false)).(lock := if proc.Critical() then None else s.lock)
  }

  function Run(c: Config, s: State, actions: seq<Action>): State
    requires Readable(c)
  {
    if actions == [] then s else Step(c, Run(c, s, actions[..|actions| - 1]), actions[|actions| - 1])
  }

  /** Booted, with the lock file there or not. */
  function Boot(limits: Limits, lockFile: bool): State {
    State(limits, None, lockFile, map[])
  }

  // ----- the last use of the hardware, read off the actions -----

  /** How the latest process that used the hardware ended: after the restore, or cut off before. */
  datatype Use = Unused | Restored | CutOff(limits: Limits)

  function UseAfter(c: Config, s: State, a: Action, last: Use): Use
    requires Readable(c)
  {
    match a
    case Unlock(p) => if At(s, p).Unlocking? then Restored else last
    case ApplyFails(p, left) => if At(s, p).Locked? || At(s, p).Waiting? then CutOff(left) else last
    case Kill(p) =>
      if At(s, p).Unlocking? then Restored
      else if At(s, p).Waiting? && ProfileOf(c, At(s, p).mode).Some? then
        CutOff(LimitsOf(ProfileOf(c, At(s, p).mode).value))
      else last
    case _ => last
  }

  function LastUse(c: Config, s: State, actions: seq<Action>): Use
    requires Readable(c)
  {
    if actions == [] then Unused
    else
      var earlier := actions[..|actions| - 1];
      UseAfter(c, Run(c, s, earlier), actions[|actions| - 1], LastUse(c, s, earlier))
  }

  function Expected(c: Config, initial: Limits, use: Use): Limits
    requires Readable(c)
  {
    match use
    case Unused => initial
    case Restored => LimitsOf(Default(c))
    case CutOff(limits) => limits
  }

  ghost predicate ProcOk(c: Config, s: State, p: nat)
    requires Readable(c)
  {
    match At(s, p)
    case NotStarted => s.lock != Some(p)
    case Exited(_) => s.lock != Some(p)
    case Opened(mode) => s.lock != Some(p) && ProfileOf(c, mode).Some? && s.lockFile
    case Locked(mode) => s.lock == Some(p) && ProfileOf(c, mode).Some?
    case Waiting(mode) =>
      s.lock == Some(p) && ProfileOf(c, mode).Some? && s.limits == LimitsOf(ProfileOf(c, mode).value)
    case Unlocking(_) => s.lock == Some(p) && s.limits == LimitsOf(Default(c))
  }

  ghost predicate Inv(c: Config, initial: Limits, use: Use, s: State)
    requires Readable(c)
  {
    && (forall p: nat :: ProcOk(c, s, p))
    && (s.lock.Some? ==> s.lockFile)
    && (match s.lock
        case None => s.limits == Expected(c, initial, use)
        case Some(p) => At(s, p).Locked? ==> s.limits == Expected(c, initial, use))
  }

  lemma StepKeeps(c: Config, initial: Limits, use: Use, s: State, a: Action)
    requires Readable(c) && Inv(c, initial, use, s)
    ensures Inv(c, initial, UseAfter(c, s, a, use), Step(c, s, a))
  {
    var t := Step(c, s, a);
    assert ProcOk(c, s, a.p);
    forall q: nat ensures ProcOk(c, t, q) {
      assert ProcOk(c, s, q);
    }
  }

  lemma {:induction false} RunKeeps(c: Config, initial: Limits, lockFile: bool, actions: seq<Action>)
    requires Readable(c)
    ensures var boot := Boot(initial, lockFile);
            Inv(c, initial, LastUse(c, boot, actions), Run(c, boot, actions))
  {
    if actions != [] {
      var boot, earlier := Boot(initial, lockFile), actions[..|actions| - 1];
      RunKeeps(c, initial, lockFile, earlier);
      StepKeeps(c, initial, LastUse(c, boot, earlier), Run(c, boot, earlier), actions[|actions| - 1]);
    }
  }

  /**
   Over every interleaving, with processes killed and helpers failing anywhere: at most one process
   is between lock and unlock, a waiting process has its profile in force, and while the lock is
   free the limits are exactly what the last use left: nothing at all, the default profile, or what
   was in force when it was cut off.
   */
  lemma LimitsFollowTheLock(c: Config, initial: Limits, lockFile: bool, actions: seq<Action>)
    requires Readable(c)
    ensures var s := Run(c, Boot(initial, lockFile), actions);
            && (forall p: nat, q: nat | At(s, p).Critical() && At(s, q).Critical() :: p == q)
            && (forall p: nat | At(s, p).Critical() :: s.lock == Some(p) && s.lockFile)
            && (forall p: nat | At(s, p).Waiting? && At(s, p).mode.Named? ::
                  At(s, p).mode.name in c.profiles && s.limits == LimitsOf(c.profiles[At(s, p).mode.name]))
            && (s.lock == None ==> s.limits == Expected(c, initial, LastUse(c, Boot(initial, lockFile), actions)))
  {
    RunKeeps(c, initial, lockFile, actions);
    var s := Run(c, Boot(initial, lockFile), actions);
    forall p: nat | At(s, p).Critical()
      ensures s.lock == Some(p) && s.lockFile
      ensures At(s, p).Waiting? && At(s, p).mode.Named? ==>
                At(s, p).mode.name in c.profiles && s.limits == LimitsOf(c.profiles[At(s, p).mode.name])
    {
      assert ProcOk(c, s, p);
    }
  }

  /** The limits the tool is there to leave behind: the default ones, once anybody has used it. */
  function Promised(c: Config, initial: Limits, use: Use): Limits
    requires Readable(c)
  {
    if use.Unused? then initial else LimitsOf(Default(c))
  }

  /** A failing helper, or the death of a process between apply and restore. */
  predicate Disturbs(s: State, a: Action) {
    (a.ApplyFails? && (At(s, a.p).Locked? || At(s, a.p).Waiting?)) || (a.Kill? && At(s, a.p).Waiting?)
  }

  /** No action disturbs the process it finds; kills at any other place are allowed. */
  predicate Orderly(c: Config, s: State, actions: seq<Action>)
    requires Readable(c)
  {
    actions == [] ||
    var earlier := actions[..|actions| - 1];
    Orderly(c, s, earlier) && !Disturbs(Run(c, s, earlier), actions[|actions| - 1])
  }

  lemma {:induction false} OrderlyUse(c: Config, s: State, actions: seq<Action>)
    requires Readable(c) && Orderly(c, s, actions)
    ensures !LastUse(c, s, actions).CutOff?
  {
    if actions != [] {
      OrderlyUse(c, s, actions[..|actions| - 1]);
    }
  }

  /** If no process dies between apply and restore and no helper fails, a free lock means the promised limits. */
  lemma OrderlyRunsRestore(c: Config, initial: Limits, lockFile: bool, actions: seq<Action>)
    requires Readable(c) && Orderly(c, Boot(initial, lockFile), actions)
    ensures var s := Run(c, Boot(initial, lockFile), actions);
            s.lock == None ==> s.limits == Promised(c, initial, LastUse(c, Boot(initial, lockFile), actions))
  {
    LimitsFollowTheLock(c, initial, lockFile, actions);
    OrderlyUse(c, Boot(initial, lockFile), actions);
  }

  /** Over any run, a free lock means the promised limits unless the last use was cut off under others. */
  lemma RestoredExactly(c: Config, initial: Limits, lockFile: bool, actions: seq<Action>)
    requires Readable(c) && Run(c, Boot(initial, lockFile), actions).lock == None
    ensures var s := Run(c, Boot(initial, lockFile), actions);
            var use := LastUse(c, Boot(initial, lockFile), actions);
            s.limits == Promised(c, initial, use) <==> !(use.CutOff? && use.limits != LimitsOf(Default(c)))
  {
    LimitsFollowTheLock(c, initial, lockFile, actions);
  }

  /** Only the holder of the lock changes the limits; a refused attempt changes nothing but itself. */
  lemma OnlyHolderSetsLimits(c: Config, initial: Limits, lockFile: bool, actions: seq<Action>, a: Action)
    requires Readable(c)
    ensures var s := Run(c, Boot(initial, lockFile), actions);
            var t := Step(c, s, a);
            && (t.limits != s.limits ==> s.lock == Some(a.p))
            && (t.lock != s.lock ==> s.lock == Some(a.p) || (s.lock == None && a.TryLock?))
            && (a.TryLock? && s.lock.Some? && At(s, a.p).Opened? ==> t == Goto(s, a.p, Exited(false)))
            && (forall q: nat | q != a.p :: At(t, q) == At(s, q))
  {
    RunKeeps(c, initial, lockFile, actions);
    assert ProcOk(c, Run(c, Boot(initial, lockFile), actions), a.p);
  }

  function Place(proc: Proc): nat {
    match proc
    case NotStarted => 0
    case Opened(_) => 1
    case Locked(_) => 2
    case Waiting(_) => 3
    case Unlocking(_) => 4
    case Exited(_) => 5
  }

  /**
   A process goes through its places one by one, with the mode it was started in, unless it ends; only
   an initializing one does not wait. An ended process stays ended.
   */
  lemma PlacesInOrder(c: Config, s: State, a: Action)
    requires Readable(c)
    ensures var was, now := At(s, a.p), At(Step(c, s, a), a.p);
            && (was.Exited? ==> now == was)
            && (now != was && !now.Exited? ==>
                  && Place(now) == Place(was) + (if was.Locked? && was.mode.Init? then 2 else 1)
                  && (!was.NotStarted? ==> now.mode == was.mode) && (was.NotStarted? ==> a.Open? && now.mode == a.mode))
  {
  }

  /**
   Over every interleaving, what ends a process and with which exit status: it succeeds exactly by
   unlocking, and then the default limits are in force. It fails when it is killed, its helper reports
   an error, the lock is taken, or its profile or the lock file is missing. It never keeps the lock.
   */
  lemma EndsExactly(c: Config, initial: Limits, lockFile: bool, actions: seq<Action>, a: Action)
    requires Readable(c)
    ensures var s := Run(c, Boot(initial, lockFile), actions);
            var t := Step(c, s, a);
            var was, now := At(s, a.p), At(t, a.p);
            && (now.Exited? && !was.Exited? <==>
                  || (a.Unlock? && was.Unlocking?)
                  || (a.Kill? && !was.NotStarted? && !was.Exited?)
                  || (a.ApplyFails? && (was.Locked? || was.Waiting?))
                  || (a.TryLock? && was.Opened? && s.lock.Some?)
                  || (a.Open? && was.NotStarted? && a.mode.Named? && (a.mode.name !in c.profiles || !s.lockFile)))
            && (now.Exited? && !was.Exited? ==> now.success == a.Unlock? && t.lock != Some(a.p))
            && (now.Exited? && !was.Exited? && now.success ==> t.lock == None && t.limits == LimitsOf(Default(c)))
  {
    RunKeeps(c, initial, lockFile, actions);
    assert ProcOk(c, Run(c, Boot(initial, lockFile), actions), a.p);
  }

  /**
   Whatever earlier processes left behind, a process that takes a free lock and is not disturbed
   ends with the default profile in force.
   */
  lemma NormalProcessRecovers(c: Config, s: State, p: nat)
    requires Readable(c) && s.lock == None && At(s, p).Opened? && ProfileOf(c, At(s, p).mode).Some?
    ensures var steps := if At(s, p).mode.Init? then [TryLock(p), Apply(p), Unlock(p)]
                         else [TryLock(p), Apply(p), Restore(p), Unlock(p)];
            var t := Run(c, s, steps);
            t.limits == LimitsOf(Default(c)) && t.lock == None && At(t, p) == Exited(true)
  {
    var locked := Step(c, s, TryLock(p));
    var applied := Step(c, locked, Apply(p));
    assert [TryLock(p)][..0] == [];
    assert [TryLock(p), Apply(p)][..1] == [TryLock(p)];
    assert Run(c, s, [TryLock(p)]) == locked;
    assert Run(c, s, [TryLock(p), Apply(p)]) == applied;
    if At(s, p).mode.Init? {
      assert [TryLock(p), Apply(p), Unlock(p)][..2] == [TryLock(p), Apply(p)];
    } else {
      assert [TryLock(p), Apply(p), Restore(p)][..2] == [TryLock(p), Apply(p)];
      assert [TryLock(p), Apply(p), Restore(p), Unlock(p)][..3] == [TryLock(p), Apply(p), Restore(p)];
      assert Run(c, s, [TryLock(p), Apply(p), Restore(p)]) == Step(c, applied, Restore(p));
    }
  }

  predicate CreatesLockFile(s: State, a: Action) {
    a.Open? && a.mode.Init? && At(s, a.p).NotStarted?
  }

  /** Some action of a run starts an initializing process. */
  ghost predicate Initialized(c: Config, s: State, actions: seq<Action>)
    requires Readable(c)
  {
    exists i | 0 <= i < |actions| :: CreatesLockFile(Run(c, s, actions[..i]), actions[i])
  }

  lemma InitializedNext(c: Config, s: State, earlier: seq<Action>, a: Action)
    requires Readable(c)
    ensures Initialized(c, s, earlier + [a]) <==> Initialized(c, s, earlier) || CreatesLockFile(Run(c, s, earlier), a)
  {
    var all := earlier + [a];
    assert forall i | 0 <= i < |earlier| :: all[..i] == earlier[..i] && all[i] == earlier[i];
    assert all[..|earlier|] == earlier;
  }

  lemma LockFileStep(c: Config, s: State, a: Action)
    requires Readable(c)
    ensures Step(c, s, a).lockFile <==> s.lockFile || CreatesLockFile(s, a)
  {
  }

  /** The lock file is there if and only if it was at boot or an initializing process has started since. */
  lemma {:induction false} LockFileExactly(c: Config, initial: Limits, lockFile: bool, actions: seq<Action>)
    requires Readable(c)
    ensures var boot := Boot(initial, lockFile);
            Run(c, boot, actions).lockFile <==> lockFile || Initialized(c, boot, actions)
  {
    if actions != [] {
      var boot, earlier, a := Boot(initial, lockFile), actions[..|actions| - 1], actions[|actions| - 1];
      LockFileExactly(c, initial, lockFile, earlier);
      assert actions == earlier + [a];
      InitializedNext(c, boot, earlier, a);
      LockFileStep(c, Run(c, boot, earlier), a);
    }
  }

  /** The restriction is needed: a process killed while it waits leaves its profile. */
  lemma KilledWaiterLeavesProfile(c: Config, initial: Limits, p: nat, name: string)
    requires Readable(c) && name in c.profiles && c.profiles[name] != Default(c)
    ensures var t := Run(c, Boot(initial, true), [Open(p, Named(name)), TryLock(p), Apply(p), Kill(p)]);
            t.lock == None && t.limits == LimitsOf(c.profiles[name]) && t.limits != LimitsOf(Default(c))
  {
    var x := [Open(p, Named(name)), TryLock(p), Apply(p), Kill(p)];
    assert x[..3][..2] == x[..2] && x[..2][..1] == x[..1] && x[..1][..0] == [];
    assert Run(c, Boot(initial, true), x[..1]) == Step(c, Boot(initial, true), x[0]);
    assert Run(c, Boot(initial, true), x[..2]) == Step(c, Run(c, Boot(initial, true), x[..1]), x[1]);
    assert Run(c, Boot(initial, true), x[..3]) == Step(c, Run(c, Boot(initial, true), x[..2]), x[2]);
  }

  // ----- one process, step by step -----

  class FileLock {
    var owner: Option<nat>

    constructor (owner: Option<nat>)
      ensures this.owner == owner
    {
      this.owner := owner;
    }

    method TryLock(p: nat) returns (ok: bool)
      modifies this
      ensures ok <==> old(owner) == None
      ensures owner == if ok then Some(p) else old(owner)
    {
      ok := owner == None;
      if ok {
        owner := Some(p);
      }
    }

    method Unlock()
      modifies this
      ensures owner == None
    {
      owner := None;
    }
  }

  /** What one process does if its first and its second helper fail as given, or not at all. */
  function Program(p: nat, mode: Mode, first: Option<Limits>, second: Option<Limits>): seq<Action> {
    [Open(p, mode), TryLock(p),
     if first.Some? then ApplyFails(p, first.value) else Apply(p),
     if mode.Init? then Unlock(p) else if second.Some? then ApplyFails(p, second.value) else Restore(p),
     Unlock(p)]
  }

  lemma RunProgram(c: Config, s: State, x: seq<Action>)
    requires Readable(c) && |x| == 5
    ensures Run(c, s, x) == Step(c, Step(c, Step(c, Step(c, Step(c, s, x[0]), x[1]), x[2]), x[3]), x[4])
  {
    assert x[..4][..3] == x[..3] && x[..3][..2] == x[..2] && x[..2][..1] == x[..1] && x[..1][..0] == [];
    var s1 := Step(c, s, x[0]);
    var s2 := Step(c, s1, x[1]);
    var s3 := Step(c, s2, x[2]);
    assert Run(c, s, x[..1]) == s1;
    assert Run(c, s, x[..2]) == s2;
    assert Run(c, s, x[..3]) == s3;
    assert Run(c, s, x[..4]) == Step(c, s3, x[3]);
  }

  /** Where the program of a process that has not started ends, given where it stops. */
  lemma ProgramEnds(c: Config, s: State, p: nat, mode: Mode, first: Option<Limits>, second: Option<Limits>)
    requires Readable(c) && At(s, p).NotStarted?
    ensures var t := Run(c, s, Program(p, mode, first, second));
            var profile := ProfileOf(c, mode);
            if profile == None || (mode.Named? && !s.lockFile) then
              t == Goto(s, p, Exited(false))
            else if s.lock.Some? then
              t.limits == s.limits && t.lock == s.lock && t.lockFile && At(t, p) == Exited(false)
            else
              && t.lock == None && t.lockFile
              && (At(t, p) == Exited(first == None && (mode.Init? || second == None)))
              && t.limits == if first.Some? then first.value
                             else if mode.Init? then Applied(profile.value, s.limits)
                             else if second.Some? then second.value
                             else Applied(Default(c), Applied(profile.value, s.limits))
  {
    RunProgram(c, s, Program(p, mode, first, second));
  }

  /**
   The program of one process is its sequence of actions, whichever helper fails. A process that a
   failing helper ends does not unlock; the kernel does.
   */
  method RunProcess(c: Config, mode: Mode, p: nat, lockFile: bool, lock: FileLock, hw: Hardware,
                    first: Option<Limits>, second: Option<Limits>)
    returns (success: bool, file: bool)
    requires Readable(c)
    modifies lock, hw
    ensures var t := Run(c, State(old(hw.limits), old(lock.owner), lockFile, map[]), Program(p, mode, first, second));
            hw.limits == t.limits && lock.owner == t.lock && file == t.lockFile && At(t, p) == Exited(success)
  {
    ProgramEnds(c, State(hw.limits, lock.owner, lockFile, map[]), p, mode, first, second);
    file := lockFile;
    var defProfile := new LimitProfile.Copy(c.profiles["default"]);
    var limitProfile := new LimitProfile();
    if mode.Init? {
      file := true;
      limitProfile := defProfile;
    } else {
      if mode.name !in c.profiles {
        return false, file;
      }
      limitProfile := new LimitProfile.Copy(c.profiles[mode.name]);
      if !lockFile {
        return false, file;
      }
    }
    var locked := lock.TryLock(p);
    if !locked {
      return false, file;
    }
    var throws := limitProfile.Apply(hw, first);
    if throws {
      lock.Unlock();
      return false, file;
    }
    if !mode.Init? {
      throws := defProfile.Apply(hw, second);
      if throws {
        lock.Unlock();
        return false, file;
      }
    }
    lock.Unlock();
    return true, file;
  }
}
