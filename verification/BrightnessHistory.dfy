/**
 What the brightness daemon guarantees over whole histories: any datagrams, any number of restarts
 and crashes, and any brightness other programs set while it is not running.
 */
module BrightnessHistory {
  import opened BrightnessCodec
  import opened BrightnessDaemon
  import opened Bytes

  /** `Start` carries the brightness found in sysfs, `Datagram` what an overflowing sum gives. */
  datatype Event = Start(hardware: u32) | Datagram(bytes: seq<u8>, overflow: i32) | Stop | Crash

  datatype World = World(state: State, running: bool)

  /** An event that does not fit the state of the process changes nothing. */
  function Step(cfg: Config, w: World, e: Event): World {
    match e
    case Start(hardware) =>
      if w.running then w
      else World(Restore(cfg, State(hardware, hardware, Stream(w.state.storage.file, 0, true))), true)
    case Datagram(bytes, overflow) =>
      if w.running then w.(state := Handle(cfg, w.state, bytes, overflow)) else w
    case Stop => if w.running then World(Save(w.state), false) else w
    case Crash => w.(running := false)
  }

  function Run(cfg: Config, w: World, events: seq<Event>): World {
    if events == [] then w else Step(cfg, Run(cfg, w, events[..|events| - 1]), events[|events| - 1])
  }

  // ----- one lifetime is a stretch of a history -----

  /** The datagrams as events, from a process that has just started on. */
  function Serving(hardware: u32, datagrams: seq<(seq<u8>, i32)>): seq<Event> {
    if datagrams == [] then [Start(hardware)]
    else
      var last := datagrams[|datagrams| - 1];
      Serving(hardware, datagrams[..|datagrams| - 1]) + [Datagram(last.0, last.1)]
  }

  lemma {:induction false} ServingRuns(cfg: Config, w: World, hardware: u32, datagrams: seq<(seq<u8>, i32)>)
    requires !w.running
    ensures var started := State(hardware, hardware, Stream(w.state.storage.file, 0, true));
            Run(cfg, w, Serving(hardware, datagrams))
            == World(HandleAll(cfg, Restore(cfg, started), datagrams), true)
  {
    var events := Serving(hardware, datagrams);
    if datagrams == [] {
      assert events[..0] == [];
    } else {
      ServingRuns(cfg, w, hardware, datagrams[..|datagrams| - 1]);
      assert events[..|events| - 1] == Serving(hardware, datagrams[..|datagrams| - 1]);
    }
  }

  /** What BrightnessDaemon.Lifetime leaves behind is what a start, the datagrams and a stop lead to. */
  lemma LifetimeIsRun(cfg: Config, w: World, hardware: u32, datagrams: seq<(seq<u8>, i32)>)
    requires !w.running
    ensures var started := State(hardware, hardware, Stream(w.state.storage.file, 0, true));
            Run(cfg, w, Serving(hardware, datagrams) + [Stop])
            == World(Save(HandleAll(cfg, Restore(cfg, started), datagrams)), false)
  {
    ServingRuns(cfg, w, hardware, datagrams);
    var served := Serving(hardware, datagrams);
    assert (served + [Stop])[..|served|] == served;
  }

  /** sysfs never reports more than the maximum. */
  ghost predicate InRange(cfg: Config, events: seq<Event>) {
    forall i | 0 <= i < |events| && events[i].Start? :: events[i].hardware <= cfg.max
  }

  // ----- the state file -----

  datatype StorageOp = Untouched | Saved(value: u32) | Consumed

  /** The latest storage operation, told from the events and the brightness when they happened. */
  function LatestOp(cfg: Config, w: World, events: seq<Event>): StorageOp {
    if events == [] then Untouched
    else
      var earlier := events[..|events| - 1];
      var now := Run(cfg, w, earlier);
      match events[|events| - 1]
      case Start(_) => if now.running then LatestOp(cfg, w, earlier) else Consumed
      case Stop => if now.running then Saved(now.state.current) else LatestOp(cfg, w, earlier)
      case Crash => LatestOp(cfg, w, earlier)
      case Datagram(bytes, _) =>
        if now.running && Decode(bytes) == Execute(SaveState) then Saved(now.state.current)
        else if now.running && Decode(bytes) == Execute(RestoreState) then Consumed
        else LatestOp(cfg, w, earlier)
  }

  ghost predicate BrightnessOk(cfg: Config, s: State) {
    s.current == s.hardware <= cfg.max
  }

  ghost predicate StreamReady(s: Stream) {
    s.pos == 0 && s.good
  }

  ghost predicate FileMatches(cfg: Config, op: StorageOp, file: seq<u8>) {
    match op
    case Untouched => true
    case Saved(v) => v <= cfg.max && file == Le32(v)
    case Consumed => file == []
  }

  ghost predicate Inv(cfg: Config, w: World, op: StorageOp) {
    && (w.running ==> BrightnessOk(cfg, w.state) && StreamReady(w.state.storage) && !op.Untouched?)
    && FileMatches(cfg, op, w.state.storage.file)
  }

  lemma SaveWrites(cfg: Config, s: State)
    requires StreamReady(s.storage) && (s.storage.file == [] || |s.storage.file| == 4)
    ensures Save(s) == s.(storage := Stream(Le32(s.current), 0, true))
  {
  }

  /** A file that holds a saved brightness gives it back, once. */
  lemma RestoreReads(cfg: Config, s: State, v: u32)
    requires StreamReady(s.storage) && s.storage.file == Le32(v) && v <= cfg.max
    ensures Restore(cfg, s) == State(v, v, Stream([], 0, true))
  {
    U32AtOfLe32(s.storage.file, 0, v);
  }

  /**
   A restore from any file: the first four bytes are set if there are as many and they are in range;
   in any case the file is empty afterwards and the stream usable.
   */
  lemma RestoreExactly(cfg: Config, s: State)
    requires StreamReady(s.storage)
    ensures var t := Restore(cfg, s);
            && t.storage == Stream([], 0, true)
            && if |s.storage.file| >= 4 && LittleEndian(s.storage.file[..4]) <= cfg.max then
                 t.hardware == t.current == LittleEndian(s.storage.file[..4])
               else t.hardware == s.hardware && t.current == s.current
  {
    WordsAreLittleEndian(s.storage.file, 0);
    if |s.storage.file| >= 4 {
      assert s.storage.file[0..4] == s.storage.file[..4];
    }
  }

  lemma HandleKeeps(cfg: Config, s: State, op: StorageOp, bytes: seq<u8>, overflow: i32)
    requires Inv(cfg, World(s, true), op)
    ensures var op' := if Decode(bytes) == Execute(SaveState) then Saved(s.current)
                       else if Decode(bytes) == Execute(RestoreState) then Consumed
                       else op;
            Inv(cfg, World(Handle(cfg, s, bytes, overflow), true), op')
  {
  }

  lemma {:induction false} HistoryInv(cfg: Config, w: World, events: seq<Event>)
    requires !w.running && InRange(cfg, events)
    ensures Inv(cfg, Run(cfg, w, events), LatestOp(cfg, w, events))
  {
    if events != [] {
      var earlier, e := events[..|events| - 1], events[|events| - 1];
      HistoryInv(cfg, w, earlier);
      var now, op := Run(cfg, w, earlier), LatestOp(cfg, w, earlier);
      match e
      case Datagram(bytes, overflow) =>
        if now.running {
          HandleKeeps(cfg, now.state, op, bytes, overflow);
        }
      case Stop =>
        if now.running {
          SaveWrites(cfg, now.state);
        }
      case Start(_) =>
      case Crash =>
    }
  }

  /**
   From the first start on, whatever the file held before: the file is empty, or it is the four
   bytes of v, and it is the latter exactly when the latest storage operation saved v.
   */
  lemma {:induction false} StorageFollowsHistory(cfg: Config, w: World, events: seq<Event>, v: u32)
    requires !w.running && InRange(cfg, events) && !LatestOp(cfg, w, events).Untouched?
    ensures var file := Run(cfg, w, events).state.storage.file;
            && (file == [] || |file| == 4)
            && (file == Le32(v) <==> LatestOp(cfg, w, events) == Saved(v))
  {
    HistoryInv(cfg, w, events);
    var op := LatestOp(cfg, w, events);
    if op.Saved? {
      U32AtOfLe32(Le32(v), 0, v);
      U32AtOfLe32(Le32(op.value), 0, op.value);
    }
  }

  /** While the daemon runs, its brightness is the hardware's and in range, and the file is rewound. */
  lemma {:induction false} RunningInvariant(cfg: Config, w: World, events: seq<Event>)
    requires !w.running && InRange(cfg, events) && Run(cfg, w, events).running
    ensures var s := Run(cfg, w, events).state;
            s.current == s.hardware <= cfg.max && s.storage.pos == 0 && s.storage.good
  {
    HistoryInv(cfg, w, events);
  }

  /**
   Which datagrams make the daemon log an error in any reachable state, by their bytes: a command with
   the wrong length of its value, or a brightness out of range. They change nothing.
   */
  lemma {:induction false} ErrorsExactly(cfg: Config, w: World, events: seq<Event>, datagram: seq<u8>, overflow: i32)
    requires !w.running && InRange(cfg, events) && Run(cfg, w, events).running
    ensures var s := Run(cfg, w, events).state;
            var throws := Throws(cfg, s, Decode(datagram));
            && (throws <==>
                  || (WellFramed(datagram) && datagram[0] <= 4 && datagram[1] != if datagram[0] <= 1 then 4 else 0)
                  || (exists v: u32 :: v > cfg.max && datagram == Encode(SetState(v)))
                  || (cfg.powersave > cfg.max && datagram == [4, 0]))
            && (throws ==> Handle(cfg, s, datagram, overflow) == s)
  {
    HistoryInv(cfg, w, events);
    VerdictExactly(datagram);
    forall c: Command ensures Decode(datagram) == Execute(c) <==> datagram == Encode(c) {
      CodecExact(datagram, c);
    }
  }

  /**
   A restart ends at the brightness of the last save, whatever was set in between: after a signal
   that is the brightness the daemon ended with; after a crash, the last save not consumed since, or
   the brightness found.
   */
  lemma {:induction false} RestartRestores(cfg: Config, w: World, events: seq<Event>, found: u32)
    requires !w.running && InRange(cfg, events) && found <= cfg.max && Run(cfg, w, events).running
    ensures var now := Run(cfg, w, events);
            var op := LatestOp(cfg, w, events);
            && Step(cfg, Step(cfg, now, Stop), Start(found))
               == World(State(now.state.current, now.state.current, Stream([], 0, true)), true)
            && Step(cfg, Step(cfg, now, Crash), Start(found))
               == (var v := if op.Saved? then op.value else found;
                   World(State(v, v, Stream([], 0, true)), true))
  {
    HistoryInv(cfg, w, events);
    var now, op := Run(cfg, w, events), LatestOp(cfg, w, events);
    SaveWrites(cfg, now.state);
    RestoreReads(cfg, State(found, found, Stream(Le32(now.state.current), 0, true)), now.state.current);
    if op.Saved? {
      RestoreReads(cfg, State(found, found, Stream(Le32(op.value), 0, true)), op.value);
    }
  }

  /** A second restore changes nothing, from any state of the stream. */
  lemma RestoreOnce(cfg: Config, s: State)
    ensures Restore(cfg, Restore(cfg, s)) == Restore(cfg, s)
  {
  }

  /** A datagram that is not precisely a command's encoding changes nothing. */
  lemma OnlyCommandsAct(cfg: Config, s: State, datagram: seq<u8>, overflow: i32)
    requires Handle(cfg, s, datagram, overflow) != s
    ensures exists c :: datagram == Encode(c)
  {
    var c := Decode(datagram).command;
    CodecExact(datagram, c);
  }

  // ----- the brightness as a function of where it started -----

  /** The map x -> Clamp(x + shift, lo, hi). */
  datatype Ramp = Ramp(shift: int, lo: int, hi: int)

  function Apply(r: Ramp, x: int): int {
    Clamp(x + r.shift, r.lo, r.hi)
  }

  function Target(cfg: Config, c: Command): int {
    match c
    case SetState(value) => value
    case SetPowersave => cfg.powersave
    case _ => -1
  }

  function After(cfg: Config, r: Ramp, verdict: Verdict): Ramp {
    match verdict
    case Execute(ModifyState(step)) =>
      Ramp(r.shift + step, Clamp(r.lo + step, 0, cfg.max), Clamp(r.hi + step, 0, cfg.max))
    case Execute(c) => if 0 <= Target(cfg, c) <= cfg.max then Ramp(r.shift, Target(cfg, c), Target(cfg, c)) else r
    case _ => r
  }

  /** Computed from the datagrams alone. */
  function RampOf(cfg: Config, datagrams: seq<(seq<u8>, i32)>): Ramp {
    if datagrams == [] then Ramp(0, 0, cfg.max)
    else After(cfg, RampOf(cfg, datagrams[..|datagrams| - 1]), Decode(datagrams[|datagrams| - 1].0))
  }

  function StepSum(datagrams: seq<(seq<u8>, i32)>): int {
    if datagrams == [] then 0
    else
      StepSum(datagrams[..|datagrams| - 1])
      + match Decode(datagrams[|datagrams| - 1].0)
        case Execute(ModifyState(step)) => step
        case _ => 0
  }

  /** No restore among the datagrams, and no sum that overflows an int. */
  ghost predicate Plain(cfg: Config, s: State, datagrams: seq<(seq<u8>, i32)>) {
    datagrams != [] ==>
      var earlier := datagrams[..|datagrams| - 1];
      && Plain(cfg, s, earlier)
      && match Decode(datagrams[|datagrams| - 1].0)
         case Execute(RestoreState) => false
         case Execute(ModifyState(step)) => Fits(HandleAll(cfg, s, earlier).current as int + step)
         case _ => true
  }

  /**
   Any sequence of datagrams other than restores acts on the brightness as one clamped shift by the
   sum of the steps, with bounds that the datagrams determine.
   */
  lemma {:induction false} RunIsRamp(cfg: Config, s: State, datagrams: seq<(seq<u8>, i32)>)
    requires s.current <= cfg.max && Plain(cfg, s, datagrams)
    ensures var r := RampOf(cfg, datagrams);
            && 0 <= r.lo <= r.hi <= cfg.max
            && r.shift == StepSum(datagrams)
            && HandleAll(cfg, s, datagrams).current == Apply(r, s.current)
  {
    if datagrams != [] {
      RunIsRamp(cfg, s, datagrams[..|datagrams| - 1]);
    }
  }

  /** Hence two runs of the same datagrams keep their order and never move further apart. */
  lemma {:induction false} RunNonExpansive(cfg: Config, s: State, t: State, datagrams: seq<(seq<u8>, i32)>)
    requires s.current <= t.current <= cfg.max
    requires Plain(cfg, s, datagrams) && Plain(cfg, t, datagrams)
    ensures 0 <= HandleAll(cfg, t, datagrams).current - HandleAll(cfg, s, datagrams).current <= t.current - s.current
  {
    RunIsRamp(cfg, s, datagrams);
    RunIsRamp(cfg, t, datagrams);
    RampNonExpansive(RampOf(cfg, datagrams), s.current, t.current);
  }

  lemma {:induction false} RampNonExpansive(r: Ramp, x: int, y: int)
    requires x <= y && r.lo <= r.hi
    ensures 0 <= Apply(r, y) - Apply(r, x) <= y - x
  {
  }

  /** Steps that stay below the distance from the maximum to the largest int never overflow. */
  lemma {:induction false} SmallStepsArePlain(cfg: Config, s: State, datagrams: seq<(seq<u8>, i32)>)
    requires s.current <= cfg.max
    requires forall i | 0 <= i < |datagrams| :: Decode(datagrams[i].0) != Execute(RestoreState)
    requires forall i | 0 <= i < |datagrams| ::
      Decode(datagrams[i].0).Execute? && Decode(datagrams[i].0).command.ModifyState? ==>
      Decode(datagrams[i].0).command.step as int + cfg.max < 0x8000_0000
    ensures Plain(cfg, s, datagrams) && HandleAll(cfg, s, datagrams).current <= cfg.max
  {
    if datagrams != [] {
      var earlier := datagrams[..|datagrams| - 1];
      assert forall i | 0 <= i < |earlier| :: earlier[i] == datagrams[i];
      SmallStepsArePlain(cfg, s, earlier);
    }
  }
}
