/**
 The transfer buffer of the driver is shared. Beside the run of AecConcurrent, this keeps for every
 byte where it came from, and shows that a call moves its own bytes whatever the bytes are if and
 only if every byte it took came from the right place. No step depends on the value of a byte.
 */
module AecProvenance {
  import opened AecConcurrent
  import opened AecDevice
  import opened AecWholeIoctl
  import opened Bytes
  import opened Wrappers

  /** A byte of the zeroed buffer, of the initial RAM, or of what the action at place `entry` passed in. */
  datatype Origin = Cleared | Initial(address: nat) | Passed(entry: nat, index: nat)

  /** A session's call: the action that entered it, and the origins of the bytes in its hands. */
  datatype Held = Held(entry: nat, taken: Origin, done: seq<Origin>, out: seq<Origin>)

  datatype Origins = Origins(buffer: seq<Origin>, ram: seq<Origin>, held: map<nat, Held>)
  {
    ghost predicate Valid() {
      |buffer| == 64 && |ram| == RAM_SIZE
    }
  }

  function Of(o: Origins, p: nat): Held {
    if p in o.held then o.held[p] else Held(0, Cleared, [], [])
  }

  function Put(o: Origins, p: nat, h: Held): Origins {
    o.(held := o.held[p := h])
  }

  /** The origins after session `p` stepped in state `s`: bytes are copied where the driver copies them. */
  function Carry(o: Origins, s: State, p: nat): (r: Origins)
    requires o.Valid()
    ensures r.Valid()
  {
    var h := Of(o, p);
    match At(s, p)
    case CopyingIn(job, copied) =>
      if copied < job.length && copied < 64 then o.(buffer := o.buffer[copied := Passed(h.entry, copied)]) else o
    case Looping(job, done) =>
      if |done| < job.length && |done| < 64 && job.writing then Put(o, p, h.(taken := o.buffer[|done|])) else o
    case Holding(_, done, access, k, _) =>
      if k < 11 then o
      else if k == 11 then
        if access.Write? then o.(ram := o.ram[access.offset := h.taken])
        else Put(o, p, h.(taken := o.ram[access.offset]))
      else if k == 12 && access.Read? && |done| < 64 then o.(buffer := o.buffer[|done| := h.taken])
      else Put(o, p, h.(done := h.done + [h.taken]))
    case CopyingOut(job, _, out) =>
      if |out| < job.length && |out| < 64 then Put(o, p, h.(out := h.out + [o.buffer[|out|]])) else o
    case _ => o
  }

  function OriginStep(o: Origins, s: State, a: Action, place: nat): (r: Origins)
    requires o.Valid()
    ensures r.Valid()
  {
    match a
    case Enter(p, job, accessible) =>
      if accessible && Accepts(s, p, job) then Put(o, p, Held(place, Cleared, [], [])) else o
    case Advance(p) => Carry(o, s, p)
    case _ => o
  }

  function OriginsOf(d: Device, actions: seq<Action>): (o: Origins)
    ensures o.Valid()
  {
    if actions == [] then Origins(seq(64, _ => Cleared), seq(RAM_SIZE, (i: nat) => Initial(i)), map[])
    else
      var before := actions[..|actions| - 1];
      OriginStep(OriginsOf(d, before), Run(Start(d), before), actions[|actions| - 1], |before|)
  }

  // ----- the same run with other bytes -----

  type Valuation = Origin -> u8

  function Value(v: Valuation, origin: Origin): u8 {
    if origin.Cleared? then 0 else v(origin)
  }

  function WithRam(d: Device, v: Valuation): Device {
    d.(ram := seq(RAM_SIZE, (i: nat) => v(Initial(i))))
  }

  function WithData(a: Action, place: nat, v: Valuation): Action {
    if a.Enter? then a.(job := a.job.(data := seq(64, (i: nat) => v(Passed(place, i))))) else a
  }

  function WithBytes(actions: seq<Action>, v: Valuation): (r: seq<Action>)
    ensures |r| == |actions|
  {
    if actions == [] then []
    else
      var before := actions[..|actions| - 1];
      WithBytes(before, v) + [WithData(actions[|actions| - 1], |before|, v)]
  }

  function RunWith(d: Device, actions: seq<Action>, v: Valuation): State {
    Run(Start(WithRam(d, v)), WithBytes(actions, v))
  }

  // ----- origins account for the bytes of every such run -----

  ghost predicate Valued(v: Valuation, origins: seq<Origin>, bytes: seq<u8>) {
    |origins| == |bytes| && forall i | 0 <= i < |bytes| :: bytes[i] == Value(v, origins[i])
  }

  ghost predicate ValuedDone(v: Valuation, origins: seq<Origin>, done: seq<Event>) {
    |origins| == |done| && forall i | 0 <= i < |done| :: done[i].value == Value(v, origins[i])
  }

  ghost predicate SameJob(x: Job, y: Job) {
    x.writing == y.writing && x.offset == y.offset && x.length == y.length
  }

  ghost predicate SameAccess(x: Access, y: Access) {
    x.Write? == y.Write? && x.offset == y.offset
  }

  /** Two processes at the same point of the same call, up to the bytes. */
  ghost predicate SamePoint(x: Proc, y: Proc) {
    match x
    case Outside => y.Outside?
    case CopyingIn(job, copied) => y.CopyingIn? && SameJob(job, y.job) && copied == y.copied
    case Looping(job, done) => y.Looping? && SameJob(job, y.job) && |done| == |y.done|
    case Calling(job, done, access) =>
      y.Calling? && SameJob(job, y.job) && |done| == |y.done| && SameAccess(access, y.access)
    case Holding(job, done, access, k, _) =>
      y.Holding? && SameJob(job, y.job) && |done| == |y.done| && SameAccess(access, y.access) && k == y.k
    case CopyingOut(job, done, out) =>
      y.CopyingOut? && SameJob(job, y.job) && |done| == |y.done| && |out| == |y.out|
    case Finished(job, done, out) =>
      y.Finished? && SameJob(job, y.job) && |done| == |y.done| && |out| == |y.out|
  }

  ghost predicate ValuedData(v: Valuation, h: Held, job: Job) {
    forall i | 0 <= i < 64 :: job.data[i] == v(Passed(h.entry, i))
  }

  ghost predicate ValuedProc(v: Valuation, h: Held, proc: Proc) {
    match proc
    case Outside => true
    case CopyingIn(job, _) => ValuedData(v, h, job) && h.done == [] && h.out == []
    case Looping(job, done) => ValuedData(v, h, job) && ValuedDone(v, h.done, done) && h.out == []
    case Calling(job, done, access) =>
      && ValuedData(v, h, job) && ValuedDone(v, h.done, done) && h.out == []
      && (access.Write? ==> access.value == Value(v, h.taken))
    case Holding(job, done, access, k, got) =>
      && ValuedData(v, h, job) && ValuedDone(v, h.done, done) && h.out == []
      && (access.Write? ==> access.value == Value(v, h.taken))
      && (access.Read? && k >= 12 ==> got == Value(v, h.taken))
    case CopyingOut(job, done, out) => ValuedData(v, h, job) && ValuedDone(v, h.done, done) && Valued(v, h.out, out)
    case Finished(job, done, out) => ValuedData(v, h, job) && ValuedDone(v, h.done, done) && Valued(v, h.out, out)
  }

  ghost predicate Bytewise(v: Valuation, o: Origins, s: State, t: State) {
    && s.mutex == t.mutex && s.configured == t.configured
    && Valued(v, o.buffer, t.buffer) && Valued(v, o.ram, t.device.ram)
  }

  ghost predicate Mirrors(v: Valuation, o: Origins, s: State, t: State) {
    && Bytewise(v, o, s, t)
    && forall p: nat :: SamePoint(At(s, p), At(t, p)) && ValuedProc(v, Of(o, p), At(t, p))
  }

  /** Only session `p` moved in both runs. */
  lemma MirrorFrame(v: Valuation, p: nat, o: Origins, s: State, t: State, o': Origins, s': State, t': State)
    requires Mirrors(v, o, s, t) && Bytewise(v, o', s', t')
    requires SamePoint(At(s', p), At(t', p)) && ValuedProc(v, Of(o', p), At(t', p))
    requires forall q: nat | q != p :: At(s', q) == At(s, q) && At(t', q) == At(t, q) && Of(o', q) == Of(o, q)
    ensures Mirrors(v, o', s', t')
  {
  }

  lemma MirrorCopyIn(v: Valuation, o: Origins, s: State, t: State, p: nat)
    requires o.Valid() && Mirrors(v, o, s, t) && ProcOk(p, At(s, p)) && At(s, p).CopyingIn?
    ensures Mirrors(v, Carry(o, s, p), AdvanceProc(s, p, At(s, p)), AdvanceProc(t, p, At(t, p)))
  {
    assert SamePoint(At(s, p), At(t, p)) && ValuedProc(v, Of(o, p), At(t, p));
    MirrorFrame(v, p, o, s, t, Carry(o, s, p), AdvanceProc(s, p, At(s, p)), AdvanceProc(t, p, At(t, p)));
  }

  lemma MirrorCopyOut(v: Valuation, o: Origins, s: State, t: State, p: nat)
    requires o.Valid() && Mirrors(v, o, s, t) && ProcOk(p, At(s, p)) && At(s, p).CopyingOut?
    ensures Mirrors(v, Carry(o, s, p), AdvanceProc(s, p, At(s, p)), AdvanceProc(t, p, At(t, p)))
  {
    assert SamePoint(At(s, p), At(t, p)) && ValuedProc(v, Of(o, p), At(t, p));
    MirrorFrame(v, p, o, s, t, Carry(o, s, p), AdvanceProc(s, p, At(s, p)), AdvanceProc(t, p, At(t, p)));
  }

  lemma MirrorLooping(v: Valuation, o: Origins, s: State, t: State, p: nat)
    requires o.Valid() && Mirrors(v, o, s, t) && At(s, p).Looping?
    ensures Mirrors(v, Carry(o, s, p), AdvanceProc(s, p, At(s, p)), AdvanceProc(t, p, At(t, p)))
  {
    assert SamePoint(At(s, p), At(t, p)) && ValuedProc(v, Of(o, p), At(t, p));
    MirrorFrame(v, p, o, s, t, Carry(o, s, p), AdvanceProc(s, p, At(s, p)), AdvanceProc(t, p, At(t, p)));
  }

  lemma MirrorCalling(v: Valuation, o: Origins, s: State, t: State, p: nat)
    requires o.Valid() && Mirrors(v, o, s, t) && At(s, p).Calling?
    ensures Mirrors(v, Carry(o, s, p), AdvanceProc(s, p, At(s, p)), AdvanceProc(t, p, At(t, p)))
  {
    assert SamePoint(At(s, p), At(t, p)) && ValuedProc(v, Of(o, p), At(t, p));
    MirrorFrame(v, p, o, s, t, Carry(o, s, p), AdvanceProc(s, p, At(s, p)), AdvanceProc(t, p, At(t, p)));
  }

  lemma MirrorPort(v: Valuation, o: Origins, s: State, t: State, p: nat)
    requires o.Valid() && Mirrors(v, o, s, t) && At(s, p).Holding? && At(s, p).k < 12
    requires HolderOk(t, p)
    ensures Mirrors(v, Carry(o, s, p), AdvanceHolding(s, p, At(s, p)), AdvanceHolding(t, p, At(t, p)))
  {
    assert SamePoint(At(s, p), At(t, p)) && ValuedProc(v, Of(o, p), At(t, p));
    AccessStep(t.device, At(t, p).access, At(t, p).k);
    MirrorFrame(v, p, o, s, t, Carry(o, s, p), AdvanceHolding(s, p, At(s, p)), AdvanceHolding(t, p, At(t, p)));
  }

  lemma MirrorKeep(v: Valuation, o: Origins, s: State, t: State, p: nat)
    requires o.Valid() && Mirrors(v, o, s, t) && At(s, p).Holding?
    requires ProcOk(p, At(s, p)) && At(s, p).k == 12 && At(s, p).access.Read?
    ensures Mirrors(v, Carry(o, s, p), AdvanceHolding(s, p, At(s, p)), AdvanceHolding(t, p, At(t, p)))
  {
    assert SamePoint(At(s, p), At(t, p)) && ValuedProc(v, Of(o, p), At(t, p));
    MirrorFrame(v, p, o, s, t, Carry(o, s, p), AdvanceHolding(s, p, At(s, p)), AdvanceHolding(t, p, At(t, p)));
  }

  lemma MirrorRelease(v: Valuation, o: Origins, s: State, t: State, p: nat)
    requires o.Valid() && Mirrors(v, o, s, t) && At(s, p).Holding? && At(s, p).k >= 12
    requires ProcOk(p, At(s, p)) && (At(s, p).k == 13 || At(s, p).access.Write?)
    ensures Mirrors(v, Carry(o, s, p), AdvanceHolding(s, p, At(s, p)), AdvanceHolding(t, p, At(t, p)))
  {
    assert SamePoint(At(s, p), At(t, p)) && ValuedProc(v, Of(o, p), At(t, p));
    MirrorFrame(v, p, o, s, t, Carry(o, s, p), AdvanceHolding(s, p, At(s, p)), AdvanceHolding(t, p, At(t, p)));
  }

  lemma MirrorAdvance(ram: Ram, ram': Ram, v: Valuation, o: Origins, s: State, t: State, p: nat)
    requires Inv(ram, s) && Inv(ram', t) && o.Valid() && Mirrors(v, o, s, t)
    ensures Mirrors(v, Carry(o, s, p), AdvanceProc(s, p, At(s, p)), AdvanceProc(t, p, At(t, p)))
  {
    assert SamePoint(At(s, p), At(t, p));
    assert ProcOk(p, At(s, p)) && HolderOk(t, p);
    if At(s, p).Holding? {
      if At(s, p).k < 12 {
        MirrorPort(v, o, s, t, p);
      } else if At(s, p).k == 12 && At(s, p).access.Read? {
        MirrorKeep(v, o, s, t, p);
      } else {
        MirrorRelease(v, o, s, t, p);
      }
    } else if At(s, p).CopyingIn? {
      MirrorCopyIn(v, o, s, t, p);
    } else if At(s, p).CopyingOut? {
      MirrorCopyOut(v, o, s, t, p);
    } else if At(s, p).Looping? {
      MirrorLooping(v, o, s, t, p);
    } else if At(s, p).Calling? {
      MirrorCalling(v, o, s, t, p);
    }
  }

  lemma MirrorEntry(v: Valuation, o: Origins, s: State, t: State, a: Action, place: nat)
    requires o.Valid() && Mirrors(v, o, s, t) && a.Enter?
    ensures Mirrors(v, OriginStep(o, s, a, place), Step(s, a), Step(t, WithData(a, place, v)))
  {
    var b := WithData(a, place, v);
    assert SamePoint(At(s, a.p), At(t, a.p));
    assert Accepts(s, a.p, a.job) == Accepts(t, a.p, b.job);
    if a.accessible && Accepts(s, a.p, a.job) {
      EntryMoves(s, a);
      EntryMoves(t, b);
      MirrorFrame(v, a.p, o, s, t, OriginStep(o, s, a, place), Step(s, a), Step(t, b));
    }
  }

  lemma MirrorRequest(v: Valuation, o: Origins, s: State, t: State, a: Action)
    requires o.Valid() && Mirrors(v, o, s, t) && !a.Advance? && !a.Enter?
    ensures Mirrors(v, o, Step(s, a), Step(t, a))
  {
    assert SamePoint(At(s, a.p), At(t, a.p)) && ValuedProc(v, Of(o, a.p), At(t, a.p));
    MirrorFrame(v, a.p, o, s, t, o, Step(s, a), Step(t, a));
  }

  lemma {:induction false} RunsMirror(d: Device, actions: seq<Action>, v: Valuation)
    ensures Mirrors(v, OriginsOf(d, actions), Run(Start(d), actions), RunWith(d, actions, v))
  {
    if actions != [] {
      var before, a := actions[..|actions| - 1], actions[|actions| - 1];
      RunsMirror(d, before, v);
      RunKeeps(d, before);
      RunKeeps(WithRam(d, v), WithBytes(before, v));
      assert WithBytes(actions, v)[..|before|] == WithBytes(before, v);
      var o, s, t := OriginsOf(d, before), Run(Start(d), before), RunWith(d, before, v);
      if a.Advance? {
        MirrorAdvance(d.ram, WithRam(d, v).ram, v, o, s, t, a.p);
      } else if a.Enter? {
        MirrorEntry(v, o, s, t, a, |before|);
      } else {
        MirrorRequest(v, o, s, t, a);
      }
    }
  }

  // ----- the exact condition -----

  /** Every byte a write sent is its caller's at that place; every byte a read returned is the one it found. */
  predicate Own(h: Held, writing: bool) {
    if writing then forall n | 0 <= n < |h.done| :: h.done[n] == Passed(h.entry, n)
    else h.out == h.done
  }

  lemma HonestWith(d: Device, actions: seq<Action>, p: nat, v: Valuation)
    requires At(Run(Start(d), actions), p).Finished?
    ensures var h := Of(OriginsOf(d, actions), p);
            var job := At(Run(Start(d), actions), p).job;
            && At(RunWith(d, actions, v), p).Finished?
            && |h.done| == job.length && |h.out| == (if job.writing then 0 else |h.done|)
            && (Honest(At(RunWith(d, actions, v), p)) <==>
                if job.writing then forall n | 0 <= n < |h.done| :: Value(v, h.done[n]) == v(Passed(h.entry, n))
                else forall n | 0 <= n < |h.done| :: Value(v, h.out[n]) == Value(v, h.done[n]))
  {
    RunsMirror(d, actions, v);
    RunKeeps(d, actions);
    var s, t := Run(Start(d), actions), RunWith(d, actions, v);
    assert ProcOk(p, At(s, p)) && SamePoint(At(s, p), At(t, p));
    assert ValuedProc(v, Of(OriginsOf(d, actions), p), At(t, p));
  }

  /** The valuation that marks one byte. */
  function Mark(origin: Origin): Valuation {
    o => if o == origin then 1 else 0
  }

  /**
   A call that returned 0 moved its own bytes, whatever bytes the callers passed in and the RAM held
   (a write sent its caller's, a read returned those it found), if and only if each byte it took
   came from its place in its caller's buffer, or from its own transaction.
   */
  lemma {:induction false} BytesExact(d: Device, actions: seq<Action>, p: nat)
    requires At(Run(Start(d), actions), p).Finished?
    ensures forall v: Valuation :: At(RunWith(d, actions, v), p).Finished?
    ensures (forall v: Valuation :: Honest(At(RunWith(d, actions, v), p)))
       <==> Own(Of(OriginsOf(d, actions), p), At(Run(Start(d), actions), p).job.writing)
  {
    var h, job := Of(OriginsOf(d, actions), p), At(Run(Start(d), actions), p).job;
    forall v: Valuation
      ensures At(RunWith(d, actions, v), p).Finished?
      ensures Own(h, job.writing) ==> Honest(At(RunWith(d, actions, v), p))
    {
      HonestWith(d, actions, p, v);
    }
    if !Own(h, job.writing) {
      var v := Discerning(d, actions, p);
      assert !Honest(At(RunWith(d, actions, v), p));
    }
  }

  lemma Discerning(d: Device, actions: seq<Action>, p: nat) returns (v: Valuation)
    requires At(Run(Start(d), actions), p).Finished?
    requires !Own(Of(OriginsOf(d, actions), p), At(Run(Start(d), actions), p).job.writing)
    ensures At(RunWith(d, actions, v), p).Finished? && !Honest(At(RunWith(d, actions, v), p))
  {
    var h, job := Of(OriginsOf(d, actions), p), At(Run(Start(d), actions), p).job;
    HonestWith(d, actions, p, Mark(Cleared));
    if job.writing {
      var n :| 0 <= n < |h.done| && h.done[n] != Passed(h.entry, n);
      v := Mark(Passed(h.entry, n));
      HonestWith(d, actions, p, v);
      assert Value(v, h.done[n]) != v(Passed(h.entry, n));
    } else {
      var n :| 0 <= n < |h.done| && h.out[n] != h.done[n];
      v := Mark(if h.out[n].Cleared? then h.done[n] else h.out[n]);
      HonestWith(d, actions, p, v);
      assert Value(v, h.out[n]) != Value(v, h.done[n]);
    }
  }

  // ----- the run itself -----

  /** The byte that stood at an origin in the run itself. */
  function ActualByte(d: Device, actions: seq<Action>, origin: Origin): u8 {
    match origin
    case Cleared => 0
    case Initial(address) => if address < RAM_SIZE then d.ram[address] else 0
    case Passed(entry, index) =>
      if entry < |actions| && actions[entry].Enter? && index < 64 then actions[entry].job.data[index] else 0
  }

  function Actual(d: Device, actions: seq<Action>): Valuation {
    o => ActualByte(d, actions, o)
  }

  lemma {:induction false} ActualBytes(d: Device, actions: seq<Action>, n: nat)
    requires n <= |actions|
    ensures WithBytes(actions[..n], Actual(d, actions)) == actions[..n]
  {
    if n > 0 {
      ActualBytes(d, actions, n - 1);
      assert actions[..n][..n - 1] == actions[..n - 1];
      var a := actions[n - 1];
      assert WithData(a, n - 1, Actual(d, actions)) == a by {
        if a.Enter? {
          assert seq(64, (i: nat) => Actual(d, actions)(Passed(n - 1, i))) == a.job.data;
        }
      }
    }
  }

  /** The run that took place is one of them. */
  lemma ActualRun(d: Device, actions: seq<Action>)
    ensures RunWith(d, actions, Actual(d, actions)) == Run(Start(d), actions)
  {
    ActualBytes(d, actions, |actions|);
    assert actions[..|actions|] == actions;
    assert WithRam(d, Actual(d, actions)).ram == d.ram;
  }

  // ----- two writers -----

  lemma RunTwo(s: State, a: Action, b: Action)
    ensures Run(s, [a, b]) == Step(Step(s, a), b)
  {
    assert [a, b][..1] == [a];
    RunOne(s, a);
  }

  ghost predicate PortsDone(ram: Ram, s: State, p: nat, k: nat, t: State)
    requires At(s, p).Holding?
  {
    && Inv(ram, t)
    && At(t, p).Holding? && At(t, p) == At(s, p).(k := k, got := At(t, p).got)
    && t.device.ram == if k < 12 then s.device.ram else Meaning(s.device.ram, At(s, p).access)
  }

  lemma PortDone(ram: Ram, s: State, p: nat, k: nat, t: State)
    requires At(s, p).Holding? && k < 12 && PortsDone(ram, s, p, k, t)
    ensures PortsDone(ram, s, p, k + 1, AdvanceProc(t, p, At(t, p)))
  {
    assert HolderOk(t, p);
    AccessStep(t.device, At(t, p).access, k);
    PortKeeps(ram, t, p);
  }

  lemma {:induction false} SoloPorts(ram: Ram, s: State, p: nat, k: nat)
    requires Inv(ram, s) && At(s, p).Holding? && At(s, p).k == 0 && k <= 12
    ensures PortsDone(ram, s, p, k, Run(s, Advances(p, k)))
  {
    if k > 0 {
      SoloPorts(ram, s, p, k - 1);
      AdvancesStep(s, p, k);
      PortDone(ram, s, p, k - 1, Run(s, Advances(p, k - 1)));
    }
  }

  /** A writer that finds the mutex free needs 14 steps of its own for its byte, and one to return. */
  lemma SoloWrite(ram: Ram, s: State, p: nat)
    requires Inv(ram, s) && At(s, p).Calling? && At(s, p).access.Write? && s.mutex == None
    requires At(s, p).job.writing && At(s, p).job.length as int == |At(s, p).done| + 1
    ensures var t := Run(s, Advances(p, 15));
            && t.device.ram == Meaning(s.device.ram, At(s, p).access)
            && At(t, p).Finished? && At(t, p).job == At(s, p).job
  {
    var held := AdvanceProc(s, p, At(s, p));
    LockKeeps(ram, s, p);
    SoloPorts(ram, held, p, 12);
    RunOne(s, Advance(p));
    RunConcat(s, [Advance(p)], Advances(p, 12));
    assert [Advance(p)] + Advances(p, 12) == Advances(p, 13);
    AdvancesStep(s, p, 14);
    AdvancesStep(s, p, 15);
    LastByteReturns(Run(s, Advances(p, 13)), p);
  }

  lemma LastByteReturns(s: State, p: nat)
    requires At(s, p).Holding? && At(s, p).access.Write? && At(s, p).k == 12
    requires At(s, p).job.writing && At(s, p).job.length as int == |At(s, p).done| + 1
    ensures var u := AdvanceProc(s, p, At(s, p));
            var t := AdvanceProc(u, p, At(u, p));
            t.device == s.device && At(t, p).Finished? && At(t, p).job == At(s, p).job
  {
  }

  /** Two writers have each copied their byte in, the second one last, and the first calls the lock. */
  lemma TwoWriters(d: Device, first: Job, second: Job) returns (actions: seq<Action>)
    requires first.writing && second.writing && first.length == second.length == 1
    requires first.offset > 0 && second.offset > 0
    ensures var s := Run(Start(d), actions);
            At(s, 1) == Calling(first, [], Write(first.offset, second.data[0])) && s.mutex == None
  {
    RunTwo(Start(d), SetType(1, 1), SetType(2, 1));
    var s2 := Run(Start(d), [SetType(1, 1), SetType(2, 1)]);
    assert s2 == Start(d).(configured := {1, 2});
    RunTwo(s2, Enter(1, first, true), Enter(2, second, true));
    var s4 := Run(s2, [Enter(1, first, true), Enter(2, second, true)]);
    BothEntered(s2, first, second);
    RunTwo(s4, Advance(1), Advance(2));
    var s6 := Run(s4, [Advance(1), Advance(2)]);
    BothCopied(s4, first, second);
    RunTwo(s6, Advance(1), Advance(1));
    RunConcat(Start(d), [SetType(1, 1), SetType(2, 1)], [Enter(1, first, true), Enter(2, second, true)]);
    actions := [SetType(1, 1), SetType(2, 1)] + [Enter(1, first, true), Enter(2, second, true)];
    RunConcat(Start(d), actions, [Advance(1), Advance(2)]);
    actions := actions + [Advance(1), Advance(2)];
    RunConcat(Start(d), actions, [Advance(1), Advance(1)]);
    actions := actions + [Advance(1), Advance(1)];
    FirstCalls(s6, first, second);
  }

  lemma BothEntered(s: State, first: Job, second: Job)
    requires first.writing && second.writing && first.length == second.length == 1
    requires first.offset > 0 && second.offset > 0
    requires s.configured == {1, 2} && s.procs == map[]
    ensures var t := Step(Step(s, Enter(1, first, true)), Enter(2, second, true));
            At(t, 1) == CopyingIn(first, 0) && At(t, 2) == CopyingIn(second, 0) && t.mutex == s.mutex
  {
  }

  lemma BothCopied(s: State, first: Job, second: Job)
    requires At(s, 1) == CopyingIn(first, 0) && At(s, 2) == CopyingIn(second, 0)
    requires first.length == second.length == 1
    ensures var t := Step(Step(s, Advance(1)), Advance(2));
            At(t, 1) == CopyingIn(first, 1) && t.buffer[0] == second.data[0] && t.mutex == s.mutex
  {
  }

  lemma FirstCalls(s: State, first: Job, second: Job)
    requires At(s, 1) == CopyingIn(first, 1) && s.buffer[0] == second.data[0]
    requires first.writing && first.length == 1
    ensures var t := Step(Step(s, Advance(1)), Advance(1));
            At(t, 1) == Calling(first, [], Write(first.offset, second.data[0])) && t.mutex == s.mutex
  {
  }

  /**
   The condition does fail: with a second writer in between, a write returns 0 and has stored a byte
   its caller never passed in.
   */
  lemma SharedBufferMixes(d: Device, first: Job, second: Job) returns (actions: seq<Action>)
    requires first.writing && second.writing && first.length == second.length == 1
    requires first.offset > 0 && second.offset > 0
    ensures var s := Run(Start(d), actions);
            && At(s, 1).Finished? && At(s, 1).job == first
            && s.device.ram[first.offset] == second.data[0]
  {
    var prefix := TwoWriters(d, first, second);
    RunKeeps(d, prefix);
    SoloWrite(d.ram, Run(Start(d), prefix), 1);
    actions := prefix + Advances(1, 15);
    RunConcat(Start(d), prefix, Advances(1, 15));
  }
}
