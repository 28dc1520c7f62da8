/**
 The driver (aecram/driver/driver.c) under any number of sessions whose steps interleave: every
 port operation, every byte copied from or to user memory, and every lock attempt is one step. The
 mutex is held for one byte at a time, and the transfer buffer is shared and not protected by it.
 */
module AecConcurrent {
  import opened AecDevice
  import opened Bytes
  import opened Wrappers
  import AecDriver

  type Buffer = s: seq<u8> | |s| == 64 witness seq(64, _ => 0)

  /** An ioctl that transfers bytes; `data` is the caller's buffer on entry. */
  datatype Job = Job(writing: bool, offset: u16, length: u8, data: Buffer)

  /** A completed byte transaction, with the byte written or returned. */
  datatype Event = Event(session: nat, access: Access, value: u8)

  /**
   Where a session stands in its ioctl. `done` lists the byte transactions this ioctl has completed,
   so its loop counter is |done|. `Finished` is an ioctl that returned 0 and left `out` behind.
   */
  datatype Proc =
    | Outside
    | CopyingIn(job: Job, copied: nat)
    | Looping(job: Job, done: seq<Event>)
    | Calling(job: Job, done: seq<Event>, access: Access)
    | Holding(job: Job, done: seq<Event>, access: Access, k: nat, got: u8)
    | CopyingOut(job: Job, done: seq<Event>, out: seq<u8>)
    | Finished(job: Job, done: seq<Event>, out: seq<u8>)
  {
    predicate Idle() {
      Outside? || Finished?
    }
  }

  /**
   Two fields only record history: `acquired` who took the mutex for what, and `log` which
   transactions have completed.
   */
  datatype State = State(
    device: Device,
    mutex: Option<nat>,
    buffer: Buffer,
    configured: set<nat>,
    procs: map<nat, Proc>,
    acquired: seq<(nat, Access)>,
    log: seq<Event>
  )

  /** `Signal` interrupts a lock attempt, `Fault` a copy from or to user memory. */
  datatype Action =
    | SetType(p: nat, arg: int)
    | Enter(p: nat, job: Job, accessible: bool)
    | Advance(p: nat)
    | Signal(p: nat)
    | Fault(p: nat)

  function At(s: State, p: nat): Proc {
    if p in s.procs then s.procs[p] else Outside
  }

  function Goto(s: State, p: nat, proc: Proc): State {
    s.(procs := s.procs[p := proc])
  }

  function Store(s: State, i: nat, value: u8): State
    requires i < 64
  {
    s.(buffer := s.buffer[i := value])
  }

  /** The next byte transaction of the loop; its arguments are evaluated before the lock is taken. */
  function NextAccess(s: State, job: Job, i: nat): Access
    requires i < 64
  {
    var offset := (job.offset as int + i) % 0x1_0000;
    if job.writing then Write(offset, s.buffer[i]) else Read(offset)
  }

  function Outcome(p: nat, h: Proc): Event
    requires h.Holding?
  {
    Event(p, h.access, if h.access.Write? then h.access.value else h.got)
  }

  /** A step inside the critical section: 12 port operations, a store for a read, the unlock. */
  function AdvanceHolding(s: State, p: nat, h: Proc): State
    requires h.Holding?
  {
    if h.k < 12 then
      var (device, byte) := Perform(s.device, AccessOps(CONFIG_DEFAULT, h.access)[h.k]);
      var next := h.(k := h.k + 1, got := byte);
      Goto(s, p, next).(device := device, log := if h.k == 11 then s.log + [Outcome(p, next)] else s.log)
    else if h.k == 12 && h.access.Read? && |h.done| < 64 then
      Goto(Store(s, |h.done|, h.got), p, h.(k := 13))
    else
      Goto(s, p, Looping(h.job, h.done + [Outcome(p, h)])).(mutex := None)
  }

  function AdvanceProc(s: State, p: nat, proc: Proc): State {
    match proc
    case Outside => s
    case Finished(_, _, _) => s
    case CopyingIn(job, copied) =>
      if copied < job.length && copied < 64 then
        Goto(Store(s, copied, job.data[copied]), p, CopyingIn(job, copied + 1))
      else Goto(s, p, Looping(job, []))
    case Looping(job, done) =>
      if |done| < job.length && |done| < 64 then Goto(s, p, Calling(job, done, NextAccess(s, job, |done|)))
      else if job.writing then Goto(s, p, Finished(job, done, []))
      else Goto(s, p, CopyingOut(job, done, []))
    case Calling(job, done, access) =>
      if s.mutex.Some? then s
      else Goto(s, p, Holding(job, done, access, 0, 0)).(mutex := Some(p), acquired := s.acquired + [(p, access)])
    case Holding(_, _, _, _, _) => AdvanceHolding(s, p, proc)
    case CopyingOut(job, done, out) =>
      if |out| < job.length && |out| < 64 then Goto(s, p, CopyingOut(job, done, out + [s.buffer[|out|]]))
      else Goto(s, p, Finished(job, done, out))
  }

  /** The checks an ioctl makes before it transfers anything. */
  predicate Accepts(s: State, p: nat, job: Job) {
    && At(s, p).Idle() && p in s.configured
    && AecDriver.IsValidParam(job.offset, job.length) && job.length != 0
  }

  /** An action that is not possible, or that the ioctl refuses, changes nothing. */
  function Step(s: State, a: Action): State {
    match a
    case SetType(p, arg) =>
      if At(s, p).Idle() && arg == AecDriver.AECRAM_TYPE_AYANEO then s.(configured := s.configured + {p}) else s
    case Enter(p, job, accessible) =>
      if !accessible || !Accepts(s, p, job) then s
      else Goto(s, p, if job.writing then CopyingIn(job, 0) else Looping(job, []))
    case Advance(p) => AdvanceProc(s, p, At(s, p))
    case Signal(p) => if At(s, p).Calling? then Goto(s, p, Outside) else s
    case Fault(p) => if At(s, p).CopyingIn? || At(s, p).CopyingOut? then Goto(s, p, Outside) else s
  }

  function Run(s: State, actions: seq<Action>): State {
    if actions == [] then s else Step(Run(s, actions[..|actions| - 1]), actions[|actions| - 1])
  }

  /** The driver just loaded; the latches and the RAM hold anything. */
  function Start(d: Device): State {
    State(d, None, seq(64, _ => 0), {}, map[], [], [])
  }

  // ----- one flat byte map, accessed atomically -----

  function Replay(ram: Ram, log: seq<Event>): Ram {
    if log == [] then ram else Meaning(Replay(ram, log[..|log| - 1]), log[|log| - 1].access)
  }

  /** Every event reports what an atomic access of the map at its place in the log reports. */
  ghost predicate Legal(ram: Ram, log: seq<Event>) {
    forall n | 0 <= n < |log| :: log[n].value == Answer(Replay(ram, log[..n]), log[n].access)
  }

  /** The log is the order in which the mutex was taken, save for a holder that is not done yet. */
  ghost predicate InLockOrder(s: State) {
    && |s.log| <= |s.acquired|
    && (forall n | 0 <= n < |s.log| :: s.acquired[n] == (s.log[n].session, s.log[n].access))
    && match s.mutex
       case None => |s.acquired| == |s.log|
       case Some(p) =>
         At(s, p).Holding? &&
         if At(s, p).k >= 12 then |s.acquired| == |s.log|
         else |s.acquired| == |s.log| + 1 && s.acquired[|s.log|] == (p, At(s, p).access)
  }

  // ----- the invariant -----

  ghost predicate JobOk(job: Job, i: nat) {
    0 < job.length <= 64 && i <= job.length && job.offset as int + job.length as int <= RAM_SIZE
  }

  /** The i-th access of a job: its 16-bit offset has not wrapped. */
  ghost predicate AccessOk(job: Job, i: nat, access: Access) {
    access.offset == job.offset as int + i && (access.Write? <==> job.writing)
  }

  ghost predicate DoneOk(p: nat, job: Job, done: seq<Event>) {
    && JobOk(job, |done|)
    && forall n | 0 <= n < |done| ::
         && done[n].session == p
         && AccessOk(job, n, done[n].access)
         && (job.writing ==> done[n].value == done[n].access.value)
  }

  ghost predicate ProcOk(p: nat, proc: Proc) {
    match proc
    case Outside => true
    case CopyingIn(job, copied) => JobOk(job, copied) && job.writing
    case Looping(job, done) => DoneOk(p, job, done)
    case Calling(job, done, access) => DoneOk(p, job, done) && |done| < job.length && AccessOk(job, |done|, access)
    case Holding(job, done, access, k, _) =>
      && DoneOk(p, job, done) && |done| < job.length && AccessOk(job, |done|, access)
      && k <= if access.Read? then 13 else 12
    case CopyingOut(job, done, out) =>
      DoneOk(p, job, done) && |done| == job.length && !job.writing && |out| <= job.length
    case Finished(job, done, out) =>
      DoneOk(p, job, done) && |done| == job.length && |out| == if job.writing then 0 else job.length
  }

  /** The holder's position in the critical section determines the latches. */
  ghost predicate HolderOk(s: State, p: nat) {
    match At(s, p)
    case Holding(_, _, access, k, got) =>
      && s.mutex == Some(p)
      && LatchesAt(s.device, access, if k < 12 then k else 12)
      && (access.Read? && k >= 12 ==> got == s.device.ram[access.offset])
    case _ => s.mutex != Some(p)
  }

  ghost predicate Inv(ram: Ram, s: State) {
    && (forall p: nat :: ProcOk(p, At(s, p)) && HolderOk(s, p))
    && s.device.ram == Replay(ram, s.log)
    && Legal(ram, s.log)
    && InLockOrder(s)
  }

  lemma LegalAppend(ram: Ram, log: seq<Event>, e: Event)
    requires Legal(ram, log) && e.value == Answer(Replay(ram, log), e.access)
    ensures Legal(ram, log + [e]) && Replay(ram, log + [e]) == Meaning(Replay(ram, log), e.access)
  {
    var all := log + [e];
    assert all[..|log|] == log;
    forall n | 0 <= n < |all|
      ensures all[n].value == Answer(Replay(ram, all[..n]), all[n].access)
    {
      if n < |log| {
        assert all[..n] == log[..n] && all[n] == log[n];
      }
    }
  }

  /** A session that keeps its own part of the invariant cannot break anybody else's. */
  lemma OthersKeep(ram: Ram, s: State, p: nat, t: State)
    requires Inv(ram, s) && ProcOk(p, At(t, p)) && HolderOk(t, p)
    requires forall q: nat | q != p :: At(t, q) == At(s, q)
    requires t.device == s.device || s.mutex == Some(p)
    requires t.mutex == s.mutex || s.mutex == Some(p) || (s.mutex == None && t.mutex == Some(p))
    requires s.mutex == Some(p) ==> t.mutex == None || t.mutex == Some(p)
    ensures forall q: nat :: ProcOk(q, At(t, q)) && HolderOk(t, q)
  {
  }

  lemma PortKeeps(ram: Ram, s: State, p: nat)
    requires Inv(ram, s) && At(s, p).Holding? && At(s, p).k < 12
    ensures Inv(ram, AdvanceHolding(s, p, At(s, p)))
  {
    var h, t := At(s, p), AdvanceHolding(s, p, At(s, p));
    assert ProcOk(p, h) && HolderOk(s, p);
    AccessStep(s.device, h.access, h.k);
    if h.k == 11 {
      LegalAppend(ram, s.log, Outcome(p, At(t, p)));
    }
    OthersKeep(ram, s, p, t);
  }

  lemma ReleaseKeeps(ram: Ram, s: State, p: nat)
    requires Inv(ram, s) && At(s, p).Holding? && At(s, p).k >= 12
    ensures Inv(ram, AdvanceHolding(s, p, At(s, p)))
  {
    assert ProcOk(p, At(s, p)) && HolderOk(s, p);
    OthersKeep(ram, s, p, AdvanceHolding(s, p, At(s, p)));
  }

  lemma LockKeeps(ram: Ram, s: State, p: nat)
    requires Inv(ram, s) && At(s, p).Calling? && s.mutex == None
    ensures Inv(ram, AdvanceProc(s, p, At(s, p)))
  {
    assert ProcOk(p, At(s, p)) && HolderOk(s, p);
    OthersKeep(ram, s, p, AdvanceProc(s, p, At(s, p)));
  }

  /** A step outside the critical section leaves the device, the mutex and the log alone. */
  lemma OutsideKeeps(ram: Ram, s: State, p: nat, t: State)
    requires Inv(ram, s) && !At(s, p).Holding? && !At(t, p).Holding? && ProcOk(p, At(t, p))
    requires forall q: nat | q != p :: At(t, q) == At(s, q)
    requires t.device == s.device && t.mutex == s.mutex && t.log == s.log && t.acquired == s.acquired
    ensures Inv(ram, t)
  {
  }

  lemma AdvanceKeeps(ram: Ram, s: State, p: nat)
    requires Inv(ram, s)
    ensures Inv(ram, AdvanceProc(s, p, At(s, p)))
  {
    var proc := At(s, p);
    assert ProcOk(p, proc);
    if proc.Holding? {
      if proc.k < 12 {
        PortKeeps(ram, s, p);
      } else {
        ReleaseKeeps(ram, s, p);
      }
    } else if proc.Calling? {
      if s.mutex == None {
        LockKeeps(ram, s, p);
      }
    } else if !proc.Idle() {
      OutsideAdvance(s, p);
      OutsideKeeps(ram, s, p, AdvanceProc(s, p, proc));
    }
  }

  lemma OutsideAdvance(s: State, p: nat)
    requires ProcOk(p, At(s, p)) && !At(s, p).Holding? && !At(s, p).Calling?
    ensures var t := AdvanceProc(s, p, At(s, p));
            && ProcOk(p, At(t, p)) && !At(t, p).Holding?
            && t == s.(procs := t.procs, buffer := t.buffer)
            && forall q: nat | q != p :: At(t, q) == At(s, q)
  {
  }

  lemma {:induction false} StepKeeps(ram: Ram, s: State, a: Action)
    requires Inv(ram, s)
    ensures Inv(ram, Step(s, a))
  {
    if a.Advance? {
      AdvanceKeeps(ram, s, a.p);
    } else if Step(s, a) != s {
      assert ProcOk(a.p, At(s, a.p));
      RequestMoves(s, a);
      OutsideKeeps(ram, s, a.p, Step(s, a));
    }
  }

  lemma RequestMoves(s: State, a: Action)
    requires !a.Advance? && ProcOk(a.p, At(s, a.p)) && Step(s, a) != s
    ensures var t := Step(s, a);
            && !At(s, a.p).Holding? && !At(t, a.p).Holding? && ProcOk(a.p, At(t, a.p))
            && t == s.(procs := t.procs, configured := t.configured)
            && forall q: nat | q != a.p :: At(t, q) == At(s, q)
  {
  }

  lemma {:induction false} RunKeeps(d: Device, actions: seq<Action>)
    ensures Inv(d.ram, Run(Start(d), actions))
  {
    if actions != [] {
      RunKeeps(d, actions[..|actions| - 1]);
      StepKeeps(d.ram, Run(Start(d), actions[..|actions| - 1]), actions[|actions| - 1]);
    }
  }

  /**
   Over every interleaving, from every initial device: the RAM is the completed transactions
   replayed on a flat byte map in the order the mutex was taken, every read returned that map's
   byte, and at most one session is in the critical section.
   */
  lemma {:induction false} DriverLinearizable(d: Device, actions: seq<Action>)
    ensures var s := Run(Start(d), actions);
            && s.device.ram == Replay(d.ram, s.log)
            && Legal(d.ram, s.log)
            && InLockOrder(s)
            && forall p, q | At(s, p).Holding? && At(s, q).Holding? :: p == q
  {
    RunKeeps(d, actions);
    var s := Run(Start(d), actions);
    assert forall p | At(s, p).Holding? :: HolderOk(s, p);
  }

  /** Nobody but the holder of the mutex moves the device, and only its last step moves the RAM. */
  lemma {:induction false} OnlyHolderDrives(d: Device, actions: seq<Action>, a: Action)
    ensures var s, t := Run(Start(d), actions), Step(Run(Start(d), actions), a);
            && (t.device != s.device ==> a.Advance? && s.mutex == Some(a.p))
            && (t.device.ram != s.device.ram ==> At(s, a.p).k == 11 && At(s, a.p).access.Write?)
  {
    RunKeeps(d, actions);
    var s := Run(Start(d), actions);
    assert ProcOk(a.p, At(s, a.p)) && HolderOk(s, a.p);
    if a.Advance? && At(s, a.p).Holding? && At(s, a.p).k < 12 {
      AccessStep(s.device, At(s, a.p).access, At(s, a.p).k);
    }
  }
}
