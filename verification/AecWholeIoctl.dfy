/**
 Whole ioctls under interleaving: what a call has done when it returns, whether with 0 or with an
 error, what it amounts to when no other call overlaps it, and how many steps it takes alone.
 A call is described from the state in which it enters the driver to any later state.
 */
module AecWholeIoctl {
  import opened AecConcurrent
  import opened AecDevice
  import opened Bytes
  import opened Wrappers
  import AecDriver

  function EventsOf(log: seq<Event>, p: nat): seq<Event> {
    if log == [] then []
    else EventsOf(log[..|log| - 1], p) + if log[|log| - 1].session == p then [log[|log| - 1]] else []
  }

  /** The transactions of the ioctl in progress, including one that has not been unlocked yet. */
  function Completed(p: nat, proc: Proc): seq<Event> {
    match proc
    case Outside => []
    case CopyingIn(_, _) => []
    case Looping(_, done) => done
    case Calling(_, done, _) => done
    case Holding(_, done, _, k, _) => if k >= 12 then done + [Outcome(p, proc)] else done
    case CopyingOut(_, done, _) => done
    case Finished(_, done, _) => done
  }

  lemma EventsAppend(log: seq<Event>, e: Event, q: nat)
    ensures EventsOf(log + [e], q) == EventsOf(log, q) + if e.session == q then [e] else []
  {
  }

  // ----- progress of one call among the others -----

  /** The state some actions after session `p` entered the driver with `job`. */
  function Since(s: State, p: nat, job: Job, after: seq<Action>): State {
    Run(Step(s, Enter(p, job, true)), after)
  }

  predicate NoEntry(after: seq<Action>, p: nat) {
    forall n | 0 <= n < |after| :: after[n].Enter? ==> after[n].p != p
  }

  /** What a step of session `p` that is no entry does to the log and to its own transactions. */
  ghost predicate Moves(s: State, p: nat, t: State) {
    var was, now := At(s, p), At(t, p);
    && (forall q: nat | q != p :: At(t, q) == At(s, q))
    && (now.Outside? || (!was.Outside? && now.job == was.job))
    && if was.Holding? && was.k == 11 && t != s then
         && now.Holding?
         && t.log == s.log + [Outcome(p, now)] && Completed(p, now) == Completed(p, was) + [Outcome(p, now)]
       else
         t.log == s.log && (now.Outside? || Completed(p, now) == Completed(p, was))
  }

  lemma HoldingMoves(s: State, p: nat)
    requires At(s, p).Holding? && ProcOk(p, At(s, p))
    ensures Moves(s, p, AdvanceHolding(s, p, At(s, p)))
  {
  }

  lemma OutsideMoves(s: State, p: nat)
    requires !At(s, p).Holding? && ProcOk(p, At(s, p))
    ensures Moves(s, p, AdvanceProc(s, p, At(s, p)))
  {
    assert At(s, p).Looping? || At(s, p).CopyingOut? || At(s, p).Calling? || At(s, p).CopyingIn? || At(s, p).Idle();
  }

  lemma StepMoves(ram: Ram, s: State, a: Action)
    requires Inv(ram, s) && !a.Enter?
    ensures Moves(s, a.p, Step(s, a))
  {
    assert ProcOk(a.p, At(s, a.p));
    if a.Advance? {
      if At(s, a.p).Holding? {
        HoldingMoves(s, a.p);
      } else {
        OutsideMoves(s, a.p);
      }
    }
  }

  lemma EntryMoves(s: State, a: Action)
    requires a.Enter?
    ensures var t := Step(s, a);
            t == s.(procs := t.procs) && forall q: nat | q != a.p :: At(t, q) == At(s, q)
    ensures Accepts(s, a.p, a.job) && a.accessible ==>
      At(Step(s, a), a.p) == if a.job.writing then CopyingIn(a.job, 0) else Looping(a.job, [])
  {
  }

  ghost predicate Progress(base: seq<Event>, p: nat, job: Job, t: State) {
    var proc := At(t, p);
    proc.Outside? || (proc.job == job && EventsOf(t.log, p) == EventsOf(base, p) + Completed(p, proc))
  }

  lemma MovesProgress(base: seq<Event>, p: nat, job: Job, s: State, q: nat, t: State)
    requires Moves(s, q, t) && Progress(base, p, job, s)
    ensures Progress(base, p, job, t)
  {
    if t.log != s.log {
      EventsAppend(s.log, Outcome(q, At(t, q)), p);
    }
  }

  lemma {:induction false} CallProgress(d: Device, before: seq<Action>, p: nat, job: Job, after: seq<Action>)
    requires Accepts(Run(Start(d), before), p, job) && NoEntry(after, p)
    ensures var s := Run(Start(d), before);
            && Inv(d.ram, Since(s, p, job, after))
            && Progress(s.log, p, job, Since(s, p, job, after))
  {
    var s := Run(Start(d), before);
    if after == [] {
      RunKeeps(d, before);
      StepKeeps(d.ram, s, Enter(p, job, true));
      EntryMoves(s, Enter(p, job, true));
    } else {
      var prior, a := after[..|after| - 1], after[|after| - 1];
      var t := Since(s, p, job, prior);
      CallProgress(d, before, p, job, prior);
      StepKeeps(d.ram, t, a);
      if a.Enter? {
        EntryMoves(t, a);
      } else {
        StepMoves(d.ram, t, a);
        MovesProgress(s.log, p, job, t, a.p, Step(t, a));
      }
    }
  }

  /**
   Over every interleaving, a call that returned 0 has performed, since it entered, exactly one
   transaction for each byte of its range, in order.
   */
  lemma {:induction false} FinishedIoctl(d: Device, before: seq<Action>, p: nat, job: Job, after: seq<Action>)
    requires Accepts(Run(Start(d), before), p, job) && NoEntry(after, p)
    requires At(Since(Run(Start(d), before), p, job, after), p).Finished?
    ensures var s := Run(Start(d), before);
            var t := Since(s, p, job, after);
            && At(t, p).job == job
            && EventsOf(t.log, p) == EventsOf(s.log, p) + At(t, p).done
            && |At(t, p).done| == job.length
            && forall n | 0 <= n < |At(t, p).done| :: AccessOk(job, n, At(t, p).done[n].access)
  {
    CallProgress(d, before, p, job, after);
    assert ProcOk(p, At(Since(Run(Start(d), before), p, job, after), p));
  }

  /** A signal during a lock attempt, or a failing copy from or to user memory, ends a call. */
  predicate Interrupts(t: State, p: nat, a: Action) {
    || (a == Signal(p) && At(t, p).Calling?)
    || (a == Fault(p) && (At(t, p).CopyingIn? || At(t, p).CopyingOut?))
  }

  lemma InterruptEnds(t: State, p: nat, a: Action)
    requires Interrupts(t, p, a)
    ensures Step(t, a) == t.(procs := t.procs[p := Outside])
  {
  }

  /** A session outside the driver that does not enter again takes no part in what follows. */
  lemma {:induction false} OutsideStays(ram: Ram, u: State, p: nat, later: seq<Action>)
    requires Inv(ram, u) && At(u, p).Outside? && NoEntry(later, p)
    ensures var v := Run(u, later);
            Inv(ram, v) && At(v, p).Outside? && EventsOf(v.log, p) == EventsOf(u.log, p)
  {
    if later != [] {
      var prior, a := later[..|later| - 1], later[|later| - 1];
      var v := Run(u, prior);
      OutsideStays(ram, u, p, prior);
      StepKeeps(ram, v, a);
      if a.Enter? {
        EntryMoves(v, a);
      } else {
        StepMoves(ram, v, a);
        if Step(v, a).log != v.log {
          EventsAppend(v.log, Outcome(a.p, At(Step(v, a), a.p)), p);
        }
      }
    }
  }

  /**
   Over every interleaving, an interrupted lock attempt or a failing copy ends the call, changing
   nothing else. The call has performed the transactions of a prefix of its range, in order, and
   however the run goes on it does not return 0 and performs no other: a lock attempt that fails for
   byte i leaves exactly i of them.
   */
  lemma {:induction false} InterruptedIoctl(d: Device, before: seq<Action>, p: nat, job: Job, after: seq<Action>,
                                            a: Action, later: seq<Action>)
    requires Accepts(Run(Start(d), before), p, job) && NoEntry(after, p) && NoEntry(later, p)
    requires Interrupts(Since(Run(Start(d), before), p, job, after), p, a)
    ensures var s := Run(Start(d), before);
            var t := Since(s, p, job, after);
            var v := Run(Step(t, a), later);
            var done := Completed(p, At(t, p));
            && Step(t, a) == t.(procs := t.procs[p := Outside])
            && At(v, p).Outside?
            && EventsOf(v.log, p) == EventsOf(t.log, p) == EventsOf(s.log, p) + done
            && (forall n | 0 <= n < |done| :: AccessOk(job, n, done[n].access))
            && (a.Signal? ==> At(t, p).done == done && |done| < job.length)
            && (a.Fault? ==> |done| == if job.writing then 0 else job.length)
  {
    CallProgress(d, before, p, job, after);
    var t := Since(Run(Start(d), before), p, job, after);
    assert ProcOk(p, At(t, p));
    InterruptEnds(t, p, a);
    StepKeeps(d.ram, t, a);
    OutsideStays(d.ram, Step(t, a), p, later);
  }

  // ----- a call whose buffer nobody else writes -----

  /** The values a write has sent are the caller's, up to `n`. */
  ghost predicate Sent(job: Job, done: seq<Event>) {
    |done| <= 64 && forall n | 0 <= n < |done| :: done[n].value == job.data[n]
  }

  /** The values a read has obtained are in `bytes`. */
  ghost predicate Kept(done: seq<Event>, bytes: seq<u8>) {
    |done| <= |bytes| && forall n | 0 <= n < |done| :: bytes[n] == done[n].value
  }

  /** What an ioctl whose buffer nobody else wrote knows about the buffer. */
  ghost predicate Faithful(s: State, p: nat) {
    match At(s, p)
    case Outside => true
    case CopyingIn(job, copied) => copied <= 64 && s.buffer[..copied] == job.data[..copied]
    case Looping(job, done) => LoopFaithful(s, job, done)
    case Calling(job, done, access) =>
      LoopFaithful(s, job, done) && |done| < 64 && (job.writing && access.Write? ==> access.value == job.data[|done|])
    case Holding(job, done, access, k, got) =>
      && LoopFaithful(s, job, done) && |done| < 64
      && (job.writing && access.Write? ==> access.value == job.data[|done|])
      && (k == 13 ==> s.buffer[|done|] == got)
    case CopyingOut(job, done, out) => Kept(done, s.buffer) && |out| <= 64 && out == s.buffer[..|out|]
    case Finished(job, done, out) => if job.writing then Sent(job, done) else Kept(done, out)
  }

  ghost predicate LoopFaithful(s: State, job: Job, done: seq<Event>) {
    if job.writing then Sent(job, done) && job.length <= 64 && s.buffer[..job.length] == job.data[..job.length]
    else Kept(done, s.buffer)
  }

  lemma FaithfulHolding(s: State, p: nat)
    requires At(s, p).Holding? && ProcOk(p, At(s, p)) && Faithful(s, p)
    ensures Faithful(AdvanceHolding(s, p, At(s, p)), p)
  {
  }

  lemma FaithfulOutside(s: State, p: nat)
    requires !At(s, p).Holding? && ProcOk(p, At(s, p)) && Faithful(s, p)
    ensures Faithful(AdvanceProc(s, p, At(s, p)), p)
  {
  }

  lemma FaithfulStep(s: State, p: nat, a: Action)
    requires ProcOk(p, At(s, p)) && Faithful(s, p) && a.p == p && !a.Enter?
    ensures Faithful(Step(s, a), p)
  {
    if a.Advance? {
      if At(s, p).Holding? {
        FaithfulHolding(s, p);
      } else {
        FaithfulOutside(s, p);
      }
    }
  }

  /** Whether an action stores a byte into the transfer buffer. */
  predicate Stores(s: State, a: Action) {
    && a.Advance?
    && match At(s, a.p)
       case CopyingIn(job, copied) => copied < job.length
       case Holding(_, _, access, k, _) => k == 12 && access.Read?
       case _ => false
  }

  /** From `s` on, no session but `p` stores into the transfer buffer. */
  predicate BufferLeft(s: State, p: nat, after: seq<Action>) {
    after == [] ||
    var prior, a := after[..|after| - 1], after[|after| - 1];
    BufferLeft(s, p, prior) && (a.p == p || !Stores(Run(s, prior), a))
  }

  lemma StoringChangesBuffer(ram: Ram, s: State, a: Action)
    requires Inv(ram, s) && !Stores(s, a)
    ensures Step(s, a).buffer == s.buffer
  {
    assert ProcOk(a.p, At(s, a.p));
  }

  lemma {:induction false} FaithfulRun(d: Device, before: seq<Action>, p: nat, job: Job, after: seq<Action>)
    requires Accepts(Run(Start(d), before), p, job) && NoEntry(after, p)
    requires BufferLeft(Step(Run(Start(d), before), Enter(p, job, true)), p, after)
    ensures Faithful(Since(Run(Start(d), before), p, job, after), p)
  {
    var s := Run(Start(d), before);
    if after == [] {
      EntryMoves(s, Enter(p, job, true));
    } else {
      var prior, a := after[..|after| - 1], after[|after| - 1];
      var t := Since(s, p, job, prior);
      FaithfulRun(d, before, p, job, prior);
      CallProgress(d, before, p, job, prior);
      if a.p != p {
        StoringChangesBuffer(d.ram, t, a);
        OtherKeeps(d.ram, t, a, p);
      } else {
        assert ProcOk(p, At(t, p));
        FaithfulStep(t, p, a);
      }
    }
  }

  lemma OtherKeeps(ram: Ram, s: State, a: Action, p: nat)
    requires Inv(ram, s) && a.p != p
    ensures At(Step(s, a), p) == At(s, p)
  {
    if a.Enter? {
      EntryMoves(s, a);
    } else {
      StepMoves(ram, s, a);
    }
  }

  /** A write sent its caller's bytes; a read returned the bytes its transactions found. */
  ghost predicate Honest(proc: Proc)
    requires proc.Finished?
  {
    if proc.job.writing then Sent(proc.job, proc.done) else Kept(proc.done, proc.out)
  }

  /**
   Over every interleaving, a call that returned 0 moved its caller's bytes if no other session
   stored into the transfer buffer meanwhile, whatever else the others did.
   */
  lemma {:induction false} UnsharedBuffer(d: Device, before: seq<Action>, p: nat, job: Job, after: seq<Action>)
    requires Accepts(Run(Start(d), before), p, job) && NoEntry(after, p)
    requires BufferLeft(Step(Run(Start(d), before), Enter(p, job, true)), p, after)
    requires At(Since(Run(Start(d), before), p, job, after), p).Finished?
    ensures Honest(At(Since(Run(Start(d), before), p, job, after), p))
  {
    FaithfulRun(d, before, p, job, after);
  }

  // ----- a call that no other overlaps -----

  /** No call is entered, and whoever acts beside `p` was outside the driver to begin with. */
  predicate Quiet(s: State, p: nat, after: seq<Action>) {
    forall n | 0 <= n < |after| :: !after[n].Enter? && (after[n].p == p || At(s, after[n].p).Idle())
  }

  ghost predicate Alone(s: State, p: nat, job: Job, t: State) {
    var proc := At(t, p);
    && (forall q: nat | q != p && At(s, q).Idle() :: At(t, q).Idle())
    && (proc.Outside? || (proc.job == job && t.log == s.log + Completed(p, proc) && Faithful(t, p)))
  }

  lemma IdleStep(s: State, a: Action)
    requires At(s, a.p).Idle() && !a.Enter?
    ensures var t := Step(s, a); t == s.(configured := t.configured)
  {
  }

  lemma MovesAlone(s: State, p: nat, job: Job, t: State, u: State)
    requires Alone(s, p, job, t) && Moves(t, p, u) && (!At(t, p).Outside? ==> Faithful(u, p))
    ensures Alone(s, p, job, u)
  {
    if t.log != u.log {
      assert s.log + Completed(p, At(t, p)) + [Outcome(p, At(u, p))] == s.log + Completed(p, At(u, p));
    }
  }

  lemma IdleAlone(s: State, p: nat, job: Job, t: State, u: State)
    requires Alone(s, p, job, t) && u == t.(configured := u.configured)
    ensures Alone(s, p, job, u)
  {
    assert At(u, p) == At(t, p);
  }

  lemma AloneStep(ram: Ram, s: State, p: nat, job: Job, t: State, a: Action)
    requires Inv(ram, t) && Alone(s, p, job, t)
    requires !a.Enter? && (a.p == p || At(s, a.p).Idle())
    ensures Alone(s, p, job, Step(t, a))
  {
    if a.p != p {
      IdleStep(t, a);
      IdleAlone(s, p, job, t, Step(t, a));
    } else {
      StepMoves(ram, t, a);
      if !At(t, p).Outside? {
        assert ProcOk(p, At(t, p));
        FaithfulStep(t, p, a);
      }
      MovesAlone(s, p, job, t, Step(t, a));
    }
  }

  lemma {:induction false} AloneHolds(d: Device, before: seq<Action>, p: nat, job: Job, after: seq<Action>)
    requires Accepts(Run(Start(d), before), p, job) && Quiet(Run(Start(d), before), p, after)
    ensures var s := Run(Start(d), before);
            Inv(d.ram, Since(s, p, job, after)) && Alone(s, p, job, Since(s, p, job, after))
  {
    var s := Run(Start(d), before);
    if after == [] {
      RunKeeps(d, before);
      StepKeeps(d.ram, s, Enter(p, job, true));
      EntryMoves(s, Enter(p, job, true));
      assert ProcOk(p, At(Since(s, p, job, after), p));
    } else {
      var prior, a := after[..|after| - 1], after[|after| - 1];
      assert Quiet(s, p, prior) by {
        assert forall n | 0 <= n < |prior| :: prior[n] == after[n];
      }
      AloneHolds(d, before, p, job, prior);
      StepKeeps(d.ram, Since(s, p, job, prior), a);
      AloneStep(d.ram, s, p, job, Since(s, p, job, prior), a);
    }
  }

  lemma {:induction false} ReplayWrites(ram: Ram, before: seq<Event>, job: Job, done: seq<Event>, n: nat)
    requires JobOk(job, |done|) && Sent(job, done) && n <= |done|
    requires forall k | 0 <= k < |done| ::
      done[k].access.Write? && AccessOk(job, k, done[k].access) && done[k].value == done[k].access.value
    ensures Replay(ram, before + done[..n]) == AecDriver.Overwrite(Replay(ram, before), job.offset, job.data[..n])
  {
    if n == 0 {
      assert before + done[..0] == before;
    } else {
      ReplayWrites(ram, before, job, done, n - 1);
      AecDriver.OverwriteNext(Replay(ram, before), job.offset, job.data, n - 1);
      var log := before + done[..n];
      assert log[..|log| - 1] == before + done[..n - 1] && log[|log| - 1] == done[n - 1];
    }
  }

  lemma {:induction false} ReplayReads(ram: Ram, before: seq<Event>, done: seq<Event>, n: nat)
    requires n <= |done| && forall k | 0 <= k < |done| :: done[k].access.Read?
    ensures Replay(ram, before + done[..n]) == Replay(ram, before)
  {
    if n == 0 {
      assert before + done[..0] == before;
    } else {
      ReplayReads(ram, before, done, n - 1);
      var log := before + done[..n];
      assert log[..|log| - 1] == before + done[..n - 1] && log[|log| - 1] == done[n - 1];
    }
  }

  lemma ReadReturns(ram: Ram, before: seq<Event>, done: seq<Event>, k: nat)
    requires Legal(ram, before + done) && k < |done|
    requires forall n | 0 <= n < |done| :: done[n].access.Read?
    ensures done[k].value == Replay(ram, before)[done[k].access.offset]
  {
    ReplayReads(ram, before, done, k);
    var log := before + done;
    assert log[|before| + k] == done[k] && log[..|before| + k] == before + done[..k];
  }

  /** The values of consecutive reads with nothing in between are one slice of the map. */
  lemma ReadsReturn(ram: Ram, before: seq<Event>, job: Job, done: seq<Event>, out: seq<u8>)
    requires JobOk(job, |done|) && Legal(ram, before + done) && |out| == |done| && Kept(done, out)
    requires forall k | 0 <= k < |done| :: done[k].access.Read? && AccessOk(job, k, done[k].access)
    ensures out == Replay(ram, before)[job.offset..job.offset as int + |done|]
  {
    var slice := Replay(ram, before)[job.offset..job.offset as int + |done|];
    forall k | 0 <= k < |done| ensures out[k] == slice[k] {
      ReadReturns(ram, before, done, k);
    }
  }

  /** What a finished job amounts to on a flat byte map, if nothing came in between. */
  ghost predicate ActsAtOnce(ram: Ram, job: Job, out: seq<u8>, after: Ram)
    requires JobOk(job, job.length)
  {
    if job.writing then after == AecDriver.Overwrite(ram, job.offset, job.data[..job.length])
    else after == ram && out == ram[job.offset..job.offset as int + job.length]
  }

  lemma PrefixStored(ram: Ram, p: nat, before: seq<Event>, job: Job, done: seq<Event>)
    requires DoneOk(p, job, done) && (job.writing ==> Sent(job, done))
    ensures Replay(ram, before + done) ==
            if job.writing then AecDriver.Overwrite(Replay(ram, before), job.offset, job.data[..|done|])
            else Replay(ram, before)
  {
    assert done[..|done|] == done;
    if job.writing {
      ReplayWrites(ram, before, job, done, |done|);
    } else {
      ReplayReads(ram, before, done, |done|);
    }
  }

  lemma JobActsAtOnce(ram: Ram, p: nat, before: seq<Event>, job: Job, done: seq<Event>, out: seq<u8>)
    requires DoneOk(p, job, done) && |done| == job.length && Legal(ram, before + done)
    requires if job.writing then Sent(job, done) else |out| == |done| && Kept(done, out)
    ensures ActsAtOnce(Replay(ram, before), job, out, Replay(ram, before + done))
  {
    PrefixStored(ram, p, before, job, done);
    if !job.writing {
      ReadsReturn(ram, before, job, done, out);
    }
  }

  /**
   A call that no other overlaps acts on its whole range at once: a write that returned 0 stored its
   caller's bytes and nothing else, a read returned the bytes there.
   */
  lemma {:induction false} NonOverlappingIoctl(d: Device, before: seq<Action>, p: nat, job: Job, after: seq<Action>)
    requires Accepts(Run(Start(d), before), p, job) && Quiet(Run(Start(d), before), p, after)
    requires At(Since(Run(Start(d), before), p, job, after), p).Finished?
    ensures var s := Run(Start(d), before);
            var t := Since(s, p, job, after);
            JobOk(job, job.length) && ActsAtOnce(s.device.ram, job, At(t, p).out, t.device.ram)
  {
    RunKeeps(d, before);
    AloneHolds(d, before, p, job, after);
    var s := Run(Start(d), before);
    var t := Since(s, p, job, after);
    assert ProcOk(p, At(t, p)) && Faithful(t, p);
    JobActsAtOnce(d.ram, p, s.log, job, At(t, p).done, At(t, p).out);
  }

  lemma PrefixAtLock(d: Device, s: State, p: nat, job: Job, t: State)
    requires Inv(d.ram, s) && Inv(d.ram, t) && Alone(s, p, job, t) && At(t, p).Calling?
    ensures JobOk(job, |At(t, p).done|)
    ensures t.device.ram ==
            if job.writing then AecDriver.Overwrite(s.device.ram, job.offset, job.data[..|At(t, p).done|])
            else s.device.ram
  {
    assert ProcOk(p, At(t, p)) && Faithful(t, p);
    PrefixStored(d.ram, p, s.log, job, At(t, p).done);
  }

  /** If its lock attempt for byte i is interrupted, a write has stored the first i bytes of its caller. */
  lemma {:induction false} NonOverlappingInterrupted(d: Device, before: seq<Action>, p: nat, job: Job,
                                                     after: seq<Action>)
    requires Accepts(Run(Start(d), before), p, job) && Quiet(Run(Start(d), before), p, after)
    requires At(Since(Run(Start(d), before), p, job, after), p).Calling?
    ensures var s := Run(Start(d), before);
            var t := Since(s, p, job, after);
            var i := |At(t, p).done|;
            && JobOk(job, i)
            && Step(t, Signal(p)).device.ram ==
               if job.writing then AecDriver.Overwrite(s.device.ram, job.offset, job.data[..i]) else s.device.ram
  {
    var s := Run(Start(d), before);
    RunKeeps(d, before);
    AloneHolds(d, before, p, job, after);
    PrefixAtLock(d, s, p, job, Since(s, p, job, after));
    InterruptEnds(Since(s, p, job, after), p, Signal(p));
  }

  // ----- a call on its own -----

  lemma {:induction false} RunConcat(s: State, x: seq<Action>, y: seq<Action>)
    ensures Run(s, x + y) == Run(Run(s, x), y)
  {
    if y == [] {
      assert x + y == x;
    } else {
      assert (x + y)[..|x + y| - 1] == x + y[..|y| - 1];
      RunConcat(s, x, y[..|y| - 1]);
    }
  }

  lemma RunOne(s: State, a: Action)
    ensures Run(s, [a]) == Step(s, a)
  {
  }

  function Advances(p: nat, n: nat): seq<Action> {
    seq(n, _ => Advance(p))
  }

  lemma AdvancesStep(s: State, p: nat, n: nat)
    requires n > 0
    ensures Run(s, Advances(p, n)) == AdvanceProc(Run(s, Advances(p, n - 1)), p, At(Run(s, Advances(p, n - 1)), p))
  {
    assert Advances(p, n) == Advances(p, n - 1) + [Advance(p)];
    RunConcat(s, Advances(p, n - 1), [Advance(p)]);
    RunOne(Run(s, Advances(p, n - 1)), Advance(p));
  }

  /** The steps a call takes if its session alone steps and the mutex is free. */
  function Steps(job: Job): nat {
    if job.writing then 16 * job.length as int + 2 else 17 * job.length as int + 2
  }

  /** The steps left in the loop and after it, with `done` bytes transferred. */
  function LoopRemaining(job: Job, done: nat): int {
    if job.writing then 15 * (job.length as int - done) + 1
    else 16 * (job.length as int - done) + job.length as int + 2
  }

  function Remaining(proc: Proc): int {
    match proc
    case Outside => 0
    case CopyingIn(job, copied) => job.length as int - copied + 1 + LoopRemaining(job, 0)
    case Looping(job, done) => LoopRemaining(job, |done|)
    case Calling(job, done, _) => LoopRemaining(job, |done|) - 1
    case Holding(job, done, _, k, _) => LoopRemaining(job, |done|) - 2 - k
    case CopyingOut(job, _, out) => job.length as int - |out| + 1
    case Finished(_, _, _) => 0
  }

  predicate Free(s: State, p: nat) {
    s.mutex == None || s.mutex == Some(p)
  }

  /** A lock attempt while another session holds the mutex. */
  predicate Waits(s: State, p: nat) {
    At(s, p).Calling? && s.mutex.Some?
  }

  lemma OwnStepHolding(s: State, p: nat)
    requires At(s, p).Holding? && ProcOk(p, At(s, p)) && Free(s, p)
    ensures var t := AdvanceHolding(s, p, At(s, p));
            && Free(t, p) && !At(t, p).Idle() && At(t, p).job == At(s, p).job
            && Remaining(At(t, p)) == Remaining(At(s, p)) - 1
  {
  }

  lemma OwnStep(ram: Ram, s: State, p: nat)
    requires Inv(ram, s) && !At(s, p).Idle() && !Waits(s, p)
    ensures var t := AdvanceProc(s, p, At(s, p));
            && !At(t, p).Outside? && At(t, p).job == At(s, p).job
            && Remaining(At(t, p)) == Remaining(At(s, p)) - 1
            && (Free(s, p) ==> Free(t, p))
  {
    assert ProcOk(p, At(s, p)) && HolderOk(s, p);
    if At(s, p).Holding? {
      OwnStepHolding(s, p);
    }
  }

  lemma RemainingPositive(p: nat, proc: Proc)
    requires ProcOk(p, proc)
    ensures Remaining(proc) >= 0 && (Remaining(proc) == 0 <==> proc.Idle())
  {
  }

  lemma {:induction false} SoloSteps(ram: Ram, s: State, p: nat, n: nat)
    requires Inv(ram, s) && !At(s, p).Outside? && Free(s, p) && n <= Remaining(At(s, p))
    ensures var t := Run(s, Advances(p, n));
            && Inv(ram, t) && Free(t, p) && !At(t, p).Outside? && At(t, p).job == At(s, p).job
            && Remaining(At(t, p)) == Remaining(At(s, p)) - n
  {
    if n == 0 {
      assert Advances(p, 0) == [];
    } else {
      SoloSteps(ram, s, p, n - 1);
      AdvancesStep(s, p, n);
      var t := Run(s, Advances(p, n - 1));
      assert ProcOk(p, At(t, p));
      RemainingPositive(p, At(t, p));
      assert HolderOk(t, p);
      AdvanceKeeps(ram, t, p);
      OwnStep(ram, t, p);
    }
  }

  /**
   A call that enters while the mutex is free and whose session alone steps returns 0 after exactly
   the steps its length and direction determine, and not before; it has then acted on its range at once.
   */
  lemma {:induction false} SoloIoctl(d: Device, before: seq<Action>, p: nat, job: Job, n: nat)
    requires Accepts(Run(Start(d), before), p, job) && Run(Start(d), before).mutex == None
    requires n <= Steps(job)
    ensures var s := Run(Start(d), before);
            var t := Since(s, p, job, Advances(p, n));
            && (At(t, p).Finished? <==> n == Steps(job)) && !At(t, p).Outside?
            && JobOk(job, job.length)
            && (n == Steps(job) ==> ActsAtOnce(s.device.ram, job, At(t, p).out, t.device.ram))
  {
    RunKeeps(d, before);
    var s := Run(Start(d), before);
    var entered := Step(s, Enter(p, job, true));
    StepKeeps(d.ram, s, Enter(p, job, true));
    EntryMoves(s, Enter(p, job, true));
    assert ProcOk(p, At(entered, p));
    SoloSteps(d.ram, entered, p, n);
    var t := Since(s, p, job, Advances(p, n));
    assert ProcOk(p, At(t, p));
    RemainingPositive(p, At(t, p));
    if n == Steps(job) {
      NonOverlappingIoctl(d, before, p, job, Advances(p, n));
    }
  }

  /** The steps session `p` has taken inside the driver, apart from lock attempts that had to wait. */
  function OwnSteps(s: State, p: nat, after: seq<Action>): nat {
    if after == [] then 0
    else
      var prior := after[..|after| - 1];
      var t := Run(s, prior);
      OwnSteps(s, p, prior)
      + if after[|after| - 1] == Advance(p) && !At(t, p).Idle() && !Waits(t, p) then 1 else 0
  }

  lemma WaitingWaits(s: State, p: nat)
    requires Waits(s, p)
    ensures Step(s, Advance(p)) == s
  {
  }

  lemma RequestKeepsPlace(s: State, a: Action)
    requires !a.Advance? && !a.Enter?
    ensures At(Step(s, a), a.p) == (if Interrupts(s, a.p, a) then Outside else At(s, a.p))
  {
  }

  /**
   Over every interleaving, a call that is not interrupted returns 0 after exactly the steps its
   length and direction determine, not counting those in which it waited for the mutex.
   */
  lemma {:induction false} ReturnsAfterOwnSteps(d: Device, before: seq<Action>, p: nat, job: Job, after: seq<Action>)
    requires Accepts(Run(Start(d), before), p, job) && NoEntry(after, p)
    ensures var s := Run(Start(d), before);
            var t := Since(s, p, job, after);
            var steps := OwnSteps(Step(s, Enter(p, job, true)), p, after);
            !At(t, p).Outside? ==>
              && Remaining(At(t, p)) == Steps(job) - steps
              && steps <= Steps(job) && (At(t, p).Finished? <==> steps == Steps(job))
  {
    var s := Run(Start(d), before);
    CallProgress(d, before, p, job, after);
    var u := Since(s, p, job, after);
    assert ProcOk(p, At(u, p));
    RemainingPositive(p, At(u, p));
    if after == [] {
      EntryMoves(s, Enter(p, job, true));
    } else {
      var prior, a := after[..|after| - 1], after[|after| - 1];
      var t := Since(s, p, job, prior);
      ReturnsAfterOwnSteps(d, before, p, job, prior);
      CallProgress(d, before, p, job, prior);
      if a.p != p {
        OtherKeeps(d.ram, t, a, p);
      } else if !a.Advance? {
        RequestKeepsPlace(t, a);
      } else if Waits(t, p) {
        WaitingWaits(t, p);
      } else if !At(t, p).Idle() {
        OwnStep(d.ram, t, p);
      }
    }
  }

  // ----- how a call begins and ends -----

  predicate Configures(s: State, p: nat, a: Action) {
    a == SetType(p, 1) && At(s, p).Idle()
  }

  /** Some action of a run has configured session `p`. */
  ghost predicate ConfiguredBy(d: Device, actions: seq<Action>, p: nat) {
    exists i | 0 <= i < |actions| :: Configures(Run(Start(d), actions[..i]), p, actions[i])
  }

  lemma ConfiguredNext(d: Device, earlier: seq<Action>, a: Action, p: nat)
    ensures ConfiguredBy(d, earlier + [a], p)
       <==> ConfiguredBy(d, earlier, p) || Configures(Run(Start(d), earlier), p, a)
  {
    var all := earlier + [a];
    assert forall i | 0 <= i < |earlier| :: all[..i] == earlier[..i] && all[i] == earlier[i];
    assert all[..|earlier|] == earlier;
  }

  lemma StepConfigures(ram: Ram, s: State, a: Action, p: nat)
    requires Inv(ram, s)
    ensures p in Step(s, a).configured <==> p in s.configured || Configures(s, p, a)
  {
    if a.Advance? {
      assert ProcOk(a.p, At(s, a.p));
    }
  }

  lemma RunNext(s: State, earlier: seq<Action>, a: Action)
    ensures Run(s, earlier + [a]) == Step(Run(s, earlier), a)
  {
    RunConcat(s, earlier, [a]);
    RunOne(Run(s, earlier), a);
  }

  lemma {:induction false} ConfiguredExactly(d: Device, actions: seq<Action>, p: nat)
    ensures p in Run(Start(d), actions).configured <==> ConfiguredBy(d, actions, p)
  {
    if actions != [] {
      var earlier, a := actions[..|actions| - 1], actions[|actions| - 1];
      ConfiguredExactly(d, earlier, p);
      RunKeeps(d, earlier);
      StepConfigures(d.ram, Run(Start(d), earlier), a, p);
      RunNext(Start(d), earlier, a);
      ConfiguredNext(d, earlier, a, p);
      assert earlier + [a] == actions;
    }
  }

  /**
   A session enters the driver exactly if it is outside, has set the known type before, and passes an
   accessible request for 1 to 64 bytes inside the address space; otherwise nothing changes.
   */
  lemma {:induction false} EntersExactly(d: Device, actions: seq<Action>, p: nat, job: Job, accessible: bool)
    ensures var s := Run(Start(d), actions);
            var t := Step(s, Enter(p, job, accessible));
            var enters := && At(s, p).Idle() && ConfiguredBy(d, actions, p) && accessible
                          && 0 < job.length <= 64 && job.offset as int + job.length as int <= 0x1_0000;
            && (At(s, p).Idle() && !At(t, p).Idle() <==> enters)
            && (!enters ==> t == s)
  {
    ConfiguredExactly(d, actions, p);
    AecDriver.ValidParamExactly(job.offset, job.length);
    EntryMoves(Run(Start(d), actions), Enter(p, job, accessible));
  }

  /**
   A call in progress ends with an error exactly if it is interrupted: no other action, of its own
   session or another, puts it outside. A request of its session that does not interrupt it changes
   nothing, and so does a lock attempt that has to wait.
   */
  lemma {:induction false} CallEndsExactly(d: Device, actions: seq<Action>, p: nat, a: Action)
    requires !At(Run(Start(d), actions), p).Idle()
    ensures var t := Run(Start(d), actions);
            && (At(Step(t, a), p).Outside? <==> Interrupts(t, p, a))
            && (a.p == p && !a.Advance? && !Interrupts(t, p, a) ==> Step(t, a) == t)
            && (a == Advance(p) && Waits(t, p) ==> Step(t, a) == t)
  {
    RunKeeps(d, actions);
    var t := Run(Start(d), actions);
    if a.p != p {
      OtherKeeps(d.ram, t, a, p);
    } else if !a.Advance? {
      BusyRequest(t, a);
    } else if Waits(t, p) {
      WaitingWaits(t, p);
    } else {
      OwnStep(d.ram, t, p);
    }
  }

  lemma BusyRequest(t: State, a: Action)
    requires !At(t, a.p).Idle() && !a.Advance?
    ensures At(Step(t, a), a.p).Outside? <==> Interrupts(t, a.p, a)
    ensures !Interrupts(t, a.p, a) ==> Step(t, a) == t
  {
  }
}
