/** Steps are bounded: with no new tasks, every schedule of the step machine ends, and it
    ends with every task done. */
module LogProgress {
  import opened Types
  import opened Records
  import opened NamespaceIndex
  import opened LogMachine
  import opened LogLocks

  function Pairs(op: Op): nat {
    if op.Write? then |op.pairs| else 0
  }

  /** What an operation may still do once it holds its stripes. */
  function AfterLocks(op: Op): nat {
    if op.Write? then 5 * |op.pairs| + 3 else 4
  }

  /** A bound on the steps of a task, counting two for every blob it may queue for deletion. */
  function Work(task: Task): nat {
    var p := Pairs(task.op);
    match task.pc
    case Start => if task.op.IsWriter() then 1 + |task.need| + AfterLocks(task.op) else if task.op.Sync? then 2 else 3
    case Locking(n) => (if n <= |task.need| then |task.need| - n else 0) + AfterLocks(task.op)
    case Building(st) => (if |st| <= p then 3 * (p - |st|) else 0) + 2 + 2 * p
    case BlobWait(st) => (if |st| <= p then 3 * (p - |st|) else 0) + 4 + 2 * p
    case BlobWrite(st) => (if |st| <= p then 3 * (p - |st|) else 0) + 3 + 2 * p
    case Appended(_, recs) => 1 + 2 * |recs|
    case Removed(_, _) => 3
    case Draining => 2
    case Sealing => 1
    case Collecting(q) => 2 * |q| + 1
    case Unlinking(q) => 2 * |q|
    case Done(_) => 0
  }

  /** The step used up some of the bound. */
  ghost predicate Spends(s: State, s': State, t: TaskId) {
    && t in s.tasks && t in s'.tasks
    && Work(s'.tasks[t]) + 2 * |s'.blobs.pending| < Work(s.tasks[t]) + 2 * |s.blobs.pending|
  }

  lemma GateSpends(s: State, e: Event)
    requires Shape(s) && Next(s, e).Some? && (IsGateEvent(e) || IsCheckEvent(e))
    ensures Spends(s, Next(s, e).value, e.t)
  {
    hide StripesBelow;
    assert TaskOk(s.hash, s.tasks[e.t]);
  }

  lemma RefSpends(s: State, e: Event)
    requires Shape(s) && Next(s, e).Some? && IsRefEvent(e)
    ensures Spends(s, Next(s, e).value, e.t)
  {
    hide StripesBelow;
    assert TaskOk(s.hash, s.tasks[e.t]);
  }

  lemma BlobSpends(s: State, e: Event)
    requires Shape(s) && Next(s, e).Some? && IsBlobEvent(e)
    ensures Spends(s, Next(s, e).value, e.t)
  {
    hide StripesBelow;
    assert TaskOk(s.hash, s.tasks[e.t]);
  }

  lemma RecordSpends(s: State, e: Event)
    requires Shape(s) && Next(s, e).Some? && IsRecordEvent(e)
    ensures Spends(s, Next(s, e).value, e.t)
  {
    hide StripesBelow;
    assert TaskOk(s.hash, s.tasks[e.t]);
  }

  lemma {:induction false} SupersededSize(idx: Index, fileId: nat, offset: nat, rs: seq<Record>)
    ensures |Superseded(idx, fileId, offset, rs)| <= |rs|
    decreases |rs|
  {
    hide RunRecord;
    if rs != [] {
      SupersededSize(RunRecord(idx, fileId, offset, rs[0]), fileId, offset + rs[0].Size(), rs[1..]);
    }
  }

  lemma {:induction false} UnrefAllQueues(b: Blobs, hs: seq<Hash>)
    ensures |UnrefAll(b, hs).pending| <= |b.pending| + |hs|
    decreases |hs|
  {
    if hs != [] {
      UnrefAllQueues(b.Unref(hs[0]), hs[1..]);
    }
  }

  lemma CommitSpends(s: State, e: Event)
    requires Shape(s) && Next(s, e).Some? && IsCommitEvent(e)
    ensures Spends(s, Next(s, e).value, e.t)
  {
    hide StripesBelow, Superseded, UnrefAll, RunAll, RaiseFloor;
    assert TaskOk(s.hash, s.tasks[e.t]);
    if e.Commit? {
      var pc := s.tasks[e.t].pc;
      SupersededSize(s.idx, s.fileId, pc.offset, pc.recs);
      UnrefAllQueues(s.blobs, Superseded(s.idx, s.fileId, pc.offset, pc.recs));
    }
  }

  lemma FlagSpends(s: State, e: Event)
    requires Shape(s) && Next(s, e).Some? && (e.TakeFlag? || e.Busy?)
    ensures Spends(s, Next(s, e).value, e.t)
  {
    hide StripesBelow;
    assert TaskOk(s.hash, s.tasks[e.t]);
  }

  lemma DrainSpends(s: State, e: Event)
    requires Shape(s) && Next(s, e).Some? && (e.SetFrozen? || e.Drained?)
    ensures Spends(s, Next(s, e).value, e.t)
  {
    hide StripesBelow;
    assert TaskOk(s.hash, s.tasks[e.t]);
  }

  lemma ExitSpends(s: State, e: Event)
    requires Shape(s) && Next(s, e).Some? && IsExitEvent(e)
    ensures Spends(s, Next(s, e).value, e.t)
  {
    hide StripesBelow;
    assert TaskOk(s.hash, s.tasks[e.t]);
  }

  lemma GcSpends(s: State, e: Event)
    requires Shape(s) && Next(s, e).Some? && IsGcEvent(e)
    ensures Spends(s, Next(s, e).value, e.t)
  {
    hide StripesBelow;
    assert TaskOk(s.hash, s.tasks[e.t]);
  }

  lemma UnlinkSpends(s: State, e: Event)
    requires Shape(s) && Next(s, e).Some? && IsUnlinkEvent(e)
    ensures Spends(s, Next(s, e).value, e.t)
  {
    hide StripesBelow;
    assert TaskOk(s.hash, s.tasks[e.t]);
  }

  /** Every step of a task leaves less to do. */
  lemma StepSpends(s: State, e: Event)
    requires Shape(s) && Next(s, e).Some? && !e.Spawn? && !e.Unfreeze?
    ensures Spends(s, Next(s, e).value, e.t)
  {
    hide Next, Shape, Spends;
    if IsGateEvent(e) || IsCheckEvent(e) {
      GateSpends(s, e);
    } else if IsRefEvent(e) {
      RefSpends(s, e);
    } else if IsBlobEvent(e) {
      BlobSpends(s, e);
    } else if IsRecordEvent(e) {
      RecordSpends(s, e);
    } else if IsCommitEvent(e) {
      CommitSpends(s, e);
    } else if e.TakeFlag? || e.Busy? {
      FlagSpends(s, e);
    } else if e.SetFrozen? || e.Drained? {
      DrainSpends(s, e);
    } else if IsExitEvent(e) {
      ExitSpends(s, e);
    } else if IsGcEvent(e) {
      GcSpends(s, e);
    } else {
      UnlinkSpends(s, e);
    }
  }

  ghost function TotalWork(tasks: map<TaskId, Task>): nat {
    if tasks == map[] then 0 else var t :| t in tasks; Work(tasks[t]) + TotalWork(tasks - {t})
  }

  lemma {:induction false} TotalRemove(tasks: map<TaskId, Task>, t: TaskId)
    requires t in tasks
    ensures TotalWork(tasks) == Work(tasks[t]) + TotalWork(tasks - {t})
    decreases |tasks|
  {
    hide Work;
    var u :| u in tasks && TotalWork(tasks) == Work(tasks[u]) + TotalWork(tasks - {u});
    if u != t {
      TotalRemove(tasks - {u}, t);
      TotalRemove(tasks - {t}, u);
      assert tasks - {u} - {t} == tasks - {t} - {u};
    }
  }

  /** A bound on the steps left when no task is started. */
  ghost function StepsLeft(s: State): nat {
    TotalWork(s.tasks) + 2 * |s.blobs.pending|
  }

  lemma StepsDecrease(s: State, e: Event)
    requires Shape(s) && Next(s, e).Some? && !e.Spawn? && !e.Unfreeze?
    ensures StepsLeft(Next(s, e).value) < StepsLeft(s)
  {
    hide Next, Shape, Work, StripeEffect, FileEffect, CountEffect, FlagEffect, TaskOk, TotalWork;
    var s' := Next(s, e).value;
    StepMoves(s, e);
    StepSpends(s, e);
    TotalRemove(s.tasks, e.t);
    TotalRemove(s'.tasks, e.t);
    assert s.tasks - {e.t} == s'.tasks - {e.t};
  }

  /** No task is started and no namespace resumed. */
  predicate Closed(es: seq<Event>) {
    forall i :: 0 <= i < |es| ==> !es[i].Spawn? && !es[i].Unfreeze?
  }

  /** With no new tasks, a run takes boundedly many steps, whatever the schedule. */
  lemma {:induction false} RunsAreBounded(s: State, es: seq<Event>)
    requires LockInv(s) && Run(s, es).Some? && Closed(es)
    ensures |es| + StepsLeft(Run(s, es).value) <= StepsLeft(s)
    ensures LockInv(Run(s, es).value)
    decreases |es|
  {
    hide LockInv, Next, StepsLeft, Shape;
    if es != [] {
      var n := |es| - 1;
      RunsAreBounded(s, es[..n]);
      var mid := Run(s, es[..n]).value;
      LockShape(mid);
      StepsDecrease(mid, es[n]);
      LockInvStep(mid, es[n]);
    }
  }

  lemma LockShape(s: State)
    requires LockInv(s)
    ensures Shape(s)
  {
  }

  /** So every schedule gets stuck, and only once every task is done. */
  lemma SchedulesFinish(s: State, es: seq<Event>)
    requires LockInv(s) && Run(s, es).Some? && Closed(es)
    requires Run(s, es).value.last + 1 < U64_LIMIT
    requires forall u :: u in Run(s, es).value.tasks ==> !CanStep(Run(s, es).value, u)
    ensures |es| <= StepsLeft(s)
    ensures forall t :: t in Run(s, es).value.tasks ==> Run(s, es).value.tasks[t].pc.Done?
  {
    hide LockInv, Run, CanStep;
    RunsAreBounded(s, es);
    var s' := Run(s, es).value;
    forall t | t in s'.tasks ensures s'.tasks[t].pc.Done? {
      if !s'.tasks[t].pc.Done? {
        NoDeadlock(s', t);
      }
    }
  }
}
