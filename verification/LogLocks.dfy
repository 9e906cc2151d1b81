/** Stripe locks, the in-flight count and the reclaim and freeze gates. */
module LogLocks {
  import opened Types
  import opened Records
  import opened NamespaceIndex
  import opened LogMachine

  /** What a task's program point says about the task alone. */
  predicate TaskOk(hash: Bytes -> nat, task: Task) {
    && task.op.Ok()
    && task.need == StripesBelow(hash, task.op, WRITE_STRIPES)
    && match task.pc
       case Start => true
       case Locking(n) => task.op.IsWriter() && n <= |task.need|
       case Building(stamps) => task.op.Write? && |stamps| <= |task.op.pairs|
       case BlobWait(_) => HasBlob(task)
       case BlobWrite(_) => HasBlob(task)
       case Appended(_, recs) => RecordsOf(task.op, recs)
       case Removed(_, _) => task.op.Delete?
       case Draining => task.op.Reclaim? || task.op.Flush? || task.op.Freeze?
       case Sealing => task.op.Reclaim? || task.op.Flush? || task.op.Freeze?
       case Collecting(_) => task.op.Sync?
       case Unlinking(q) => task.op.Sync? && q != []
       case Done(_) => true
  }

  /** `recs` are the records of the operation, whatever stamps they got. */
  predicate RecordsOf(op: Op, recs: seq<Record>)
    requires op.Ok()
  {
    match op
    case Write(ps, _, _) => |recs| == |ps| && forall i :: 0 <= i < |ps| ==> recs[i] == ps[i].ToRecord(recs[i].tstamp)
    case Expire(k, exp) => |recs| == 1 && recs[0] == TtlRecord(k, exp, recs[0].tstamp)
    case _ => false
  }

  ghost predicate Shape(s: State) {
    forall t :: t in s.tasks ==> TaskOk(s.hash, s.tasks[t])
  }

  /** Holds the reclaim flag. */
  predicate Exclusive(task: Task) {
    (task.op.Reclaim? || task.op.Flush?) && (task.pc.Draining? || task.pc.Sealing?)
  }

  /** The file lock a task holds, if any. */
  function FileHeld(task: Task): Option<nat> {
    if task.pc.BlobWrite? && HasBlob(task) then Some(FileLock(BlobOf(task)))
    else if task.pc.Unlinking? && task.pc.queue != [] then Some(FileLock(task.pc.queue[0]))
    else None
  }

  /** What any step of task `t` does to the tasks, locks, counters and flags. */
  ghost predicate Moves(s: State, s': State, t: TaskId) {
    && t in s.tasks && t in s'.tasks
    && s'.hash == s.hash
    && s'.tasks == s.tasks[t := s.tasks[t].(pc := s'.tasks[t].pc)]
    && TaskOk(s.hash, s'.tasks[t])
    && StripeEffect(s, s', t)
    && FileEffect(s, s', t)
    && CountEffect(s, s', t)
    && FlagEffect(s, s', t)
  }

  /** `t` takes a free stripe, gives all of its stripes back, or keeps what it holds. */
  ghost predicate StripeEffect(s: State, s': State, t: TaskId)
    requires t in s.tasks && t in s'.tasks
  {
    var held, held' := s.tasks[t].Held(), s'.tasks[t].Held();
    || (s'.stripes == s.stripes && held' == held)
    || (exists i :: i !in s.stripes && s'.stripes == s.stripes[i := t] && held' == held + {i})
    || (s'.stripes == (map i | i in s.stripes && s.stripes[i] != t :: s.stripes[i]) && held' == {})
  }

  ghost predicate FileEffect(s: State, s': State, t: TaskId)
    requires t in s.tasks && t in s'.tasks
  {
    match (FileHeld(s.tasks[t]), FileHeld(s'.tasks[t]))
    case (None, None) => s'.blobs.locks == s.blobs.locks
    case (None, Some(i)) => i !in s.blobs.locks && s'.blobs.locks == s.blobs.locks[i := t]
    case (Some(i), None) => s'.blobs.locks == s.blobs.locks - {i}
    case (Some(i), Some(j)) => false
  }

  ghost predicate CountEffect(s: State, s': State, t: TaskId)
    requires t in s.tasks && t in s'.tasks
  {
    var admitted, admitted' := s.tasks[t].pc.InFlight(), s'.tasks[t].pc.InFlight();
    && (admitted == admitted' ==> s'.inFlight == s.inFlight)
    && (!admitted && admitted' ==> s'.inFlight == s.inFlight + 1 && s.reclaiming.None? && !s.frozen)
    && (admitted && !admitted' ==> s'.inFlight == if s.inFlight == 0 then 0 else s.inFlight - 1)
    && (s'.tasks[t].pc.Sealing? && !s.tasks[t].pc.Sealing? ==> s.inFlight == 0)
  }

  ghost predicate FlagEffect(s: State, s': State, t: TaskId)
    requires t in s.tasks && t in s'.tasks
  {
    var task, task' := s.tasks[t], s'.tasks[t];
    && (Exclusive(task') && !Exclusive(task) ==> s.reclaiming.None?)
    && s'.reclaiming == (if Exclusive(task') then (if Exclusive(task) then s.reclaiming else Some(t))
                         else if Exclusive(task) then None else s.reclaiming)
    && s'.frozen == (s.frozen || (Freezing(task') && !Freezing(task)))
    && (Freezing(task') && !Freezing(task) ==> task'.pc.Draining?)
    && (Freezing(task) && task.pc.Draining? && !task'.pc.Draining? ==> s.inFlight == 0)
  }

  predicate IsGateEvent(e: Event) {
    e.Admit? || e.Refuse? || e.Lock?
  }

  predicate IsCheckEvent(e: Event) {
    e.Pass? || e.Miss? || e.Stamp?
  }

  predicate IsRefEvent(e: Event) {
    e.ShareBlob? || e.FirstBlob?
  }

  predicate IsBlobEvent(e: Event) {
    e.BlobDone? || e.BlobFail?
  }

  predicate IsRecordEvent(e: Event) {
    e.Append? || e.Drop? || e.AppendTtl?
  }

  predicate IsCommitEvent(e: Event) {
    e.Commit? || e.FinishDelete?
  }

  predicate IsFlagEvent(e: Event) {
    e.TakeFlag? || e.Busy? || e.SetFrozen? || e.Drained?
  }

  predicate IsExitEvent(e: Event) {
    e.EndReclaim? || e.EndFlush? || e.EndFreeze?
  }

  predicate IsGcEvent(e: Event) {
    e.TakePending? || e.GcDone? || e.GcSkip?
  }

  predicate IsUnlinkEvent(e: Event) {
    e.GcUnlink? || e.GcUnlinked?
  }

  lemma GateMoves(s: State, e: Event)
    requires (e.Admit? || e.Refuse?) && Shape(s) && Next(s, e).Some?
    ensures Moves(s, Next(s, e).value, e.t)
  {
    hide StripesBelow;
  }

  lemma LockMoves(s: State, e: Event)
    requires e.Lock? && Shape(s) && Next(s, e).Some?
    ensures Moves(s, Next(s, e).value, e.t)
  {
    hide StripesBelow;
  }

  lemma CheckMoves(s: State, e: Event)
    requires IsCheckEvent(e) && Shape(s) && Next(s, e).Some?
    ensures Moves(s, Next(s, e).value, e.t)
  {
    hide StripesBelow, Met;
  }

  lemma RefMoves(s: State, e: Event)
    requires IsRefEvent(e) && Shape(s) && Next(s, e).Some?
    ensures Moves(s, Next(s, e).value, e.t)
  {
    hide StripesBelow;
  }

  lemma BlobMoves(s: State, e: Event)
    requires IsBlobEvent(e) && Shape(s) && Next(s, e).Some?
    ensures Moves(s, Next(s, e).value, e.t)
  {
    hide StripesBelow;
  }

  lemma RecordMoves(s: State, e: Event)
    requires e.Append? && Shape(s) && Next(s, e).Some?
    ensures Moves(s, Next(s, e).value, e.t)
  {
    hide StripesBelow, PairRecords, Pair.ToRecord, TombstoneRecord, Met;
  }

  lemma OneRecordMoves(s: State, e: Event)
    requires (e.Drop? || e.AppendTtl?) && Shape(s) && Next(s, e).Some?
    ensures Moves(s, Next(s, e).value, e.t)
  {
    hide StripesBelow, PairRecords, Pair.ToRecord, TombstoneRecord, Met;
  }

  lemma CommitMoves(s: State, e: Event)
    requires IsCommitEvent(e) && Shape(s) && Next(s, e).Some?
    ensures Moves(s, Next(s, e).value, e.t)
  {
    hide StripesBelow, RunAll, Superseded, UnrefAll, RaiseFloor, Stamps;
    if e.Commit? {
      UnrefAllLocks(s.blobs, Superseded(s.idx, s.fileId, s.tasks[e.t].pc.offset, s.tasks[e.t].pc.recs));
    }
  }

  lemma {:induction false} UnrefAllLocks(b: Blobs, hs: seq<Hash>)
    ensures UnrefAll(b, hs).locks == b.locks && UnrefAll(b, hs).onDisk == b.onDisk
    decreases |hs|
  {
    if hs != [] {
      UnrefAllLocks(b.Unref(hs[0]), hs[1..]);
    }
  }

  lemma FlagMoves(s: State, e: Event)
    requires (e.TakeFlag? || e.Busy?) && Shape(s) && Next(s, e).Some?
    ensures Moves(s, Next(s, e).value, e.t)
  {
    hide StripesBelow;
  }

  lemma DrainMoves(s: State, e: Event)
    requires (e.SetFrozen? || e.Drained?) && Shape(s) && Next(s, e).Some?
    ensures Moves(s, Next(s, e).value, e.t)
  {
    hide StripesBelow;
  }

  lemma ExitMoves(s: State, e: Event)
    requires IsExitEvent(e) && Shape(s) && Next(s, e).Some?
    ensures Moves(s, Next(s, e).value, e.t)
  {
    hide StripesBelow, Relocated;
  }

  lemma UnlinkMoves(s: State, e: Event)
    requires IsUnlinkEvent(e) && Shape(s) && Next(s, e).Some?
    ensures Moves(s, Next(s, e).value, e.t)
  {
    hide StripesBelow;
  }

  lemma PendingMoves(s: State, e: Event)
    requires e.TakePending? && Shape(s) && Next(s, e).Some?
    ensures Moves(s, Next(s, e).value, e.t)
  {
    hide StripesBelow;
  }

  lemma GcMoves(s: State, e: Event)
    requires (e.GcDone? || e.GcSkip?) && Shape(s) && Next(s, e).Some?
    ensures Moves(s, Next(s, e).value, e.t)
  {
    hide StripesBelow;
  }

  /** Every event except starting a task and resuming a frozen namespace is a step of one task. */
  lemma StepMoves(s: State, e: Event)
    requires Shape(s) && Next(s, e).Some? && !e.Spawn? && !e.Unfreeze?
    ensures Moves(s, Next(s, e).value, e.t)
  {
    hide Next, Shape, Moves;
    if e.Lock? {
      LockMoves(s, e);
    } else if IsGateEvent(e) {
      GateMoves(s, e);
    } else if IsCheckEvent(e) {
      CheckMoves(s, e);
    } else if IsRefEvent(e) {
      RefMoves(s, e);
    } else if IsBlobEvent(e) {
      BlobMoves(s, e);
    } else if e.Append? {
      RecordMoves(s, e);
    } else if IsRecordEvent(e) {
      OneRecordMoves(s, e);
    } else if IsCommitEvent(e) {
      CommitMoves(s, e);
    } else if e.TakeFlag? || e.Busy? {
      FlagMoves(s, e);
    } else if IsFlagEvent(e) {
      DrainMoves(s, e);
    } else if IsExitEvent(e) {
      ExitMoves(s, e);
    } else if IsUnlinkEvent(e) {
      UnlinkMoves(s, e);
    } else if e.TakePending? {
      PendingMoves(s, e);
    } else {
      GcMoves(s, e);
    }
  }

  /** A stripe is owned by a task exactly when the task holds it. */
  ghost predicate StripeInv(s: State) {
    && (forall i :: i in s.stripes ==> s.stripes[i] in s.tasks && i in s.tasks[s.stripes[i]].Held())
    && (forall t, i :: t in s.tasks && i in s.tasks[t].Held() ==> i in s.stripes && s.stripes[i] == t)
  }

  ghost predicate FileInv(s: State) {
    && (forall i :: i in s.blobs.locks ==> s.blobs.locks[i] in s.tasks && FileHeld(s.tasks[s.blobs.locks[i]]) == Some(i))
    && (forall t :: t in s.tasks && FileHeld(s.tasks[t]).Some? ==>
          FileHeld(s.tasks[t]).value in s.blobs.locks && s.blobs.locks[FileHeld(s.tasks[t]).value] == t)
  }

  function InFlightTasks(s: State): set<TaskId> {
    set t | t in s.tasks && s.tasks[t].pc.InFlight()
  }

  ghost predicate GateInv(s: State) {
    && s.inFlight == |InFlightTasks(s)|
    && (s.reclaiming.Some? ==> s.reclaiming.value in s.tasks && Exclusive(s.tasks[s.reclaiming.value]))
    && (forall t :: t in s.tasks && Exclusive(s.tasks[t]) ==> s.reclaiming == Some(t))
    && (forall t :: t in s.tasks && s.tasks[t].pc.Sealing? ==> s.inFlight == 0)
    && (forall t :: t in s.tasks && Freezing(s.tasks[t]) ==> s.frozen)
    && (s.frozen && s.inFlight > 0 ==> exists t :: t in s.tasks && Freezing(s.tasks[t]) && s.tasks[t].pc.Draining?)
  }

  ghost predicate LockInv(s: State) {
    Shape(s) && StripeInv(s) && FileInv(s) && GateInv(s)
  }

  lemma StripeStep(s: State, s': State, t: TaskId)
    requires StripeInv(s) && Moves(s, s', t)
    ensures StripeInv(s')
  {
    hide TaskOk, Task.Held, FileEffect, CountEffect, FlagEffect;
  }

  lemma FileStep(s: State, s': State, t: TaskId)
    requires FileInv(s) && Moves(s, s', t)
    ensures FileInv(s')
  {
    hide TaskOk, FileHeld, StripeEffect, CountEffect, FlagEffect;
  }

  lemma CountStep(s: State, s': State, t: TaskId)
    requires s.inFlight == |InFlightTasks(s)| && Moves(s, s', t)
    ensures s'.inFlight == |InFlightTasks(s')|
  {
    hide TaskOk, Pc.InFlight, FileEffect, StripeEffect, FlagEffect;
    var a, b := InFlightTasks(s), InFlightTasks(s');
    assert forall u :: u != t ==> (u in a <==> u in b);
    assert t in a <==> s.tasks[t].pc.InFlight();
    assert t in b <==> s'.tasks[t].pc.InFlight();
    if (t in a) == (t in b) {
      assert a == b;
    } else if t in b {
      assert b == a + {t};
    } else {
      assert a == b + {t};
    }
  }

  lemma SealingKinds(s: State)
    requires Shape(s)
    ensures forall t :: t in s.tasks && s.tasks[t].pc.Sealing? ==> Exclusive(s.tasks[t]) || Freezing(s.tasks[t])
  {
    forall t | t in s.tasks && s.tasks[t].pc.Sealing?
      ensures Exclusive(s.tasks[t]) || Freezing(s.tasks[t])
    {
      assert TaskOk(s.hash, s.tasks[t]);
    }
  }

  lemma NoneInFlight(s: State)
    requires GateInv(s) && s.inFlight == 0
    ensures forall t :: t in s.tasks ==> !s.tasks[t].pc.InFlight()
  {
    hide Pc.InFlight;
    assert InFlightTasks(s) == {};
    forall t | t in s.tasks
      ensures !s.tasks[t].pc.InFlight()
    {
      assert t !in InFlightTasks(s);
    }
  }

  lemma GateStep(s: State, s': State, t: TaskId)
    requires GateInv(s) && Moves(s, s', t) && Shape(s)
    ensures GateInv(s')
  {
    hide TaskOk, FileEffect, StripeEffect;
    CountStep(s, s', t);
    SealingKinds(s);
    assert s'.tasks[t].pc.InFlight() ==> !Exclusive(s'.tasks[t]) && !Freezing(s'.tasks[t]);
    if s'.frozen && s'.inFlight > 0 && s.frozen {
      assert s.inFlight > 0;
      var u :| u in s.tasks && Freezing(s.tasks[u]) && s.tasks[u].pc.Draining?;
      assert u in s'.tasks && Freezing(s'.tasks[u]) && s'.tasks[u].pc.Draining?;
    } else if s'.frozen && s'.inFlight > 0 {
      assert t in s'.tasks && Freezing(s'.tasks[t]) && s'.tasks[t].pc.Draining?;
    }
  }

  lemma ShapeStep(s: State, s': State, t: TaskId)
    requires Shape(s) && Moves(s, s', t)
    ensures Shape(s')
  {
    hide TaskOk, FileEffect, StripeEffect, CountEffect, FlagEffect;
  }

  lemma SpawnGate(s: State, e: Event)
    requires GateInv(s) && Next(s, e).Some? && e.Spawn?
    ensures GateInv(Next(s, e).value)
  {
    hide StripesBelow, Op.Ok;
    var s' := Next(s, e).value;
    assert InFlightTasks(s') == InFlightTasks(s);
    if s'.frozen && s'.inFlight > 0 {
      var u :| u in s.tasks && Freezing(s.tasks[u]) && s.tasks[u].pc.Draining?;
      assert u in s'.tasks && Freezing(s'.tasks[u]) && s'.tasks[u].pc.Draining?;
    }
  }

  lemma SpawnStep(s: State, e: Event)
    requires LockInv(s) && Next(s, e).Some? && e.Spawn?
    ensures LockInv(Next(s, e).value)
  {
    hide StripesBelow, HasBlob, GateInv, Op.Ok, RecordsOf;
    SpawnGate(s, e);
  }

  lemma UnfreezeStep(s: State, e: Event)
    requires LockInv(s) && Next(s, e).Some? && e.Unfreeze?
    ensures LockInv(Next(s, e).value) && s.inFlight == 0
  {
    hide TaskOk, FileHeld, Task.Held;
    assert InFlightTasks(Next(s, e).value) == InFlightTasks(s);
  }

  lemma LockInvStep(s: State, e: Event)
    requires LockInv(s) && Next(s, e).Some?
    ensures LockInv(Next(s, e).value)
  {
    hide Next, Moves, StripeInv, FileInv, GateInv, Shape;
    var s' := Next(s, e).value;
    if e.Spawn? {
      SpawnStep(s, e);
    } else if e.Unfreeze? {
      UnfreezeStep(s, e);
    } else {
      StepMoves(s, e);
      StripeStep(s, s', e.t);
      FileStep(s, s', e.t);
      GateStep(s, s', e.t);
      ShapeStep(s, s', e.t);
    }
  }

  lemma InitLocks(s: State)
    requires Init(s)
    ensures LockInv(s)
  {
    assert InFlightTasks(s) == {};
  }

  /** The lock and gate invariants hold in every reachable state. */
  lemma {:induction false} LockInvRun(s: State, es: seq<Event>)
    requires Init(s) && Run(s, es).Some?
    ensures LockInv(Run(s, es).value)
    decreases |es|
  {
    hide Init, Next, LockInv;
    if es == [] {
      InitLocks(s);
    } else {
      LockInvRun(s, es[..|es| - 1]);
      LockInvStep(Run(s, es[..|es| - 1]).value, es[|es| - 1]);
    }
  }

  /** Nothing but a lock, a flag or writes in flight keeps a task from stepping. */
  predicate Waits(s: State, t: TaskId)
    requires t in s.tasks
  {
    var task := s.tasks[t];
    match task.pc
    case Start => s.reclaiming.Some? && (task.op.IsWriter() || task.op.Flush?)
    case Locking(n) => n < |task.need| && task.need[n] in s.stripes
    case BlobWait(_) => HasBlob(task) && FileLock(BlobOf(task)) in s.blobs.locks
    case Draining => s.inFlight > 0
    case Collecting(q) => q != [] && FileLock(q[0]) in s.blobs.locks
    case _ => false
  }

  ghost predicate CanStep(s: State, t: TaskId) {
    exists e: Event :: !e.Spawn? && !e.Unfreeze? && e.t == t && Next(s, e).Some?
  }

  lemma InFlightSteps(s: State, t: TaskId)
    requires Shape(s) && s.last + 1 < U64_LIMIT
    requires t in s.tasks && s.tasks[t].pc.InFlight() && !Waits(s, t)
    ensures CanStep(s, t)
  {
    hide StripesBelow;
    var task := s.tasks[t];
    assert TaskOk(s.hash, task);
    var e :=
      match task.pc
      case Locking(n) =>
        if n < |task.need| then Lock(t)
        else if !Met(s.idx, task.op) then Miss(t)
        else if task.op.Write? then Pass(t) else if task.op.Delete? then Drop(t, 0) else AppendTtl(t, 0)
      case Building(stamps) => if |stamps| < |task.op.pairs| then Stamp(t, 0) else Append(t)
      case BlobWait(_) => if s.blobs.Count(BlobOf(task)) > 0 then ShareBlob(t) else FirstBlob(t)
      case BlobWrite(_) => BlobDone(t)
      case Appended(_, _) => Commit(t)
      case _ => FinishDelete(t);
    assert Next(s, e).Some?;
  }

  lemma StepsUnlessWaiting(s: State, t: TaskId)
    requires Shape(s) && s.last + 1 < U64_LIMIT
    requires t in s.tasks && !s.tasks[t].pc.Done? && !Waits(s, t)
    ensures CanStep(s, t)
  {
    hide StripesBelow;
    var task := s.tasks[t];
    assert TaskOk(s.hash, task);
    if task.pc.InFlight() {
      InFlightSteps(s, t);
    } else {
      var e :=
        match task.pc
        case Start =>
          if task.op.IsWriter() then (if s.frozen then Refuse(t) else Admit(t))
          else if task.op.Freeze? then SetFrozen(t)
          else if task.op.Sync? then TakePending(t)
          else if s.reclaiming.Some? then Busy(t) else TakeFlag(t)
        case Draining => Drained(t)
        case Sealing => if task.op.Reclaim? then EndReclaim(t, s.idx, 0) else if task.op.Flush? then EndFlush(t, 0, 0) else EndFreeze(t)
        case Collecting(q) => if q == [] then GcDone(t) else if s.blobs.Count(q[0]) > 0 then GcSkip(t) else GcUnlink(t)
        case _ => GcUnlinked(t);
      assert Next(s, e).Some?;
    }
  }

  /** A held file lock belongs to a task that is not waiting for anything. */
  lemma FileOwnerRuns(s: State, i: nat)
    requires LockInv(s) && i in s.blobs.locks
    ensures s.blobs.locks[i] in s.tasks && !s.tasks[s.blobs.locks[i]].pc.Done? && !Waits(s, s.blobs.locks[i])
  {
  }

  /** Follow the stripes: whoever holds the stripe a task waits for waits, if at all,
      for a higher one, because stripes are taken in ascending order. */
  lemma {:induction false} InFlightRunner(s: State, t: TaskId) returns (u: TaskId)
    requires LockInv(s) && t in s.tasks && s.tasks[t].pc.InFlight()
    ensures u in s.tasks && !s.tasks[u].pc.Done? && !Waits(s, u)
    decreases if s.tasks[t].pc.Locking? && s.tasks[t].pc.n < |s.tasks[t].need|
              then WRITE_STRIPES - s.tasks[t].need[s.tasks[t].pc.n] else 0
  {
    var task := s.tasks[t];
    assert TaskOk(s.hash, task);
    if !Waits(s, t) {
      u := t;
    } else if task.pc.Locking? {
      var i := task.need[task.pc.n];
      var owner := s.stripes[i];
      assert i in s.tasks[owner].Held();
      assert TaskOk(s.hash, s.tasks[owner]);
      u := InFlightRunner(s, owner);
    } else {
      var i := FileLock(BlobOf(task));
      FileOwnerRuns(s, i);
      u := s.blobs.locks[i];
    }
  }

  /** No reachable state is deadlocked: if some task has not finished, some task can step. */
  lemma NoDeadlock(s: State, t: TaskId)
    requires LockInv(s) && s.last + 1 < U64_LIMIT
    requires t in s.tasks && !s.tasks[t].pc.Done?
    ensures exists u :: u in s.tasks && !s.tasks[u].pc.Done? && CanStep(s, u)
  {
    hide CanStep;
    var u := Runner(s, t);
    StepsUnlessWaiting(s, u);
  }

  lemma DrainRunner(s: State, t: TaskId) returns (u: TaskId)
    requires LockInv(s) && t in s.tasks && s.tasks[t].pc.Draining?
    ensures u in s.tasks && !s.tasks[u].pc.Done? && !Waits(s, u)
  {
    hide TaskOk, StripeInv, FileInv;
    if s.inFlight == 0 {
      u := t;
    } else {
      assert InFlightTasks(s) != {};
      var w :| w in InFlightTasks(s);
      u := InFlightRunner(s, w);
    }
  }

  lemma Runner(s: State, t: TaskId) returns (u: TaskId)
    requires LockInv(s) && t in s.tasks && !s.tasks[t].pc.Done?
    ensures u in s.tasks && !s.tasks[u].pc.Done? && !Waits(s, u)
  {
    hide TaskOk, StripeInv, FileInv;
    if !Waits(s, t) {
      u := t;
    } else if s.tasks[t].pc.InFlight() {
      u := InFlightRunner(s, t);
    } else if s.tasks[t].pc.Draining? {
      u := DrainRunner(s, t);
    } else if s.tasks[t].pc.Start? {
      var r := s.reclaiming.value;
      if s.tasks[r].pc.Draining? {
        u := DrainRunner(s, r);
      } else {
        u := r;
      }
    } else {
      var i := FileLock(s.tasks[t].pc.queue[0]);
      FileOwnerRuns(s, i);
      u := s.blobs.locks[i];
    }
  }
}
