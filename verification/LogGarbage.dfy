/** No blob is forgotten: in every run each file on disk is referenced or queued for deletion,
    except one that a failed write left behind. */
module LogGarbage {
  import opened Types
  import opened Records
  import opened NamespaceIndex
  import opened LogMachine
  import opened LogLocks
  import opened LogReplay
  import opened LogBlobs

  /** The blobs a collecting task still has to look at. */
  function QueueOf(task: Task): seq<Hash> {
    match task.pc
    case Collecting(queue) => queue
    case Unlinking(queue) => queue
    case _ => []
  }

  /** Waiting for deletion. */
  ghost predicate Queued(s: State, h: Hash) {
    h in s.blobs.pending || exists t :: t in s.tasks && h in QueueOf(s.tasks[t])
  }

  ghost predicate Tidy(s: State) {
    forall h :: h in s.blobs.onDisk ==> s.blobs.Count(h) > 0 || Queued(s, h)
  }

  /** A failed write leaves a file that nothing will delete before the next open. */
  ghost predicate Strands(s: State, e: Event) {
    && e.BlobFail? && e.left && e.t in s.tasks && HasBlob(s.tasks[e.t])
    && !Queued(s, BlobOf(s.tasks[e.t]))
  }

  /** Referenced, pending, or in the queue of `t`. */
  predicate Known(s: State, t: TaskId, h: Hash)
    requires t in s.tasks
  {
    s.blobs.Count(h) > 0 || h in s.blobs.pending || h in QueueOf(s.tasks[t])
  }

  /** Each file there after the step was there, and known if it was known, or is known now. */
  ghost predicate Accounts(s: State, s': State, t: TaskId)
    requires t in s.tasks && t in s'.tasks
  {
    forall h :: h in s'.blobs.onDisk ==> (h in s.blobs.onDisk && (Known(s, t, h) ==> Known(s', t, h))) || Known(s', t, h)
  }

  lemma AccountsStep(s: State, s': State, t: TaskId)
    requires Tidy(s) && Moves(s, s', t) && Accounts(s, s', t)
    ensures Tidy(s')
  {
    hide TaskOk, StripeEffect, FileEffect, CountEffect, FlagEffect, QueueOf, Blobs.Count;
    forall h | h in s'.blobs.onDisk ensures s'.blobs.Count(h) > 0 || Queued(s', h) {
      if !Known(s', t, h) {
        assert h in s.blobs.onDisk && !Known(s, t, h);
        var u :| u in s.tasks && h in QueueOf(s.tasks[u]);
        assert u in s'.tasks && s'.tasks[u] == s.tasks[u];
      }
    }
  }

  /** Neither counts, pending blobs, files nor the queue of `t` change. */
  ghost predicate SameGarbage(s: State, s': State, t: TaskId) {
    && t in s.tasks && t in s'.tasks
    && s'.blobs.refs == s.blobs.refs && s'.blobs.pending == s.blobs.pending && s'.blobs.onDisk == s.blobs.onDisk
    && QueueOf(s'.tasks[t]) == QueueOf(s.tasks[t])
  }

  lemma WriteGarbage(s: State, e: Event)
    requires Shape(s) && Next(s, e).Some? && (IsGateEvent(e) || IsCheckEvent(e))
    ensures SameGarbage(s, Next(s, e).value, e.t)
  {
    hide StripesBelow;
  }

  lemma RecordGarbage(s: State, e: Event)
    requires Shape(s) && Next(s, e).Some? && IsRecordEvent(e)
    ensures SameGarbage(s, Next(s, e).value, e.t)
  {
    hide StripesBelow, PairRecords;
  }

  lemma FlagGarbage(s: State, e: Event)
    requires Shape(s) && Next(s, e).Some? && (IsFlagEvent(e) || e.EndReclaim? || e.EndFreeze?)
    ensures SameGarbage(s, Next(s, e).value, e.t)
  {
    hide StripesBelow, Relocated;
  }

  predicate IsSame(e: Event) {
    IsGateEvent(e) || IsCheckEvent(e) || IsRecordEvent(e) || IsFlagEvent(e) || e.EndReclaim? || e.EndFreeze?
  }

  lemma SameAccounts(s: State, e: Event)
    requires Shape(s) && Next(s, e).Some? && IsSame(e)
    ensures e.t in s.tasks && e.t in Next(s, e).value.tasks && Accounts(s, Next(s, e).value, e.t)
  {
    hide Shape, Next, QueueOf;
    if IsGateEvent(e) || IsCheckEvent(e) {
      WriteGarbage(s, e);
    } else if IsRecordEvent(e) {
      RecordGarbage(s, e);
    } else {
      FlagGarbage(s, e);
    }
  }

  /** Dropping references queues what loses its last one. */
  lemma {:induction false} UnrefAllKeeps(b: Blobs, hs: seq<Hash>, h: Hash)
    ensures var b' := UnrefAll(b, hs);
            b'.onDisk == b.onDisk && (b.Count(h) > 0 || h in b.pending ==> b'.Count(h) > 0 || h in b'.pending)
    decreases |hs|
  {
    if hs != [] {
      UnrefAllKeeps(b.Unref(hs[0]), hs[1..], h);
    }
  }

  lemma CommitAccounts(s: State, e: Event)
    requires Shape(s) && Next(s, e).Some? && e.Commit?
    ensures e.t in s.tasks && e.t in Next(s, e).value.tasks && Accounts(s, Next(s, e).value, e.t)
  {
    hide StripesBelow, UnrefAll, Superseded, RunAll, RaiseFloor, Blobs.Count, Shape;
    var dead := Superseded(s.idx, s.fileId, s.tasks[e.t].pc.offset, s.tasks[e.t].pc.recs);
    assert Next(s, e).value.blobs == UnrefAll(s.blobs, dead);
    forall h ensures UnrefAll(s.blobs, dead).onDisk == s.blobs.onDisk
      && (s.blobs.Count(h) > 0 || h in s.blobs.pending ==> UnrefAll(s.blobs, dead).Count(h) > 0 || h in UnrefAll(s.blobs, dead).pending)
    {
      UnrefAllKeeps(s.blobs, dead, h);
    }
  }

  lemma FinishAccounts(s: State, e: Event)
    requires Shape(s) && Next(s, e).Some? && e.FinishDelete?
    ensures e.t in s.tasks && e.t in Next(s, e).value.tasks && Accounts(s, Next(s, e).value, e.t)
  {
    hide StripesBelow, Shape;
  }

  lemma RefAccounts(s: State, e: Event)
    requires Shape(s) && Next(s, e).Some? && IsRefEvent(e)
    ensures e.t in s.tasks && e.t in Next(s, e).value.tasks && Accounts(s, Next(s, e).value, e.t)
  {
    hide StripesBelow, Shape;
  }

  lemma DoneAccounts(s: State, e: Event)
    requires Covered(s) && Next(s, e).Some? && e.BlobDone?
    ensures e.t in s.tasks && e.t in Next(s, e).value.tasks && Accounts(s, Next(s, e).value, e.t)
  {
    hide StripesBelow, Covered;
    FailHolds(s, e.t);
  }

  /** What a failed write does: its blob's count drops to zero, its file is there or not. */
  lemma FailFields(s: State, e: Event)
    requires Covered(s) && DiskInv(s) && Next(s, e).Some? && e.BlobFail?
    ensures e.t in s.tasks && e.t in Next(s, e).value.tasks && HasBlob(s.tasks[e.t])
    ensures var s', h := Next(s, e).value, BlobOf(s.tasks[e.t]);
            && s'.blobs.pending == s.blobs.pending && QueueOf(s'.tasks[e.t]) == [] && QueueOf(s.tasks[e.t]) == []
            && s'.blobs.Count(h) == 0 && (forall g :: g != h ==> s'.blobs.Count(g) == s.blobs.Count(g))
            && s'.blobs.onDisk == if e.left then s.blobs.onDisk + {h} else s.blobs.onDisk - {h}
  {
    hide StripesBelow, Covered;
    FailHolds(s, e.t);
  }

  lemma FailTidy(s: State, e: Event)
    requires Covered(s) && DiskInv(s) && Tidy(s) && Next(s, e).Some? && e.BlobFail? && Moves(s, Next(s, e).value, e.t)
    ensures Tidy(Next(s, e).value) <==> !Strands(s, e)
  {
    hide Next, Covered, DiskInv, TaskOk, StripeEffect, FileEffect, CountEffect, FlagEffect, QueueOf, Blobs.Count;
    FailFields(s, e);
    var s', h := Next(s, e).value, BlobOf(s.tasks[e.t]);
    forall g ensures Queued(s', g) <==> Queued(s, g) {
      if u :| u in s.tasks && g in QueueOf(s.tasks[u]) {
        assert u in s'.tasks && g in QueueOf(s'.tasks[u]);
      }
      if u :| u in s'.tasks && g in QueueOf(s'.tasks[u]) {
        assert u in s.tasks && g in QueueOf(s.tasks[u]);
      }
    }
    hide Queued;
    if Strands(s, e) {
      assert h in s'.blobs.onDisk;
    }
  }

  lemma GcAccounts(s: State, e: Event)
    requires Next(s, e).Some? && IsGcEvent(e)
    ensures e.t in s.tasks && e.t in Next(s, e).value.tasks && Accounts(s, Next(s, e).value, e.t)
  {
    QueueFront(QueueOf(s.tasks[e.t]));
  }

  lemma UnlinkAccounts(s: State, e: Event)
    requires Next(s, e).Some? && IsUnlinkEvent(e)
    ensures e.t in s.tasks && e.t in Next(s, e).value.tasks && Accounts(s, Next(s, e).value, e.t)
  {
    QueueFront(QueueOf(s.tasks[e.t]));
  }

  lemma QueueFront(q: seq<Hash>)
    ensures q != [] ==> forall h :: h in q <==> h == q[0] || h in q[1..]
  {
  }

  lemma FlushTidy(s: State, e: Event)
    requires Next(s, e).Some? && e.EndFlush?
    ensures Tidy(Next(s, e).value)
  {
  }

  lemma SpawnTidy(s: State, e: Event)
    requires Tidy(s) && Next(s, e).Some? && (e.Spawn? || e.Unfreeze?)
    ensures Tidy(Next(s, e).value)
  {
    hide StripesBelow, Op.Ok, Blobs.Count;
    var s' := Next(s, e).value;
    forall h | Queued(s, h) ensures Queued(s', h) {
      if u :| u in s.tasks && h in QueueOf(s.tasks[u]) {
        assert u in s'.tasks && h in QueueOf(s'.tasks[u]);
      }
    }
  }

  /** A step leaves every file referenced or queued if and only if it is not a failed write that
      strands its file. */
  lemma TidyStep(s: State, e: Event)
    requires LockInv(s) && Covered(s) && DiskInv(s) && Tidy(s) && Next(s, e).Some?
    ensures Tidy(Next(s, e).value) <==> !Strands(s, e)
  {
    hide Next, Shape, StripeInv, FileInv, GateInv, Covered, DiskInv, Moves, Accounts, Tidy;
    if e.Spawn? || e.Unfreeze? {
      SpawnTidy(s, e);
    } else if e.EndFlush? {
      FlushTidy(s, e);
    } else {
      StepMoves(s, e);
      if e.BlobFail? {
        FailTidy(s, e);
      } else {
        if IsSame(e) {
          SameAccounts(s, e);
        } else if e.Commit? {
          CommitAccounts(s, e);
        } else if e.FinishDelete? {
          FinishAccounts(s, e);
        } else if IsRefEvent(e) {
          RefAccounts(s, e);
        } else if e.BlobDone? {
          DoneAccounts(s, e);
        } else if IsGcEvent(e) {
          GcAccounts(s, e);
        } else {
          UnlinkAccounts(s, e);
        }
        AccountsStep(s, Next(s, e).value, e.t);
      }
    }
  }

  /** No failed write of the run strands its file. */
  ghost predicate Unstranded(s: State, es: seq<Event>)
    requires Run(s, es).Some?
    decreases |es|
  {
    es != [] ==> Unstranded(s, es[..|es| - 1]) && !Strands(Run(s, es[..|es| - 1]).value, es[|es| - 1])
  }

  /** In every reachable state of such a run every file is referenced or queued. */
  lemma {:induction false} TidyRun(s: State, es: seq<Event>)
    requires Init(s) && InitBlobs(s) && Tidy(s) && Run(s, es).Some? && Unstranded(s, es)
    ensures Tidy(Run(s, es).value)
    decreases |es|
  {
    hide Init, InitBlobs, Next, LockInv, Covered, DiskInv, Tidy, Strands;
    if es != [] {
      TidyRun(s, es[..|es| - 1]);
      BlobsRun(s, es[..|es| - 1]);
      TidyStep(Run(s, es[..|es| - 1]).value, es[|es| - 1]);
    }
  }

  /** Once nothing is queued any more, the files are exactly the referenced blobs. */
  lemma CollectedExactly(s0: State, es: seq<Event>, h: Hash)
    requires Init(s0) && InitBlobs(s0) && Tidy(s0) && Run(s0, es).Some? && Unstranded(s0, es)
    requires var s := Run(s0, es).value; !Queued(s, h) && FileLock(h) !in s.blobs.locks
    ensures var s := Run(s0, es).value; h in s.blobs.onDisk <==> s.blobs.Count(h) > 0
  {
    hide Init, InitBlobs, Run, LockInv, Covered, Queued, Unstranded, Blobs.Count;
    TidyRun(s0, es);
    BlobsRun(s0, es);
    var s := Run(s0, es).value;
    if s.blobs.Count(h) > 0 {
      ReferencedBlobsExist(s0, es, h);
    }
  }
}
