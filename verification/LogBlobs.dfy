/** Blob references under every interleaving of writes, deletes and collections. */
module LogBlobs {
  import opened Types
  import opened Records
  import opened NamespaceIndex
  import opened LogMachine
  import opened LogLocks
  import opened LogReplay

  function Occurs(hs: seq<Hash>, h: Hash): nat {
    if hs == [] then 0 else Occurs(hs[1..], h) + (if hs[0] == h then 1 else 0)
  }

  lemma {:induction false} OccursAppend(a: seq<Hash>, b: seq<Hash>, h: Hash)
    ensures Occurs(a + b, h) == Occurs(a, h) + Occurs(b, h)
  {
    if a == [] {
      assert a + b == b;
    } else {
      OccursAppend(a[1..], b, h);
      assert (a + b)[1..] == a[1..] + b;
    }
  }

  predicate PairsOk(ps: seq<Pair>) {
    forall i :: 0 <= i < |ps| ==> ps[i].Ok()
  }

  /** The hashes of the separated pairs, in order. */
  function PairHashes(ps: seq<Pair>): seq<Hash>
    requires PairsOk(ps)
  {
    if ps == [] then []
    else PairHashes(ps[..|ps| - 1]) + (if ps[|ps| - 1].separated then [ps[|ps| - 1].Hash()] else [])
  }

  /** The references a task has taken and not yet handed to the index, and the one a
      delete has taken out of the index and not yet dropped. */
  function TaskHashes(task: Task): seq<Hash> {
    match task.pc
    case Building(stamps) => if task.op.Ok() && task.op.Write? && |stamps| <= |task.op.pairs| then PairHashes(task.op.pairs[..|stamps|]) else []
    case BlobWait(stamps) => if HasBlob(task) then PairHashes(task.op.pairs[..|stamps| - 1]) else []
    case BlobWrite(stamps) => if HasBlob(task) then PairHashes(task.op.pairs[..|stamps|]) else []
    case Appended(_, _) => if task.op.Ok() && task.op.Write? then PairHashes(task.op.pairs) else []
    case Removed(_, blob) => if blob.Some? then [blob.value] else []
    case _ => []
  }

  /** All references that tasks hold to `h`. */
  ghost function Total(m: map<TaskId, Task>, h: Hash): nat
    decreases |m|
  {
    if m == map[] then 0
    else
      var t :| t in m;
      Occurs(TaskHashes(m[t]), h) + Total(m - {t}, h)
  }

  lemma {:induction false} TotalRemove(m: map<TaskId, Task>, t: TaskId, h: Hash)
    requires t in m
    ensures Total(m, h) == Occurs(TaskHashes(m[t]), h) + Total(m - {t}, h)
    decreases |m|
  {
    hide TaskHashes, Occurs;
    var u :| u in m && Total(m, h) == Occurs(TaskHashes(m[u]), h) + Total(m - {u}, h);
    if u != t {
      TotalRemove(m - {u}, t, h);
      TotalRemove(m - {t}, u, h);
      assert m - {u} - {t} == m - {t} - {u};
    }
  }

  lemma TotalUpdate(m: map<TaskId, Task>, t: TaskId, task: Task, h: Hash)
    ensures Total(m[t := task], h) + (if t in m then Occurs(TaskHashes(m[t]), h) else 0) == Total(m, h) + Occurs(TaskHashes(task), h)
  {
    hide TaskHashes, Occurs, Total;
    assert m[t := task] - {t} == m - {t};
    TotalRemove(m[t := task], t, h);
    if t in m {
      TotalRemove(m, t, h);
    } else {
      assert m - {t} == m;
    }
  }

  /** The keys whose value is the blob `h`. */
  function Holders(blobs: map<Bytes, Hash>, h: Hash): set<Bytes> {
    set k | k in blobs && blobs[k] == h
  }

  lemma PutHolders(blobs: map<Bytes, Hash>, k: Bytes, v: Option<Hash>, h: Hash)
    ensures |Holders(Put(blobs, k, v), h)| + (if k in blobs && blobs[k] == h then 1 else 0)
            == |Holders(blobs, h)| + (if v == Some(h) then 1 else 0)
  {
    var blobs' := Put(blobs, k, v);
    var rest := Holders(blobs, h) - {k};
    assert Holders(blobs', h) == if v == Some(h) then rest + {k} else rest by {
      forall j
        ensures j in Holders(blobs', h) <==> j in if v == Some(h) then rest + {k} else rest
      {
        assert Get(blobs', j) == if j == k then v else Get(blobs, j);
      }
    }
    assert Holders(blobs, h) == if k in blobs && blobs[k] == h then rest + {k} else rest;
  }

  /** The blobs that full records put into the index, in order. */
  function RecordHashes(rs: seq<Record>): seq<Hash> {
    if rs == [] then []
    else if rs[0].IsFull() && rs[0].Blob().Some? then [rs[0].Blob().value] + RecordHashes(rs[1..])
    else RecordHashes(rs[1..])
  }

  /** Committing moves references: new ones come in, superseded ones go out. */
  lemma {:induction false} CommitBalance(idx: Index, fileId: nat, offset: nat, rs: seq<Record>, h: Hash)
    requires forall i :: 0 <= i < |rs| ==> !rs[i].IsTombstone()
    ensures |Holders(RunAll(idx, fileId, offset, rs).blobs, h)| + Occurs(Superseded(idx, fileId, offset, rs), h)
            == |Holders(idx.blobs, h)| + Occurs(RecordHashes(rs), h)
    decreases |rs|
  {
    if rs != [] {
      var r := rs[0];
      var next := RunRecord(idx, fileId, offset, r);
      CommitBalance(next, fileId, offset + r.Size(), rs[1..], h);
      RecordBalance(idx, fileId, offset, r, h);
      var rest := Superseded(next, fileId, offset + r.Size(), rs[1..]);
      hide RunRecord, Occurs;
      if r.IsFull() {
        if r.key in idx.blobs {
          OccursAppend([idx.blobs[r.key]], rest, h);
        }
        if r.Blob().Some? {
          OccursAppend([r.Blob().value], RecordHashes(rs[1..]), h);
        }
        OccursOne(h, r.Blob());
        OccursOne(h, Get(idx.blobs, r.key));
      } else {
        assert r.IsTtlUpdate();
      }
    }
  }

  lemma OccursOne(h: Hash, o: Option<Hash>)
    ensures o.Some? ==> Occurs([o.value], h) == if o == Some(h) then 1 else 0
  {
  }

  lemma RecordBalance(idx: Index, fileId: nat, offset: nat, r: Record, h: Hash)
    requires !r.IsTombstone()
    ensures r.IsTtlUpdate() ==> RunRecord(idx, fileId, offset, r).blobs == idx.blobs
    ensures r.IsFull() ==>
              |Holders(RunRecord(idx, fileId, offset, r).blobs, h)| + (if r.key in idx.blobs && idx.blobs[r.key] == h then 1 else 0)
              == |Holders(idx.blobs, h)| + (if r.Blob() == Some(h) then 1 else 0)
  {
    PutHolders(idx.blobs, r.key, r.Blob(), h);
  }

  /** Dropping references one by one subtracts them, down to zero. */
  lemma {:induction false} UnrefAllCount(b: Blobs, hs: seq<Hash>, h: Hash)
    ensures UnrefAll(b, hs).Count(h) == if b.Count(h) <= Occurs(hs, h) then 0 else b.Count(h) - Occurs(hs, h)
    decreases |hs|
  {
    if hs != [] {
      UnrefAllCount(b.Unref(hs[0]), hs[1..], h);
    }
  }

  /** Every reference is counted. */
  ghost predicate Covered(s: State) {
    forall h :: s.blobs.Count(h) >= |Holders(s.idx.blobs, h)| + Total(s.tasks, h)
  }

  /** The count of a blob is the number of keys holding it, plus writers between taking
      and committing a reference, plus removals not yet dropped. */
  ghost predicate Exact(s: State) {
    forall h :: s.blobs.Count(h) == |Holders(s.idx.blobs, h)| + Total(s.tasks, h)
  }

  /** What a step adds to the count of `h` beyond what it adds to its holders. */
  ghost function Surplus(s: State, s': State, t: TaskId, h: Hash): int
    requires t in s.tasks && t in s'.tasks
  {
    (s'.blobs.Count(h) - |Holders(s'.idx.blobs, h)| - Occurs(TaskHashes(s'.tasks[t]), h))
    - (s.blobs.Count(h) - |Holders(s.idx.blobs, h)| - Occurs(TaskHashes(s.tasks[t]), h))
  }

  lemma SurplusStep(s: State, s': State, t: TaskId, h: Hash)
    requires Moves(s, s', t)
    ensures s'.blobs.Count(h) - |Holders(s'.idx.blobs, h)| - Total(s'.tasks, h)
            == s.blobs.Count(h) - |Holders(s.idx.blobs, h)| - Total(s.tasks, h) + Surplus(s, s', t, h)
  {
    hide TaskOk, StripeEffect, FileEffect, CountEffect, FlagEffect, Total, TaskHashes, Occurs, Holders, Blobs.Count;
    TotalUpdate(s.tasks, t, s'.tasks[t], h);
  }

  /** References, keys and the task's own references all stay. */
  predicate SameRefs(s: State, s': State, t: TaskId) {
    && t in s.tasks && t in s'.tasks
    && s'.blobs.refs == s.blobs.refs && s'.idx.blobs == s.idx.blobs
    && TaskHashes(s'.tasks[t]) == TaskHashes(s.tasks[t])
  }

  predicate KeepsRefs(e: Event) {
    !(e.ShareBlob? || e.FirstBlob? || e.BlobFail? || e.Commit? || e.Drop? || e.FinishDelete? || e.EndFlush?
      || e.Spawn? || e.Unfreeze?)
  }

  lemma WriteKeepsRefs(s: State, e: Event)
    requires Shape(s) && Next(s, e).Some? && (IsGateEvent(e) || e.Pass? || e.Miss?)
    ensures SameRefs(s, Next(s, e).value, e.t)
  {
    hide StripesBelow;
  }

  lemma StampKeepsRefs(s: State, e: Event)
    requires Shape(s) && Next(s, e).Some? && e.Stamp?
    ensures SameRefs(s, Next(s, e).value, e.t)
  {
    hide StripesBelow;
    var task := s.tasks[e.t];
    var n := |task.pc.stamps|;
    assert task.op.pairs[..n + 1][..n] == task.op.pairs[..n];
  }

  lemma AppendKeepsRefs(s: State, e: Event)
    requires Shape(s) && Next(s, e).Some? && (e.Append? || e.AppendTtl? || e.BlobDone?)
    ensures SameRefs(s, Next(s, e).value, e.t)
  {
    hide StripesBelow, PairRecords;
    var task := s.tasks[e.t];
    if e.Append? {
      assert task.op.pairs[..|task.pc.stamps|] == task.op.pairs;
    }
  }

  lemma OthersKeepRefs(s: State, e: Event)
    requires Shape(s) && Next(s, e).Some? && (IsFlagEvent(e) || e.EndReclaim? || e.EndFreeze?)
    ensures SameRefs(s, Next(s, e).value, e.t)
  {
    hide StripesBelow;
  }

  lemma GcKeepsRefs(s: State, e: Event)
    requires Shape(s) && Next(s, e).Some? && (IsGcEvent(e) || IsUnlinkEvent(e))
    ensures SameRefs(s, Next(s, e).value, e.t)
  {
    hide StripesBelow;
  }

  lemma KeepsRefsEvents(s: State, e: Event)
    requires Shape(s) && Next(s, e).Some? && KeepsRefs(e)
    ensures SameRefs(s, Next(s, e).value, e.t)
  {
    hide Next, Shape, SameRefs;
    if IsGateEvent(e) || e.Pass? || e.Miss? {
      WriteKeepsRefs(s, e);
    } else if e.Stamp? {
      StampKeepsRefs(s, e);
    } else if e.Append? || e.AppendTtl? || e.BlobDone? {
      AppendKeepsRefs(s, e);
    } else if IsGcEvent(e) || IsUnlinkEvent(e) {
      GcKeepsRefs(s, e);
    } else {
      OthersKeepRefs(s, e);
    }
  }

  /** The references of a task whose last stamped pair is the one being separated. */
  lemma BlobHashes(task: Task)
    requires HasBlob(task)
    ensures var n := |task.pc.stamps|;
            && PairHashes(task.op.pairs[..n]) == PairHashes(task.op.pairs[..n - 1]) + [BlobOf(task)]
  {
    var n := |task.pc.stamps|;
    assert task.op.pairs[..n][..n - 1] == task.op.pairs[..n - 1];
  }

  lemma TakeFields(s: State, e: Event)
    requires Shape(s) && Next(s, e).Some? && IsRefEvent(e)
    ensures var s' := Next(s, e).value;
            && e.t in s.tasks && e.t in s'.tasks && HasBlob(s.tasks[e.t])
            && s'.blobs.refs == s.blobs.Incr(BlobOf(s.tasks[e.t])).refs && s'.idx == s.idx
            && TaskHashes(s'.tasks[e.t]) == TaskHashes(s.tasks[e.t]) + [BlobOf(s.tasks[e.t])]
  {
    hide StripesBelow, PairHashes;
    BlobHashes(s.tasks[e.t]);
  }

  /** A writer that takes a reference also counts it. */
  lemma TakeBalance(s: State, e: Event, h: Hash)
    requires Shape(s) && Next(s, e).Some? && IsRefEvent(e)
    ensures e.t in s.tasks && e.t in Next(s, e).value.tasks && Surplus(s, Next(s, e).value, e.t, h) == 0
  {
    hide Next, Shape, Holders, TaskHashes, Occurs;
    TakeFields(s, e);
    OccursAppend(TaskHashes(s.tasks[e.t]), [BlobOf(s.tasks[e.t])], h);
    OccursOne(h, Some(BlobOf(s.tasks[e.t])));
  }

  /** A failed blob write takes back its own reference; a batch forgets the earlier ones. */
  lemma FailSurplus(s: State, e: Event, h: Hash)
    requires Shape(s) && Next(s, e).Some? && e.BlobFail?
    ensures e.t in s.tasks && e.t in Next(s, e).value.tasks && HasBlob(s.tasks[e.t]) && s.tasks[e.t].pc.BlobWrite?
    ensures Surplus(s, Next(s, e).value, e.t, h) >= 0
    ensures TaskHashes(s.tasks[e.t]) == [BlobOf(s.tasks[e.t])] && s.blobs.Count(BlobOf(s.tasks[e.t])) > 0 ==>
              Surplus(s, Next(s, e).value, e.t, h) == 0
  {
    hide StripesBelow, Holders, PairHashes;
    var task := s.tasks[e.t];
    BlobHashes(task);
    OccursAppend(PairHashes(task.op.pairs[..|task.pc.stamps| - 1]), [BlobOf(task)], h);
    OccursOne(h, Some(BlobOf(task)));
  }

  lemma {:induction false} RecordHashesSnoc(rs: seq<Record>)
    requires rs != []
    ensures var r := rs[|rs| - 1];
            RecordHashes(rs) == RecordHashes(rs[..|rs| - 1]) + if r.IsFull() && r.Blob().Some? then [r.Blob().value] else []
    decreases |rs|
  {
    hide Record.IsFull, Record.Blob;
    if |rs| == 1 {
      assert rs[1..] == [] && rs[..0] == [];
    } else {
      RecordHashesSnoc(rs[1..]);
      assert rs[..|rs| - 1][1..] == rs[1..][..|rs| - 2];
    }
  }

  /** The records of a batch carry exactly the references its pairs took. */
  lemma {:induction false} BatchHashes(ps: seq<Pair>, rs: seq<Record>)
    requires PairsOk(ps) && |rs| == |ps| && forall i :: 0 <= i < |ps| ==> rs[i] == ps[i].ToRecord(rs[i].tstamp)
    ensures RecordHashes(rs) == PairHashes(ps)
    decreases |ps|
  {
    if ps != [] {
      BatchHashes(ps[..|ps| - 1], rs[..|rs| - 1]);
      RecordHashesSnoc(rs);
    }
  }

  lemma CommitFields(s: State, e: Event)
    requires Shape(s) && Next(s, e).Some? && e.Commit?
    ensures var s' := Next(s, e).value;
            && e.t in s.tasks && e.t in s'.tasks && s.tasks[e.t].pc.Appended?
            && var pc := s.tasks[e.t].pc;
            && s'.blobs == UnrefAll(s.blobs, Superseded(s.idx, s.fileId, pc.offset, pc.recs))
            && s'.idx == RunAll(s.idx, s.fileId, pc.offset, pc.recs)
            && TaskHashes(s'.tasks[e.t]) == [] && TaskHashes(s.tasks[e.t]) == RecordHashes(pc.recs)
            && (forall i :: 0 <= i < |pc.recs| ==> !pc.recs[i].IsTombstone())
  {
    hide StripesBelow, UnrefAll, Superseded, RunAll, RaiseFloor, PairHashes;
    var task := s.tasks[e.t];
    assert TaskOk(s.hash, task);
    if task.op.Write? {
      BatchHashes(task.op.pairs, task.pc.recs);
    } else {
      assert task.pc.recs[0].IsTtlUpdate() && task.pc.recs[1..] == [];
    }
  }

  lemma CommitRefs(s: State, e: Event, h: Hash)
    requires Shape(s) && Covered(s) && Next(s, e).Some? && e.Commit?
    ensures e.t in s.tasks && e.t in Next(s, e).value.tasks && Surplus(s, Next(s, e).value, e.t, h) == 0
  {
    hide Next, Shape, Holders, TaskHashes, UnrefAll, Superseded, RunAll, Blobs.Count, Occurs, RecordHashes;
    CommitFields(s, e);
    var pc := s.tasks[e.t].pc;
    CommitBalance(s.idx, s.fileId, pc.offset, pc.recs, h);
    UnrefAllCount(s.blobs, Superseded(s.idx, s.fileId, pc.offset, pc.recs), h);
    TotalRemove(s.tasks, e.t, h);
    assert Occurs([], h) == 0 by { OccursNone(h); }
  }

  lemma OccursNone(h: Hash)
    ensures Occurs([], h) == 0
  {
  }

  lemma DropRefs(s: State, e: Event, h: Hash)
    requires Shape(s) && Next(s, e).Some? && e.Drop?
    ensures e.t in s.tasks && e.t in Next(s, e).value.tasks && Surplus(s, Next(s, e).value, e.t, h) == 0
  {
    hide StripesBelow, Holders, Met;
    var k := s.tasks[e.t].op.key;
    PutHolders(s.idx.blobs, k, None, h);
    OccursOne(h, Get(s.idx.blobs, k));
  }

  lemma FinishRefs(s: State, e: Event, h: Hash)
    requires Shape(s) && Covered(s) && Next(s, e).Some? && e.FinishDelete?
    ensures e.t in s.tasks && e.t in Next(s, e).value.tasks && Surplus(s, Next(s, e).value, e.t, h) == 0
  {
    hide StripesBelow, Holders, Total;
    TotalRemove(s.tasks, e.t, h);
    OccursOne(h, s.tasks[e.t].pc.blob);
  }

  lemma {:induction false} TotalZero(m: map<TaskId, Task>, h: Hash)
    requires forall t :: t in m ==> TaskHashes(m[t]) == []
    ensures Total(m, h) == 0
    decreases |m|
  {
    hide TaskHashes;
    if m != map[] {
      var t :| t in m;
      TotalRemove(m, t, h);
      TotalZero(m - {t}, h);
      OccursNone(h);
    }
  }

  /** A batch whose blob write fails after earlier blobs of it were written. */
  predicate ForgetsRefs(s: State, e: Event) {
    e.BlobFail? && e.t in s.tasks && |TaskHashes(s.tasks[e.t])| > 1
  }

  lemma SurplusEvents(s: State, e: Event, h: Hash)
    requires Shape(s) && Covered(s) && Next(s, e).Some? && !e.Spawn? && !e.Unfreeze? && !e.EndFlush?
    ensures e.t in s.tasks && e.t in Next(s, e).value.tasks && Surplus(s, Next(s, e).value, e.t, h) >= 0
    ensures !ForgetsRefs(s, e) ==> Surplus(s, Next(s, e).value, e.t, h) == 0
  {
    if KeepsRefs(e) {
      hide Next, Shape, TaskHashes, Holders, Occurs;
      KeepsRefsEvents(s, e);
    } else {
      hide Next, Shape, Holders, Occurs, Surplus, Covered;
      if IsRefEvent(e) {
        TakeBalance(s, e, h);
      } else if e.Commit? {
        CommitRefs(s, e, h);
      } else if e.Drop? {
        DropRefs(s, e, h);
      } else if e.FinishDelete? {
        FinishRefs(s, e, h);
      } else {
        FailSurplus(s, e, h);
        FailHolds(s, e.t);
      }
    }
  }

  /** A task that writes a blob holds its reference. */
  lemma FailHolds(s: State, t: TaskId)
    requires Covered(s) && t in s.tasks && s.tasks[t].pc.BlobWrite? && HasBlob(s.tasks[t])
    ensures s.blobs.Count(BlobOf(s.tasks[t])) > 0
    ensures |TaskHashes(s.tasks[t])| <= 1 ==> TaskHashes(s.tasks[t]) == [BlobOf(s.tasks[t])]
  {
    hide Holders, Total, PairHashes;
    var task := s.tasks[t];
    var h := BlobOf(task);
    BlobHashes(task);
    TotalRemove(s.tasks, t, h);
    OccursAppend(PairHashes(task.op.pairs[..|task.pc.stamps| - 1]), [h], h);
    OccursOne(h, Some(h));
  }

  lemma NoHashes(task: Task)
    requires !task.pc.InFlight()
    ensures TaskHashes(task) == []
  {
    hide PairHashes;
  }

  lemma FlushFields(s: State, e: Event)
    requires LockInv(s) && Next(s, e).Some? && e.EndFlush?
    ensures var s' := Next(s, e).value;
            && s.inFlight == 0 && e.t in s.tasks && s'.tasks == s.tasks[e.t := s'.tasks[e.t]] && !s'.tasks[e.t].pc.InFlight()
            && s'.idx == EMPTY && forall h :: s'.blobs.Count(h) == 0
  {
    hide Shape, StripeInv, FileInv, StripesBelow;
  }

  lemma FlushRefs(s: State, e: Event)
    requires LockInv(s) && Next(s, e).Some? && e.EndFlush?
    ensures Exact(Next(s, e).value) && Covered(Next(s, e).value)
  {
    hide Shape, StripeInv, FileInv, GateInv, Next, TaskHashes, Total, Blobs.Count;
    var s' := Next(s, e).value;
    FlushFields(s, e);
    NoneInFlight(s);
    forall t | t in s'.tasks
      ensures TaskHashes(s'.tasks[t]) == []
    {
      NoHashes(s'.tasks[t]);
    }
    forall h
      ensures Total(s'.tasks, h) == 0 && Holders(s'.idx.blobs, h) == {} && s'.blobs.Count(h) == 0
    {
      TotalZero(s'.tasks, h);
    }
  }

  lemma SpawnRefs(s: State, e: Event)
    requires Next(s, e).Some? && (e.Spawn? || e.Unfreeze?)
    ensures Covered(s) ==> Covered(Next(s, e).value)
    ensures Exact(s) ==> Exact(Next(s, e).value)
  {
    hide StripesBelow, Total, Holders, Op.Ok, Blobs.Count;
    var s' := Next(s, e).value;
    forall h
      ensures Total(s'.tasks, h) == Total(s.tasks, h)
    {
      if e.Spawn? {
        TotalUpdate(s.tasks, e.t, s'.tasks[e.t], h);
      }
    }
  }

  /** Every step keeps every reference counted, and counted exactly, except for a batch
      whose blob write fails after an earlier one: the count then stays too high. */
  lemma RefsStep(s: State, e: Event)
    requires LockInv(s) && Covered(s) && Next(s, e).Some?
    ensures Covered(Next(s, e).value)
    ensures Exact(s) && !ForgetsRefs(s, e) ==> Exact(Next(s, e).value)
  {
    if e.Spawn? || e.Unfreeze? {
      hide Next, LockInv, Covered, Exact;
      SpawnRefs(s, e);
    } else if e.EndFlush? {
      hide Next, LockInv, Covered, Exact;
      FlushRefs(s, e);
    } else {
      hide Next, Shape, StripeInv, FileInv, GateInv, Moves, Surplus, Total, Holders, Blobs.Count, ForgetsRefs;
      StepMoves(s, e);
      forall h
        ensures Next(s, e).value.blobs.Count(h) >= |Holders(Next(s, e).value.idx.blobs, h)| + Total(Next(s, e).value.tasks, h)
        ensures Exact(s) && !ForgetsRefs(s, e) ==>
                  Next(s, e).value.blobs.Count(h) == |Holders(Next(s, e).value.idx.blobs, h)| + Total(Next(s, e).value.tasks, h)
      {
        SurplusEvents(s, e, h);
        SurplusStep(s, Next(s, e).value, e.t, h);
      }
    }
  }

  /** A task is writing the file of `h`. */
  predicate Writing(s: State, h: Hash) {
    && FileLock(h) in s.blobs.locks && s.blobs.locks[FileLock(h)] in s.tasks
    && var task := s.tasks[s.blobs.locks[FileLock(h)]];
       task.pc.BlobWrite? && HasBlob(task) && BlobOf(task) == h
  }

  ghost predicate DiskInv(s: State) {
    && (forall h :: s.blobs.Count(h) > 0 ==> h in s.blobs.onDisk || Writing(s, h))
    && (forall t :: t in s.tasks && s.tasks[t].pc.BlobWrite? && HasBlob(s.tasks[t]) ==> s.blobs.Count(BlobOf(s.tasks[t])) <= 1)
    && (forall t :: t in s.tasks && s.tasks[t].pc.Unlinking? && s.tasks[t].pc.queue != [] ==> s.blobs.Count(s.tasks[t].pc.queue[0]) == 0)
  }

  /** Counts do not grow, files and file locks stay, and `t` holds no file lock. */
  ghost predicate OnlyDrops(s: State, s': State, t: TaskId) {
    && t in s.tasks && t in s'.tasks
    && (forall h :: s'.blobs.Count(h) <= s.blobs.Count(h))
    && s'.blobs.onDisk == s.blobs.onDisk && s'.blobs.locks == s.blobs.locks
    && FileHeld(s.tasks[t]).None? && FileHeld(s'.tasks[t]).None?
  }

  lemma OnlyDropsStep(s: State, s': State, t: TaskId)
    requires FileInv(s) && DiskInv(s) && Moves(s, s', t) && OnlyDrops(s, s', t)
    ensures DiskInv(s')
  {
    hide TaskOk, StripeEffect, CountEffect, FlagEffect, FileEffect, Blobs.Count;
    forall h | Writing(s, h)
      ensures Writing(s', h)
    {
    }
  }

  predicate LeavesFiles(e: Event) {
    !(IsRefEvent(e) || IsBlobEvent(e) || IsUnlinkEvent(e) || e.EndFlush? || e.Spawn? || e.Unfreeze?)
  }

  lemma WritesLeaveFiles(s: State, e: Event)
    requires Shape(s) && Next(s, e).Some? && (IsGateEvent(e) || IsCheckEvent(e) || IsRecordEvent(e))
    ensures OnlyDrops(s, Next(s, e).value, e.t)
  {
    hide StripesBelow, PairRecords;
  }

  lemma CommitsLeaveFiles(s: State, e: Event)
    requires Shape(s) && Next(s, e).Some? && IsCommitEvent(e)
    ensures OnlyDrops(s, Next(s, e).value, e.t)
  {
    hide StripesBelow, UnrefAll, Superseded, RunAll, RaiseFloor;
    if e.Commit? {
      var dead := Superseded(s.idx, s.fileId, s.tasks[e.t].pc.offset, s.tasks[e.t].pc.recs);
      UnrefAllLocks(s.blobs, dead);
      forall h
        ensures UnrefAll(s.blobs, dead).Count(h) <= s.blobs.Count(h)
      {
        UnrefAllCount(s.blobs, dead, h);
      }
    }
  }

  lemma OthersLeaveFiles(s: State, e: Event)
    requires Shape(s) && Next(s, e).Some? && (IsFlagEvent(e) || e.EndReclaim? || e.EndFreeze?)
    ensures OnlyDrops(s, Next(s, e).value, e.t)
  {
    hide StripesBelow, Relocated;
  }

  lemma GcLeavesFiles(s: State, e: Event)
    requires Shape(s) && Next(s, e).Some? && IsGcEvent(e)
    ensures OnlyDrops(s, Next(s, e).value, e.t)
  {
    hide StripesBelow;
  }

  lemma DropsOnly(s: State, e: Event)
    requires Shape(s) && Next(s, e).Some? && LeavesFiles(e)
    ensures OnlyDrops(s, Next(s, e).value, e.t)
  {
    hide Shape, Next, OnlyDrops;
    if IsGateEvent(e) || IsCheckEvent(e) || IsRecordEvent(e) {
      WritesLeaveFiles(s, e);
    } else if IsCommitEvent(e) {
      CommitsLeaveFiles(s, e);
    } else if IsGcEvent(e) {
      GcLeavesFiles(s, e);
    } else {
      OthersLeaveFiles(s, e);
    }
  }

  /** `t` acts on the one blob `h`, whose file lock is free or its own. */
  ghost predicate ActsOn(s: State, s': State, t: TaskId, h: Hash) {
    && t in s.tasks && t in s'.tasks
    && (forall g :: g != h ==> s'.blobs.Count(g) == s.blobs.Count(g) && (g in s'.blobs.onDisk <==> g in s.blobs.onDisk))
    && (forall i :: i != FileLock(h) ==> Get(s'.blobs.locks, i) == Get(s.blobs.locks, i))
    && (FileLock(h) in s.blobs.locks ==> s.blobs.locks[FileLock(h)] == t)
    && (s.tasks[t].pc.BlobWrite? && HasBlob(s.tasks[t]) ==> BlobOf(s.tasks[t]) == h)
    && (s'.tasks[t].pc.BlobWrite? && HasBlob(s'.tasks[t]) ==> BlobOf(s'.tasks[t]) == h && s'.blobs.Count(h) <= 1)
    && (s'.tasks[t].pc.Unlinking? && s'.tasks[t].pc.queue != [] ==> s'.tasks[t].pc.queue[0] == h && s'.blobs.Count(h) == 0)
    && (s'.blobs.Count(h) > 0 ==> h in s'.blobs.onDisk || Writing(s', h))
  }

  lemma ActsOnDisk(s: State, s': State, t: TaskId, h: Hash)
    requires FileInv(s) && DiskInv(s) && Moves(s, s', t) && ActsOn(s, s', t, h)
    ensures DiskInv(s')
  {
    hide TaskOk, StripeEffect, CountEffect, FlagEffect, FileEffect, Blobs.Count, FileLock;
    forall g | g != h && Writing(s, g)
      ensures Writing(s', g)
    {
      assert Get(s'.blobs.locks, FileLock(g)) == Get(s.blobs.locks, FileLock(g));
    }
  }

  lemma TakeActs(s: State, e: Event) returns (h: Hash)
    requires Shape(s) && DiskInv(s) && Next(s, e).Some? && IsRefEvent(e)
    ensures ActsOn(s, Next(s, e).value, e.t, h)
  {
    hide StripesBelow;
    h := BlobOf(s.tasks[e.t]);
  }

  /** The writer of a blob owns its file lock. */
  lemma WriterOwns(s: State, t: TaskId)
    requires FileInv(s) && t in s.tasks && FileHeld(s.tasks[t]).Some?
    ensures FileHeld(s.tasks[t]).value in s.blobs.locks && s.blobs.locks[FileHeld(s.tasks[t]).value] == t
  {
  }

  lemma DoneActs(s: State, e: Event)
    requires Shape(s) && FileInv(s) && DiskInv(s) && Next(s, e).Some? && e.BlobDone?
    ensures e.t in s.tasks && HasBlob(s.tasks[e.t]) && ActsOn(s, Next(s, e).value, e.t, BlobOf(s.tasks[e.t]))
  {
    hide StripesBelow, FileInv;
    WriterOwns(s, e.t);
  }

  lemma FailActs(s: State, e: Event)
    requires Shape(s) && FileInv(s) && DiskInv(s) && Next(s, e).Some? && e.BlobFail?
    ensures e.t in s.tasks && HasBlob(s.tasks[e.t]) && ActsOn(s, Next(s, e).value, e.t, BlobOf(s.tasks[e.t]))
  {
    hide StripesBelow, FileInv;
    WriterOwns(s, e.t);
    assert s.blobs.Count(BlobOf(s.tasks[e.t])) <= 1;
  }

  lemma UnlinkActs(s: State, e: Event) returns (h: Hash)
    requires Shape(s) && DiskInv(s) && Next(s, e).Some? && e.GcUnlink?
    ensures ActsOn(s, Next(s, e).value, e.t, h)
  {
    hide StripesBelow, HasBlob;
    h := s.tasks[e.t].pc.queue[0];
  }

  lemma UnlinkedActs(s: State, e: Event) returns (h: Hash)
    requires Shape(s) && FileInv(s) && DiskInv(s) && Next(s, e).Some? && e.GcUnlinked?
    ensures ActsOn(s, Next(s, e).value, e.t, h)
  {
    hide StripesBelow, FileInv, HasBlob;
    h := s.tasks[e.t].pc.queue[0];
    WriterOwns(s, e.t);
  }

  lemma FlushDisk(s: State, e: Event)
    requires LockInv(s) && Next(s, e).Some? && e.EndFlush?
    ensures DiskInv(Next(s, e).value)
  {
    hide StripesBelow, Shape, StripeInv, FileInv;
  }

  lemma SpawnDisk(s: State, e: Event)
    requires FileInv(s) && DiskInv(s) && Next(s, e).Some? && (e.Spawn? || e.Unfreeze?)
    ensures DiskInv(Next(s, e).value)
  {
    hide StripesBelow, Op.Ok;
    var s' := Next(s, e).value;
    forall h | Writing(s, h)
      ensures Writing(s', h)
    {
    }
  }

  lemma DiskStep(s: State, e: Event)
    requires LockInv(s) && DiskInv(s) && Next(s, e).Some?
    ensures DiskInv(Next(s, e).value)
  {
    hide Next, Shape, StripeInv, FileInv, GateInv, Moves, DiskInv, ActsOn, OnlyDrops;
    var s' := Next(s, e).value;
    if e.Spawn? || e.Unfreeze? {
      SpawnDisk(s, e);
    } else if e.EndFlush? {
      FlushDisk(s, e);
    } else {
      StepMoves(s, e);
      if IsRefEvent(e) {
        var h := TakeActs(s, e);
        ActsOnDisk(s, s', e.t, h);
      } else if e.BlobDone? {
        DoneActs(s, e);
        ActsOnDisk(s, s', e.t, BlobOf(s.tasks[e.t]));
      } else if e.BlobFail? {
        FailActs(s, e);
        ActsOnDisk(s, s', e.t, BlobOf(s.tasks[e.t]));
      } else if e.GcUnlink? {
        var h := UnlinkActs(s, e);
        ActsOnDisk(s, s', e.t, h);
      } else if e.GcUnlinked? {
        var h := UnlinkedActs(s, e);
        ActsOnDisk(s, s', e.t, h);
      } else {
        DropsOnly(s, e);
        OnlyDropsStep(s, s', e.t);
      }
    }
  }

  /** Counts rebuilt from the index, every referenced file present. */
  ghost predicate InitBlobs(s: State) {
    && (forall h :: s.blobs.Count(h) == |Holders(s.idx.blobs, h)|)
    && (forall h :: s.blobs.Count(h) > 0 ==> h in s.blobs.onDisk)
  }

  lemma InitBlobsInv(s: State)
    requires Init(s) && InitBlobs(s)
    ensures Exact(s) && Covered(s) && DiskInv(s)
  {
    forall h
      ensures Total(s.tasks, h) == 0
    {
      TotalZero(s.tasks, h);
    }
  }

  lemma {:induction false} BlobsRun(s: State, es: seq<Event>)
    requires Init(s) && InitBlobs(s) && Run(s, es).Some?
    ensures LockInv(Run(s, es).value) && Covered(Run(s, es).value) && DiskInv(Run(s, es).value)
    decreases |es|
  {
    hide Init, InitBlobs, Next, LockInv, Covered, DiskInv, Exact;
    LockInvRun(s, es);
    if es == [] {
      InitBlobsInv(s);
    } else {
      BlobsRun(s, es[..|es| - 1]);
      RefsStep(Run(s, es[..|es| - 1]).value, es[|es| - 1]);
      DiskStep(Run(s, es[..|es| - 1]).value, es[|es| - 1]);
    }
  }

  /** Whatever blob writes fail: a blob that is referenced and whose file lock is free is
      on disk, and the blob of every indexed key is on disk without any condition. */
  lemma ReferencedBlobsExist(s0: State, es: seq<Event>, h: Hash)
    requires Init(s0) && InitBlobs(s0) && Run(s0, es).Some?
    ensures var s := Run(s0, es).value;
            && (s.blobs.Count(h) > 0 && FileLock(h) !in s.blobs.locks ==> h in s.blobs.onDisk)
            && (forall k :: k in s.idx.blobs && s.idx.blobs[k] == h ==> h in s.blobs.onDisk)
  {
    hide Init, InitBlobs, Run, LockInv, Total, PairHashes;
    var s := Run(s0, es).value;
    BlobsRun(s0, es);
    forall k | k in s.idx.blobs && s.idx.blobs[k] == h
      ensures h in s.blobs.onDisk
    {
      assert k in Holders(s.idx.blobs, h);
      if Writing(s, h) {
        WriterIsOnlyHolder(s, s.blobs.locks[FileLock(h)]);
      }
    }
  }

  lemma WriterIsOnlyHolder(s: State, t: TaskId)
    requires Covered(s) && DiskInv(s) && t in s.tasks && s.tasks[t].pc.BlobWrite? && HasBlob(s.tasks[t])
    ensures Holders(s.idx.blobs, BlobOf(s.tasks[t])) == {}
  {
    hide Total, PairHashes, Holders, Blobs.Count;
    var task := s.tasks[t];
    var h := BlobOf(task);
    BlobHashes(task);
    TotalRemove(s.tasks, t, h);
    OccursAppend(PairHashes(task.op.pairs[..|task.pc.stamps| - 1]), [h], h);
    OccursOne(h, Some(h));
    assert |Holders(s.idx.blobs, h)| == 0;
  }

  /** No batch forgets references in the run. */
  ghost predicate Faultless(s: State, es: seq<Event>)
    requires Run(s, es).Some?
    decreases |es|
  {
    es != [] ==> Faultless(s, es[..|es| - 1]) && !ForgetsRefs(Run(s, es[..|es| - 1]).value, es[|es| - 1])
  }

  /** Reference counts are exact in every reachable state of such a run. */
  lemma {:induction false} RefcountsExact(s: State, es: seq<Event>)
    requires Init(s) && InitBlobs(s) && Run(s, es).Some? && Faultless(s, es)
    ensures Exact(Run(s, es).value)
    decreases |es|
  {
    hide Init, InitBlobs, Next, LockInv, Covered, DiskInv, Exact, ForgetsRefs;
    if es == [] {
      InitBlobsInv(s);
    } else {
      RefcountsExact(s, es[..|es| - 1]);
      BlobsRun(s, es[..|es| - 1]);
      RefsStep(Run(s, es[..|es| - 1]).value, es[|es| - 1]);
    }
  }

  /** A failing blob write of a batch leaves behind the references taken before it. */
  lemma ForgottenSurplus(s: State, e: Event)
    requires Shape(s) && Next(s, e).Some? && ForgetsRefs(s, e)
    ensures e.t in Next(s, e).value.tasks && Surplus(s, Next(s, e).value, e.t, TaskHashes(s.tasks[e.t])[0]) > 0
  {
    hide StripesBelow, Holders, PairHashes;
    var task := s.tasks[e.t];
    assert TaskOk(s.hash, task);
    var front := PairHashes(task.op.pairs[..|task.pc.stamps| - 1]);
    BlobHashes(task);
    OccursAppend(front, [BlobOf(task)], front[0]);
    OccursOne(front[0], Some(BlobOf(task)));
  }

  /** Step by step, counts stay exact if and only if no failing blob write had earlier
      references of its batch to forget. */
  lemma ExactStep(s: State, e: Event)
    requires LockInv(s) && Covered(s) && Exact(s) && Next(s, e).Some?
    ensures Exact(Next(s, e).value) <==> !ForgetsRefs(s, e)
  {
    hide Next, Shape, StripeInv, FileInv, GateInv, Moves, Surplus, Total, Holders, Blobs.Count, TaskHashes, Covered;
    RefsStep(s, e);
    if ForgetsRefs(s, e) {
      var g := TaskHashes(s.tasks[e.t])[0];
      StepMoves(s, e);
      ForgottenSurplus(s, e);
      SurplusStep(s, Next(s, e).value, e.t, g);
    }
  }

  const ONE_STRIPE: Bytes -> nat := (k: Bytes) => 0

  lemma {:induction false} FirstStripe(op: Op, n: nat)
    requires op.Write? && op.pairs != [] && n >= 1
    ensures StripesBelow(ONE_STRIPE, op, n) == [0]
  {
    assert op.pairs[0].key in KeysOf(op) && StripeOf(ONE_STRIPE, op.pairs[0].key) == 0;
    if n > 1 {
      FirstStripe(op, n - 1);
      assert forall k :: StripeOf(ONE_STRIPE, k) == 0;
    }
  }

  const FRESH: State := State(ONE_STRIPE, EMPTY, EMPTY, [], 0, 0, 0, None, false, map[],
                              Blobs(map[], [], {}, map[]), map[], map[], map[], [])

  lemma RunSnoc(s: State, es: seq<Event>, e: Event, s': State)
    requires Run(s, es).Some? && Next(Run(s, es).value, e) == Some(s')
    ensures Run(s, es + [e]) == Some(s')
  {
    hide Next;
    assert (es + [e])[..|es|] == es;
  }

  /** A batch alone in the namespace, past its locks. */
  function Alone(op: Op, pc: Pc, last: U64, hist: map<U64, Bytes>, b: Blobs): State {
    FRESH.(tasks := map[0 := Task(op, [0], pc)], inFlight := 1, stripes := map[0 := 0], last := last, hist := hist, blobs := b)
  }

  function TwoLarge(k: Bytes, h1: Hash, h2: Hash): Op {
    Write([Pair(k, h1, [], None, true), Pair(k, h2, [], None, true)], None, 0)
  }

  lemma AloneSet(op: Op, pc: Pc, pc': Pc, last: U64, hist: map<U64, Bytes>, b: Blobs)
    ensures Alone(op, pc, last, hist, b).Set(0, pc') == Alone(op, pc', last, hist, b)
  {
    assert map[0 := Task(op, [0], pc)][0 := Task(op, [0], pc')] == map[0 := Task(op, [0], pc')];
  }

  lemma StartAlone(k: Bytes, h1: Hash, h2: Hash) returns (es: seq<Event>)
    requires HEADER_LEN + |k| + 16 <= U32_MAX
    ensures forall i :: 0 <= i < |es| ==> !es[i].BlobFail?
    ensures Run(FRESH, es) == Some(Alone(TwoLarge(k, h1, h2), Building([]), 0, map[], FRESH.blobs))
  {
    hide StripesBelow, Run;
    var op := TwoLarge(k, h1, h2);
    FirstStripe(op, WRITE_STRIPES);
    var s1 := FRESH.(tasks := map[0 := Task(op, [0], Start)]);
    var s2 := s1.(tasks := map[0 := Task(op, [0], Locking(0))], inFlight := 1);
    assert s1.Set(0, Locking(0)) == s1.(tasks := map[0 := Task(op, [0], Locking(0))]);
    assert s2.Set(0, Locking(1)) == s2.(tasks := map[0 := Task(op, [0], Locking(1))]);
    AloneSet(op, Locking(1), Building([]), 0, map[], FRESH.blobs);
    RunNone(FRESH);
    RunSnoc(FRESH, [], Spawn(0, op), s1);
    es := [] + [Spawn(0, op)];
    RunSnoc(FRESH, es, Admit(0), s2);
    es := es + [Admit(0)];
    RunSnoc(FRESH, es, Lock(0), Alone(op, Locking(1), 0, map[], FRESH.blobs));
    es := es + [Lock(0)];
    RunSnoc(FRESH, es, Pass(0), Alone(op, Building([]), 0, map[], FRESH.blobs));
    es := es + [Pass(0)];
  }

  lemma RunNone(s: State)
    ensures Run(s, []) == Some(s)
  {
  }

  /** The next large value is stamped and its file is being written. */
  lemma NextBlob(k: Bytes, h1: Hash, h2: Hash, st: seq<U64>, last: U64, hist: map<U64, Bytes>, b: Blobs)
    requires HEADER_LEN + |k| + 16 <= U32_MAX && |st| < 2 && last < 9 && b.locks == map[]
    requires var h := if |st| == 0 then h1 else h2; b.Count(h) == 0
    ensures var op, h := TwoLarge(k, h1, h2), if |st| == 0 then h1 else h2;
            var s := Alone(op, Building(st), last, hist, b);
            var s' := Alone(op, BlobWrite(st + [last + 1]), last + 1, hist[last + 1 := h], b.Incr(h).(locks := map[FileLock(h) := 0]));
            && Next(s, Stamp(0, 0)).Some? && Next(Next(s, Stamp(0, 0)).value, FirstBlob(0)) == Some(s')
  {
    hide StripesBelow, Blobs.Incr;
    var op, h := TwoLarge(k, h1, h2), if |st| == 0 then h1 else h2;
    var s := Alone(op, Building(st), last, hist, b);
    AloneSet(op, Building(st), BlobWait(st + [last + 1]), last, hist, b);
    AloneSet(op, BlobWait(st + [last + 1]), BlobWrite(st + [last + 1]), last + 1, hist[last + 1 := h], b);
    assert Next(s, Stamp(0, 0)) == Some(Alone(op, BlobWait(st + [last + 1]), last + 1, hist[last + 1 := h], b));
  }

  lemma BlobWritten(k: Bytes, h1: Hash, h2: Hash, t: U64, hist: map<U64, Bytes>, b: Blobs)
    requires HEADER_LEN + |k| + 16 <= U32_MAX
    ensures var op := TwoLarge(k, h1, h2);
            Next(Alone(op, BlobWrite([t]), t, hist, b), BlobDone(0))
            == Some(Alone(op, Building([t]), t, hist, b.(onDisk := b.onDisk + {h1}, locks := b.locks - {FileLock(h1)})))
  {
    hide StripesBelow;
    AloneSet(TwoLarge(k, h1, h2), BlobWrite([t]), Building([t]), t, hist, b);
  }

  /** A batch of two large values whose second blob is being written: the next step may fail. */
  lemma BeforeForgetting(k: Bytes, h1: Hash, h2: Hash) returns (es: seq<Event>)
    requires HEADER_LEN + |k| + 16 <= U32_MAX && h1 != h2
    ensures Run(FRESH, es).Some? && forall i :: 0 <= i < |es| ==> !es[i].BlobFail?
    ensures var s := Run(FRESH, es).value;
            0 in s.tasks && s.tasks[0].op == TwoLarge(k, h1, h2) && s.tasks[0].pc == BlobWrite([1, 2])
  {
    hide StripesBelow, Run, Next, Blobs.Incr;
    var op := TwoLarge(k, h1, h2);
    es := StartAlone(k, h1, h2);
    NextBlob(k, h1, h2, [], 0, map[], FRESH.blobs);
    var b1 := FRESH.blobs.Incr(h1).(locks := map[FileLock(h1) := 0]);
    assert [] + [1] == [1];
    RunSnoc(FRESH, es, Stamp(0, 0), Next(Run(FRESH, es).value, Stamp(0, 0)).value);
    es := es + [Stamp(0, 0)];
    RunSnoc(FRESH, es, FirstBlob(0), Alone(op, BlobWrite([1]), 1, map[1 := h1], b1));
    es := es + [FirstBlob(0)];
    BlobWritten(k, h1, h2, 1, map[1 := h1], b1);
    var b2 := b1.(onDisk := b1.onDisk + {h1}, locks := b1.locks - {FileLock(h1)});
    RunSnoc(FRESH, es, BlobDone(0), Alone(op, Building([1]), 1, map[1 := h1], b2));
    es := es + [BlobDone(0)];
    OtherUncounted(FRESH.blobs, h1, h2);
    assert b2.locks == map[];
    NextBlob(k, h1, h2, [1], 1, map[1 := h1], b2);
    RunSnoc(FRESH, es, Stamp(0, 0), Next(Run(FRESH, es).value, Stamp(0, 0)).value);
    es := es + [Stamp(0, 0)];
    assert [1] + [2] == [1, 2];
    RunSnoc(FRESH, es, FirstBlob(0), Alone(op, BlobWrite([1, 2]), 2, map[1 := h1, 2 := h2], b2.Incr(h2).(locks := map[FileLock(h2) := 0])));
    es := es + [FirstBlob(0)];
  }

  lemma OtherUncounted(b: Blobs, h: Hash, g: Hash)
    requires g != h && b.Count(g) == 0
    ensures b.Incr(h).Count(g) == 0
  {
  }

  lemma {:induction false} NoFailures(s: State, es: seq<Event>)
    requires Run(s, es).Some? && forall i :: 0 <= i < |es| ==> !es[i].BlobFail?
    ensures Faultless(s, es)
    decreases |es|
  {
    hide Next;
    if es != [] {
      NoFailures(s, es[..|es| - 1]);
    }
  }

  lemma FailPossible(s: State, k: Bytes, h1: Hash, h2: Hash)
    requires HEADER_LEN + |k| + 16 <= U32_MAX
    requires 0 in s.tasks && s.tasks[0].op == TwoLarge(k, h1, h2) && s.tasks[0].pc == BlobWrite([1, 2])
    ensures Next(s, BlobFail(0, false)).Some? && ForgetsRefs(s, BlobFail(0, false))
  {
    var ps := s.tasks[0].op.pairs;
    assert ps[..2] == ps && ps[..1] == [ps[0]] && ps[..0] == [];
    assert [ps[0]][..0] == [];
    assert PairHashes([ps[0]]) == [h1];
    assert PairHashes(ps) == [h1] + [h2];
  }

  /** From an empty namespace: a batch whose second blob cannot be written leaves a reference
      to the first that nothing holds. */
  lemma ForgettingRun(k: Bytes, h1: Hash, h2: Hash) returns (es: seq<Event>)
    requires HEADER_LEN + |k| + 16 <= U32_MAX && h1 != h2
    ensures Init(FRESH) && InitBlobs(FRESH) && Run(FRESH, es).Some? && !Exact(Run(FRESH, es).value)
  {
    hide Next, Run, LockInv, Covered, Exact, ForgetsRefs, DiskInv;
    FreshInit();
    es := BeforeForgetting(k, h1, h2);
    var s := Run(FRESH, es).value;
    NoFailures(FRESH, es);
    RefcountsExact(FRESH, es);
    BlobsRun(FRESH, es);
    FailPossible(s, k, h1, h2);
    ExactStep(s, BlobFail(0, false));
    RunSnoc(FRESH, es, BlobFail(0, false), Next(s, BlobFail(0, false)).value);
    es := es + [BlobFail(0, false)];
  }

  lemma FreshInit()
    ensures Init(FRESH) && InitBlobs(FRESH)
  {
    forall h ensures |Holders(FRESH.idx.blobs, h)| == 0 {
      assert Holders(FRESH.idx.blobs, h) == {};
    }
  }
}
