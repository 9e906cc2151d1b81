/** Concurrent increments: each `incr` attempt reads some revision of the counter and
    writes conditionally on it, so no increment is lost and none is counted twice. */
module LogIncr {
  import opened Types
  import opened Records
  import opened NamespaceIndex
  import opened LogMachine
  import opened LogLocks
  import opened LogReplay
  import opened LogCas

  /** An attempt to add `d`: conditional on the revision it read, or on absence.
      Which revision it read, and whether from the cache or from disk, is arbitrary. */
  predicate Attempt(hist: map<U64, Bytes>, c: Codec, k: Bytes, d: int, op: Op) {
    && op.Write? && |op.pairs| == 1 && op.cond.Some?
    && op.pairs[0].key == k && op.pairs[0].expires.None? && !op.pairs[0].separated
    && match op.cond.value
       case KeyAbsent => InI64(d) && op.pairs[0].stored == c.render(d)
       case Revision(r) =>
         && r in hist && c.parse(hist[r]).Some?
         && InI64(c.parse(hist[r]).value + d) && op.pairs[0].stored == c.render(c.parse(hist[r]).value + d)
       case KeyPresent => false
  }

  /** Tasks on `k` are attempts; the others add nothing, and nothing flushes. */
  predicate Counts(hist: map<U64, Bytes>, c: Codec, k: Bytes, d: int, op: Op) {
    !op.Flush? && if k in KeysOf(op) then Attempt(hist, c, k, d, op) else d == 0
  }

  /** Every task that a run starts counts by `delta`. */
  ghost predicate CountingRun(s: State, es: seq<Event>, c: Codec, k: Bytes, delta: TaskId -> int)
    requires Run(s, es).Some?
    decreases |es|
  {
    es != [] ==>
      && CountingRun(s, es[..|es| - 1], c, k, delta)
      && var e := es[|es| - 1];
         e.Spawn? ==> Counts(Run(s, es[..|es| - 1]).value.hist, c, k, delta(e.t), e.op)
  }

  function Sum(delta: TaskId -> int, ts: seq<TaskId>): int {
    if ts == [] then 0 else Sum(delta, ts[..|ts| - 1]) + delta(ts[|ts| - 1])
  }

  /** The counter: what the record of its current revision says, zero when absent. */
  ghost predicate Value(s: State, c: Codec, k: Bytes, n: int) {
    && k !in s.idx.ttl
    && (k in s.idx.entries ==> s.idx.entries[k].tstamp in s.hist && c.parse(s.hist[s.idx.entries[k].tstamp]) == Some(n))
    && (k !in s.idx.entries ==> n == 0)
  }

  /** Passed a check that `k` is absent. */
  predicate FoundAbsent(task: Task, k: Bytes) {
    Claims(task) && k in KeysOf(task.op) && task.op.cond == Some(KeyAbsent)
  }

  /** Every task counts, and one that has passed an absence check still sees the key absent. */
  ghost predicate TasksCount(s: State, c: Codec, k: Bytes, delta: TaskId -> int) {
    forall t :: t in s.tasks ==>
      && Counts(s.hist, c, k, delta(t), s.tasks[t].op)
      && (FoundAbsent(s.tasks[t], k) ==> k !in s.idx.entries)
  }

  ghost predicate IncrInv(s: State, c: Codec, k: Bytes, delta: TaskId -> int, start: int) {
    TasksCount(s, c, k, delta) && Value(s, c, k, start + Sum(delta, s.commits))
  }

  /** A step that leaves the counter's revision and the commit order alone. */
  ghost predicate Untouched(s: State, s': State, k: Bytes) {
    && (k in s'.idx.ttl <==> k in s.idx.ttl)
    && (k in s'.idx.entries <==> k in s.idx.entries)
    && (k in s.idx.entries ==> s'.idx.entries[k].tstamp == s.idx.entries[k].tstamp)
    && (forall r :: r in s.hist ==> r in s'.hist && s'.hist[r] == s.hist[r])
  }

  lemma CountsMono(hist: map<U64, Bytes>, hist': map<U64, Bytes>, c: Codec, k: Bytes, d: int, op: Op)
    requires Counts(hist, c, k, d, op) && forall r :: r in hist ==> r in hist' && hist'[r] == hist[r]
    ensures Counts(hist', c, k, d, op)
  {
  }

  /** What a task needs after a step of `t` that leaves the counter alone. */
  lemma UntouchedTask(s: State, s': State, task: Task, pc: Pc, c: Codec, k: Bytes, d: int)
    requires Counts(s.hist, c, k, d, task.op) && (FoundAbsent(task, k) ==> k !in s.idx.entries)
    requires Untouched(s, s', k) && k !in s.idx.ttl
    requires Claims(task.(pc := pc)) ==> Claims(task) || (task.op.Ok() && Met(s.idx, task.op))
    ensures Counts(s'.hist, c, k, d, task.op) && (FoundAbsent(task.(pc := pc), k) ==> k !in s'.idx.entries)
  {
    hide Counts, KeysOf, Pc.InFlight, Met;
    CountsMono(s.hist, s'.hist, c, k, d, task.op);
    if FoundAbsent(task.(pc := pc), k) && !FoundAbsent(task, k) {
      PassAbsent(s, task.op, c, k, d);
    }
  }

  lemma UntouchedIncr(s: State, s': State, t: TaskId, c: Codec, k: Bytes, delta: TaskId -> int, start: int)
    requires IncrInv(s, c, k, delta, start) && Untouched(s, s', k) && Moves(s, s', t)
    requires Claims(s'.tasks[t]) ==> Claims(s.tasks[t]) || (s.tasks[t].op.Ok() && Met(s.idx, s.tasks[t].op))
    requires s'.commits == s.commits || (s'.commits == s.commits + [t] && delta(t) == 0)
    ensures IncrInv(s', c, k, delta, start)
  {
    hide StripeEffect, FileEffect, CountEffect, FlagEffect, TaskOk, Counts, FoundAbsent, Claims, Met, Sum;
    forall u | u in s'.tasks
      ensures Counts(s'.hist, c, k, delta(u), s'.tasks[u].op) && (FoundAbsent(s'.tasks[u], k) ==> k !in s'.idx.entries)
    {
      UntouchedTask(s, s', s.tasks[u], s'.tasks[u].pc, c, k, delta(u));
    }
    SumAppend(delta, s.commits, t);
  }

  lemma SumAppend(delta: TaskId -> int, ts: seq<TaskId>, t: TaskId)
    ensures Sum(delta, ts + [t]) == Sum(delta, ts) + delta(t)
  {
    assert (ts + [t])[..|ts|] == ts;
  }

  lemma PassAbsent(s: State, op: Op, c: Codec, k: Bytes, d: int)
    requires op.Ok() && Met(s.idx, op) && Counts(s.hist, c, k, d, op) && k in KeysOf(op)
    requires op.Write? && op.cond == Some(KeyAbsent) && k !in s.idx.ttl
    ensures k !in s.idx.entries
  {
  }

  lemma CommitParts(s: State, e: Event)
    requires Shape(s) && e.Commit? && Next(s, e).Some?
    ensures var s' := Next(s, e).value;
            && e.t in s.tasks && e.t in s'.tasks && s.tasks[e.t].pc.Appended?
            && s'.idx == RunAll(s.idx, s.fileId, s.tasks[e.t].pc.offset, s.tasks[e.t].pc.recs)
            && s'.hist == s.hist && s'.commits == s.commits + [e.t] && !Claims(s'.tasks[e.t])
  {
    hide StripesBelow, RunAll, Superseded, UnrefAll, RaiseFloor;
  }

  lemma CommitElsewhere(s: State, e: Event, k: Bytes)
    requires Shape(s) && e.Commit? && Next(s, e).Some? && e.t in s.tasks && k !in KeysOf(s.tasks[e.t].op)
    ensures Untouched(s, Next(s, e).value, k)
  {
    hide Next, Shape, RunAll, KeysOf;
    CommitParts(s, e);
    CommitOtherKeys(s, e.t, k);
    assert Next(s, e).value.idx.At(k) == s.idx.At(k);
  }

  /** An attempt that commits read the counter's current value. */
  lemma AttemptReadsCurrent(s: State, t: TaskId, c: Codec, k: Bytes, delta: TaskId -> int, start: int)
    requires Shape(s) && CasInv(s) && IncrInv(s, c, k, delta, start) && c.Ok()
    requires t in s.tasks && s.tasks[t].pc.Appended? && k in KeysOf(s.tasks[t].op)
    ensures s.tasks[t].op.Write? && |s.tasks[t].op.pairs| == 1
    ensures InI64(start + Sum(delta, s.commits) + delta(t))
    ensures s.tasks[t].op.pairs[0].stored == c.render(start + Sum(delta, s.commits) + delta(t))
  {
    hide Shape, CasInv, TasksCount, Value, TaskOk, TaskCas, Claims, Counts, FoundAbsent, Sum, Codec.Ok;
    AttemptFacts(s, t, c, k, delta);
    AttemptValue(s, s.tasks[t], c, k, delta(t), start + Sum(delta, s.commits));
  }

  lemma AttemptFacts(s: State, t: TaskId, c: Codec, k: Bytes, delta: TaskId -> int)
    requires Shape(s) && CasInv(s) && TasksCount(s, c, k, delta) && t in s.tasks
    ensures TaskOk(s.hash, s.tasks[t]) && TaskCas(s, s.tasks[t])
    ensures Counts(s.hist, c, k, delta(t), s.tasks[t].op) && (FoundAbsent(s.tasks[t], k) ==> k !in s.idx.entries)
  {
    hide TaskOk, TaskCas, Counts, FoundAbsent, StripesBelow, WinnersDiffer, FloorInv;
  }

  lemma AttemptValue(s: State, task: Task, c: Codec, k: Bytes, d: int, v: int)
    requires TaskOk(s.hash, task) && TaskCas(s, task) && Counts(s.hist, c, k, d, task.op) && c.Ok()
    requires FoundAbsent(task, k) ==> k !in s.idx.entries
    requires Value(s, c, k, v) && task.pc.Appended? && k in KeysOf(task.op)
    ensures task.op.Write? && |task.op.pairs| == 1 && InI64(v + d)
    ensures task.op.pairs[0].stored == c.render(v + d)
  {
    hide StripesBelow, IssuesOk;
    assert Claims(task);
  }

  /** ... and its one record carries the sum, without expiry. */
  lemma AttemptRecord(s: State, t: TaskId, c: Codec, k: Bytes, delta: TaskId -> int)
    requires Shape(s) && CasInv(s) && TasksCount(s, c, k, delta)
    requires t in s.tasks && s.tasks[t].pc.Appended? && k in KeysOf(s.tasks[t].op)
    ensures s.tasks[t].op.Write? && |s.tasks[t].op.pairs| == 1 && |s.tasks[t].pc.recs| == 1
    ensures var r := s.tasks[t].pc.recs[0];
            && r.IsFull() && r.key == k && r.Expiry().None?
            && r.tstamp in s.hist && s.hist[r.tstamp] == s.tasks[t].op.pairs[0].stored
  {
    hide StripesBelow, WinnersDiffer, FloorInv;
    var task := s.tasks[t];
    assert TaskOk(s.hash, task) && TaskCas(s, task) && Counts(s.hist, c, k, delta(t), task.op);
    var r := task.pc.recs[0];
    assert r == task.op.pairs[0].ToRecord(r.tstamp);
    assert Issued(task)[0] == Issue(r.key, r.tstamp, r.value);
  }

  lemma RunOne(idx: Index, fileId: nat, offset: nat, rs: seq<Record>)
    requires |rs| == 1
    ensures RunAll(idx, fileId, offset, rs) == RunRecord(idx, fileId, offset, rs[0])
  {
    hide RunRecord;
    assert rs[1..] == [];
  }

  lemma CommitHere(s: State, e: Event, c: Codec, k: Bytes, delta: TaskId -> int, start: int)
    requires LockInv(s) && CasInv(s) && IncrInv(s, c, k, delta, start) && c.Ok() && e.Commit? && Next(s, e).Some?
    requires e.t in s.tasks && k in KeysOf(s.tasks[e.t].op)
    ensures Value(Next(s, e).value, c, k, start + Sum(delta, Next(s, e).value.commits))
  {
    hide Next, Shape, StripeInv, FileInv, GateInv, CasInv, TasksCount, RunAll, KeysOf;
    CommitParts(s, e);
    var s' := Next(s, e).value;
    var task := s.tasks[e.t];
    AttemptReadsCurrent(s, e.t, c, k, delta, start);
    AttemptRecord(s, e.t, c, k, delta);
    RunOne(s.idx, s.fileId, task.pc.offset, task.pc.recs);
    SumAppend(delta, s.commits, e.t);
  }

  lemma CommitTasks(s: State, e: Event, c: Codec, k: Bytes, delta: TaskId -> int)
    requires LockInv(s) && TasksCount(s, c, k, delta) && e.Commit? && Next(s, e).Some?
    requires e.t in s.tasks && k in KeysOf(s.tasks[e.t].op)
    ensures TasksCount(Next(s, e).value, c, k, delta)
  {
    hide Next, StripeInv, FileInv, GateInv, Shape, Counts, RunAll, KeysOf;
    CommitParts(s, e);
    StepMoves(s, e);
    var s' := Next(s, e).value;
    forall u | u in s'.tasks
      ensures Counts(s'.hist, c, k, delta(u), s'.tasks[u].op)
      ensures FoundAbsent(s'.tasks[u], k) ==> k !in s'.idx.entries
    {
      CountsMono(s.hist, s'.hist, c, k, delta(u), s.tasks[u].op);
      if u != e.t && Claims(s'.tasks[u]) {
        KeysDisjoint(s, e.t, u, k);
      }
    }
  }

  /** The events that neither start, commit, flush nor resume. */
  predicate IsOther(e: Event) {
    !e.Spawn? && !e.Commit? && !e.EndFlush? && !e.Unfreeze?
  }

  ghost predicate OtherEffect(s: State, s': State, t: TaskId, k: Bytes) {
    && t in s.tasks && t in s'.tasks
    && Untouched(s, s', k) && s'.commits == s.commits
    && (Claims(s'.tasks[t]) ==> Claims(s.tasks[t]) || (s.tasks[t].op.Ok() && Met(s.idx, s.tasks[t].op)))
  }

  lemma OtherWrites(s: State, e: Event, k: Bytes)
    requires Shape(s) && FloorInv(s) && IsOther(e) && Next(s, e).Some?
    requires IsGateEvent(e) || IsCheckEvent(e)
    ensures OtherEffect(s, Next(s, e).value, e.t, k)
  {
    hide StripesBelow;
  }

  lemma OtherBlobs(s: State, e: Event, k: Bytes)
    requires Shape(s) && IsOther(e) && Next(s, e).Some? && (IsRefEvent(e) || IsBlobEvent(e) || IsCommitEvent(e))
    ensures OtherEffect(s, Next(s, e).value, e.t, k)
  {
    hide StripesBelow;
  }

  lemma OtherRecords(s: State, e: Event, k: Bytes)
    requires Shape(s) && FloorInv(s) && IsOther(e) && Next(s, e).Some? && IsRecordEvent(e)
    requires e.Drop? ==> e.t in s.tasks && k !in KeysOf(s.tasks[e.t].op)
    ensures OtherEffect(s, Next(s, e).value, e.t, k)
  {
    hide StripesBelow, PairRecords;
  }

  lemma OtherFlags(s: State, e: Event, k: Bytes)
    requires Shape(s) && IsOther(e) && Next(s, e).Some? && IsFlagEvent(e)
    ensures OtherEffect(s, Next(s, e).value, e.t, k)
  {
    hide StripesBelow;
  }

  lemma OtherExits(s: State, e: Event, k: Bytes)
    requires Shape(s) && IsOther(e) && Next(s, e).Some? && IsExitEvent(e)
    ensures OtherEffect(s, Next(s, e).value, e.t, k)
  {
    hide StripesBelow;
  }

  lemma OtherGc(s: State, e: Event, k: Bytes)
    requires Shape(s) && Next(s, e).Some? && IsGcEvent(e)
    ensures OtherEffect(s, Next(s, e).value, e.t, k)
  {
    hide StripesBelow;
  }

  lemma OtherUnlinks(s: State, e: Event, k: Bytes)
    requires Shape(s) && Next(s, e).Some? && IsUnlinkEvent(e)
    ensures OtherEffect(s, Next(s, e).value, e.t, k)
  {
    hide StripesBelow;
  }

  lemma OtherEvents(s: State, e: Event, c: Codec, k: Bytes, delta: TaskId -> int)
    requires Shape(s) && FloorInv(s) && TasksCount(s, c, k, delta) && IsOther(e) && Next(s, e).Some?
    ensures OtherEffect(s, Next(s, e).value, e.t, k)
  {
    hide Shape, FloorInv, OtherEffect;
    if IsRecordEvent(e) {
      OtherRecords(s, e, k);
    } else if IsFlagEvent(e) {
      OtherFlags(s, e, k);
    } else if IsExitEvent(e) {
      OtherExits(s, e, k);
    } else if IsGcEvent(e) {
      OtherGc(s, e, k);
    } else if IsUnlinkEvent(e) {
      OtherUnlinks(s, e, k);
    } else if IsRefEvent(e) || IsBlobEvent(e) || IsCommitEvent(e) {
      OtherBlobs(s, e, k);
    } else {
      OtherWrites(s, e, k);
    }
  }

  lemma SpawnIncr(s: State, e: Event, c: Codec, k: Bytes, delta: TaskId -> int, start: int)
    requires IncrInv(s, c, k, delta, start) && (e.Spawn? || e.Unfreeze?) && Next(s, e).Some?
    requires e.Spawn? ==> Counts(s.hist, c, k, delta(e.t), e.op)
    ensures IncrInv(Next(s, e).value, c, k, delta, start)
  {
    hide StripesBelow, Counts, KeysOf, Op.Ok;
  }

  lemma IncrStep(s: State, e: Event, c: Codec, k: Bytes, delta: TaskId -> int, start: int)
    requires LockInv(s) && CasInv(s) && IncrInv(s, c, k, delta, start) && c.Ok() && Next(s, e).Some?
    requires e.Spawn? ==> Counts(s.hist, c, k, delta(e.t), e.op)
    ensures IncrInv(Next(s, e).value, c, k, delta, start)
  {
    hide Next, StripeInv, FileInv, GateInv, Shape, Moves, FloorInv, WinnersDiffer, TaskCas, Codec.Ok, Untouched, Value, KeysOf;
    var s' := Next(s, e).value;
    if e.Spawn? || e.Unfreeze? {
      SpawnIncr(s, e, c, k, delta, start);
    } else {
      StepMoves(s, e);
      if e.Commit? {
        CommitParts(s, e);
        if k in KeysOf(s.tasks[e.t].op) {
          CommitHere(s, e, c, k, delta, start);
          CommitTasks(s, e, c, k, delta);
        } else {
          CommitElsewhere(s, e, k);
          UntouchedIncr(s, s', e.t, c, k, delta, start);
        }
      } else {
        NoFlush(s, e, c, k, delta);
        OtherEvents(s, e, c, k, delta);
        UntouchedIncr(s, s', e.t, c, k, delta, start);
      }
    }
  }

  lemma NoFlush(s: State, e: Event, c: Codec, k: Bytes, delta: TaskId -> int)
    requires TasksCount(s, c, k, delta) && Next(s, e).Some?
    ensures !e.EndFlush?
  {
  }

  /** Starting from a counter worth `start` and no TTL, any interleaving of increments of
      `k` with other tasks leaves it at `start` plus the deltas that were committed. */
  lemma {:induction false} IncrRun(s: State, es: seq<Event>, c: Codec, k: Bytes, delta: TaskId -> int, start: int)
    requires Init(s) && Run(s, es).Some? && CountingRun(s, es, c, k, delta) && c.Ok()
    requires Value(s, c, k, start)
    ensures IncrInv(Run(s, es).value, c, k, delta, start)
    decreases |es|
  {
    hide Next, Value, LockInv, CasInv, Codec.Ok;
    if es != [] {
      var mid := Run(s, es[..|es| - 1]).value;
      IncrRun(s, es[..|es| - 1], c, k, delta, start);
      LockInvRun(s, es[..|es| - 1]);
      CasRun(s, es[..|es| - 1]);
      IncrStep(mid, es[|es| - 1], c, k, delta, start);
    }
  }

  predicate Succeeded(task: Task) {
    (task.op.Write? || task.op.Expire?) && task.pc.Done? && task.pc.result.Success?
  }

  /** A commit is exactly a write that returned success, and appears once. */
  ghost predicate CommitsInv(s: State) {
    && (forall t :: t in s.commits <==> t in s.tasks && Succeeded(s.tasks[t]))
    && (forall i, j :: 0 <= i < j < |s.commits| ==> s.commits[i] != s.commits[j])
  }

  ghost predicate SameSuccess(s: State, s': State, t: TaskId) {
    t in s.tasks && t in s'.tasks && s'.commits == s.commits && Succeeded(s'.tasks[t]) == Succeeded(s.tasks[t])
  }

  lemma SameSuccessWrites(s: State, e: Event)
    requires Shape(s) && Next(s, e).Some? && (IsGateEvent(e) || IsCheckEvent(e) || IsRefEvent(e) || IsBlobEvent(e) || IsRecordEvent(e))
    ensures SameSuccess(s, Next(s, e).value, e.t)
  {
    hide StripesBelow, TaskOk;
  }

  lemma SameSuccessFlags(s: State, e: Event)
    requires Shape(s) && Next(s, e).Some? && (e.FinishDelete? || IsFlagEvent(e) || IsExitEvent(e))
    ensures SameSuccess(s, Next(s, e).value, e.t)
  {
    hide StripesBelow, RecordsOf, HasBlob, Relocated;
  }

  lemma SameSuccessGc(s: State, e: Event)
    requires Shape(s) && Next(s, e).Some? && (IsGcEvent(e) || IsUnlinkEvent(e))
    ensures SameSuccess(s, Next(s, e).value, e.t)
  {
    hide StripesBelow, RecordsOf, HasBlob;
  }

  lemma CommitsStep(s: State, e: Event)
    requires Shape(s) && CommitsInv(s) && Next(s, e).Some?
    ensures CommitsInv(Next(s, e).value)
  {
    hide Next, Shape, Succeeded, TaskOk, StripeEffect, FileEffect, CountEffect, FlagEffect;
    if e.Spawn? || e.Unfreeze? {
      SpawnCommits(s, e);
    } else {
      StepMoves(s, e);
      if e.Commit? {
        CommitSucceeds(s, e);
      } else if IsGateEvent(e) || IsCheckEvent(e) || IsRefEvent(e) || IsBlobEvent(e) || IsRecordEvent(e) {
        SameSuccessWrites(s, e);
      } else if IsGcEvent(e) || IsUnlinkEvent(e) {
        SameSuccessGc(s, e);
      } else {
        SameSuccessFlags(s, e);
      }
    }
  }

  lemma CommitSucceeds(s: State, e: Event)
    requires Shape(s) && e.Commit? && Next(s, e).Some?
    ensures var s' := Next(s, e).value;
            && e.t in s.tasks && e.t in s'.tasks && s'.commits == s.commits + [e.t]
            && !Succeeded(s.tasks[e.t]) && Succeeded(s'.tasks[e.t])
  {
    hide StripesBelow, RunAll, Superseded, UnrefAll, RaiseFloor;
    assert TaskOk(s.hash, s.tasks[e.t]);
  }

  lemma SpawnCommits(s: State, e: Event)
    requires CommitsInv(s) && Next(s, e).Some? && (e.Spawn? || e.Unfreeze?)
    ensures CommitsInv(Next(s, e).value)
  {
    hide StripesBelow;
  }

  lemma {:induction false} CommitsRun(s: State, es: seq<Event>)
    requires Init(s) && Run(s, es).Some?
    ensures CommitsInv(Run(s, es).value)
    decreases |es|
  {
    hide Next, CommitsInv, StripeInv, FileInv, GateInv, Shape;
    if es == [] {
      InitCommits(s);
    } else {
      CommitsRun(s, es[..|es| - 1]);
      LockInvRun(s, es[..|es| - 1]);
      CommitsStep(Run(s, es[..|es| - 1]).value, es[|es| - 1]);
    }
  }

  lemma InitCommits(s: State)
    requires Init(s)
    ensures CommitsInv(s)
  {
  }

  /** No lost update: the counter ends at `start` plus the deltas of exactly the attempts
      that returned success, each counted once. */
  lemma NoLostIncrement(s0: State, es: seq<Event>, c: Codec, k: Bytes, delta: TaskId -> int, start: int)
    requires Init(s0) && Run(s0, es).Some? && CountingRun(s0, es, c, k, delta) && c.Ok() && Value(s0, c, k, start)
    ensures var s := Run(s0, es).value;
            && Value(s, c, k, start + Sum(delta, s.commits))
            && (forall t :: t in s.commits <==> t in s.tasks && Succeeded(s.tasks[t]))
            && (forall i, j :: 0 <= i < j < |s.commits| ==> s.commits[i] != s.commits[j])
  {
    hide Run, Init, Value, Codec.Ok, TasksCount, CountingRun;
    IncrRun(s0, es, c, k, delta, start);
    CommitsRun(s0, es);
  }
}
