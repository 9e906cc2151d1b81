/** What a write does when it takes effect, in every run: its condition holds at that moment,
    and exactly its own keys change, to what it was given. */
module LogWrites {
  import opened Types
  import opened Records
  import opened NamespaceIndex
  import opened LogMachine
  import opened LogLocks
  import opened LogReplay
  import opened LogCas

  predicate Lapsed(slot: Slot, now: U64) {
    slot.ttl.Some? && slot.ttl.value <= now
  }

  /** What a condition asks of a key. */
  predicate Asks(cond: Condition, slot: Slot, now: U64) {
    match cond
    case KeyAbsent => slot.entry.None? || Lapsed(slot, now)
    case KeyPresent => slot.entry.Some? && !Lapsed(slot, now)
    case Revision(r) => slot.entry.Some? && slot.entry.value.tstamp == r && !Lapsed(slot, now)
  }

  /** What a delete asks: an unconditional one that the key is indexed, expired or not. */
  predicate DeleteAsks(expected: Option<U64>, slot: Slot, now: U64) {
    if expected.Some? then Asks(Revision(expected.value), slot, now) else slot.entry.Some?
  }

  lemma AsksHolds(cond: Condition, idx: Index, k: Bytes, now: U64)
    ensures cond.Holds(idx.LiveRev(k, now)) <==> Asks(cond, idx.At(k), now)
  {
  }

  /** The records are in the segment, one after the other from `offset` on. */
  ghost predicate Placed(log: seq<Record>, offset: nat, recs: seq<Record>) {
    exists n: nat :: PlacedAt(log, offset, recs, n)
  }

  predicate PlacedAt(log: seq<Record>, offset: nat, recs: seq<Record>, n: nat) {
    n + |recs| <= |log| && TotalSize(log[..n]) == offset && log[n..n + |recs|] == recs
  }

  /** A writer past its check still meets its condition; one past its append has its records
      in the segment. */
  ghost predicate TaskWrites(s: State, task: Task) {
    && (Claims(task) && task.op.Ok() && task.op.cond.Some? ==> Asks(task.op.cond.value, s.idx.At(task.op.pairs[0].key), task.op.now))
    && (task.pc.Appended? ==> Placed(s.log, task.pc.offset, task.pc.recs))
  }

  ghost predicate WritesInv(s: State) {
    forall t :: t in s.tasks ==> TaskWrites(s, s.tasks[t])
  }

  lemma PlacedMore(log: seq<Record>, offset: nat, recs: seq<Record>, more: seq<Record>)
    requires Placed(log, offset, recs)
    ensures Placed(log + more, offset, recs)
  {
    var n: nat :| PlacedAt(log, offset, recs, n);
    assert (log + more)[..n] == log[..n] && (log + more)[n..n + |recs|] == log[n..n + |recs|];
    assert PlacedAt(log + more, offset, recs, n);
  }

  lemma PlacedLast(log: seq<Record>, recs: seq<Record>)
    ensures Placed(log + recs, TotalSize(log), recs)
  {
    assert (log + recs)[..|log|] == log && (log + recs)[|log|..|log| + |recs|] == recs;
    assert PlacedAt(log + recs, TotalSize(log), recs, |log|);
  }

  /** The segment only grows, and a writer past its check keeps the slots of its keys. */
  ghost predicate KeepsWrites(s: State, s': State, task: Task) {
    && (task.pc.Appended? ==> s.log <= s'.log)
    && (Claims(task) ==> forall k :: k in KeysOf(task.op) ==> s'.idx.At(k) == s.idx.At(k))
  }

  lemma KeepsTaskWrites(s: State, s': State, task: Task)
    requires TaskWrites(s, task) && KeepsWrites(s, s', task)
    ensures TaskWrites(s', task)
  {
    hide Asks, Placed;
    if task.pc.Appended? {
      assert s'.log == s.log + s'.log[|s.log|..];
      PlacedMore(s.log, task.pc.offset, task.pc.recs, s'.log[|s.log|..]);
    }
    if Claims(task) && task.op.Ok() && task.op.cond.Some? {
      assert task.op.pairs[0] in task.op.pairs;
    }
  }

  lemma WritesFrame(s: State, s': State, t: TaskId)
    requires WritesInv(s) && Moves(s, s', t) && TaskWrites(s', s'.tasks[t])
    requires forall u :: u in s.tasks && u != t ==> KeepsWrites(s, s', s.tasks[u])
    ensures WritesInv(s')
  {
    hide TaskWrites, KeepsWrites, TaskOk, StripeEffect, FileEffect, CountEffect, FlagEffect;
    forall u | u in s'.tasks ensures TaskWrites(s', s'.tasks[u]) {
      if u != t {
        KeepsTaskWrites(s, s', s.tasks[u]);
      }
    }
  }

  /** `t` changes neither index nor segment; it claims its keys only with its condition met. */
  ghost predicate QuietWrite(s: State, s': State, t: TaskId)
    requires t in s.tasks && t in s'.tasks
  {
    && s'.idx == s.idx && s'.log == s.log && s'.tasks[t].op == s.tasks[t].op && !s'.tasks[t].pc.Appended?
    && (Claims(s'.tasks[t]) ==> Claims(s.tasks[t]) || (s.tasks[t].op.Ok() && Met(s.idx, s.tasks[t].op)))
  }

  lemma QuietWriteStep(s: State, s': State, t: TaskId)
    requires WritesInv(s) && Moves(s, s', t) && QuietWrite(s, s', t)
    ensures WritesInv(s')
  {
    hide TaskOk, StripeEffect, FileEffect, CountEffect, FlagEffect, Pc.InFlight, Placed, Asks, Condition.Holds;
    var task := s.tasks[t];
    assert TaskWrites(s, task);
    if task.op.Write? && task.op.Ok() && task.op.cond.Some? {
      AsksHolds(task.op.cond.value, s.idx, task.op.pairs[0].key, task.op.now);
    }
    WritesFrame(s, s', t);
  }

  lemma QuietWriteEvents(s: State, e: Event)
    requires Shape(s) && IsQuiet(e) && Next(s, e).Some?
    ensures e.t in s.tasks && e.t in Next(s, e).value.tasks && QuietWrite(s, Next(s, e).value, e.t)
  {
    hide Shape, Next, QuietEffect, TickEffect;
    StepMoves(s, e);
    QuietData(s, e);
    QuietClaims(s, e);
  }

  lemma QuietClaims(s: State, e: Event)
    requires Shape(s) && IsQuiet(e) && Next(s, e).Some? && e.t in s.tasks && e.t in Next(s, e).value.tasks
    ensures Claims(Next(s, e).value.tasks[e.t]) ==> Claims(s.tasks[e.t]) || (s.tasks[e.t].op.Ok() && Met(s.idx, s.tasks[e.t].op))
  {
    hide Shape, Next, Claims, Met;
    if e.Stamp? {
      var _ := StampTicks(s, e);
    } else {
      QuietEvents(s, e);
    }
  }

  lemma AppendWrites(s: State, s': State, t: TaskId, rs: seq<Record>)
    requires WritesInv(s) && Appends(s, s', t, rs) && (Claims(s'.tasks[t]) ==> Claims(s.tasks[t]))
    ensures WritesInv(s')
  {
    hide TaskOk, StripeEffect, FileEffect, CountEffect, FlagEffect, Claims, Placed, Asks, StripeOf;
    assert TaskWrites(s, s.tasks[t]);
    PlacedLast(s.log, rs);
    WritesFrame(s, s', t);
  }

  lemma AppendClaims(s: State, e: Event)
    requires Shape(s) && (e.Append? || e.AppendTtl?) && Next(s, e).Some?
    ensures e.t in s.tasks && e.t in Next(s, e).value.tasks
    ensures Claims(Next(s, e).value.tasks[e.t]) ==> Claims(s.tasks[e.t])
  {
    hide StripesBelow, PairRecords;
  }

  /** `t` changes the slots of its own keys and leaves. */
  ghost predicate TakesEffect(s: State, s': State, t: TaskId)
    requires t in s.tasks && t in s'.tasks
  {
    && s.log <= s'.log && !s'.tasks[t].pc.Appended? && !Claims(s'.tasks[t])
    && forall k :: k !in KeysOf(s.tasks[t].op) ==> s'.idx.At(k) == s.idx.At(k)
  }

  lemma EffectStep(s: State, s': State, t: TaskId)
    requires Shape(s) && StripeInv(s) && WritesInv(s) && Moves(s, s', t) && TakesEffect(s, s', t)
    requires s.tasks[t].pc.InFlight() && (s.tasks[t].pc.Locking? ==> Locked(s, t))
    ensures WritesInv(s')
  {
    hide StripeInv, StripeEffect, FileEffect, CountEffect, FlagEffect, TaskOk, Pc.InFlight, KeysOf, TaskWrites;
    forall u | u in s.tasks && u != t ensures KeepsWrites(s, s', s.tasks[u]) {
      if Claims(s.tasks[u]) {
        forall k | k in KeysOf(s.tasks[u].op) ensures k !in KeysOf(s.tasks[t].op) {
          if k in KeysOf(s.tasks[t].op) {
            KeysDisjoint(s, t, u, k);
          }
        }
      }
    }
    NoWrites(s', s'.tasks[t]);
    WritesFrame(s, s', t);
  }

  lemma NoWrites(s: State, task: Task)
    requires !Claims(task) && !task.pc.Appended?
    ensures TaskWrites(s, task)
  {
  }

  lemma CommitEffect(s: State, e: Event)
    requires Shape(s) && e.Commit? && Next(s, e).Some?
    ensures e.t in s.tasks && e.t in Next(s, e).value.tasks && TakesEffect(s, Next(s, e).value, e.t)
    ensures s.tasks[e.t].pc.Appended?
  {
    hide Shape, RunAll, UnrefAll, Superseded, RaiseFloor, KeysOf;
    forall k | k !in KeysOf(s.tasks[e.t].op) ensures Next(s, e).value.idx.At(k) == s.idx.At(k) {
      CommitOtherKeys(s, e.t, k);
    }
  }

  lemma DropEffect(s: State, e: Event)
    requires e.Drop? && Next(s, e).Some?
    ensures e.t in s.tasks && e.t in Next(s, e).value.tasks && TakesEffect(s, Next(s, e).value, e.t)
    ensures s.tasks[e.t].pc.Locking? && Locked(s, e.t)
  {
    hide Index.Remove;
  }

  lemma ResetWrites(s: State, e: Event)
    requires LockInv(s) && IsReset(e) && Next(s, e).Some?
    ensures WritesInv(Next(s, e).value)
  {
    hide Next, Shape, StripeInv, FileInv, GateInv, TaskWrites;
    LockInvStep(s, e);
    ResetData(s, e);
    var s' := Next(s, e).value;
    NoneInFlight(s');
    forall t | t in s'.tasks ensures TaskWrites(s', s'.tasks[t]) {
      NoWrites(s', s'.tasks[t]);
    }
  }

  lemma SpawnWrites(s: State, e: Event)
    requires WritesInv(s) && e.Spawn? && Next(s, e).Some?
    ensures WritesInv(Next(s, e).value)
  {
    hide StripesBelow, TaskWrites;
    var s' := Next(s, e).value;
    forall u | u in s'.tasks ensures TaskWrites(s', s'.tasks[u]) {
      if u in s.tasks {
        assert TaskWrites(s, s.tasks[u]);
        KeepsTaskWrites(s, s', s.tasks[u]);
      } else {
        NoWrites(s', s'.tasks[u]);
      }
    }
  }

  lemma WritesStep(s: State, e: Event)
    requires LockInv(s) && WritesInv(s) && Next(s, e).Some?
    ensures WritesInv(Next(s, e).value)
  {
    hide Next, WritesInv, Moves, QuietWrite, Appends, TakesEffect, Shape, StripeInv, FileInv, GateInv, Claims, Locked;
    var s' := Next(s, e).value;
    if e.Spawn? {
      SpawnWrites(s, e);
    } else if IsReset(e) {
      ResetWrites(s, e);
    } else {
      StepMoves(s, e);
      if e.Commit? {
        CommitEffect(s, e);
        EffectStep(s, s', e.t);
      } else if e.Drop? {
        DropEffect(s, e);
        EffectStep(s, s', e.t);
      } else if e.Append? || e.AppendTtl? {
        var rs := AppendAppends(s, e);
        AppendClaims(s, e);
        AppendWrites(s, s', e.t, rs);
      } else {
        QuietWriteEvents(s, e);
        QuietWriteStep(s, s', e.t);
      }
    }
  }

  /** In every reachable state. */
  lemma {:induction false} WritesRun(s: State, es: seq<Event>)
    requires Init(s) && Run(s, es).Some?
    ensures WritesInv(Run(s, es).value)
    decreases |es|
  {
    hide Next, LockInv, TaskWrites;
    if es != [] {
      WritesRun(s, es[..|es| - 1]);
      LockInvRun(s, es[..|es| - 1]);
      WritesStep(Run(s, es[..|es| - 1]).value, es[|es| - 1]);
    }
  }

  lemma PlacedRecord(log: seq<Record>, offset: nat, recs: seq<Record>, i: nat)
    requires Placed(log, offset, recs) && i < |recs|
    ensures RecordAt(log, offset + TotalSize(recs[..i])) == Some(recs[i])
  {
    var n: nat :| PlacedAt(log, offset, recs, n);
    assert log[..n + i] == log[..n] + recs[..i];
    TotalSizeAppend(log[..n], recs[..i]);
    RecordAtStart(log, n + i);
  }

  /** The last full record of a key in a batch decides its slot. */
  lemma {:induction false} LastMention(slot: Slot, k: Bytes, fileId: nat, offset: nat, rs: seq<Record>, i: nat)
    requires i < |rs| && rs[i].key == k && rs[i].IsFull() && forall j :: i < j < |rs| ==> rs[j].key != k
    ensures RunSlots(slot, k, fileId, offset, rs)
            == Slot(Some(IndexEntry(fileId, offset + TotalSize(rs[..i]), rs[i].Size(), rs[i].tstamp)), rs[i].Expiry(), rs[i].Blob())
    decreases |rs|
  {
    var next := RunSlot(slot, k, fileId, offset, rs[0]);
    if i == 0 {
      UnmentionedSlots(next, k, fileId, offset + rs[0].Size(), rs[1..]);
    } else {
      LastMention(next, k, fileId, offset + rs[0].Size(), rs[1..], i - 1);
      assert rs[..i] == [rs[0]] + rs[1..][..i - 1];
      TotalSizeCons(rs[0], rs[1..][..i - 1]);
    }
  }

  /** The slot of a pair's key, and the record it points at, are what the pair says. */
  ghost predicate Shows(s: State, p: Pair, rev: U64) {
    && var slot := s.idx.At(p.key);
    && slot.entry.Some? && slot.entry.value.fileId == s.fileId && slot.entry.value.tstamp == rev
    && slot.ttl == p.expires && slot.blob == (if p.separated && |p.stored| == 16 then Some(p.stored) else None)
    && RecordAt(s.log, slot.entry.value.offset).Some?
    && var r := RecordAt(s.log, slot.entry.value.offset).value;
       r.key == p.key && r.value == p.stored && r.meta == p.meta && r.Expiry() == p.expires && r.tstamp == rev && r.IsFull()
  }

  /** When a put takes effect, in any run: its condition holds at that moment whatever other
      tasks did since it was checked; every pair not overwritten later in its own batch is what
      its key then shows, under the revision replied for it; no other key changes. */
  lemma PutTakesEffect(s0: State, es: seq<Event>, t: TaskId)
    requires Init(s0) && Run(s0, es + [Commit(t)]).Some?
    requires t in Run(s0, es + [Commit(t)]).value.tasks && Run(s0, es + [Commit(t)]).value.tasks[t].op.Write?
    ensures Run(s0, es).Some?
    ensures var s, s' := Run(s0, es).value, Run(s0, es + [Commit(t)]).value;
            var op, result := s'.tasks[t].op, s'.tasks[t].pc;
            && result.Done? && result.result.Success? && |result.result.revs| == |op.pairs|
            && (op.cond.Some? ==> |op.pairs| == 1 && Asks(op.cond.value, s.idx.At(op.pairs[0].key), op.now))
            && (forall i :: 0 <= i < |op.pairs| && (forall j :: i < j < |op.pairs| ==> op.pairs[j].key != op.pairs[i].key) ==>
                  Shows(s', op.pairs[i], result.result.revs[i]))
            && (forall k :: k !in KeysOf(op) ==> s'.idx.At(k) == s.idx.At(k))
  {
    hide Next, LockInv, TaskWrites, Asks, Shows;
    var all := es + [Commit(t)];
    assert all[..|all| - 1] == es;
    var s, s' := Run(s0, es).value, Run(s0, all).value;
    LockInvRun(s0, es);
    WritesRun(s0, es);
    CommitShows(s, t);
  }

  lemma CommitShows(s: State, t: TaskId)
    requires LockInv(s) && WritesInv(s) && Next(s, Commit(t)).Some?
    requires t in Next(s, Commit(t)).value.tasks && Next(s, Commit(t)).value.tasks[t].op.Write?
    ensures var s' := Next(s, Commit(t)).value;
            var op, result := s'.tasks[t].op, s'.tasks[t].pc;
            && result.Done? && result.result.Success? && |result.result.revs| == |op.pairs|
            && (op.cond.Some? ==> |op.pairs| == 1 && Asks(op.cond.value, s.idx.At(op.pairs[0].key), op.now))
            && (forall i :: 0 <= i < |op.pairs| && (forall j :: i < j < |op.pairs| ==> op.pairs[j].key != op.pairs[i].key) ==>
                  Shows(s', op.pairs[i], result.result.revs[i]))
            && (forall k :: k !in KeysOf(op) ==> s'.idx.At(k) == s.idx.At(k))
  {
    hide StripeInv, FileInv, GateInv, RunAll, UnrefAll, Superseded, RaiseFloor, StripesBelow, Asks, Shows, KeysOf, Placed, Pair.ToRecord;
    var s', task := Next(s, Commit(t)).value, s.tasks[t];
    assert TaskOk(s.hash, task) && TaskWrites(s, task);
    ClaimMentions(s, t);
    CommitEffect(s, Commit(t));
    forall i | 0 <= i < |task.op.pairs| && forall j :: i < j < |task.op.pairs| ==> task.op.pairs[j].key != task.op.pairs[i].key
      ensures Shows(s', task.op.pairs[i], task.pc.recs[i].tstamp)
    {
      PairShows(s, s', task, i);
    }
  }

  lemma PairShows(s: State, s': State, task: Task, i: nat)
    requires task.op.Ok() && task.op.Write? && task.pc.Appended? && RecordsOf(task.op, task.pc.recs) && i < |task.op.pairs|
    requires forall j :: i < j < |task.op.pairs| ==> task.op.pairs[j].key != task.op.pairs[i].key
    requires Placed(s.log, task.pc.offset, task.pc.recs) && s'.log == s.log && s'.fileId == s.fileId
    requires s'.idx == RunAll(s.idx, s.fileId, task.pc.offset, task.pc.recs)
    ensures Shows(s', task.op.pairs[i], task.pc.recs[i].tstamp)
  {
    hide Placed, RunAll, RunSlots, RecordAt, TotalSize;
    var rs, k := task.pc.recs, task.op.pairs[i].key;
    PlacedRecord(s.log, task.pc.offset, rs, i);
    RunAllAt(s.idx, s.fileId, task.pc.offset, rs, k);
    forall j | i < j < |rs| ensures rs[j].key != k {
      assert rs[j] == task.op.pairs[j].ToRecord(rs[j].tstamp);
    }
    LastMention(s.idx.At(k), k, s.fileId, task.pc.offset, rs, i);
  }

  /** When a delete takes effect the key is there, live and at the expected revision if one was
      given; then the key is gone and its tombstone is the last record of the segment. */
  lemma DeleteTakesEffect(s0: State, es: seq<Event>, t: TaskId, clock: U64)
    requires Init(s0) && Run(s0, es + [Drop(t, clock)]).Some?
    ensures Run(s0, es).Some?
    ensures var s, s' := Run(s0, es).value, Run(s0, es + [Drop(t, clock)]).value;
            && t in s.tasks && s.tasks[t].op.Delete?
            && var op := s.tasks[t].op;
            && DeleteAsks(op.expected, s.idx.At(op.key), op.now)
            && s'.idx.At(op.key) == Slot(None, None, None) && (forall k :: k != op.key ==> s'.idx.At(k) == s.idx.At(k))
            && |s'.log| == |s.log| + 1 && s.log <= s'.log
            && var r := s'.log[|s.log|]; r.IsTombstone() && r.key == op.key && r.tstamp > s.last
  {
    hide Next, Init, Asks, DeleteAsks;
    var all := es + [Drop(t, clock)];
    assert all[..|all| - 1] == es;
    DropShows(Run(s0, es).value, t, clock);
  }

  lemma DropShows(s: State, t: TaskId, clock: U64)
    requires Next(s, Drop(t, clock)).Some?
    ensures var s' := Next(s, Drop(t, clock)).value;
            && t in s.tasks && s.tasks[t].op.Delete?
            && var op := s.tasks[t].op;
            && DeleteAsks(op.expected, s.idx.At(op.key), op.now)
            && s'.idx.At(op.key) == Slot(None, None, None) && (forall k :: k != op.key ==> s'.idx.At(k) == s.idx.At(k))
            && |s'.log| == |s.log| + 1 && s.log <= s'.log
            && var r := s'.log[|s.log|]; r.IsTombstone() && r.key == op.key && r.tstamp > s.last
  {
    hide Index.Remove, Index.LiveRev, Asks, Condition.Holds;
    var op := s.tasks[t].op;
    if op.expected.Some? {
      AsksHolds(Revision(op.expected.value), s.idx, op.key, op.now);
      RevisionHolds(op.expected.value, s.idx.LiveRev(op.key, op.now));
    }
  }

  /** A write or delete is turned away only when its condition does not hold. */
  lemma MissMeansUnmet(s: State, t: TaskId)
    requires Next(s, Miss(t)).Some?
    ensures t in s.tasks
    ensures var op := s.tasks[t].op;
            || (op.Write? && op.cond.Some? && |op.pairs| == 1 && !Asks(op.cond.value, s.idx.At(op.pairs[0].key), op.now))
            || (op.Delete? && !DeleteAsks(op.expected, s.idx.At(op.key), op.now))
  {
    hide Asks, Condition.Holds;
    var op := s.tasks[t].op;
    if op.Write? && op.cond.Some? {
      AsksHolds(op.cond.value, s.idx, op.pairs[0].key, op.now);
    }
    if op.Delete? && op.expected.Some? {
      AsksHolds(Revision(op.expected.value), s.idx, op.key, op.now);
      RevisionHolds(op.expected.value, s.idx.LiveRev(op.key, op.now));
    }
  }

  lemma RevisionHolds(r: U64, live: Option<U64>)
    ensures Revision(r).Holds(live) <==> live == Some(r)
  {
  }

  /** What a task must have done when it ends this way. */
  ghost predicate Earned(s: State, task: Task, result: Result) {
    match result
    case Success(_) =>
      (match task.op
       case Write(_, _, _) => task.pc.Appended?
       case Expire(_, _) => task.pc.Appended?
       case Delete(_, _, _) => task.pc.Removed?
       case Sync => task.pc == Collecting([])
       case _ => task.pc.Sealing? && s.inFlight == 0)
    case Refused => (task.op.IsWriter() && s.frozen) || (task.op.Reclaim? && s.reclaiming.Some?)
    case NotMet => (task.op.Write? || task.op.Delete?) && task.pc.Locking? && task.op.Ok() && !Met(s.idx, task.op)
    case Failed => task.op.Write? && task.pc.BlobWrite?
  }

  /** No outcome is reported that was not earned: success only after the work, a refusal only
      by the freeze or another reclaim, and a refusal changes nothing. */
  ghost predicate Honest(s: State, s': State, t: TaskId) {
    && t in s.tasks && t in s'.tasks
    && (s'.tasks[t].pc.Done? ==>
          && Earned(s, s.tasks[t], s'.tasks[t].pc.result)
          && (s'.tasks[t].pc.result.Refused? ==> s' == s.(tasks := s.tasks[t := s.tasks[t].(pc := Done(Refused))])))
  }

  lemma HonestWrites(s: State, e: Event)
    requires LockInv(s) && Next(s, e).Some? && (IsGateEvent(e) || IsCheckEvent(e) || IsRefEvent(e))
    ensures Honest(s, Next(s, e).value, e.t)
  {
    hide StripesBelow, StripeInv, FileInv, GateInv, Shape;
  }

  lemma HonestRecords(s: State, e: Event)
    requires LockInv(s) && Next(s, e).Some? && (IsBlobEvent(e) || IsRecordEvent(e))
    ensures Honest(s, Next(s, e).value, e.t)
  {
    hide StripesBelow, StripeInv, FileInv, GateInv, PairRecords, Shape;
  }

  lemma HonestCommits(s: State, e: Event)
    requires LockInv(s) && Next(s, e).Some? && IsCommitEvent(e)
    ensures Honest(s, Next(s, e).value, e.t)
  {
    hide StripesBelow, StripeInv, FileInv, GateInv, RunAll, UnrefAll, Superseded, RaiseFloor;
    assert TaskOk(s.hash, s.tasks[e.t]);
  }

  lemma HonestFlags(s: State, e: Event)
    requires LockInv(s) && Next(s, e).Some? && (IsFlagEvent(e) || IsExitEvent(e))
    ensures Honest(s, Next(s, e).value, e.t)
  {
    hide StripesBelow, StripeInv, FileInv, Relocated, Shape;
  }

  lemma HonestGc(s: State, e: Event)
    requires LockInv(s) && Next(s, e).Some? && (IsGcEvent(e) || IsUnlinkEvent(e))
    ensures Honest(s, Next(s, e).value, e.t)
  {
    hide StripesBelow, StripeInv, FileInv, GateInv, Shape;
    CollectorsSync(s, e.t);
  }

  lemma CollectorsSync(s: State, t: TaskId)
    requires Shape(s)
    ensures t in s.tasks && s.tasks[t].pc.Collecting? ==> s.tasks[t].op.Sync?
  {
    if t in s.tasks {
      assert TaskOk(s.hash, s.tasks[t]);
    }
  }

  lemma OutcomesHonest(s0: State, es: seq<Event>, e: Event)
    requires Init(s0) && Run(s0, es).Some? && Next(Run(s0, es).value, e).Some? && !e.Spawn? && !e.Unfreeze?
    ensures Honest(Run(s0, es).value, Next(Run(s0, es).value, e).value, e.t)
  {
    hide Init, Next, LockInv, Honest;
    var s := Run(s0, es).value;
    LockInvRun(s0, es);
    if IsGateEvent(e) || IsCheckEvent(e) || IsRefEvent(e) {
      HonestWrites(s, e);
    } else if IsBlobEvent(e) || IsRecordEvent(e) {
      HonestRecords(s, e);
    } else if IsCommitEvent(e) {
      HonestCommits(s, e);
    } else if IsFlagEvent(e) || IsExitEvent(e) {
      HonestFlags(s, e);
    } else {
      HonestGc(s, e);
    }
  }

  /** When a flush takes effect nothing is left of the namespace, and the revision moves on. */
  lemma FlushTakesEffect(s: State, t: TaskId, fileId: nat, clock: U64)
    requires Next(s, EndFlush(t, fileId, clock)).Some?
    ensures var s' := Next(s, EndFlush(t, fileId, clock)).value;
            && s'.last > s.last && s'.log == [] && s'.blobs.pending == [] && s'.blobs.onDisk == {}
            && (forall k :: s'.idx.At(k) == Slot(None, None, None)) && forall h :: s'.blobs.Count(h) == 0
  {
  }

  /** When a TTL update takes effect only the expiry of its key changes, to what was asked. */
  lemma ExpireTakesEffect(s0: State, es: seq<Event>, t: TaskId)
    requires Init(s0) && Run(s0, es + [Commit(t)]).Some?
    requires t in Run(s0, es + [Commit(t)]).value.tasks && Run(s0, es + [Commit(t)]).value.tasks[t].op.Expire?
    ensures Run(s0, es).Some?
    ensures var s, s' := Run(s0, es).value, Run(s0, es + [Commit(t)]).value;
            var op := s'.tasks[t].op;
            forall k :: s'.idx.At(k) == if k == op.key then s.idx.At(k).(ttl := op.expires) else s.idx.At(k)
  {
    hide Next, Init, LockInv;
    var all := es + [Commit(t)];
    assert all[..|all| - 1] == es;
    LockInvRun(s0, es);
    TtlShows(Run(s0, es).value, t);
  }

  lemma TtlShows(s: State, t: TaskId)
    requires LockInv(s) && Next(s, Commit(t)).Some?
    requires t in Next(s, Commit(t)).value.tasks && Next(s, Commit(t)).value.tasks[t].op.Expire?
    ensures var s' := Next(s, Commit(t)).value;
            var op := s'.tasks[t].op;
            forall k :: s'.idx.At(k) == if k == op.key then s.idx.At(k).(ttl := op.expires) else s.idx.At(k)
  {
    hide StripesBelow, StripeInv, FileInv, GateInv, UnrefAll, Superseded, RaiseFloor, Index.SetTtl;
    var pc := s.tasks[t].pc;
    assert TaskOk(s.hash, s.tasks[t]);
    assert pc.recs[1..] == [];
    assert RunAll(s.idx, s.fileId, pc.offset, pc.recs) == RunRecord(s.idx, s.fileId, pc.offset, pc.recs[0]);
  }
}
