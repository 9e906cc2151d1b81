/** Replaying the active segment reproduces the runtime index. */
module LogReplay {
  import opened Types
  import opened Records
  import opened NamespaceIndex
  import opened Recover
  import opened LogMachine
  import opened LogLocks

  /** The same record under the same expiry; the replayed blob sidecar covers the
      runtime one but may keep the hash of an overwritten separated value. */
  ghost predicate Agrees(run: Slot, replayed: Slot) {
    && run.entry == replayed.entry
    && (run.entry.Some? ==> run.ttl == replayed.ttl)
    && (run.entry.Some? && run.blob.Some? ==> run.blob == replayed.blob)
  }

  /** The part of `RunRecord` that concerns key `k`. */
  function RunSlot(s: Slot, k: Bytes, fileId: nat, offset: nat, r: Record): Slot {
    if r.key != k then s
    else if r.IsTombstone() then Slot(None, None, None)
    else if r.IsTtlUpdate() then s.(ttl := r.Expiry())
    else Slot(Some(IndexEntry(fileId, offset, r.Size(), r.tstamp)), r.Expiry(), r.Blob())
  }

  function RunSlots(s: Slot, k: Bytes, fileId: nat, offset: nat, rs: seq<Record>): Slot
    decreases |rs|
  {
    if rs == [] then s
    else RunSlots(RunSlot(s, k, fileId, offset, rs[0]), k, fileId, offset + rs[0].Size(), rs[1..])
  }

  lemma RunRecordAt(idx: Index, fileId: nat, offset: nat, r: Record, k: Bytes)
    ensures RunRecord(idx, fileId, offset, r).At(k) == RunSlot(idx.At(k), k, fileId, offset, r)
  {
  }

  lemma {:induction false} RunAllAt(idx: Index, fileId: nat, offset: nat, rs: seq<Record>, k: Bytes)
    ensures RunAll(idx, fileId, offset, rs).At(k) == RunSlots(idx.At(k), k, fileId, offset, rs)
    decreases |rs|
  {
    hide RunRecord, RunSlot;
    if rs != [] {
      RunRecordAt(idx, fileId, offset, rs[0], k);
      RunAllAt(RunRecord(idx, fileId, offset, rs[0]), fileId, offset + rs[0].Size(), rs[1..], k);
    }
  }

  lemma AgreeRecord(a: Slot, b: Slot, k: Bytes, fileId: nat, offset: nat, r: Record)
    requires Agrees(a, b) && r.Fits()
    ensures Agrees(RunSlot(a, k, fileId, offset, r), ApplySlot(b, k, fileId, offset, r))
  {
  }

  lemma {:induction false} AgreeRecords(a: Slot, b: Slot, k: Bytes, fileId: nat, offset: nat, rs: seq<Record>)
    requires Agrees(a, b) && AllFit(rs)
    ensures Agrees(RunSlots(a, k, fileId, offset, rs), ReplaySlot(b, k, fileId, offset, rs))
    decreases |rs|
  {
    hide Agrees, RunSlot, ApplySlot;
    if rs != [] {
      AgreeRecord(a, b, k, fileId, offset, rs[0]);
      AgreeRecords(RunSlot(a, k, fileId, offset, rs[0]), ApplySlot(b, k, fileId, offset, rs[0]),
                   k, fileId, offset + rs[0].Size(), rs[1..]);
    }
  }

  predicate Mentions(rs: seq<Record>, k: Bytes) {
    exists i :: 0 <= i < |rs| && rs[i].key == k
  }

  lemma MentionsCons(rs: seq<Record>, k: Bytes)
    requires rs != []
    ensures Mentions(rs, k) <==> rs[0].key == k || Mentions(rs[1..], k)
  {
    if Mentions(rs[1..], k) {
      var i :| 0 <= i < |rs[1..]| && rs[1..][i].key == k;
      assert rs[i + 1].key == k;
    }
    if Mentions(rs, k) && rs[0].key != k {
      var i :| 0 <= i < |rs| && rs[i].key == k;
      assert rs[1..][i - 1].key == k;
    }
  }

  lemma {:induction false} UnmentionedSlots(s: Slot, k: Bytes, fileId: nat, offset: nat, rs: seq<Record>)
    requires !Mentions(rs, k)
    ensures RunSlots(s, k, fileId, offset, rs) == s && ReplaySlot(s, k, fileId, offset, rs) == s
    decreases |rs|
  {
    if rs != [] {
      MentionsCons(rs, k);
      UnmentionedSlots(s, k, fileId, offset + rs[0].Size(), rs[1..]);
    }
  }

  /** The records of the write that holds `k`'s stripe, when they are reserved but not
      yet in the index, and where they start. */
  function Pending(s: State, k: Bytes): (nat, seq<Record>) {
    var i := StripeOf(s.hash, k);
    if i in s.stripes && s.stripes[i] in s.tasks && s.tasks[s.stripes[i]].pc.Appended?
    then (s.tasks[s.stripes[i]].pc.offset, s.tasks[s.stripes[i]].pc.recs)
    else (0, [])
  }

  ghost predicate AgreesAt(s: State, k: Bytes) {
    Agrees(RunSlots(s.idx.At(k), k, s.fileId, Pending(s, k).0, Pending(s, k).1),
           ReplaySlot(s.base.At(k), k, s.fileId, 0, s.log))
  }

  /** Once the pending records of its stripe's owner are counted in, the runtime index
      agrees with a replay of the segment, key by key. */
  ghost predicate ReplayInv(s: State) {
    forall k :: AgreesAt(s, k)
  }

  /** Neither the index nor the segment changes. */
  predicate SameData(s: State, s': State) {
    s'.idx == s.idx && s'.base == s.base && s'.log == s.log && s'.fileId == s.fileId
  }

  /** The owner of a stripe other than `t` keeps it. */
  lemma PendingElsewhere(s: State, s': State, t: TaskId, k: Bytes)
    requires StripeInv(s) && Moves(s, s', t)
    requires !s.tasks[t].pc.Appended? && !s'.tasks[t].pc.Appended?
    ensures Pending(s', k) == Pending(s, k)
  {
    hide TaskOk, Task.Held, FileEffect, CountEffect, FlagEffect, StripeOf;
  }

  lemma QuietStep(s: State, s': State, t: TaskId)
    requires StripeInv(s) && ReplayInv(s) && Moves(s, s', t) && SameData(s, s')
    requires !s.tasks[t].pc.Appended? && !s'.tasks[t].pc.Appended?
    ensures ReplayInv(s')
  {
    hide Moves, StripeInv, Pending, RunSlots, ReplaySlot, Agrees;
    forall k
      ensures AgreesAt(s', k)
    {
      assert AgreesAt(s, k);
      PendingElsewhere(s, s', t, k);
    }
  }

  /** Past the locking phase a writer owns the stripe of each of its keys. */
  lemma OwnsKeys(s: State, t: TaskId, k: Bytes)
    requires Shape(s) && StripeInv(s) && t in s.tasks && k in KeysOf(s.tasks[t].op)
    requires s.tasks[t].pc.InFlight() && (s.tasks[t].pc.Locking? ==> Locked(s, t))
    ensures StripeOf(s.hash, k) in s.stripes && s.stripes[StripeOf(s.hash, k)] == t
  {
    hide StripesBelow, StripeOf;
    var task := s.tasks[t];
    assert TaskOk(s.hash, task);
    assert StripeOf(s.hash, k) in task.need;
    assert task.need[..|task.need|] == task.need;
    assert StripeOf(s.hash, k) in task.Held();
  }

  /** Records of the active segment: a writer appends `rs` and changes no index entry. */
  ghost predicate Appends(s: State, s': State, t: TaskId, rs: seq<Record>) {
    && Moves(s, s', t)
    && s'.idx == s.idx && s'.base == s.base && s'.fileId == s.fileId && s'.stripes == s.stripes
    && s'.log == s.log + rs && s'.tasks[t].pc == Appended(TotalSize(s.log), rs)
    && !s.tasks[t].pc.Appended?
    && AllFit(rs)
    && forall i :: 0 <= i < |rs| ==> StripeOf(s.hash, rs[i].key) in s.stripes && s.stripes[StripeOf(s.hash, rs[i].key)] == t
  }

  lemma PendingAppends(s: State, s': State, t: TaskId, rs: seq<Record>, k: Bytes)
    requires StripeInv(s) && Appends(s, s', t, rs)
    ensures Mentions(rs, k) ==> Pending(s, k) == (0, []) && Pending(s', k) == (TotalSize(s.log), rs)
    ensures !Mentions(rs, k) ==> Pending(s', k) == Pending(s, k) || (Pending(s, k).1 == [] && Pending(s', k).1 == rs)
  {
    hide TaskOk, FileEffect, CountEffect, FlagEffect, StripeEffect, StripeOf;
    if Mentions(rs, k) {
      var i :| 0 <= i < |rs| && rs[i].key == k;
    }
  }

  lemma AppendsStep(s: State, s': State, t: TaskId, rs: seq<Record>)
    requires StripeInv(s) && ReplayInv(s) && Appends(s, s', t, rs)
    ensures ReplayInv(s')
  {
    forall k
      ensures AgreesAt(s', k)
    {
      hide Moves, StripeInv, Pending, RunSlots, ReplaySlot, Agrees;
      assert AgreesAt(s, k);
      PendingAppends(s, s', t, rs, k);
      ReplaySlotAppend(s.base.At(k), k, s.fileId, 0, s.log, rs);
      var replayed := ReplaySlot(s.base.At(k), k, s.fileId, 0, s.log);
      if Mentions(rs, k) {
        NothingPending(s.idx.At(k), k, s.fileId, 0);
        AgreeRecords(s.idx.At(k), replayed, k, s.fileId, TotalSize(s.log), rs);
      } else {
        UnmentionedSlots(replayed, k, s.fileId, TotalSize(s.log), rs);
        NothingPending(s.idx.At(k), k, s.fileId, Pending(s, k).0);
        UnmentionedSlots(s.idx.At(k), k, s.fileId, Pending(s', k).0, rs);
      }
    }
  }

  lemma NothingPending(slot: Slot, k: Bytes, fileId: nat, offset: nat)
    ensures RunSlots(slot, k, fileId, offset, []) == slot
  {
  }

  lemma RecordKeys(op: Op, recs: seq<Record>, i: nat)
    requires op.Ok() && RecordsOf(op, recs) && i < |recs|
    ensures recs[i].key in KeysOf(op) && recs[i].Fits()
  {
    if op.Write? {
      assert op.pairs[i] in op.pairs;
    }
  }

  lemma PendingCommit(s: State, s': State, t: TaskId, k: Bytes)
    requires LockInv(s) && Moves(s, s', t)
    requires s.tasks[t].pc.Appended? && !s'.tasks[t].pc.InFlight()
    ensures (Pending(s, k) == (s.tasks[t].pc.offset, s.tasks[t].pc.recs) && Pending(s', k) == (0, []))
            || (Pending(s', k) == Pending(s, k) && !Mentions(s.tasks[t].pc.recs, k))
  {
    hide FileInv, GateInv, FileEffect, CountEffect, FlagEffect, StripeOf, StripesBelow;
    var task := s.tasks[t];
    assert TaskOk(s.hash, task);
    if Mentions(task.pc.recs, k) {
      var i :| 0 <= i < |task.pc.recs| && task.pc.recs[i].key == k;
      RecordKeys(task.op, task.pc.recs, i);
      OwnsKeys(s, t, k);
    }
  }

  lemma CommitStep(s: State, e: Event)
    requires LockInv(s) && ReplayInv(s) && e.Commit? && Next(s, e).Some?
    ensures ReplayInv(Next(s, e).value)
  {
    var s' := Next(s, e).value;
    StepMoves(s, e);
    var pc := s.tasks[e.t].pc;
    assert s'.idx == RunAll(s.idx, s.fileId, pc.offset, pc.recs);
    assert s'.base == s.base && s'.log == s.log && s'.fileId == s.fileId;
    assert !s'.tasks[e.t].pc.InFlight();
    forall k
      ensures AgreesAt(s', k)
    {
      hide Next, Moves, LockInv, Pending, RunSlots, ReplaySlot, Agrees, RunAll;
      assert AgreesAt(s, k);
      PendingCommit(s, s', e.t, k);
      RunAllAt(s.idx, s.fileId, pc.offset, pc.recs, k);
      if Pending(s', k) == (0, []) && Pending(s, k) == (pc.offset, pc.recs) {
        NothingPending(s'.idx.At(k), k, s.fileId, 0);
      } else {
        UnmentionedSlots(s.idx.At(k), k, s.fileId, pc.offset, pc.recs);
      }
    }
  }

  /** A deleting task drops the key and reserves its tombstone in one step. */
  ghost predicate Drops(s: State, s': State, t: TaskId, tomb: Record) {
    && Moves(s, s', t)
    && tomb.IsTombstone()
    && s'.idx == s.idx.Remove(tomb.key) && s'.log == s.log + [tomb]
    && s'.base == s.base && s'.fileId == s.fileId
    && !s.tasks[t].pc.Appended? && !s'.tasks[t].pc.Appended?
    && Pending(s, tomb.key) == (0, [])
  }

  lemma DropsAt(s: State, s': State, t: TaskId, tomb: Record, k: Bytes)
    requires StripeInv(s) && AgreesAt(s, k) && Drops(s, s', t, tomb)
    ensures AgreesAt(s', k)
  {
    hide Moves, StripeInv, Pending, RunSlots, ReplaySlot, Index.Remove;
    PendingElsewhere(s, s', t, k);
    ReplaySlotAppend(s.base.At(k), k, s.fileId, 0, s.log, [tomb]);
    OneRecord(ReplaySlot(s.base.At(k), k, s.fileId, 0, s.log), k, s.fileId, TotalSize(s.log), tomb);
    NothingPending(s'.idx.At(k), k, s.fileId, 0);
  }

  lemma LockedPending(s: State, t: TaskId, k: Bytes)
    requires LockInv(s) && Locked(s, t) && k in KeysOf(s.tasks[t].op)
    ensures Pending(s, k) == (0, [])
  {
    hide Shape, StripeInv, FileInv, GateInv, StripeOf;
    OwnsKeys(s, t, k);
  }

  lemma DropDrops(s: State, e: Event) returns (tomb: Record)
    requires LockInv(s) && e.Drop? && Next(s, e).Some?
    ensures Drops(s, Next(s, e).value, e.t, tomb)
  {
    hide Index.Remove, Shape, StripeInv, FileInv, GateInv, Met, Moves, Pending;
    tomb := TombstoneRecord(s.tasks[e.t].op.key, Tick(s, e.clock));
    StepMoves(s, e);
    LockedPending(s, e.t, tomb.key);
  }

  lemma DropStep(s: State, e: Event)
    requires LockInv(s) && ReplayInv(s) && e.Drop? && Next(s, e).Some?
    ensures ReplayInv(Next(s, e).value)
  {
    hide Next, AgreesAt, Drops;
    var tomb := DropDrops(s, e);
    forall k
      ensures AgreesAt(Next(s, e).value, k)
    {
      DropsAt(s, Next(s, e).value, e.t, tomb, k);
    }
  }

  lemma OneRecord(slot: Slot, k: Bytes, fileId: nat, offset: nat, r: Record)
    ensures ReplaySlot(slot, k, fileId, offset, [r]) == ApplySlot(slot, k, fileId, offset, r)
  {
    hide ApplySlot;
    var next := ApplySlot(slot, k, fileId, offset, r);
    assert [r][1..] == [];
    assert ReplaySlot(next, k, fileId, offset + r.Size(), []) == next;
  }

  /** With no write in flight the index agrees with the replayed segment as they stand. */
  lemma QuiescentPending(s: State, k: Bytes)
    requires LockInv(s) && s.inFlight == 0
    ensures Pending(s, k) == (0, [])
  {
    hide Shape, FileInv;
    NoneInFlight(s);
  }

  /** A fresh segment over the current index agrees with it. */
  lemma ResetStep(s: State)
    requires LockInv(s) && s.inFlight == 0 && s.base == s.idx && s.log == []
    ensures ReplayInv(s)
  {
    hide LockInv;
    forall k
      ensures AgreesAt(s, k)
    {
      QuiescentPending(s, k);
    }
  }

  predicate IsReset(e: Event) {
    e.EndReclaim? || e.EndFlush? || e.Unfreeze?
  }

  predicate IsQuiet(e: Event) {
    !(e.Append? || e.AppendTtl? || e.Commit? || e.Drop? || IsReset(e) || e.Spawn?)
  }

  /** Neither reserves, commits nor replaces anything. */
  predicate KeepsData(s: State, s': State, t: TaskId) {
    && t in s.tasks && t in s'.tasks
    && SameData(s, s') && !s.tasks[t].pc.Appended? && !s'.tasks[t].pc.Appended?
  }

  lemma QuietWriteData(s: State, e: Event)
    requires Next(s, e).Some? && IsQuiet(e) && (IsGateEvent(e) || IsCheckEvent(e) || IsRefEvent(e))
    ensures KeepsData(s, Next(s, e).value, e.t)
  {
  }

  lemma QuietOtherData(s: State, e: Event)
    requires Next(s, e).Some? && IsQuiet(e) && !(IsGateEvent(e) || IsCheckEvent(e) || IsRefEvent(e))
    ensures KeepsData(s, Next(s, e).value, e.t)
  {
  }

  lemma QuietData(s: State, e: Event)
    requires Next(s, e).Some? && IsQuiet(e)
    ensures KeepsData(s, Next(s, e).value, e.t)
  {
    hide Next, KeepsData;
    if IsGateEvent(e) || IsCheckEvent(e) || IsRefEvent(e) {
      QuietWriteData(s, e);
    } else {
      QuietOtherData(s, e);
    }
  }

  lemma AppendAppends(s: State, e: Event) returns (rs: seq<Record>)
    requires LockInv(s) && (e.Append? || e.AppendTtl?) && Next(s, e).Some?
    ensures Appends(s, Next(s, e).value, e.t, rs)
  {
    hide FileInv, GateInv, PairRecords, StripesBelow, StripeOf;
    var s' := Next(s, e).value;
    StepMoves(s, e);
    rs := s'.tasks[e.t].pc.recs;
    forall i | 0 <= i < |rs|
      ensures rs[i].Fits() && StripeOf(s.hash, rs[i].key) in s.stripes && s.stripes[StripeOf(s.hash, rs[i].key)] == e.t
    {
      RecordKeys(s.tasks[e.t].op, rs, i);
      OwnsKeys(s, e.t, rs[i].key);
    }
  }

  lemma ResetData(s: State, e: Event)
    requires LockInv(s) && IsReset(e) && Next(s, e).Some?
    ensures var s' := Next(s, e).value; s'.inFlight == 0 && s'.base == s'.idx && s'.log == []
  {
    hide StripeInv, FileInv, Relocated;
    if e.Unfreeze? {
      UnfreezeStep(s, e);
    }
  }

  lemma SpawnReplay(s: State, e: Event)
    requires LockInv(s) && ReplayInv(s) && e.Spawn? && Next(s, e).Some?
    ensures ReplayInv(Next(s, e).value)
  {
    hide StripesBelow, FileInv, GateInv, TaskOk;
    var s' := Next(s, e).value;
    forall k
      ensures AgreesAt(s', k)
    {
      assert Pending(s', k) == Pending(s, k);
      assert AgreesAt(s, k);
    }
  }

  lemma ReplayStep(s: State, e: Event)
    requires LockInv(s) && ReplayInv(s) && Next(s, e).Some?
    ensures ReplayInv(Next(s, e).value)
  {
    hide Next, ReplayInv, Appends, Moves;
    var s' := Next(s, e).value;
    if e.Spawn? {
      SpawnReplay(s, e);
    } else if IsReset(e) {
      LockInvStep(s, e);
      ResetData(s, e);
      ResetStep(s');
    } else if e.Commit? {
      CommitStep(s, e);
    } else if e.Drop? {
      DropStep(s, e);
    } else if e.Append? || e.AppendTtl? {
      var rs := AppendAppends(s, e);
      AppendsStep(s, s', e.t, rs);
    } else {
      StepMoves(s, e);
      QuietData(s, e);
      QuietStep(s, s', e.t);
    }
  }

  lemma {:induction false} ReplayRun(s: State, es: seq<Event>)
    requires Init(s) && Run(s, es).Some?
    ensures LockInv(Run(s, es).value) && ReplayInv(Run(s, es).value)
    decreases |es|
  {
    hide Next, LockInv, ReplayInv;
    LockInvRun(s, es);
    if es == [] {
      ResetStep(s);
    } else {
      ReplayRun(s, es[..|es| - 1]);
      ReplayStep(Run(s, es[..|es| - 1]).value, es[|es| - 1]);
    }
  }

  /** In every reachable state without a write in flight, replaying the active segment
      over the index it was opened with gives every key its runtime entry, and every
      present key its runtime expiry and (if separated) its blob hash. */
  lemma ReplayAgreesWithRuntime(s0: State, es: seq<Event>, k: Bytes)
    requires Init(s0) && Run(s0, es).Some? && Run(s0, es).value.inFlight == 0
    ensures var s := Run(s0, es).value;
            Agrees(s.idx.At(k), Replay(s.base, s.fileId, 0, s.log).At(k))
  {
    hide Init, Run, LockInv, RunSlots, ReplaySlot, Replay;
    var s := Run(s0, es).value;
    ReplayRun(s0, es);
    assert AgreesAt(s, k);
    QuiescentPending(s, k);
    NothingPending(s.idx.At(k), k, s.fileId, 0);
    ReplayAt(s.base, s.fileId, 0, s.log, k);
  }

  /** While a reclaim, a flush or the shutdown seal builds its footer, no write sits
      between its reservation and its index update: the index it reads is exactly what
      the segment replays to. */
  lemma SealSeesWholeSegment(s0: State, es: seq<Event>, t: TaskId, k: Bytes)
    requires Init(s0) && Run(s0, es).Some?
    requires t in Run(s0, es).value.tasks && Run(s0, es).value.tasks[t].pc.Sealing?
    ensures var s := Run(s0, es).value;
            && (forall u :: u in s.tasks ==> !s.tasks[u].pc.InFlight())
            && (forall u :: DoAdmit(s, u).None?)
            && Agrees(s.idx.At(k), Replay(s.base, s.fileId, 0, s.log).At(k))
  {
    hide Init, Run, Shape, StripeInv, FileInv, Agrees, Replay;
    var s := Run(s0, es).value;
    ReplayRun(s0, es);
    SealingKinds(s) by {
      LockInvRun(s0, es);
    }
    ReplayAgreesWithRuntime(s0, es, k);
    NoneInFlight(s);
  }
}
