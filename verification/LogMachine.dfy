/** One namespace log as a step machine. A step is the code between two `.await`
    points of a task; the shard's scheduler may run the tasks in any order. */
module LogMachine {
  import opened Types
  import opened Records
  import opened NamespaceIndex
  import opened Recover

  const WRITE_STRIPES: nat := 64
  const FILE_LOCK_STRIPES: nat := 16

  type TaskId = nat

  datatype Condition = KeyAbsent | KeyPresent | Revision(rev: U64)
  {
    predicate Holds(current: Option<U64>) {
      match this
      case KeyAbsent => current.None?
      case KeyPresent => current.Some?
      case Revision(r) => current == Some(r)
    }
  }

  /** A key and what its record stores: the value itself, or the hash of a separated value. */
  datatype Pair = Pair(key: Bytes, stored: Bytes, meta: Bytes, expires: Option<U64>, separated: bool)
  {
    predicate Ok() {
      && (separated ==> |stored| == 16)
      && HEADER_LEN + |key| + |stored| + |meta| <= U32_MAX
    }

    function Hash(): (h: Hash)
      requires Ok() && separated
    {
      stored
    }

    function ToRecord(tstamp: U64): (r: Record)
      requires Ok()
      ensures r.IsFull() && r.Fits() && r.key == key && r.tstamp == tstamp && r.value == stored && r.meta == meta && r.Expiry() == expires
      ensures r.Blob() == if separated then Some(stored) else None
    {
      Record(tstamp, (if expires.None? then NO_EXPIRY else 0) + (if separated then VALUE_SEP else 0),
             if expires.Some? then expires.value else 0, key, stored, meta)
    }
  }

  /** `put_full` and `put_full_cond` write one pair, `put_many` any number without a
      condition; `tombstone`, `tombstone_cond` and `ttl_update` concern one key. */
  datatype Op =
    | Write(pairs: seq<Pair>, cond: Option<Condition>, now: U64)
    | Delete(key: Bytes, expected: Option<U64>, now: U64)
    | Expire(key: Bytes, expires: Option<U64>)
    | Reclaim
    | Flush
    | Freeze
    | Sync
  {
    predicate IsWriter() { Write? || Delete? || Expire? }

    predicate Ok() {
      match this
      case Write(ps, cond, _) => (forall i :: 0 <= i < |ps| ==> ps[i].Ok()) && (cond.Some? ==> |ps| == 1)
      case Delete(k, _, _) => HEADER_LEN + |k| <= U32_MAX
      case Expire(k, _) => HEADER_LEN + |k| <= U32_MAX
      case _ => true
    }
  }

  datatype Result = Success(revs: seq<U64>) | NotMet | Refused | Failed

  datatype Pc =
    | Start                                      // before the gate
    | Locking(n: nat)                            // holds the first n of its stripes
    | Building(stamps: seq<U64>)                 // these pairs are stamped and their blobs written
    | BlobWait(stamps: seq<U64>)                 // the last stamped pair waits for its file lock
    | BlobWrite(stamps: seq<U64>)                // its file lock is held and the blob is being written
    | Appended(offset: nat, recs: seq<Record>)   // bytes reserved, index not yet updated
    | Removed(tstamp: U64, blob: Option<Hash>)   // key dropped from the index, tombstone reserved
    | Draining                                   // flag set, waiting for writes in flight
    | Sealing                                    // drained: building footers, rewriting files
    | Collecting(queue: seq<Hash>)
    | Unlinking(queue: seq<Hash>)                // the head's file lock is held
    | Done(result: Result)
  {
    /** Between `begin_write` and the drop of its guard. */
    predicate InFlight() {
      Locking? || Building? || BlobWait? || BlobWrite? || Appended? || Removed?
    }
  }

  /** `need`: the stripes of the task's keys, ascending and without repetition. */
  datatype Task = Task(op: Op, need: seq<nat>, pc: Pc)
  {
    function Held(): set<nat> {
      match pc
      case Locking(n) => if n <= |need| then (set i | i in need[..n]) else {}
      case Building(_) => set i | i in need
      case BlobWait(_) => set i | i in need
      case BlobWrite(_) => set i | i in need
      case Appended(_, _) => set i | i in need
      case Removed(_, _) => set i | i in need
      case _ => {}
    }
  }

  /** Reference counts, deferred deletions, files on disk, file locks. */
  datatype Blobs = Blobs(refs: map<Hash, nat>, pending: seq<Hash>, onDisk: set<Hash>, locks: map<nat, TaskId>)
  {
    function Count(h: Hash): nat { if h in refs then refs[h] else 0 }

    function Incr(h: Hash): Blobs { this.(refs := refs[h := Count(h) + 1]) }

    function Dec(h: Hash): Blobs {
      if h !in refs then this
      else if refs[h] <= 1 then this.(refs := refs - {h})
      else this.(refs := refs[h := refs[h] - 1])
    }

    /** Drops a reference; the last one queues the blob for deletion. */
    function Unref(h: Hash): Blobs {
      if h in refs && refs[h] <= 1 then Dec(h).(pending := pending + [h]) else Dec(h)
    }
  }

  function FileLock(h: Hash): nat { h[0] % FILE_LOCK_STRIPES }

  /** `base` is the index when the active segment was opened and `log` its records.
      `floor` (the newest revision a key has had), `hist` (what each revision stores)
      and `commits` (writes in commit order) only record history. */
  datatype State = State(
    hash: Bytes -> nat,
    idx: Index, base: Index, log: seq<Record>, fileId: nat,
    last: U64,
    inFlight: nat, reclaiming: Option<TaskId>, frozen: bool,
    stripes: map<nat, TaskId>,
    blobs: Blobs,
    tasks: map<TaskId, Task>,
    floor: map<Bytes, U64>, hist: map<U64, Bytes>, commits: seq<TaskId>)
  {
    function Set(t: TaskId, pc: Pc): State
      requires t in tasks
    {
      this.(tasks := tasks[t := tasks[t].(pc := pc)])
    }

    /** A write leaves: its guards release its stripes and the in-flight count. */
    function Leave(t: TaskId, r: Result): State
      requires t in tasks
    {
      this.(stripes := map i | i in stripes && stripes[i] != t :: stripes[i],
            inFlight := if inFlight == 0 then 0 else inFlight - 1,
            tasks := tasks[t := tasks[t].(pc := Done(r))])
    }

  }

  /** The stripes below `n` that some key of `op` hashes to, in order. */
  function StripesBelow(hash: Bytes -> nat, op: Op, n: nat): (need: seq<nat>)
    ensures forall i :: 0 <= i < |need| ==> need[i] < n
    ensures forall i, j :: 0 <= i < j < |need| ==> need[i] < need[j]
    ensures forall k :: k in KeysOf(op) && StripeOf(hash, k) < n ==> StripeOf(hash, k) in need
  {
    if n == 0 then []
    else if exists k | k in KeysOf(op) :: StripeOf(hash, k) == n - 1 then StripesBelow(hash, op, n - 1) + [n - 1]
    else StripesBelow(hash, op, n - 1)
  }

  function StripeOf(hash: Bytes -> nat, k: Bytes): (i: nat)
    ensures i < WRITE_STRIPES
  {
    hash(k) % WRITE_STRIPES
  }

  function KeysOf(op: Op): set<Bytes> {
    match op
    case Write(ps, _, _) => set p | p in ps :: p.key
    case Delete(k, _, _) => {k}
    case Expire(k, _) => {k}
    case _ => {}
  }

  /** `next_tstamp`: the clock, nudged past the last revision. */
  function Tick(s: State, clock: U64): (t: nat)
    ensures t > s.last
  {
    NextStamp(s.last, clock)
  }

  /** What a committed record does to the runtime index. */
  function RunRecord(idx: Index, fileId: nat, offset: nat, r: Record): Index {
    if r.IsTombstone() then idx.Remove(r.key)
    else if r.IsTtlUpdate() then idx.SetTtl(r.key, r.Expiry())
    else idx.Insert(r.key, IndexEntry(fileId, offset, r.Size(), r.tstamp), r.Expiry()).SetBlob(r.key, r.Blob())
  }

  function RunAll(idx: Index, fileId: nat, offset: nat, rs: seq<Record>): Index
    decreases |rs|
  {
    if rs == [] then idx
    else RunAll(RunRecord(idx, fileId, offset, rs[0]), fileId, offset + rs[0].Size(), rs[1..])
  }

  /** The blobs that committing `rs` supersedes, in order. */
  function Superseded(idx: Index, fileId: nat, offset: nat, rs: seq<Record>): seq<Hash>
    decreases |rs|
  {
    if rs == [] then []
    else
      var rest := Superseded(RunRecord(idx, fileId, offset, rs[0]), fileId, offset + rs[0].Size(), rs[1..]);
      if rs[0].IsFull() && rs[0].key in idx.blobs then [idx.blobs[rs[0].key]] + rest else rest
  }

  function UnrefAll(b: Blobs, hs: seq<Hash>): Blobs
    decreases |hs|
  {
    if hs == [] then b else UnrefAll(b.Unref(hs[0]), hs[1..])
  }

  function RaiseFloor(floor: map<Bytes, U64>, rs: seq<Record>): map<Bytes, U64>
    decreases |rs|
  {
    if rs == [] then floor
    else RaiseFloor(if rs[0].IsFull() then floor[rs[0].key := rs[0].tstamp] else floor, rs[1..])
  }

  function PairRecords(ps: seq<Pair>, stamps: seq<U64>): (rs: seq<Record>)
    requires |stamps| == |ps| && forall i :: 0 <= i < |ps| ==> ps[i].Ok()
    ensures |rs| == |ps|
    ensures forall i :: 0 <= i < |ps| ==> rs[i] == ps[i].ToRecord(stamps[i])
  {
    seq(|ps|, i requires 0 <= i < |ps| => ps[i].ToRecord(stamps[i]))
  }

  function TombstoneRecord(k: Bytes, tstamp: U64): Record {
    Record(tstamp, TOMBSTONE, 0, k, [], [])
  }

  function TtlRecord(k: Bytes, expires: Option<U64>, tstamp: U64): Record {
    Record(tstamp, TTL_UPDATE + (if expires.None? then NO_EXPIRY else 0),
           if expires.Some? then expires.value else 0, k, [], [])
  }

  /** Same keys, revisions, expiries and blob hashes; records may have moved. */
  ghost predicate Relocated(a: Index, b: Index) {
    && a.entries.Keys == b.entries.Keys && a.ttl == b.ttl && a.blobs == b.blobs
    && forall k :: k in a.entries ==> a.entries[k].tstamp == b.entries[k].tstamp
  }

  datatype Event =
    | Spawn(t: TaskId, op: Op)
    | Admit(t: TaskId)
    | Refuse(t: TaskId)
    | Lock(t: TaskId)
    | Pass(t: TaskId)
    | Miss(t: TaskId)
    | Stamp(t: TaskId, clock: U64)
    | ShareBlob(t: TaskId)
    | FirstBlob(t: TaskId)
    | BlobDone(t: TaskId)
    | BlobFail(t: TaskId, left: bool)
    | Append(t: TaskId)
    | Commit(t: TaskId)
    | Drop(t: TaskId, clock: U64)
    | FinishDelete(t: TaskId)
    | AppendTtl(t: TaskId, clock: U64)
    | TakeFlag(t: TaskId)
    | Busy(t: TaskId)
    | SetFrozen(t: TaskId)
    | Drained(t: TaskId)
    | EndReclaim(t: TaskId, idx: Index, fileId: nat)
    | EndFlush(t: TaskId, fileId: nat, clock: U64)
    | EndFreeze(t: TaskId)
    | Unfreeze(fileId: nat)
    | TakePending(t: TaskId)
    | GcDone(t: TaskId)
    | GcSkip(t: TaskId)
    | GcUnlink(t: TaskId)
    | GcUnlinked(t: TaskId)

  const U64_LIMIT: nat := 0x1_0000_0000_0000_0000

  function DoSpawn(s: State, t: TaskId, op: Op): Option<State> {
    if t !in s.tasks && op.Ok()
    then Some(s.(tasks := s.tasks[t := Task(op, StripesBelow(s.hash, op, WRITE_STRIPES), Start)]))
    else None
  }

  /** `await_reclaim` found the flag clear. */
  predicate AtGate(s: State, t: TaskId) {
    t in s.tasks && s.tasks[t].op.IsWriter() && s.tasks[t].pc.Start? && s.reclaiming.None?
  }

  /** `begin_write` on a namespace that is not frozen. */
  function DoAdmit(s: State, t: TaskId): Option<State> {
    if AtGate(s, t) && !s.frozen then Some(s.Set(t, Locking(0)).(inFlight := s.inFlight + 1)) else None
  }

  function DoRefuse(s: State, t: TaskId): Option<State> {
    if AtGate(s, t) && s.frozen then Some(s.Set(t, Done(Refused))) else None
  }

  predicate WantsStripe(s: State, t: TaskId) {
    t in s.tasks && s.tasks[t].pc.Locking? && s.tasks[t].pc.n < |s.tasks[t].need|
  }

  function DoLock(s: State, t: TaskId): Option<State> {
    if WantsStripe(s, t) && s.tasks[t].need[s.tasks[t].pc.n] !in s.stripes
    then Some(s.Set(t, Locking(s.tasks[t].pc.n + 1)).(stripes := s.stripes[s.tasks[t].need[s.tasks[t].pc.n] := t]))
    else None
  }

  /** All stripes are held: what follows is serialized with every write to these keys. */
  predicate Locked(s: State, t: TaskId) {
    t in s.tasks && s.tasks[t].op.Ok() && s.tasks[t].pc == Locking(|s.tasks[t].need|)
  }

  /** The condition is checked under the stripe, before anything is written. */
  predicate Met(idx: Index, op: Op)
    requires op.Ok()
  {
    match op
    case Write(ps, cond, now) => cond.Some? ==> cond.value.Holds(idx.LiveRev(ps[0].key, now))
    case Delete(k, expected, now) => if expected.Some? then idx.LiveRev(k, now) == expected else k in idx.entries
    case _ => true
  }

  function DoPass(s: State, t: TaskId): Option<State> {
    if Locked(s, t) && s.tasks[t].op.Write? && Met(s.idx, s.tasks[t].op) then Some(s.Set(t, Building([]))) else None
  }

  function DoMiss(s: State, t: TaskId): Option<State> {
    if Locked(s, t) && !Met(s.idx, s.tasks[t].op) then Some(s.Leave(t, NotMet)) else None
  }

  function DoStamp(s: State, t: TaskId, clock: U64): Option<State> {
    if t in s.tasks && s.tasks[t].op.Write? && s.tasks[t].pc.Building?
       && |s.tasks[t].pc.stamps| < |s.tasks[t].op.pairs| && Tick(s, clock) < U64_LIMIT
    then
      var p := s.tasks[t].op.pairs[|s.tasks[t].pc.stamps|];
      var stamps := s.tasks[t].pc.stamps + [Tick(s, clock)];
      Some(s.Set(t, if p.separated then BlobWait(stamps) else Building(stamps))
           .(last := Tick(s, clock), hist := s.hist[Tick(s, clock) := p.stored]))
    else None
  }

  /** The pair whose blob a task is waiting for or writing. */
  predicate HasBlob(task: Task) {
    && task.op.Write? && task.op.Ok() && (task.pc.BlobWait? || task.pc.BlobWrite?)
    && 0 < |task.pc.stamps| <= |task.op.pairs| && task.op.pairs[|task.pc.stamps| - 1].separated
  }

  function BlobOf(task: Task): Hash
    requires HasBlob(task)
  {
    task.op.pairs[|task.pc.stamps| - 1].Hash()
  }

  /** A task that waits for the file lock of its blob and finds it free. */
  predicate AtBlob(s: State, t: TaskId) {
    t in s.tasks && s.tasks[t].pc.BlobWait? && HasBlob(s.tasks[t]) && FileLock(BlobOf(s.tasks[t])) !in s.blobs.locks
  }

  /** The content is already referenced: only count one more reference. */
  function DoShareBlob(s: State, t: TaskId): Option<State> {
    if AtBlob(s, t) && s.blobs.Count(BlobOf(s.tasks[t])) > 0
    then Some(s.Set(t, Building(s.tasks[t].pc.stamps)).(blobs := s.blobs.Incr(BlobOf(s.tasks[t]))))
    else None
  }

  /** The first reference: keep the file lock and write the file. */
  function DoFirstBlob(s: State, t: TaskId): Option<State> {
    if AtBlob(s, t) && s.blobs.Count(BlobOf(s.tasks[t])) == 0
    then Some(s.Set(t, BlobWrite(s.tasks[t].pc.stamps))
              .(blobs := s.blobs.Incr(BlobOf(s.tasks[t])).(locks := s.blobs.locks[FileLock(BlobOf(s.tasks[t])) := t])))
    else None
  }

  function DoBlobDone(s: State, t: TaskId): Option<State> {
    if t in s.tasks && s.tasks[t].pc.BlobWrite? && HasBlob(s.tasks[t])
    then Some(s.Set(t, Building(s.tasks[t].pc.stamps))
              .(blobs := s.blobs.(onDisk := s.blobs.onDisk + {BlobOf(s.tasks[t])},
                                  locks := s.blobs.locks - {FileLock(BlobOf(s.tasks[t]))})))
    else None
  }

  /** A failed blob write takes its reference back; the file may or may not be there. */
  function DoBlobFail(s: State, t: TaskId, left: bool): Option<State> {
    if t in s.tasks && s.tasks[t].pc.BlobWrite? && HasBlob(s.tasks[t])
    then
      var h := BlobOf(s.tasks[t]);
      var b := s.blobs.Dec(h);
      Some(s.Leave(t, Failed)
           .(blobs := b.(onDisk := if left then b.onDisk + {h} else b.onDisk - {h}, locks := b.locks - {FileLock(h)})))
    else None
  }

  predicate AllStamped(s: State, t: TaskId) {
    && t in s.tasks && s.tasks[t].op.Write? && s.tasks[t].op.Ok() && s.tasks[t].pc.Building?
    && |s.tasks[t].pc.stamps| == |s.tasks[t].op.pairs|
  }

  /** Reserves the bytes of all the records at once. */
  function DoAppend(s: State, t: TaskId): Option<State> {
    if AllStamped(s, t)
    then
      var rs := PairRecords(s.tasks[t].op.pairs, s.tasks[t].pc.stamps);
      Some(s.Set(t, Appended(TotalSize(s.log), rs)).(log := s.log + rs))
    else None
  }

  /** The write completed: update the index, drop superseded blobs, leave. */
  function DoCommit(s: State, t: TaskId): Option<State> {
    if t in s.tasks && s.tasks[t].pc.Appended?
    then
      var pc := s.tasks[t].pc;
      Some(s.Leave(t, Success(Stamps(pc.recs)))
           .(idx := RunAll(s.idx, s.fileId, pc.offset, pc.recs),
             blobs := UnrefAll(s.blobs, Superseded(s.idx, s.fileId, pc.offset, pc.recs)),
             floor := RaiseFloor(s.floor, pc.recs),
             commits := s.commits + [t]))
    else None
  }

  function Stamps(rs: seq<Record>): seq<U64> {
    seq(|rs|, i requires 0 <= i < |rs| => rs[i].tstamp)
  }

  /** `tombstone` and `tombstone_cond`: drop the key, then reserve the tombstone. */
  function DoDrop(s: State, t: TaskId, clock: U64): Option<State> {
    if Locked(s, t) && s.tasks[t].op.Delete? && Met(s.idx, s.tasks[t].op) && Tick(s, clock) < U64_LIMIT
    then
      var k := s.tasks[t].op.key;
      Some(s.Set(t, Removed(Tick(s, clock), Get(s.idx.blobs, k)))
           .(idx := s.idx.Remove(k), last := Tick(s, clock), floor := s.floor[k := Tick(s, clock)],
             log := s.log + [TombstoneRecord(k, Tick(s, clock))]))
    else None
  }

  function DoFinishDelete(s: State, t: TaskId): Option<State> {
    if t in s.tasks && s.tasks[t].pc.Removed?
    then
      var pc := s.tasks[t].pc;
      Some(s.Leave(t, Success([pc.tstamp]))
           .(blobs := if pc.blob.Some? then s.blobs.Unref(pc.blob.value) else s.blobs))
    else None
  }

  function DoAppendTtl(s: State, t: TaskId, clock: U64): Option<State> {
    if Locked(s, t) && s.tasks[t].op.Expire? && Tick(s, clock) < U64_LIMIT
    then
      var r := TtlRecord(s.tasks[t].op.key, s.tasks[t].op.expires, Tick(s, clock));
      Some(s.Set(t, Appended(TotalSize(s.log), [r])).(last := Tick(s, clock), log := s.log + [r]))
    else None
  }

  function DoTakeFlag(s: State, t: TaskId): Option<State> {
    if t in s.tasks && (s.tasks[t].op.Reclaim? || s.tasks[t].op.Flush?) && s.tasks[t].pc.Start? && s.reclaiming.None?
    then Some(s.Set(t, Draining).(reclaiming := Some(t)))
    else None
  }

  /** A second reclaim is refused; a flush waits instead. */
  function DoBusy(s: State, t: TaskId): Option<State> {
    if t in s.tasks && s.tasks[t].op.Reclaim? && s.tasks[t].pc.Start? && s.reclaiming.Some?
    then Some(s.Set(t, Done(Refused)))
    else None
  }

  function DoSetFrozen(s: State, t: TaskId): Option<State> {
    if t in s.tasks && s.tasks[t].op.Freeze? && s.tasks[t].pc.Start?
    then Some(s.Set(t, Draining).(frozen := true))
    else None
  }

  function DoDrained(s: State, t: TaskId): Option<State> {
    if t in s.tasks && s.tasks[t].pc.Draining? && s.inFlight == 0 then Some(s.Set(t, Sealing)) else None
  }

  /** A reclaim ends with relocated records and a fresh active segment. */
  ghost function DoEndReclaim(s: State, t: TaskId, idx: Index, fileId: nat): Option<State> {
    if t in s.tasks && s.tasks[t].pc.Sealing? && s.tasks[t].op.Reclaim? && Relocated(s.idx, idx)
    then Some(s.Set(t, Done(Success([]))).(reclaiming := None, idx := idx, base := idx, log := [], fileId := fileId))
    else None
  }

  /** A flush ends with nothing left. */
  function DoEndFlush(s: State, t: TaskId, fileId: nat, clock: U64): Option<State> {
    if t in s.tasks && s.tasks[t].pc.Sealing? && s.tasks[t].op.Flush? && Tick(s, clock) < U64_LIMIT
    then Some(s.Set(t, Done(Success([Tick(s, clock)])))
              .(reclaiming := None, idx := EMPTY, base := EMPTY, log := [], fileId := fileId, last := Tick(s, clock),
                blobs := s.blobs.(refs := map[], pending := [], onDisk := {})))
    else None
  }

  /** The shutdown seal ends; the namespace stays frozen. */
  function DoEndFreeze(s: State, t: TaskId): Option<State> {
    if t in s.tasks && s.tasks[t].pc.Sealing? && s.tasks[t].op.Freeze? then Some(s.Set(t, Done(Success([])))) else None
  }

  predicate Freezing(task: Task) {
    task.op.Freeze? && (task.pc.Draining? || task.pc.Sealing?)
  }

  /** Resuming after an aborted hand-off: every seal has ended, a fresh segment is opened. */
  ghost function DoUnfreeze(s: State, fileId: nat): Option<State> {
    if s.frozen && (forall t :: t in s.tasks ==> !Freezing(s.tasks[t]))
    then Some(s.(frozen := false, base := s.idx, log := [], fileId := fileId))
    else None
  }

  function DoTakePending(s: State, t: TaskId): Option<State> {
    if t in s.tasks && s.tasks[t].op.Sync? && s.tasks[t].pc.Start?
    then Some(s.Set(t, Collecting(s.blobs.pending)).(blobs := s.blobs.(pending := [])))
    else None
  }

  function DoGcDone(s: State, t: TaskId): Option<State> {
    if t in s.tasks && s.tasks[t].pc == Collecting([]) then Some(s.Set(t, Done(Success([])))) else None
  }

  /** The file lock of the next queued blob is free. */
  predicate AtGarbage(s: State, t: TaskId) {
    && t in s.tasks && s.tasks[t].pc.Collecting? && s.tasks[t].pc.queue != []
    && FileLock(s.tasks[t].pc.queue[0]) !in s.blobs.locks
  }

  /** A queued blob that is referenced again is kept. */
  function DoGcSkip(s: State, t: TaskId): Option<State> {
    if AtGarbage(s, t) && s.blobs.Count(s.tasks[t].pc.queue[0]) > 0
    then Some(s.Set(t, Collecting(s.tasks[t].pc.queue[1..])))
    else None
  }

  function DoGcUnlink(s: State, t: TaskId): Option<State> {
    if AtGarbage(s, t) && s.blobs.Count(s.tasks[t].pc.queue[0]) == 0
    then Some(s.Set(t, Unlinking(s.tasks[t].pc.queue))
              .(blobs := s.blobs.(locks := s.blobs.locks[FileLock(s.tasks[t].pc.queue[0]) := t])))
    else None
  }

  function DoGcUnlinked(s: State, t: TaskId): Option<State> {
    if t in s.tasks && s.tasks[t].pc.Unlinking? && s.tasks[t].pc.queue != []
    then
      var q := s.tasks[t].pc.queue;
      Some(s.Set(t, Collecting(q[1..]))
           .(blobs := s.blobs.(onDisk := s.blobs.onDisk - {q[0]}, locks := s.blobs.locks - {FileLock(q[0])})))
    else None
  }

  /** The state after an event, or nothing when the event cannot happen. */
  ghost function Next(s: State, e: Event): Option<State> {
    match e
    case Spawn(t, op) => DoSpawn(s, t, op)
    case Admit(t) => DoAdmit(s, t)
    case Refuse(t) => DoRefuse(s, t)
    case Lock(t) => DoLock(s, t)
    case Pass(t) => DoPass(s, t)
    case Miss(t) => DoMiss(s, t)
    case Stamp(t, clock) => DoStamp(s, t, clock)
    case ShareBlob(t) => DoShareBlob(s, t)
    case FirstBlob(t) => DoFirstBlob(s, t)
    case BlobDone(t) => DoBlobDone(s, t)
    case BlobFail(t, left) => DoBlobFail(s, t, left)
    case Append(t) => DoAppend(s, t)
    case Commit(t) => DoCommit(s, t)
    case Drop(t, clock) => DoDrop(s, t, clock)
    case FinishDelete(t) => DoFinishDelete(s, t)
    case AppendTtl(t, clock) => DoAppendTtl(s, t, clock)
    case TakeFlag(t) => DoTakeFlag(s, t)
    case Busy(t) => DoBusy(s, t)
    case SetFrozen(t) => DoSetFrozen(s, t)
    case Drained(t) => DoDrained(s, t)
    case EndReclaim(t, idx, fileId) => DoEndReclaim(s, t, idx, fileId)
    case EndFlush(t, fileId, clock) => DoEndFlush(s, t, fileId, clock)
    case EndFreeze(t) => DoEndFreeze(s, t)
    case Unfreeze(fileId) => DoUnfreeze(s, fileId)
    case TakePending(t) => DoTakePending(s, t)
    case GcDone(t) => DoGcDone(s, t)
    case GcSkip(t) => DoGcSkip(s, t)
    case GcUnlink(t) => DoGcUnlink(s, t)
    case GcUnlinked(t) => DoGcUnlinked(s, t)
  }

  /** The state after a whole run, or nothing when some event of it cannot happen. */
  ghost function Run(s: State, es: seq<Event>): Option<State>
    decreases |es|
  {
    if es == [] then Some(s)
    else match Run(s, es[..|es| - 1])
      case None => None
      case Some(mid) => Next(mid, es[|es| - 1])
  }

  /** A namespace just opened: every revision was recovered, no task exists. */
  ghost predicate Init(s: State) {
    && s.base == s.idx && s.log == []
    && s.inFlight == 0 && s.reclaiming.None? && !s.frozen
    && s.stripes == map[] && s.tasks == map[] && s.blobs.locks == map[] && s.commits == []
    && s.floor == (map k | k in s.idx.entries :: s.idx.entries[k].tstamp)
    && (forall k :: k in s.idx.entries ==> s.idx.entries[k].tstamp <= s.last)
    && (forall r :: r in s.hist ==> r <= s.last)
  }
}
