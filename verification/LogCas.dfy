/** Revisions grow, and a conditional write is atomic: for one key and one expected
    revision at most one writer succeeds. */
module LogCas {
  import opened Types
  import opened Records
  import opened NamespaceIndex
  import opened LogMachine
  import opened LogLocks
  import opened LogReplay

  /** A revision issued to a task that has not committed it yet, for which key and value. */
  datatype Issue = Issue(key: Bytes, rev: U64, stored: Bytes)

  function Issued(task: Task): seq<Issue> {
    if task.op.Write? && (task.pc.Building? || task.pc.BlobWait? || task.pc.BlobWrite?) && |task.pc.stamps| <= |task.op.pairs|
    then seq(|task.pc.stamps|, i requires 0 <= i < |task.pc.stamps| =>
               Issue(task.op.pairs[i].key, task.pc.stamps[i], task.op.pairs[i].stored))
    else if task.op.Write? && task.pc.Appended? then IssuedRecords(task.pc.recs)
    else []
  }

  function IssuedRecords(rs: seq<Record>): seq<Issue> {
    seq(|rs|, i requires 0 <= i < |rs| => Issue(rs[i].key, rs[i].tstamp, rs[i].value))
  }

  /** The key and revision an operation expects. */
  function Expects(op: Op): Option<(Bytes, U64)> {
    match op
    case Write(ps, Some(Revision(r)), _) => if |ps| == 1 then Some((ps[0].key, r)) else None
    case Delete(k, Some(r), _) => Some((k, r))
    case _ => None
  }

  /** Passed its check and still holds the stripe. */
  predicate Claims(task: Task) {
    task.op.Write? && task.pc.InFlight() && !task.pc.Locking?
  }

  /** Its change is in the index. */
  predicate Won(task: Task) {
    || (task.op.Write? && task.pc.Done? && task.pc.result.Success?)
    || (task.op.Delete? && (task.pc.Removed? || (task.pc.Done? && task.pc.result.Success?)))
  }

  /** Every revision in the index is the newest its key has had. */
  ghost predicate FloorInv(s: State) {
    && (forall k :: k in s.idx.entries ==> k in s.floor && s.idx.entries[k].tstamp == s.floor[k])
    && (forall k :: k in s.floor ==> s.floor[k] <= s.last)
    && (forall r :: r in s.hist ==> r <= s.last)
  }

  /** Issued revisions ascend, and each is newer than what its key has had. */
  ghost predicate IssuesOk(s: State, xs: seq<Issue>) {
    && (forall i :: 0 <= i < |xs| ==>
          && xs[i].rev <= s.last
          && (xs[i].key in s.floor ==> s.floor[xs[i].key] < xs[i].rev)
          && xs[i].rev in s.hist && s.hist[xs[i].rev] == xs[i].stored)
    && (forall i, j :: 0 <= i < j < |xs| ==> xs[i].rev < xs[j].rev)
  }

  ghost predicate TaskCas(s: State, task: Task) {
    && IssuesOk(s, Issued(task))
    && (Expects(task.op).Some? ==>
          var (k, r) := Expects(task.op).value;
          && (Claims(task) ==> k in s.idx.entries && s.idx.entries[k].tstamp == r)
          && (Won(task) ==> k in s.floor && r < s.floor[k]))
  }

  ghost predicate WinnersDiffer(s: State) {
    forall t, u ::
      (t in s.tasks && u in s.tasks && t != u && Won(s.tasks[t]) && Won(s.tasks[u]) && Expects(s.tasks[t].op).Some?)
      ==> Expects(s.tasks[t].op) != Expects(s.tasks[u].op)
  }

  ghost predicate CasInv(s: State) {
    && FloorInv(s)
    && (forall t :: t in s.tasks ==> TaskCas(s, s.tasks[t]))
    && WinnersDiffer(s)
  }

  /** What other tasks' steps leave of the facts about `task`: revisions only grow, and
      the keys of a task in flight keep theirs. */
  ghost predicate Keeps(s: State, s': State, task: Task) {
    && s.last <= s'.last
    && (forall r :: r in s.hist ==> r in s'.hist && s'.hist[r] == s.hist[r])
    && (forall k :: k in s.floor ==> k in s'.floor && s.floor[k] <= s'.floor[k])
    && (task.pc.InFlight() && !task.pc.Locking? ==> forall k :: k in KeysOf(task.op) ==>
          (k in s'.floor <==> k in s.floor) && (k in s.floor ==> s'.floor[k] == s.floor[k]) && s'.idx.At(k).entry == s.idx.At(k).entry)
  }

  lemma IssueKeys(hash: Bytes -> nat, task: Task, i: nat)
    requires TaskOk(hash, task) && i < |Issued(task)|
    ensures Issued(task)[i].key in KeysOf(task.op) && task.pc.InFlight() && !task.pc.Locking?
  {
    hide StripesBelow;
    if task.pc.Appended? {
      RecordKeys(task.op, task.pc.recs, i);
    } else {
      assert task.op.pairs[i] in task.op.pairs;
    }
  }

  lemma KeepsTask(s: State, s': State, task: Task)
    requires TaskOk(s.hash, task) && TaskCas(s, task) && Keeps(s, s', task)
    ensures TaskCas(s', task)
  {
    hide TaskOk, Issued, Won, Pc.InFlight;
    var xs := Issued(task);
    forall i | 0 <= i < |xs|
      ensures xs[i].key in s'.floor ==> s'.floor[xs[i].key] < xs[i].rev
    {
      IssueKeys(s.hash, task, i);
    }
    if Expects(task.op).Some? && Claims(task) {
      var k := Expects(task.op).value.0;
      assert k in KeysOf(task.op) by {
        if task.op.Write? {
          assert task.op.pairs[0] in task.op.pairs;
        }
      }
      assert s'.idx.At(k).entry == s.idx.At(k).entry;
    }
  }

  /** One task moves; what the others rely on is kept, and a new winner expected the
      newest revision of its key. */
  lemma CasFrame(s: State, s': State, t: TaskId)
    requires Shape(s) && CasInv(s) && Moves(s, s', t) && FloorInv(s') && TaskCas(s', s'.tasks[t])
    requires forall u :: u in s.tasks && u != t ==> Keeps(s, s', s.tasks[u])
    requires Won(s'.tasks[t]) && !Won(s.tasks[t]) && Expects(s.tasks[t].op).Some? ==>
               var (k, r) := Expects(s.tasks[t].op).value; k in s.floor && s.floor[k] == r
    ensures CasInv(s')
  {
    hide FloorInv, Keeps, IssuesOk, TaskOk, StripeEffect, FileEffect, CountEffect, FlagEffect, Won, Claims, Expects;
    forall u | u in s'.tasks
      ensures TaskCas(s', s'.tasks[u])
    {
      if u != t {
        KeepsTask(s, s', s.tasks[u]);
      }
    }
    assert forall u :: u in s.tasks ==> TaskCas(s, s.tasks[u]);
  }

  /** No revision, history or index entry changes. */
  ghost predicate QuietEffect(s: State, s': State, t: TaskId)
    requires t in s.tasks && t in s'.tasks
  {
    var task, task' := s.tasks[t], s'.tasks[t];
    && s'.idx == s.idx && s'.floor == s.floor && s'.hist == s.hist && s'.last == s.last
    && (Issued(task') == Issued(task) || Issued(task') == [])
    && (Claims(task') ==> Claims(task) || (task.op.Ok() && Met(s.idx, task.op)))
    && (Won(task') ==> Won(task))
  }

  lemma QuietCasStep(s: State, s': State, t: TaskId)
    requires Shape(s) && CasInv(s) && Moves(s, s', t) && QuietEffect(s, s', t)
    ensures CasInv(s')
  {
    hide StripeEffect, FileEffect, CountEffect, FlagEffect, TaskOk, Issued, Won, Claims;
    assert TaskCas(s, s.tasks[t]);
    CasFrame(s, s', t);
  }

  predicate IsCasQuiet(e: Event) {
    !(e.Stamp? || e.Commit? || e.Drop? || e.AppendTtl? || e.EndReclaim? || e.EndFlush? || e.Unfreeze? || e.Spawn?)
  }

  lemma AppendQuiet(s: State, e: Event)
    requires Shape(s) && e.Append? && Next(s, e).Some?
    ensures e.t in Next(s, e).value.tasks && QuietEffect(s, Next(s, e).value, e.t)
  {
    hide StripesBelow;
  }

  lemma QuietWrites(s: State, e: Event)
    requires Shape(s) && IsCasQuiet(e) && !e.Append? && Next(s, e).Some?
    requires IsGateEvent(e) || IsCheckEvent(e) || IsCommitEvent(e)
    ensures e.t in Next(s, e).value.tasks && QuietEffect(s, Next(s, e).value, e.t)
  {
    hide StripesBelow;
  }

  lemma QuietBlobs(s: State, e: Event)
    requires Shape(s) && Next(s, e).Some? && (IsRefEvent(e) || IsBlobEvent(e))
    ensures e.t in Next(s, e).value.tasks && QuietEffect(s, Next(s, e).value, e.t)
  {
    hide StripesBelow;
  }

  lemma QuietFlags(s: State, e: Event)
    requires Shape(s) && IsCasQuiet(e) && Next(s, e).Some? && (IsFlagEvent(e) || IsExitEvent(e))
    ensures e.t in Next(s, e).value.tasks && QuietEffect(s, Next(s, e).value, e.t)
  {
    hide StripesBelow;
  }

  lemma QuietGc(s: State, e: Event)
    requires Shape(s) && Next(s, e).Some? && IsGcEvent(e)
    ensures e.t in Next(s, e).value.tasks && QuietEffect(s, Next(s, e).value, e.t)
  {
    hide StripesBelow;
  }

  lemma QuietUnlinks(s: State, e: Event)
    requires Shape(s) && Next(s, e).Some? && IsUnlinkEvent(e)
    ensures e.t in Next(s, e).value.tasks && QuietEffect(s, Next(s, e).value, e.t)
  {
    hide StripesBelow;
  }

  lemma QuietEvents(s: State, e: Event)
    requires Shape(s) && IsCasQuiet(e) && Next(s, e).Some?
    ensures e.t in Next(s, e).value.tasks && QuietEffect(s, Next(s, e).value, e.t)
  {
    hide Shape, Next, QuietEffect;
    if e.Append? {
      AppendQuiet(s, e);
    } else if IsFlagEvent(e) || IsExitEvent(e) {
      QuietFlags(s, e);
    } else if IsGcEvent(e) {
      QuietGc(s, e);
    } else if IsUnlinkEvent(e) {
      QuietUnlinks(s, e);
    } else if IsRefEvent(e) || IsBlobEvent(e) {
      QuietBlobs(s, e);
    } else {
      QuietWrites(s, e);
    }
  }

  /** The clock moves past `last`; `more` are the revisions issued to `t`, and nothing else changes. */
  ghost predicate TickEffect(s: State, s': State, t: TaskId, more: seq<Issue>)
    requires t in s.tasks && t in s'.tasks
  {
    && s'.idx == s.idx && s'.floor == s.floor && s.last < s'.last
    && Issued(s'.tasks[t]) == Issued(s.tasks[t]) + more
    && (Claims(s'.tasks[t]) ==> Claims(s.tasks[t])) && !Won(s'.tasks[t])
    && (if more == [] then s'.hist == s.hist
        else |more| == 1 && more[0].rev == s'.last && s'.hist == s.hist[s'.last := more[0].stored])
  }

  lemma StampTicks(s: State, e: Event) returns (more: seq<Issue>)
    requires Shape(s) && e.Stamp? && Next(s, e).Some?
    ensures e.t in Next(s, e).value.tasks && TickEffect(s, Next(s, e).value, e.t, more)
  {
    hide StripesBelow;
    var task := s.tasks[e.t];
    var p := task.op.pairs[|task.pc.stamps|];
    more := [Issue(p.key, Tick(s, e.clock), p.stored)];
  }

  lemma TtlTicks(s: State, e: Event)
    requires Shape(s) && e.AppendTtl? && Next(s, e).Some?
    ensures e.t in Next(s, e).value.tasks && TickEffect(s, Next(s, e).value, e.t, [])
  {
    hide StripesBelow;
  }

  lemma TickCas(s: State, s': State, t: TaskId, more: seq<Issue>)
    requires Shape(s) && CasInv(s) && Moves(s, s', t) && TickEffect(s, s', t, more)
    ensures CasInv(s')
  {
    hide StripeEffect, FileEffect, CountEffect, FlagEffect, TaskOk, Issued, Won, Claims, Expects, WinnersDiffer;
    assert TaskCas(s, s.tasks[t]);
    CasFrame(s, s', t);
  }

  /** Two tasks past locking share no key. */
  lemma KeysDisjoint(s: State, t: TaskId, u: TaskId, k: Bytes)
    requires Shape(s) && StripeInv(s) && t in s.tasks && u in s.tasks && t != u
    requires k in KeysOf(s.tasks[t].op) && s.tasks[t].pc.InFlight() && (s.tasks[t].pc.Locking? ==> Locked(s, t))
    requires s.tasks[u].pc.InFlight() && !s.tasks[u].pc.Locking?
    ensures k !in KeysOf(s.tasks[u].op)
  {
    hide TaskOk, StripeInv, KeysOf, Pc.InFlight;
    OwnsKeys(s, t, k);
    if k in KeysOf(s.tasks[u].op) {
      OwnsKeys(s, u, k);
      assert false;
    }
  }

  /** `t` raises the floor of keys it owns, to revisions it was issued. */
  ghost predicate RaiseEffect(s: State, s': State, t: TaskId)
    requires t in s.tasks && t in s'.tasks
  {
    && s.last <= s'.last && s'.hist == s.hist
    && (forall k :: k !in KeysOf(s.tasks[t].op) ==>
          (k in s'.floor <==> k in s.floor) && (k in s.floor ==> s'.floor[k] == s.floor[k]) && s'.idx.At(k).entry == s.idx.At(k).entry)
    && (forall k :: k in s.floor ==> k in s'.floor && s.floor[k] <= s'.floor[k])
    && Issued(s'.tasks[t]) == [] && !Claims(s'.tasks[t])
    && (Expects(s.tasks[t].op).Some? ==>
          var (k, r) := Expects(s.tasks[t].op).value; k in s.floor && s.floor[k] == r && r < s'.floor[k])
  }

  lemma RaiseCas(s: State, s': State, t: TaskId)
    requires Shape(s) && StripeInv(s) && CasInv(s) && Moves(s, s', t) && RaiseEffect(s, s', t) && FloorInv(s')
    requires s.tasks[t].pc.InFlight() && (s.tasks[t].pc.Locking? ==> Locked(s, t))
    ensures CasInv(s')
  {
    hide StripeInv, StripeEffect, FileEffect, CountEffect, FlagEffect, TaskOk, Issued, Won, Claims, WinnersDiffer, Pc.InFlight;
    forall u | u in s.tasks && u != t
      ensures Keeps(s, s', s.tasks[u])
    {
      if s.tasks[u].pc.InFlight() && !s.tasks[u].pc.Locking? {
        forall k | k in KeysOf(s.tasks[u].op)
          ensures k !in KeysOf(s.tasks[t].op)
        {
          if k in KeysOf(s.tasks[t].op) {
            KeysDisjoint(s, t, u, k);
          }
        }
      }
    }
    CasFrame(s, s', t);
  }

  /** Full records whose revisions ascend above the floor of their keys. */
  ghost predicate Rising(floor: map<Bytes, U64>, rs: seq<Record>) {
    && (forall i :: 0 <= i < |rs| ==> rs[i].IsFull() && (rs[i].key in floor ==> floor[rs[i].key] < rs[i].tstamp))
    && (forall i, j :: 0 <= i < j < |rs| ==> rs[i].tstamp < rs[j].tstamp)
  }

  /** The floor after committing `rs`: unmentioned keys keep theirs, mentioned ones rise. */
  ghost predicate Raised(floor: map<Bytes, U64>, rs: seq<Record>, floor': map<Bytes, U64>) {
    forall k ::
      && (k in floor ==> k in floor' && floor[k] <= floor'[k])
      && (Mentions(rs, k) ==> k in floor' && (k in floor ==> floor[k] < floor'[k]))
      && (!Mentions(rs, k) ==> (k in floor' <==> k in floor) && (k in floor ==> floor'[k] == floor[k]))
  }

  lemma {:induction false} RaiseFloorRaises(floor: map<Bytes, U64>, rs: seq<Record>)
    requires Rising(floor, rs)
    ensures Raised(floor, rs, RaiseFloor(floor, rs))
    decreases |rs|
  {
    hide Record.IsFull, Mentions, Raised;
    if rs == [] {
      RaisedNone(floor);
    } else {
      var next := floor[rs[0].key := rs[0].tstamp];
      assert Rising(next, rs[1..]);
      RaiseFloorRaises(next, rs[1..]);
      RaisedCons(floor, rs, RaiseFloor(next, rs[1..]));
    }
  }

  lemma RaisedNone(floor: map<Bytes, U64>)
    ensures Raised(floor, [], floor)
  {
  }

  lemma RaisedCons(floor: map<Bytes, U64>, rs: seq<Record>, floor': map<Bytes, U64>)
    requires rs != [] && (rs[0].key in floor ==> floor[rs[0].key] < rs[0].tstamp)
    requires Raised(floor[rs[0].key := rs[0].tstamp], rs[1..], floor')
    ensures Raised(floor, rs, floor')
  {
    hide Mentions;
    forall k
      ensures Mentions(rs, k) <==> rs[0].key == k || Mentions(rs[1..], k)
    {
      MentionsCons(rs, k);
    }
  }

  lemma {:induction false} RaiseFloorBound(floor: map<Bytes, U64>, rs: seq<Record>, last: U64)
    requires (forall k :: k in floor ==> floor[k] <= last) && (forall i :: 0 <= i < |rs| ==> rs[i].tstamp <= last)
    ensures forall k :: k in RaiseFloor(floor, rs) ==> RaiseFloor(floor, rs)[k] <= last
    decreases |rs|
  {
    if rs != [] {
      RaiseFloorBound(if rs[0].IsFull() then floor[rs[0].key := rs[0].tstamp] else floor, rs[1..], last);
    }
  }

  /** Each indexed revision is the floor of its key. */
  ghost predicate Matches(idx: Index, floor: map<Bytes, U64>) {
    forall k :: k in idx.entries ==> k in floor && idx.entries[k].tstamp == floor[k]
  }

  lemma {:induction false} CommitMatches(idx: Index, floor: map<Bytes, U64>, fileId: nat, offset: nat, rs: seq<Record>)
    requires Matches(idx, floor) && forall i :: 0 <= i < |rs| ==> !rs[i].IsTombstone()
    ensures Matches(RunAll(idx, fileId, offset, rs), RaiseFloor(floor, rs))
    decreases |rs|
  {
    if rs != [] {
      var r := rs[0];
      var idx' := RunRecord(idx, fileId, offset, r);
      var floor' := if r.IsFull() then floor[r.key := r.tstamp] else floor;
      assert Matches(idx', floor');
      CommitMatches(idx', floor', fileId, offset + r.Size(), rs[1..]);
    }
  }

  lemma WriteRises(s: State, t: TaskId)
    requires Shape(s) && CasInv(s) && t in s.tasks && s.tasks[t].pc.Appended? && s.tasks[t].op.Write?
    ensures Rising(s.floor, s.tasks[t].pc.recs)
    ensures forall i :: 0 <= i < |s.tasks[t].pc.recs| ==> s.tasks[t].pc.recs[i].tstamp <= s.last
  {
    hide StripesBelow, FloorInv, WinnersDiffer, Pair.ToRecord;
    var task := s.tasks[t];
    var rs := task.pc.recs;
    assert TaskOk(s.hash, task) && TaskCas(s, task);
    var xs := Issued(task);
    assert xs == IssuedRecords(rs);
    forall i | 0 <= i < |rs|
      ensures rs[i].IsFull() && rs[i].tstamp <= s.last && (rs[i].key in s.floor ==> s.floor[rs[i].key] < rs[i].tstamp)
    {
      assert xs[i] == Issue(rs[i].key, rs[i].tstamp, rs[i].value);
      assert rs[i] == task.op.pairs[i].ToRecord(rs[i].tstamp);
    }
    forall i, j | 0 <= i < j < |rs|
      ensures rs[i].tstamp < rs[j].tstamp
    {
      assert xs[i].rev < xs[j].rev;
    }
  }

  lemma RecordsKeys(op: Op, recs: seq<Record>, k: Bytes)
    requires op.Ok() && RecordsOf(op, recs) && Mentions(recs, k)
    ensures k in KeysOf(op)
  {
    var i :| 0 <= i < |recs| && recs[i].key == k;
    RecordKeys(op, recs, i);
  }

  lemma CommitRaises(s: State, e: Event)
    requires LockInv(s) && CasInv(s) && e.Commit? && Next(s, e).Some? && s.tasks[e.t].op.Write?
    ensures e.t in Next(s, e).value.tasks && RaiseEffect(s, Next(s, e).value, e.t) && FloorInv(Next(s, e).value)
  {
    var s' := Next(s, e).value;
    var task := s.tasks[e.t];
    var pc := task.pc;
    assert s'.idx == RunAll(s.idx, s.fileId, pc.offset, pc.recs) && s'.floor == RaiseFloor(s.floor, pc.recs);
    assert s'.hist == s.hist && s'.last == s.last && !Claims(s'.tasks[e.t]) && Issued(s'.tasks[e.t]) == [];
    CommitFloor(s, e.t, s');
  }

  /** Committing touches only the task's own keys. */
  lemma CommitOtherKeys(s: State, t: TaskId, k: Bytes)
    requires Shape(s) && t in s.tasks && s.tasks[t].pc.Appended? && k !in KeysOf(s.tasks[t].op)
    ensures !Mentions(s.tasks[t].pc.recs, k)
    ensures RunAll(s.idx, s.fileId, s.tasks[t].pc.offset, s.tasks[t].pc.recs).At(k) == s.idx.At(k)
  {
    hide RunAll, StripesBelow, KeysOf, Mentions, RecordsOf;
    var task := s.tasks[t];
    assert TaskOk(s.hash, task);
    if Mentions(task.pc.recs, k) {
      RecordsKeys(task.op, task.pc.recs, k);
      assert false;
    }
    RunAllAt(s.idx, s.fileId, task.pc.offset, task.pc.recs, k);
    UnmentionedSlots(s.idx.At(k), k, s.fileId, task.pc.offset, task.pc.recs);
  }

  lemma CommitFloor(s: State, t: TaskId, s': State)
    requires LockInv(s) && CasInv(s) && t in s.tasks && s.tasks[t].pc.Appended? && s.tasks[t].op.Write?
    requires t in s'.tasks && Issued(s'.tasks[t]) == [] && !Claims(s'.tasks[t])
    requires s'.idx == RunAll(s.idx, s.fileId, s.tasks[t].pc.offset, s.tasks[t].pc.recs)
    requires s'.floor == RaiseFloor(s.floor, s.tasks[t].pc.recs) && s'.hist == s.hist && s'.last == s.last
    ensures RaiseEffect(s, s', t) && FloorInv(s')
  {
    hide FileInv, GateInv, StripeInv, Shape, RunAll, RaiseFloor, Issued, WinnersDiffer, IssuesOk, KeysOf, Mentions, Claims, Expects;
    var task := s.tasks[t];
    var pc := task.pc;
    assert TaskCas(s, task);
    WriteRises(s, t);
    RaiseFloorRaises(s.floor, pc.recs);
    RaiseFloorBound(s.floor, pc.recs, s.last);
    CommitMatches(s.idx, s.floor, s.fileId, pc.offset, pc.recs);
    forall k | k !in KeysOf(task.op)
      ensures !Mentions(pc.recs, k) && s'.idx.At(k).entry == s.idx.At(k).entry
    {
      CommitOtherKeys(s, t, k);
    }
    ClaimMentions(s, t);
  }

  lemma ClaimMentions(s: State, t: TaskId)
    requires Shape(s) && t in s.tasks && s.tasks[t].pc.Appended? && s.tasks[t].op.Write?
    ensures Claims(s.tasks[t])
    ensures Expects(s.tasks[t].op).Some? ==> Mentions(s.tasks[t].pc.recs, Expects(s.tasks[t].op).value.0)
  {
    hide StripesBelow;
    var task := s.tasks[t];
    assert TaskOk(s.hash, task);
    if Expects(task.op).Some? {
      assert task.pc.recs[0].key == Expects(task.op).value.0;
    }
  }

  lemma TtlCommit(s: State, e: Event)
    requires Shape(s) && e.Commit? && Next(s, e).Some? && !s.tasks[e.t].op.Write?
    ensures var s' := Next(s, e).value;
            && e.t in s'.tasks && s'.last == s.last && s'.hist == s.hist && s'.floor == s.floor
            && s'.idx.entries == s.idx.entries && Issued(s'.tasks[e.t]) == [] && !Claims(s'.tasks[e.t])
            && Expects(s.tasks[e.t].op).None?
  {
    hide StripesBelow, UnrefAll, Superseded;
    var pc := s.tasks[e.t].pc;
    assert TaskOk(s.hash, s.tasks[e.t]);
    assert pc.recs[1..] == [] && pc.recs[0].IsTtlUpdate();
    assert RaiseFloor(s.floor, pc.recs) == RaiseFloor(s.floor, []) == s.floor;
    assert RunAll(s.idx, s.fileId, pc.offset, pc.recs) == RunRecord(s.idx, s.fileId, pc.offset, pc.recs[0]);
  }

  lemma TtlCommitRaises(s: State, e: Event)
    requires LockInv(s) && CasInv(s) && e.Commit? && Next(s, e).Some? && !s.tasks[e.t].op.Write?
    ensures e.t in Next(s, e).value.tasks && RaiseEffect(s, Next(s, e).value, e.t) && FloorInv(Next(s, e).value)
  {
    hide Next, Shape, StripeInv, FileInv, GateInv, WinnersDiffer, IssuesOk, TaskCas, Issued, Claims, Expects;
    TtlCommit(s, e);
  }

  lemma DropFields(s: State, e: Event)
    requires FloorInv(s) && e.Drop? && Next(s, e).Some?
    ensures var s' := Next(s, e).value;
            && e.t in s.tasks && e.t in s'.tasks
            && var op := s.tasks[e.t].op;
            && op.Delete? && s'.idx == s.idx.Remove(op.key)
            && s'.last > s.last && s'.floor == s.floor[op.key := s'.last] && s'.hist == s.hist
            && Issued(s'.tasks[e.t]) == [] && !Claims(s'.tasks[e.t])
            && (op.expected.Some? ==> op.key in s.floor && s.floor[op.key] == op.expected.value)
  {
    hide Index.Remove;
  }

  lemma DropRaises(s: State, e: Event)
    requires CasInv(s) && e.Drop? && Next(s, e).Some?
    ensures e.t in Next(s, e).value.tasks && RaiseEffect(s, Next(s, e).value, e.t) && FloorInv(Next(s, e).value)
  {
    hide Next, WinnersDiffer, TaskCas, Issued, Claims;
    DropFields(s, e);
    var s' := Next(s, e).value;
    assert FloorInv(s');
    assert forall k :: k in s.floor ==> k in s'.floor && s.floor[k] <= s'.floor[k];
    assert forall k :: k !in KeysOf(s.tasks[e.t].op) ==> s'.idx.At(k) == s.idx.At(k);
    assert forall k :: k !in KeysOf(s.tasks[e.t].op) ==> k != s.tasks[e.t].op.key;
    assert Expects(s.tasks[e.t].op).Some? ==> s.tasks[e.t].op.expected.Some?;
  }

  lemma ResetCas(s: State, e: Event)
    requires LockInv(s) && CasInv(s) && IsReset(e) && !e.Unfreeze? && Next(s, e).Some?
    ensures CasInv(Next(s, e).value)
  {
    var s' := Next(s, e).value;
    StepMoves(s, e);
    assert s.inFlight == 0 && s'.floor == s.floor && s'.hist == s.hist && s.last <= s'.last;
    assert Issued(s'.tasks[e.t]) == [] && !Claims(s'.tasks[e.t]) && !Won(s'.tasks[e.t]);
    assert FloorInv(s');
    ResetFrame(s, s', e.t);
  }

  lemma ResetFrame(s: State, s': State, t: TaskId)
    requires LockInv(s) && CasInv(s) && Moves(s, s', t) && s.inFlight == 0 && t in s'.tasks
    requires s'.floor == s.floor && s'.hist == s.hist && s.last <= s'.last && FloorInv(s')
    requires Issued(s'.tasks[t]) == [] && !Claims(s'.tasks[t]) && !Won(s'.tasks[t])
    ensures CasInv(s')
  {
    hide Shape, StripeInv, FileInv, Moves, Issued, Claims, Won, WinnersDiffer;
    NoneInFlight(s);
    assert TaskCas(s', s'.tasks[t]);
    CasFrame(s, s', t);
  }

  lemma SpawnCas(s: State, e: Event)
    requires CasInv(s) && (e.Spawn? || e.Unfreeze?) && Next(s, e).Some?
    ensures CasInv(Next(s, e).value)
  {
    hide StripesBelow, IssuesOk, Expects, Op.Ok;
    var s' := Next(s, e).value;
    forall u | u in s'.tasks
      ensures TaskCas(s', s'.tasks[u])
    {
      if u in s.tasks {
        assert s'.tasks[u] == s.tasks[u] && TaskCas(s, s.tasks[u]);
        SameIssues(s, s', Issued(s.tasks[u]));
      } else {
        assert Issued(s'.tasks[u]) == [];
        NoIssues(s');
      }
    }
  }

  lemma SameIssues(s: State, s': State, xs: seq<Issue>)
    requires IssuesOk(s, xs) && s'.floor == s.floor && s'.hist == s.hist && s'.last == s.last
    ensures IssuesOk(s', xs)
  {
  }

  lemma NoIssues(s: State)
    ensures IssuesOk(s, [])
  {
  }

  lemma CasStep(s: State, e: Event)
    requires LockInv(s) && CasInv(s) && Next(s, e).Some?
    ensures CasInv(Next(s, e).value)
  {
    hide Next, CasInv, Moves, QuietEffect, TickEffect, RaiseEffect, FloorInv, Shape, StripeInv, FileInv, GateInv;
    var s' := Next(s, e).value;
    if e.Spawn? || e.Unfreeze? {
      SpawnCas(s, e);
    } else if IsReset(e) {
      ResetCas(s, e);
    } else {
      StepMoves(s, e);
      if e.Stamp? {
        var more := StampTicks(s, e);
        TickCas(s, s', e.t, more);
      } else if e.AppendTtl? {
        TtlTicks(s, e);
        TickCas(s, s', e.t, []);
      } else if e.Commit? || e.Drop? {
        RaisesPast(s, e);
        RaiseCas(s, s', e.t);
      } else {
        QuietEvents(s, e);
        QuietCasStep(s, s', e.t);
      }
    }
  }

  lemma RaisesPast(s: State, e: Event)
    requires LockInv(s) && CasInv(s) && (e.Commit? || e.Drop?) && Next(s, e).Some?
    ensures e.t in s.tasks && s.tasks[e.t].pc.InFlight() && (s.tasks[e.t].pc.Locking? ==> Locked(s, e.t))
    ensures e.t in Next(s, e).value.tasks && RaiseEffect(s, Next(s, e).value, e.t) && FloorInv(Next(s, e).value)
  {
    hide RaiseEffect, FloorInv, LockInv, CasInv;
    if e.Drop? {
      DropRaises(s, e);
    } else if s.tasks[e.t].op.Write? {
      CommitRaises(s, e);
    } else {
      TtlCommitRaises(s, e);
    }
  }

  lemma InitCas(s: State)
    requires Init(s)
    ensures CasInv(s)
  {
  }

  lemma {:induction false} CasRun(s: State, es: seq<Event>)
    requires Init(s) && Run(s, es).Some?
    ensures CasInv(Run(s, es).value)
    decreases |es|
  {
    hide Next, LockInv, CasInv;
    if es == [] {
      InitCas(s);
    } else {
      CasRun(s, es[..|es| - 1]);
      LockInvRun(s, es[..|es| - 1]);
      CasStep(Run(s, es[..|es| - 1]).value, es[|es| - 1]);
    }
  }

  /** Of all conditional writers and deleters that ever expected revision `r` of key `k`,
      at most one succeeds. */
  lemma AtMostOneWinner(s0: State, es: seq<Event>, t: TaskId, u: TaskId, k: Bytes, r: U64)
    requires Init(s0) && Run(s0, es).Some?
    requires t in Run(s0, es).value.tasks && u in Run(s0, es).value.tasks
    requires Won(Run(s0, es).value.tasks[t]) && Won(Run(s0, es).value.tasks[u])
    requires Expects(Run(s0, es).value.tasks[t].op) == Some((k, r)) == Expects(Run(s0, es).value.tasks[u].op)
    ensures t == u
  {
    hide Run, Init, FloorInv, TaskCas;
    CasRun(s0, es);
  }

  /** The revision an event issues, if any. */
  function IssuedBy(s: State, e: Event): seq<nat> {
    match e
    case Stamp(_, clock) => [Tick(s, clock)]
    case Drop(_, clock) => [Tick(s, clock)]
    case AppendTtl(_, clock) => [Tick(s, clock)]
    case EndFlush(_, _, clock) => [Tick(s, clock)]
    case _ => []
  }

  /** Every revision issued in a run, in order. */
  ghost function Revisions(s: State, es: seq<Event>): seq<nat>
    requires Run(s, es).Some?
    decreases |es|
  {
    if es == [] then []
    else Revisions(s, es[..|es| - 1]) + IssuedBy(Run(s, es[..|es| - 1]).value, es[|es| - 1])
  }

  lemma IssuedByIsLast(s: State, e: Event)
    requires Next(s, e).Some?
    ensures s.last <= Next(s, e).value.last
    ensures IssuedBy(s, e) == [] || (IssuedBy(s, e) == [Next(s, e).value.last] && s.last < Next(s, e).value.last)
  {
    hide RunAll, Superseded, UnrefAll, StripesBelow, PairRecords, Met, Relocated;
  }

  /** Strictly increasing, above `low`, none above `high`. */
  ghost predicate Increasing(revs: seq<nat>, low: nat, high: nat) {
    && low <= high
    && (forall i :: 0 <= i < |revs| ==> low < revs[i] <= high)
    && (forall i, j :: 0 <= i < j < |revs| ==> revs[i] < revs[j])
  }

  /** Revisions issued in a run are strictly increasing, whatever the clock does. */
  lemma {:induction false} RevisionsIncrease(s: State, es: seq<Event>)
    requires Run(s, es).Some?
    ensures Increasing(Revisions(s, es), s.last, Run(s, es).value.last)
    decreases |es|
  {
    hide Next, IssuedBy;
    if es != [] {
      RevisionsIncrease(s, es[..|es| - 1]);
      IssuedByIsLast(Run(s, es[..|es| - 1]).value, es[|es| - 1]);
    }
  }
}
