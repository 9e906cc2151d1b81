/** The content-addressed blob store, one operation at a time. */
module ValueStores {
  import opened Types
  import opened LogMachine
  import opened CrashState

  class ValueStore {
    const hash: Bytes -> Hash
    var refs: map<Hash, nat>
    var pending: seq<Hash>
    /** The blob files on disk. */
    var files: map<Hash, Bytes>

    ghost predicate Valid()
      reads this
    {
      && (forall h :: h in refs ==> refs[h] > 0)
      && (forall h :: h in files ==> hash(files[h]) == h)
    }

    ghost function Count(h: Hash): nat
      reads this
    {
      if h in refs then refs[h] else 0
    }

    /** The store without the contents of its files. */
    ghost function View(): Blobs
      reads this
    {
      Blobs(refs, pending, files.Keys, map[])
    }

    constructor (hash: Bytes -> Hash, files: map<Hash, Bytes>)
      requires forall h :: h in files ==> hash(files[h]) == h
      ensures Valid() && this.hash == hash && refs == map[] && pending == [] && this.files == files
    {
      this.hash, this.files, refs, pending := hash, files, map[], [];
    }

    /** Stores a value once per content; the first reference writes the file. */
    method Put(value: Bytes) returns (h: Hash)
      requires Valid()
      modifies this
      ensures Valid() && h == hash(value) && pending == old(pending)
      ensures forall g :: Count(g) == old(Count(g)) + if g == h then 1 else 0
      ensures files == if old(Count(h)) == 0 then old(files)[h := value] else old(files)
      ensures View() == TakeRef(old(View()), h)
    {
      h := hash(value);
      var count := (if h in refs then refs[h] else 0) + 1;
      refs := refs[h := count];
      if count == 1 {
        files := files[h := value];
      }
    }

    /** One more reference to a blob that is already on disk. */
    method IncrRef(h: Hash)
      requires Valid()
      modifies this
      ensures Valid() && pending == old(pending) && files == old(files)
      ensures forall g :: Count(g) == old(Count(g)) + if g == h then 1 else 0
    {
      refs := refs[h := (if h in refs then refs[h] else 0) + 1];
    }

    /** Drops a reference; the last one queues the blob instead of deleting it. */
    method Unref(h: Hash)
      requires Valid()
      modifies this
      ensures Valid() && files == old(files)
      ensures forall g :: Count(g) == if g == h && old(Count(h)) > 0 then old(Count(h)) - 1 else old(Count(g))
      ensures pending == if old(Count(h)) == 1 then old(pending) + [h] else old(pending)
      ensures View() == old(View()).Unref(h)
    {
      if h in refs {
        if refs[h] == 1 {
          refs := refs - {h};
          pending := pending + [h];
        } else {
          refs := refs[h := refs[h] - 1];
        }
      }
    }

    /** Deletes the queued blobs that nothing references any more. */
    method CollectGarbage()
      requires Valid()
      modifies this
      ensures Valid() && refs == old(refs) && pending == []
      ensures forall h :: h in files <==> h in old(files) && (h in old(pending) ==> old(Count(h)) > 0)
      ensures forall h :: h in files ==> files[h] == old(files)[h]
      ensures View() == Collected(old(View()))
    {
      var queue := pending;
      pending := [];
      var i := 0;
      while i < |queue|
        invariant 0 <= i <= |queue| && refs == old(refs) && pending == []
        invariant forall h :: h in files <==> h in old(files) && (h in queue[..i] ==> old(Count(h)) > 0)
        invariant forall h :: h in files ==> files[h] == old(files)[h]
      {
        assert queue[..i + 1] == queue[..i] + [queue[i]];
        if queue[i] !in refs {
          files := files - {queue[i]};
        }
        i := i + 1;
      }
      assert queue[..i] == queue;
    }

    /** Deletes every file that no reference names; returns how many. */
    method SweepOrphans() returns (removed: nat)
      requires Valid()
      modifies this
      ensures Valid() && refs == old(refs) && pending == old(pending)
      ensures files == map h | h in old(files) && old(Count(h)) > 0 :: old(files)[h]
      ensures View() == Swept(old(View())) && removed == |old(files)| - |files|
    {
      hide Swept;
      ghost var all := files;
      var todo := files.Keys;
      removed := 0;
      while todo != {}
        invariant todo <= all.Keys && refs == old(refs) && pending == old(pending)
        invariant forall h :: h in files <==> h in all && (h in todo || h in refs)
        invariant forall h :: h in files ==> files[h] == all[h]
        invariant removed == |all| - |files|
        decreases todo
      {
        var h :| h in todo;
        todo := todo - {h};
        if h !in refs {
          OneFewer(files, h);
          files := files - {h};
          removed := removed + 1;
        }
      }
      SweptFiles(old(View()), View());
    }

    method Clear()
      modifies this
      ensures Valid() && View() == FLUSHED.blobs
    {
      refs, pending, files := map[], [], map[];
    }
  }

  lemma OneFewer(files: map<Hash, Bytes>, h: Hash)
    requires h in files
    ensures |files - {h}| == |files| - 1
  {
    assert (files - {h}).Keys == files.Keys - {h};
  }

  lemma SweptFiles(b: Blobs, b': Blobs)
    requires b'.refs == b.refs && b'.pending == b.pending && b'.locks == b.locks && forall h :: h in b.refs ==> b.refs[h] > 0
    requires forall h :: h in b'.onDisk <==> h in b.onDisk && h in b.refs
    ensures b' == Swept(b)
  {
  }
}
