/**
 * The worker's in-memory model of disk usage (fs_model.c): the file and
 * relation maps and the orphan list are local to the worker, the role
 * totals live in a table shared with the backends. Each method is proved
 * against the transition of LedgerOps that it performs.
 */
module FsModel {
  import opened PgTypes
  import opened RelPath
  import opened Ledger
  import opened LedgerOps

  /** The shared-memory table of role totals and quotas (role_totals_map). */
  class QuotaShared {
    var entries: RoleMap

    /** A freshly initialised shared segment holds no rows. */
    constructor ()
      ensures entries == map[]
    {
      entries := map[];
    }
  }

  /** One worker's model of the files of its database. */
  class Model {
    /** path_to_fsentry_map, keyed by the bare name of the file. */
    var files: FileMap
    /** relfilenode_to_relentry_map. */
    var rels: RelMap
    /** orphanRels, head first. */
    var orphans: seq<RelFileNode>
    /** The number of the current scan. */
    var generation: nat
    /** The database this worker is connected to (MyDatabaseId). */
    const myDatabaseId: Oid
    /** The table shared with the backends. */
    const shared: QuotaShared

    /** The model's state as one value. */
    ghost function Snapshot(): State
      reads this, shared
    {
      State(files, rels, orphans, shared.entries)
    }

    /** The ledger invariant of LedgerOps.Consistent, in the current scan. */
    ghost predicate Valid()
      reads this, shared
    {
      Consistent(Snapshot(), generation, myDatabaseId)
    }

    /**
     * Per-worker initialisation (init_fs_model): empty local maps and list,
     * and the rows of this database that an earlier worker left behind are
     * taken out of the shared table, visiting its rows one at a time.
     */
    constructor (shared: QuotaShared, myDatabaseId: Oid)
      modifies shared
      ensures this.shared == shared && this.myDatabaseId == myDatabaseId
      ensures files == map[] && rels == map[] && orphans == [] && generation == 0
      ensures shared.entries == ForgetDatabase(old(shared.entries), myDatabaseId)
      ensures Valid()
    {
      var entries := shared.entries;
      var pending := entries.Keys;
      var kept := entries;
      while pending != {}
        invariant pending <= entries.Keys
        invariant kept == map k | k in entries && (k in pending || k.dbid != myDatabaseId) :: entries[k]
        decreases pending
      {
        var k :| k in pending;
        if k.dbid == myDatabaseId {
          kept := kept - {k};
        }
        pending := pending - {k};
      }
      shared.entries := kept;
      this.shared := shared;
      this.myDatabaseId := myDatabaseId;
      files := map[];
      rels := map[];
      orphans := [];
      generation := 0;
      new;
      ResetConsistent(entries, 0, myDatabaseId);
    }

    /**
     * Record that the file name of relation rnode has size newsize in the
     * current scan (UpdateFileSize). A relation seen for the first time is
     * created ownerless and pushed on the orphan list; a change in size is
     * added to the relation's total and, if its owner is known, to the
     * owner's row, which is created when missing.
     */
    method UpdateFileSize(rnode: RelFileNode, name: string, newsize: int)
      requires name in files ==> files[name].parent == rnode
      modifies this, shared
      ensures generation == old(generation)
      ensures Snapshot() == RecordFile(old(Snapshot()), generation, myDatabaseId, rnode, name, newsize)
      ensures old(Valid()) ==> Valid()
      ensures old(Valid()) ==> OnlyOwnerTotalsMoved(old(shared.entries), shared.entries, myDatabaseId)
    {
      ghost var s0 := Snapshot();
      var newOrphans := orphans;
      var newEntries := shared.entries;
      var relentry: RelSizeEntry;
      if rnode in rels {
        relentry := rels[rnode];
      } else {
        relentry := RelSizeEntry(InvalidOid, 0, 0);
        newOrphans := [rnode] + newOrphans;
      }
      var fsentry: FileSizeEntry;
      if name in files {
        fsentry := files[name];
      } else {
        fsentry := FileSizeEntry(0, rnode, generation);
        relentry := relentry.(numfiles := relentry.numfiles + 1);
      }
      var oldsize := fsentry.filesize;
      fsentry := fsentry.(filesize := newsize, generation := generation);
      if newsize != oldsize {
        relentry := relentry.(totalsize := relentry.totalsize + (newsize - oldsize));
        if relentry.owner != InvalidOid {
          newEntries := Credit(newEntries, RoleKey(relentry.owner, myDatabaseId), newsize - oldsize);
        }
      }
      assert relentry == RecordedRel(s0.files, s0.rels, rnode, name, newsize);
      assert newEntries == CreditOwner(s0.roles, WalkOwner(s0.rels, rnode), myDatabaseId, SizeChange(s0.files, name, newsize));
      files := files[name := fsentry];
      rels := rels[rnode := relentry];
      orphans := newOrphans;
      shared.entries := newEntries;
      ghost var s1 := RecordFile(s0, generation, myDatabaseId, rnode, name, newsize);
      assert Snapshot() == s1;
      if Consistent(s0, generation, myDatabaseId) {
        RecordFileConsistent(s0, generation, myDatabaseId, rnode, name, newsize);
        assert Consistent(s1, generation, myDatabaseId);
      }
    }

    /**
     * Forget the file name (RemoveFileSize): its size leaves the relation's
     * total and, if the owner is known and the size is not zero, the owner's
     * row. A relation whose last file goes is deleted, and unlinked from the
     * orphan list only when its owner is unknown.
     */
    method RemoveFileSize(name: string)
      requires name in files && files[name].parent in rels
      modifies this, shared
      ensures generation == old(generation)
      ensures Snapshot() == RemoveFile(old(Snapshot()), myDatabaseId, name)
      ensures old(Valid()) ==> Valid()
      ensures old(Valid()) ==> OnlyOwnerTotalsMoved(old(shared.entries), shared.entries, myDatabaseId)
      ensures old(Valid()) ==>
                var p := old(files)[name].parent;
                old(rels)[p].numfiles == 1 ==> old(rels)[p].totalsize == old(files)[name].filesize
    {
      ghost var s0 := Snapshot();
      var fsentry := files[name];
      var relentry := rels[fsentry.parent];
      var filesize := fsentry.filesize;
      var owner := relentry.owner;
      var newRels := rels;
      var newOrphans := orphans;
      var newEntries := shared.entries;

      relentry := relentry.(totalsize := relentry.totalsize - filesize, numfiles := relentry.numfiles - 1);
      if relentry.numfiles == 0 {
        if relentry.owner == InvalidOid {
          newOrphans := RemoveFirst(newOrphans, fsentry.parent);
        }
        newRels := newRels - {fsentry.parent};
      } else {
        newRels := newRels[fsentry.parent := relentry];
      }
      if owner != InvalidOid && filesize != 0 {
        newEntries := Debit(newEntries, RoleKey(owner, myDatabaseId), filesize);
      }
      ghost var s1 := RemoveFile(s0, myDatabaseId, name);
      assert newRels == s1.rels;
      assert newOrphans == s1.orphans;
      assert newEntries == s1.roles;
      if Consistent(s0, generation, myDatabaseId) {
        RemoveFileConsistent(s0, generation, myDatabaseId, name);
      }
      files := files - {name};
      rels := newRels;
      orphans := newOrphans;
      shared.entries := newEntries;
      assert Snapshot() == s1;
    }

    /**
     * Scan one directory (RebuildRelSizeMapDir): every entry the filter
     * accepts is recorded, in listing order.
     */
    method RebuildRelSizeMapDir(dirpath: string, listing: seq<DirEntry>)
      requires Valid()
      requires ScanConsistent(files, DirObservations(dirpath, listing))
      modifies this, shared
      ensures generation == old(generation)
      ensures Snapshot() == RecordAll(old(Snapshot()), DirObservations(dirpath, listing), generation, myDatabaseId)
      ensures Valid()
    {
      ghost var s0 := Snapshot();
      ghost var all := DirObservations(dirpath, listing);
      ghost var todo := all;
      var i := 0;
      while i < |listing|
        invariant 0 <= i <= |listing|
        invariant generation == old(generation)
        invariant todo == DirObservations(dirpath, listing[i..])
        invariant Valid()
        invariant ScanConsistent(files, todo)
        invariant RecordAll(Snapshot(), todo, generation, myDatabaseId) == RecordAll(s0, all, generation, myDatabaseId)
      {
        DirObservationsStep(dirpath, listing, i);
        ghost var rest := DirObservations(dirpath, listing[i + 1..]);
        match AcceptFile(dirpath, listing[i]) {
          case None =>
            assert todo == rest;
          case Some(o) =>
            assert todo == [o] + rest;
            ConsistentAfterFirst(files, o, rest, generation);
            RecordAllCons(Snapshot(), o, rest, generation, myDatabaseId);
            UpdateFileSize(o.rnode, o.name, o.size);
        }
        todo := rest;
        i := i + 1;
      }
      assert listing[|listing|..] == [];
    }

    /** One entry of base/: a directory named by a number is scanned as a database directory. */
    method ScanBaseEntry(b: BaseEntry)
      requires Valid()
      requires ScanConsistent(files, BaseObservations(b))
      modifies this, shared
      ensures generation == old(generation)
      ensures Snapshot() == RecordAll(old(Snapshot()), BaseObservations(b), generation, myDatabaseId)
      ensures Valid()
    {
      if IsDatabaseDir(b.name) {
        RebuildRelSizeMapDir(BasePrefix + b.name, b.listing);
      }
    }

    /** The walk over base/ (the first half of refresh_fs_model). */
    method WalkBase(base: seq<BaseEntry>)
      requires Valid()
      requires ScanConsistent(files, ScanObservations(base))
      modifies this, shared
      ensures generation == old(generation)
      ensures Snapshot() == RecordAll(old(Snapshot()), ScanObservations(base), generation, myDatabaseId)
      ensures Valid()
    {
      ghost var s0 := Snapshot();
      ghost var all := ScanObservations(base);
      ghost var todo := all;
      var i := 0;
      while i < |base|
        invariant 0 <= i <= |base|
        invariant generation == old(generation)
        invariant todo == ScanObservations(base[i..])
        invariant Valid()
        invariant ScanConsistent(files, todo)
        invariant RecordAll(Snapshot(), todo, generation, myDatabaseId) == RecordAll(s0, all, generation, myDatabaseId)
      {
        ScanObservationsStep(base, i);
        ghost var here := BaseObservations(base[i]);
        ghost var rest := ScanObservations(base[i + 1..]);
        ghost var s1 := Snapshot();
        ScanSplitsAt(s1, here, rest, generation, myDatabaseId);
        ScanBaseEntry(base[i]);
        todo := rest;
        i := i + 1;
      }
      assert base[|base|..] == [];
    }

    /**
     * The reclaim pass (the end of refresh_fs_model): every file not seen
     * in the current scan is removed.
     */
    method ReclaimUnseen()
      requires Valid()
      modifies this, shared
      ensures generation == old(generation)
      ensures Reclaiming(Snapshot(), old(Snapshot()), generation, myDatabaseId)
      ensures forall n :: n in files ==> files[n].generation == generation
    {
      ghost var s0 := Snapshot();
      ReclaimingStart(s0, generation, myDatabaseId);
      while exists n :: n in files && files[n].generation != generation
        invariant generation == old(generation)
        invariant Reclaiming(Snapshot(), s0, generation, myDatabaseId)
        decreases files.Keys
      {
        var n :| n in files && files[n].generation != generation;
        ReclaimingStep(Snapshot(), s0, generation, myDatabaseId, n);
        RemoveFileSize(n);
      }
    }

    /**
     * Rescan the data directory (refresh_fs_model): bump the scan number,
     * record every file of base/<database>/, then forget every file the
     * scan did not see. Afterwards the file map holds exactly this scan's
     * files, the relations are exactly their parents, every relation keeps
     * the owner it had (a new one has none), and the orphan list is the old
     * one with each new relation pushed on it and each ownerless relation
     * that lost its last file unlinked.
     */
    method Refresh(base: seq<BaseEntry>)
      requires Valid()
      requires ScanConsistent(files, ScanObservations(base))
      modifies this, shared
      ensures Valid()
      ensures generation == old(generation) + 1
      ensures files == ApplyObservations(map[], ScanObservations(base), generation)
      ensures rels.Keys == Parents(files)
      ensures forall r :: r in rels ==> rels[r].owner == WalkOwner(old(rels), r)
      ensures multiset(orphans) + multiset(Reclaimed(old(rels), ScanObservations(base), rels))
           == multiset(PushNewRels(old(orphans), old(rels).Keys, ScanObservations(base)))
      ensures OnlyOwnerTotalsMoved(old(shared.entries), shared.entries, myDatabaseId)
      ensures Refreshed(old(Snapshot()), ScanObservations(base), generation, myDatabaseId, Snapshot())
    {
      ghost var obs := ScanObservations(base);
      ghost var s0 := Snapshot();
      generation := generation + 1;
      ConsistentLater(s0, generation - 1, generation, myDatabaseId);
      WalkBase(base);
      RecordAllConsistent(s0, obs, generation, myDatabaseId);
      ReclaimUnseen();
      RefreshOutcome(s0, obs, generation, myDatabaseId, Snapshot());
    }

    /**
     * Set the owner of relation rnode (UpdateRelOwner): its total moves from
     * the old owner's row to the new owner's row.
     */
    method UpdateRelOwner(rnode: RelFileNode, owner: Oid)
      modifies this, shared
      ensures generation == old(generation)
      ensures Snapshot() == SetOwner(old(Snapshot()), myDatabaseId, rnode, owner)
      ensures old(Valid()) ==> Valid()
    {
      ghost var s0 := Snapshot();
      if rnode !in rels {
        return;
      }
      var relentry := rels[rnode];
      if relentry.owner == owner {
        return;
      }
      shared.entries := Debit(shared.entries, RoleKey(relentry.owner, myDatabaseId), relentry.totalsize);
      relentry := relentry.(owner := owner);
      rels := rels[rnode := relentry];
      if owner != InvalidOid {
        shared.entries := Credit(shared.entries, RoleKey(owner, myDatabaseId), relentry.totalsize);
      } else {
        orphans := [rnode] + RemoveFirst(orphans, rnode);
      }
      if Consistent(s0, generation, myDatabaseId) {
        SetOwnerConsistent(s0, generation, myDatabaseId, rnode, owner);
      }
    }

    /** Set the quota of owner in this database (UpdateQuota). */
    method UpdateQuota(owner: Oid, newquota: int)
      modifies shared
      ensures Snapshot() == AssignQuota(old(Snapshot()), myDatabaseId, owner, newquota)
      ensures old(Valid()) ==> Valid()
    {
      ghost var s0 := Snapshot();
      shared.entries := SetQuota(shared.entries, RoleKey(owner, myDatabaseId), newquota);
      if Consistent(s0, generation, myDatabaseId) {
        AssignQuotaConsistent(s0, generation, myDatabaseId, owner, newquota);
      }
    }

    /**
     * Look up the owner of every relation on the orphan list
     * (UpdateOrphans); ownerOf stands for the catalog lookup and gives
     * InvalidOid when the owner cannot be found. Resolving a relation does
     * not unlink it, so the list walked is the list as it stood.
     */
    method UpdateOrphans(ownerOf: RelFileNode -> Oid)
      modifies this, shared
      ensures generation == old(generation)
      ensures orphans == old(orphans)
      ensures Snapshot() == ResolveOwners(old(Snapshot()), myDatabaseId, old(orphans), ownerOf)
      ensures old(Valid()) ==> Valid()
    {
      ghost var s0 := Snapshot();
      var pending := orphans;
      var i := 0;
      while i < |pending|
        invariant 0 <= i <= |pending|
        invariant generation == old(generation)
        invariant orphans == pending
        invariant ResolveOwners(Snapshot(), myDatabaseId, pending[i..], ownerOf)
               == ResolveOwners(s0, myDatabaseId, pending, ownerOf)
        invariant old(Valid()) ==> Valid()
      {
        var rnode := pending[i];
        var owner := ownerOf(rnode);
        assert pending[i..][1..] == pending[i + 1..];
        if owner != InvalidOid {
          UpdateRelOwner(rnode, owner);
        }
        i := i + 1;
      }
    }
  }
}
