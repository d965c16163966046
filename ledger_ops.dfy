/**
 * The ledger's state as one value, the transitions that fs_model.c applies
 * to it, and the invariants those transitions keep.
 */
module LedgerOps {
  import opened PgTypes
  import opened MapSums
  import opened Ledger

  /** The worker's local maps and orphan list, and the shared table of role rows. */
  datatype State = State(files: FileMap, rels: RelMap, orphans: seq<RelFileNode>, roles: RoleMap)

  /* ----- The invariant, part by part ----- */

  /** Every file belongs to a known relation and was seen no later than scan g. */
  ghost predicate FilesKnown(files: FileMap, rels: RelMap, g: nat) {
    forall n :: n in files ==> files[n].parent in rels && files[n].generation <= g
  }

  /** Each relation's count and total are those of its files, and it has a file. */
  ghost predicate RelsBalanced(files: FileMap, rels: RelMap) {
    forall r :: r in rels ==>
      && rels[r].numfiles == RelFileCount(files, r)
      && rels[r].totalsize == RelBytes(files, r)
      && rels[r].numfiles > 0
  }

  /** Every relation is on the orphan list: resolving an owner never unlinks it. */
  ghost predicate RelsListed(rels: RelMap, orphans: seq<RelFileNode>) {
    forall r :: r in rels ==> r in orphans
  }

  /** A relation with a known owner has that owner's row for this database. */
  ghost predicate OwnersHaveRows(rels: RelMap, roles: RoleMap, db: Oid) {
    forall r :: r in rels && rels[r].owner != InvalidOid ==> RoleKey(rels[r].owner, db) in roles
  }

  /** The total of each known role of this database is what the relations it owns hold. */
  ghost predicate RoleTotalsBalanced(rels: RelMap, roles: RoleMap, db: Oid) {
    forall k :: k in roles && k.dbid == db && k.rolid != InvalidOid ==>
      roles[k].totalsize == OwnerBytes(rels, k.rolid)
  }

  ghost predicate Consistent(s: State, g: nat, db: Oid) {
    && FilesKnown(s.files, s.rels, g)
    && RelsBalanced(s.files, s.rels)
    && RelsListed(s.rels, s.orphans)
    && OwnersHaveRows(s.rels, s.roles, db)
    && RoleTotalsBalanced(s.rels, s.roles, db)
  }

  /* ----- UpdateFileSize ----- */

  /** How much a file's size moves when it is recorded with newsize (a new file had 0). */
  function SizeChange(files: FileMap, name: string, newsize: int): int {
    newsize - (if name in files then files[name].filesize else 0)
  }

  /** The relation entry after recording one of its files; a new relation starts ownerless and empty. */
  function RecordedRel(files: FileMap, rels: RelMap, rnode: RelFileNode, name: string, newsize: int): RelSizeEntry {
    var rel := if rnode in rels then rels[rnode] else RelSizeEntry(InvalidOid, 0, 0);
    RelSizeEntry(rel.owner, rel.numfiles + (if name in files then 0 else 1), rel.totalsize + SizeChange(files, name, newsize))
  }

  /** A non-zero change reaches the row of a known owner, which is created if missing. */
  function CreditOwner(roles: RoleMap, owner: Oid, db: Oid, delta: int): RoleMap {
    if delta != 0 && owner != InvalidOid then Credit(roles, RoleKey(owner, db), delta) else roles
  }

  /**
   * Record that file name of relation rnode has size newsize in scan g.
   * A relation seen for the first time is pushed on the head of the orphan list.
   */
  function RecordFile(s: State, g: nat, db: Oid, rnode: RelFileNode, name: string, newsize: int): State {
    State(
      s.files[name := FileSizeEntry(newsize, rnode, g)],
      s.rels[rnode := RecordedRel(s.files, s.rels, rnode, name, newsize)],
      if rnode in s.rels then s.orphans else [rnode] + s.orphans,
      CreditOwner(s.roles, WalkOwner(s.rels, rnode), db, SizeChange(s.files, name, newsize)))
  }

  /* ----- RemoveFileSize ----- */

  /** The relation map after one file of p of the given size goes: p goes with its last file. */
  function ShrinkRels(rels: RelMap, p: RelFileNode, size: int): RelMap
    requires p in rels
  {
    var rel := rels[p];
    if rel.numfiles - 1 == 0 then rels - {p}
    else rels[p := RelSizeEntry(rel.owner, rel.numfiles - 1, rel.totalsize - size)]
  }

  /** A known owner's existing row loses a non-zero size; a missing row stays missing. */
  function DebitOwner(roles: RoleMap, owner: Oid, db: Oid, size: int): RoleMap {
    if owner != InvalidOid && size != 0 then Debit(roles, RoleKey(owner, db), size) else roles
  }

  /**
   * Forget file name. A relation losing its last file is deleted, and
   * unlinked from the orphan list only when it has no known owner.
   */
  function RemoveFile(s: State, db: Oid, name: string): State
    requires name in s.files && s.files[name].parent in s.rels
  {
    var fe := s.files[name];
    var rel := s.rels[fe.parent];
    State(
      s.files - {name},
      ShrinkRels(s.rels, fe.parent, fe.filesize),
      if rel.numfiles - 1 == 0 && rel.owner == InvalidOid then RemoveFirst(s.orphans, fe.parent) else s.orphans,
      DebitOwner(s.roles, rel.owner, db, fe.filesize))
  }

  /* ----- UpdateRelOwner, UpdateQuota ----- */

  /**
   * Move relation rnode's total from its old owner's row (if there is one)
   * to the new owner's row (created if needed). An unknown relation or an
   * unchanged owner leaves everything as it is. Setting the owner back to
   * InvalidOid relinks the relation at the head of the orphan list; setting
   * a known owner does not unlink it.
   */
  function SetOwner(s: State, db: Oid, rnode: RelFileNode, owner: Oid): State {
    if rnode !in s.rels || s.rels[rnode].owner == owner then s
    else
      var rel := s.rels[rnode];
      var debited := Debit(s.roles, RoleKey(rel.owner, db), rel.totalsize);
      State(
        s.files,
        s.rels[rnode := rel.(owner := owner)],
        if owner == InvalidOid then [rnode] + RemoveFirst(s.orphans, rnode) else s.orphans,
        if owner != InvalidOid then Credit(debited, RoleKey(owner, db), rel.totalsize) else debited)
  }

  /** Set the quota of (owner, db), creating the row with total 0. */
  function AssignQuota(s: State, db: Oid, owner: Oid, quota: int): State {
    s.(roles := SetQuota(s.roles, RoleKey(owner, db), quota))
  }

  /* ----- Folds ----- */

  /** The effect of a scan: its observations recorded in order. */
  function RecordAll(s: State, obs: seq<Observation>, g: nat, db: Oid): State
    decreases |obs|
  {
    if |obs| == 0 then s
    else RecordAll(RecordFile(s, g, db, obs[0].rnode, obs[0].name, obs[0].size), obs[1..], g, db)
  }

  /** UpdateOrphans: each listed relation whose owner can now be found gets it, in list order. */
  function ResolveOwners(s: State, db: Oid, pending: seq<RelFileNode>, ownerOf: RelFileNode -> Oid): State
    decreases |pending|
  {
    if |pending| == 0 then s
    else
      var owner := ownerOf(pending[0]);
      ResolveOwners(if owner != InvalidOid then SetOwner(s, db, pending[0], owner) else s, db, pending[1..], ownerOf)
  }

  /* ----- Recording a file keeps the ledger consistent ----- */

  lemma RecordFileSums(files: FileMap, rels: RelMap, g: nat, rnode: RelFileNode, name: string, newsize: int)
    requires FilesKnown(files, rels, g) && RelsBalanced(files, rels)
    requires name in files ==> files[name].parent == rnode
    ensures var files1 := files[name := FileSizeEntry(newsize, rnode, g)];
            var rels1 := rels[rnode := RecordedRel(files, rels, rnode, name, newsize)];
            FilesKnown(files1, rels1, g) && RelsBalanced(files1, rels1)
  {
    var fe := FileSizeEntry(newsize, rnode, g);
    var files1 := files[name := fe];
    var rels1 := rels[rnode := RecordedRel(files, rels, rnode, name, newsize)];
    if rnode !in rels {
      NoFilesNoBytes(files, rnode);
    }
    RelFileCountUpdate(files, name, fe, rnode);
    RelBytesUpdate(files, name, fe, rnode);
    forall r | r in rels1 && r != rnode
      ensures rels1[r].numfiles == RelFileCount(files1, r) && rels1[r].totalsize == RelBytes(files1, r)
    {
      UpdateElsewhere(files, name, fe, r);
    }
  }

  lemma RecordFileRoles(files: FileMap, rels: RelMap, roles: RoleMap, db: Oid, rnode: RelFileNode, name: string, newsize: int)
    requires OwnersHaveRows(rels, roles, db) && RoleTotalsBalanced(rels, roles, db)
    ensures var rels1 := rels[rnode := RecordedRel(files, rels, rnode, name, newsize)];
            var roles1 := CreditOwner(roles, WalkOwner(rels, rnode), db, SizeChange(files, name, newsize));
            && OwnersHaveRows(rels1, roles1, db)
            && RoleTotalsBalanced(rels1, roles1, db)
            && OnlyOwnerTotalsMoved(roles, roles1, db)
  {
    var rel1 := RecordedRel(files, rels, rnode, name, newsize);
    var rels1 := rels[rnode := rel1];
    var roles1 := CreditOwner(roles, WalkOwner(rels, rnode), db, SizeChange(files, name, newsize));
    forall k | k in roles1 && k.dbid == db && k.rolid != InvalidOid
      ensures roles1[k].totalsize == OwnerBytes(rels1, k.rolid)
    {
      OwnerBytesUpdate(rels, rnode, rel1, k.rolid);
    }
  }

  lemma RecordFileConsistent(s: State, g: nat, db: Oid, rnode: RelFileNode, name: string, newsize: int)
    requires Consistent(s, g, db)
    requires name in s.files ==> s.files[name].parent == rnode
    ensures Consistent(RecordFile(s, g, db, rnode, name, newsize), g, db)
    ensures OnlyOwnerTotalsMoved(s.roles, RecordFile(s, g, db, rnode, name, newsize).roles, db)
  {
    RecordFileSums(s.files, s.rels, g, rnode, name, newsize);
    RecordFileRoles(s.files, s.rels, s.roles, db, rnode, name, newsize);
  }

  /* ----- Removing a file keeps the ledger consistent ----- */

  /** The relation of its last file holds just that file's size. */
  lemma LastFileHoldsTotal(files: FileMap, rels: RelMap, g: nat, name: string)
    requires FilesKnown(files, rels, g) && RelsBalanced(files, rels)
    requires name in files
    ensures var p := files[name].parent;
            rels[p].numfiles == 1 ==> rels[p].totalsize == files[name].filesize
  {
    var p := files[name].parent;
    if rels[p].numfiles == 1 {
      RelFileCountRemove(files, name, p);
      RelBytesRemove(files, name, p);
      ZeroCountZeroBytes(files - {name}, p);
    }
  }

  lemma RemoveFileSums(files: FileMap, rels: RelMap, g: nat, name: string)
    requires FilesKnown(files, rels, g) && RelsBalanced(files, rels)
    requires name in files
    ensures var fe := files[name];
            FilesKnown(files - {name}, ShrinkRels(rels, fe.parent, fe.filesize), g)
            && RelsBalanced(files - {name}, ShrinkRels(rels, fe.parent, fe.filesize))
  {
    RemoveFileKnown(files, rels, g, name);
    RemoveFileBalanced(files, rels, name);
  }

  /** A relation that loses its last file has no file left that points at it. */
  lemma RemoveFileKnown(files: FileMap, rels: RelMap, g: nat, name: string)
    requires FilesKnown(files, rels, g) && RelsBalanced(files, rels)
    requires name in files
    ensures FilesKnown(files - {name}, ShrinkRels(rels, files[name].parent, files[name].filesize), g)
  {
    var p := files[name].parent;
    var rels1 := ShrinkRels(rels, p, files[name].filesize);
    if rels[p].numfiles == 1 {
      assert RelFileCount(files, p) == 1;
      RelFileCountRemove(files, name, p);
      ZeroCountZeroBytes(files - {name}, p);
    }
    forall n | n in files - {name}
      ensures files[n].parent in rels1
    {
      assert files[n].parent in rels;
    }
  }

  lemma RemoveFileBalanced(files: FileMap, rels: RelMap, name: string)
    requires RelsBalanced(files, rels)
    requires name in files && files[name].parent in rels
    ensures RelsBalanced(files - {name}, ShrinkRels(rels, files[name].parent, files[name].filesize))
  {
    var p := files[name].parent;
    var files1 := files - {name};
    var rels1 := ShrinkRels(rels, p, files[name].filesize);
    RelFileCountRemove(files, name, p);
    if rels[p].numfiles == 1 {
      ZeroCountZeroBytes(files1, p);
    } else {
      RelBytesRemove(files, name, p);
    }
    forall r | r in rels1 && r != p
      ensures rels1[r].numfiles == RelFileCount(files1, r) && rels1[r].totalsize == RelBytes(files1, r)
    {
      RemoveElsewhere(files, name, r);
    }
  }

  lemma RemoveFileListed(rels: RelMap, orphans: seq<RelFileNode>, p: RelFileNode, size: int)
    requires RelsListed(rels, orphans)
    requires p in rels
    ensures RelsListed(ShrinkRels(rels, p, size),
                       if rels[p].numfiles - 1 == 0 && rels[p].owner == InvalidOid then RemoveFirst(orphans, p) else orphans)
  {
    if rels[p].numfiles - 1 == 0 && rels[p].owner == InvalidOid {
      var orphans1 := RemoveFirst(orphans, p);
      forall r | r in rels - {p}
        ensures r in orphans1
      {
        assert multiset(orphans1)[r] == multiset(orphans)[r];
      }
    }
  }

  lemma RemoveFileRoles(rels: RelMap, roles: RoleMap, db: Oid, p: RelFileNode, size: int)
    requires OwnersHaveRows(rels, roles, db) && RoleTotalsBalanced(rels, roles, db)
    requires p in rels
    requires rels[p].numfiles == 1 ==> rels[p].totalsize == size
    ensures var rels1 := ShrinkRels(rels, p, size);
            var roles1 := DebitOwner(roles, rels[p].owner, db, size);
            && OwnersHaveRows(rels1, roles1, db)
            && RoleTotalsBalanced(rels1, roles1, db)
            && OnlyOwnerTotalsMoved(roles, roles1, db)
  {
    var rel := rels[p];
    var roles1 := DebitOwner(roles, rel.owner, db, size);
    if rel.numfiles == 1 {
      forall k | k in roles1 && k.dbid == db && k.rolid != InvalidOid
        ensures roles1[k].totalsize == OwnerBytes(rels - {p}, k.rolid)
      {
        OwnerBytesRemove(rels, p, k.rolid);
      }
    } else {
      var rel1 := RelSizeEntry(rel.owner, rel.numfiles - 1, rel.totalsize - size);
      forall k | k in roles1 && k.dbid == db && k.rolid != InvalidOid
        ensures roles1[k].totalsize == OwnerBytes(rels[p := rel1], k.rolid)
      {
        OwnerBytesUpdate(rels, p, rel1, k.rolid);
      }
    }
  }

  lemma RemoveFileConsistent(s: State, g: nat, db: Oid, name: string)
    requires Consistent(s, g, db)
    requires name in s.files
    ensures var p := s.files[name].parent;
            s.rels[p].numfiles == 1 ==> s.rels[p].totalsize == s.files[name].filesize
    ensures Consistent(RemoveFile(s, db, name), g, db)
    ensures OnlyOwnerTotalsMoved(s.roles, RemoveFile(s, db, name).roles, db)
  {
    var fe := s.files[name];
    LastFileHoldsTotal(s.files, s.rels, g, name);
    RemoveFileSums(s.files, s.rels, g, name);
    RemoveFileListed(s.rels, s.orphans, fe.parent, fe.filesize);
    RemoveFileRoles(s.rels, s.roles, db, fe.parent, fe.filesize);
  }

  /* ----- Changing an owner or a quota keeps the ledger consistent ----- */

  lemma SetOwnerListed(s: State, db: Oid, rnode: RelFileNode, owner: Oid)
    requires RelsListed(s.rels, s.orphans)
    ensures var s1 := SetOwner(s, db, rnode, owner);
            RelsListed(s1.rels, s1.orphans)
  {
    var s1 := SetOwner(s, db, rnode, owner);
    forall r | r in s1.rels
      ensures r in s1.orphans
    {
      assert r in s.orphans;
      if s1 != s && owner == InvalidOid && r != rnode {
        assert multiset(RemoveFirst(s.orphans, rnode))[r] == multiset(s.orphans)[r];
      }
    }
  }

  lemma SetOwnerRoles(s: State, db: Oid, rnode: RelFileNode, owner: Oid)
    requires OwnersHaveRows(s.rels, s.roles, db) && RoleTotalsBalanced(s.rels, s.roles, db)
    ensures var s1 := SetOwner(s, db, rnode, owner);
            OwnersHaveRows(s1.rels, s1.roles, db) && RoleTotalsBalanced(s1.rels, s1.roles, db)
  {
    if rnode in s.rels && s.rels[rnode].owner != owner {
      var s1 := SetOwner(s, db, rnode, owner);
      var rel1 := s.rels[rnode].(owner := owner);
      if owner != InvalidOid && RoleKey(owner, db) !in s.roles {
        NoRelsNoBytes(s.rels, owner);
      }
      forall k | k in s1.roles && k.dbid == db && k.rolid != InvalidOid
        ensures s1.roles[k].totalsize == OwnerBytes(s1.rels, k.rolid)
      {
        OwnerBytesUpdate(s.rels, rnode, rel1, k.rolid);
      }
    }
  }

  lemma SetOwnerConsistent(s: State, g: nat, db: Oid, rnode: RelFileNode, owner: Oid)
    requires Consistent(s, g, db)
    ensures Consistent(SetOwner(s, db, rnode, owner), g, db)
  {
    SetOwnerListed(s, db, rnode, owner);
    SetOwnerRoles(s, db, rnode, owner);
  }

  lemma AssignQuotaConsistent(s: State, g: nat, db: Oid, owner: Oid, quota: int)
    requires Consistent(s, g, db)
    ensures Consistent(AssignQuota(s, db, owner, quota), g, db)
  {
    if owner != InvalidOid && RoleKey(owner, db) !in s.roles {
      NoRelsNoBytes(s.rels, owner);
    }
  }

  /* ----- init_fs_model ----- */

  /** The shared table with the rows of database db taken out. */
  function ForgetDatabase(roles: RoleMap, db: Oid): (r: RoleMap)
    ensures forall k :: k in r <==> k in roles && k.dbid != db
    ensures forall k :: k in r ==> r[k] == roles[k]
  {
    map k | k in roles && k.dbid != db :: roles[k]
  }

  /**
   * An empty ledger over a table with db's rows taken out is consistent,
   * in any scan; the rows of other databases are kept as they are.
   */
  lemma ResetConsistent(roles: RoleMap, g: nat, db: Oid)
    ensures Consistent(State(map[], map[], [], ForgetDatabase(roles, db)), g, db)
    ensures forall k :: k in ForgetDatabase(roles, db) <==> k in roles && k.dbid != db
    ensures forall k :: k in ForgetDatabase(roles, db) ==> ForgetDatabase(roles, db)[k] == roles[k]
  {
  }

  /* ----- Facts the refresh relies on ----- */

  /** A consistent ledger stays consistent when the scan number moves on. */
  lemma ConsistentLater(s: State, g: nat, g1: nat, db: Oid)
    requires Consistent(s, g, db) && g <= g1
    ensures Consistent(s, g1, db)
  {
  }

  lemma OnlyOwnerTotalsMovedTrans(e0: RoleMap, e1: RoleMap, e2: RoleMap, db: Oid)
    requires OnlyOwnerTotalsMoved(e0, e1, db) && OnlyOwnerTotalsMoved(e1, e2, db)
    ensures OnlyOwnerTotalsMoved(e0, e2, db)
  {
  }

  /** The relations of w that are gone from rels and had no known owner. */
  ghost function Dropped(w: RelMap, rels: RelMap): set<RelFileNode> {
    set r | r in w && r !in rels && w[r].owner == InvalidOid
  }

  /** The relations of rels are relations of w, with the owners they have in w. */
  ghost predicate OwnersAsIn(rels: RelMap, w: RelMap) {
    forall r :: r in rels ==> r in w && rels[r].owner == w[r].owner
  }

  /**
   * Removing a file unlinks from the orphan list exactly the ownerless
   * relation it deletes, if any: the list and the dropped relations
   * together stay the same multiset.
   */
  lemma RemoveFileOrphans(s: State, db: Oid, name: string, w: RelMap)
    requires name in s.files && s.files[name].parent in s.rels
    requires RelsListed(s.rels, s.orphans)
    requires OwnersAsIn(s.rels, w)
    ensures var s1 := RemoveFile(s, db, name);
            && OwnersAsIn(s1.rels, w)
            && multiset(s1.orphans) + multiset(Dropped(w, s1.rels)) == multiset(s.orphans) + multiset(Dropped(w, s.rels))
  {
    var p := s.files[name].parent;
    var rel := s.rels[p];
    var s1 := RemoveFile(s, db, name);
    if rel.numfiles - 1 == 0 {
      assert s1.rels == s.rels - {p};
      if rel.owner == InvalidOid {
        assert Dropped(w, s1.rels) == Dropped(w, s.rels) + {p};
        assert p !in Dropped(w, s.rels);
        assert p in s.orphans;
        assert multiset(s1.orphans) == multiset(s.orphans) - multiset{p};
      } else {
        assert Dropped(w, s1.rels) == Dropped(w, s.rels);
      }
    } else {
      assert s1.rels.Keys == s.rels.Keys;
      assert Dropped(w, s1.rels) == Dropped(w, s.rels);
    }
  }

  /** Removing a file not seen in scan g leaves the files seen in scan g. */
  lemma StampedRemove(files: FileMap, name: string, g: nat)
    requires name in files && files[name].generation != g
    ensures Stamped(files - {name}, g) == Stamped(files, g)
  {
  }

  /**
   * What holds part-way through the reclaim pass that started from s0
   * in scan g: the ledger is consistent, the files of scan g are all
   * still there, the remaining relations keep their owners, each
   * ownerless relation deleted so far has been unlinked from the orphan
   * list once, and only totals of known roles have moved.
   */
  ghost predicate Reclaiming(s: State, s0: State, g: nat, db: Oid) {
    && Consistent(s, g, db)
    && Stamped(s.files, g) == Stamped(s0.files, g)
    && OwnersAsIn(s.rels, s0.rels)
    && multiset(s.orphans) + multiset(Dropped(s0.rels, s.rels)) == multiset(s0.orphans)
    && OnlyOwnerTotalsMoved(s0.roles, s.roles, db)
  }

  /** The reclaim pass starts in that state. */
  lemma ReclaimingStart(s: State, g: nat, db: Oid)
    requires Consistent(s, g, db)
    ensures Reclaiming(s, s, g, db)
  {
    assert Dropped(s.rels, s.rels) == {};
  }

  /** Removing one file the scan did not see keeps the reclaim pass on track. */
  lemma ReclaimingStep(s: State, s0: State, g: nat, db: Oid, name: string)
    requires Reclaiming(s, s0, g, db)
    requires name in s.files && s.files[name].generation != g
    ensures s.files[name].parent in s.rels
    ensures Reclaiming(RemoveFile(s, db, name), s0, g, db)
  {
    var s1 := RemoveFile(s, db, name);
    RemoveFileConsistent(s, g, db, name);
    StampedRemove(s.files, name, g);
    RemoveFileOrphans(s, db, name, s0.rels);
    OnlyOwnerTotalsMovedTrans(s0.roles, s.roles, s1.roles, db);
  }

  /**
   * A whole refresh from s0 in scan g, which saw obs and then reclaimed
   * down to s: the files are exactly this scan's, the relations exactly
   * their parents, the owners those the relations had before (none for a
   * new relation), the orphan list is the old one with each new relation
   * pushed on it less the ownerless relations deleted, and only the totals
   * of known roles have moved.
   */
  lemma RefreshOutcome(s0: State, obs: seq<Observation>, g: nat, db: Oid, s: State)
    requires forall n :: n in s0.files ==> s0.files[n].generation != g
    requires Reclaiming(s, RecordAll(s0, obs, g, db), g, db)
    requires OnlyOwnerTotalsMoved(s0.roles, RecordAll(s0, obs, g, db).roles, db)
    requires forall n :: n in s.files ==> s.files[n].generation == g
    ensures s.files == ApplyObservations(map[], obs, g)
    ensures s.rels.Keys == Parents(s.files)
    ensures forall r :: r in s.rels ==> s.rels[r].owner == WalkOwner(s0.rels, r)
    ensures multiset(s.orphans) + multiset(Reclaimed(s0.rels, obs, s.rels))
         == multiset(PushNewRels(s0.orphans, s0.rels.Keys, obs))
    ensures OnlyOwnerTotalsMoved(s0.roles, s.roles, db)
  {
    var w := RecordAll(s0, obs, g, db);
    RecordAllShape(s0, obs, g, db);
    RefreshFiles(s0.files, obs, g, s.files);
    RefreshParents(s.files, s.rels, g);
    RefreshOrphans(s0.rels, obs, w.rels, s.rels);
    OnlyOwnerTotalsMovedTrans(s0.roles, w.roles, s.roles, db);
  }

  /**
   * s is a state a refresh from s0 in scan g that saw obs can end in: the
   * ledger is consistent and s is as RefreshOutcome describes it.
   */
  ghost predicate Refreshed(s0: State, obs: seq<Observation>, g: nat, db: Oid, s: State) {
    && Consistent(s, g, db)
    && s.files == ApplyObservations(map[], obs, g)
    && s.rels.Keys == Parents(s.files)
    && (forall r :: r in s.rels ==> s.rels[r].owner == WalkOwner(s0.rels, r))
    && multiset(s.orphans) + multiset(Reclaimed(s0.rels, obs, s.rels))
       == multiset(PushNewRels(s0.orphans, s0.rels.Keys, obs))
    && OnlyOwnerTotalsMoved(s0.roles, s.roles, db)
  }

  /** After the reclaim pass only this scan's files are left. */
  lemma RefreshFiles(f0: FileMap, obs: seq<Observation>, g: nat, f: FileMap)
    requires forall n :: n in f0 ==> f0[n].generation != g
    requires Stamped(f, g) == Stamped(ApplyObservations(f0, obs, g), g)
    requires forall n :: n in f ==> f[n].generation == g
    ensures f == ApplyObservations(map[], obs, g)
  {
    ReclaimKeepsThisPass(f0, obs, g);
    assert f == Stamped(f, g);
  }

  /** In a consistent ledger the relations are exactly the parents of the files. */
  lemma RefreshParents(files: FileMap, rels: RelMap, g: nat)
    requires FilesKnown(files, rels, g) && RelsBalanced(files, rels)
    ensures rels.Keys == Parents(files)
  {
    RelsAreParents(files, rels);
  }

  /** The relations the reclaim pass dropped are those that lost their files without a known owner. */
  lemma RefreshOrphans(rels0: RelMap, obs: seq<Observation>, w: RelMap, rels: RelMap)
    requires w.Keys == rels0.Keys + Rnodes(obs)
    requires forall r :: r in w ==> w[r].owner == WalkOwner(rels0, r)
    requires OwnersAsIn(rels, w)
    ensures forall r :: r in rels ==> rels[r].owner == WalkOwner(rels0, r)
    ensures Reclaimed(rels0, obs, rels) == Dropped(w, rels)
  {
  }

  /* ----- Round trips and repetitions ----- */

  /** Seeing the same file with the same size twice in a scan is the same as seeing it once. */
  lemma RecordFileIdempotent(s: State, g: nat, db: Oid, rnode: RelFileNode, name: string, newsize: int)
    ensures var s1 := RecordFile(s, g, db, rnode, name, newsize);
            RecordFile(s1, g, db, rnode, name, newsize) == s1
  {
    var s1 := RecordFile(s, g, db, rnode, name, newsize);
    assert SizeChange(s1.files, name, newsize) == 0;
    assert s1.files[name := FileSizeEntry(newsize, rnode, g)] == s1.files;
    assert s1.rels[rnode := RecordedRel(s1.files, s1.rels, rnode, name, newsize)] == s1.rels;
  }

  /** Shrinking a relation by a file just added to it restores the relation map. */
  lemma ShrinkUndoesRecordedRel(files: FileMap, rels: RelMap, rnode: RelFileNode, name: string, size: int)
    requires name !in files
    requires rnode in rels ==> rels[rnode].numfiles > 0
    ensures ShrinkRels(rels[rnode := RecordedRel(files, rels, rnode, name, size)], rnode, size) == rels
  {
    if rnode in rels {
      assert rels[rnode := rels[rnode]] == rels;
    }
  }

  /** Debiting what was just credited to an owner's existing row restores the table. */
  lemma DebitUndoesCreditOwner(roles: RoleMap, owner: Oid, db: Oid, size: int)
    requires owner != InvalidOid ==> RoleKey(owner, db) in roles
    ensures DebitOwner(CreditOwner(roles, owner, db, size), owner, db, size) == roles
  {
    if owner != InvalidOid && size != 0 {
      var key := RoleKey(owner, db);
      assert roles[key := roles[key]] == roles;
    }
  }

  /**
   * Forgetting a file just recorded for the first time restores the ledger:
   * files, relations, the orphan list and the shared table.
   */
  lemma RemoveFileUndoesRecordFile(s: State, g: nat, db: Oid, rnode: RelFileNode, name: string, size: int)
    requires RelsBalanced(s.files, s.rels) && OwnersHaveRows(s.rels, s.roles, db)
    requires name !in s.files
    ensures var s1 := RecordFile(s, g, db, rnode, name, size);
            name in s1.files && s1.files[name].parent in s1.rels
            && RemoveFile(s1, db, name) == s
  {
    var s1 := RecordFile(s, g, db, rnode, name, size);
    var owner := WalkOwner(s.rels, rnode);
    assert s1.files - {name} == s.files;
    assert SizeChange(s.files, name, size) == size;
    ShrinkUndoesRecordedRel(s.files, s.rels, rnode, name, size);
    DebitUndoesCreditOwner(s.roles, owner, db, size);
    assert s1.rels[rnode].owner == owner;
    if rnode !in s.rels {
      assert RemoveFirst([rnode] + s.orphans, rnode) == s.orphans;
    } else {
      assert s.rels[rnode].numfiles > 0;
    }
    if owner != InvalidOid {
      assert RoleKey(owner, db) in s.roles;
    }
  }

  /* ----- The scan as a whole ----- */

  lemma RnodesCons(obs: seq<Observation>)
    requires |obs| > 0
    ensures Rnodes(obs) == {obs[0].rnode} + Rnodes(obs[1..])
  {
    assert obs == [obs[0]] + obs[1..];
    RnodesAppend([obs[0]], obs[1..]);
    assert Rnodes([obs[0]]) == {obs[0].rnode} by {
      assert [obs[0]][0] == obs[0];
    }
  }

  /** A consistent scan of a consistent ledger leaves it consistent, and moves no row or quota. */
  lemma {:induction false} RecordAllConsistent(s: State, obs: seq<Observation>, g: nat, db: Oid)
    requires Consistent(s, g, db)
    requires ScanConsistent(s.files, obs)
    ensures Consistent(RecordAll(s, obs, g, db), g, db)
    ensures OnlyOwnerTotalsMoved(s.roles, RecordAll(s, obs, g, db).roles, db)
    decreases |obs|
  {
    if |obs| > 0 {
      var o := obs[0];
      var rest := obs[1..];
      assert obs == [o] + rest;
      ConsistentAfterFirst(s.files, o, rest, g);
      RecordFileConsistent(s, g, db, o.rnode, o.name, o.size);
      var s1 := RecordFile(s, g, db, o.rnode, o.name, o.size);
      RecordAllConsistent(s1, rest, g, db);
      OnlyOwnerTotalsMovedTrans(s.roles, s1.roles, RecordAll(s1, rest, g, db).roles, db);
    }
  }


  /**
   * What a scan does to each part of the state: the files are the
   * observations recorded in order, the relations are the known ones plus
   * the observed ones (new ones ownerless), and each new relation is pushed
   * once on the orphan list.
   */
  lemma {:induction false} RecordAllShape(s: State, obs: seq<Observation>, g: nat, db: Oid)
    ensures var s1 := RecordAll(s, obs, g, db);
            && s1.files == ApplyObservations(s.files, obs, g)
            && s1.rels.Keys == s.rels.Keys + Rnodes(obs)
            && (forall r :: r in s1.rels ==> s1.rels[r].owner == WalkOwner(s.rels, r))
            && s1.orphans == PushNewRels(s.orphans, s.rels.Keys, obs)
    decreases |obs|
  {
    if |obs| == 0 {
      assert Rnodes(obs) == {};
    } else {
      var o := obs[0];
      var s1 := RecordFile(s, g, db, o.rnode, o.name, o.size);
      assert s1.files == s.files[o.name := Stamp(o, g)];
      RecordAllShape(s1, obs[1..], g, db);
      RnodesCons(obs);
      assert forall r :: WalkOwner(s1.rels, r) == WalkOwner(s.rels, r);
      if o.rnode in s.rels {
        assert s1.rels.Keys == s.rels.Keys;
      } else {
        assert s1.rels.Keys == s.rels.Keys + {o.rnode};
      }
    }
  }

  lemma {:induction false} RecordAllAppend(s: State, a: seq<Observation>, b: seq<Observation>, g: nat, db: Oid)
    ensures RecordAll(s, a + b, g, db) == RecordAll(RecordAll(s, a, g, db), b, g, db)
    decreases |a|
  {
    if |a| == 0 {
      assert a + b == b;
    } else {
      assert (a + b)[0] == a[0];
      assert (a + b)[1..] == a[1..] + b;
      RecordAllAppend(RecordFile(s, g, db, a[0].rnode, a[0].name, a[0].size), a[1..], b, g, db);
    }
  }

  /** One observation then the rest: the first is recorded first. */
  lemma RecordAllCons(s: State, o: Observation, rest: seq<Observation>, g: nat, db: Oid)
    ensures RecordAll(s, [o] + rest, g, db) == RecordAll(RecordFile(s, g, db, o.rnode, o.name, o.size), rest, g, db)
  {
    assert ([o] + rest)[0] == o && ([o] + rest)[1..] == rest;
  }

  /**
   * Splitting a scan at a directory boundary: the directory's observations
   * can be recorded first, and what is left stays consistent with the
   * files they leave behind.
   */
  lemma ScanSplitsAt(s: State, here: seq<Observation>, rest: seq<Observation>, g: nat, db: Oid)
    requires ScanConsistent(s.files, here + rest)
    ensures ScanConsistent(s.files, here)
    ensures ScanConsistent(RecordAll(s, here, g, db).files, rest)
    ensures RecordAll(RecordAll(s, here, g, db), rest, g, db) == RecordAll(s, here + rest, g, db)
  {
    ConsistentPrefix(s.files, here, rest);
    ConsistentAfterPrefix(s.files, here, rest, g);
    RecordAllAppend(s, here, rest, g, db);
    RecordAllShape(s, here, g, db);
  }

  /* ----- Resolving owners ----- */

  lemma {:induction false} ResolveOwnersConsistent(s: State, g: nat, db: Oid, pending: seq<RelFileNode>, ownerOf: RelFileNode -> Oid)
    requires Consistent(s, g, db)
    ensures Consistent(ResolveOwners(s, db, pending, ownerOf), g, db)
    decreases |pending|
  {
    if |pending| > 0 {
      var owner := ownerOf(pending[0]);
      SetOwnerConsistent(s, g, db, pending[0], owner);
      ResolveOwnersConsistent(if owner != InvalidOid then SetOwner(s, db, pending[0], owner) else s, g, db, pending[1..], ownerOf);
    }
  }

  /**
   * Resolving owners leaves the files and the orphan list alone, and gives
   * each listed relation whose owner is found that owner.
   */
  lemma {:induction false} ResolveOwnersRels(s: State, db: Oid, pending: seq<RelFileNode>, ownerOf: RelFileNode -> Oid)
    ensures var s1 := ResolveOwners(s, db, pending, ownerOf);
            && s1.files == s.files
            && s1.orphans == s.orphans
            && s1.rels.Keys == s.rels.Keys
            && (forall r :: r in s.rels ==>
                  s1.rels[r] == s.rels[r].(owner := if r in pending && ownerOf(r) != InvalidOid then ownerOf(r) else s.rels[r].owner))
    decreases |pending|
  {
    if |pending| > 0 {
      var p := pending[0];
      var owner := ownerOf(p);
      var s1 := if owner != InvalidOid then SetOwner(s, db, p, owner) else s;
      ResolveOwnersRels(s1, db, pending[1..], ownerOf);
      assert forall r :: r in pending <==> r == p || r in pending[1..];
    }
  }

  /**
   * Resolving owners only adds rows, of this database and without a quota,
   * keeps every quota, and leaves the rows of other databases alone.
   */
  lemma {:induction false} ResolveOwnersRoles(s: State, db: Oid, pending: seq<RelFileNode>, ownerOf: RelFileNode -> Oid)
    ensures var s1 := ResolveOwners(s, db, pending, ownerOf);
            && (forall k :: k in s.roles ==> k in s1.roles && s1.roles[k].quota == s.roles[k].quota)
            && (forall k :: k in s.roles && k.dbid != db ==> s1.roles[k] == s.roles[k])
            && (forall k :: k in s1.roles && k !in s.roles ==> s1.roles[k].quota == NoQuota && k.dbid == db)
    decreases |pending|
  {
    if |pending| > 0 {
      var p := pending[0];
      var owner := ownerOf(p);
      var s1 := if owner != InvalidOid then SetOwner(s, db, p, owner) else s;
      ResolveOwnersRoles(s1, db, pending[1..], ownerOf);
    }
  }

  /**
   * With every relation on the orphan list, resolving the whole list gives
   * every relation whose owner can be found that owner and a row for it.
   */
  lemma ResolveAllOrphans(s: State, g: nat, db: Oid, ownerOf: RelFileNode -> Oid)
    requires Consistent(s, g, db)
    ensures var s1 := ResolveOwners(s, db, s.orphans, ownerOf);
            && s1.rels.Keys == s.rels.Keys
            && (forall r :: r in s1.rels ==>
                  s1.rels[r].owner == if ownerOf(r) != InvalidOid then ownerOf(r) else s.rels[r].owner)
            && (forall r :: r in s1.rels && ownerOf(r) != InvalidOid ==> RoleKey(ownerOf(r), db) in s1.roles)
  {
    ResolveOwnersRels(s, db, s.orphans, ownerOf);
    ResolveOwnersConsistent(s, g, db, s.orphans, ownerOf);
  }
}
