/**
 * The values kept by the disk-space ledger of fs_model.c, and the pure
 * functions the worker's methods are specified with.
 *
 * Three levels are kept: one FileSizeEntry per relation data file (keyed
 * by its bare directory-entry name), one RelSizeEntry per relation (keyed
 * by its RelFileNode), and one RoleSizeEntry per (role, database) in the
 * table shared with the backends.
 */
module Ledger {
  import opened Wrappers
  import opened PgTypes
  import opened RelPath
  import opened MapSums

  /** One data file: its size, the relation it belongs to, and the scan that last saw it. */
  datatype FileSizeEntry = FileSizeEntry(filesize: int, parent: RelFileNode, generation: nat)

  /** One relation: its owner (InvalidOid while unknown), its number of files and their total size. */
  datatype RelSizeEntry = RelSizeEntry(owner: Oid, numfiles: int, totalsize: int)

  /** The key of the shared table: a role in a database. */
  datatype RoleKey = RoleKey(rolid: Oid, dbid: Oid)

  /** One row of the shared table: the space the role uses and its quota. */
  datatype RoleSizeEntry = RoleSizeEntry(totalsize: int, quota: int)

  /** The quota value that stands for "no quota". */
  const NoQuota: int := -1

  type FileMap = map<string, FileSizeEntry>
  type RelMap = map<RelFileNode, RelSizeEntry>
  type RoleMap = map<RoleKey, RoleSizeEntry>

  /* ----- Conservation sums ----- */

  /** Weight of a file in the byte total of relation r. */
  function BytesOf(r: RelFileNode): FileSizeEntry -> int {
    (e: FileSizeEntry) => if e.parent == r then e.filesize else 0
  }

  /** Weight of a file in the file count of relation r. */
  function CountOf(r: RelFileNode): FileSizeEntry -> int {
    (e: FileSizeEntry) => if e.parent == r then 1 else 0
  }

  /** Weight of a relation in the byte total of role o. */
  function OwnedBy(o: Oid): RelSizeEntry -> int {
    (e: RelSizeEntry) => if e.owner == o then e.totalsize else 0
  }

  /** The sum of the sizes of the files that belong to relation r. */
  ghost function RelBytes(files: FileMap, r: RelFileNode): int {
    MapSum(files, BytesOf(r))
  }

  /** The number of files that belong to relation r. */
  ghost function RelFileCount(files: FileMap, r: RelFileNode): int {
    MapSum(files, CountOf(r))
  }

  /** The sum of the totals of the relations owned by role o. */
  ghost function OwnerBytes(rels: RelMap, o: Oid): int {
    MapSum(rels, OwnedBy(o))
  }

  /** The relations that some file belongs to. */
  ghost function Parents(files: FileMap): set<RelFileNode> {
    set n | n in files :: files[n].parent
  }

  lemma RelBytesUpdate(files: FileMap, name: string, e: FileSizeEntry, r: RelFileNode)
    ensures RelBytes(files[name := e], r)
         == RelBytes(files, r)
            - (if name in files && files[name].parent == r then files[name].filesize else 0)
            + (if e.parent == r then e.filesize else 0)
  {
    MapSumUpdate(files, BytesOf(r), name, e);
  }

  lemma RelFileCountUpdate(files: FileMap, name: string, e: FileSizeEntry, r: RelFileNode)
    ensures RelFileCount(files[name := e], r)
         == RelFileCount(files, r)
            - (if name in files && files[name].parent == r then 1 else 0)
            + (if e.parent == r then 1 else 0)
  {
    MapSumUpdate(files, CountOf(r), name, e);
  }

  lemma RelBytesRemove(files: FileMap, name: string, r: RelFileNode)
    requires name in files
    ensures RelBytes(files - {name}, r)
         == RelBytes(files, r) - (if files[name].parent == r then files[name].filesize else 0)
  {
    MapSumRemove(files, BytesOf(r), name);
  }

  lemma RelFileCountRemove(files: FileMap, name: string, r: RelFileNode)
    requires name in files
    ensures RelFileCount(files - {name}, r)
         == RelFileCount(files, r) - (if files[name].parent == r then 1 else 0)
  {
    MapSumRemove(files, CountOf(r), name);
  }

  lemma OwnerBytesUpdate(rels: RelMap, rnode: RelFileNode, e: RelSizeEntry, o: Oid)
    ensures OwnerBytes(rels[rnode := e], o)
         == OwnerBytes(rels, o)
            - (if rnode in rels && rels[rnode].owner == o then rels[rnode].totalsize else 0)
            + (if e.owner == o then e.totalsize else 0)
  {
    MapSumUpdate(rels, OwnedBy(o), rnode, e);
  }

  lemma OwnerBytesRemove(rels: RelMap, rnode: RelFileNode, o: Oid)
    requires rnode in rels
    ensures OwnerBytes(rels - {rnode}, o)
         == OwnerBytes(rels, o) - (if rels[rnode].owner == o then rels[rnode].totalsize else 0)
  {
    MapSumRemove(rels, OwnedBy(o), rnode);
  }

  /** Recording a file of another relation leaves r's count and bytes alone. */
  lemma UpdateElsewhere(files: FileMap, name: string, e: FileSizeEntry, r: RelFileNode)
    requires e.parent != r
    requires name in files ==> files[name].parent != r
    ensures RelFileCount(files[name := e], r) == RelFileCount(files, r)
    ensures RelBytes(files[name := e], r) == RelBytes(files, r)
  {
    RelFileCountUpdate(files, name, e, r);
    RelBytesUpdate(files, name, e, r);
  }

  /** Removing a file of another relation leaves r's count and bytes alone. */
  lemma RemoveElsewhere(files: FileMap, name: string, r: RelFileNode)
    requires name in files && files[name].parent != r
    ensures RelFileCount(files - {name}, r) == RelFileCount(files, r)
    ensures RelBytes(files - {name}, r) == RelBytes(files, r)
  {
    RelFileCountRemove(files, name, r);
    RelBytesRemove(files, name, r);
  }

  /** A relation that no file belongs to has no files and no bytes. */
  lemma NoFilesNoBytes(files: FileMap, r: RelFileNode)
    requires forall n :: n in files ==> files[n].parent != r
    ensures RelFileCount(files, r) == 0 && RelBytes(files, r) == 0
  {
    MapSumZero(files, CountOf(r));
    MapSumZero(files, BytesOf(r));
  }

  /** A relation whose file count is zero has no bytes either. */
  lemma ZeroCountZeroBytes(files: FileMap, r: RelFileNode)
    requires RelFileCount(files, r) == 0
    ensures forall n :: n in files ==> files[n].parent != r
    ensures RelBytes(files, r) == 0
  {
    forall n | n in files
      ensures files[n].parent != r
    {
      MapSumAtLeast(files, CountOf(r), n);
    }
    NoFilesNoBytes(files, r);
  }

  /** A relation with a positive file count has a file. */
  lemma CountedHasFile(files: FileMap, r: RelFileNode)
    requires RelFileCount(files, r) > 0
    ensures r in Parents(files)
  {
    if r !in Parents(files) {
      NoFilesNoBytes(files, r);
    }
  }

  /** A role that owns no relation owns no bytes. */
  lemma NoRelsNoBytes(rels: RelMap, o: Oid)
    requires forall r :: r in rels ==> rels[r].owner != o
    ensures OwnerBytes(rels, o) == 0
  {
    MapSumZero(rels, OwnedBy(o));
  }

  /* ----- Updates of the shared table ----- */

  /**
   * Add a signed delta to the row of key, creating the row with total 0
   * and no quota when it does not exist (HASH_ENTER and its initialisation).
   */
  function Credit(entries: RoleMap, key: RoleKey, delta: int): (r: RoleMap)
    ensures r.Keys == entries.Keys + {key}
    ensures r[key].totalsize == (if key in entries then entries[key].totalsize else 0) + delta
    ensures r[key].quota == (if key in entries then entries[key].quota else NoQuota)
    ensures forall k :: k in entries && k != key ==> r[k] == entries[k]
  {
    var e := if key in entries then entries[key] else RoleSizeEntry(0, NoQuota);
    entries[key := e.(totalsize := e.totalsize + delta)]
  }

  /**
   * Subtract an amount from the row of key if there is one (HASH_FIND);
   * a missing row is left missing.
   */
  function Debit(entries: RoleMap, key: RoleKey, amount: int): (r: RoleMap)
    ensures r.Keys == entries.Keys
    ensures key in entries ==> r[key] == entries[key].(totalsize := entries[key].totalsize - amount)
    ensures forall k :: k in entries && k != key ==> r[k] == entries[k]
  {
    if key in entries then entries[key := entries[key].(totalsize := entries[key].totalsize - amount)]
    else entries
  }

  /** Overwrite the quota of key, creating the row with total 0 when it does not exist. */
  function SetQuota(entries: RoleMap, key: RoleKey, quota: int): (r: RoleMap)
    ensures r.Keys == entries.Keys + {key}
    ensures r[key] == RoleSizeEntry(if key in entries then entries[key].totalsize else 0, quota)
    ensures forall k :: k in entries && k != key ==> r[k] == entries[k]
  {
    entries[key := RoleSizeEntry(if key in entries then entries[key].totalsize else 0, quota)]
  }

  /**
   * The rows outside the (known role, this database) part are unchanged,
   * no row appears or disappears and no quota changes: only totals that the
   * conservation invariant determines have moved.
   */
  ghost predicate OnlyOwnerTotalsMoved(e0: RoleMap, e1: RoleMap, db: Oid) {
    && e1.Keys == e0.Keys
    && forall k :: k in e0 ==>
         && e1[k].quota == e0[k].quota
         && (k.dbid != db || k.rolid == InvalidOid ==> e1[k] == e0[k])
  }

  /**
   * Has the role still got room? Read by the backends. None stands for the
   * shared table not being attached.
   */
  function CheckQuota(roles: Option<RoleMap>, db: Oid, owner: Oid): (ok: bool)
    ensures ok <==>
      || roles.None?
      || RoleKey(owner, db) !in roles.value
      || roles.value[RoleKey(owner, db)].quota < 0
      || roles.value[RoleKey(owner, db)].totalsize <= roles.value[RoleKey(owner, db)].quota
  {
    match roles
    case None => true
    case Some(m) =>
      var key := RoleKey(owner, db);
      !(key in m && m[key].quota >= 0 && m[key].totalsize > m[key].quota)
  }

  /* ----- What one scan of the data directory observes ----- */

  /** A directory entry: its name, and its size, or None when stat() fails. */
  datatype DirEntry = DirEntry(name: string, size: Option<int>)

  /** An entry of base/: its name and, if it is a directory, what it lists. */
  datatype BaseEntry = BaseEntry(name: string, listing: seq<DirEntry>)

  /** A file the scan counts: the relation it belongs to, its bare name and its size. */
  datatype Observation = Observation(rnode: RelFileNode, name: string, size: int)

  /**
   * The filter of RebuildRelSizeMapDir: "." and "..", names that are not
   * relation data files, system relations and files whose stat() fails are
   * skipped. The observation keys the file by its bare name.
   */
  function AcceptFile(dirpath: string, e: DirEntry): (r: Option<Observation>)
    ensures r.Some? ==>
              && e.name != "." && e.name != ".."
              && IsRelDataFile(dirpath + "/" + e.name) == Some(r.value.rnode)
              && r.value.rnode.relNode >= FirstNormalObjectId
              && r.value.name == e.name && e.size == Some(r.value.size)
  {
    if e.name == "." || e.name == ".." then None
    else
      match IsRelDataFile(dirpath + "/" + e.name)
      case None => None
      case Some(rnode) =>
        if rnode.relNode < FirstNormalObjectId then None
        else
          match e.size
          case None => None
          case Some(sz) => Some(Observation(rnode, e.name, sz))
  }

  /** The observations of one directory, in listing order. */
  function DirObservations(dirpath: string, entries: seq<DirEntry>): seq<Observation>
    decreases |entries|
  {
    if |entries| == 0 then []
    else
      (match AcceptFile(dirpath, entries[0]) case None => [] case Some(o) => [o])
        + DirObservations(dirpath, entries[1..])
  }

  /** The filter of the walk over base/: "." and ".." and names not starting with a number are skipped. */
  predicate IsDatabaseDir(name: string)
    ensures IsDatabaseDir(name) ==> |name| > 0 && IsDigit(name[0])
  {
    name != "." && name != ".." && ScanUnsigned(name).Some?
  }

  /** The observations of one entry of base/: none unless it is a database directory. */
  function BaseObservations(b: BaseEntry): seq<Observation> {
    if IsDatabaseDir(b.name) then DirObservations(BasePrefix + b.name, b.listing) else []
  }

  /** The observations of a whole walk over base/, in listing order. */
  function ScanObservations(base: seq<BaseEntry>): seq<Observation>
    decreases |base|
  {
    if |base| == 0 then []
    else BaseObservations(base[0]) + ScanObservations(base[1..])
  }

  /** The file entry an observation leaves behind in scan generation g. */
  function Stamp(o: Observation, g: nat): FileSizeEntry {
    FileSizeEntry(o.size, o.rnode, g)
  }

  /** The file map after recording the observations, in order, in generation g. */
  function ApplyObservations(files: FileMap, obs: seq<Observation>, g: nat): FileMap
    decreases |obs|
  {
    if |obs| == 0 then files
    else ApplyObservations(files[obs[0].name := Stamp(obs[0], g)], obs[1..], g)
  }

  /** The relations the observations name. */
  function Rnodes(obs: seq<Observation>): set<RelFileNode> {
    set i | 0 <= i < |obs| :: obs[i].rnode
  }

  /**
   * The orphan list after the observations: each relation seen for the
   * first time is pushed on the head of the list.
   */
  function PushNewRels(orphans: seq<RelFileNode>, known: set<RelFileNode>, obs: seq<Observation>): seq<RelFileNode>
    decreases |obs|
  {
    if |obs| == 0 then orphans
    else if obs[0].rnode in known then PushNewRels(orphans, known, obs[1..])
    else PushNewRels([obs[0].rnode] + orphans, known + {obs[0].rnode}, obs[1..])
  }

  /** The entries stamped with generation g: the ones a scan in generation g has seen. */
  function Stamped(files: FileMap, g: nat): FileMap {
    map n | n in files && files[n].generation == g :: files[n]
  }

  /**
   * Files are keyed by bare name, so a name must always stand for the same
   * relation: among the observations, and against the files already known.
   */
  ghost predicate ScanConsistent(files: FileMap, obs: seq<Observation>) {
    && (forall i :: 0 <= i < |obs| && obs[i].name in files ==> files[obs[i].name].parent == obs[i].rnode)
    && (forall i, j :: 0 <= i < j < |obs| && obs[i].name == obs[j].name ==> obs[i].rnode == obs[j].rnode)
  }

  /** Remove the first occurrence of x (dlist_delete of x's node). */
  function RemoveFirst<T(==)>(s: seq<T>, x: T): (r: seq<T>)
    ensures multiset(r) == multiset(s) - multiset{x}
    ensures |r| == if x in s then |s| - 1 else |s|
  {
    if |s| == 0 then []
    else
      assert s == [s[0]] + s[1..];
      if s[0] == x then s[1..]
      else [s[0]] + RemoveFirst(s[1..], x)
  }

  /* ----- Lemmas about the scan ----- */

  /**
   * Recording in generation g the observations of a pass that started when
   * every entry was older than g and then keeping only the entries stamped g
   * leaves exactly the files of this pass.
   */
  lemma {:induction false} ReclaimKeepsThisPass(files: FileMap, obs: seq<Observation>, g: nat)
    requires forall n :: n in files ==> files[n].generation != g
    ensures Stamped(ApplyObservations(files, obs, g), g) == ApplyObservations(map[], obs, g)
    decreases |obs|
  {
    if |obs| == 0 {
      assert Stamped(files, g) == map[];
    } else {
      var f1 := files[obs[0].name := Stamp(obs[0], g)];
      var e1: FileMap := map[obs[0].name := Stamp(obs[0], g)];
      ApplyObservationsKeepsStamped(f1, e1, obs[1..], g);
    }
  }

  /**
   * Two file maps that agree on their entries stamped g agree on them after
   * the same observations, when one of them holds nothing else.
   */
  lemma {:induction false} ApplyObservationsKeepsStamped(f: FileMap, e: FileMap, obs: seq<Observation>, g: nat)
    requires Stamped(f, g) == e
    requires forall n :: n in e ==> e[n].generation == g
    ensures Stamped(ApplyObservations(f, obs, g), g) == ApplyObservations(e, obs, g)
    decreases |obs|
  {
    if |obs| > 0 {
      var o := obs[0];
      var f1 := f[o.name := Stamp(o, g)];
      var e1 := e[o.name := Stamp(o, g)];
      assert Stamped(f1, g) == e1;
      ApplyObservationsKeepsStamped(f1, e1, obs[1..], g);
    }
  }

  /** Consistency of a pass carries over to the rest of the pass once a prefix is recorded. */
  lemma {:induction false} ConsistentAfterPrefix(files: FileMap, a: seq<Observation>, b: seq<Observation>, g: nat)
    requires ScanConsistent(files, a + b)
    ensures ScanConsistent(ApplyObservations(files, a, g), b)
    decreases |a|
  {
    if |a| == 0 {
      assert a + b == b;
    } else {
      var o := a[0];
      var f1 := files[o.name := Stamp(o, g)];
      var rest := a[1..] + b;
      assert a + b == [o] + rest;
      assert (a + b)[0] == o;
      forall i | 0 <= i < |rest| && rest[i].name in f1
        ensures f1[rest[i].name].parent == rest[i].rnode
      {
        assert (a + b)[i + 1] == rest[i];
        if rest[i].name != o.name {
          assert rest[i].name in files;
        }
      }
      forall i, j | 0 <= i < j < |rest| && rest[i].name == rest[j].name
        ensures rest[i].rnode == rest[j].rnode
      {
        assert (a + b)[i + 1] == rest[i];
        assert (a + b)[j + 1] == rest[j];
      }
      assert ScanConsistent(f1, a[1..] + b);
      ConsistentAfterPrefix(f1, a[1..], b, g);
    }
  }

  /** The observations of a listing from entry i on: entry i's, then the rest's. */
  lemma DirObservationsStep(dirpath: string, listing: seq<DirEntry>, i: nat)
    requires i < |listing|
    ensures DirObservations(dirpath, listing[i..])
         == (match AcceptFile(dirpath, listing[i]) case None => [] case Some(o) => [o])
            + DirObservations(dirpath, listing[i + 1..])
  {
    assert listing[i..][0] == listing[i] && listing[i..][1..] == listing[i + 1..];
  }

  /** The observations of base/ from entry i on: entry i's, then the rest's. */
  lemma ScanObservationsStep(base: seq<BaseEntry>, i: nat)
    requires i < |base|
    ensures ScanObservations(base[i..]) == BaseObservations(base[i]) + ScanObservations(base[i + 1..])
  {
    assert base[i..][0] == base[i] && base[i..][1..] == base[i + 1..];
  }

  /**
   * Once the first observation of a consistent pass is recorded, the rest
   * of the pass is consistent with the result, and the first one's name,
   * if known, already stood for its relation.
   */
  lemma ConsistentAfterFirst(files: FileMap, o: Observation, rest: seq<Observation>, g: nat)
    requires ScanConsistent(files, [o] + rest)
    ensures o.name in files ==> files[o.name].parent == o.rnode
    ensures ScanConsistent(files[o.name := Stamp(o, g)], rest)
  {
    assert ([o] + rest)[0] == o;
    assert [o][1..] == [];
    ConsistentAfterPrefix(files, [o], rest, g);
    assert ApplyObservations(files, [o], g) == files[o.name := Stamp(o, g)];
  }

  /** Consistency of a pass holds for each prefix of it. */
  lemma ConsistentPrefix(files: FileMap, a: seq<Observation>, b: seq<Observation>)
    requires ScanConsistent(files, a + b)
    ensures ScanConsistent(files, a)
  {
    forall i | 0 <= i < |a| ensures (a + b)[i] == a[i] { }
  }

  lemma RnodesAppend(a: seq<Observation>, b: seq<Observation>)
    ensures Rnodes(a + b) == Rnodes(a) + Rnodes(b)
  {
    forall x | x in Rnodes(a + b) ensures x in Rnodes(a) + Rnodes(b) {
      var i :| 0 <= i < |a + b| && (a + b)[i].rnode == x;
      if i >= |a| { assert b[i - |a|] == (a + b)[i]; }
    }
    forall x | x in Rnodes(b) ensures x in Rnodes(a + b) {
      var i :| 0 <= i < |b| && b[i].rnode == x;
      assert (a + b)[i + |a|] == b[i];
    }
    forall x | x in Rnodes(a) ensures x in Rnodes(a + b) {
      var i :| 0 <= i < |a| && a[i].rnode == x;
      assert (a + b)[i] == a[i];
    }
  }

  /** The owner a relation has after a scan: its known owner, or InvalidOid when the scan created it. */
  function WalkOwner(rels: RelMap, r: RelFileNode): Oid {
    if r in rels then rels[r].owner else InvalidOid
  }

  /** The relations that hold a positive count of files are exactly the parents of the files. */
  lemma RelsAreParents(files: FileMap, rels: RelMap)
    requires forall n :: n in files ==> files[n].parent in rels
    requires forall r :: r in rels ==> RelFileCount(files, r) > 0
    ensures rels.Keys == Parents(files)
  {
    forall r | r in rels ensures r in Parents(files) {
      CountedHasFile(files, r);
    }
  }

  /**
   * The relations a refresh reclaims from the orphan list: the ones the
   * walk left with no known owner and the reclaim pass deleted.
   */
  ghost function Reclaimed(rels0: RelMap, obs: seq<Observation>, rels1: RelMap): set<RelFileNode> {
    set r | r in rels0.Keys + Rnodes(obs) && r !in rels1 && WalkOwner(rels0, r) == InvalidOid
  }

  /**
   * An entry of base/<d> for a numeric directory name d is counted exactly
   * when its name starts with a number at least FirstNormalObjectId and its
   * stat() succeeds; it is then counted as relation (pg_default, d, number)
   * under its bare name, whatever follows the number.
   */
  lemma AcceptInDatabaseDir(db: string, e: DirEntry)
    requires IsNumeral(db)
    ensures var k := DigitRun(e.name);
      AcceptFile(BasePrefix + db, e)
        == if k > 0 && NumeralValue(e.name[..k]) >= FirstNormalObjectId && e.size.Some?
           then Some(Observation(RelFileNode(DefaultTablespaceOid, NumeralValue(db), NumeralValue(e.name[..k])), e.name, e.size.value))
           else None
  {
    if DigitRun(e.name) > 0 {
      NumberedEntryParsed(db, e.name);
    } else {
      UnnumberedEntryRejected(db, e);
    }
  }

  /** base/<db>/<name> for a name starting with a number parses as that relation of db. */
  lemma NumberedEntryParsed(db: string, name: string)
    requires IsNumeral(db) && DigitRun(name) > 0
    ensures name != "." && name != ".."
    ensures IsRelDataFile(BasePrefix + db + "/" + name)
         == Some(RelFileNode(DefaultTablespaceOid, NumeralValue(db), NumeralValue(name[..DigitRun(name)])))
  {
    var k := DigitRun(name);
    ScanSplits(name);
    DefaultFileRecognised(db, name[..k], name[k..]);
    EntryPathSplits(db, name, k);
    assert IsDigit(name[0]);
  }

  lemma EntryPathSplits(db: string, name: string, k: nat)
    requires k <= |name|
    ensures BasePrefix + db + "/" + name == BasePrefix + (db + ("/" + (name[..k] + name[k..])))
  {
    assert name[..k] + name[k..] == name;
  }

  /** An entry of base/<db> whose name does not start with a number is never counted. */
  lemma UnnumberedEntryRejected(db: string, e: DirEntry)
    requires IsNumeral(db) && DigitRun(e.name) == 0
    ensures AcceptFile(BasePrefix + db, e) == None
  {
    var path := BasePrefix + db + "/" + e.name;
    if e.name != "." && e.name != ".." && IsRelDataFile(path).Some? {
      RecognisedHasLayout(path);
      var l :| WellFormed(l) && Render(l) == path && IsRelDataFile(path) == Some(NodeOf(l));
      BaseLayoutName(db, e.name, l);
    }
  }

  /** A layout that renders as base/<db>/<name> splits name into a numeral and a tail. */
  lemma BaseLayoutName(db: string, name: string, l: Layout)
    requires IsNumeral(db)
    requires WellFormed(l) && Render(l) == BasePrefix + db + "/" + name
    ensures DigitRun(name) > 0
  {
    var path := BasePrefix + db + "/" + name;
    assert path[0] == 'b';
    match l
    case SharedFile(rel, tail) =>
    case TablespaceFile(spc, d, rel, tail) =>
    case DefaultFile(d, rel, tail) =>
      assert path == BasePrefix + (db + ("/" + name));
      assert Render(l) == BasePrefix + (d + ("/" + (rel + tail)));
      var s1 := db + ("/" + name);
      var s2 := d + ("/" + (rel + tail));
      assert s1 == s2 by {
        assert path[|BasePrefix|..] == s1;
        assert Render(l)[|BasePrefix|..] == s2;
      }
      DigitRunOfNumeral(db, "/" + name);
      DigitRunOfNumeral(d, "/" + (rel + tail));
      assert |db| == |d|;
      assert s1[|db| + 1..] == name;
      assert s2[|d| + 1..] == rel + tail;
      assert name == rel + tail;
      assert name[0] == rel[0];
  }
}
