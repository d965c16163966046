/**
 * The executor permission hook (enforcement.c): an INSERT into a table is
 * refused while the table's owner is over quota.
 */
module Enforcement {
  import opened Wrappers
  import opened PgTypes
  import opened Ledger

  /** The kinds of range-table entry (RTEKind) of PostgreSQL 11. */
  datatype RteKind =
    | RteRelation | RteSubquery | RteJoin | RteFunction
    | RteTableFunc | RteValues | RteCte | RteNamedTuplestore

  /** A set of privilege bits (AclMode). */
  type AclMode = bv32

  /** The INSERT privilege bit (ACL_INSERT). */
  const AclInsert: AclMode := 1

  /** The part of a range-table entry the hook looks at. */
  datatype RangeTblEntry = RangeTblEntry(rtekind: RteKind, relid: Oid, requiredPerms: AclMode)

  /**
   * What the hook does: let the statement through, refuse it quietly, or
   * raise the "quota exceeded" error (ERRCODE_DISK_FULL).
   */
  datatype Outcome = Permitted | Refused | QuotaExceededError

  /** The hook looks at an entry only when it is a plain relation that needs INSERT. */
  predicate IsChecked(rte: RangeTblEntry) {
    rte.rtekind == RteRelation && rte.requiredPerms & AclInsert != 0
  }

  /**
   * quota_check_ExecCheckRTPerms: walk the range table in order. The
   * first checked entry whose owner (relOwner stands for the catalog
   * lookup, InvalidOid when it fails) is unknown ends the walk with
   * permission; the first whose owner is over quota ends it with a
   * refusal, or the error when ereportOnViolation is set.
   */
  function CheckRTPerms(rangeTable: seq<RangeTblEntry>, ereportOnViolation: bool,
                        relOwner: Oid -> Oid, roles: Option<RoleMap>, db: Oid): (v: Outcome)
    ensures v == QuotaExceededError ==> ereportOnViolation
    ensures v == Refused ==> !ereportOnViolation
    ensures |rangeTable| == 0 ==> v == Permitted
    decreases |rangeTable|
  {
    if |rangeTable| == 0 then Permitted
    else
      var rte := rangeTable[0];
      if !IsChecked(rte) then CheckRTPerms(rangeTable[1..], ereportOnViolation, relOwner, roles, db)
      else
        var owner := relOwner(rte.relid);
        if owner == InvalidOid then Permitted
        else if !CheckQuota(roles, db, owner) then
          (if ereportOnViolation then QuotaExceededError else Refused)
        else CheckRTPerms(rangeTable[1..], ereportOnViolation, relOwner, roles, db)
  }

  /** A checked entry whose known owner still has room lets the walk go on. */
  predicate Passes(rte: RangeTblEntry, relOwner: Oid -> Oid, roles: Option<RoleMap>, db: Oid) {
    IsChecked(rte) ==> relOwner(rte.relid) != InvalidOid && CheckQuota(roles, db, relOwner(rte.relid))
  }

  /** Entry i is the first one the walk does not pass, and its owner is over quota. */
  predicate ViolationAt(rangeTable: seq<RangeTblEntry>, i: int, relOwner: Oid -> Oid, roles: Option<RoleMap>, db: Oid) {
    && 0 <= i < |rangeTable|
    && IsChecked(rangeTable[i])
    && relOwner(rangeTable[i].relid) != InvalidOid
    && !CheckQuota(roles, db, relOwner(rangeTable[i].relid))
    && forall j :: 0 <= j < i ==> Passes(rangeTable[j], relOwner, roles, db)
  }

  /** Entries that are not relations, or do not need INSERT, are skipped. */
  lemma SkipsUnchecked(rte: RangeTblEntry, rest: seq<RangeTblEntry>, ereportOnViolation: bool,
                       relOwner: Oid -> Oid, roles: Option<RoleMap>, db: Oid)
    requires !IsChecked(rte)
    ensures CheckRTPerms([rte] + rest, ereportOnViolation, relOwner, roles, db)
         == CheckRTPerms(rest, ereportOnViolation, relOwner, roles, db)
  {
    assert ([rte] + rest)[1..] == rest;
  }

  /**
   * The statement is stopped exactly when some entry is the first the walk
   * does not pass and its owner is over quota; it is stopped with the error
   * exactly when ereportOnViolation is set.
   */
  lemma {:induction false} RefusedIffViolation(rangeTable: seq<RangeTblEntry>, ereportOnViolation: bool,
                                               relOwner: Oid -> Oid, roles: Option<RoleMap>, db: Oid)
    ensures CheckRTPerms(rangeTable, ereportOnViolation, relOwner, roles, db) != Permitted
        <==> exists i :: ViolationAt(rangeTable, i, relOwner, roles, db)
    ensures CheckRTPerms(rangeTable, ereportOnViolation, relOwner, roles, db) == QuotaExceededError
        <==> ereportOnViolation && exists i :: ViolationAt(rangeTable, i, relOwner, roles, db)
    decreases |rangeTable|
  {
    if |rangeTable| > 0 {
      var rte := rangeTable[0];
      var rest := rangeTable[1..];
      RefusedIffViolation(rest, ereportOnViolation, relOwner, roles, db);
      if Passes(rte, relOwner, roles, db) {
        forall i | ViolationAt(rest, i, relOwner, roles, db)
          ensures ViolationAt(rangeTable, i + 1, relOwner, roles, db)
        {
          forall j | 0 <= j < i + 1
            ensures Passes(rangeTable[j], relOwner, roles, db)
          {
            if j > 0 {
              assert rangeTable[j] == rest[j - 1];
            }
          }
        }
        forall i | ViolationAt(rangeTable, i, relOwner, roles, db)
          ensures ViolationAt(rest, i - 1, relOwner, roles, db)
        {
          assert i != 0;
          forall j | 0 <= j < i - 1
            ensures Passes(rest[j], relOwner, roles, db)
          {
            assert rest[j] == rangeTable[j + 1];
          }
        }
      } else if relOwner(rte.relid) != InvalidOid {
        assert ViolationAt(rangeTable, 0, relOwner, roles, db);
      } else {
        forall i | 0 <= i < |rangeTable|
          ensures !ViolationAt(rangeTable, i, relOwner, roles, db)
        {
          if i > 0 {
            assert !Passes(rangeTable[0], relOwner, roles, db);
          }
        }
      }
    }
  }

  /**
   * Once the walk reaches a checked entry with no known owner, it permits
   * the statement, whatever the later entries are.
   */
  lemma {:induction false} UnknownOwnerPermits(rangeTable: seq<RangeTblEntry>, i: int, ereportOnViolation: bool,
                                               relOwner: Oid -> Oid, roles: Option<RoleMap>, db: Oid)
    requires 0 <= i < |rangeTable|
    requires IsChecked(rangeTable[i]) && relOwner(rangeTable[i].relid) == InvalidOid
    requires forall j :: 0 <= j < i ==> Passes(rangeTable[j], relOwner, roles, db)
    ensures CheckRTPerms(rangeTable, ereportOnViolation, relOwner, roles, db) == Permitted
    decreases i
  {
    if i > 0 {
      assert Passes(rangeTable[0], relOwner, roles, db);
      var rest := rangeTable[1..];
      forall j | 0 <= j < i - 1
        ensures Passes(rest[j], relOwner, roles, db)
      {
        assert rest[j] == rangeTable[j + 1];
      }
      UnknownOwnerPermits(rest, i - 1, ereportOnViolation, relOwner, roles, db);
    }
  }

  /** When every entry passes (in particular when none is checked) the statement is permitted. */
  lemma {:induction false} AllPassPermits(rangeTable: seq<RangeTblEntry>, ereportOnViolation: bool,
                                          relOwner: Oid -> Oid, roles: Option<RoleMap>, db: Oid)
    requires forall j :: 0 <= j < |rangeTable| ==> Passes(rangeTable[j], relOwner, roles, db)
    ensures CheckRTPerms(rangeTable, ereportOnViolation, relOwner, roles, db) == Permitted
    decreases |rangeTable|
  {
    if |rangeTable| > 0 {
      var rest := rangeTable[1..];
      assert Passes(rangeTable[0], relOwner, roles, db);
      forall j | 0 <= j < |rest|
        ensures Passes(rest[j], relOwner, roles, db)
      {
        assert rest[j] == rangeTable[j + 1];
      }
      AllPassPermits(rest, ereportOnViolation, relOwner, roles, db);
    }
  }

  /**
   * The owner consulted is the table's owner, not the current user: two
   * catalogs that agree on the owners of the checked tables give the same
   * answer.
   */
  lemma {:induction false} DecidedByOwners(rangeTable: seq<RangeTblEntry>, ereportOnViolation: bool,
                                           relOwner1: Oid -> Oid, relOwner2: Oid -> Oid, roles: Option<RoleMap>, db: Oid)
    requires forall j :: 0 <= j < |rangeTable| && IsChecked(rangeTable[j]) ==>
               relOwner1(rangeTable[j].relid) == relOwner2(rangeTable[j].relid)
    ensures CheckRTPerms(rangeTable, ereportOnViolation, relOwner1, roles, db)
         == CheckRTPerms(rangeTable, ereportOnViolation, relOwner2, roles, db)
    decreases |rangeTable|
  {
    if |rangeTable| > 0 {
      var rest := rangeTable[1..];
      forall j | 0 <= j < |rest| && IsChecked(rest[j])
        ensures relOwner1(rest[j].relid) == relOwner2(rest[j].relid)
      {
        assert rest[j] == rangeTable[j + 1];
      }
      DecidedByOwners(rest, ereportOnViolation, relOwner1, relOwner2, roles, db);
    }
  }
}
