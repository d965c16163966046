/**
 * PostgreSQL identifiers and constants that the quota ledger relies on.
 */
module PgTypes {

  /** An object identifier. PostgreSQL stores it as a 32-bit unsigned integer. */
  type Oid = nat

  /** The "no object" identifier. */
  const InvalidOid: Oid := 0

  /** OID of the default tablespace (pg_default), whose files live under base/. */
  const DefaultTablespaceOid: Oid := 1663

  /** OID of the shared tablespace (pg_global), whose files live under global/. */
  const GlobalTablespaceOid: Oid := 1664

  /** Object identifiers below this value belong to the system catalogs. */
  const FirstNormalObjectId: Oid := 16384

  /** The physical identity of a relation: tablespace, database and file node. */
  datatype RelFileNode = RelFileNode(spcNode: Oid, dbNode: Oid, relNode: Oid)
}
