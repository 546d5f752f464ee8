/** The rows of the in-memory catalog (crates/ultrasql-catalog/src/entry.rs). */
module CatalogEntries {
  import opened Wrappers
  import opened Text
  import opened LookupKeys
  import opened DataTypes

  type Oid = u32

  /** The "no object" OID. */
  const INVALID: Oid := 0

  datatype TableEntry = TableEntry(
    oid: Oid,
    name: Name,
    schemaName: Name,
    schema: Schema,
    createdAtLsn: nat,
    nBlocks: u32,
    rootBlock: u32,
    options: seq<(string, string)>)

  datatype IndexEntry = IndexEntry(
    oid: Oid,
    name: Name,
    schemaName: Name,
    tableOid: Oid,
    columns: seq<u16>,
    rootBlock: u32,
    isUnique: bool,
    isPrimary: bool,
    accessMethod: string,
    opclasses: seq<Option<string>>,
    options: seq<(string, string)>)

  function TableKey(e: TableEntry): string {
    TableLookupKey(e.schemaName, e.name)
  }

  function IndexKey(e: IndexEntry): string {
    IndexLookupKey(e.schemaName, e.name)
  }

  /** First OID handed out to user objects. */
  const FIRST_USER_OID: Oid := 16_384

  /** What `next_oid` returns on its `n`-th call: a wrapping 32-bit counter. */
  function AllocatedOid(n: nat): Oid {
    (FIRST_USER_OID + n) % 0x1_0000_0000
  }

  /** Allocated OIDs are valid and pairwise distinct exactly until the counter wraps. */
  lemma AllocatedOidsAreFreshIff(calls: nat)
    ensures (&& (forall n: nat :: n < calls ==> AllocatedOid(n) != INVALID)
             && (forall m: nat, n: nat :: m < n < calls ==> AllocatedOid(m) != AllocatedOid(n)))
       <==> calls <= 0x1_0000_0000 - FIRST_USER_OID
  {
    if calls > 0x1_0000_0000 - FIRST_USER_OID {
      assert AllocatedOid(0x1_0000_0000 - FIRST_USER_OID) == INVALID;
    }
  }
}
