/** The rows of the cluster member table. */
module Members {
  import opened Prelude

  /** `ip` is the address part of the stored "address:port" text, None when it does not parse. */
  datatype Member = Member(id: nat, name: string, ip: Option<string>)

  /** The table has unique ids and unique names. */
  ghost predicate DistinctMembers(rows: seq<Member>)
  {
    && (forall a, b | a in rows && b in rows && (a.id == b.id || a.name == b.name) :: a == b)
    && (forall i, j | 0 <= i < j < |rows| :: rows[i] != rows[j])
  }

  /** Every member has an address of its own. */
  ghost predicate DistinctAddresses(rows: seq<Member>)
  {
    && (forall a | a in rows :: a.ip.Some? && a.ip.value != "")
    && (forall a, b | a in rows && b in rows && a.ip == b.ip :: a == b)
  }

  function Names(rows: seq<Member>): set<string>
  {
    set m | m in rows :: m.name
  }
}
