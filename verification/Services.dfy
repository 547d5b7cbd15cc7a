/** The services table, the service state machine on top of it, and what sequential runs keep. */
module Services {
  import opened Prelude
  import opened Members

  datatype Row = Row(id: nat, memberId: nat, service: string)

  datatype Error =
    | LookupFailed | DatabaseFailed
    | AlreadyEnabled | NotEnabled | UnknownService | LastCentralRefused
    | DuplicateEntry | NoSuchMember | RowNotFound | WrongRowCount
    | EnvironmentFailed | ActivationFailed | RollbackFailed | TeardownFailed

  const CENTRAL: string := "central"
  const SERVICE_NAMES: seq<string> := ["bgp", "chassis", CENTRAL, "switch"]

  // ---- The statements of the generated mapper, on the rows ----

  function MemberId(members: seq<Member>, name: string): Option<nat>
  {
    if members == [] then None
    else if members[0].name == name then Some(members[0].id)
    else MemberId(members[1..], name)
  }

  function SelectIds(rows: seq<Row>, memberId: nat, service: string): seq<nat>
  {
    if rows == [] then []
    else
      (if rows[0].memberId == memberId && rows[0].service == service then [rows[0].id] else [])
      + SelectIds(rows[1..], memberId, service)
  }

  function DeleteRows(rows: seq<Row>, memberId: nat, service: string): seq<Row>
  {
    if rows == [] then []
    else
      (if rows[0].memberId == memberId && rows[0].service == service then [] else [rows[0]])
      + DeleteRows(rows[1..], memberId, service)
  }

  /** The constraints of the table: unique ids, unique (member, service) pairs. */
  ghost predicate UniqueRows(rows: seq<Row>)
  {
    forall i, j | 0 <= i < j < |rows| ::
      rows[i].id != rows[j].id
      && !(rows[i].memberId == rows[j].memberId && rows[i].service == rows[j].service)
  }

  ghost predicate HasRow(rows: seq<Row>, memberId: nat, service: string)
  {
    exists r :: r in rows && r.memberId == memberId && r.service == service
  }

  lemma {:induction false} MemberIdFinds(members: seq<Member>, name: string)
    requires DistinctMembers(members)
    ensures name in Names(members) <==> MemberId(members, name).Some?
    ensures forall m | m in members && m.name == name :: MemberId(members, name) == Some(m.id)
    ensures MemberId(members, name).Some? ==>
              exists m :: m in members && m.name == name && m.id == MemberId(members, name).value
  {
    if members != [] {
      assert members == [members[0]] + members[1..];
      MemberIdFinds(members[1..], name);
      assert name in Names(members) <==> name == members[0].name || name in Names(members[1..]);
    }
  }

  lemma {:induction false} SelectFinds(rows: seq<Row>, memberId: nat, service: string)
    requires UniqueRows(rows)
    ensures |SelectIds(rows, memberId, service)| == if HasRow(rows, memberId, service) then 1 else 0
  {
    if rows != [] {
      SelectFinds(rows[1..], memberId, service);
      assert rows == [rows[0]] + rows[1..];
      if rows[0].memberId == memberId && rows[0].service == service {
        assert HasRow(rows, memberId, service);
        assert !HasRow(rows[1..], memberId, service);
      } else {
        assert HasRow(rows, memberId, service) ==> HasRow(rows[1..], memberId, service);
        assert HasRow(rows[1..], memberId, service) ==> HasRow(rows, memberId, service);
      }
    }
  }

  lemma {:induction false} DeletedMembers(rows: seq<Row>, memberId: nat, service: string)
    ensures forall r :: r in DeleteRows(rows, memberId, service) <==>
              r in rows && !(r.memberId == memberId && r.service == service)
  {
    if rows != [] {
      DeletedMembers(rows[1..], memberId, service);
      assert rows == [rows[0]] + rows[1..];
    }
  }

  lemma {:induction false} DeletedCount(rows: seq<Row>, memberId: nat, service: string)
    ensures |rows| - |DeleteRows(rows, memberId, service)| == |SelectIds(rows, memberId, service)|
    ensures !HasRow(rows, memberId, service) ==> DeleteRows(rows, memberId, service) == rows
  {
    if rows != [] {
      DeletedCount(rows[1..], memberId, service);
      assert HasRow(rows[1..], memberId, service) ==> HasRow(rows, memberId, service);
      assert rows[0] in rows;
    }
  }

  lemma {:induction false} DeletedUnique(rows: seq<Row>, memberId: nat, service: string)
    requires UniqueRows(rows)
    ensures UniqueRows(DeleteRows(rows, memberId, service))
  {
    if rows != [] {
      DeletedUnique(rows[1..], memberId, service);
      DeletedMembers(rows[1..], memberId, service);
      forall r | r in DeleteRows(rows[1..], memberId, service)
        ensures r.id != rows[0].id && !(r.memberId == rows[0].memberId && r.service == rows[0].service)
      {
        assert r in rows[1..];
      }
    }
  }

  lemma DeleteRemoves(rows: seq<Row>, memberId: nat, service: string)
    requires UniqueRows(rows)
    ensures UniqueRows(DeleteRows(rows, memberId, service))
    ensures forall r :: r in DeleteRows(rows, memberId, service) <==>
              r in rows && !(r.memberId == memberId && r.service == service)
    ensures |rows| - |DeleteRows(rows, memberId, service)| == |SelectIds(rows, memberId, service)|
    ensures !HasRow(rows, memberId, service) ==> DeleteRows(rows, memberId, service) == rows
  {
    DeletedMembers(rows, memberId, service);
    DeletedCount(rows, memberId, service);
    DeletedUnique(rows, memberId, service);
  }

  lemma {:induction false} DeleteUndoesInsert(rows: seq<Row>, row: Row)
    requires !HasRow(rows, row.memberId, row.service)
    ensures DeleteRows(rows + [row], row.memberId, row.service) == rows
  {
    if rows == [] {
      assert rows + [row] == [row];
    } else {
      assert (rows + [row])[1..] == rows[1..] + [row];
      assert rows[0] in rows;
      assert HasRow(rows[1..], row.memberId, row.service) ==> HasRow(rows, row.memberId, row.service);
      DeleteUndoesInsert(rows[1..], row);
    }
  }

  // ---- What the table means ----

  /** The (member name, service) pairs that are enabled. */
  type View = set<(string, string)>

  function ViewOf(members: seq<Member>, rows: seq<Row>): View
  {
    set m, r | m in members && r in rows && r.memberId == m.id :: (m.name, r.service)
  }

  lemma ViewHasRow(members: seq<Member>, rows: seq<Row>, name: string, service: string)
    requires DistinctMembers(members)
    ensures (name, service) in ViewOf(members, rows) <==>
            MemberId(members, name).Some? && HasRow(rows, MemberId(members, name).value, service)
  {
    MemberIdFinds(members, name);
    if MemberId(members, name).Some? && HasRow(rows, MemberId(members, name).value, service) {
      var m :| m in members && m.name == name && m.id == MemberId(members, name).value;
      var r :| r in rows && r.memberId == m.id && r.service == service;
      assert (m.name, r.service) in ViewOf(members, rows);
    }
  }

  lemma ViewAfterInsert(members: seq<Member>, rows: seq<Row>, row: Row, m: Member)
    requires DistinctMembers(members) && m in members && m.id == row.memberId
    ensures ViewOf(members, rows + [row]) == ViewOf(members, rows) + {(m.name, row.service)}
  {
    forall v | v in ViewOf(members, rows) + {(m.name, row.service)} ensures v in ViewOf(members, rows + [row]) {
      if v == (m.name, row.service) {
        assert row in rows + [row];
      } else {
        var n, r :| n in members && r in rows && r.memberId == n.id && v == (n.name, r.service);
        assert r in rows + [row];
      }
    }
  }

  lemma ViewAfterDelete(members: seq<Member>, rows: seq<Row>, m: Member, service: string)
    requires DistinctMembers(members) && m in members && UniqueRows(rows)
    ensures ViewOf(members, DeleteRows(rows, m.id, service)) == ViewOf(members, rows) - {(m.name, service)}
  {
    DeleteRemoves(rows, m.id, service);
  }

  // ---- Specification of the operations ----

  /** Members with the service, in member order. */
  function Holders(members: seq<Member>, view: View, service: string): seq<Member>
  {
    if members == [] then []
    else
      var last := |members| - 1;
      Holders(members[..last], view, service)
      + (if (members[last].name, service) in view then [members[last]] else [])
  }

  datatype EnableFaults = EnableFaults(lookup: bool, insert: bool, environment: bool, activation: bool, rollback: bool)

  datatype DisableFaults = DisableFaults(lookup: bool, find: bool, delete: bool, teardown: bool)

  function EnableEffect(members: seq<Member>, view: View, self: string, service: string, f: EnableFaults)
    : (View, Option<Error>)
  {
    if f.lookup then (view, Some(LookupFailed))
    else if (self, service) in view then (view, Some(AlreadyEnabled))
    else if service !in SERVICE_NAMES then (view, Some(UnknownService))
    else if f.insert then (view, Some(DatabaseFailed))
    else if self !in Names(members) then (view, Some(NoSuchMember))
    else if f.environment then (view + {(self, service)}, Some(EnvironmentFailed))
    else if !f.activation then (view + {(self, service)}, None)
    else if f.rollback then (view + {(self, service)}, Some(RollbackFailed))
    else (view, Some(ActivationFailed))
  }

  /** The checks before the row is deleted. */
  function DisableGuard(members: seq<Member>, view: View, self: string, service: string, allowLast: bool)
    : Option<Error>
  {
    if (self, service) !in view then Some(NotEnabled)
    else if service == CENTRAL && |Holders(members, view, service)| == 1 && !allowLast then
      Some(LastCentralRefused)
    else None
  }

  function DisableEffect(members: seq<Member>, view: View, self: string, service: string, allowLast: bool,
                         f: DisableFaults)
    : (View, Option<Error>)
  {
    if f.lookup then (view, Some(LookupFailed))
    else if (self, service) !in view then (view, Some(NotEnabled))
    else if service == CENTRAL && f.find then (view, Some(LookupFailed))
    else if DisableGuard(members, view, self, service, allowLast).Some? then
      (view, DisableGuard(members, view, self, service, allowLast))
    else if f.delete then (view, Some(DatabaseFailed))
    else (view - {(self, service)}, if service == "bgp" && f.teardown then Some(TeardownFailed) else None)
  }

  function DisableAllEffect(members: seq<Member>, view: View, self: string, services: seq<string>,
                            faults: seq<DisableFaults>): View
    requires |faults| == |services|
  {
    if services == [] then view
    else
      var last := |services| - 1;
      var before := DisableAllEffect(members, view, self, services[..last], faults[..last]);
      DisableEffect(members, before, self, services[last], false, faults[last]).0
  }

  class ClusterDb {
    const members: seq<Member>
    var rows: seq<Row>
    var nextId: nat

    ghost predicate Valid()
      reads this
    {
      && DistinctMembers(members)
      && UniqueRows(rows)
      && forall r | r in rows :: r.id < nextId
    }

    function Enabled(): View
      reads this
    {
      ViewOf(members, rows)
    }

    constructor (members: seq<Member>)
      requires DistinctMembers(members)
      ensures Valid() && this.members == members && rows == [] && Enabled() == {}
    {
      this.members := members;
      rows, nextId := [], 1;
    }

    method ServiceExists(name: string, service: string) returns (found: bool)
      requires Valid()
      ensures found <==> (name, service) in Enabled()
    {
      ViewHasRow(members, rows, name, service);
      var memberId := MemberId(members, name);
      if memberId == None {
        return false;
      }
      SelectFinds(rows, memberId.value, service);
      found := SelectIds(rows, memberId.value, service) != [];
    }

    /** The row is appended exactly when the pair is new and the member exists. */
    method CreateService(name: string, service: string) returns (r: Result<nat, Error>)
      requires Valid()
      modifies this
      ensures Valid()
      ensures (name, service) in old(Enabled()) ==> r == Err(DuplicateEntry)
      ensures (name, service) !in old(Enabled()) && name !in Names(members) ==> r == Err(NoSuchMember)
      ensures (name, service) !in old(Enabled()) && name in Names(members) ==> r == Ok(old(nextId))
      ensures r.Ok? ==>
                && MemberId(members, name).Some? && !HasRow(old(rows), MemberId(members, name).value, service)
                && rows == old(rows) + [Row(r.value, MemberId(members, name).value, service)]
                && nextId == old(nextId) + 1
                && Enabled() == old(Enabled()) + {(name, service)}
      ensures r.Err? ==> rows == old(rows) && nextId == old(nextId)
    {
      var exists_ := ServiceExists(name, service);
      if exists_ {
        return Err(DuplicateEntry);
      }
      MemberIdFinds(members, name);
      var memberId := MemberId(members, name);
      if memberId == None {
        return Err(NoSuchMember);   // the sub-select is NULL and the column is not
      }
      ViewHasRow(members, rows, name, service);
      ghost var m :| m in members && m.name == name && m.id == memberId.value;
      var row := Row(nextId, memberId.value, service);
      ViewAfterInsert(members, rows, row, m);
      assert forall i | 0 <= i < |rows| :: rows[i] in rows;
      rows, nextId := rows + [row], nextId + 1;
      r := Ok(row.id);
    }

    /** Never more than one row is affected; the row is gone, or there was none. */
    method DeleteService(name: string, service: string) returns (err: Option<Error>)
      requires Valid()
      modifies this
      ensures Valid() && nextId == old(nextId)
      ensures err == if (name, service) in old(Enabled()) then None else Some(RowNotFound)
      ensures Enabled() == old(Enabled()) - {(name, service)}
      ensures MemberId(members, name).Some? ==>
                rows == DeleteRows(old(rows), MemberId(members, name).value, service)
      ensures MemberId(members, name) == None ==> rows == old(rows)
    {
      MemberIdFinds(members, name);
      ViewHasRow(members, rows, name, service);
      var memberId := MemberId(members, name);
      if memberId == None {
        return Some(RowNotFound);
      }
      ghost var m :| m in members && m.name == name && m.id == memberId.value;
      ViewAfterDelete(members, rows, m, service);
      DeleteRemoves(rows, memberId.value, service);
      SelectFinds(rows, memberId.value, service);
      var left := DeleteRows(rows, memberId.value, service);
      var affected := |rows| - |left|;
      if affected == 0 {
        return Some(RowNotFound);
      } else if affected > 1 {
        return Some(WrongRowCount);
      }
      rows := left;
      err := None;
    }

    /** Scans the local rows; a failed transaction is reported as such. */
    method HasServiceActive(self: string, service: string, fails: bool) returns (r: Result<bool, Error>)
      requires Valid()
      ensures r == if fails then Err(LookupFailed) else Ok((self, service) in Enabled())
    {
      if fails {
        return Err(LookupFailed);
      }
      ViewHasRow(members, rows, self, service);
      var memberId := MemberId(members, self);
      var serviceActive := false;
      for i := 0 to |rows|
        invariant serviceActive <==>
                  memberId.Some? && exists k :: 0 <= k < i && rows[k].memberId == memberId.value && rows[k].service == service
      {
        if memberId.Some? && rows[i].memberId == memberId.value {
          if rows[i].service == service {
            serviceActive := true;
          }
        }
      }
      r := Ok(serviceActive);
    }

    method FindService(service: string, fails: bool) returns (r: Result<seq<Member>, Error>)
      requires Valid()
      ensures r == if fails then Err(LookupFailed) else Ok(Holders(members, Enabled(), service))
    {
      if fails {
        return Err(LookupFailed);
      }
      var membersWithService := [];
      for i := 0 to |members|
        invariant membersWithService == Holders(members[..i], Enabled(), service)
      {
        assert members[..i + 1][..i] == members[..i];
        var memberHasService := ServiceExists(members[i].name, service);
        if memberHasService {
          membersWithService := membersWithService + [members[i]];
        }
      }
      assert members[..|members|] == members;
      r := Ok(membersWithService);
    }

    method EnableService(self: string, service: string, f: EnableFaults) returns (err: Option<Error>)
      requires Valid()
      modifies this
      ensures Valid()
      ensures (Enabled(), err) == EnableEffect(members, old(Enabled()), self, service, f)
      ensures err == Some(ActivationFailed) ==> rows == old(rows)
      ensures err == None || err == Some(EnvironmentFailed) || err == Some(RollbackFailed) ==>
                (self, service) !in old(Enabled()) && Enabled() == old(Enabled()) + {(self, service)}
      ensures err.Some? && err != Some(EnvironmentFailed) && err != Some(RollbackFailed) ==> Enabled() == old(Enabled())
    {
      var active := HasServiceActive(self, service, f.lookup);
      if active.Err? {
        return Some(active.error);
      }
      if active.value {
        return Some(AlreadyEnabled);
      }
      if service !in SERVICE_NAMES {
        return Some(UnknownService);
      }
      if f.insert {
        return Some(DatabaseFailed);
      }
      var created := CreateService(self, service);
      if created.Err? {
        return Some(created.error);
      }
      if f.environment {
        return Some(EnvironmentFailed);
      }
      if f.activation {
        if f.rollback {
          return Some(RollbackFailed);
        }
        DeleteUndoesInsert(old(rows), rows[|rows| - 1]);
        var _ := DeleteService(self, service);
        assert old(Enabled()) + {(self, service)} - {(self, service)} == old(Enabled());
        return Some(ActivationFailed);
      }
      err := None;
    }

    method DisableService(self: string, service: string, allowLastCentral: bool, f: DisableFaults)
      returns (err: Option<Error>)
      requires Valid()
      modifies this
      ensures Valid()
      ensures (Enabled(), err) == DisableEffect(members, old(Enabled()), self, service, allowLastCentral, f)
      ensures err == None || err == Some(TeardownFailed) ==>
                (self, service) in old(Enabled()) && Enabled() == old(Enabled()) - {(self, service)}
      ensures err.Some? && err != Some(TeardownFailed) ==> Enabled() == old(Enabled())
    {
      var active := HasServiceActive(self, service, f.lookup);
      if active.Err? {
        return Some(active.error);
      }
      if !active.value {
        return Some(NotEnabled);
      }
      if service == CENTRAL {
        var centrals := FindService(service, f.find);
        if centrals.Err? {
          return Some(centrals.error);
        }
        if |centrals.value| == 1 && !allowLastCentral {
          return Some(LastCentralRefused);
        }
      }
      if f.delete {
        return Some(DatabaseFailed);
      }
      err := DeleteService(self, service);
      if err.Some? {
        return;
      }
      if service == "bgp" && f.teardown {
        err := Some(TeardownFailed);
      }
    }

    /** Every known service in turn, ignoring what cannot be disabled. */
    method DisableAllServices(self: string, faults: seq<DisableFaults>)
      requires Valid() && |faults| == |SERVICE_NAMES|
      modifies this
      ensures Valid()
      ensures Enabled() == DisableAllEffect(members, old(Enabled()), self, SERVICE_NAMES, faults)
      ensures AllDisabled(members, old(Enabled()), self, faults, Enabled())
    {
      DisableAllOf(members, Enabled(), self, faults);
      for i := 0 to |SERVICE_NAMES|
        invariant Valid()
        invariant Enabled() == DisableAllEffect(members, old(Enabled()), self, SERVICE_NAMES[..i], faults[..i])
      {
        assert SERVICE_NAMES[..i + 1][..i] == SERVICE_NAMES[..i] && faults[..i + 1][..i] == faults[..i];
        var _ := DisableService(self, SERVICE_NAMES[i], false, faults[i]);
      }
      assert SERVICE_NAMES[..|SERVICE_NAMES|] == SERVICE_NAMES && faults[..|faults|] == faults;
    }
  }

  // ---- The operations without their specification functions ----

  /** No other member runs central. */
  ghost predicate OnlyCentral(members: seq<Member>, view: View, self: string)
  {
    forall m | m in members && (m.name, CENTRAL) in view :: m.name == self
  }

  lemma OneHolderIff(members: seq<Member>, view: View, self: string)
    requires DistinctMembers(members) && self in Names(members) && (self, CENTRAL) in view
    ensures |Holders(members, view, CENTRAL)| == 1 <==> OnlyCentral(members, view, self)
  {
    var holders := Holders(members, view, CENTRAL);
    HoldersAre(members, view, CENTRAL);
    var m :| m in members && m.name == self;
    assert m in holders;
    if |holders| != 1 {
      assert holders[0] in holders && holders[1] in holders && holders[0] != holders[1];
    } else {
      assert forall o | o in holders :: o == holders[0];
    }
  }

  /** Each error of a disable under its own condition, in the order of the checks; what passes them all
      removes the pair, for every service. */
  lemma DisableMeaning(members: seq<Member>, view: View, self: string, service: string, allowLast: bool, f: DisableFaults)
    requires DistinctMembers(members) && Referenced(members, view)
    ensures var (after, err) := DisableEffect(members, view, self, service, allowLast, f);
            var refused := service == CENTRAL && OnlyCentral(members, view, self) && !allowLast;
            && (err == Some(NotEnabled) <==> !f.lookup && (self, service) !in view)
            && (err == Some(LookupFailed) <==>
                  f.lookup || ((self, service) in view && service == CENTRAL && f.find))
            && (err == Some(LastCentralRefused) <==>
                  (self, service) in view && !f.lookup && !(service == CENTRAL && f.find) && refused)
            && (err == Some(DatabaseFailed) <==>
                  (self, service) in view && !f.lookup && !(service == CENTRAL && f.find) && !refused && f.delete)
            && (err == None || err == Some(TeardownFailed) <==>
                  (self, service) in view && !f.lookup && !(service == CENTRAL && f.find) && !refused && !f.delete)
            && (err == Some(TeardownFailed) ==> service == "bgp" && f.teardown)
            && (err == None ==> !(service == "bgp" && f.teardown))
            && after == if err == None || err == Some(TeardownFailed) then view - {(self, service)} else view
  {
    if (self, CENTRAL) in view {
      OneHolderIff(members, view, self);
    }
  }

  /** The same for an enable; a failed environment and a failed rollback leave the new pair behind. */
  lemma EnableMeaning(members: seq<Member>, view: View, self: string, service: string, f: EnableFaults)
    ensures var (after, err) := EnableEffect(members, view, self, service, f);
            var known := service == "bgp" || service == "central" || service == "chassis" || service == "switch";
            var inserted := (self, service) !in view && known && self in Names(members) && !f.lookup && !f.insert;
            && (err == Some(LookupFailed) <==> f.lookup)
            && (err == Some(AlreadyEnabled) <==> !f.lookup && (self, service) in view)
            && (err == Some(UnknownService) <==> !f.lookup && (self, service) !in view && !known)
            && (err == Some(DatabaseFailed) <==> !f.lookup && (self, service) !in view && known && f.insert)
            && (err == Some(NoSuchMember) <==>
                  !f.lookup && (self, service) !in view && known && !f.insert && self !in Names(members))
            && (err == Some(EnvironmentFailed) <==> inserted && f.environment)
            && (err == Some(RollbackFailed) <==> inserted && !f.environment && f.activation && f.rollback)
            && (err == Some(ActivationFailed) <==> inserted && !f.environment && f.activation && !f.rollback)
            && (err == None <==> inserted && !f.environment && !f.activation)
            && after == if inserted && (f.environment || !f.activation || f.rollback) then view + {(self, service)} else view
  {
    assert SERVICE_NAMES[0] == "bgp" && SERVICE_NAMES[1] == "chassis" && SERVICE_NAMES[2] == "central" && SERVICE_NAMES[3] == "switch";
  }

  /** A service that a removal of all services leaves on its member: a command failed for it, or it is the
      last central one. */
  ghost predicate Stays(members: seq<Member>, view: View, self: string, service: string, f: DisableFaults)
  {
    || f.lookup || f.delete
    || (service == CENTRAL && (f.find || |Holders(members, view, CENTRAL)| == 1))
  }

  /** Of the pairs of this member only those stay; all the other pairs do. */
  ghost predicate AllDisabled(members: seq<Member>, view: View, self: string, faults: seq<DisableFaults>, after: View)
    requires |faults| == |SERVICE_NAMES|
  {
    && after <= view
    && (forall v | v in view && v !in after :: v.0 == self && v.1 in SERVICE_NAMES)
    && (forall i | 0 <= i < |SERVICE_NAMES| && (self, SERVICE_NAMES[i]) in view ::
          (self, SERVICE_NAMES[i]) in after <==> Stays(members, view, self, SERVICE_NAMES[i], faults[i]))
  }

  lemma DisableAllOf(members: seq<Member>, view: View, self: string, faults: seq<DisableFaults>)
    requires |faults| == |SERVICE_NAMES|
    ensures AllDisabled(members, view, self, faults, DisableAllEffect(members, view, self, SERVICE_NAMES, faults))
  {
    var names := SERVICE_NAMES;
    ServiceNamesDiffer();
    DisableAllTouches(members, view, self, names, faults);
    forall i | 0 <= i < |names| && (self, names[i]) in view
      ensures (self, names[i]) in DisableAllEffect(members, view, self, names, faults)
              <==> Stays(members, view, self, names[i], faults[i])
    {
      DisableAllMeaning(members, view, self, names, faults, i);
    }
  }

  lemma ServiceNamesDiffer()
    ensures forall i, j | 0 <= i < j < |SERVICE_NAMES| :: SERVICE_NAMES[i] != SERVICE_NAMES[j]
  {
    assert SERVICE_NAMES[0][0] == 'b' && SERVICE_NAMES[1][1] == 'h' && SERVICE_NAMES[2][1] == 'e' && SERVICE_NAMES[3][0] == 's';
    assert SERVICE_NAMES[1][0] == 'c' && SERVICE_NAMES[2][0] == 'c';
  }

  /** Only pairs of this member and of the given services go. */
  lemma {:induction false} DisableAllTouches(members: seq<Member>, view: View, self: string, services: seq<string>,
                                             faults: seq<DisableFaults>)
    requires |faults| == |services|
    ensures DisableAllEffect(members, view, self, services, faults) <= view
    ensures forall v | v in view && v !in DisableAllEffect(members, view, self, services, faults) ::
              v.0 == self && v.1 in services
  {
    if services != [] {
      var last := |services| - 1;
      DisableAllTouches(members, view, self, services[..last], faults[..last]);
      assert services == services[..last] + [services[last]];
    }
  }

  lemma {:induction false} HoldersDepend(members: seq<Member>, a: View, b: View, service: string)
    requires forall m | m in members :: (m.name, service) in a <==> (m.name, service) in b
    ensures Holders(members, a, service) == Holders(members, b, service)
  {
    if members != [] {
      assert members == members[..|members| - 1] + [members[|members| - 1]];
      HoldersDepend(members[..|members| - 1], a, b, service);
    }
  }

  lemma {:induction false} DisableAllMeaning(members: seq<Member>, view: View, self: string, services: seq<string>,
                                             faults: seq<DisableFaults>, i: nat)
    requires |faults| == |services| && i < |services| && (self, services[i]) in view
    requires forall i, j | 0 <= i < j < |services| :: services[i] != services[j]
    ensures (self, services[i]) in DisableAllEffect(members, view, self, services, faults)
            <==> Stays(members, view, self, services[i], faults[i])
  {
    var last := |services| - 1;
    var before := DisableAllEffect(members, view, self, services[..last], faults[..last]);
    DisableAllTouches(members, view, self, services[..last], faults[..last]);
    if i < last {
      assert services[..last][i] == services[i] && faults[..last][i] == faults[i];
      DisableAllMeaning(members, view, self, services[..last], faults[..last], i);
    } else {
      assert services[last] !in services[..last];
      if services[last] == CENTRAL {
        HoldersDepend(members, view, before, CENTRAL);
      }
    }
  }

  /** Holders come in member order: those of two parts of the table one after the other. */
  lemma {:induction false} HoldersInOrder(a: seq<Member>, b: seq<Member>, view: View, service: string)
    ensures Holders(a + b, view, service) == Holders(a, view, service) + Holders(b, view, service)
  {
    if b == [] {
      assert a + b == a;
    } else {
      var before, last := b[..|b| - 1], b[|b| - 1];
      HoldersInOrder(a, before, view, service);
      OneMoreHolder(before, last, view, service);
      OneMoreHolder(a + before, last, view, service);
      assert a + b == a + before + [last] && b == before + [last];
    }
  }

  lemma OneMoreHolder(before: seq<Member>, m: Member, view: View, service: string)
    ensures Holders(before + [m], view, service) ==
            Holders(before, view, service) + (if (m.name, service) in view then [m] else [])
  {
    assert (before + [m])[..|before|] == before;
  }

  // ---- Sequential runs ----

  datatype Op =
    | Enable(self: string, service: string, enableFaults: EnableFaults)
    | Disable(self: string, service: string, allowLast: bool, faults: DisableFaults)
    | DisableAll(self: string, allFaults: seq<DisableFaults>)

  function Apply(members: seq<Member>, view: View, op: Op): View
  {
    match op
    case Enable(self, service, f) => EnableEffect(members, view, self, service, f).0
    case Disable(self, service, allowLast, f) => DisableEffect(members, view, self, service, allowLast, f).0
    case DisableAll(self, fs) =>
      if |fs| == |SERVICE_NAMES| then DisableAllEffect(members, view, self, SERVICE_NAMES, fs) else view
  }

  function Run(members: seq<Member>, view: View, ops: seq<Op>): View
  {
    if ops == [] then view
    else Apply(members, Run(members, view, ops[..|ops| - 1]), ops[|ops| - 1])
  }

  /** Rows refer to existing members. */
  ghost predicate Referenced(members: seq<Member>, view: View)
  {
    forall v | v in view :: v.0 in Names(members)
  }

  ghost predicate SomeCentral(members: seq<Member>, view: View)
  {
    exists m :: m in members && (m.name, CENTRAL) in view
  }

  lemma {:induction false} HoldersAre(members: seq<Member>, view: View, service: string)
    requires DistinctMembers(members)
    ensures forall m :: m in Holders(members, view, service) <==> m in members && (m.name, service) in view
    ensures DistinctMembers(Holders(members, view, service))
  {
    if members != [] {
      var last := |members| - 1;
      assert members == members[..last] + [members[last]];
      HoldersAre(members[..last], view, service);
    }
  }

  /** Without permission a disable keeps some central member, if there was one. */
  lemma DisableKeepsCentral(members: seq<Member>, view: View, self: string, service: string, allowLast: bool,
                            f: DisableFaults)
    requires DistinctMembers(members) && Referenced(members, view) && SomeCentral(members, view)
    requires !allowLast || service != CENTRAL || |Holders(members, view, CENTRAL)| != 1
    ensures var after := DisableEffect(members, view, self, service, allowLast, f).0;
            Referenced(members, after) && SomeCentral(members, after)
  {
    var after := DisableEffect(members, view, self, service, allowLast, f).0;
    var m :| m in members && (m.name, CENTRAL) in view;
    if after != view && service == CENTRAL {
      HoldersAre(members, view, CENTRAL);
      var holders := Holders(members, view, CENTRAL);
      assert m in holders && |holders| >= 2;
      assert holders[0] in holders && holders[1] in holders && holders[0] != holders[1];
      var other := if holders[0].name == self then holders[1] else holders[0];
      assert (other.name, CENTRAL) in after;
    } else {
      assert (m.name, CENTRAL) in after;
    }
  }

  lemma {:induction false} DisableAllKeepsCentral(members: seq<Member>, view: View, self: string,
                                                  services: seq<string>, faults: seq<DisableFaults>)
    requires DistinctMembers(members) && Referenced(members, view) && SomeCentral(members, view)
    requires |faults| == |services|
    ensures var after := DisableAllEffect(members, view, self, services, faults);
            Referenced(members, after) && SomeCentral(members, after)
  {
    if services != [] {
      var last := |services| - 1;
      DisableAllKeepsCentral(members, view, self, services[..last], faults[..last]);
      var before := DisableAllEffect(members, view, self, services[..last], faults[..last]);
      DisableKeepsCentral(members, before, self, services[last], false, faults[last]);
    }
  }

  /** An operation that removes the last central member: a disable of central with the explicit
      permission, when exactly one member was left. */
  ghost predicate PermittedLoss(members: seq<Member>, view: View, op: Op)
  {
    op.Disable? && op.service == CENTRAL && op.allowLast && |Holders(members, view, CENTRAL)| == 1
  }

  lemma OpKeepsCentral(members: seq<Member>, view: View, op: Op)
    requires DistinctMembers(members) && Referenced(members, view) && SomeCentral(members, view)
    ensures SomeCentral(members, Apply(members, view, op)) || PermittedLoss(members, view, op)
  {
    match op
    case Enable(self, service, f) =>
      var m :| m in members && (m.name, CENTRAL) in view;
      assert (m.name, CENTRAL) in Apply(members, view, op);
    case Disable(self, service, allowLast, f) =>
      if !PermittedLoss(members, view, op) {
        DisableKeepsCentral(members, view, self, service, allowLast, f);
      }
    case DisableAll(self, fs) =>
      if |fs| == |SERVICE_NAMES| {
        DisableAllKeepsCentral(members, view, self, SERVICE_NAMES, fs);
      }
  }

  lemma OpKeepsReferences(members: seq<Member>, view: View, op: Op)
    requires Referenced(members, view)
    ensures Referenced(members, Apply(members, view, op))
  {
    if op.DisableAll? && |op.allFaults| == |SERVICE_NAMES| {
      DisableAllShrinks(members, view, op.self, SERVICE_NAMES, op.allFaults);
    }
  }

  lemma {:induction false} DisableAllShrinks(members: seq<Member>, view: View, self: string,
                                             services: seq<string>, faults: seq<DisableFaults>)
    requires |faults| == |services|
    ensures DisableAllEffect(members, view, self, services, faults) <= view
  {
    if services != [] {
      var last := |services| - 1;
      DisableAllShrinks(members, view, self, services[..last], faults[..last]);
    }
  }

  /** Over every sequential run, central is lost only at an explicitly permitted disable; a removal
      of all services of a member never does it. */
  lemma {:induction false} CentralLossIsPermitted(members: seq<Member>, view: View, ops: seq<Op>)
    requires DistinctMembers(members) && Referenced(members, view) && SomeCentral(members, view)
    ensures Referenced(members, Run(members, view, ops))
    ensures !SomeCentral(members, Run(members, view, ops)) ==>
              exists k :: 0 <= k < |ops| && PermittedLoss(members, Run(members, view, ops[..k]), ops[k])
  {
    if ops != [] {
      var last := |ops| - 1;
      CentralLossIsPermitted(members, view, ops[..last]);
      var before := Run(members, view, ops[..last]);
      OpKeepsReferences(members, before, ops[last]);
      if SomeCentral(members, before) {
        OpKeepsCentral(members, before, ops[last]);
      } else {
        var k :| 0 <= k < last && PermittedLoss(members, Run(members, view, ops[..last][..k]), ops[..last][k]);
        assert ops[..last][..k] == ops[..k];
        assert PermittedLoss(members, Run(members, view, ops[..k]), ops[k]);
      }
    }
  }
}
