/** Enabling central on several members at once: row inserts, environment regenerations and database
    starts interleave freely. Reading the table and writing the file are separate steps, so a file
    may be written from an old reading. */
module CentralInit {
  import opened Prelude
  import opened Members
  import opened Environment

  /** How a member's database came to be. */
  datatype Origin = Created | JoinedVia(host: string)

  /** The rows for central that a regeneration on `m` has found. */
  datatype Reading = Reading(m: Member, rows: set<string>)

  datatype State = State(
    central: set<string>,             // rows of the services table for central
    readings: set<Reading>,           // taken so far, each may still be written
    env: map<Member, set<string>>,    // the reading from which the file of each member was written
    db: map<Member, Origin>)

  const EMPTY: State := State({}, {}, map[], map[])

  datatype Event =
    | Insert(m: Member)
    | Read(m: Member)
    | Write(m: Member, rows: set<string>)
    | StartDatabase(m: Member)

  /** The value of OVN_INITIAL_NB that follows from a reading. */
  function ComputedHost(members: seq<Member>, central: set<string>, m: Member): Option<string>
  {
    if m.ip == None then None
    else
      match RemoteAddresses(members, central)
      case Err(_) => None
      case Ok(addrs) => Some(Bracket(InitialHost(m.ip.value, addrs)))
  }

  /** What a database does that starts with a file written from `rows`. */
  function OriginOf(members: seq<Member>, m: Member, rows: set<string>): Option<Origin>
  {
    match ComputedHost(members, rows, m)
    case None => None
    case Some(host) =>
      Some(if CreatesCluster(Env(host, Bracket(m.ip.value))) then Created else JoinedVia(host))
  }

  function Step(members: seq<Member>, s: State, e: Event): Option<State>
  {
    if e.m !in members then None
    else
      match e
      case Insert(m) =>
        if m.name in s.central then None else Some(s.(central := s.central + {m.name}))
      case Read(m) =>
        if ComputedHost(members, s.central, m) == None then None
        else Some(s.(readings := s.readings + {Reading(m, s.central)}))
      case Write(m, rows) =>
        if Reading(m, rows) in s.readings then Some(s.(env := s.env[m := rows])) else None
      case StartDatabase(m) =>
        if m !in s.env || m in s.db then None
        else
          match OriginOf(members, m, s.env[m])
          case None => None
          case Some(origin) => Some(s.(db := s.db[m := origin]))
  }

  function Run(members: seq<Member>, events: seq<Event>): Option<State>
  {
    if events == [] then Some(EMPTY)
    else
      var last := |events| - 1;
      match Run(members, events[..last])
      case None => None
      case Some(s) => Step(members, s, events[last])
  }

  ghost predicate NamesItself(m: Member, host: string)
  {
    m.ip.Some? && host == Bracket(m.ip.value)
  }

  /** A member computes itself exactly when its row is the only one at that moment. */
  lemma SelfOnlyWhenAlone(members: seq<Member>, central: set<string>, m: Member)
    requires DistinctMembers(members) && DistinctAddresses(members) && m in members
    requires central <= Names(members)
    ensures ComputedHost(members, central, m).Some?
    ensures NamesItself(m, ComputedHost(members, central, m).value) <==> central == {m.name}
  {
    InitialHostOfTable(members, central, m);
    BracketInjective(InitialHost(m.ip.value, RemoteAddresses(members, central).value), m.ip.value);
  }

  // ---- At most one creator ----

  /** Without removals the table only grows, so the readings form a chain. */
  ghost predicate Inv(members: seq<Member>, s: State)
  {
    && s.central <= Names(members)
    && (forall r | r in s.readings :: r.m in members && r.rows <= s.central)
    && (forall r, q | r in s.readings && q in s.readings :: r.rows <= q.rows || q.rows <= r.rows)
    && (forall m | m in s.env :: Reading(m, s.env[m]) in s.readings)
    && (forall m | m in s.db :: ReadBefore(members, s, m))
  }

  ghost predicate ReadBefore(members: seq<Member>, s: State, m: Member)
    requires m in s.db
  {
    exists rows :: Reading(m, rows) in s.readings && OriginOf(members, m, rows) == Some(s.db[m])
  }

  lemma StepKeepsInv(members: seq<Member>, s: State, e: Event)
    requires Inv(members, s) && Step(members, s, e).Some?
    ensures Inv(members, Step(members, s, e).value)
  {
    var t := Step(members, s, e).value;
    assert e.Insert? ==> e.m.name in Names(members);
    forall m | m in t.db ensures ReadBefore(members, t, m) {
      if m in s.db {
        var rows :| Reading(m, rows) in s.readings && OriginOf(members, m, rows) == Some(s.db[m]);
        assert Reading(m, rows) in t.readings;
      } else {
        assert Reading(m, s.env[m]) in t.readings;
      }
    }
  }

  lemma {:induction false} RunKeepsInv(members: seq<Member>, events: seq<Event>)
    requires Run(members, events).Some?
    ensures Inv(members, Run(members, events).value)
  {
    if events != [] {
      var last := |events| - 1;
      RunKeepsInv(members, events[..last]);
      StepKeepsInv(members, Run(members, events[..last]).value, events[last]);
    }
  }

  /** From an empty central set, under any interleaving: at most one member ever computes itself as
      the initial host, and at most one creates a new database cluster, the very same one. */
  lemma NoDoubleInitialisation(members: seq<Member>, events: seq<Event>)
    requires DistinctMembers(members) && DistinctAddresses(members)
    requires Run(members, events).Some?
    ensures var s := Run(members, events).value;
            && (forall r, q | r in s.readings && q in s.readings
                              && ComputesItself(members, r) && ComputesItself(members, q) :: r.m == q.m)
            && (forall a, b | a in s.db && b in s.db && s.db[a].Created? && s.db[b].Created? :: a == b)
            && (forall a, r | a in s.db && s.db[a].Created? && r in s.readings && ComputesItself(members, r) :: r.m == a)
  {
    RunKeepsInv(members, events);
    var s := Run(members, events).value;
    forall r, q | r in s.readings && q in s.readings && ComputesItself(members, r) && ComputesItself(members, q)
      ensures r.m == q.m
    {
      SelfOnlyWhenAlone(members, r.rows, r.m);
      SelfOnlyWhenAlone(members, q.rows, q.m);
      assert r.m.name in r.rows && q.m.name in q.rows;
    }
    forall a | a in s.db && s.db[a].Created?
      ensures exists r :: r in s.readings && r.m == a && ComputesItself(members, r)
    {
      var rows :| Reading(a, rows) in s.readings && OriginOf(members, a, rows) == Some(s.db[a]);
      assert ComputesItself(members, Reading(a, rows));
    }
  }

  ghost predicate ComputesItself(members: seq<Member>, r: Reading)
  {
    var host := ComputedHost(members, r.rows, r.m);
    host.Some? && NamesItself(r.m, host.value)
  }

  // ---- What the events say about each file ----

  /** The rows that were inserted. */
  function Inserted(events: seq<Event>): set<string>
  {
    set e | e in events && e.Insert? :: e.m.name
  }

  /** A regeneration on `m` read the table at the moment when it held exactly `rows`. */
  ghost predicate ReadAt(events: seq<Event>, m: Member, rows: set<string>)
  {
    exists k :: 0 <= k < |events| && events[k] == Read(m) && Inserted(events[..k]) == rows
  }

  /** The reading that was written last. */
  function LastWritten(events: seq<Event>, m: Member): Option<set<string>>
  {
    if events == [] then None
    else
      var last := events[|events| - 1];
      if last.Write? && last.m == m then Some(last.rows) else LastWritten(events[..|events| - 1], m)
  }

  /** The reading that was written last before the database of `m` started. */
  function StartedFrom(events: seq<Event>, m: Member): Option<set<string>>
  {
    if events == [] then None
    else
      var before := events[..|events| - 1];
      if events[|events| - 1] == StartDatabase(m) then LastWritten(before, m) else StartedFrom(before, m)
  }

  lemma {:induction false} RunInserts(members: seq<Member>, events: seq<Event>)
    requires Run(members, events).Some?
    ensures Run(members, events).value.central == Inserted(events)
  {
    if events != [] {
      var last := |events| - 1;
      RunInserts(members, events[..last]);
      assert events == events[..last] + [events[last]];
    }
  }

  lemma {:induction false} RunReads(members: seq<Member>, events: seq<Event>, m: Member, rows: set<string>)
    requires Run(members, events).Some?
    ensures Reading(m, rows) in Run(members, events).value.readings <==> ReadAt(events, m, rows)
  {
    if events != [] {
      var last := |events| - 1;
      var before := events[..last];
      RunReads(members, before, m, rows);
      RunInserts(members, before);
      if ReadAt(events, m, rows) {
        var k :| 0 <= k < |events| && events[k] == Read(m) && Inserted(events[..k]) == rows;
        assert k < last ==> before[k] == events[k] && before[..k] == events[..k];
      }
      if ReadAt(before, m, rows) {
        var k :| 0 <= k < last && before[k] == Read(m) && Inserted(before[..k]) == rows;
        assert events[k] == Read(m) && events[..k] == before[..k];
      }
    }
  }

  lemma {:induction false} RunWrites(members: seq<Member>, events: seq<Event>, m: Member)
    requires Run(members, events).Some?
    ensures var s := Run(members, events).value;
            LastWritten(events, m) == if m in s.env then Some(s.env[m]) else None
  {
    if events != [] {
      RunWrites(members, events[..|events| - 1], m);
    }
  }

  /** Every started database follows from one reading: the one that was written last before it
      started, which was taken from the table as it was at that moment. */
  lemma {:induction false} RunStarts(members: seq<Member>, events: seq<Event>, m: Member)
    requires Run(members, events).Some?
    ensures m in Run(members, events).value.db <==> StartedFrom(events, m).Some?
    ensures m in Run(members, events).value.db ==>
              && OriginOf(members, m, StartedFrom(events, m).value) == Some(Run(members, events).value.db[m])
              && ReadAt(events, m, StartedFrom(events, m).value)
  {
    if events != [] {
      var last := |events| - 1;
      var before := events[..last];
      RunStarts(members, before, m);
      RunWrites(members, before, m);
      var s := Run(members, before).value;
      RunKeepsInv(members, before);
      if events[last] == StartDatabase(m) {
        RunReads(members, before, m, s.env[m]);
        ReadAtGrows(before, events[last], m, s.env[m]);
      } else if m in s.db {
        ReadAtGrows(before, events[last], m, StartedFrom(before, m).value);
      }
      assert before + [events[last]] == events;
    }
  }

  lemma ReadAtGrows(before: seq<Event>, e: Event, m: Member, rows: set<string>)
    requires ReadAt(before, m, rows)
    ensures ReadAt(before + [e], m, rows)
  {
    var k :| 0 <= k < |before| && before[k] == Read(m) && Inserted(before[..k]) == rows;
    assert (before + [e])[k] == Read(m) && (before + [e])[..k] == before[..k];
  }

  // ---- Who creates, who joins, and who is lost ----

  /** The bracketed address of another member whose row was found. */
  ghost predicate JoinsCentral(members: seq<Member>, central: set<string>, m: Member, host: string)
  {
    exists o :: o in members && o != m && o.name in central && o.ip.Some? && host == Bracket(o.ip.value)
  }

  lemma OriginOfReading(members: seq<Member>, m: Member, rows: set<string>)
    requires DistinctMembers(members) && DistinctAddresses(members) && m in members && rows <= Names(members)
    ensures OriginOf(members, m, rows).Some?
    ensures var origin := OriginOf(members, m, rows).value;
            && (origin.Created? <==> rows == {m.name})
            && (origin == JoinedVia("") <==> rows == {})
            && (rows != {} && rows != {m.name} ==>
                  origin.JoinedVia? && JoinsCentral(members, rows, m, origin.host))
  {
    SelfOnlyWhenAlone(members, rows, m);
    InitialHostOfTable(members, rows, m);
    var host := InitialHost(m.ip.value, RemoteAddresses(members, rows).value);
    BracketInjective(host, m.ip.value);
    if rows != {} && rows != {m.name} {
      var o :| o in members && o != m && o.name in rows && o.ip == Some(host);
      assert JoinsCentral(members, rows, m, Bracket(host));
    }
  }

  /** Exactly how each database of a run comes to be. With the reading that was written last before it
      started: it creates a cluster if and only if its own row was the only one in it, it has no host
      to join if and only if no row was, and in every other case it joins another central member. */
  lemma OriginIff(members: seq<Member>, events: seq<Event>, m: Member)
    requires DistinctMembers(members) && DistinctAddresses(members)
    requires Run(members, events).Some?
    ensures var s, from := Run(members, events).value, StartedFrom(events, m);
            && (m in s.db && s.db[m].Created? <==> from == Some({m.name}))
            && (m in s.db && s.db[m] == JoinedVia("") <==> from == Some({}))
            && (from.Some? && from != Some({}) && from != Some({m.name}) ==>
                  m in s.db && s.db[m].JoinedVia? && JoinsCentral(members, from.value, m, s.db[m].host))
            && (from.Some? ==> ReadAt(events, m, from.value) && from.value <= s.central)
  {
    RunStarts(members, events, m);
    RunKeepsInv(members, events);
    if m in Run(members, events).value.db {
      var rows := StartedFrom(events, m).value;
      RunReads(members, events, m, rows);
      OriginOfReading(members, m, rows);
    }
  }

  /** A reading of the empty table: a regeneration that comes before every insert. */
  ghost predicate ReadsEarly(events: seq<Event>, m: Member)
  {
    exists k :: 0 <= k < |events| && events[k] == Read(m) && forall j | 0 <= j < k :: !events[j].Insert?
  }

  lemma EmptyReadingIff(events: seq<Event>, m: Member)
    ensures ReadAt(events, m, {}) <==> ReadsEarly(events, m)
  {
    forall k | 0 <= k < |events|
      ensures Inserted(events[..k]) == {} <==> forall j | 0 <= j < k :: !events[j].Insert?
    {
      forall j | 0 <= j < k && events[j].Insert? ensures events[j].m.name in Inserted(events[..k]) {
        assert events[..k][j] == events[j] && events[j] in events[..k];
      }
    }
    if ReadsEarly(events, m) {
      var k :| 0 <= k < |events| && events[k] == Read(m) && forall j | 0 <= j < k :: !events[j].Insert?;
      assert Inserted(events[..k]) == {};
    }
    if ReadAt(events, m, {}) {
      var k :| 0 <= k < |events| && events[k] == Read(m) && Inserted(events[..k]) == {};
      assert forall j | 0 <= j < k :: !events[j].Insert?;
    }
  }

  /** So a member that never reads the table before the first insert creates the cluster or is sent to
      another central member. */
  lemma JoinersJoinCentral(members: seq<Member>, events: seq<Event>, m: Member)
    requires DistinctMembers(members) && DistinctAddresses(members)
    requires Run(members, events).Some? && !ReadsEarly(events, m)
    ensures var s := Run(members, events).value;
            m in s.db && s.db[m].JoinedVia? ==> JoinsCentral(members, s.central, m, s.db[m].host)
  {
    var s := Run(members, events).value;
    OriginIff(members, events, m);
    EmptyReadingIff(events, m);
    if m in s.db && s.db[m].JoinedVia? {
      RunStarts(members, events, m);
      JoinsMore(members, StartedFrom(events, m).value, s.central, m, s.db[m].host);
    }
  }

  lemma JoinsMore(members: seq<Member>, rows: set<string>, central: set<string>, m: Member, host: string)
    requires JoinsCentral(members, rows, m, host) && rows <= central
    ensures JoinsCentral(members, central, m, host)
  {
  }

  /** A cluster comes into being exactly when some member started from a reading that was taken while
      its row was the only one. */
  lemma SomebodyCreatesIff(members: seq<Member>, events: seq<Event>)
    requires DistinctMembers(members) && DistinctAddresses(members)
    requires Run(members, events).Some?
    ensures var s := Run(members, events).value;
            (exists m :: m in s.db && s.db[m].Created?) <==> (exists m: Member :: StartedFrom(events, m) == Some({m.name}))
  {
    var s := Run(members, events).value;
    if m :| m in s.db && s.db[m].Created? {
      OriginIff(members, events, m);
    }
    if m: Member :| StartedFrom(events, m) == Some({m.name}) {
      OriginIff(members, events, m);
    }
  }

  // ---- Two schedules that go wrong ----

  lemma Extend(members: seq<Member>, events: seq<Event>, s: State, e: Event, t: State)
    requires Run(members, events) == Some(s) && Step(members, s, e) == Some(t)
    ensures Run(members, events + [e]) == Some(t)
  {
    assert (events + [e])[..|events|] == events;
  }

  /** Both rows are inserted. */
  lemma BothInserted(a: Member, b: Member, events: seq<Event>, s: State)
    requires DistinctMembers([a, b]) && Run([a, b], events) == Some(s) && s.central == {}
    ensures Run([a, b], events + [Insert(a)] + [Insert(b)]) == Some(s.(central := {a.name, b.name}))
  {
    assert a in [a, b] && b in [a, b] && [a, b][0] != [a, b][1];
    assert {} + {a.name} == {a.name} && {a.name} + {b.name} == {a.name, b.name};
    Extend([a, b], events, s, Insert(a), s.(central := {a.name}));
    Extend([a, b], events + [Insert(a)], s.(central := {a.name}), Insert(b), s.(central := {a.name, b.name}));
  }

  lemma OneStart(members: seq<Member>, events: seq<Event>, s: State, m: Member)
    requires DistinctMembers(members) && DistinctAddresses(members) && m in members
    requires Run(members, events) == Some(s) && m in s.env && m !in s.db && s.env[m] <= Names(members)
    ensures OriginOf(members, m, s.env[m]).Some?
    ensures Run(members, events + [StartDatabase(m)]) ==
            Some(s.(db := s.db[m := OriginOf(members, m, s.env[m]).value]))
  {
    OriginOfReading(members, m, s.env[m]);
    Extend(members, events, s, StartDatabase(m), s.(db := s.db[m := OriginOf(members, m, s.env[m]).value]));
  }

  lemma OneRead(members: seq<Member>, events: seq<Event>, s: State, m: Member)
    requires DistinctMembers(members) && DistinctAddresses(members) && m in members
    requires Run(members, events) == Some(s) && s.central <= Names(members)
    ensures Run(members, events + [Read(m)]) == Some(s.(readings := s.readings + {Reading(m, s.central)}))
  {
    SelfOnlyWhenAlone(members, s.central, m);
    Extend(members, events, s, Read(m), s.(readings := s.readings + {Reading(m, s.central)}));
  }

  lemma OneWrite(members: seq<Member>, events: seq<Event>, s: State, m: Member, rows: set<string>)
    requires m in members && Run(members, events) == Some(s) && Reading(m, rows) in s.readings
    ensures Run(members, events + [Write(m, rows)]) == Some(s.(env := s.env[m := rows]))
  {
    Extend(members, events, s, Write(m, rows), s.(env := s.env[m := rows]));
  }

  /** A reading of the empty table that is written late leaves a started database without any host,
      although its own row and another one were inserted, read and written before. */
  lemma StaleReadingLosesTheHost(a: Member, b: Member)
    requires DistinctMembers([a, b]) && DistinctAddresses([a, b])
    ensures var both := {a.name, b.name};
            var events := [Read(b)] + [Insert(a)] + [Insert(b)] + [Read(b)] + [Write(b, both)] + [Write(b, {})]
                          + [StartDatabase(b)];
            var end := Run([a, b], events);
            end.Some? && b in end.value.db && end.value.db[b] == JoinedVia("")
  {
    var members, both := [a, b], {a.name, b.name};
    assert a == members[0] && b == members[1];
    assert a.name in Names(members) && b.name in Names(members);
    assert Run(members, []) == Some(EMPTY) && [] + [Read(b)] == [Read(b)];
    OneRead(members, [], EMPTY, b);
    var s1 := EMPTY.(readings := EMPTY.readings + {Reading(b, {})});
    BothInserted(a, b, [Read(b)], s1);
    var e3, s3 := [Read(b)] + [Insert(a)] + [Insert(b)], s1.(central := both);
    OneRead(members, e3, s3, b);
    var e4, s4 := e3 + [Read(b)], s3.(readings := s3.readings + {Reading(b, both)});
    OneWrite(members, e4, s4, b, both);
    var e5, s5 := e4 + [Write(b, both)], s4.(env := s4.env[b := both]);
    OneWrite(members, e5, s5, b, {});
    OneStart(members, e5 + [Write(b, {})], s5.(env := s5.env[b := {}]), b);
    OriginOfReading(members, b, {});
  }

  lemma BothWritten(a: Member, b: Member, both: set<string>)
    requires DistinctMembers([a, b]) && DistinctAddresses([a, b]) && both == {a.name, b.name}
    ensures Run([a, b], [] + [Insert(a)] + [Insert(b)] + [Read(a)] + [Read(b)] + [Write(a, both)] + [Write(b, both)]) ==
            Some(State(both, {Reading(a, both), Reading(b, both)}, map[a := both, b := both], map[]))
  {
    var members := [a, b];
    assert a == members[0] && b == members[1];
    assert a.name in Names(members) && b.name in Names(members);
    assert Run(members, []) == Some(EMPTY);
    BothInserted(a, b, [], EMPTY);
    var e2, s2 := [] + [Insert(a)] + [Insert(b)], EMPTY.(central := both);
    OneRead(members, e2, s2, a);
    var e3, s3 := e2 + [Read(a)], s2.(readings := {Reading(a, both)});
    assert s2.readings + {Reading(a, both)} == s3.readings;
    OneRead(members, e3, s3, b);
    var e4, s4 := e3 + [Read(b)], s3.(readings := {Reading(a, both), Reading(b, both)});
    assert s3.readings + {Reading(b, both)} == s4.readings;
    OneWrite(members, e4, s4, a, both);
    OneWrite(members, e4 + [Write(a, both)], s4.(env := map[a := both]), b, both);
  }

  /** Two members whose rows are both in the table before either reads it join each other, and nobody
      creates a cluster. */
  lemma NobodyCreates(a: Member, b: Member)
    requires DistinctMembers([a, b]) && DistinctAddresses([a, b])
    ensures var both := {a.name, b.name};
            var events := [] + [Insert(a)] + [Insert(b)] + [Read(a)] + [Read(b)] + [Write(a, both)] + [Write(b, both)]
                          + [StartDatabase(a)] + [StartDatabase(b)];
            var end := Run([a, b], events);
            && end.Some? && end.value.db.Keys == {a, b}
            && end.value.db[a].JoinedVia? && end.value.db[b].JoinedVia?
  {
    var members, both := [a, b], {a.name, b.name};
    assert a == members[0] && b == members[1];
    assert a.name in Names(members) && b.name in Names(members);
    BothWritten(a, b, both);
    var events := [] + [Insert(a)] + [Insert(b)] + [Read(a)] + [Read(b)] + [Write(a, both)] + [Write(b, both)];
    var s := State(both, {Reading(a, both), Reading(b, both)}, map[a := both, b := both], map[]);
    OneStart(members, events, s, a);
    var t := s.(db := map[a := OriginOf(members, a, both).value]);
    OneStart(members, events + [StartDatabase(a)], t, b);
    OriginOfReading(members, a, both);
    OriginOfReading(members, b, both);
    assert both != {a.name} && both != {b.name};
  }
}
