/** Database generations over sequential runs of central enables and disables. A generation is one
    freshly created database cluster; a member that joins takes over the generation of the member
    its environment file names, and a database that is already on disk keeps its own. */
module Generations {
  import opened Prelude
  import opened Members
  import opened Environment
  import opened CentralInit

  datatype Databases = Databases(central: set<string>, disk: map<Member, nat>, next: nat)

  const NONE_YET: Databases := Databases({}, map[], 0)

  datatype Op =
    | Enable(m: Member)
    | EnableFails(m: Member, started: bool)      // activation fails, the row is rolled back
    | Disable(m: Member, movedAside: bool)       // moving the database file away may fail

  /** The member that an environment file names. */
  function AtHost(members: seq<Member>, host: string): Option<Member>
  {
    if members == [] then None
    else if members[0].ip.Some? && Bracket(members[0].ip.value) == host then Some(members[0])
    else AtHost(members[1..], host)
  }

  /** Starting the database of `m`; None when it was told to join a member without a database. */
  function StartDatabase(members: seq<Member>, g: Databases, m: Member): Option<Databases>
  {
    var host := ComputedHost(members, g.central, m);
    if host == None || m.ip == None then None
    else if m in g.disk then Some(g)
    else if CreatesCluster(Env(host.value, Bracket(m.ip.value))) then
      Some(g.(disk := g.disk[m := g.next], next := g.next + 1))
    else
      var peer := AtHost(members, host.value);
      if peer == None || peer.value !in g.disk then None
      else Some(g.(disk := g.disk[m := g.disk[peer.value]]))
  }

  function Apply(members: seq<Member>, g: Databases, op: Op): Option<Databases>
  {
    if op.m !in members then None
    else
      match op
      case Enable(m) =>
        if m.name in g.central then None
        else StartDatabase(members, g.(central := g.central + {m.name}), m)
      case EnableFails(m, started) =>
        if m.name in g.central then None
        else if !started then Some(g)
        else
          (match StartDatabase(members, g.(central := g.central + {m.name}), m)
           case None => None
           case Some(h) => Some(h.(central := g.central)))
      case Disable(m, movedAside) =>
        if m.name !in g.central then None
        else Some(g.(central := g.central - {m.name}, disk := if movedAside then g.disk - {m} else g.disk))
  }

  function Run(members: seq<Member>, g: Databases, ops: seq<Op>): Option<Databases>
    decreases |ops|
  {
    if ops == [] then Some(g)
    else
      var next := Apply(members, g, ops[0]);
      if next == None then None else Run(members, next.value, ops[1..])
  }

  ghost predicate IsCentral(members: seq<Member>, g: Databases, m: Member)
  {
    m in members && m.name in g.central
  }

  /** All current central members hold the same generation. */
  ghost predicate OneGeneration(members: seq<Member>, g: Databases)
  {
    && (forall a | IsCentral(members, g, a) :: a in g.disk)
    && (forall a, b | IsCentral(members, g, a) && IsCentral(members, g, b) :: g.disk[a] == g.disk[b])
  }

  /** Nobody else has a database left on disk. */
  ghost predicate NoLeftovers(members: seq<Member>, g: Databases)
  {
    forall m | m in g.disk :: IsCentral(members, g, m)
  }

  ghost predicate Sound(members: seq<Member>, g: Databases)
  {
    && DistinctMembers(members) && DistinctAddresses(members)
    && g.central <= Names(members)
  }

  lemma {:induction false} AtHostFinds(members: seq<Member>, o: Member)
    requires DistinctAddresses(members) && o in members
    ensures AtHost(members, Bracket(o.ip.value)) == Some(o)
  {
    BracketInjective(members[0].ip.value, o.ip.value);
    if members[0] != o {
      assert members == [members[0]] + members[1..];
      assert members[0].ip != o.ip;
      AtHostFinds(members[1..], o);
    }
  }

  /** What an enable does to the disks: the member keeps an old database; otherwise it creates a new
      generation exactly when no member ran central, and takes over the common one when some did. */
  lemma EnableOutcome(members: seq<Member>, g: Databases, m: Member)
    requires Sound(members, g) && OneGeneration(members, g)
    requires m in members && m.name !in g.central
    ensures var h := Apply(members, g, Enable(m));
            && h.Some? && h.value.central == g.central + {m.name}
            && m in h.value.disk && h.value.disk - {m} == g.disk - {m}
            && (m in g.disk ==> h.value.disk[m] == g.disk[m] && h.value.next == g.next)
            && (m !in g.disk && g.central == {} ==>
                  h.value.disk[m] == g.next && h.value.next == g.next + 1)
            && (m !in g.disk && g.central != {} ==>
                  h.value.next == g.next
                  && exists o :: IsCentral(members, g, o) && h.value.disk[m] == g.disk[o])
  {
    var after := g.(central := g.central + {m.name});
    assert m.name in Names(members);
    SelfOnlyWhenAlone(members, after.central, m);
    if m !in g.disk {
      if g.central != {} {
        var o := JoinTarget(members, g, m);
        assert StartDatabase(members, after, m) == Some(after.(disk := after.disk[m := after.disk[o]]));
        OneMoreDisk(g.disk, m, g.disk[o]);
      } else {
        assert after.central == {m.name};
        assert StartDatabase(members, after, m) ==
               Some(after.(disk := after.disk[m := after.next], next := after.next + 1));
        OneMoreDisk(g.disk, m, g.next);
      }
    }
  }

  lemma OneMoreDisk(disk: map<Member, nat>, m: Member, generation: nat)
    requires m !in disk
    ensures disk[m := generation] - {m} == disk - {m}
  {
  }

  /** With central members present, a newcomer is sent to one of them, and it has a database. */
  lemma JoinTarget(members: seq<Member>, g: Databases, m: Member) returns (o: Member)
    requires Sound(members, g) && OneGeneration(members, g)
    requires m in members && m.name !in g.central && g.central != {}
    ensures IsCentral(members, g, o) && o in g.disk
    ensures var host := ComputedHost(members, g.central + {m.name}, m);
            && host.Some? && !NamesItself(m, host.value) && AtHost(members, host.value) == Some(o)
  {
    var central := g.central + {m.name};
    assert m.name in Names(members);
    InitialHostOfTable(members, central, m);
    SelfOnlyWhenAlone(members, central, m);
    var name :| name in g.central;
    assert name in central && central != {m.name};
    var host := InitialHost(m.ip.value, RemoteAddresses(members, central).value);
    o :| o in members && o != m && o.name in central && o.ip == Some(host);
    assert o.name != m.name;
    assert IsCentral(members, g, o);
    AtHostFinds(members, o);
  }

  /** An enable keeps all central members on one generation exactly when the member brings no
      database along, or nobody else runs central, or it brings the common generation. */
  lemma EnableKeepsOneGenerationIff(members: seq<Member>, g: Databases, m: Member)
    requires Sound(members, g) && OneGeneration(members, g)
    requires m in members && m.name !in g.central
    ensures Apply(members, g, Enable(m)).Some?
    ensures OneGeneration(members, Apply(members, g, Enable(m)).value)
       <==> (m !in g.disk || forall o | IsCentral(members, g, o) :: g.disk[o] == g.disk[m])
  {
    EnableOutcome(members, g, m);
    var h := Apply(members, g, Enable(m)).value;
    forall o | IsCentral(members, g, o) ensures IsCentral(members, h, o) && h.disk[o] == g.disk[o] {
      assert o != m && o in g.disk - {m};
      assert o in h.disk - {m} && (h.disk - {m})[o] == (g.disk - {m})[o];
    }
    assert IsCentral(members, h, m);
    forall o | IsCentral(members, h, o) ensures o == m || IsCentral(members, g, o) {
      assert o.name == m.name ==> o == m;
    }
  }

  lemma DisableKeeps(members: seq<Member>, g: Databases, op: Op)
    requires Sound(members, g) && OneGeneration(members, g) && NoLeftovers(members, g)
    requires op.Disable? && op.movedAside && Apply(members, g, op).Some?
    ensures var h := Apply(members, g, op).value;
            Sound(members, h) && OneGeneration(members, h) && NoLeftovers(members, h) && h.next == g.next
  {
    var h := Apply(members, g, op).value;
    forall a | IsCentral(members, h, a) ensures IsCentral(members, g, a) && a in h.disk && h.disk[a] == g.disk[a] {
      assert a != op.m;
    }
    forall m | m in h.disk ensures IsCentral(members, h, m) {
      assert IsCentral(members, g, m) && m != op.m;
      assert m.name != op.m.name;
    }
  }

  /** A disable ends the central service of one member, and leaves its database on disk exactly when the
      file could not be moved away. */
  lemma DisableOutcome(members: seq<Member>, g: Databases, m: Member, movedAside: bool)
    requires m in members && m.name in g.central
    ensures var h := Apply(members, g, Disable(m, movedAside));
            && h.Some? && h.value.next == g.next
            && (forall n :: n in h.value.central <==> n in g.central && n != m.name)
            && (forall o :: o in h.value.disk <==> o in g.disk && !(o == m && movedAside))
            && (forall o | o in h.value.disk :: h.value.disk[o] == g.disk[o])
  {
  }

  /** A failed enable leaves the central set alone, and the disks as a successful one when the database had
      started, or as they were. */
  lemma FailedEnableOutcome(members: seq<Member>, g: Databases, m: Member, started: bool)
    requires Sound(members, g) && OneGeneration(members, g)
    requires m in members && m.name !in g.central
    ensures var h := Apply(members, g, EnableFails(m, started));
            && h.Some? && h.value.central == g.central
            && (!started ==> h.value == g)
            && (started ==>
                  var enabled := Apply(members, g, Enable(m));
                  enabled.Some? && h.value.disk == enabled.value.disk && h.value.next == enabled.value.next)
  {
    EnableOutcome(members, g, m);
  }

  predicate Successful(ops: seq<Op>)
  {
    forall op | op in ops :: op.Enable? || (op.Disable? && op.movedAside)
  }

  /** Every sequential run of successful enables and disables keeps all central members on one
      generation, and each new generation belongs to an enable that found the central set empty. */
  lemma {:induction false} OneGenerationOverRuns(members: seq<Member>, g: Databases, ops: seq<Op>)
    requires Sound(members, g) && OneGeneration(members, g) && NoLeftovers(members, g)
    requires Successful(ops) && Run(members, g, ops).Some?
    ensures var h := Run(members, g, ops).value;
            && Sound(members, h) && OneGeneration(members, h) && NoLeftovers(members, h)
            && h.next == g.next + EnablesFromEmpty(members, g, ops)
    decreases |ops|
  {
    if ops != [] {
      var op := ops[0];
      assert op in ops;
      var next := Apply(members, g, op).value;
      if op.Enable? {
        EnableOutcome(members, g, op.m);
        EnableKeepsOneGenerationIff(members, g, op.m);
        assert op.m.name in Names(members);
        assert op.m !in g.disk;
        forall m | m in next.disk ensures IsCentral(members, next, m) {
          if m != op.m {
            assert m in next.disk - {op.m};
            assert m in g.disk - {op.m};
            assert IsCentral(members, g, m);
          }
        }
      } else {
        DisableKeeps(members, g, op);
      }
      assert forall o | o in ops[1..] :: o in ops;
      OneGenerationOverRuns(members, next, ops[1..]);
    }
  }

  /** How many enables of a run found no central member. */
  function EnablesFromEmpty(members: seq<Member>, g: Databases, ops: seq<Op>): nat
    decreases |ops|
  {
    if ops == [] || Apply(members, g, ops[0]) == None then 0
    else
      (if ops[0].Enable? && g.central == {} then 1 else 0)
      + EnablesFromEmpty(members, Apply(members, g, ops[0]).value, ops[1..])
  }

  /** A failed enable whose database had started leaves that database on disk. After another member
      created a cluster, enabling the first one again mixes two generations. */
  lemma RolledBackEnableMixesGenerations(a: Member, b: Member)
    requires DistinctMembers([a, b]) && DistinctAddresses([a, b])
    ensures var members := [a, b];
            var end := Run(members, NONE_YET, [EnableFails(a, true), Enable(b), Enable(a)]);
            && end.Some? && IsCentral(members, end.value, a) && IsCentral(members, end.value, b)
            && !OneGeneration(members, end.value)
  {
    var members := [a, b];
    assert a in members && b in members && a == members[0] && b == members[1];
    EnableOutcome(members, NONE_YET, a);
    var h := Apply(members, NONE_YET, Enable(a)).value;
    var g1 := h.(central := {});
    assert h.disk.Keys == {a} by {
      assert h.disk - {a} == map[];
      assert forall x | x in h.disk && x != a :: x in h.disk - {a};
    }
    assert Apply(members, NONE_YET, EnableFails(a, true)) == Some(g1);
    EnableOutcome(members, g1, b);
    var g2 := Apply(members, g1, Enable(b)).value;
    assert a in g1.disk - {b} && a in g2.disk - {b};
    assert g2.disk[a] == g1.disk[a] == 0 && g2.disk[b] == 1;
    assert IsCentral(members, g2, b) && g2.central == {b.name};
    assert OneGeneration(members, g2) by {
      assert forall x | IsCentral(members, g2, x) :: x == b;
    }
    assert b.name in Names(members) && a.name !in g2.central;
    EnableKeepsOneGenerationIff(members, g2, a);
    EnableOutcome(members, g2, a);
    var g3 := Apply(members, g2, Enable(a)).value;
    var ops := [EnableFails(a, true), Enable(b), Enable(a)];
    assert ops[1..] == [Enable(b), Enable(a)] && ops[1..][1..] == [Enable(a)] && [Enable(a)][1..] == [];
    assert Run(members, g2, [Enable(a)]) == Some(g3);
    assert Run(members, g1, ops[1..]) == Some(g3);
  }
}
