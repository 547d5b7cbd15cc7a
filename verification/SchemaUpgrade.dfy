/** The coordinated schema upgrade as an interleaved system. Every member that runs central has its
    own loop; reading the active version, reading the packaged one, the leader check, each poll of
    another member and the conversion are separate steps, and between any two of them other members
    may act, a package refresh may raise a member's packaged version and restart its loop, and the
    set of central members may change. */
module SchemaUpgrade {
  import opened Prelude
  import opened Members
  import opened UpgradeLeader

  /** Schema versions are ordered; the loop itself only ever tests them for equality. */
  type Version = int

  /** Where the loop of one member stands. */
  datatype Pc =
    | Idle
    | ReadActive
    | ReadPackaged(running: Version)
    | Elect(target: Version)
    | Poll(target: Version, answers: map<Member, Version>)
    | Convert(target: Version)
    | Done(ok: bool)
    | Halted            // the leader check found no central member at all

  datatype Cluster = Cluster(
    active: Version, packaged: map<Member, Version>, central: seq<Member>, pc: map<Member, Pc>)

  datatype Event =
    | Start(m: Member)
    | ActiveRead(m: Member)
    | PackagedRead(m: Member)
    | LeaderChecked(m: Member)
    | Polled(m: Member, peer: Member)
    | PollsCompared(m: Member)
    | ConvertDone(m: Member, reported: bool)   // took effect; the reply may still be lost
    | ConvertFailed(m: Member)
    | Failed(m: Member)                        // any other command of the loop returns an error
    | Refresh(m: Member, packaged: Version)
    | CentralChanged(rows: seq<Member>)

  predicate WellFormed(c: Cluster) { c.pc.Keys == c.packaged.Keys }

  /** One step, or None when the event cannot happen in this state. */
  function Step(c: Cluster, e: Event): Option<Cluster>
    requires WellFormed(c)
  {
    if e.CentralChanged? then Some(c.(central := e.rows))
    else if e.m !in c.pc then None
    else
      match e
      case Start(m) =>
        if c.pc[m].Idle? && m in c.central then Some(Goto(c, m, ReadActive)) else None
      case ActiveRead(m) =>
        if c.pc[m].ReadActive? then Some(Goto(c, m, ReadPackaged(c.active))) else None
      case PackagedRead(m) =>
        if !c.pc[m].ReadPackaged? then None
        else if c.pc[m].running == c.packaged[m] then Some(Goto(c, m, Done(true)))
        else Some(Goto(c, m, Elect(c.packaged[m])))
      case LeaderChecked(m) =>
        if !c.pc[m].Elect? then None
        else
          (match CheckLeader(m.name, c.central)
           case Leader => Some(Goto(c, m, Poll(c.pc[m].target, map[])))
           case Follower => Some(Goto(c, m, ReadActive))
           case Crash => Some(Goto(c, m, Halted)))
      case Polled(m, peer) =>
        if c.pc[m].Poll? && peer in Peers(c, m) && peer !in c.pc[m].answers then
          Some(Goto(c, m, Poll(c.pc[m].target, c.pc[m].answers[peer := c.packaged[peer]])))
        else None
      case PollsCompared(m) =>
        if c.pc[m].Poll? && c.pc[m].answers.Keys == Peers(c, m) then
          if forall p | p in c.pc[m].answers :: c.pc[m].answers[p] == c.pc[m].target then
            Some(Goto(c, m, Convert(c.pc[m].target)))
          else
            Some(Goto(c, m, ReadActive))
        else None
      case ConvertDone(m, reported) =>
        // The conversion is given the schema file, so it installs what is packaged now.
        if c.pc[m].Convert? then Some(Goto(c, m, Done(reported)).(active := c.packaged[m])) else None
      case ConvertFailed(m) =>
        if c.pc[m].Convert? then Some(Goto(c, m, Done(false))) else None
      case Failed(m) =>
        if c.pc[m].ReadActive? || c.pc[m].ReadPackaged? || c.pc[m].Elect? || c.pc[m].Poll? then
          Some(Goto(c, m, ReadActive))
        else None
      case Refresh(m, v) =>
        if v < c.packaged[m] then None
        else
          Some(Goto(c, m, if m in c.central then ReadActive else Idle)
               .(packaged := c.packaged[m := v]))
  }

  function Goto(c: Cluster, m: Member, pc: Pc): Cluster
  {
    c.(pc := c.pc[m := pc])
  }

  function Peers(c: Cluster, m: Member): set<Member> { c.packaged.Keys - {m} }

  /** A whole run. */
  function Run(c: Cluster, events: seq<Event>): (r: Option<Cluster>)
    requires WellFormed(c)
    ensures r.Some? ==> WellFormed(r.value) && r.value.packaged.Keys == c.packaged.Keys
    decreases |events|
  {
    if events == [] then Some(c)
    else
      var next := Step(c, events[0]);
      if next == None then None else Run(next.value, events[1..])
  }

  // ---- Safety ----

  ghost predicate ActiveIsSupported(c: Cluster)
  {
    forall m | m in c.packaged :: c.active <= c.packaged[m]
  }

  /** What the loop of `m` remembers is still true enough. */
  ghost predicate Remembers(c: Cluster, m: Member)
    requires m in c.pc && m in c.packaged
  {
    match c.pc[m]
    case ReadPackaged(running) => running <= c.active
    case Elect(target) => target == c.packaged[m]
    case Poll(target, answers) =>
      && target == c.packaged[m]
      && answers.Keys <= Peers(c, m)
      && forall p | p in answers :: answers[p] <= c.packaged[p]
    case Convert(target) =>
      && target == c.packaged[m]
      && forall p | p in c.packaged :: target <= c.packaged[p]
    case _ => true
  }

  ghost predicate Inv(c: Cluster)
  {
    && WellFormed(c)
    && ActiveIsSupported(c)
    && forall m | m in c.pc :: Remembers(c, m)
  }

  /** Before anything was upgraded: no loop is under way and every package supports the schema. */
  ghost predicate Init(c: Cluster)
  {
    && WellFormed(c)
    && ActiveIsSupported(c)
    && forall m | m in c.pc :: c.pc[m].Idle? || c.pc[m].ReadActive?
  }

  /** A step of one member moves only that member; a refresh raises its package, and only a conversion
      changes the active schema. */
  lemma StepEffect(c: Cluster, e: Event)
    requires WellFormed(c) && Step(c, e).Some? && !e.CentralChanged?
    ensures var d := Step(c, e).value;
            && e.m in c.pc && WellFormed(d) && d.central == c.central && d.pc == c.pc[e.m := d.pc[e.m]]
            && d.active == (if e.ConvertDone? then c.packaged[e.m] else c.active)
            && d.packaged == (if e.Refresh? then c.packaged[e.m := e.packaged] else c.packaged)
            && (e.Refresh? ==> c.packaged[e.m] <= e.packaged)
            && (e.ConvertDone? ==> c.pc[e.m].Convert?)
  {
  }

  lemma StepKeepsInv(c: Cluster, e: Event)
    requires Inv(c) && Step(c, e).Some?
    ensures Inv(Step(c, e).value)
    ensures c.active <= Step(c, e).value.active
  {
    var d := Step(c, e).value;
    if e.CentralChanged? {
      forall m | m in d.pc ensures Remembers(d, m) {
        OtherRemembers(c, d, m);
      }
    } else {
      StepEffect(c, e);
      assert Remembers(c, e.m);
      OwnRemembers(c, e);
      forall m | m in d.pc ensures Remembers(d, m) {
        if m != e.m {
          OtherRemembers(c, d, m);
        }
      }
    }
  }

  lemma OtherRemembers(c: Cluster, d: Cluster, m: Member)
    requires WellFormed(c) && WellFormed(d) && m in c.pc && Remembers(c, m)
    requires d.packaged.Keys == c.packaged.Keys && c.active <= d.active
    requires forall p | p in c.packaged :: c.packaged[p] <= d.packaged[p]
    requires d.pc[m] == c.pc[m] && d.packaged[m] == c.packaged[m]
    ensures Remembers(d, m)
  {
  }

  lemma OwnRemembers(c: Cluster, e: Event)
    requires Inv(c) && Step(c, e).Some? && !e.CentralChanged? && e.m in c.pc && Remembers(c, e.m)
    requires Step(c, e).value.packaged.Keys == c.packaged.Keys
    ensures e.m in Step(c, e).value.pc && Remembers(Step(c, e).value, e.m)
  {
    var d := Step(c, e).value;
    if e.PollsCompared? && d.pc[e.m].Convert? {
      forall p | p in d.packaged ensures d.pc[e.m].target <= d.packaged[p] {
        assert p == e.m || p in Peers(c, e.m);
      }
    }
  }

  /** In every reachable state every member supports the active schema, and the active schema never
      moves down, however the steps of all members interleave. */
  lemma {:induction false} SchemaSafety(c: Cluster, events: seq<Event>)
    requires Inv(c) && Run(c, events).Some?
    ensures Inv(Run(c, events).value)
    ensures c.active <= Run(c, events).value.active
    decreases |events|
  {
    if events != [] {
      StepKeepsInv(c, events[0]);
      SchemaSafety(Step(c, events[0]).value, events[1..]);
    }
  }

  lemma ReachableSchemaIsSupported(c: Cluster, events: seq<Event>)
    requires Init(c) && Run(c, events).Some?
    ensures ActiveIsSupported(Run(c, events).value)
    ensures forall k | 0 <= k <= |events| ::
              Run(c, events[..k]).Some? && Run(c, events[..k]).value.active <= Run(c, events).value.active
  {
    SchemaSafety(c, events);
    forall k | 0 <= k <= |events|
      ensures Run(c, events[..k]).Some? && Run(c, events[..k]).value.active <= Run(c, events).value.active
    {
      assert events[..k] + events[k..] == events;
      RunSplits(c, events[..k], events[k..]);
      SchemaSafety(c, events[..k]);
      SchemaSafety(Run(c, events[..k]).value, events[k..]);
    }
  }

  lemma {:induction false} RunSplits(c: Cluster, first: seq<Event>, second: seq<Event>)
    requires WellFormed(c) && Run(c, first + second).Some?
    ensures Run(c, first).Some? && Run(Run(c, first).value, second) == Run(c, first + second)
    decreases |first|
  {
    if first == [] {
      assert first + second == second;
    } else {
      assert (first + second)[1..] == first[1..] + second;
      RunSplits(Step(c, first[0]).value, first[1..], second);
    }
  }

  /** A loop that ends because nothing is left to do is right about it at that very moment. */
  lemma UpToDateIsTrue(c: Cluster, m: Member)
    requires Inv(c) && Step(c, PackagedRead(m)).Some? && Step(c, PackagedRead(m)).value.pc[m].Done?
    ensures c.active == c.packaged[m]
  {
    assert Remembers(c, m);
  }

  // ---- Uniqueness ----

  predicate FixedCentral(events: seq<Event>)
  {
    forall e | e in events :: !e.CentralChanged?
  }

  lemma FixedTail(events: seq<Event>)
    requires FixedCentral(events) && events != []
    ensures !events[0].CentralChanged? && FixedCentral(events[1..])
  {
  }

  /** Only the leader gets past the leader check. */
  ghost predicate OnlyLeaderBeyondCheck(c: Cluster)
  {
    forall m | m in c.pc && (c.pc[m].Poll? || c.pc[m].Convert?) :: CheckLeader(m.name, c.central) == Leader
  }

  lemma BeyondCheckStep(c: Cluster, e: Event)
    requires WellFormed(c) && OnlyLeaderBeyondCheck(c) && Step(c, e).Some? && !e.CentralChanged?
    ensures OnlyLeaderBeyondCheck(Step(c, e).value) && Step(c, e).value.central == c.central
  {
    StepEffect(c, e);
    BeyondCheckOwn(c, e);
  }

  lemma BeyondCheckOwn(c: Cluster, e: Event)
    requires WellFormed(c) && Step(c, e).Some? && !e.CentralChanged? && e.m in c.pc
    ensures var pc := Step(c, e).value.pc[e.m];
            pc.Poll? || pc.Convert? ==>
              c.pc[e.m].Poll? || c.pc[e.m].Convert? || CheckLeader(e.m.name, c.central) == Leader
  {
  }

  lemma {:induction false} BeyondCheckIsKept(c: Cluster, events: seq<Event>)
    requires WellFormed(c) && OnlyLeaderBeyondCheck(c)
    requires FixedCentral(events) && Run(c, events).Some?
    ensures OnlyLeaderBeyondCheck(Run(c, events).value)
    ensures Run(c, events).value.central == c.central
    decreases |events|
  {
    if events != [] {
      var d := Step(c, events[0]).value;
      FixedTail(events);
      BeyondCheckStep(c, events[0]);
      BeyondCheckIsKept(d, events[1..]);
    }
  }

  /** With a fixed, non-empty central set there is one member that performs every conversion. */
  lemma OneMemberConverts(c: Cluster, events: seq<Event>) returns (leader: Member)
    requires Init(c) && Run(c, events).Some? && FixedCentral(events)
    requires DistinctMembers(c.central) && c.central != []
    requires forall m | m in c.central :: m in c.pc
    requires forall a, b | a in c.pc && b in c.pc && a.name == b.name :: a == b
    ensures leader in c.central && Lowest(leader, c.central)
    ensures forall k | 0 <= k < |events| && (events[k].ConvertDone? || events[k].ConvertFailed?) ::
              events[k].m == leader
  {
    leader := ExactlyOneLeader(c.central, c.central);
    LeaderIsLowestId(leader, c.central);
    forall k | 0 <= k < |events| && (events[k].ConvertDone? || events[k].ConvertFailed?)
      ensures events[k].m == leader
    {
      assert events[..k] + events[k..] == events;
      RunSplits(c, events[..k], events[k..]);
      assert forall e | e in events[..k] :: e in events;
      BeyondCheckIsKept(c, events[..k]);
      var d := Run(c, events[..k]).value;
      assert Step(d, events[k]).Some?;
      assert CheckLeader(events[k].m.name, c.central) == Leader;
      LeaderNameIsUnique(events[k].m, leader, c.central);
    }
  }

  lemma LeaderNameIsUnique(m: Member, leader: Member, rows: seq<Member>)
    requires DistinctMembers(rows) && leader in rows
    requires CheckLeader(m.name, rows) == Leader && CheckLeader(leader.name, rows) == Leader
    ensures m.name == leader.name
  {
  }

  // ---- Progress ----

  /** Events that leave packages, the central set and the process of `m` alone, and that are not an
      error of `m`. Everybody else may act and fail at will. */
  predicate ErrorFree(e: Event, m: Member)
  {
    match e
    case CentralChanged(_) => false
    case Refresh(_, _) => false
    case Failed(x) => x != m
    case ConvertFailed(x) => x != m
    case _ => true
  }

  predicate ErrorFreeRun(events: seq<Event>, m: Member)
  {
    forall e | e in events :: ErrorFree(e, m)
  }

  predicate ActsFor(e: Event, m: Member)
  {
    !e.CentralChanged? && e.m == m
  }

  function Actions(events: seq<Event>, m: Member): nat
  {
    if events == [] then 0
    else (if ActsFor(events[0], m) then 1 else 0) + Actions(events[1..], m)
  }

  /** How many steps of its own the current iteration of a member may still take. */
  function Remaining(c: Cluster, m: Member): nat
    requires m in c.pc
  {
    match c.pc[m]
    case ReadActive => |Peers(c, m)| + 5
    case ReadPackaged(_) => |Peers(c, m)| + 4
    case Elect(_) => |Peers(c, m)| + 3
    case Poll(_, answers) => |Peers(c, m) - answers.Keys| + 2
    case Convert(_) => 1
    case _ => 0
  }

  ghost predicate AllPackage(c: Cluster, v: Version)
  {
    forall m | m in c.packaged :: c.packaged[m] == v
  }

  /** Where the leader can be in an iteration that it began after every package reached `v`. */
  ghost predicate LeaderPc(c: Cluster, m: Member, v: Version)
    requires m in c.pc
  {
    match c.pc[m]
    case Idle => false
    case Halted => false
    case Poll(_, answers) => forall p | p in answers :: answers[p] == v
    case Done(_) => c.active == v
    case _ => true
  }

  ghost predicate LeaderOnTrack(c: Cluster, m: Member, v: Version)
  {
    && Inv(c) && AllPackage(c, v) && m in c.pc
    && CheckLeader(m.name, c.central) == Leader
    && LeaderPc(c, m, v)
  }

  lemma LeaderStep(c: Cluster, e: Event, m: Member, v: Version)
    requires LeaderOnTrack(c, m, v) && ErrorFree(e, m) && Step(c, e).Some?
    ensures LeaderOnTrack(Step(c, e).value, m, v)
    ensures Remaining(Step(c, e).value, m) + (if ActsFor(e, m) then 1 else 0) <= Remaining(c, m)
  {
    StepKeepsInv(c, e);
    StepEffect(c, e);
    var d := Step(c, e).value;
    if ActsFor(e, m) {
      assert Remembers(c, m);
      LeaderOwnStep(c, e, m, v);
    } else {
      LeaderWaits(c, d, m, v);
    }
  }

  /** What others do does not move the leader, and cannot take the active schema past `v`. */
  lemma LeaderWaits(c: Cluster, d: Cluster, m: Member, v: Version)
    requires AllPackage(c, v) && m in c.pc && m in d.pc && m in c.packaged && LeaderPc(c, m, v)
    requires d.pc[m] == c.pc[m] && d.packaged == c.packaged && ActiveIsSupported(d) && c.active <= d.active
    ensures LeaderPc(d, m, v) && Remaining(d, m) == Remaining(c, m)
  {
    assert d.active <= d.packaged[m] == v;
  }

  lemma LeaderOwnStep(c: Cluster, e: Event, m: Member, v: Version)
    requires WellFormed(c) && ActiveIsSupported(c) && AllPackage(c, v)
    requires m in c.pc && LeaderPc(c, m, v) && Remembers(c, m) && CheckLeader(m.name, c.central) == Leader
    requires ErrorFree(e, m) && Step(c, e).Some? && ActsFor(e, m)
    ensures m in Step(c, e).value.pc && LeaderPc(Step(c, e).value, m, v)
    ensures Remaining(Step(c, e).value, m) + 1 <= Remaining(c, m)
  {
    match e
    case Polled(_, peer) => PollStep(c, peer, m, v);
    case PollsCompared(_) => ComparedStep(c, m, v);
    case LeaderChecked(_) => CheckedStep(c, m);
    case PackagedRead(_) => PackagedStep(c, m, v);
    case _ =>
  }

  lemma PackagedStep(c: Cluster, m: Member, v: Version)
    requires WellFormed(c) && ActiveIsSupported(c) && AllPackage(c, v) && m in c.pc && Remembers(c, m)
    requires Step(c, PackagedRead(m)).Some?
    ensures var d := Step(c, PackagedRead(m)).value; LeaderPc(d, m, v) && Remaining(d, m) + 1 <= Remaining(c, m)
  {
    assert c.active <= c.packaged[m] == v;
  }

  lemma ComparedStep(c: Cluster, m: Member, v: Version)
    requires WellFormed(c) && AllPackage(c, v) && m in c.pc && LeaderPc(c, m, v) && Remembers(c, m)
    requires Step(c, PollsCompared(m)).Some?
    ensures var d := Step(c, PollsCompared(m)).value; d.pc[m].Convert? && Remaining(d, m) + 1 <= Remaining(c, m)
  {
    assert c.pc[m].target == c.packaged[m] == v;
  }

  lemma CheckedStep(c: Cluster, m: Member)
    requires WellFormed(c) && m in c.pc && Step(c, LeaderChecked(m)).Some?
    requires CheckLeader(m.name, c.central) == Leader
    ensures var d := Step(c, LeaderChecked(m)).value;
            d.pc[m] == Poll(c.pc[m].target, map[]) && Remaining(d, m) + 1 == Remaining(c, m)
  {
    var d := Step(c, LeaderChecked(m)).value;
    assert d.pc[m] == Poll(c.pc[m].target, map[]);
    assert Peers(d, m) - d.pc[m].answers.Keys == Peers(c, m);
  }

  lemma PollStep(c: Cluster, peer: Member, m: Member, v: Version)
    requires WellFormed(c) && AllPackage(c, v) && m in c.pc && Step(c, Polled(m, peer)).Some?
    requires forall p | p in c.pc[m].answers :: c.pc[m].answers[p] == v
    ensures var d := Step(c, Polled(m, peer)).value;
            && d.pc[m].Poll? && Remaining(d, m) + 1 == Remaining(c, m)
            && forall p | p in d.pc[m].answers :: d.pc[m].answers[p] == v
  {
    var d := Step(c, Polled(m, peer)).value;
    assert d.pc[m] == Poll(c.pc[m].target, c.pc[m].answers[peer := v]);
    assert d.pc[m].answers.Keys == c.pc[m].answers.Keys + {peer};
    OneFewer(Peers(c, m), c.pc[m].answers.Keys, peer);
  }

  lemma OneFewer(peers: set<Member>, answered: set<Member>, peer: Member)
    requires peer in peers && peer !in answered
    ensures |peers - answered| == |peers - (answered + {peer})| + 1
  {
    assert peers - answered == (peers - (answered + {peer})) + {peer};
  }

  /** From the state in which every member packages `v` and the leader starts an iteration: however
      the other members interleave, the leader takes at most one step for each peer and five more,
      it never falls back to another iteration, and when it is done `v` is active. */
  lemma {:induction false} LeaderIterationUpgrades(c: Cluster, events: seq<Event>, m: Member, v: Version)
    requires LeaderOnTrack(c, m, v) && ErrorFreeRun(events, m) && Run(c, events).Some?
    ensures LeaderOnTrack(Run(c, events).value, m, v)
    ensures Actions(events, m) + Remaining(Run(c, events).value, m) <= Remaining(c, m)
    ensures Run(c, events).value.pc[m].Done? ==> Run(c, events).value.active == v
    decreases |events|
  {
    if events != [] {
      LeaderStep(c, events[0], m, v);
      assert forall e | e in events[1..] :: e in events;
      LeaderIterationUpgrades(Step(c, events[0]).value, events[1..], m, v);
    }
  }

  /** And the leader is never stuck: until it is done it has an error-free step to take. */
  lemma LeaderCanAct(c: Cluster, m: Member, v: Version) returns (e: Event)
    requires LeaderOnTrack(c, m, v) && !c.pc[m].Done?
    ensures ErrorFree(e, m) && ActsFor(e, m) && Step(c, e).Some?
  {
    match c.pc[m]
    case ReadActive => e := ActiveRead(m);
    case ReadPackaged(_) => e := PackagedRead(m);
    case Elect(_) => e := LeaderChecked(m);
    case Poll(_, answers) =>
      assert Remembers(c, m);
      if p :| p in Peers(c, m) && p !in answers {
        e := Polled(m, p);
      } else {
        assert answers.Keys == Peers(c, m);
        e := PollsCompared(m);
      }
    case Convert(_) => e := ConvertDone(m, true);
  }

  /** The loop of a member is under way. */
  predicate Looping(pc: Pc)
  {
    pc.ReadActive? || pc.ReadPackaged? || pc.Elect? || pc.Poll? || pc.Convert?
  }

  /** What ends the loop of a member: equal versions, a conversion that was tried, or a leader check that
      finds no central member. A follower, a member whose peers are not ready and one that meets an error
      begin the next iteration. */
  lemma LoopExits(c: Cluster, e: Event)
    requires WellFormed(c) && !e.CentralChanged? && !e.Refresh? && Step(c, e).Some? && Looping(c.pc[e.m])
    ensures var before, after := c.pc[e.m], Step(c, e).value.pc[e.m];
            && (after == Done(true) <==>
                  || (before.ReadPackaged? && e.PackagedRead? && before.running == c.packaged[e.m])
                  || e == ConvertDone(e.m, true))
            && (after == Done(false) <==> e == ConvertDone(e.m, false) || e.ConvertFailed?)
            && (after.Halted? <==> before.Elect? && e.LeaderChecked? && c.central == [])
            && (!after.Done? && !after.Halted? ==> Looping(after))
            && (after.ReadActive? <==>
                  || e.Failed?
                  || (e.LeaderChecked? && CheckLeader(e.m.name, c.central) == Follower)
                  || (e.PollsCompared? && exists p :: p in before.answers && before.answers[p] != before.target))
  {
  }

  /** A package refresh never lowers a version, and the loop of a central member starts again. */
  lemma RefreshRestarts(c: Cluster, m: Member, v: Version)
    requires WellFormed(c) && m in c.pc
    ensures Step(c, Refresh(m, v)).Some? <==> c.packaged[m] <= v
    ensures Step(c, Refresh(m, v)).Some? ==>
              var d := Step(c, Refresh(m, v)).value;
              d.packaged[m] == v && d.active == c.active && (Looping(d.pc[m]) <==> m in c.central)
  {
  }

  /** A member that starts an iteration once its own version is active. */
  ghost predicate FollowerOnTrack(c: Cluster, m: Member)
  {
    && Inv(c) && m in c.pc && c.active == c.packaged[m]
    && match c.pc[m]
       case ReadActive => true
       case ReadPackaged(running) => running == c.active
       case Done(ok) => ok
       case _ => false
  }

  function StepsToExit(c: Cluster, m: Member): nat
    requires m in c.pc
  {
    if c.pc[m].ReadActive? then 2 else if c.pc[m].ReadPackaged? then 1 else 0
  }

  lemma FollowerStep(c: Cluster, e: Event, m: Member)
    requires FollowerOnTrack(c, m) && ErrorFree(e, m) && Step(c, e).Some?
    ensures FollowerOnTrack(Step(c, e).value, m)
    ensures StepsToExit(Step(c, e).value, m) + (if ActsFor(e, m) then 1 else 0) == StepsToExit(c, m)
  {
    StepKeepsInv(c, e);
    StepEffect(c, e);
    var d := Step(c, e).value;
    assert d.active <= d.packaged[m];
    if !ActsFor(e, m) {
      assert d.pc[m] == c.pc[m];
    }
  }

  /** Whatever the others do, its next error-free iteration takes two steps and ends the loop: every
      step counts down to the exit, and at zero the loop has returned without an error. */
  lemma {:induction false} FollowerIterationExits(c: Cluster, events: seq<Event>, m: Member)
    requires FollowerOnTrack(c, m) && ErrorFreeRun(events, m) && Run(c, events).Some?
    ensures FollowerOnTrack(Run(c, events).value, m)
    ensures Actions(events, m) + StepsToExit(Run(c, events).value, m) == StepsToExit(c, m)
    ensures StepsToExit(Run(c, events).value, m) == 0 <==> Run(c, events).value.pc[m] == Done(true)
    decreases |events|
  {
    if events != [] {
      FollowerStep(c, events[0], m);
      assert forall e | e in events[1..] :: e in events;
      FollowerIterationExits(Step(c, events[0]).value, events[1..], m);
    }
  }
}
