/** Setup of BGP redirection as a script: the commands that change the host, in the order in which they
    are given. A failure can only leave the effect of a prefix of the script behind. */
module BgpSetup {
  import opened Prelude
  import opened BgpNames
  import opened BridgeMapping
  import opened BgpResources
  import Veth

  /** The parsed options that decide what is set up. */
  datatype Plan = Plan(given: seq<string>, connections: seq<string>, manualBgpd: bool)

  datatype Command =
    | AddBridge(iface: string)
    | TagBridge(bridge: string)
    | CreateRouter
    | CreateNetwork(bridge: string)
    | WriteFile(bridges: seq<string>)
    | ApplyFile
    | TagRedirectPort(bridge: string)
    | WriteBirdConfig

  /** One command; None when the host refuses it. */
  function Exec(host: string, n: Net, command: Command): Option<Net>
  {
    match command
    case AddBridge(iface) => AddExternalBridge(n, host, ExternalBridgeName(iface), iface)
    case TagBridge(bridge) => AdoptBridge(n, bridge, AppendEntry(n.mapping, MappingEntry(host, bridge)))
    case CreateRouter => AddRouter(n, LrName(host))
    case CreateNetwork(bridge) => AddNetwork(n, host, bridge)
    case WriteFile(bridges) => Some(WriteNetplan(n, bridges))
    case ApplyFile => Some(ApplyNetplan(n))
    case TagRedirectPort(bridge) => TagPort(n, Veth.BridgeSide(bridge))
    case WriteBirdConfig => Some(n.(birdConfigured := true))
  }

  function Run(host: string, n: Net, script: seq<Command>): Option<Net>
  {
    if script == [] then Some(n)
    else
      var last := |script| - 1;
      match Run(host, n, script[..last])
      case None => None
      case Some(m) => Exec(host, m, script[last])
  }

  // ---- The script of a plan ----

  function ExternalBridges(ifaces: seq<string>): seq<string>
  {
    seq(|ifaces|, i requires 0 <= i < |ifaces| => ExternalBridgeName(ifaces[i]))
  }

  /** The bridges that a plan asks for: given ones win over external connections. */
  function PlannedBridges(p: Plan): seq<string>
  {
    if p.given != [] then p.given else ExternalBridges(p.connections)
  }

  lemma PlannedCount(p: Plan)
    ensures |PlannedBridges(p)| ==
            if p.given != [] then |p.given| else |p.connections|
  {
  }

  /** The user's own bridges among them. */
  function HandedOver(p: Plan): set<string>
  {
    set b | b in p.given
  }

  lemma HandedOverIsPlanned(p: Plan, b: string)
    requires b in HandedOver(p)
    ensures b in PlannedBridges(p)
  {
  }

  function AddCommands(ifaces: seq<string>): seq<Command>
  {
    seq(|ifaces|, i requires 0 <= i < |ifaces| => AddBridge(ifaces[i]))
  }

  function TagCommands(given: seq<string>): seq<Command>
  {
    seq(|given|, i requires 0 <= i < |given| => TagBridge(given[i]))
  }

  function BridgeCommands(p: Plan): seq<Command>
  {
    if p.given != [] then TagCommands(p.given) else AddCommands(p.connections)
  }

  function NetworkCommands(bridges: seq<string>): seq<Command>
  {
    [CreateRouter] + seq(|bridges|, i requires 0 <= i < |bridges| => CreateNetwork(bridges[i]))
  }

  function RedirectCommands(bridges: seq<string>): seq<Command>
  {
    [WriteFile(bridges), ApplyFile] + seq(|bridges|, i requires 0 <= i < |bridges| => TagRedirectPort(bridges[i]))
  }

  function BirdCommands(p: Plan): seq<Command>
  {
    if p.manualBgpd then [] else [WriteBirdConfig]
  }

  function FinalCommands(p: Plan, bridges: seq<string>): seq<Command>
  {
    RedirectCommands(bridges) + BirdCommands(p)
  }

  function Script(p: Plan): seq<Command>
  {
    BridgeCommands(p) + (NetworkCommands(PlannedBridges(p)) + FinalCommands(p, PlannedBridges(p)))
  }

  /** A state that setup can have reached when it stopped. */
  ghost predicate Reached(host: string, start: Net, script: seq<Command>, n: Net)
  {
    exists k :: 0 <= k <= |script| && Run(host, start, script[..k]) == Some(n)
  }

  lemma {:induction false} RunConcat(host: string, n: Net, a: seq<Command>, b: seq<Command>)
    ensures Run(host, n, a + b) ==
            match Run(host, n, a) case None => None case Some(m) => Run(host, m, b)
  {
    if b == [] {
      assert a + b == a;
    } else {
      var last := |b| - 1;
      RunConcat(host, n, a, b[..last]);
      assert (a + b)[..|a + b| - 1] == a + b[..last];
    }
  }

  lemma RunPrefix(host: string, n: Net, script: seq<Command>, k: nat)
    requires k <= |script| && Run(host, n, script).Some?
    ensures Run(host, n, script[..k]).Some?
  {
    assert script == script[..k] + script[k..];
    RunConcat(host, n, script[..k], script[k..]);
  }

  lemma RunNext(host: string, n: Net, script: seq<Command>, k: nat)
    requires k < |script|
    ensures Run(host, n, script[..k + 1]) ==
            match Run(host, n, script[..k]) case None => None case Some(m) => Exec(host, m, script[k])
  {
    assert script[..k + 1][..k] == script[..k];
  }

  /** How a stage ends: it is `ok` only when all of it ran; otherwise some prefix did, and when no command
      failed by itself, the script cannot be run on that host at all. */
  ghost predicate Outcome(host: string, start: Net, script: seq<Command>, n: Net, ok: bool, faultFree: bool)
  {
    && Reached(host, start, script, n)
    && (ok ==> Run(host, start, script) == Some(n))
    && (faultFree && !ok ==> Run(host, start, script) == None)
  }

  lemma StageStops(host: string, start: Net, script: seq<Command>, n: Net, k: nat, faultFree: bool)
    requires k <= |script| && Run(host, start, script[..k]) == Some(n)
    requires faultFree ==> k < |script| && Exec(host, n, script[k]) == None
    ensures Outcome(host, start, script, n, false, faultFree)
  {
    if faultFree {
      RunNext(host, start, script, k);
      if Run(host, start, script).Some? {
        RunPrefix(host, start, script, k + 1);
      }
    }
  }

  lemma StageEnds(host: string, start: Net, script: seq<Command>, n: Net, faultFree: bool)
    requires Run(host, start, script[..|script|]) == Some(n)
    ensures Outcome(host, start, script, n, true, faultFree)
  {
    assert script[..|script|] == script;
  }

  lemma FirstStageFails(host: string, start: Net, a: seq<Command>, b: seq<Command>, n: Net, faultFree: bool)
    requires Outcome(host, start, a, n, false, faultFree)
    ensures Outcome(host, start, a + b, n, false, faultFree)
  {
    var k :| 0 <= k <= |a| && Run(host, start, a[..k]) == Some(n);
    assert (a + b)[..k] == a[..k];
    RunConcat(host, start, a, b);
  }

  lemma SecondStage(host: string, start: Net, a: seq<Command>, b: seq<Command>, m: Net, n: Net, ok: bool, faultFree: bool)
    requires Run(host, start, a) == Some(m) && Outcome(host, m, b, n, ok, faultFree)
    ensures Outcome(host, start, a + b, n, ok, faultFree)
  {
    var k :| 0 <= k <= |b| && Run(host, m, b[..k]) == Some(n);
    RunConcat(host, start, a, b[..k]);
    assert (a + b)[..|a| + k] == a + b[..k];
    RunConcat(host, start, a, b);
  }

  // ---- What every prefix keeps ----

  /** No port carries a name that setup is about to give to a redirect port. */
  ghost predicate PortNamesFree(n: Net, bridges: seq<string>)
  {
    forall b | b in bridges :: Veth.BridgeSide(b) !in n.ports
  }

  predicate PartOf(p: Plan, command: Command)
  {
    match command
    case TagBridge(bridge) => bridge in HandedOver(p)
    case WriteFile(bridges) => bridges == PlannedBridges(p)
    case TagRedirectPort(bridge) => bridge in PlannedBridges(p)
    case _ => true
  }

  /** The redirect ports of a netplan file. */
  function Listing(p: Plan): set<string>
  {
    set b | b in PlannedBridges(p) :: Veth.BridgeSide(b)
  }

  lemma StepTraceable(host: string, start: Net, n: Net, p: Plan, command: Command)
    requires Traceable(host, start, n, HandedOver(p), Listing(p))
    requires PartOf(p, command) && Exec(host, n, command).Some?
    ensures Traceable(host, start, Exec(host, n, command).value, HandedOver(p), Listing(p))
  {
    var handedOver, listing := HandedOver(p), Listing(p);
    match command
    case AddBridge(iface) =>
      AddExternalBridgeTraceable(host, start, n, ExternalBridgeName(iface), iface, handedOver, listing);
    case TagBridge(bridge) =>
      AdoptBridgeTraceable(host, start, n, bridge, AppendEntry(n.mapping, MappingEntry(host, bridge)), handedOver, listing);
    case CreateRouter => AddRouterTraceable(host, start, n, handedOver, listing);
    case CreateNetwork(bridge) => AddNetworkTraceable(host, start, n, bridge, handedOver, listing);
    case WriteFile(bridges) => WriteTraceable(host, start, n, bridges, handedOver, listing);
    case ApplyFile => ApplyTraceable(host, start, n, handedOver, listing);
    case TagRedirectPort(bridge) => TagPortTraceable(host, start, n, Veth.BridgeSide(bridge), handedOver, listing);
    case WriteBirdConfig =>
  }

  lemma {:induction false} RunTraceable(host: string, start: Net, p: Plan, script: seq<Command>)
    requires Untagged(host, start) && PortNamesFree(start, PlannedBridges(p))
    requires forall command | command in script :: PartOf(p, command)
    requires Run(host, start, script).Some?
    ensures Traceable(host, start, Run(host, start, script).value, HandedOver(p), Listing(p))
  {
    if script == [] {
      StartIsTraceable(host, start, HandedOver(p), Listing(p));
    } else {
      var last := |script| - 1;
      RunTraceable(host, start, p, script[..last]);
      StepTraceable(host, start, Run(host, start, script[..last]).value, p, script[last]);
    }
  }

  lemma AddPart(p: Plan, ifaces: seq<string>, command: Command)
    requires command in AddCommands(ifaces)
    ensures PartOf(p, command)
  {
    assert forall i | 0 <= i < |ifaces| :: AddCommands(ifaces)[i].AddBridge?;
  }

  lemma TagPart(given: seq<string>, command: Command)
    requires command in TagCommands(given)
    ensures command.TagBridge? && command.bridge in given
  {
    assert forall i | 0 <= i < |given| :: TagCommands(given)[i].TagBridge? && TagCommands(given)[i].bridge in given;
  }

  lemma NetworkPart(bridges: seq<string>, command: Command)
    requires command in NetworkCommands(bridges)
    ensures command.CreateRouter? || command.CreateNetwork?
  {
  }

  lemma RedirectPart(bridges: seq<string>, command: Command)
    requires command in RedirectCommands(bridges)
    ensures command == WriteFile(bridges) || command == ApplyFile || (command.TagRedirectPort? && command.bridge in bridges)
  {
    var tags := RedirectCommands(bridges)[2..];
    assert forall i | 0 <= i < |bridges| :: tags[i].TagRedirectPort? && tags[i].bridge in bridges;
    assert RedirectCommands(bridges) == [WriteFile(bridges), ApplyFile] + tags;
  }

  lemma ScriptParts(p: Plan, script: seq<Command>)
    requires forall command | command in script :: command in Script(p)
    ensures forall command | command in script :: PartOf(p, command)
  {
    forall command | command in script ensures PartOf(p, command) {
      var bridges := PlannedBridges(p);
      if command in NetworkCommands(bridges) {
        NetworkPart(bridges, command);
      } else if command in RedirectCommands(bridges) {
        RedirectPart(bridges, command);
      } else if command in BridgeCommands(p) {
        if p.given != [] {
          TagPart(p.given, command);
        } else {
          AddPart(p, p.connections, command);
        }
      }
    }
  }

  /** Wherever setup stops, everything it has left behind can be recognised by teardown. */
  lemma ReachedIsTraceable(host: string, start: Net, p: Plan, n: Net)
    requires Untagged(host, start) && PortNamesFree(start, PlannedBridges(p))
    requires Reached(host, start, Script(p), n)
    ensures Traceable(host, start, n, HandedOver(p), Listing(p))
  {
    var k :| 0 <= k <= |Script(p)| && Run(host, start, Script(p)[..k]) == Some(n);
    ScriptParts(p, Script(p)[..k]);
    RunTraceable(host, start, p, Script(p)[..k]);
  }

  // ---- What the whole script achieves ----

  ghost predicate Distinct(names: seq<string>)
  {
    forall i, j | 0 <= i < j < |names| :: names[i] != names[j]
  }

  ghost predicate Mapped(host: string, start: Net, n: Net, bridges: seq<string>)
  {
    && (forall b | b in bridges :: b in n.bridges && n.bridges[b])
    && n.mapping == SetupMapping(start.mapping, host, bridges)
    && (bridges != [] ==> n.recorded == n.mapping)
  }

  ghost predicate Plugged(n: Net, ifaces: seq<string>)
  {
    forall i | i in ifaces :: i in n.ports && n.ports[i].bridge == ExternalBridgeName(i)
  }

  ghost predicate NetworksInPlace(host: string, n: Net, bridges: seq<string>)
  {
    && LrName(host) in n.routers
    && forall b | b in bridges :: LsName(host, b) in n.switches && n.switches[LsName(host, b)] == Switch(true, PhysnetName(host, b))
  }

  ghost predicate RedirectInPlace(n: Net, bridges: seq<string>)
  {
    forall b | b in bridges :: Veth.BridgeSide(b) in n.ports && n.ports[Veth.BridgeSide(b)].tagged
  }

  /** Everything that a successful setup must have put in place. */
  ghost predicate Provisioned(host: string, start: Net, n: Net, p: Plan)
  {
    var bridges := PlannedBridges(p);
    && Mapped(host, start, n, bridges)
    && (p.given == [] ==> Plugged(n, p.connections))
    && NetworksInPlace(host, n, bridges)
    && RedirectInPlace(n, bridges)
    && (n.birdConfigured <==> start.birdConfigured || !p.manualBgpd)
  }

  /** Exactly what the host must offer: given bridges exist; or the interfaces are distinct and free, and
      so are the names of their bridges. */
  ghost predicate BridgesReady(n: Net, p: Plan)
  {
    if p.given != [] then AllPresent(n, p.given)
    else InterfacesFree(n, p.connections)
  }

  ghost predicate AllPresent(n: Net, bridges: seq<string>)
  {
    forall b | b in bridges :: b in n.bridges
  }

  ghost predicate InterfacesFree(n: Net, ifaces: seq<string>)
  {
    && Distinct(ifaces)
    && forall i | i in ifaces ::
         !NameTaken(n, ExternalBridgeName(i)) && !NameTaken(n, i) && ExternalBridgeName(i) !in ifaces
  }

  ghost predicate NetworksReady(n: Net, host: string, bridges: seq<string>)
  {
    && LrName(host) !in n.routers && Distinct(bridges)
    && forall b | b in bridges :: LsName(host, b) !in n.switches
  }

  lemma DistinctStep(names: seq<string>)
    requires names != []
    ensures Distinct(names) <==> Distinct(names[..|names| - 1]) && names[|names| - 1] !in names[..|names| - 1]
  {
    var last := |names| - 1;
    if Distinct(names[..last]) && names[last] !in names[..last] {
      forall i, j | 0 <= i < j < |names| ensures names[i] != names[j] {
        assert names[..last][i] == names[i];
        assert j < last ==> names[..last][j] == names[j];
      }
    }
  }

  /** The bridge names of an external connection tell the interfaces apart. */
  lemma BridgeNameInjective(i: string, j: string)
    ensures ExternalBridgeName(i) == ExternalBridgeName(j) <==> i == j
  {
    assert ExternalBridgeName(i)[3..] == i && ExternalBridgeName(j)[3..] == j;
  }

  lemma SwitchNameInjective(host: string, b: string, c: string)
    ensures LsName(host, b) == LsName(host, c) <==> b == c
  {
    var prefix := "ls-" + host + "-";
    assert LsName(host, b)[|prefix|..] == b && LsName(host, c)[|prefix|..] == c;
  }

  function Names(names: seq<string>): set<string>
  {
    set name | name in names
  }

  lemma NamesStep(names: seq<string>, name: string)
    ensures Names(names + [name]) == Names(names) + {name}
  {
  }

  ghost predicate Untouched(start: Net, n: Net)
  {
    n.routers == start.routers && n.switches == start.switches && n.birdConfigured == start.birdConfigured
  }

  /** What adding `bridges` with one of `ifaces` each does to the names of bridges and ports. */
  ghost predicate Grown(start: Net, n: Net, bridges: seq<string>, ifaces: seq<string>)
  {
    n.bridges.Keys == start.bridges.Keys + Names(bridges) && n.ports.Keys == start.ports.Keys + Names(ifaces)
  }

  lemma RunAdd(host: string, start: Net, before: seq<string>, iface: string)
    ensures Run(host, start, AddCommands(before + [iface])) ==
            match Run(host, start, AddCommands(before))
            case None => None
            case Some(m) => AddExternalBridge(m, host, ExternalBridgeName(iface), iface)
  {
    var script := AddCommands(before + [iface]);
    assert script[..|before|] == AddCommands(before) && script[|before|] == AddBridge(iface);
  }

  /** Adding succeeds exactly on free names. */
  lemma {:induction false} AddsSucceed(host: string, start: Net, ifaces: seq<string>)
    ensures Run(host, start, AddCommands(ifaces)).Some? <==> InterfacesFree(start, ifaces)
    ensures Run(host, start, AddCommands(ifaces)).Some? ==>
              Grown(start, Run(host, start, AddCommands(ifaces)).value, ExternalBridges(ifaces), ifaces)
  {
    if ifaces != [] {
      var last := |ifaces| - 1;
      var before, iface := ifaces[..last], ifaces[last];
      AddsSucceed(host, start, before);
      assert ifaces == before + [iface];
      FreeStep(start, before, iface);
      RunAdd(host, start, before, iface);
      var m := Run(host, start, AddCommands(before));
      if m.Some? {
        AddGrows(start, m.value, host, ExternalBridges(before), before, ExternalBridgeName(iface), iface);
        assert ExternalBridges(ifaces) == ExternalBridges(before) + [ExternalBridgeName(iface)];
      }
    }
  }

  /** Both names are free and not used by the connections before. */
  ghost predicate Unused(n: Net, before: seq<string>, name: string)
  {
    !NameTaken(n, name) && name !in before && name !in ExternalBridges(before)
  }

  lemma FreeStep(n: Net, before: seq<string>, iface: string)
    ensures InterfacesFree(n, before + [iface]) <==>
            InterfacesFree(n, before) && Unused(n, before, iface) && Unused(n, before, ExternalBridgeName(iface))
  {
    var ifaces, bridge := before + [iface], ExternalBridgeName(iface);
    DistinctStep(ifaces);
    assert ifaces[..|before|] == before && ifaces[|before|] == iface && |bridge| == |iface| + 3;
    forall k | 0 <= k < |before| ensures ExternalBridges(before)[k] == bridge <==> before[k] == iface {
      BridgeNameInjective(before[k], iface);
    }
    assert forall i :: i in ifaces <==> i in before || i == iface;
    assert iface in ExternalBridges(before) <==> exists i :: i in before && ExternalBridgeName(i) == iface by {
      assert forall k | 0 <= k < |before| :: ExternalBridges(before)[k] == ExternalBridgeName(before[k]) && before[k] in before;
    }
  }

  lemma AddGrows(start: Net, m: Net, host: string, bridges: seq<string>, ifaces: seq<string>, bridge: string, iface: string)
    requires Grown(start, m, bridges, ifaces)
    ensures var end := AddExternalBridge(m, host, bridge, iface);
            && (end.Some? <==>
                  && !NameTaken(start, bridge) && bridge !in bridges && bridge !in ifaces
                  && !NameTaken(start, iface) && iface !in bridges && iface !in ifaces)
            && (end.Some? ==> Grown(start, end.value, bridges + [bridge], ifaces + [iface]))
  {
    NamesStep(bridges, bridge);
    NamesStep(ifaces, iface);
  }

  lemma {:induction false} AddsDone(host: string, start: Net, ifaces: seq<string>)
    requires Run(host, start, AddCommands(ifaces)).Some?
    ensures var end := Run(host, start, AddCommands(ifaces)).value;
            Mapped(host, start, end, ExternalBridges(ifaces)) && Plugged(end, ifaces) && Untouched(start, end)
  {
    if ifaces != [] {
      var last := |ifaces| - 1;
      var before, iface := ifaces[..last], ifaces[last];
      assert ifaces == before + [iface];
      RunAdd(host, start, before, iface);
      AddsDone(host, start, before);
      var m := Run(host, start, AddCommands(before)).value;
      AddStep(host, start, m, ExternalBridges(before), before, ExternalBridgeName(iface), iface);
      assert ExternalBridges(ifaces) == ExternalBridges(before) + [ExternalBridgeName(iface)];
    }
  }

  lemma AddStep(host: string, start: Net, m: Net, bridges: seq<string>, ifaces: seq<string>, bridge: string, iface: string)
    requires Mapped(host, start, m, bridges) && Plugged(m, ifaces) && Untouched(start, m)
    requires bridge == ExternalBridgeName(iface) && AddExternalBridge(m, host, bridge, iface).Some?
    ensures var end := AddExternalBridge(m, host, bridge, iface).value;
            && Mapped(host, start, end, bridges + [bridge]) && Plugged(end, ifaces + [iface]) && Untouched(start, end)
  {
    AddMaps(host, start, m, bridges, bridge, iface);
    PlugStep(host, m, ifaces, bridge, iface);
  }

  lemma PlugStep(host: string, m: Net, ifaces: seq<string>, bridge: string, iface: string)
    requires Plugged(m, ifaces)
    requires bridge == ExternalBridgeName(iface) && AddExternalBridge(m, host, bridge, iface).Some?
    ensures Plugged(AddExternalBridge(m, host, bridge, iface).value, ifaces + [iface])
  {
  }

  lemma AddMaps(host: string, start: Net, m: Net, bridges: seq<string>, bridge: string, iface: string)
    requires Mapped(host, start, m, bridges)
    requires AddExternalBridge(m, host, bridge, iface).Some?
    ensures Mapped(host, start, AddExternalBridge(m, host, bridge, iface).value, bridges + [bridge])
  {
    MappingStep(start.mapping, host, bridges, bridge);
  }

  lemma MappingStep(mapping: string, host: string, bridges: seq<string>, bridge: string)
    ensures SetupMapping(mapping, host, bridges + [bridge]) ==
            AppendEntry(SetupMapping(mapping, host, bridges), MappingEntry(host, bridge))
  {
    assert (bridges + [bridge])[..|bridges|] == bridges;
  }

  lemma RunTag(host: string, start: Net, before: seq<string>, bridge: string)
    ensures Run(host, start, TagCommands(before + [bridge])) ==
            match Run(host, start, TagCommands(before))
            case None => None
            case Some(m) => AdoptBridge(m, bridge, AppendEntry(m.mapping, MappingEntry(host, bridge)))
  {
    var script := TagCommands(before + [bridge]);
    assert script[..|before|] == TagCommands(before) && script[|before|] == TagBridge(bridge);
  }

  /** Tagging succeeds exactly on bridges that exist. */
  ghost predicate TagOutcome(host: string, start: Net, given: seq<string>, end: Option<Net>)
  {
    && (end.Some? <==> AllPresent(start, given))
    && (end.Some? ==> Tagged(host, start, end.value, given))
  }

  lemma {:induction false} TagsDone(host: string, start: Net, given: seq<string>)
    ensures TagOutcome(host, start, given, Run(host, start, TagCommands(given)))
  {
    if given != [] {
      var last := |given| - 1;
      TagsDone(host, start, given[..last]);
      assert given == given[..last] + [given[last]];
      OneMoreTag(host, start, given[..last], given[last]);
    }
  }

  lemma OneMoreTag(host: string, start: Net, before: seq<string>, bridge: string)
    requires TagOutcome(host, start, before, Run(host, start, TagCommands(before)))
    ensures TagOutcome(host, start, before + [bridge], Run(host, start, TagCommands(before + [bridge])))
  {
    RunTag(host, start, before, bridge);
    assert AllPresent(start, before + [bridge]) <==> AllPresent(start, before) && bridge in start.bridges;
    var m := Run(host, start, TagCommands(before));
    if m.Some? {
      TagStep(host, start, m.value, before, bridge);
    }
  }

  ghost predicate Tagged(host: string, start: Net, n: Net, given: seq<string>)
  {
    Mapped(host, start, n, given) && Untouched(start, n) && n.bridges.Keys == start.bridges.Keys
  }

  lemma TagStep(host: string, start: Net, m: Net, given: seq<string>, bridge: string)
    requires Tagged(host, start, m, given)
    ensures var end := AdoptBridge(m, bridge, AppendEntry(m.mapping, MappingEntry(host, bridge)));
            && (end.Some? <==> bridge in start.bridges)
            && (end.Some? ==> Tagged(host, start, end.value, given + [bridge]))
  {
    MappingStep(start.mapping, host, given, bridge);
  }

  /** The router and one switch for each of the bridges are there, and nothing else has changed. */
  ghost predicate Networked(host: string, start: Net, n: Net, bridges: seq<string>)
  {
    && NetworksInPlace(host, n, bridges)
    && n == start.(routers := start.routers + {LrName(host)}, switches := n.switches)
    && n.switches.Keys == start.switches.Keys + SwitchNames(host, bridges)
  }

  function SwitchNames(host: string, bridges: seq<string>): set<string>
  {
    set b | b in bridges :: LsName(host, b)
  }

  lemma {:induction false} NetworksDone(host: string, start: Net, bridges: seq<string>)
    ensures Run(host, start, NetworkCommands(bridges)).Some? <==> NetworksReady(start, host, bridges)
    ensures Run(host, start, NetworkCommands(bridges)).Some? ==>
              Networked(host, start, Run(host, start, NetworkCommands(bridges)).value, bridges)
  {
    if bridges == [] {
      assert NetworkCommands(bridges)[..0] == [];
    } else {
      var last := |bridges| - 1;
      var before, bridge := bridges[..last], bridges[last];
      NetworksDone(host, start, before);
      assert bridges == before + [bridge];
      ReadyStep(start, host, before, bridge);
      RunNetwork(host, start, before, bridge);
      var m := Run(host, start, NetworkCommands(before));
      if m.Some? {
        NetworkStep(host, start, m.value, before, bridge);
      }
    }
  }

  lemma RunNetwork(host: string, start: Net, before: seq<string>, bridge: string)
    ensures Run(host, start, NetworkCommands(before + [bridge])) ==
            match Run(host, start, NetworkCommands(before)) case None => None case Some(m) => AddNetwork(m, host, bridge)
  {
    var script := NetworkCommands(before + [bridge]);
    assert script[..|before| + 1] == NetworkCommands(before);
    assert script[|before| + 1] == CreateNetwork(bridge);
  }

  lemma ReadyStep(n: Net, host: string, before: seq<string>, bridge: string)
    ensures NetworksReady(n, host, before + [bridge]) <==>
            NetworksReady(n, host, before) && bridge !in before && LsName(host, bridge) !in n.switches
  {
    DistinctStep(before + [bridge]);
    assert (before + [bridge])[..|before|] == before;
  }

  lemma NetworkStep(host: string, start: Net, m: Net, before: seq<string>, bridge: string)
    requires Networked(host, start, m, before)
    ensures var end := AddNetwork(m, host, bridge);
            && (end.Some? <==> bridge !in before && LsName(host, bridge) !in start.switches)
            && (end.Some? ==> Networked(host, start, end.value, before + [bridge]))
  {
    SwitchNamesStep(host, before, bridge);
  }

  lemma SwitchNamesStep(host: string, before: seq<string>, bridge: string)
    ensures LsName(host, bridge) in SwitchNames(host, before) <==> bridge in before
    ensures SwitchNames(host, before + [bridge]) == SwitchNames(host, before) + {LsName(host, bridge)}
  {
    forall b | b in before ensures LsName(host, b) == LsName(host, bridge) <==> b == bridge {
      SwitchNameInjective(host, b, bridge);
    }
    forall b | b in before + [bridge] ensures LsName(host, b) in SwitchNames(host, before) + {LsName(host, bridge)} {
    }
  }

  /** Only the file and ports change, and no port moves to another bridge. */
  ghost predicate RedirectKeeps(start: Net, n: Net)
  {
    && n == start.(ports := n.ports, netplan := n.netplan)
    && (forall p | p in start.ports :: p in n.ports && n.ports[p].bridge == start.ports[p].bridge)
    && (forall p | p in n.ports && p !in start.ports :: n.ports[p].bridge == "br-int")
  }

  ghost predicate AllPorts(n: Net, bridges: seq<string>)
  {
    forall b | b in bridges :: Veth.BridgeSide(b) in n.ports
  }

  /** The redirect stage always succeeds by itself: its ports come from the file it has applied. */
  lemma RedirectDone(host: string, start: Net, bridges: seq<string>)
    ensures var end := Run(host, start, RedirectCommands(bridges));
            end.Some? && RedirectKeeps(start, end.value) && RedirectInPlace(end.value, bridges)
  {
    RedirectPrefix(host, start, bridges, |bridges|);
    assert RedirectCommands(bridges)[..|bridges| + 2] == RedirectCommands(bridges);
    assert bridges[..|bridges|] == bridges;
  }

  lemma {:induction false} RedirectPrefix(host: string, start: Net, bridges: seq<string>, k: nat)
    requires k <= |bridges|
    ensures var end := Run(host, start, RedirectCommands(bridges)[..k + 2]);
            end.Some? && RedirectSoFar(start, end.value, bridges, bridges[..k])
  {
    var script := RedirectCommands(bridges);
    if k == 0 {
      RunNext(host, start, script, 0);
      RunNext(host, start, script, 1);
      FileApplied(start, bridges);
    } else {
      RedirectPrefix(host, start, bridges, k - 1);
      RunNext(host, start, script, k + 1);
      RedirectAt(bridges, k - 1);
      assert bridges[..k] == bridges[..k - 1] + [bridges[k - 1]];
      PortStep(start, Run(host, start, script[..k + 1]).value, bridges, bridges[..k - 1], bridges[k - 1]);
    }
  }

  ghost predicate RedirectSoFar(start: Net, n: Net, bridges: seq<string>, tagged: seq<string>)
  {
    RedirectKeeps(start, n) && AllPorts(n, bridges) && RedirectInPlace(n, tagged)
  }

  lemma NetworkAt(bridges: seq<string>, k: nat)
    requires k < |bridges|
    ensures |NetworkCommands(bridges)| == |bridges| + 1
    ensures NetworkCommands(bridges)[k + 1] == CreateNetwork(bridges[k])
  {
  }

  lemma RedirectAt(bridges: seq<string>, k: nat)
    requires k < |bridges|
    ensures |RedirectCommands(bridges)| == |bridges| + 2
    ensures RedirectCommands(bridges)[k + 2] == TagRedirectPort(bridges[k])
  {
  }

  lemma FileApplied(start: Net, bridges: seq<string>)
    ensures RedirectSoFar(start, ApplyNetplan(WriteNetplan(start, bridges)), bridges, [])
  {
  }

  lemma PortStep(start: Net, m: Net, bridges: seq<string>, before: seq<string>, bridge: string)
    requires RedirectSoFar(start, m, bridges, before) && bridge in bridges
    ensures var end := TagPort(m, Veth.BridgeSide(bridge));
            end.Some? && RedirectSoFar(start, end.value, bridges, before + [bridge])
  {
  }

  /** The script runs through exactly on a host that is ready for it, and then everything is in place. */
  lemma ScriptDone(host: string, start: Net, p: Plan)
    requires PlannedBridges(p) != []
    ensures Run(host, start, Script(p)).Some? <==>
            BridgesReady(start, p) && NetworksReady(start, host, PlannedBridges(p))
    ensures Run(host, start, Script(p)).Some? ==>
              Provisioned(host, start, Run(host, start, Script(p)).value, p)
  {
    var bridges := PlannedBridges(p);
    var s1, s2, s3, s4 := BridgeCommands(p), NetworkCommands(bridges), RedirectCommands(bridges), BirdCommands(p);
    RunConcat(host, start, s1, s2 + (s3 + s4));
    BridgesDone(host, start, p);
    var r1 := Run(host, start, s1);
    if r1.Some? {
      RunConcat(host, r1.value, s2, s3 + s4);
      NetworksDone(host, r1.value, bridges);
      var r2 := Run(host, r1.value, s2);
      if r2.Some? {
        RunConcat(host, r2.value, s3, s4);
        RedirectDone(host, r2.value, bridges);
        var r3 := Run(host, r2.value, s3);
        BirdDone(host, r3.value, p);
      }
    }
  }

  lemma BridgesDone(host: string, start: Net, p: Plan)
    ensures Run(host, start, BridgeCommands(p)).Some? <==> BridgesReady(start, p)
    ensures Run(host, start, BridgeCommands(p)).Some? ==>
              var end := Run(host, start, BridgeCommands(p)).value;
              && Mapped(host, start, end, PlannedBridges(p)) && Untouched(start, end)
              && (p.given == [] ==> Plugged(end, p.connections))
  {
    if p.given != [] {
      TagsDone(host, start, p.given);
    } else {
      AddsSucceed(host, start, p.connections);
      if Run(host, start, AddCommands(p.connections)).Some? {
        AddsDone(host, start, p.connections);
      }
    }
  }

  lemma BirdDone(host: string, n: Net, p: Plan)
    ensures Run(host, n, BirdCommands(p)) == Some(n.(birdConfigured := n.birdConfigured || !p.manualBgpd))
  {
    if p.manualBgpd {
      assert n.(birdConfigured := n.birdConfigured || !p.manualBgpd) == n;
    } else {
      var script := BirdCommands(p);
      RunNext(host, n, script, 0);
      assert script[..1] == script && script[..0] == [];
    }
  }

  // ---- When the mapping is recorded ----

  lemma ExecRecords(host: string, n: Net, command: Command)
    requires Exec(host, n, command).Some?
    ensures command.AddBridge? || command.TagBridge? || n.recorded != "" ==> Exec(host, n, command).value.recorded != ""
  {
  }

  /** The record exists as soon as the first command has run. */
  lemma {:induction false} RecordedIff(host: string, start: Net, p: Plan, k: nat)
    requires start.recorded == "" && PlannedBridges(p) != []
    requires k <= |Script(p)| && Run(host, start, Script(p)[..k]).Some?
    ensures Run(host, start, Script(p)[..k]).value.recorded == "" <==> k == 0
  {
    if k > 0 {
      RunNext(host, start, Script(p), k - 1);
      var m := Run(host, start, Script(p)[..k - 1]).value;
      if k == 1 {
        FirstCommand(p);
      } else {
        RecordedIff(host, start, p, k - 1);
      }
      ExecRecords(host, m, Script(p)[k - 1]);
    }
  }

  lemma FirstCommand(p: Plan)
    requires PlannedBridges(p) != []
    ensures Script(p) != [] && (Script(p)[0].AddBridge? || Script(p)[0].TagBridge?)
  {
    PlannedCount(p);
    assert BridgeCommands(p)[0].AddBridge? || BridgeCommands(p)[0].TagBridge?;
    assert Script(p)[0] == BridgeCommands(p)[0];
  }

  // ---- What an enabled host looks like ----

  /** The bridge is there and tagged; the switch of this host for it is connected to a physical network
      that the mapping connects to that very bridge; and its redirect port is tagged. */
  ghost predicate Redirected(host: string, n: Net, bridge: string)
  {
    && bridge in n.bridges && n.bridges[bridge]
    && LsName(host, bridge) in n.switches && n.switches[LsName(host, bridge)].tagged
    && MapsTo(n.mapping, n.switches[LsName(host, bridge)].network, bridge)
    && Veth.BridgeSide(bridge) in n.ports && n.ports[Veth.BridgeSide(bridge)].tagged
  }

  /** After the whole script every given bridge, or else the new bridge of every interface, is redirected,
      and networks that were mapped before still are. */
  lemma EnabledMeans(host: string, start: Net, n: Net, p: Plan)
    requires PlannedBridges(p) != [] && Run(host, start, Script(p)) == Some(n)
    requires ',' !in host && ':' !in host && CommaFree(PlannedBridges(p)) && ColonFree(PlannedBridges(p))
    ensures LrName(host) in n.routers && n.recorded == n.mapping
    ensures forall b | b in p.given :: Redirected(host, n, b)
    ensures p.given == [] ==>
              forall i | i in p.connections ::
                Redirected(host, n, "br-" + i) && i in n.ports && n.ports[i].bridge == "br-" + i
    ensures forall network, bridge ::
              MapsTo(n.mapping, network, bridge) <==>
              || MapsTo(start.mapping, network, bridge)
              || (bridge in PlannedBridges(p) && network == "physnet_" + host + "_" + bridge)
  {
    ScriptDone(host, start, p);
    var planned := PlannedBridges(p);
    forall network, bridge
      ensures MapsTo(n.mapping, network, bridge) <==>
              || MapsTo(start.mapping, network, bridge)
              || (bridge in planned && network == "physnet_" + host + "_" + bridge)
    {
      SetupReads(start.mapping, host, planned, network, bridge);
    }
    forall b | b in planned ensures Redirected(host, n, b) {
      assert MapsTo(n.mapping, "physnet_" + host + "_" + b, b);
    }
    PlannedAre(p);
  }

  lemma PlannedAre(p: Plan)
    ensures forall b | b in p.given :: b in PlannedBridges(p)
    ensures p.given == [] ==> forall i | i in p.connections :: "br-" + i in PlannedBridges(p)
  {
    if p.given == [] {
      forall i | i in p.connections ensures "br-" + i in PlannedBridges(p) {
        var k :| 0 <= k < |p.connections| && p.connections[k] == i;
        assert PlannedBridges(p)[k] == "br-" + i;
      }
    }
  }
}
