/** Enabling and disabling BGP on one host. Enabling is a sequence of commands, each of which may fail;
    after the first failure everything is torn down again. */
module BgpService {
  import opened Prelude
  import opened BgpNames
  import opened BridgeMapping
  import opened Text
  import opened BgpConfig
  import opened BgpResources
  import opened BgpSetup
  import Veth

  datatype Error = InvalidConfig(invalid: Invalid) | SetupFailed

  function PlanOf(c: Config): Plan
  {
    Plan(ParseNames(c.bridge), ParseNames(c.externalConnection), c.manualBgpd)
  }

  function ScriptOf(config: Option<Config>): seq<Command>
  {
    match config case None => [] case Some(c) => Script(PlanOf(c))
  }

  /** What the host must offer, and what the user must have asked for. */
  ghost predicate Enabling(host: string, n: Net, config: Option<Config>)
  {
    config.Some? ==> var c := config.value;
                     Validate(c) == None && BridgesReady(n, PlanOf(c)) && NetworksReady(n, host, PlannedBridges(PlanOf(c)))
  }

  /** The state after a failed enable: some prefix of the script ran, and then the teardown. */
  ghost predicate RolledBack(host: string, start: Net, script: seq<Command>, n: Net, f: Faults)
  {
    exists reached :: Reached(host, start, script, reached) && n == TornDown(host, reached, f)
  }

  /** What the user asked for: the given bridges, or else a new bridge for every interface, are managed and
      connected to switches of this host, and the daemon is configured unless the user wants to do it. */
  ghost predicate Serves(host: string, n: Net, c: Config)
  {
    && LrName(host) in n.routers
    && (forall b | b in ParseNames(c.bridge) :: Managed(host, n, b))
    && (ParseNames(c.bridge) == [] ==>
          forall i | i in ParseNames(c.externalConnection) ::
            Managed(host, n, "br-" + i) && i in n.ports && n.ports[i].bridge == "br-" + i)
    && (!c.manualBgpd ==> n.birdConfigured)
  }

  ghost predicate Managed(host: string, n: Net, b: string)
  {
    && b in n.bridges && n.bridges[b]
    && LsName(host, b) in n.switches && n.switches[LsName(host, b)].tagged
    && "v" + b + "-brg" in n.ports && n.ports["v" + b + "-brg"].tagged
  }

  class Host {
    const name: string
    const partialApply: bool     // whether a failing "netplan apply" has created the ports already
    var net: Net
    var birdRunning: bool
    var budget: Option<nat>      // how many commands of setup still succeed; None when all do

    constructor (name: string, partialApply: bool, net: Net, budget: Option<nat>)
      ensures this.name == name && this.partialApply == partialApply && this.net == net
      ensures this.budget == budget && !birdRunning
    {
      this.name, this.partialApply, this.net, this.budget := name, partialApply, net, budget;
      birdRunning := false;
    }

    /** One external command that changes nothing of the model. */
    method Attempt() returns (ok: bool)
      modifies this`budget
      ensures ok <==> old(budget) != Some(0)
      ensures old(budget) == None ==> budget == None
    {
      if budget == Some(0) {
        return false;
      }
      if budget.Some? {
        budget := Some(budget.value - 1);
      }
      ok := true;
    }

    /** One transaction with the given result; None when the host refuses it. */
    method Transact(result: Option<Net>) returns (ok: bool)
      modifies this`net, this`budget
      ensures ok ==> result == Some(net)
      ensures !ok ==> net == old(net) && (old(budget) == None ==> result == None)
      ensures old(budget) == None ==> budget == None
    {
      ok := Attempt();
      match result
      case None => ok := false;
      case Some(n) =>
        if ok {
          net := n;
        }
    }

    /** The loop reads the mapping again for every connection. */
    method CreateExternalBridges(ifaces: seq<string>) returns (ok: bool, bridges: seq<string>)
      modifies this`net, this`budget
      ensures Outcome(name, old(net), AddCommands(ifaces), net, ok, old(budget) == None)
      ensures ok ==> bridges == ExternalBridges(ifaces)
      ensures old(budget) == None ==> budget == None
    {
      ghost var script := AddCommands(ifaces);
      bridges := [];
      for k := 0 to |ifaces|
        invariant bridges == ExternalBridges(ifaces)[..k]
        invariant Run(name, old(net), script[..k]) == Some(net)
        invariant old(budget) == None ==> budget == None
      {
        RunNext(name, old(net), script, k);
        var bridge := ExternalBridgeName(ifaces[k]);
        var found := Attempt();
        if found {
          bridges := bridges + [bridge];
          ok := Transact(AddExternalBridge(net, name, bridge, ifaces[k]));
        }
        if !found || !ok {
          StageStops(name, old(net), script, net, k, old(budget) == None);
          return false, bridges;
        }
      }
      StageEnds(name, old(net), script, net, old(budget) == None);
      ok := true;
    }

    /** Here the mapping is read once and extended locally. */
    method CreateBridgeNetworks(given: seq<string>) returns (ok: bool)
      modifies this`net, this`budget
      ensures Outcome(name, old(net), TagCommands(given), net, ok, old(budget) == None)
      ensures old(budget) == None ==> budget == None
    {
      ghost var script := TagCommands(given);
      ok := Attempt();
      if !ok {
        StageStops(name, old(net), script, net, 0, false);
        return;
      }
      var bridgeMap := net.mapping;
      for k := 0 to |given|
        invariant bridgeMap == net.mapping
        invariant Run(name, old(net), script[..k]) == Some(net)
        invariant old(budget) == None ==> budget == None
      {
        RunNext(name, old(net), script, k);
        bridgeMap := AppendEntry(bridgeMap, MappingEntry(name, given[k]));
        ok := Transact(AdoptBridge(net, given[k], bridgeMap));
        if !ok {
          StageStops(name, old(net), script, net, k, old(budget) == None);
          return;
        }
      }
      StageEnds(name, old(net), script, net, old(budget) == None);
      ok := true;
    }

    method CreateExternalNetworks(bridges: seq<string>) returns (ok: bool)
      modifies this`net, this`budget
      ensures Outcome(name, old(net), NetworkCommands(bridges), net, ok, old(budget) == None)
      ensures old(budget) == None ==> budget == None
    {
      RunNext(name, old(net), NetworkCommands(bridges), 0);
      ok := Transact(AddRouter(net, LrName(name)));
      if ok {
        ok := ConnectNetworks(bridges, old(net));
      } else {
        StageStops(name, old(net), NetworkCommands(bridges), net, 0, old(budget) == None);
      }
    }

    /** One logical switch for each bridge, connected to the router. */
    method ConnectNetworks(bridges: seq<string>, ghost start: Net) returns (ok: bool)
      requires Run(name, start, NetworkCommands(bridges)[..1]) == Some(net)
      modifies this`net, this`budget
      ensures Outcome(name, start, NetworkCommands(bridges), net, ok, old(budget) == None)
      ensures old(budget) == None ==> budget == None
    {
      ghost var script := NetworkCommands(bridges);
      for k := 0 to |bridges|
        invariant Run(name, start, script[..k + 1]) == Some(net)
        invariant old(budget) == None ==> budget == None
      {
        NetworkAt(bridges, k);
        RunNext(name, start, script, k + 1);
        ok := Transact(AddNetwork(net, name, bridges[k]));
        if !ok {
          StageStops(name, start, script, net, k + 1, old(budget) == None);
          return;
        }
      }
      StageEnds(name, start, script, net, old(budget) == None);
      ok := true;
    }

    /** Only options are set. */
    method CreateVrf(bridges: seq<string>) returns (ok: bool)
      modifies this`budget
      ensures old(budget) == None ==> ok && budget == None
    {
      var kernelModule := Attempt();
      if !kernelModule {
        return false;
      }
      ok := Attempt();
      for k := 0 to |bridges|
        invariant old(budget) == None ==> ok && budget == None
      {
        if !ok {
          return;
        }
        ok := Attempt();
      }
    }

    /** The virtual Ethernet pairs come from a netplan file; applying it may fail half-way. */
    method GenerateVeth(bridges: seq<string>) returns (ok: bool)
      modifies this`net, this`budget
      ensures exists k :: 0 <= k <= 2 && Run(name, old(net), RedirectCommands(bridges)[..k]) == Some(net)
      ensures ok ==> Run(name, old(net), RedirectCommands(bridges)[..2]) == Some(net)
      ensures old(budget) == None ==> ok && budget == None
    {
      ghost var script := RedirectCommands(bridges);
      RunNext(name, old(net), script, 0);
      RunNext(name, old(net), script, 1);
      ok := Attempt();
      if !ok {
        return;
      }
      ok := Transact(Some(WriteNetplan(net, bridges)));
      if !ok {
        return;
      }
      assert Run(name, old(net), script[..1]) == Some(net);
      ok := Attempt();
      if ok || partialApply {
        net := ApplyNetplan(net);
        assert Run(name, old(net), script[..2]) == Some(net);
      }
      if ok {
        ok := BringUp(bridges);
      }
    }

    /** Two link commands for every interface. */
    method BringUp(bridges: seq<string>) returns (ok: bool)
      modifies this`budget
      ensures old(budget) == None ==> ok && budget == None
    {
      ok := true;
      for k := 0 to |bridges|
        invariant old(budget) == None ==> ok && budget == None
      {
        if ok {
          ok := Attempt();
        }
        if ok {
          ok := Attempt();
        }
      }
    }

    method RedirectBgp(bridges: seq<string>) returns (ok: bool)
      modifies this`net, this`budget
      ensures Outcome(name, old(net), RedirectCommands(bridges), net, ok, old(budget) == None)
      ensures old(budget) == None ==> budget == None
    {
      ok := GenerateVeth(bridges);
      if ok {
        ok := RedirectPorts(bridges, old(net));
      } else {
        ghost var k :| 0 <= k <= 2 && Run(name, old(net), RedirectCommands(bridges)[..k]) == Some(net);
        StageStops(name, old(net), RedirectCommands(bridges), net, k, false);
      }
    }

    /** One logical switch port and one tagged OVS port for each bridge. */
    method RedirectPorts(bridges: seq<string>, ghost start: Net) returns (ok: bool)
      requires Run(name, start, RedirectCommands(bridges)[..2]) == Some(net)
      modifies this`net, this`budget
      ensures Outcome(name, start, RedirectCommands(bridges), net, ok, old(budget) == None)
      ensures old(budget) == None ==> budget == None
    {
      ghost var script := RedirectCommands(bridges);
      for k := 0 to |bridges|
        invariant Run(name, start, script[..k + 2]) == Some(net)
        invariant old(budget) == None ==> budget == None
      {
        RedirectAt(bridges, k);
        RunNext(name, start, script, k + 2);
        var switchPort := Attempt();
        if switchPort {
          ok := Transact(TagPort(net, Veth.BridgeSide(bridges[k])));
        }
        if !switchPort || !ok {
          StageStops(name, start, script, net, k + 2, old(budget) == None);
          return false;
        }
      }
      StageEnds(name, start, script, net, old(budget) == None);
      ok := true;
    }

    /** The daemon is configured unless the user wants to do it; the router id is taken from the first
        bridge. */
    method ConfigureBird(p: Plan, asn: string, bridges: seq<string>) returns (ok: bool)
      requires bridges != []
      modifies this`net, this`budget
      ensures Outcome(name, old(net), BirdCommands(p), net, ok, old(budget) == None)
      ensures old(budget) == None ==> budget == None
    {
      ghost var script := BirdCommands(p);
      if p.manualBgpd {
        StageEnds(name, old(net), script, net, old(budget) == None);
        return true;
      }
      RunNext(name, old(net), script, 0);
      ok := true;
      if asn == "" {
        ok := Attempt();
      }
      if ok {
        ok := Attempt();
      }
      if !ok {
        StageStops(name, old(net), script, net, 0, false);
        return;
      }
      // The file is written before the daemon is told to read it.
      net := net.(birdConfigured := true);
      StageEnds(name, old(net), script, net, old(budget) == None);
      ok := Attempt();
    }

    method CreateBridges(c: Config) returns (ok: bool, bridges: seq<string>)
      modifies this`net, this`budget
      ensures Outcome(name, old(net), BridgeCommands(PlanOf(c)), net, ok, old(budget) == None)
      ensures ok ==> bridges == PlannedBridges(PlanOf(c))
      ensures old(budget) == None ==> budget == None
    {
      var extConnections := ParseNameList(c.externalConnection);
      if c.vrf == "" {
        var vrfFound := Attempt();
        if !vrfFound {
          StageStops(name, old(net), BridgeCommands(PlanOf(c)), net, 0, false);
          return false, [];
        }
      }
      bridges := ParseNameList(c.bridge);
      if bridges == [] {
        ok, bridges := CreateExternalBridges(extConnections);
      } else {
        ok := CreateBridgeNetworks(bridges);
      }
    }

    /** Everything after the start of the daemon. */
    method Setup(c: Config) returns (ok: bool)
      requires Validate(c) == None
      modifies this`net, this`budget
      ensures Outcome(name, old(net), Script(PlanOf(c)), net, ok, old(budget) == None)
    {
      PlannedIsNotEmpty(c);
      var bridges;
      ok, bridges := CreateBridges(c);
      ghost var rest := NetworkCommands(PlannedBridges(PlanOf(c))) + FinalCommands(PlanOf(c), PlannedBridges(PlanOf(c)));
      if !ok {
        FirstStageFails(name, old(net), BridgeCommands(PlanOf(c)), rest, net, old(budget) == None);
        return;
      }
      ghost var n1 := net;
      ok := SetupNetworks(PlanOf(c), c.asn, bridges);
      SecondStage(name, old(net), BridgeCommands(PlanOf(c)), rest, n1, net, ok, old(budget) == None);
    }

    method SetupNetworks(p: Plan, asn: string, bridges: seq<string>) returns (ok: bool)
      requires bridges != []
      modifies this`net, this`budget
      ensures Outcome(name, old(net), NetworkCommands(bridges) + FinalCommands(p, bridges), net, ok, old(budget) == None)
    {
      ghost var stage, rest := NetworkCommands(bridges), FinalCommands(p, bridges);
      ok := CreateExternalNetworks(bridges);
      if !ok {
        FirstStageFails(name, old(net), stage, rest, net, old(budget) == None);
        return;
      }
      ghost var n2 := net;
      ok := CreateVrf(bridges);
      if !ok {
        StageStops(name, n2, rest, net, 0, false);
      } else {
        ok := SetupRedirect(p, asn, bridges);
      }
      SecondStage(name, old(net), stage, rest, n2, net, ok, old(budget) == None);
    }

    method SetupRedirect(p: Plan, asn: string, bridges: seq<string>) returns (ok: bool)
      requires bridges != []
      modifies this`net, this`budget
      ensures Outcome(name, old(net), FinalCommands(p, bridges), net, ok, old(budget) == None)
    {
      ok := RedirectBgp(bridges);
      if !ok {
        FirstStageFails(name, old(net), RedirectCommands(bridges), BirdCommands(p), net, old(budget) == None);
        return;
      }
      ghost var n3 := net;
      ok := ConfigureBird(p, asn, bridges);
      SecondStage(name, old(net), RedirectCommands(bridges), BirdCommands(p), n3, net, ok, old(budget) == None);
    }

    /** Enable. An invalid configuration changes nothing at all. Success means that the whole script ran,
        and without a failing command it is reached exactly on a host that is ready. Any failure, at
        whatever command, is followed by a teardown. */
    method EnableService(config: Option<Config>, f: Faults, stopFails: bool) returns (err: Option<Error>)
      modifies this`net, this`budget, this`birdRunning
      ensures config.Some? && Validate(config.value).Some? ==>
                err == Some(InvalidConfig(Validate(config.value).value)) && net == old(net) && birdRunning == old(birdRunning)
      ensures err == None ==> birdRunning && Run(name, old(net), ScriptOf(config)) == Some(net)
      ensures err == None && config == None ==> net == old(net)
      ensures err == None && config.Some? ==> Serves(name, net, config.value)
      ensures err == Some(SetupFailed) ==>
                RolledBack(name, old(net), ScriptOf(config), net, f) && (birdRunning ==> stopFails)
      ensures old(budget) == None ==> (err == None <==> Enabling(name, old(net), config))
    {
      if config.Some? {
        var invalid := Validate(config.value);
        if invalid.Some? {
          return Some(InvalidConfig(invalid.value));
        }
      }
      ghost var start := net;
      var ok := Attempt();
      if ok {
        birdRunning := true;
        if config == None {
          return None;
        }
        PlannedIsNotEmpty(config.value);
        ScriptDone(name, start, PlanOf(config.value));
        ok := Setup(config.value);
      } else {
        assert Run(name, start, ScriptOf(config)[..0]) == Some(net);
      }
      if ok {
        OptionsServed(name, start, net, config.value);
        return None;
      }
      ghost var reached := net;
      assert Reached(name, start, ScriptOf(config), reached);
      var _ := DisableService(f, stopFails);
      err := Some(SetupFailed);
    }

    /** Disable: stop the daemon and tear everything down, whatever fails on the way. */
    method DisableService(f: Faults, stopFails: bool) returns (clean: bool)
      modifies this`net, this`birdRunning
      ensures net == TornDown(name, old(net), f)
      ensures birdRunning == (old(birdRunning) && stopFails)
      ensures clean <==> !stopFails && AllWorks(name, old(net), f)
    {
      if !stopFails {
        birdRunning := false;
      }
      var torn := TeardownAll(f);
      clean := !stopFails && torn;
    }

    /** Everything that belongs to this host is removed, stage by stage; a failing stage is remembered
        and the others still run. */
    method TeardownAll(f: Faults) returns (clean: bool)
      modifies this`net
      ensures net == TornDown(name, old(net), f)
      ensures clean <==> AllWorks(name, old(net), f)
    {
      NetworkStages(name, net, f);
      DeviceStages(net, WithoutNetworks(name, net, f), f);
      var networks := RemoveNetworks(f);
      ghost var n1 := net;
      var devices := RemoveDevices(f);
      ghost var n2 := net;
      var mapping := RemoveMapping(f);
      if !f.mappingLookup && !f.bird {
        net := net.(birdConfigured := false);
      }
      clean := networks && devices && mapping && !f.bird;
      CleanParts(name, old(net), n1, n2, f);
    }

    method RemoveNetworks(f: Faults) returns (clean: bool)
      modifies this`net
      ensures net == WithoutNetworks(name, old(net), f)
      ensures clean <==>
              && !f.router && LrName(name) in old(net).routers && (old(net).netplan == None || f.netplan == Works)
              && !f.switchLookup && OwnSwitches(name, old(net)) !! f.switches
    {
      // Deleting a router that does not exist is an error without effect.
      clean := !f.router && LrName(name) in net.routers;
      RouterGone(name, net, f);
      if !f.router && LrName(name) in net.routers {
        net := net.(routers := net.routers - {LrName(name)});
      }
      var cleaned := CleanupNetplan(f);
      clean := clean && cleaned;
      assert OwnSwitches(name, net) == OwnSwitches(name, old(net));
      if f.switchLookup {
        clean := false;
        NoSwitchGone(net);
      } else {
        var deleted := DeleteOwnSwitches(f.switches);
        clean := clean && deleted;
      }
    }

    /** Nothing is to be done without a file. Otherwise it is moved away before anything else. */
    method CleanupNetplan(f: Faults) returns (clean: bool)
      modifies this`net
      ensures net == WithoutNetplan(old(net), f)
      ensures clean <==> old(net).netplan == None || f.netplan == Works
    {
      clean := net.netplan == None || f.netplan == Works;
      match net.netplan
      case None =>
        assert net.ports - {} == net.ports;
      case Some(listed) =>
        match f.netplan {
          case Works =>
            net := net.(netplan := None, ports := net.ports - listed);
          case NotMoved =>
            assert net.ports - {} == net.ports;
          case NotCleaned(gone) =>
            net := net.(netplan := None, ports := net.ports - listed * gone);
        }
    }

    method RemoveDevices(f: Faults) returns (clean: bool)
      modifies this`net
      ensures net == WithoutDevices(old(net), f)
      ensures clean <==>
              && !f.bridgeLookup && TaggedBridges(old(net)) !! f.bridges
              && !f.portLookup && TaggedPorts(WithoutBridgeSet(old(net), DeletedBridges(old(net), f))) !! f.ports
    {
      clean := !f.bridgeLookup && !f.portLookup;
      if f.bridgeLookup {
        NoBridgeGone(net);
      } else {
        var deleted := DeleteTaggedBridges(f.bridges);
        clean := clean && deleted;
      }
      if f.portLookup {
        NoPortGone(net);
      } else {
        var deleted := DeleteTaggedPorts(f.ports);
        clean := clean && deleted;
      }
    }

    method RemoveMapping(f: Faults) returns (clean: bool)
      modifies this`net
      ensures net == WithoutMapping(old(net), f)
      ensures clean <==>
              && !f.mappingLookup && !f.recordLookup && !f.recordRemoval
              && (old(net).mapping != "" && old(net).recorded != "" ==> !f.mappingUpdate)
    {
      if f.mappingLookup {
        return false;
      }
      clean := true;
      if f.recordLookup {
        clean := false;
      } else if net.mapping != "" && net.recorded != "" {
        var newMapping := RemoveRecorded(net.mapping, net.recorded);
        if f.mappingUpdate {
          clean := false;
        } else {
          net := net.(mapping := newMapping);
        }
      }
      if f.recordRemoval {
        clean := false;
      } else {
        net := net.(recorded := "");
      }
    }

    /** All tagged switches are listed, in any order; those of other hosts are passed over. A deletion
        that fails does not stop the loop. */
    method DeleteOwnSwitches(failing: set<string>) returns (clean: bool)
      modifies this`net
      ensures net == WithoutSwitchSet(old(net), OwnSwitches(name, old(net)) - failing)
      ensures clean <==> OwnSwitches(name, old(net)) !! failing
    {
      var found := AnyOrder(set s | s in net.switches && net.switches[s].tagged);
      ghost var own := OwnSwitches(name, net);
      ghost var seen: set<string> := {};
      clean := true;
      NoSwitchGone(net);
      for i := 0 to |found|
        invariant forall k | 0 <= k < i && BelongsToChassis(name, found[k]) :: found[k] in seen
        invariant seen <= own && (clean <==> seen !! failing)
        invariant net == WithoutSwitchSet(old(net), seen - failing)
      {
        if LsNameChassisMatch(name) <= found[i] {
          assert found[i] in found;
          OneMore(seen, failing, found[i]);
          if found[i] in failing {
            clean := false;
          } else {
            SwitchSetGrows(old(net), seen - failing, found[i]);
            net := WithoutSwitchSet(net, {found[i]});
          }
          seen := seen + {found[i]};
        }
      }
      assert seen == own by {
        assert forall s | s in own :: s in found;
      }
    }

    method DeleteTaggedBridges(failing: set<string>) returns (clean: bool)
      modifies this`net
      ensures net == WithoutBridgeSet(old(net), TaggedBridges(old(net)) - failing)
      ensures clean <==> TaggedBridges(old(net)) !! failing
    {
      var found := AnyOrder(TaggedBridges(net));
      ghost var seen: set<string> := {};
      clean := true;
      NoBridgeGone(net);
      for i := 0 to |found|
        invariant forall k | 0 <= k < i :: found[k] in seen
        invariant seen <= TaggedBridges(old(net)) && (clean <==> seen !! failing)
        invariant net == WithoutBridgeSet(old(net), seen - failing)
      {
        assert found[i] in found;
        OneMore(seen, failing, found[i]);
        if found[i] in failing {
          clean := false;
        } else {
          BridgeSetGrows(old(net), seen - failing, found[i]);
          net := WithoutBridgeSet(net, {found[i]});
        }
        seen := seen + {found[i]};
      }
      assert seen == TaggedBridges(old(net)) by {
        assert forall b | b in TaggedBridges(old(net)) :: b in found;
      }
    }

    method DeleteTaggedPorts(failing: set<string>) returns (clean: bool)
      modifies this`net
      ensures net == WithoutPortSet(old(net), TaggedPorts(old(net)) - failing)
      ensures clean <==> TaggedPorts(old(net)) !! failing
    {
      var found := AnyOrder(TaggedPorts(net));
      ghost var seen: set<string> := {};
      clean := true;
      NoPortGone(net);
      for i := 0 to |found|
        invariant forall k | 0 <= k < i :: found[k] in seen
        invariant seen <= TaggedPorts(old(net)) && (clean <==> seen !! failing)
        invariant net == WithoutPortSet(old(net), seen - failing)
      {
        assert found[i] in found;
        OneMore(seen, failing, found[i]);
        if found[i] in failing {
          clean := false;
        } else {
          PortSetGrows(old(net), seen - failing, found[i]);
          net := WithoutPortSet(net, {found[i]});
        }
        seen := seen + {found[i]};
      }
      assert seen == TaggedPorts(old(net)) by {
        assert forall p | p in TaggedPorts(old(net)) :: p in found;
      }
    }
  }

  /** One more name was tried. */
  lemma OneMore(seen: set<string>, failing: set<string>, x: string)
    ensures x in failing ==> seen + {x} - failing == seen - failing
    ensures x !in failing ==> seen + {x} - failing == seen - failing + {x}
    ensures seen + {x} !! failing <==> seen !! failing && x !in failing
  {
    assert x in failing ==> x in (seen + {x}) * failing;
    assert forall y | y in seen :: y in seen + {x};
  }

  lemma OptionsServed(host: string, start: Net, n: Net, c: Config)
    requires Validate(c) == None && Run(host, start, Script(PlanOf(c))) == Some(n)
    ensures Serves(host, n, c)
  {
    var p := PlanOf(c);
    PlannedIsNotEmpty(c);
    ScriptDone(host, start, p);
    PlannedAre(p);
    forall b | b in PlannedBridges(p) ensures Managed(host, n, b) {
      assert Veth.BridgeSide(b) == "v" + b + "-brg";
    }
  }

  /** A valid configuration plans at least one bridge. */
  lemma PlannedIsNotEmpty(c: Config)
    requires Validate(c) == None
    ensures PlannedBridges(PlanOf(c)) != []
  {
    assert HasNames(c);
    PlannedCount(PlanOf(c));
  }

  /** The three parts of a teardown work exactly when all of it does. */
  lemma CleanParts(host: string, n: Net, n1: Net, n2: Net, f: Faults)
    requires n1 == WithoutNetworks(host, n, f) && n2 == WithoutDevices(n1, f)
    ensures AllWorks(host, n, f) <==>
            && !f.router && LrName(host) in n.routers && (n.netplan == None || f.netplan == Works)
            && !f.switchLookup && OwnSwitches(host, n) !! f.switches
            && !f.bridgeLookup && TaggedBridges(n1) !! f.bridges
            && !f.portLookup && TaggedPorts(WithoutBridgeSet(n1, DeletedBridges(n1, f))) !! f.ports
            && !f.mappingLookup && !f.recordLookup && !f.recordRemoval && !f.bird
            && (n2.mapping != "" && n2.recorded != "" ==> !f.mappingUpdate)
  {
    NetworkStages(host, n, f);
    DeviceStages(n, n1, f);
    assert TaggedBridges(n1) == TaggedBridges(n);
    if !f.bridgeLookup && TaggedBridges(n) !! f.bridges {
      assert DeletedBridges(n1, f) == TaggedBridges(n);
      assert WithoutBridgeSet(n1, TaggedBridges(n)).ports == WithoutBridgeSet(WithoutNetplan(n, f), TaggedBridges(n)).ports;
    }
  }

  lemma RouterGone(host: string, n: Net, f: Faults)
    ensures LrName(host) !in n.routers ==> WithoutRouter(host, n, f) == n
  {
    assert LrName(host) !in n.routers ==> n.routers - {LrName(host)} == n.routers;
  }

  lemma NoSwitchGone(n: Net)
    ensures WithoutSwitchSet(n, {}) == n
    ensures forall x: set<string> :: WithoutSwitchSet(n, {} - x) == n
  {
    assert n.switches - {} == n.switches;
    assert forall x: set<string> :: {} - x == {};
  }

  lemma NoBridgeGone(n: Net)
    ensures WithoutBridgeSet(n, {}) == n
    ensures forall x: set<string> :: WithoutBridgeSet(n, {} - x) == n
  {
    assert n.bridges - {} == n.bridges;
    assert WithoutBridgeSet(n, {}).ports == n.ports;
    assert forall x: set<string> :: {} - x == {};
  }

  lemma NoPortGone(n: Net)
    ensures WithoutPortSet(n, {}) == n
    ensures forall x: set<string> :: WithoutPortSet(n, {} - x) == n
  {
    assert n.ports - {} == n.ports;
    assert forall x: set<string> :: {} - x == {};
  }

  lemma SwitchSetGrows(n: Net, gone: set<string>, s: string)
    ensures WithoutSwitchSet(WithoutSwitchSet(n, gone), {s}) == WithoutSwitchSet(n, gone + {s})
  {
    assert n.switches - gone - {s} == n.switches - (gone + {s});
  }

  lemma BridgeSetGrows(n: Net, gone: set<string>, b: string)
    ensures WithoutBridgeSet(WithoutBridgeSet(n, gone), {b}) == WithoutBridgeSet(n, gone + {b})
  {
    assert n.bridges - gone - {b} == n.bridges - (gone + {b});
  }

  lemma PortSetGrows(n: Net, gone: set<string>, p: string)
    ensures WithoutPortSet(WithoutPortSet(n, gone), {p}) == WithoutPortSet(n, gone + {p})
  {
    assert n.ports - gone - {p} == n.ports - (gone + {p});
  }

  /** The rows of a "find" command come in no particular order. */
  method AnyOrder(names: set<string>) returns (listed: seq<string>)
    ensures forall s :: s in listed <==> s in names
  {
    listed := [];
    var rest := names;
    while rest != {}
      invariant rest <= names
      invariant forall s :: s in listed <==> s in names && s !in rest
    {
      var s :| s in rest;
      rest := rest - {s};
      listed := listed + [s];
    }
  }

  /** Compensation, for every failure point of enable and any failing commands of the teardown that
      follows, from a host without tagged resources: of the state that setup had reached, exactly that
      is left which could not be deleted, and of the state before, everything but adopted bridges with
      their ports and the mapping. The script is empty when there are no options. */
  lemma FailureIsCompensated(host: string, start: Net, script: seq<Command>, p: Plan, n: Net, f: Faults)
    requires Untagged(host, start) && PortNamesFree(start, PlannedBridges(p))
    requires script <= Script(p) && RolledBack(host, start, script, n, f)
    ensures exists k :: 0 <= k <= |script| && RestoredAfter(host, start, script, p, k, n, f)
  {
    var reached :| Reached(host, start, script, reached) && n == TornDown(host, reached, f);
    var k :| 0 <= k <= |script| && Run(host, start, script[..k]) == Some(reached);
    assert script[..k] == Script(p)[..k];
    ReachedIsTraceable(host, start, p, reached);
    TeardownRestores(host, start, reached, HandedOver(p), Listing(p), f);
    assert RestoredAfter(host, start, script, p, k, n, f);
  }

  /** `n` is what a teardown makes of the state after the first `k` commands. */
  ghost predicate RestoredAfter(host: string, start: Net, script: seq<Command>, p: Plan, k: nat, n: Net, f: Faults)
    requires k <= |script|
  {
    var reached := Run(host, start, script[..k]);
    reached.Some? && Restored(start, reached.value, n, f) && Adopted(start, reached.value) <= HandedOver(p)
  }

  /** The state before, without the bridges `taken` and their ports, and with another mapping. */
  function Undone(start: Net, taken: set<string>, mapping: string): Net
  {
    start.(bridges := start.bridges - taken,
           ports := map port | port in start.ports && start.ports[port].bridge !in taken :: start.ports[port],
           mapping := mapping)
  }

  /** With an error-free teardown, a failed enable leaves the state before, except that the bridges that
      it got to tag are gone with their ports, and that the mapping is, unless the very first command
      failed. */
  lemma FailureIsUndone(host: string, start: Net, script: seq<Command>, p: Plan, n: Net)
    requires Untagged(host, start) && PortNamesFree(start, PlannedBridges(p)) && PlannedBridges(p) != []
    requires script <= Script(p) && RolledBack(host, start, script, n, NO_FAULTS)
    ensures exists k :: 0 <= k <= |script| && UndoneAfter(host, start, script, k, n)
  {
    FailureIsCompensated(host, start, script, p, n, NO_FAULTS);
    var k :| 0 <= k <= |script| && RestoredAfter(host, start, script, p, k, n, NO_FAULTS);
    assert script[..k] == Script(p)[..k];
    var reached := Run(host, start, script[..k]).value;
    RecordedIff(host, start, p, k);
    PrefixIsReached(host, start, p, k, reached);
    ReachedIsTraceable(host, start, p, reached);
    AllRestored(host, start, reached, n, HandedOver(p), Listing(p));
    assert UndoneAfter(host, start, script, k, n);
  }

  lemma PrefixIsReached(host: string, start: Net, p: Plan, k: nat, n: Net)
    requires k <= |Script(p)| && Run(host, start, Script(p)[..k]) == Some(n)
    ensures Reached(host, start, Script(p), n)
  {
  }

  ghost predicate UndoneAfter(host: string, start: Net, script: seq<Command>, k: nat, n: Net)
    requires k <= |script|
  {
    var reached := Run(host, start, script[..k]);
    reached.Some? && n == Undone(start, Adopted(start, reached.value), if k == 0 then start.mapping else "")
  }

  /** Success followed by an error-free disable, from a host without tagged resources: everything is as
      before, except that the bridges that the user handed over are gone together with their ports, and
      that no mapping is left, whatever was mapped before. */
  lemma EnableThenDisable(host: string, start: Net, n: Net, p: Plan)
    requires Untagged(host, start) && PortNamesFree(start, PlannedBridges(p)) && PlannedBridges(p) != []
    requires Run(host, start, Script(p)) == Some(n)
    ensures TornDown(host, n, NO_FAULTS) == Undone(start, HandedOver(p), "")
  {
    WholeScript(host, start, n, p);
    TeardownRestores(host, start, n, HandedOver(p), Listing(p), NO_FAULTS);
    AllRestored(host, start, n, TornDown(host, n, NO_FAULTS), HandedOver(p), Listing(p));
    AdoptedAre(start, n, HandedOver(p));
    SameUndone(start, Adopted(start, n), HandedOver(p));
  }

  /** Enable from an absent mapping, then additions by somebody else, then a teardown whose mapping
      commands work: exactly the additions stay, in order. */
  lemma AdditionsSurvive(host: string, start: Net, n: Net, p: Plan, added: seq<string>, f: Faults)
    requires PlannedBridges(p) != [] && Run(host, start, Script(p)) == Some(n) && start.mapping == ""
    requires ',' !in host && CommaFree(PlannedBridges(p)) && NoEmptyEntry(added) && CommaFree(added)
    requires forall e | e in added :: e !in MappingEntries(host, PlannedBridges(p))
    requires !f.mappingLookup && !f.recordLookup && !f.mappingUpdate
    ensures var later := n.(mapping := Join(Entries(n.mapping) + added, ','));
            Entries(TornDown(host, later, f).mapping) == added
  {
    ScriptDone(host, start, p);
    RoundTripFromAbsent(host, PlannedBridges(p), added);
    SetupThenTeardown("", host, PlannedBridges(p), added);
    SetupExtends("", host, PlannedBridges(p));
    var later := n.(mapping := Join(Entries(n.mapping) + added, ','));
    MappingOfTeardown(host, later, f);
    assert n.recorded != "" by {
      assert Entries(n.recorded) != [];
    }
    assert later.mapping != "" by {
      assert Entries(later.mapping) != [];
    }
  }

  lemma MappingOfTeardown(host: string, n: Net, f: Faults)
    ensures TornDown(host, n, f).mapping == MappingAfter(n, f)
  {
    var n1 := WithoutNetworks(host, n, f);
    NetworkStages(host, n, f);
    DeviceStages(n, n1, f);
    LastStages(WithoutDevices(n1, f), f);
  }

  lemma WholeScript(host: string, start: Net, n: Net, p: Plan)
    requires Untagged(host, start) && PortNamesFree(start, PlannedBridges(p)) && PlannedBridges(p) != []
    requires Run(host, start, Script(p)) == Some(n)
    ensures Traceable(host, start, n, HandedOver(p), Listing(p))
    ensures forall b | b in HandedOver(p) :: b in n.bridges && n.bridges[b]
    ensures n.recorded != ""
  {
    FirstCommand(p);
    assert Script(p)[..|Script(p)|] == Script(p);
    RecordedIff(host, start, p, |Script(p)|);
    ScriptDone(host, start, p);
    forall b | b in HandedOver(p) ensures b in n.bridges && n.bridges[b] {
      HandedOverIsPlanned(p, b);
    }
    WholeIsReached(host, start, n, Script(p));
    ReachedIsTraceable(host, start, p, n);
  }

  lemma WholeIsReached(host: string, start: Net, n: Net, script: seq<Command>)
    requires Run(host, start, script) == Some(n)
    ensures Reached(host, start, script, n)
  {
    assert script[..|script|] == script;
  }

  lemma AdoptedAre(start: Net, n: Net, taken: set<string>)
    requires Adopted(start, n) <= taken
    requires forall b | b in taken && b in start.bridges :: b in n.bridges && n.bridges[b]
    ensures Adopted(start, n) == taken * start.bridges.Keys
  {
  }

  lemma SameUndone(start: Net, adopted: set<string>, taken: set<string>)
    requires forall p | p in start.ports :: start.ports[p].bridge in start.bridges
    requires adopted == taken * start.bridges.Keys
    ensures Undone(start, adopted, "") == Undone(start, taken, "")
  {
    assert start.bridges - taken == start.bridges - adopted;
    forall p | p in start.ports ensures start.ports[p].bridge in taken <==> start.ports[p].bridge in adopted {
    }
  }

  /** What an error-free teardown gives back, as one value. */
  lemma AllRestored(host: string, start: Net, n: Net, end: Net, handedOver: set<string>, listing: set<string>)
    requires Untagged(host, start) && Traceable(host, start, n, handedOver, listing)
    requires Restored(start, n, end, NO_FAULTS)
    ensures end == Undone(start, Adopted(start, n), if n.recorded == "" then start.mapping else "")
  {
    BridgesAsBefore(host, start, n, end, handedOver, listing);
    PortsAsBefore(host, start, n, end, handedOver, listing);
    assert end.switches == start.switches;
  }

  lemma BridgesAsBefore(host: string, start: Net, n: Net, end: Net, handedOver: set<string>, listing: set<string>)
    requires Untagged(host, start) && Traceable(host, start, n, handedOver, listing)
    requires BridgesRestored(start, n, end, NO_FAULTS) && ValuesKept(n, end)
    ensures end.bridges == start.bridges - Adopted(start, n)
  {
    forall b | b in end.bridges ensures b in start.bridges && end.bridges[b] == start.bridges[b] {
      assert b !in TaggedBridges(start);
    }
  }

  lemma PortsAsBefore(host: string, start: Net, n: Net, end: Net, handedOver: set<string>, listing: set<string>)
    requires Untagged(host, start) && Traceable(host, start, n, handedOver, listing)
    requires end.bridges == start.bridges - Adopted(start, n)
    requires PortsRestored(start, n, end, NO_FAULTS) && ValuesKept(n, end)
    ensures end.ports == Undone(start, Adopted(start, n), "").ports
  {
    assert forall b | b in n.bridges && n.bridges[b] :: b in DeletedBridges(n, NO_FAULTS);
    assert forall p | p in end.ports :: p in start.ports;
  }
}
