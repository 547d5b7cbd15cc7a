/** The OVN and OVS resources of BGP redirection as one host sees them, the commands that change them,
    and teardown as a function of the state. */
module BgpResources {
  import opened Prelude
  import opened BgpNames
  import opened BridgeMapping
  import Veth

  /** A tagged resource carries the external id that marks it as managed by MicroOVN. */
  datatype Port = Port(bridge: string, tagged: bool)

  /** A logical switch with the physical network of its localnet port. */
  datatype Switch = Switch(tagged: bool, network: string)

  datatype Net = Net(
    routers: set<string>,            // logical routers of the whole cluster
    switches: map<string, Switch>,   // logical switches of the whole cluster
    bridges: map<string, bool>,      // OVS bridges of this host, and whether tagged
    ports: map<string, Port>,        // OVS ports of this host
    mapping: string,                 // ovn-bridge-mappings, empty when absent
    recorded: string,                // the managed mapping that was recorded, empty when absent
    netplan: Option<set<string>>,    // OVS ports listed in the netplan file, when there is one
    birdConfigured: bool)

  const INTEGRATION_BRIDGE: string := "br-int"

  // ---- Setup commands; each is one transaction, None when it fails by itself ----

  function ExternalBridgeName(iface: string): string { "br-" + iface }

  /** Bridges and ports share one name space. */
  predicate NameTaken(n: Net, name: string)
  {
    name in n.bridges || name in n.ports
  }

  function AddExternalBridge(n: Net, host: string, bridge: string, iface: string): Option<Net>
  {
    if NameTaken(n, bridge) || NameTaken(n, iface) then None
    else
      var mapping := AppendEntry(n.mapping, MappingEntry(host, bridge));
      Some(n.(bridges := n.bridges[bridge := true], ports := n.ports[iface := Port(bridge, false)],
              mapping := mapping, recorded := mapping))
  }

  /** Tags an existing bridge; the mapping is the one that the caller has put together. */
  function AdoptBridge(n: Net, bridge: string, mapping: string): Option<Net>
  {
    if bridge !in n.bridges then None
    else Some(n.(bridges := n.bridges[bridge := true], mapping := mapping, recorded := mapping))
  }

  function AddRouter(n: Net, router: string): Option<Net>
  {
    if router in n.routers then None else Some(n.(routers := n.routers + {router}))
  }

  function AddNetwork(n: Net, host: string, bridge: string): Option<Net>
  {
    if LrName(host) !in n.routers || LsName(host, bridge) in n.switches then None
    else Some(n.(switches := n.switches[LsName(host, bridge) := Switch(true, PhysnetName(host, bridge))]))
  }

  /** Writing the file; its ports appear when it is applied. */
  function WriteNetplan(n: Net, bridges: seq<string>): Net
  {
    n.(netplan := Some(set b | b in bridges :: Veth.BridgeSide(b)))
  }

  function ApplyNetplan(n: Net): Net
  {
    match n.netplan
    case None => n
    case Some(listed) =>
      n.(ports := map p | p in n.ports.Keys + listed ::
                    if p in n.ports then n.ports[p] else Port(INTEGRATION_BRIDGE, false))
  }

  function TagPort(n: Net, port: string): Option<Net>
  {
    if port !in n.ports then None
    else Some(n.(ports := n.ports[port := n.ports[port].(tagged := true)]))
  }

  // ---- Teardown, stage by stage ----

  /** How the clean-up of the netplan file ends: the file cannot be moved away, or it was and a later
      command fails, with only some of its ports gone. */
  datatype NetplanFault = Works | NotMoved | NotCleaned(gone: set<string>)

  /** Which commands of a teardown fail; all the others still run. A failed lookup finds nothing to
      delete, and of what was found each one may fail to be deleted. */
  datatype Faults = Faults(
    router: bool, netplan: NetplanFault,
    switchLookup: bool, switches: set<string>,
    bridgeLookup: bool, bridges: set<string>,
    portLookup: bool, ports: set<string>,
    mappingLookup: bool, recordLookup: bool, mappingUpdate: bool, recordRemoval: bool, bird: bool)

  const NO_FAULTS: Faults := Faults(false, Works, false, {}, false, {}, false, {}, false, false, false, false, false)

  function Deleted(found: set<string>, lookupFails: bool, failing: set<string>): set<string>
  {
    if lookupFails then {} else found - failing
  }

  function WithoutRouter(host: string, n: Net, f: Faults): Net
  {
    if f.router then n else n.(routers := n.routers - {LrName(host)})
  }

  /** The ports of the netplan file that its clean-up removes. */
  function NetplanGone(n: Net, f: Faults): set<string>
  {
    match n.netplan
    case None => {}
    case Some(listed) =>
      match f.netplan
      case Works => listed
      case NotMoved => {}
      case NotCleaned(gone) => listed * gone
  }

  function WithoutNetplan(n: Net, f: Faults): Net
  {
    n.(ports := n.ports - NetplanGone(n, f), netplan := if f.netplan == NotMoved then n.netplan else None)
  }

  function OwnSwitches(host: string, n: Net): set<string>
  {
    set s | s in n.switches && n.switches[s].tagged && BelongsToChassis(host, s)
  }

  function WithoutSwitchSet(n: Net, switches: set<string>): Net
  {
    n.(switches := n.switches - switches)
  }

  function WithoutSwitches(host: string, n: Net, f: Faults): Net
  {
    WithoutSwitchSet(n, Deleted(OwnSwitches(host, n), f.switchLookup, f.switches))
  }

  function TaggedBridges(n: Net): set<string>
  {
    set b | b in n.bridges && n.bridges[b]
  }

  /** Deleting a bridge deletes its ports. */
  function WithoutBridgeSet(n: Net, bridges: set<string>): Net
  {
    n.(bridges := n.bridges - bridges, ports := map p | p in n.ports && n.ports[p].bridge !in bridges :: n.ports[p])
  }

  function DeletedBridges(n: Net, f: Faults): set<string>
  {
    Deleted(TaggedBridges(n), f.bridgeLookup, f.bridges)
  }

  function TaggedPorts(n: Net): set<string>
  {
    set p | p in n.ports && n.ports[p].tagged
  }

  function WithoutPortSet(n: Net, ports: set<string>): Net
  {
    n.(ports := n.ports - ports)
  }

  function WithoutPorts(n: Net, f: Faults): Net
  {
    WithoutPortSet(n, Deleted(TaggedPorts(n), f.portLookup, f.ports))
  }

  function MappingAfter(n: Net, f: Faults): string
  {
    if f.mappingLookup || f.recordLookup || f.mappingUpdate || n.mapping == "" || n.recorded == "" then n.mapping
    else RemainingMapping(n.mapping, n.recorded)
  }

  /** A failed lookup of the mapping ends the teardown early. */
  function WithoutMapping(n: Net, f: Faults): Net
  {
    n.(mapping := MappingAfter(n, f),
       recorded := if f.mappingLookup || f.recordRemoval then n.recorded else "")
  }

  function WithoutBird(n: Net, f: Faults): Net
  {
    n.(birdConfigured := n.birdConfigured && (f.mappingLookup || f.bird))
  }

  /** Router, netplan file and switches. */
  function WithoutNetworks(host: string, n: Net, f: Faults): Net
  {
    WithoutSwitches(host, WithoutNetplan(WithoutRouter(host, n, f), f), f)
  }

  /** Bridges and ports. */
  function WithoutDevices(n: Net, f: Faults): Net
  {
    WithoutPorts(WithoutBridgeSet(n, DeletedBridges(n, f)), f)
  }

  function TornDown(host: string, n: Net, f: Faults): Net
  {
    WithoutBird(WithoutMapping(WithoutDevices(WithoutNetworks(host, n, f), f), f), f)
  }

  /** No command of the teardown fails, among those that it has to give. */
  ghost predicate AllWorks(host: string, n: Net, f: Faults)
  {
    && !f.router && LrName(host) in n.routers
    && (n.netplan == None || f.netplan == Works)
    && !f.switchLookup && OwnSwitches(host, n) !! f.switches
    && !f.bridgeLookup && TaggedBridges(n) !! f.bridges
    && !f.portLookup && TaggedPorts(WithoutBridgeSet(WithoutNetplan(n, f), TaggedBridges(n))) !! f.ports
    && !f.mappingLookup && !f.recordLookup && (n.mapping != "" && n.recorded != "" ==> !f.mappingUpdate)
    && !f.recordRemoval && !f.bird
  }

  // ---- What setup may have done ----

  /** Nothing on this host is tagged, and nothing is recorded. */
  ghost predicate Untagged(host: string, n: Net)
  {
    && LrName(host) !in n.routers
    && OwnSwitches(host, n) == {} && TaggedBridges(n) == {} && TaggedPorts(n) == {}
    && n.recorded == "" && n.netplan == None && !n.birdConfigured
    && forall p | p in n.ports :: n.ports[p].bridge in n.bridges
  }

  /** `n` differs from `start` only in resources that teardown can recognise, and in tags on bridges
      that the user handed over; a netplan file lists the ports `listing`. */
  ghost predicate Traceable(host: string, start: Net, n: Net, handedOver: set<string>, listing: set<string>)
  {
    && (n.routers == start.routers || n.routers == start.routers + {LrName(host)})
    && (forall s | s in start.switches :: s in n.switches && n.switches[s] == start.switches[s])
    && (forall s | s in n.switches && s !in start.switches :: n.switches[s].tagged && BelongsToChassis(host, s))
    && (forall b | b in start.bridges :: b in n.bridges && (n.bridges[b] ==> b in handedOver))
    && (forall b | b in n.bridges && b !in start.bridges :: n.bridges[b])
    && (forall p | p in start.ports :: p in n.ports && n.ports[p] == start.ports[p])
    && (forall p | p in n.ports && p !in start.ports ::
          (n.ports[p].bridge in n.bridges && n.bridges[n.ports[p].bridge])
          || (n.netplan == Some(listing) && p in listing))
    && (n.netplan == None || n.netplan == Some(listing))
    && listing !! start.ports.Keys
    && ((n.recorded == "" && n.mapping == start.mapping) || (n.recorded == n.mapping && n.mapping != ""))
  }

  /** The bridges of the user that setup got to tag. */
  function Adopted(start: Net, n: Net): set<string>
  {
    set b | b in start.bridges && b in n.bridges && n.bridges[b]
  }

  // What a teardown of `n` gives back of `start`, exactly, whatever fails on the way.

  /** Switches from before stay; one that setup has made is still there exactly when its deletion failed. */
  ghost predicate SwitchesRestored(start: Net, n: Net, end: Net, f: Faults)
  {
    forall s :: s in end.switches <==> s in start.switches || (s in n.switches && (f.switchLookup || s in f.switches))
  }

  /** So do bridges from before, but for the adopted ones. */
  ghost predicate BridgesRestored(start: Net, n: Net, end: Net, f: Faults)
  {
    && (forall b | b in start.bridges ::
          b in end.bridges <==> b !in Adopted(start, n) || f.bridgeLookup || b in f.bridges)
    && (forall b | b !in start.bridges :: b in end.bridges <==> b in n.bridges && (f.bridgeLookup || b in f.bridges))
  }

  /** A port from before stays exactly when its bridge does. One that setup has made is still there
      exactly when its bridge was not deleted, nor the port together with the netplan file, and it is
      untagged or its own deletion failed. */
  ghost predicate PortsRestored(start: Net, n: Net, end: Net, f: Faults)
  {
    && (forall p | p in start.ports :: p in end.ports <==> start.ports[p].bridge in end.bridges)
    && (forall p | p !in start.ports ::
          p in end.ports <==>
          && p in n.ports && n.ports[p].bridge !in DeletedBridges(n, f) && p !in NetplanGone(n, f)
          && (n.ports[p].tagged ==> f.portLookup || p in f.ports))
  }

  ghost predicate ValuesKept(n: Net, end: Net)
  {
    && (forall s | s in end.switches :: s in n.switches && end.switches[s] == n.switches[s])
    && (forall b | b in end.bridges :: b in n.bridges && end.bridges[b] == n.bridges[b])
    && (forall p | p in end.ports :: p in n.ports && end.ports[p] == n.ports[p])
  }

  /** Earlier mappings are recorded with the new ones, so the mapping is untouched or goes altogether. */
  ghost predicate MappingRestored(start: Net, n: Net, end: Net, f: Faults)
  {
    && end.mapping == (if f.mappingLookup || f.recordLookup || f.mappingUpdate then n.mapping
                       else if n.recorded == "" then start.mapping else "")
    && end.recorded == (if f.mappingLookup || f.recordRemoval then n.recorded else "")
  }

  ghost predicate Restored(start: Net, n: Net, end: Net, f: Faults)
  {
    && end.routers == (if f.router then n.routers else start.routers)
    && end.netplan == (if f.netplan == NotMoved then n.netplan else None)
    && SwitchesRestored(start, n, end, f) && BridgesRestored(start, n, end, f) && PortsRestored(start, n, end, f)
    && ValuesKept(n, end) && MappingRestored(start, n, end, f)
    && (end.birdConfigured <==> n.birdConfigured && (f.mappingLookup || f.bird))
  }

  // ---- Each setup command keeps a state traceable ----

  lemma StartIsTraceable(host: string, start: Net, handedOver: set<string>, listing: set<string>)
    requires Untagged(host, start) && listing !! start.ports.Keys
    ensures Traceable(host, start, start, handedOver, listing)
  {
    assert forall b | b in start.bridges :: b !in TaggedBridges(start);
  }

  lemma AddExternalBridgeTraceable(host: string, start: Net, n: Net, bridge: string, iface: string,
                                   handedOver: set<string>, listing: set<string>)
    requires Traceable(host, start, n, handedOver, listing) && AddExternalBridge(n, host, bridge, iface).Some?
    ensures Traceable(host, start, AddExternalBridge(n, host, bridge, iface).value, handedOver, listing)
  {
  }

  lemma AdoptBridgeTraceable(host: string, start: Net, n: Net, bridge: string, mapping: string,
                             handedOver: set<string>, listing: set<string>)
    requires Traceable(host, start, n, handedOver, listing) && AdoptBridge(n, bridge, mapping).Some?
    requires bridge in handedOver && mapping != ""
    ensures Traceable(host, start, AdoptBridge(n, bridge, mapping).value, handedOver, listing)
  {
  }

  lemma AddRouterTraceable(host: string, start: Net, n: Net, handedOver: set<string>, listing: set<string>)
    requires Traceable(host, start, n, handedOver, listing) && AddRouter(n, LrName(host)).Some?
    ensures Traceable(host, start, AddRouter(n, LrName(host)).value, handedOver, listing)
  {
  }

  lemma AddNetworkTraceable(host: string, start: Net, n: Net, bridge: string, handedOver: set<string>, listing: set<string>)
    requires Traceable(host, start, n, handedOver, listing) && AddNetwork(n, host, bridge).Some?
    ensures Traceable(host, start, AddNetwork(n, host, bridge).value, handedOver, listing)
  {
    BelongsByHost(host, host, bridge);
    assert host + "-" <= host + "-" + bridge;
  }

  lemma WriteTraceable(host: string, start: Net, n: Net, bridges: seq<string>, handedOver: set<string>, listing: set<string>)
    requires Traceable(host, start, n, handedOver, listing) && WriteNetplan(n, bridges).netplan == Some(listing)
    ensures Traceable(host, start, WriteNetplan(n, bridges), handedOver, listing)
  {
  }

  lemma ApplyTraceable(host: string, start: Net, n: Net, handedOver: set<string>, listing: set<string>)
    requires Traceable(host, start, n, handedOver, listing)
    ensures Traceable(host, start, ApplyNetplan(n), handedOver, listing)
  {
  }

  lemma TagPortTraceable(host: string, start: Net, n: Net, port: string, handedOver: set<string>, listing: set<string>)
    requires Traceable(host, start, n, handedOver, listing) && TagPort(n, port).Some? && port in listing
    ensures Traceable(host, start, TagPort(n, port).value, handedOver, listing)
  {
  }

  // ---- Teardown of any state ----

  /** A tagged switch of this host stays exactly when its deletion fails, and every other switch does. */
  ghost predicate SwitchesLeft(host: string, n: Net, end: Net, f: Faults)
  {
    forall s :: s in end.switches <==>
      s in n.switches && (f.switchLookup || s in f.switches || !n.switches[s].tagged || !("ls-" + host + "-" <= s))
  }

  ghost predicate BridgesLeft(n: Net, end: Net, f: Faults)
  {
    forall b :: b in end.bridges <==> b in n.bridges && (f.bridgeLookup || b in f.bridges || !n.bridges[b])
  }

  /** The netplan file, when it is cleaned up, takes this port with it. */
  ghost predicate TakenByNetplan(n: Net, p: string, f: Faults)
  {
    n.netplan.Some? && p in n.netplan.value && (f.netplan == Works || (f.netplan.NotCleaned? && p in f.netplan.gone))
  }

  /** A port goes with its bridge or with the netplan file, or when it is tagged and can be deleted. */
  ghost predicate PortsLeft(n: Net, end: Net, f: Faults)
  {
    forall p :: p in end.ports <==>
      && p in n.ports && (n.ports[p].bridge in n.bridges ==> n.ports[p].bridge in end.bridges)
      && !TakenByNetplan(n, p, f) && (n.ports[p].tagged ==> f.portLookup || p in f.ports)
  }

  lemma SwitchesLeftAre(host: string, n: Net, end: Net, f: Faults)
    requires end.switches == n.switches - Deleted(OwnSwitches(host, n), f.switchLookup, f.switches)
    ensures SwitchesLeft(host, n, end, f)
    ensures forall s | s in end.switches :: s in n.switches && end.switches[s] == n.switches[s]
  {
    ChassisMatchIsSharedPrefix(host);
  }

  lemma PortsLeftAre(n: Net, end: Net, f: Faults)
    requires end.bridges == n.bridges - DeletedBridges(n, f)
    requires forall p :: p in end.ports <==>
               && p in n.ports && n.ports[p].bridge !in DeletedBridges(n, f) && p !in NetplanGone(n, f)
               && (n.ports[p].tagged ==> f.portLookup || p in f.ports)
    ensures BridgesLeft(n, end, f) && PortsLeft(n, end, f)
  {
    forall p | p in n.ports ensures TakenByNetplan(n, p, f) <==> p in NetplanGone(n, f) {
    }
  }

  /** What is left of any state at all, traceable or not: this host's router, its tagged switches, the
      tagged bridges with all their ports, the ports of the netplan file and the tagged ports go unless
      their own deletion fails; everything else stays as it is. */
  lemma TeardownMeans(host: string, n: Net, f: Faults)
    ensures var end := TornDown(host, n, f);
            && end.routers == (if f.router then n.routers else n.routers - {LrName(host)})
            && SwitchesLeft(host, n, end, f) && BridgesLeft(n, end, f) && PortsLeft(n, end, f)
            && ValuesKept(n, end)
            && end.netplan == (if f.netplan == NotMoved then n.netplan else None)
            && end.recorded == (if f.mappingLookup || f.recordRemoval then n.recorded else "")
            && (end.birdConfigured <==> n.birdConfigured && (f.mappingLookup || f.bird))
  {
    var n1 := WithoutNetworks(host, n, f);
    var n2 := WithoutDevices(n1, f);
    var end := WithoutBird(WithoutMapping(n2, f), f);
    NetworkStages(host, n, f);
    DeviceStages(n, n1, f);
    LastStages(n2, f);
    SwitchesLeftAre(host, n, end, f);
    PortsLeftAre(n, end, f);
    assert end.recorded == (if f.mappingLookup || f.recordRemoval then n.recorded else "");
  }

  /** And of the mapping of any state: when its commands work, exactly the unrecorded entries stay, in
      order; without a record, or when one of them fails, nothing changes. */
  lemma TeardownKeepsForeign(host: string, n: Net, f: Faults)
    ensures var end := TornDown(host, n, f);
            && (f.mappingLookup || f.recordLookup || f.mappingUpdate || n.recorded == "" ==> end.mapping == n.mapping)
            && (!f.mappingLookup && !f.recordLookup && !f.mappingUpdate && n.recorded != ""
                && NoEmptyEntry(Entries(n.mapping)) ==>
                  KeptInOrder(Entries(n.mapping), Entries(n.recorded), Entries(end.mapping)))
  {
    var n1 := WithoutNetworks(host, n, f);
    var n2 := WithoutDevices(n1, f);
    NetworkStages(host, n, f);
    DeviceStages(n, n1, f);
    LastStages(n2, f);
    if NoEmptyEntry(Entries(n.mapping)) {
      if n.mapping == "" {
        assert Selects([], Entries(n.recorded), [], []);
      } else {
        RemainingInOrder(n.mapping, n.recorded);
      }
    }
  }

  /** A teardown that reports no error has done everything that one without any failing command does; and
      without one it reports no error exactly when there was a router. */
  lemma CleanMeansDone(host: string, n: Net, f: Faults)
    ensures AllWorks(host, n, f) ==> TornDown(host, n, f) == TornDown(host, n, NO_FAULTS)
    ensures AllWorks(host, n, NO_FAULTS) <==> LrName(host) in n.routers
  {
    if AllWorks(host, n, f) {
      NetworksDone(host, n, f);
      DevicesDone(host, n, f);
      var n2 := WithoutDevices(WithoutNetworks(host, n, f), f);
      NetworkStages(host, n, f);
      DeviceStages(n, WithoutNetworks(host, n, f), f);
      assert WithoutMapping(n2, f) == WithoutMapping(n2, NO_FAULTS);
    }
  }

  lemma NetworksDone(host: string, n: Net, f: Faults)
    requires AllWorks(host, n, f)
    ensures WithoutNetworks(host, n, f) == WithoutNetworks(host, n, NO_FAULTS)
  {
    var n1 := WithoutNetplan(WithoutRouter(host, n, f), f);
    assert n1 == WithoutNetplan(WithoutRouter(host, n, NO_FAULTS), NO_FAULTS);
    assert OwnSwitches(host, n1) == OwnSwitches(host, n);
    assert OwnSwitches(host, n) - f.switches == OwnSwitches(host, n) == OwnSwitches(host, n) - {};
  }

  lemma DevicesDone(host: string, n: Net, f: Faults)
    requires AllWorks(host, n, f)
    ensures var n1 := WithoutNetworks(host, n, f); WithoutDevices(n1, f) == WithoutDevices(n1, NO_FAULTS)
  {
    var n1 := WithoutNetworks(host, n, f);
    NetworkStages(host, n, f);
    assert TaggedBridges(n1) == TaggedBridges(n);
    assert TaggedBridges(n) - f.bridges == TaggedBridges(n) == TaggedBridges(n) - {};
    var n2, m2 := WithoutBridgeSet(n1, TaggedBridges(n)), WithoutBridgeSet(WithoutNetplan(n, f), TaggedBridges(n));
    assert n2.ports == m2.ports;
    assert TaggedPorts(n2) == TaggedPorts(m2);
    assert TaggedPorts(n2) - f.ports == TaggedPorts(n2) == TaggedPorts(n2) - {};
  }

  // ---- Teardown of a traceable state ----

  /** Teardown of any traceable state, with any commands failing: everything that setup has made and
      whose own deletion works is gone, and nothing else is, but for adopted bridges and the mapping. */
  lemma TeardownRestores(host: string, start: Net, n: Net, handedOver: set<string>, listing: set<string>, f: Faults)
    requires Untagged(host, start) && Traceable(host, start, n, handedOver, listing)
    ensures Adopted(start, n) <= handedOver
    ensures Restored(start, n, TornDown(host, n, f), f)
  {
    var n1 := WithoutNetworks(host, n, f);
    var n2 := WithoutDevices(n1, f);
    var end := WithoutBird(WithoutMapping(n2, f), f);
    NetworkStages(host, n, f);
    DeviceStages(n, n1, f);
    LastStages(n2, f);
    SwitchesGone(host, start, n, handedOver, listing, end, f);
    BridgesGone(host, start, n, handedOver, listing, end, f);
    PortsGone(host, start, n, handedOver, listing, end, f);
    MappingGone(start, n, n2, f);
  }

  lemma NetworkStages(host: string, n: Net, f: Faults)
    ensures var n1 := WithoutNetworks(host, n, f);
            && n1.routers == (if f.router then n.routers else n.routers - {LrName(host)})
            && n1.netplan == (if f.netplan == NotMoved then n.netplan else None)
            && n1.ports == n.ports - NetplanGone(n, f)
            && n1.switches == n.switches - Deleted(OwnSwitches(host, n), f.switchLookup, f.switches)
            && n1.bridges == n.bridges && n1.mapping == n.mapping && n1.recorded == n.recorded
            && n1.birdConfigured == n.birdConfigured
  {
    var n1 := WithoutNetplan(WithoutRouter(host, n, f), f);
    assert OwnSwitches(host, n1) == OwnSwitches(host, n);
  }

  lemma DeviceStages(n: Net, n1: Net, f: Faults)
    requires n1.bridges == n.bridges && n1.ports == n.ports - NetplanGone(n, f)
    ensures var n2 := WithoutDevices(n1, f);
            && n2.bridges == n.bridges - DeletedBridges(n, f)
            && (forall p :: p in n2.ports <==>
                  && p in n.ports && n.ports[p].bridge !in DeletedBridges(n, f) && p !in NetplanGone(n, f)
                  && (n.ports[p].tagged ==> f.portLookup || p in f.ports))
            && (forall p | p in n2.ports :: n2.ports[p] == n.ports[p])
            && n2.routers == n1.routers && n2.switches == n1.switches && n2.netplan == n1.netplan
            && n2.mapping == n1.mapping && n2.recorded == n1.recorded && n2.birdConfigured == n1.birdConfigured
  {
    assert TaggedBridges(n1) == TaggedBridges(n);
  }

  lemma LastStages(n: Net, f: Faults)
    ensures var end := WithoutBird(WithoutMapping(n, f), f);
            && end.routers == n.routers && end.switches == n.switches && end.bridges == n.bridges
            && end.ports == n.ports && end.netplan == n.netplan
            && end.mapping == WithoutMapping(n, f).mapping && end.recorded == WithoutMapping(n, f).recorded
            && (end.birdConfigured <==> n.birdConfigured && (f.mappingLookup || f.bird))
  {
  }

  lemma SwitchesGone(host: string, start: Net, n: Net, handedOver: set<string>, listing: set<string>, end: Net, f: Faults)
    requires Untagged(host, start) && Traceable(host, start, n, handedOver, listing)
    requires end.switches == n.switches - Deleted(OwnSwitches(host, n), f.switchLookup, f.switches)
    ensures SwitchesRestored(start, n, end, f)
    ensures forall s | s in end.switches :: s in n.switches && end.switches[s] == n.switches[s]
  {
    forall s | s in start.switches ensures s !in OwnSwitches(host, n) {
      assert s !in OwnSwitches(host, start);
    }
    assert forall s | s in n.switches && s !in start.switches :: s in OwnSwitches(host, n);
  }

  lemma BridgesGone(host: string, start: Net, n: Net, handedOver: set<string>, listing: set<string>, end: Net, f: Faults)
    requires Untagged(host, start) && Traceable(host, start, n, handedOver, listing)
    requires end.bridges == n.bridges - DeletedBridges(n, f)
    ensures BridgesRestored(start, n, end, f) && Adopted(start, n) <= handedOver
    ensures forall b | b in end.bridges :: b in n.bridges && end.bridges[b] == n.bridges[b]
  {
    forall b | b in start.bridges ensures b in Adopted(start, n) <==> b in TaggedBridges(n) {
    }
    assert forall b | b in n.bridges && b !in start.bridges :: b in TaggedBridges(n);
  }

  lemma PortsGone(host: string, start: Net, n: Net, handedOver: set<string>, listing: set<string>, end: Net, f: Faults)
    requires Untagged(host, start) && Traceable(host, start, n, handedOver, listing)
    requires end.bridges == n.bridges - DeletedBridges(n, f)
    requires forall p :: p in end.ports <==>
               && p in n.ports && n.ports[p].bridge !in DeletedBridges(n, f) && p !in NetplanGone(n, f)
               && (n.ports[p].tagged ==> f.portLookup || p in f.ports)
    ensures PortsRestored(start, n, end, f)
  {
    forall p | p in start.ports ensures p in end.ports <==> start.ports[p].bridge in end.bridges {
      assert p !in TaggedPorts(start) && start.ports[p].bridge in start.bridges;
      assert start.ports[p].bridge in n.bridges && p !in NetplanGone(n, f);
    }
  }

  lemma MappingGone(start: Net, n: Net, n2: Net, f: Faults)
    requires n2.mapping == n.mapping && n2.recorded == n.recorded
    requires (n.recorded == "" && n.mapping == start.mapping) || (n.recorded == n.mapping && n.mapping != "")
    ensures MappingRestored(start, n, WithoutMapping(n2, f), f)
  {
    if n.recorded != "" {
      NothingRemains(n.mapping);
    }
  }

  lemma NothingRemains(mapping: string)
    requires mapping != ""
    ensures RemainingMapping(mapping, mapping) == ""
  {
    UnrecordedAll(Entries(mapping), Entries(mapping));
  }
}
