/** The part of the generated environment file that decides whether a starting database creates a
    new cluster or joins an existing one. */
module Environment {
  import opened Prelude
  import opened Members
  import opened Text

  /** OVN_INITIAL_NB (and, equal to it, OVN_INITIAL_SB) and OVN_LOCAL_IP. */
  datatype Env = Env(initial: string, local: string)

  datatype Error = BadAddress

  /** Addresses of the members that run central, in member order; one bad address fails the list. */
  function RemoteAddresses(members: seq<Member>, central: set<string>): Result<seq<string>, Error>
  {
    if members == [] then Ok([])
    else
      var last := members[|members| - 1];
      match RemoteAddresses(members[..|members| - 1], central)
      case Err(e) => Err(e)
      case Ok(before) =>
        if last.name !in central then Ok(before)
        else if last.ip == None then Err(BadAddress)
        else Ok(before + [last.ip.value])
  }

  /** The only central address when there is just one, otherwise the first that is not local. */
  function InitialHost(local: string, addrs: seq<string>): string
  {
    if |addrs| == 1 then addrs[0] else FirstOther(local, addrs)
  }

  function FirstOther(local: string, addrs: seq<string>): string
  {
    if addrs == [] then ""
    else if addrs[0] != local then addrs[0]
    else FirstOther(local, addrs[1..])
  }

  /** IPv6 addresses are written in brackets. */
  function Bracket(host: string): string
  {
    if ':' in host then "[" + host + "]" else host
  }

  /** A host is written as it is when it holds no colon, and between brackets when it holds one. */
  ghost predicate Writes(text: string, host: string)
  {
    (':' !in host ==> text == host) && (':' in host ==> text == "[" + host + "]")
  }

  lemma BracketWrites(host: string)
    ensures Writes(Bracket(host), host)
  {
  }

  method DefaultRemoteAddresses(members: seq<Member>, servers: seq<string>)
    returns (r: Result<seq<string>, Error>)
    ensures r == RemoteAddresses(members, set s | s in servers)
  {
    ghost var central := set s | s in servers;
    var addrList := [];
    for i := 0 to |members|
      invariant RemoteAddresses(members[..i], central) == Ok(addrList)
    {
      assert members[..i + 1][..i] == members[..i];
      for j := 0 to |servers|
        invariant forall k | 0 <= k < j :: servers[k] != members[i].name
        invariant RemoteAddresses(members[..i], central) == Ok(addrList)
      {
        if servers[j] == members[i].name {
          if members[i].ip == None {
            BadAddressFailsTheList(members, central, i);
            return Err(BadAddress);
          }
          addrList := addrList + [members[i].ip.value];
          break;
        }
      }
    }
    assert members[..|members|] == members;
    r := Ok(addrList);
  }

  lemma {:induction false} BadAddressFailsTheList(members: seq<Member>, central: set<string>, i: nat)
    requires i < |members| && members[i].name in central && members[i].ip == None
    ensures RemoteAddresses(members, central) == Err(BadAddress)
  {
    if i < |members| - 1 {
      BadAddressFailsTheList(members[..|members| - 1], central, i);
    }
    match RemoteAddresses(members[..|members| - 1], central)
    case Err(BadAddress) =>
    case Ok(_) =>
  }

  /** The addresses are exactly those of the members that run central, in member order: the list of two
      parts of the table is the one list after the other, and fails when one of them does. */
  lemma {:induction false} AddressesInOrder(a: seq<Member>, b: seq<Member>, central: set<string>)
    ensures RemoteAddresses(a + b, central) ==
            match RemoteAddresses(a, central)
            case Err(e) => Err(e)
            case Ok(first) =>
              match RemoteAddresses(b, central)
              case Err(e) => Err(e)
              case Ok(second) => Ok(first + second)
  {
    if b == [] {
      assert a + b == a;
      assert forall first: seq<string> :: first + [] == first;
    } else {
      var before, last := b[..|b| - 1], b[|b| - 1];
      assert (a + b)[..|a + b| - 1] == a + before;
      AddressesInOrder(a, before, central);
      match RemoteAddresses(a, central) {
        case Err(BadAddress) =>
        case Ok(first) =>
          match RemoteAddresses(before, central) {
            case Err(BadAddress) =>
            case Ok(second) =>
              assert forall x: seq<string> :: first + (second + x) == first + second + x;
          }
      }
    }
  }

  lemma OneAddress(m: Member, central: set<string>)
    ensures RemoteAddresses([m], central) ==
            if m.name !in central then Ok([]) else if m.ip == None then Err(BadAddress) else Ok([m.ip.value])
  {
    assert [m][..|[m]| - 1] == [] && RemoteAddresses([], central) == Ok([]);
    assert m.ip.Some? ==> [] + [m.ip.value] == [m.ip.value];
  }

  lemma {:induction false} AddressesOfMembers(members: seq<Member>, central: set<string>, host: string)
    requires RemoteAddresses(members, central).Ok? && host in RemoteAddresses(members, central).value
    ensures exists m :: m in members && m.name in central && m.ip == Some(host)
  {
    var before, last := members[..|members| - 1], members[|members| - 1];
    assert members == before + [last];
    if host in RemoteAddresses(before, central).value {
      AddressesOfMembers(before, central, host);
    }
  }

  /** Position `i` holds the first address that is not local. */
  ghost predicate FirstAt(local: string, addrs: seq<string>, i: nat)
  {
    i < |addrs| && addrs[i] != local && forall j | 0 <= j < i :: addrs[j] == local
  }

  lemma {:induction false} FirstOtherAt(local: string, addrs: seq<string>, i: nat)
    requires FirstAt(local, addrs, i)
    ensures FirstOther(local, addrs) == addrs[i]
  {
    if i > 0 {
      assert addrs[0] == local;
      assert forall j | 0 <= j < i - 1 :: addrs[1..][j] == addrs[j + 1];
      FirstOtherAt(local, addrs[1..], i - 1);
    }
  }

  lemma {:induction false} NoOther(local: string, addrs: seq<string>)
    ensures (forall a | a in addrs :: a == local) ==> FirstOther(local, addrs) == ""
    ensures FirstOther(local, addrs) == "" || FirstOther(local, addrs) in addrs
  {
    if addrs != [] {
      assert addrs[0] in addrs && forall a | a in addrs[1..] :: a in addrs;
      NoOther(local, addrs[1..]);
    }
  }

  method InitialNbSbHost(localAddr: string, addrList: seq<string>) returns (initialNode: string)
    ensures initialNode == Bracket(InitialHost(localAddr, addrList))
    ensures |addrList| == 1 ==> Writes(initialNode, addrList[0])
    ensures |addrList| != 1 && (forall a | a in addrList :: a == localAddr) ==> initialNode == ""
    ensures forall i: nat | FirstAt(localAddr, addrList, i) && |addrList| != 1 :: Writes(initialNode, addrList[i])
  {
    initialNode := "";
    if |addrList| == 1 {
      initialNode := addrList[0];
    }
    for i := 0 to |addrList|
      invariant |addrList| == 1 ==> initialNode == addrList[0]
      invariant |addrList| != 1 ==> initialNode == ""
      invariant |addrList| != 1 ==> FirstOther(localAddr, addrList) == FirstOther(localAddr, addrList[i..])
    {
      if initialNode == "" && addrList[i] != localAddr {
        initialNode := addrList[i];
        break;
      }
    }
    NoOther(localAddr, addrList);
    forall i: nat | FirstAt(localAddr, addrList, i) && |addrList| != 1 ensures addrList[i] == FirstOther(localAddr, addrList) {
      FirstOtherAt(localAddr, addrList, i);
    }
    if ':' in initialNode {
      initialNode := "[" + initialNode + "]";
    }
  }

  /** The file that a member writes. A configured "ovn.central-ips" replaces the member table. */
  method GenerateEnvironment(localAddr: string, centralIps: Option<string>, members: seq<Member>,
                             servers: seq<string>)
    returns (r: Result<Env, Error>)
    ensures centralIps.Some? ==>
              r == Ok(Env(Bracket(InitialHost(localAddr, Split(centralIps.value, ','))), Bracket(localAddr)))
    ensures centralIps == None ==>
              r == match RemoteAddresses(members, set s | s in servers)
                   case Err(e) => Err(e)
                   case Ok(addrs) => Ok(Env(Bracket(InitialHost(localAddr, addrs)), Bracket(localAddr)))
    ensures r.Ok? ==> Writes(r.value.local, localAddr)
    ensures r.Ok? ==> exists host :: Writes(r.value.initial, host)
                        && (host == "" || (centralIps == None && exists m :: m in members && m.name in servers && m.ip == Some(host))
                            || (centralIps.Some? && host in Split(centralIps.value, ',')))
  {
    var addrList;
    if centralIps.Some? {
      addrList := Split(centralIps.value, ',');
    } else {
      var default := DefaultRemoteAddresses(members, servers);
      if default.Err? {
        return Err(default.error);
      }
      addrList := default.value;
    }
    var initialNbSb := InitialNbSbHost(localAddr, addrList);
    ghost var host := InitialHost(localAddr, addrList);
    BracketWrites(host);
    BracketWrites(localAddr);
    NoOther(localAddr, addrList);
    assert host == "" || host in addrList;
    if centralIps == None && host != "" {
      AddressesOfMembers(members, (set s | s in servers), host);
    }
    r := Ok(Env(initialNbSb, Bracket(localAddr)));
  }

  /** The start script passes no remote address, so the database creates a cluster, exactly when the
      two addresses are the same text. */
  predicate CreatesCluster(env: Env) { env.initial == env.local }

  /** The brackets never make two different hosts look the same. */
  lemma BracketInjective(a: string, b: string)
    ensures Bracket(a) == Bracket(b) <==> a == b
  {
    if Bracket(a) == Bracket(b) {
      if ':' in a && ':' in b {
        assert Bracket(a)[1..|a| + 1] == a && Bracket(b)[1..|b| + 1] == b;
      }
    }
  }

  /** A member is told to create the cluster exactly when it is the only address in the list. */
  lemma CreatesIffAlone(local: string, addrs: seq<string>)
    requires local != ""
    ensures CreatesCluster(Env(Bracket(InitialHost(local, addrs)), Bracket(local))) <==> addrs == [local]
  {
    BracketInjective(InitialHost(local, addrs), local);
    FirstOtherIsOther(local, addrs);
    assert |addrs| == 1 ==> addrs == [addrs[0]];
  }

  lemma {:induction false} FirstOtherIsOther(local: string, addrs: seq<string>)
    requires local != ""
    ensures FirstOther(local, addrs) != local
    ensures FirstOther(local, addrs) == "" || FirstOther(local, addrs) in addrs
    ensures (exists a :: a in addrs && a != local && a != "") && "" !in addrs ==> FirstOther(local, addrs) != ""
  {
    if addrs != [] && addrs[0] == local {
      FirstOtherIsOther(local, addrs[1..]);
      assert addrs == [addrs[0]] + addrs[1..];
    }
  }

  // What the address list says about the central set.

  lemma {:induction false} AddressesAreCentral(members: seq<Member>, central: set<string>)
    requires DistinctAddresses(members)
    ensures RemoteAddresses(members, central).Ok?
    ensures forall a :: a in RemoteAddresses(members, central).value <==>
              exists m :: m in members && m.name in central && m.ip == Some(a)
  {
    if members != [] {
      var init, last := members[..|members| - 1], members[|members| - 1];
      assert members == init + [last];
      AddressesAreCentral(init, central);
    }
  }

  lemma {:induction false} NoCentral(members: seq<Member>)
    ensures RemoteAddresses(members, {}) == Ok([])
  {
    if members != [] {
      NoCentral(members[..|members| - 1]);
    }
  }

  lemma {:induction false} LoneCentral(members: seq<Member>, central: set<string>, m: Member)
    requires DistinctAddresses(members) && DistinctMembers(members)
    requires forall o | o in members && o.name in central :: o == m
    requires m.name in central
    ensures RemoteAddresses(members, central).Ok?
    ensures RemoteAddresses(members, central).value == if m in members then [m.ip.value] else []
  {
    if members != [] {
      var init, last := members[..|members| - 1], members[|members| - 1];
      assert members == init + [last];
      LoneCentral(init, central, m);
    }
  }

  /** Some central member other than `m`. */
  lemma OtherCentralIsListed(members: seq<Member>, central: set<string>, m: Member, addrs: seq<string>)
    requires DistinctAddresses(members) && DistinctMembers(members) && m in members
    requires central <= Names(members) && central != {} && central != {m.name}
    requires forall a :: a in addrs <==> exists o :: o in members && o.name in central && o.ip == Some(a)
    ensures var host := InitialHost(m.ip.value, addrs);
            && host != "" && host != m.ip.value
            && exists o :: o in members && o != m && o.name in central && o.ip == Some(host)
  {
    var local := m.ip.value;
    var name :| name in central && name != m.name;
    var o :| o in members && o.name == name;
    assert o.ip.value in addrs && o.ip.value != local;
    assert "" !in addrs;
    FirstOtherIsOther(local, addrs);
    var host := InitialHost(local, addrs);
    assert host in addrs && host != local;
  }

  /** The initial host that member `m` computes from the member table: nothing when no member runs
      central, its own address when it is the only one, the address of another central member in
      every other case. */
  lemma InitialHostOfTable(members: seq<Member>, central: set<string>, m: Member)
    requires DistinctAddresses(members) && DistinctMembers(members) && m in members
    requires central <= Names(members)
    ensures RemoteAddresses(members, central).Ok?
    ensures var host := InitialHost(m.ip.value, RemoteAddresses(members, central).value);
            && (central == {} <==> host == "")
            && (central == {m.name} <==> host == m.ip.value)
            && (host != "" && host != m.ip.value ==>
                  exists o :: o in members && o != m && o.name in central && o.ip == Some(host))
  {
    AddressesAreCentral(members, central);
    var addrs := RemoteAddresses(members, central).value;
    if central == {} {
      NoCentral(members);
    } else if central == {m.name} {
      LoneCentral(members, central, m);
    } else {
      OtherCentralIsListed(members, central, m, addrs);
    }
  }
}
