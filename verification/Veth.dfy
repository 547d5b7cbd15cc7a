/** The virtual Ethernet pairs that BGP setup writes into its netplan file, and their removal: the file
    is a map, so the interfaces come in any order, and deleting one end of a pair removes both. */
module Veth {

  /** Configured interfaces and their peers. */
  type Veths = map<string, string>

  /** Every interface is the peer of its peer, and not its own. */
  ghost predicate Symmetric(veths: Veths)
  {
    forall x | x in veths :: veths[x] != x && veths[x] in veths && veths[veths[x]] == x
  }

  function BgpSide(bridge: string): string { "v" + bridge + "-bgp" }

  function BridgeSide(bridge: string): string { "v" + bridge + "-brg" }

  /** Both ends of the pair of every bridge are added, each naming the other. */
  method GenerateVeths(bridges: seq<string>) returns (veths: Veths)
    ensures Symmetric(veths)
    ensures forall x :: x in veths <==> exists b :: b in bridges && (x == BgpSide(b) || x == BridgeSide(b))
    ensures forall b | b in bridges :: veths[BgpSide(b)] == BridgeSide(b)
  {
    veths := map[];
    for i := 0 to |bridges|
      invariant forall x :: x in veths <==> exists b :: b in bridges[..i] && (x == BgpSide(b) || x == BridgeSide(b))
      invariant forall b | b in bridges[..i] :: veths[BgpSide(b)] == BridgeSide(b) && veths[BridgeSide(b)] == BgpSide(b)
    {
      var b := bridges[i];
      ghost var before := veths;
      veths := veths[BgpSide(b) := BridgeSide(b)][BridgeSide(b) := BgpSide(b)];
      assert bridges[..i + 1] == bridges[..i] + [b];
      forall c | c in bridges[..i + 1]
        ensures veths[BgpSide(c)] == BridgeSide(c) && veths[BridgeSide(c)] == BgpSide(c)
      {
        SidesDiffer(b, c);
      }
    }
    assert bridges[..|bridges|] == bridges;
    forall x | x in veths ensures veths[x] != x && veths[x] in veths && veths[veths[x]] == x {
      var b :| b in bridges && (x == BgpSide(b) || x == BridgeSide(b));
      SidesDiffer(b, b);
    }
  }

  /** The two kinds of names never meet, and each of them names its bridge. */
  lemma SidesDiffer(b: string, c: string)
    ensures BgpSide(b) != BridgeSide(c)
    ensures BgpSide(b) == BgpSide(c) <==> b == c
    ensures BridgeSide(b) == BridgeSide(c) <==> b == c
  {
    var x, y, z, w := BgpSide(b), BridgeSide(c), BgpSide(c), BridgeSide(b);
    assert x[|x| - 1] == 'p' && y[|y| - 1] == 'g';
    assert x[1..|x| - 4] == b && y[1..|y| - 4] == c && z[1..|z| - 4] == c && w[1..|w| - 4] == b;
  }

  datatype DeleteResult = Deleted | CannotFindDevice | OtherError

  /** The network devices of the host. */
  class Kernel {
    const pair: map<string, string>    // the other end of each veth device
    var links: set<string>
    var deletions: seq<string>         // devices whose deletion took effect, in order

    /** The two ends of a pair exist together. */
    ghost predicate Valid()
      reads this
    {
      Symmetric(pair) && forall x | x in pair && x in links :: pair[x] in links
    }

    constructor (pair: map<string, string>, links: set<string>)
      requires Symmetric(pair) && forall x | x in pair && x in links :: pair[x] in links
      ensures Valid() && this.pair == pair && this.links == links && deletions == []
    {
      this.pair, this.links, deletions := pair, links, [];
    }

    method Delete(iface: string, fails: bool) returns (r: DeleteResult)
      requires Valid()
      modifies this
      ensures Valid()
      ensures r == if fails then OtherError else if iface in old(links) then Deleted else CannotFindDevice
      ensures r == Deleted ==>
                && deletions == old(deletions) + [iface]
                && links == old(links) - {iface} - (if iface in pair then {pair[iface]} else {})
      ensures r != Deleted ==> links == old(links) && deletions == old(deletions)
    {
      if fails {
        return OtherError;
      }
      if iface !in links {
        return CannotFindDevice;
      }
      links := links - {iface} - (if iface in pair then {pair[iface]} else {});
      deletions := deletions + [iface];
      r := Deleted;
    }

    /** For any order of the configured interfaces: without another error none of them is left, every
        other device is untouched, and each pair that existed was deleted exactly once, a missing one
        not at all. */
    method CleanupVirtualEthernets(veths: Veths, order: seq<string>, failing: set<string>) returns (ok: bool)
      requires Valid() && deletions == []
      requires Symmetric(veths) && forall x | x in veths :: x in pair && pair[x] == veths[x]
      requires forall x :: x in order <==> x in veths
      modifies this
      ensures Valid()
      ensures failing * veths.Keys == {} ==> ok
      ensures ok ==> links == old(links) - veths.Keys
      ensures ok ==> forall x | x in veths ::
                       PairDeletions(deletions, x, veths[x]) == if x in old(links) then 1 else 0
      ensures forall x | x !in veths :: x in links <==> x in old(links)
    {
      var deletedPeers: set<string> := {};
      ghost var seen: set<string> := {};
      for i := 0 to |order|
        invariant Valid()
        invariant forall k | 0 <= k < i :: order[k] in seen
        invariant Progress(veths, old(links), links, deletions, seen)
        invariant forall x | x in deletedPeers :: x !in links
      {
        var iface := order[i];
        assert iface in order;
        if iface in deletedPeers {
          SkipKeepsProgress(veths, old(links), links, deletions, seen, iface);
        } else {
          ghost var linksBefore, deletionsBefore := links, deletions;
          var r := Delete(iface, iface in failing);
          if r == OtherError {
            assert iface in failing * veths.Keys;
            return false;
          }
          if r == Deleted {
            deletedPeers := deletedPeers + {veths[iface]};
            DeleteKeepsProgress(veths, old(links), linksBefore, deletionsBefore, seen, iface);
          } else {
            SkipKeepsProgress(veths, old(links), links, deletions, seen, iface);
          }
        }
        seen := seen + {iface};
      }
      ProgressDone(veths, old(links), links, deletions, seen);
      ok := true;
    }
  }

  lemma ProgressDone(veths: Veths, start: set<string>, links: set<string>, deletions: seq<string>,
                     seen: set<string>)
    requires Progress(veths, start, links, deletions, seen) && veths.Keys <= seen
    ensures links == start - veths.Keys
    ensures forall x | x in veths :: PairDeletions(deletions, x, veths[x]) == if x in start then 1 else 0
  {
  }

  /** How often the deletion of either end of a pair took effect. */
  ghost function PairDeletions(deletions: seq<string>, x: string, peer: string): nat
  {
    multiset(deletions)[x] + multiset(deletions)[peer]
  }

  /** The state once the interfaces in `seen` were visited. */
  ghost predicate Progress(veths: Veths, start: set<string>, links: set<string>, deletions: seq<string>,
                           seen: set<string>)
  {
    && Symmetric(veths)
    && (forall x | x in veths && x in start :: veths[x] in start)
    && (forall x | x !in veths :: (x in links <==> x in start) && multiset(deletions)[x] == 0)
    && (forall x | x in veths :: x in links <==> x in start && x !in seen && veths[x] !in seen)
    && (forall x | x in veths ::
          PairDeletions(deletions, x, veths[x]) ==
          if x in start && (x in seen || veths[x] in seen) then 1 else 0)
  }

  /** An interface that is already gone, whether its pair was missing or its peer was deleted. */
  lemma SkipKeepsProgress(veths: Veths, start: set<string>, links: set<string>, deletions: seq<string>,
                          seen: set<string>, iface: string)
    requires Progress(veths, start, links, deletions, seen)
    requires iface in veths && iface !in links
    ensures Progress(veths, start, links, deletions, seen + {iface})
  {
  }

  lemma DeleteKeepsProgress(veths: Veths, start: set<string>, links: set<string>, deletions: seq<string>,
                            seen: set<string>, iface: string)
    requires Progress(veths, start, links, deletions, seen)
    requires iface in veths && iface in links
    ensures Progress(veths, start, links - {iface} - {veths[iface]}, deletions + [iface], seen + {iface})
  {
    assert multiset(deletions + [iface]) == multiset(deletions) + multiset{iface};
    var peer := veths[iface];
    forall x | x in veths
      ensures PairDeletions(deletions + [iface], x, veths[x]) ==
              if x in start && (x in seen + {iface} || veths[x] in seen + {iface}) then 1 else 0
    {
      assert x != iface && x != peer ==> veths[x] != iface && veths[x] != peer;
    }
  }
}
