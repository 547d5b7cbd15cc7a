/** Names of the OVN and OVS resources that one host creates for one interface, and how teardown
    tells its own logical switches from those of other hosts. */
module BgpNames {
  import opened Text

  function LrName(host: string): string { "lr-" + host + "-microovn" }

  function LsName(host: string, iface: string): string { "ls-" + host + "-" + iface }

  function LrpName(host: string, iface: string): string { "lrp-" + host + "-" + iface }

  function PhysnetName(host: string, iface: string): string { "physnet_" + host + "_" + iface }

  function CutSuffix(s: string, suffix: string): string
  {
    if |suffix| <= |s| && s[|s| - |suffix|..] == suffix then s[..|s| - |suffix|] else s
  }

  /** The switch name of a dummy interface, with the dummy cut off again. */
  function LsNameChassisMatch(host: string): string
  {
    CutSuffix(LsName(host, "FOO"), "FOO")
  }

  /** Teardown's test: the switch name starts with the chassis prefix. */
  predicate BelongsToChassis(host: string, switchName: string)
  {
    LsNameChassisMatch(host) <= switchName
  }

  /** A text determines its part before the first separator and the part after it. */
  lemma HeadBeforeSeparator(h1: string, r1: string, h2: string, r2: string, sep: char)
    requires sep !in h1 && sep !in h2
    requires h1 + [sep] + r1 == h2 + [sep] + r2
    ensures h1 == h2 && r1 == r2
  {
    SplitAtSeparator(h1, r1, sep);
    SplitAtSeparator(h2, r2, sep);
    assert h1 == Split(h1 + [sep] + r1, sep)[0] == h2;
    assert (h1 + [sep] + r1)[|h1| + 1..] == r1;
    assert (h1 + [sep] + r2)[|h1| + 1..] == r2;
  }

  /** A tag, a host and an interface can be read back when the host holds no separator. */
  lemma SeparatedNameInjective(tag: string, sep: char, h1: string, i1: string, h2: string, i2: string)
    requires sep !in h1 && sep !in h2
    ensures tag + h1 + [sep] + i1 == tag + h2 + [sep] + i2 <==> h1 == h2 && i1 == i2
  {
    var a, b := tag + h1 + [sep] + i1, tag + h2 + [sep] + i2;
    if a == b {
      assert a[|tag|..] == h1 + [sep] + i1;
      assert b[|tag|..] == h2 + [sep] + i2;
      HeadBeforeSeparator(h1, i1, h2, i2, sep);
    }
  }

  /** Switch, router port and physical network names tell (host, interface) pairs apart. */
  lemma NamesInjective(h1: string, i1: string, h2: string, i2: string)
    ensures '-' !in h1 && '-' !in h2 ==>
              (LsName(h1, i1) == LsName(h2, i2) <==> h1 == h2 && i1 == i2)
    ensures '-' !in h1 && '-' !in h2 ==>
              (LrpName(h1, i1) == LrpName(h2, i2) <==> h1 == h2 && i1 == i2)
    ensures '_' !in h1 && '_' !in h2 ==>
              (PhysnetName(h1, i1) == PhysnetName(h2, i2) <==> h1 == h2 && i1 == i2)
  {
    if '-' !in h1 && '-' !in h2 {
      SeparatedNameInjective("ls-", '-', h1, i1, h2, i2);
      SeparatedNameInjective("lrp-", '-', h1, i1, h2, i2);
    }
    if '_' !in h1 && '_' !in h2 {
      SeparatedNameInjective("physnet_", '_', h1, i1, h2, i2);
    }
  }

  /** Every host has a router of its own. */
  lemma RouterNamesInjective(h1: string, h2: string)
    ensures LrName(h1) == LrName(h2) <==> h1 == h2
  {
    var suffix := "-microovn";
    assert LrName(h1)[3..|LrName(h1)| - |suffix|] == h1 && LrName(h2)[3..|LrName(h2)| - |suffix|] == h2;
  }

  /** Cutting the dummy interface leaves exactly the part that all switches of the host share. */
  lemma ChassisMatchIsSharedPrefix(host: string)
    ensures LsNameChassisMatch(host) == "ls-" + host + "-"
  {
    var s := LsName(host, "FOO");
    assert s == ("ls-" + host + "-") + "FOO";
    assert s[|s| - 3..] == "FOO";
  }

  /** The test only compares the two dash-terminated hosts and the interface. */
  lemma BelongsByHost(h1: string, h2: string, iface: string)
    ensures BelongsToChassis(h1, LsName(h2, iface)) <==> h1 + "-" <= h2 + "-" + iface
  {
    ChassisMatchIsSharedPrefix(h1);
    var s := LsName(h2, iface);
    assert s[3..] == h2 + "-" + iface;
    assert ("ls-" + h1 + "-")[3..] == h1 + "-";
    if h1 + "-" <= h2 + "-" + iface {
      assert "ls-" + h1 + "-" == "ls-" + (h1 + "-");
      assert s == "ls-" + (h2 + "-" + iface);
    }
  }

  /** Between hosts without a dash the filter is exact. */
  lemma ChassisFilterExact(h1: string, h2: string, iface: string)
    requires '-' !in h1 && '-' !in h2
    ensures BelongsToChassis(h1, LsName(h2, iface)) <==> h1 == h2
  {
    BelongsByHost(h1, h2, iface);
    var own, name := h1 + "-", h2 + "-" + iface;
    if own <= name {
      var rest := name[|own|..];
      assert h1 + ['-'] + rest == h2 + ['-'] + iface;
      HeadBeforeSeparator(h1, rest, h2, iface, '-');
    }
  }

  /** For any two hosts: the filter of the first never takes a switch of the second exactly when
      neither dash-terminated name starts with the other. */
  lemma ForeignSwitchesSafeIff(h1: string, h2: string)
    requires h1 != h2
    ensures (forall iface | iface != "" :: !BelongsToChassis(h1, LsName(h2, iface)))
       <==> !(h1 + "-" <= h2 + "-") && !(h2 + "-" <= h1 + "-")
  {
    var a, b := h1 + "-", h2 + "-";
    if a <= b {
      BelongsByHost(h1, h2, "e");
      assert a <= b + "e";
      assert BelongsToChassis(h1, LsName(h2, "e"));
    } else if b <= a {
      var iface := a[|b|..];
      assert b + iface == a;
      assert h1 == a[..|a| - 1] && h2 == b[..|b| - 1];
      BelongsByHost(h1, h2, iface);
      assert BelongsToChassis(h1, LsName(h2, iface));
    } else {
      forall iface | iface != ""
        ensures !BelongsToChassis(h1, LsName(h2, iface))
      {
        BelongsByHost(h1, h2, iface);
        if a <= b + iface {
          PrefixesOfOneText(a, b, b + iface);
        }
      }
    }
  }

  lemma PrefixesOfOneText(a: string, b: string, s: string)
    requires a <= s && b <= s
    ensures a <= b || b <= a
  {
    assert a == s[..|a|] && b == s[..|b|];
  }

  /** A host named like another one plus a dash loses its switches to the other's teardown. */
  lemma DashedHostIsCaught()
    ensures BelongsToChassis("node", LsName("node-2", "eth0"))
  {
    BelongsByHost("node", "node-2", "eth0");
  }
}
