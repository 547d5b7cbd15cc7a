/** The comma-separated "ovn-bridge-mappings" text: what setup appends to it and records, and what
    teardown keeps of it. */
module BridgeMapping {
  import opened Prelude
  import opened Text
  import opened BgpNames

  function MappingEntry(host: string, bridge: string): string
  {
    PhysnetName(host, bridge) + ":" + bridge
  }

  /** The list that a mapping text stands for; an absent mapping reads as the empty text. */
  function Entries(mapping: string): seq<string>
  {
    if mapping == "" then [] else Split(mapping, ',')
  }

  function AppendEntry(mapping: string, entry: string): string
  {
    if mapping == "" then entry else mapping + "," + entry
  }

  /** The mapping after all of `bridges` were appended in order. */
  function SetupMapping(mapping: string, host: string, bridges: seq<string>): string
  {
    if bridges == [] then mapping
    else
      var last := |bridges| - 1;
      AppendEntry(SetupMapping(mapping, host, bridges[..last]), MappingEntry(host, bridges[last]))
  }

  function MappingEntries(host: string, bridges: seq<string>): (entries: seq<string>)
    ensures |entries| == |bridges|
    ensures forall i | 0 <= i < |bridges| :: entries[i] == MappingEntry(host, bridges[i])
  {
    seq(|bridges|, i requires 0 <= i < |bridges| => MappingEntry(host, bridges[i]))
  }

  predicate CommaFree(names: seq<string>) { forall n | n in names :: ',' !in n }

  lemma AppendEntryExtends(mapping: string, entry: string)
    requires entry != "" && ',' !in entry
    ensures Entries(AppendEntry(mapping, entry)) == Entries(mapping) + [entry]
  {
    if mapping == "" {
      SplitWhole(entry, ',');
    } else {
      var parts := Split(mapping, ',');
      JoinOfSplit(mapping, ',');
      JoinAppend(parts, entry, ',');
      SplitOfJoin(parts + [entry], ',');
      assert mapping + "," + entry == Join(parts, ',') + [','] + entry;
    }
  }

  /** Setup extends the old list by one entry for each bridge, in order. */
  lemma {:induction false} SetupExtends(mapping: string, host: string, bridges: seq<string>)
    requires ',' !in host && CommaFree(bridges)
    ensures Entries(SetupMapping(mapping, host, bridges)) == Entries(mapping) + MappingEntries(host, bridges)
  {
    if bridges != [] {
      var last := |bridges| - 1;
      SetupExtends(mapping, host, bridges[..last]);
      EntryIsClean(host, bridges[last]);
      AppendEntryExtends(SetupMapping(mapping, host, bridges[..last]), MappingEntry(host, bridges[last]));
      assert MappingEntries(host, bridges) ==
             MappingEntries(host, bridges[..last]) + [MappingEntry(host, bridges[last])];
    }
  }

  lemma EntryIsClean(host: string, bridge: string)
    requires ',' !in host && ',' !in bridge
    ensures MappingEntry(host, bridge) != "" && ',' !in MappingEntry(host, bridge)
  {
  }

  /** The entries that no recorded entry equals, in order. */
  function Unrecorded(entries: seq<string>, recorded: seq<string>): seq<string>
  {
    if entries == [] then []
    else
      var rest := Unrecorded(entries[1..], recorded);
      if entries[0] in recorded then rest else [entries[0]] + rest
  }

  lemma {:induction false} UnrecordedMembers(entries: seq<string>, recorded: seq<string>)
    ensures forall e :: e in Unrecorded(entries, recorded) <==> e in entries && e !in recorded
  {
    if entries != [] {
      UnrecordedMembers(entries[1..], recorded);
      assert entries == [entries[0]] + entries[1..];
    }
  }

  lemma {:induction false} UnrecordedAppend(a: seq<string>, b: seq<string>, recorded: seq<string>)
    ensures Unrecorded(a + b, recorded) == Unrecorded(a, recorded) + Unrecorded(b, recorded)
  {
    if a == [] {
      assert a + b == b;
    } else {
      UnrecordedAppend(a[1..], b, recorded);
      assert (a + b)[1..] == a[1..] + b;
    }
  }

  lemma {:induction false} UnrecordedAll(entries: seq<string>, recorded: seq<string>)
    ensures (forall e | e in entries :: e in recorded) ==> Unrecorded(entries, recorded) == []
    ensures (forall e | e in entries :: e !in recorded) ==> Unrecorded(entries, recorded) == entries
  {
    if entries != [] {
      UnrecordedAll(entries[1..], recorded);
      assert entries == [entries[0]] + entries[1..];
    }
  }

  function DropEmptyFront(entries: seq<string>): seq<string>
  {
    if entries == [] || entries[0] != "" then entries else DropEmptyFront(entries[1..])
  }

  function DropEmptyBack(entries: seq<string>): seq<string>
  {
    if entries == [] || entries[|entries| - 1] != "" then entries
    else DropEmptyBack(entries[..|entries| - 1])
  }

  /** Teardown's loop over the current mapping: every entry that was not recorded is appended after
      a comma, and the commas at both ends are trimmed at the end. */
  method RemoveRecorded(ovnMapping: string, recordedMapping: string) returns (newMapping: string)
    requires ovnMapping != "" && recordedMapping != ""
    ensures Entries(newMapping) ==
            DropEmptyBack(DropEmptyFront(Unrecorded(Entries(ovnMapping), Entries(recordedMapping))))
    ensures newMapping == RemainingMapping(ovnMapping, recordedMapping)
  {
    var recorded := Split(recordedMapping, ',');
    var current := Split(ovnMapping, ',');
    newMapping := "";
    for i := 0 to |current|
      invariant newMapping == AfterCommas(Unrecorded(current[..i], recorded))
    {
      assert current[..i + 1] == current[..i] + [current[i]];
      UnrecordedAppend(current[..i], [current[i]], recorded);
      UnrecordedAll([current[i]], recorded);
      assert Unrecorded(current[..i], recorded) + [] == Unrecorded(current[..i], recorded);
      if current[i] !in recorded {
        AfterCommasAppend(Unrecorded(current[..i], recorded), current[i]);
        newMapping := newMapping + "," + current[i];
      }
    }
    assert current[..|current|] == current;
    UnrecordedMembers(current, recorded);
    TrimmedEntries(Unrecorded(current, recorded));
    newMapping := Trim(newMapping, {','});
  }

  /** The text that the loop builds and trims. */
  function RemainingMapping(ovnMapping: string, recordedMapping: string): string
  {
    Trim(AfterCommas(Unrecorded(Entries(ovnMapping), Entries(recordedMapping))), {','})
  }

  function AfterCommas(entries: seq<string>): string
  {
    if entries == [] then "" else "," + Join(entries, ',')
  }

  lemma AfterCommasAppend(entries: seq<string>, e: string)
    ensures AfterCommas(entries + [e]) == AfterCommas(entries) + "," + e
  {
    if entries != [] {
      JoinAppend(entries, e, ',');
    }
  }

  /** Trimming the commas loses empty entries at the ends and nothing else. */
  lemma TrimmedEntries(kept: seq<string>)
    requires CommaFree(kept)
    ensures Entries(Trim(AfterCommas(kept), {','})) == DropEmptyBack(DropEmptyFront(kept))
  {
    var front := DropEmptyFront(kept);
    TrimLeftCommas(kept);
    if kept != [] {
      LeadingCommaIsTrimmed(Join(kept, ','));
    }
    assert TrimLeft(AfterCommas(kept), {','}) == Join(front, ',');
    TrimRightCommas(front);
    EntriesOfJoin(front);
  }

  lemma LeadingCommaIsTrimmed(s: string)
    ensures TrimLeft("," + s, {','}) == TrimLeft(s, {','})
  {
    assert ("," + s)[1..] == s;
  }

  lemma EntriesOfJoin(front: seq<string>)
    requires CommaFree(front)
    ensures Entries(Join(DropEmptyBack(front), ',')) == DropEmptyBack(front)
  {
    var both := DropEmptyBack(front);
    DropBackKeeps(front);
    if both != [] {
      SplitOfJoin(both, ',');
      JoinNonEmpty(both);
    }
  }

  lemma EmptyFirstPart(kept: seq<string>)
    requires kept != [] && kept[0] == ""
    ensures TrimLeft(Join(kept, ','), {','}) == TrimLeft(Join(kept[1..], ','), {','})
  {
    if |kept| > 1 {
      assert Join(kept, ',') == "," + Join(kept[1..], ',');
      LeadingCommaIsTrimmed(Join(kept[1..], ','));
    }
  }

  lemma FullFirstPart(kept: seq<string>)
    requires kept != [] && kept[0] != "" && ',' !in kept[0]
    ensures TrimLeft(Join(kept, ','), {','}) == Join(kept, ',')
  {
    assert Join(kept, ',')[0] == kept[0][0];
    assert kept[0][0] in kept[0];
  }

  lemma {:induction false} TrimLeftCommas(kept: seq<string>)
    requires CommaFree(kept)
    ensures TrimLeft(Join(kept, ','), {','}) == Join(DropEmptyFront(kept), ',')
    ensures CommaFree(DropEmptyFront(kept))
    ensures DropEmptyFront(kept) != [] ==> DropEmptyFront(kept)[0] != ""
  {
    if kept != [] && kept[0] == "" {
      TrimLeftCommas(kept[1..]);
      EmptyFirstPart(kept);
    } else if kept != [] {
      FullFirstPart(kept);
    }
  }

  lemma {:induction false} TrimRightCommas(kept: seq<string>)
    requires CommaFree(kept)
    ensures TrimRight(Join(kept, ','), {','}) == Join(DropEmptyBack(kept), ',')
  {
    if kept != [] {
      var last := |kept| - 1;
      if last > 0 {
        assert kept == kept[..last] + [kept[last]];
        JoinAppend(kept[..last], kept[last], ',');
      }
      if kept[last] == "" {
        TrimRightCommas(kept[..last]);
        if last > 0 {
          var s := Join(kept, ',');
          assert s == Join(kept[..last], ',') + [','];
          assert s[..|s| - 1] == Join(kept[..last], ',');
        }
      } else {
        var s := Join(kept, ',');
        assert s[|s| - 1] == kept[last][|kept[last]| - 1];
        assert s[|s| - 1] in kept[last];
      }
    }
  }

  lemma {:induction false} DropBackKeeps(kept: seq<string>)
    ensures DropEmptyBack(kept) <= kept
    ensures DropEmptyBack(kept) != [] ==> DropEmptyBack(kept)[|DropEmptyBack(kept)| - 1] != ""
  {
    if kept != [] && kept[|kept| - 1] == "" {
      DropBackKeeps(kept[..|kept| - 1]);
    }
  }

  lemma JoinNonEmpty(parts: seq<string>)
    requires parts != [] && parts[|parts| - 1] != ""
    ensures Join(parts, ',') != ""
  {
  }

  predicate NoEmptyEntry(entries: seq<string>) { "" !in entries }

  /** When no entry is empty, what is left after teardown is exactly the unrecorded entries. */
  lemma RemainingIsUnrecorded(ovnMapping: string, recordedMapping: string)
    requires NoEmptyEntry(Entries(ovnMapping))
    ensures Entries(RemainingMapping(ovnMapping, recordedMapping)) ==
            Unrecorded(Entries(ovnMapping), Entries(recordedMapping))
  {
    var kept := Unrecorded(Entries(ovnMapping), Entries(recordedMapping));
    UnrecordedMembers(Entries(ovnMapping), Entries(recordedMapping));
    TrimmedEntries(kept);
    assert kept != [] ==> kept[0] in kept && kept[|kept| - 1] in kept;
  }

  /** Setup of at least one bridge, later additions by somebody else, then teardown. Of the final
      list only additions remain: all of them that setup had not recorded. */
  lemma SetupThenTeardown(before: string, host: string, bridges: seq<string>, added: seq<string>)
    requires ',' !in host && CommaFree(bridges) && bridges != []
    requires NoEmptyEntry(Entries(before)) && NoEmptyEntry(added) && CommaFree(added)
    ensures var recorded := SetupMapping(before, host, bridges);
            var later := Join(Entries(recorded) + added, ',');
            && Entries(later) == Entries(recorded) + added
            && Entries(RemainingMapping(later, recorded)) == Unrecorded(added, Entries(recorded))
  {
    var recorded := SetupMapping(before, host, bridges);
    var own := Entries(recorded);
    SetupExtends(before, host, bridges);
    forall e | e in own ensures e != "" && ',' !in e {
      if e in MappingEntries(host, bridges) {
        var i :| 0 <= i < |bridges| && e == MappingEntry(host, bridges[i]);
        EntryIsClean(host, bridges[i]);
      }
    }
    var later := Join(own + added, ',');
    SplitOfJoin(own + added, ',');
    assert own[0] in own && (own + added)[0] == own[0];
    assert later != "";
    RemainingIsUnrecorded(later, recorded);
    UnrecordedAppend(own, added, own);
    UnrecordedAll(own, own);
  }

  /** From an absent mapping the later additions survive exactly, provided they are not entries
      that setup made itself. */
  lemma RoundTripFromAbsent(host: string, bridges: seq<string>, added: seq<string>)
    requires ',' !in host && CommaFree(bridges) && bridges != []
    requires NoEmptyEntry(added) && CommaFree(added)
    requires forall e | e in added :: e !in MappingEntries(host, bridges)
    ensures var recorded := SetupMapping("", host, bridges);
            Entries(RemainingMapping(Join(Entries(recorded) + added, ','), recorded)) == added
  {
    SetupThenTeardown("", host, bridges, added);
    SetupExtends("", host, bridges);
    UnrecordedAll(added, MappingEntries(host, bridges));
    assert [] + MappingEntries(host, bridges) == MappingEntries(host, bridges);
  }

  /** Whatever was mapped before setup is recorded too, so teardown gives the earlier list back
      exactly when there was none. */
  lemma EarlierEntriesSurviveIff(before: string, host: string, bridges: seq<string>)
    ensures var recorded := SetupMapping(before, host, bridges);
            Entries(RemainingMapping(recorded, recorded)) == Entries(before) <==> before == ""
  {
    var recorded := SetupMapping(before, host, bridges);
    UnrecordedAll(Entries(recorded), Entries(recorded));
  }

  // ---- How a mapping is read ----

  /** An entry names a network before its first colon and a bridge after it. */
  function ReadEntry(entry: string): Option<(string, string)>
  {
    var network := Split(entry, ':')[0];
    if |network| >= |entry| then None else Some((network, entry[|network| + 1..]))
  }

  /** The mapping connects the network to the bridge. */
  ghost predicate MapsTo(mapping: string, network: string, bridge: string)
  {
    exists e :: e in Entries(mapping) && ReadEntry(e) == Some((network, bridge))
  }

  predicate ColonFree(names: seq<string>) { forall n | n in names :: ':' !in n }

  lemma ReadsBack(network: string, bridge: string)
    requires ':' !in network
    ensures ReadEntry(network + ":" + bridge) == Some((network, bridge))
  {
    SplitAtSeparator(network, bridge, ':');
    assert network + ":" + bridge == network + [':'] + bridge;
  }

  /** The entry of a bridge is read as its physical network and the bridge exactly when neither the host
      nor the bridge holds a colon. */
  lemma EntryReadsIff(host: string, bridge: string)
    ensures ReadEntry(MappingEntry(host, bridge)) == Some(("physnet_" + host + "_" + bridge, bridge)) <==>
            ':' !in host && ':' !in bridge
  {
    var network := "physnet_" + host + "_" + bridge;
    if ':' !in host && ':' !in bridge {
      ReadsBack(network, bridge);
    } else {
      assert ':' in network;
      assert Split(MappingEntry(host, bridge), ':')[0] in Split(MappingEntry(host, bridge), ':');
    }
  }

  /** After setup a network is connected to a bridge exactly when it was before, or the bridge is one of
      those set up and the network its physical network on this host. */
  lemma SetupReads(mapping: string, host: string, bridges: seq<string>, network: string, bridge: string)
    requires ',' !in host && CommaFree(bridges) && ':' !in host && ColonFree(bridges)
    ensures MapsTo(SetupMapping(mapping, host, bridges), network, bridge) <==>
            MapsTo(mapping, network, bridge) || (bridge in bridges && network == PhysnetName(host, bridge))
  {
    SetupExtends(mapping, host, bridges);
    var own := MappingEntries(host, bridges);
    forall i | 0 <= i < |bridges| ensures ReadEntry(own[i]) == Some((PhysnetName(host, bridges[i]), bridges[i])) {
      assert bridges[i] in bridges;
      EntryReadsIff(host, bridges[i]);
    }
    if bridge in bridges && network == PhysnetName(host, bridge) {
      var i :| 0 <= i < |bridges| && bridges[i] == bridge;
      assert own[i] in Entries(mapping) + own;
    }
    if e :| e in own && ReadEntry(e) == Some((network, bridge)) {
      var i :| 0 <= i < |own| && own[i] == e;
    }
  }

  // ---- What a selection keeps ----

  /** `kept` are the entries at the positions `at`, in order, and those are all that are not recorded. */
  ghost predicate Selects(entries: seq<string>, recorded: seq<string>, at: seq<nat>, kept: seq<string>)
  {
    && |at| == |kept|
    && (forall i, j | 0 <= i < j < |at| :: at[i] < at[j])
    && (forall i | 0 <= i < |at| :: at[i] < |entries| && kept[i] == entries[at[i]])
    && (forall k: nat | k < |entries| :: k in at <==> entries[k] !in recorded)
  }

  ghost predicate KeptInOrder(entries: seq<string>, recorded: seq<string>, kept: seq<string>)
  {
    exists at :: Selects(entries, recorded, at, kept)
  }

  lemma {:induction false} UnrecordedSelects(entries: seq<string>, recorded: seq<string>) returns (at: seq<nat>)
    ensures Selects(entries, recorded, at, Unrecorded(entries, recorded))
  {
    if entries == [] {
      at := [];
    } else {
      var before, last := entries[..|entries| - 1], entries[|entries| - 1];
      var rest := UnrecordedSelects(before, recorded);
      assert entries == before + [last];
      UnrecordedAppend(before, [last], recorded);
      UnrecordedAll([last], recorded);
      assert Unrecorded(before, recorded) + [] == Unrecorded(before, recorded);
      at := if last in recorded then rest else rest + [|before|];
      SelectsMore(before, last, recorded, rest, Unrecorded(before, recorded));
    }
  }

  lemma SelectsMore(before: seq<string>, last: string, recorded: seq<string>, at: seq<nat>, kept: seq<string>)
    requires Selects(before, recorded, at, kept)
    ensures last in recorded ==> Selects(before + [last], recorded, at, kept)
    ensures last !in recorded ==> Selects(before + [last], recorded, at + [|before|], kept + [last])
  {
    assert forall k: nat | k < |before| :: (before + [last])[k] == before[k];
    assert forall k: nat :: k in at + [|before|] <==> k in at || k == |before|;
  }

  /** Teardown's text holds exactly the unrecorded entries, in order. */
  lemma RemainingInOrder(ovnMapping: string, recordedMapping: string)
    requires NoEmptyEntry(Entries(ovnMapping))
    ensures KeptInOrder(Entries(ovnMapping), Entries(recordedMapping), Entries(RemainingMapping(ovnMapping, recordedMapping)))
  {
    RemainingIsUnrecorded(ovnMapping, recordedMapping);
    var at := UnrecordedSelects(Entries(ovnMapping), Entries(recordedMapping));
  }
}
