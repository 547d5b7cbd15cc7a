/** The options of the BGP service: comma-separated name lists, and validation. */
module BgpConfig {
  import opened Prelude
  import opened Text
  import opened AsnRange

  /** An unset ASN range is the pair of zeros. */
  const NO_RANGE: Range := Range(0, 0)

  datatype Config = Config(
    externalConnection: string, bridge: string, vrf: string, asn: string, asnRange: Range, manualBgpd: bool)

  datatype Invalid = VrfNotANumber | AsnNotANumber | BadRange(error: AsnRange.Error) | NoConnections

  /** The parts of a list without the characters of `drop` around them; blanks are skipped. */
  function Names(parts: seq<string>, drop: set<char>): seq<string>
  {
    if parts == [] then []
    else
      var last := Trim(parts[|parts| - 1], drop);
      Names(parts[..|parts| - 1], drop) + (if last == "" then [] else [last])
  }

  /** The names in a comma-separated list, without the white space around them. */
  function ParseNames(text: string): seq<string> { Names(Split(text, ','), WHITE_SPACE) }

  /** The method behind both ParseExternalConnection and ParseBridge. */
  method ParseNameList(text: string) returns (names: seq<string>)
    ensures names == ParseNames(text)
  {
    names := TrimmedParts(Split(text, ','), WHITE_SPACE);
  }

  method TrimmedParts(parts: seq<string>, drop: set<char>) returns (names: seq<string>)
    ensures names == Names(parts, drop)
  {
    names := [];
    for i := 0 to |parts|
      invariant names == Names(parts[..i], drop)
    {
      assert parts[..i + 1][..i] == parts[..i];
      var name := Trim(parts[i], drop);
      if name == "" {
        continue;
      }
      names := names + [name];
    }
    assert parts[..|parts|] == parts;
  }

  /** A name that a list can carry: not empty, no comma, nothing to drop at either end. */
  predicate Clean(n: string, drop: set<char>)
  {
    n != "" && ',' !in n && Trim(n, drop) == n
  }

  predicate CleanName(n: string) { Clean(n, WHITE_SPACE) }

  /** Every parsed name is clean. */
  lemma ParsedNamesAreClean(text: string)
    ensures forall n | n in ParseNames(text) :: CleanName(n)
  {
    NamesAreClean(Split(text, ','), WHITE_SPACE);
  }

  lemma {:induction false} NamesAreClean(parts: seq<string>, drop: set<char>)
    requires forall p | p in parts :: ',' !in p
    ensures AllClean(Names(parts, drop), drop)
  {
    if parts != [] {
      NamesAreClean(parts[..|parts| - 1], drop);
      var part := parts[|parts| - 1];
      assert part in parts;
      var last := Trim(part, drop);
      TrimIsPart(part, drop, ',');
      if last != "" {
        NothingToTrim(last, drop);
      }
    }
  }

  /** Joining clean names and parsing the list gives the names back. */
  lemma NameListRoundTrip(names: seq<string>)
    requires forall n | n in names :: CleanName(n)
    ensures ParseNames(Join(names, ',')) == names
  {
    if names == [] {
      assert Split("", ',') == [""] && [""][..0] == [];
      BlankIsSkipped(WHITE_SPACE);
    } else {
      SplitOfJoin(names, ',');
      CleanNamesStay(names, WHITE_SPACE);
    }
  }

  /** White space around names, and parts of nothing else, are lost in parsing; nothing else is. */
  lemma PaddedListParses(names: seq<string>, lefts: seq<string>, rights: seq<string>)
    requires names != [] && |names| == |lefts| == |rights|
    requires forall i | 0 <= i < |names| :: Padding(names[i], lefts[i], rights[i], WHITE_SPACE)
    ensures ParseNames(Join(Padded(names, lefts, rights), ',')) == NonEmpty(names)
  {
    assert ',' !in WHITE_SPACE;
    PaddedParts(names, lefts, rights, WHITE_SPACE);
    SplitOfJoin(Padded(names, lefts, rights), ',');
  }

  /** A clean name or none, between characters of `drop`. */
  predicate Padding(name: string, left: string, right: string, drop: set<char>)
  {
    && (name == "" || Clean(name, drop))
    && AllIn(left, drop) && AllIn(right, drop)
  }

  function Padded(names: seq<string>, lefts: seq<string>, rights: seq<string>): seq<string>
    requires |names| == |lefts| == |rights|
  {
    seq(|names|, i requires 0 <= i < |names| => lefts[i] + names[i] + rights[i])
  }

  function NonEmpty(names: seq<string>): seq<string>
  {
    if names == [] then []
    else NonEmpty(names[..|names| - 1]) + (if names[|names| - 1] == "" then [] else [names[|names| - 1]])
  }

  /** Every part is a padded name. */
  ghost predicate Pads(names: seq<string>, parts: seq<string>, drop: set<char>)
  {
    |parts| == |names| && forall i | 0 <= i < |names| :: Trim(parts[i], drop) == names[i]
  }

  lemma PaddedParts(names: seq<string>, lefts: seq<string>, rights: seq<string>, drop: set<char>)
    requires |names| == |lefts| == |rights| && ',' !in drop
    requires forall i | 0 <= i < |names| :: Padding(names[i], lefts[i], rights[i], drop)
    ensures Names(Padded(names, lefts, rights), drop) == NonEmpty(names)
    ensures forall part | part in Padded(names, lefts, rights) :: ',' !in part
  {
    var parts := Padded(names, lefts, rights);
    forall i | 0 <= i < |names| ensures Trim(parts[i], drop) == names[i] && ',' !in parts[i] {
      PaddedPart(names[i], lefts[i], rights[i], drop);
    }
    PaddedNames(names, parts, drop);
  }

  lemma {:induction false} PaddedNames(names: seq<string>, parts: seq<string>, drop: set<char>)
    requires Pads(names, parts, drop)
    ensures Names(parts, drop) == NonEmpty(names)
  {
    if names != [] {
      PaddedNames(names[..|names| - 1], parts[..|parts| - 1], drop);
    }
  }

  lemma PaddedPart(name: string, left: string, right: string, drop: set<char>)
    requires Padding(name, left, right, drop) && ',' !in drop
    ensures Trim(left + name + right, drop) == name && ',' !in left + name + right
  {
    TrimPadded(left, name, right, drop);
    assert forall c | c in left + name + right :: c in left || c in name || c in right;
  }

  lemma BlankIsSkipped(drop: set<char>)
    ensures Names([""], drop) == []
  {
    assert [""][..0] == [] && Names([], drop) == [];
  }

  ghost predicate AllClean(names: seq<string>, drop: set<char>)
  {
    forall n | n in names :: Clean(n, drop)
  }

  lemma AllCleanParts(before: seq<string>, last: string, drop: set<char>)
    requires AllClean(before + [last], drop)
    ensures AllClean(before, drop) && Clean(last, drop)
  {
    assert (before + [last])[|before|] == last;
    assert forall n | n in before :: n in before + [last];
  }

  lemma NamesAppend(before: seq<string>, last: string, drop: set<char>)
    requires Clean(last, drop)
    ensures Names(before + [last], drop) == Names(before, drop) + [last]
  {
    assert (before + [last])[..|before|] == before;
  }

  lemma {:induction false} CleanNamesStay(names: seq<string>, drop: set<char>)
    requires AllClean(names, drop)
    ensures Names(names, drop) == names
  {
    if names != [] {
      var before, last := names[..|names| - 1], names[|names| - 1];
      assert names == before + [last];
      AllCleanParts(before, last, drop);
      CleanNamesStay(before, drop);
      NamesAppend(before, last, drop);
    }
  }

  lemma NothingToTrim(s: string, drop: set<char>)
    requires s != "" && s[0] !in drop && s[|s| - 1] !in drop
    ensures Trim(s, drop) == s
  {
  }

  /** A signed 64-bit decimal number. */
  predicate IsAtoi(s: string)
  {
    var digits := if s != "" && (s[0] == '-' || s[0] == '+') then s[1..] else s;
    && IsNumeral(digits)
    && DecimalValue(digits) <= if s[0] == '-' then 0x8000_0000_0000_0000 else 0x7FFF_FFFF_FFFF_FFFF
  }

  /** A numeral without or after one sign, from -2^63 up to 2^63 - 1. */
  lemma AtoiAccepts(digits: string)
    requires IsNumeral(digits)
    ensures IsAtoi(digits) <==> DecimalValue(digits) <= 9_223_372_036_854_775_807
    ensures IsAtoi("+" + digits) <==> DecimalValue(digits) <= 9_223_372_036_854_775_807
    ensures IsAtoi("-" + digits) <==> DecimalValue(digits) <= 9_223_372_036_854_775_808
  {
    assert digits[0] in digits && ("+" + digits)[1..] == digits && ("-" + digits)[1..] == digits;
  }

  lemma AtoiRejects(s: string)
    requires !IsNumeral(s) && !(s != "" && (s[0] == '-' || s[0] == '+') && IsNumeral(s[1..]))
    ensures !IsAtoi(s)
  {
  }

  function InvalidNumber(c: Config): Option<Invalid>
  {
    if c.vrf != "" && !IsAtoi(c.vrf) then Some(VrfNotANumber)
    else if c.asn != "" && ParseUint(c.asn, MAX_UINT32) == None then Some(AsnNotANumber)
    else
      match if c.asnRange != NO_RANGE then ValidateAsnRange(c.asnRange) else None
      case Some(error) => Some(BadRange(error))
      case None => None
  }

  predicate HasNames(c: Config)
  {
    ParseNames(c.externalConnection) != [] || ParseNames(c.bridge) != []
  }

  function Validate(c: Config): Option<Invalid>
  {
    match InvalidNumber(c)
    case Some(invalid) => Some(invalid)
    case None => if HasNames(c) then None else Some(NoConnections)
  }

  /** Valid is a configuration whose numbers are numbers where they are given, whose range holds at least
      two private ASNs where it is given, and that names an interface or a bridge. */
  lemma ValidIff(c: Config)
    ensures Validate(c) == None <==>
            && (c.vrf == "" || IsAtoi(c.vrf))
            && (c.asn == "" || (IsNumeral(c.asn) && DecimalValue(c.asn) <= 4_294_967_295))
            && ((c.asnRange.min == 0 && c.asnRange.max == 0)
                || 4_200_000_000 <= c.asnRange.min < c.asnRange.max <= 4_294_967_294)
            && (|ParseNames(c.externalConnection)| > 0 || |ParseNames(c.bridge)| > 0)
  {
    InvalidNumberIff(c);
  }

  lemma InvalidNumberIff(c: Config)
    ensures InvalidNumber(c) == None <==>
            && (c.vrf == "" || IsAtoi(c.vrf))
            && (c.asn == "" || (IsNumeral(c.asn) && DecimalValue(c.asn) <= 4_294_967_295))
            && ((c.asnRange.min == 0 && c.asnRange.max == 0)
                || 4_200_000_000 <= c.asnRange.min < c.asnRange.max <= 4_294_967_294)
  {
    ValidRangeIff(c.asnRange);
  }
}
