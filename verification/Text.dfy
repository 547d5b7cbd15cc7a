/** The string operations that the configuration code leans on: splitting and joining at a
    separator, trimming, and decimal text. Each one is paired with the law its callers use. */
module Text {
  import opened Prelude

  /** All the parts of `s` between occurrences of `sep`; there is always at least one. */
  function Split(s: string, sep: char): (parts: seq<string>)
    ensures |parts| >= 1
    ensures forall p | p in parts :: sep !in p
  {
    if s == "" then [""]
    else
      var rest := Split(s[1..], sep);
      if s[0] == sep then [""] + rest else [[s[0]] + rest[0]] + rest[1..]
  }

  function Join(parts: seq<string>, sep: char): string
  {
    if parts == [] then ""
    else if |parts| == 1 then parts[0]
    else parts[0] + [sep] + Join(parts[1..], sep)
  }

  lemma {:induction false} SplitAtSeparator(p: string, rest: string, sep: char)
    requires sep !in p
    ensures Split(p + [sep] + rest, sep) == [p] + Split(rest, sep)
  {
    if p == "" {
      assert p + [sep] + rest == [sep] + rest;
    } else {
      SplitAtSeparator(p[1..], rest, sep);
      assert (p + [sep] + rest)[1..] == p[1..] + [sep] + rest;
      assert [p[0]] + p[1..] == p;
    }
  }

  lemma {:induction false} SplitWhole(p: string, sep: char)
    requires sep !in p
    ensures Split(p, sep) == [p]
  {
    if p != "" {
      SplitWhole(p[1..], sep);
      assert [p[0]] + p[1..] == p;
    }
  }

  /** Splitting undoes joining, for parts that do not contain the separator. */
  lemma {:induction false} SplitOfJoin(parts: seq<string>, sep: char)
    requires parts != []
    requires forall p | p in parts :: sep !in p
    ensures Split(Join(parts, sep), sep) == parts
  {
    if |parts| == 1 {
      SplitWhole(parts[0], sep);
    } else {
      SplitOfJoin(parts[1..], sep);
      SplitAtSeparator(parts[0], Join(parts[1..], sep), sep);
    }
  }

  /** Joining undoes splitting, for every text. */
  lemma {:induction false} JoinOfSplit(s: string, sep: char)
    ensures Join(Split(s, sep), sep) == s
  {
    if s != "" {
      var rest := Split(s[1..], sep);
      JoinOfSplit(s[1..], sep);
      assert s == [s[0]] + s[1..];
      if s[0] == sep {
        assert ([""] + rest)[1..] == rest;
      } else {
        var parts := [[s[0]] + rest[0]] + rest[1..];
        assert parts[1..] == rest[1..];
      }
    }
  }

  lemma {:induction false} JoinAppend(parts: seq<string>, last: string, sep: char)
    requires parts != []
    ensures Join(parts + [last], sep) == Join(parts, sep) + [sep] + last
  {
    if |parts| == 1 {
      assert (parts + [last])[1..] == [last];
    } else {
      JoinAppend(parts[1..], last, sep);
      assert (parts + [last])[1..] == parts[1..] + [last];
    }
  }

  function TrimLeft(s: string, drop: set<char>): (r: string)
    ensures |r| <= |s| && r == s[|s| - |r|..]
    ensures r == "" || r[0] !in drop
  {
    if s == "" || s[0] !in drop then s else TrimLeft(s[1..], drop)
  }

  function TrimRight(s: string, drop: set<char>): (r: string)
    ensures |r| <= |s| && r == s[..|r|]
    ensures r == "" || r[|r| - 1] !in drop
  {
    if s == "" || s[|s| - 1] !in drop then s else TrimRight(s[..|s| - 1], drop)
  }

  /** Both ends trimmed, as strings.Trim does. */
  function Trim(s: string, drop: set<char>): (r: string)
    ensures r == "" || (r[0] !in drop && r[|r| - 1] !in drop)
  {
    TrimRight(TrimLeft(s, drop), drop)
  }

  predicate AllIn(s: string, drop: set<char>)
  {
    forall i | 0 <= i < |s| :: s[i] in drop
  }

  /** Nothing but characters of `drop` is lost, and all of them at both ends are. */
  lemma TrimPadded(left: string, s: string, right: string, drop: set<char>)
    requires AllIn(left, drop) && AllIn(right, drop)
    requires s == "" || (s[0] !in drop && s[|s| - 1] !in drop)
    ensures Trim(left + s + right, drop) == s
  {
    assert left + s + right == left + (s + right);
    LeftDropped(left, s + right, drop);
    TrimmedRest(s, right, drop);
  }

  lemma TrimmedRest(s: string, right: string, drop: set<char>)
    requires AllIn(right, drop) && (s == "" || (s[0] !in drop && s[|s| - 1] !in drop))
    ensures TrimRight(TrimLeft(s + right, drop), drop) == s
  {
    if s == "" {
      AllDropped(right, drop);
      assert s + right == right;
    } else {
      assert (s + right)[0] == s[0];
      RightDropped(s, right, drop);
    }
  }

  lemma {:induction false} LeftDropped(left: string, s: string, drop: set<char>)
    requires AllIn(left, drop)
    ensures TrimLeft(left + s, drop) == TrimLeft(s, drop)
    decreases |left|
  {
    if left == "" {
      assert left + s == s;
    } else {
      var last := |left| - 1;
      LeftDropped(left[..last], [left[last]] + s, drop);
      DropsFirst(left[last], s, drop);
      assert left + s == left[..last] + ([left[last]] + s);
    }
  }

  lemma DropsFirst(c: char, s: string, drop: set<char>)
    requires c in drop
    ensures TrimLeft([c] + s, drop) == TrimLeft(s, drop)
  {
    assert ([c] + s)[1..] == s;
  }

  lemma DropsLast(s: string, c: char, drop: set<char>)
    requires c in drop
    ensures TrimRight(s + [c], drop) == TrimRight(s, drop)
  {
    assert (s + [c])[..|s|] == s;
  }

  lemma AllDropped(s: string, drop: set<char>)
    requires AllIn(s, drop)
    ensures TrimLeft(s, drop) == ""
  {
    LeftDropped(s, "", drop);
    assert s + "" == s;
  }

  lemma {:induction false} RightDropped(s: string, right: string, drop: set<char>)
    requires AllIn(right, drop)
    requires s != "" && s[|s| - 1] !in drop
    ensures TrimRight(s + right, drop) == s
  {
    if right == "" {
      assert s + right == s;
    } else {
      var last := |right| - 1;
      RightDropped(s, right[..last], drop);
      DropsLast(s + right[..last], right[last], drop);
      assert s + right == s + right[..last] + [right[last]];
    }
  }

  /** Only characters of the text are left. */
  lemma TrimIsPart(s: string, drop: set<char>, c: char)
    ensures c in Trim(s, drop) ==> c in s
  {
    var left := TrimLeft(s, drop);
    assert c in TrimRight(left, drop) ==> c in left;
    assert c in left ==> c in s;
  }

  /** Unicode white space. */
  const WHITE_SPACE: set<char> := {
    ' ', '\t', '\n', '\r', '\U{000B}', '\U{000C}', '\U{0085}', '\U{00A0}', '\U{1680}',
    '\U{2000}', '\U{2001}', '\U{2002}', '\U{2003}', '\U{2004}', '\U{2005}', '\U{2006}', '\U{2007}',
    '\U{2008}', '\U{2009}', '\U{200A}', '\U{2028}', '\U{2029}', '\U{202F}', '\U{205F}', '\U{3000}'}

  predicate IsDigit(c: char) { '0' <= c <= '9' }

  predicate IsNumeral(s: string) { s != "" && forall c | c in s :: IsDigit(c) }

  function DigitOf(d: nat): char
    requires d < 10
  {
    ('0' as int + d) as char
  }

  /** The decimal text of a number, most significant digit first. */
  function ToDecimal(n: nat): (s: string)
    ensures IsNumeral(s)
  {
    if n < 10 then [DigitOf(n)] else ToDecimal(n / 10) + [DigitOf(n % 10)]
  }

  function DecimalValue(s: string): nat
    requires forall c | c in s :: IsDigit(c)
  {
    if s == "" then 0
    else
      var last := s[|s| - 1];
      assert IsDigit(last);
      10 * DecimalValue(s[..|s| - 1]) + (last as int - '0' as int)
  }

  /** Ten units of one digit make one of the next, and the digits count from zero to nine. */
  lemma DecimalValueIsBaseTen(s: string, c: char)
    requires (forall d | d in s :: IsDigit(d)) && IsDigit(c)
    ensures DecimalValue([c]) == c as int - '0' as int
    ensures DecimalValue(s + [c]) == 10 * DecimalValue(s) + DecimalValue([c])
  {
    assert [c][..0] == "" && (s + [c])[..|s|] == s;
  }

  lemma {:induction false} DecimalRoundTrip(n: nat)
    ensures DecimalValue(ToDecimal(n)) == n
  {
    if n < 10 {
      assert ToDecimal(n)[..0] == "";
    } else {
      DecimalRoundTrip(n / 10);
      var s := ToDecimal(n);
      assert s[..|s| - 1] == ToDecimal(n / 10);
    }
  }

  /** Unsigned base-10 parsing with an upper bound: an empty text, any character that is not a
      digit and any value above the bound are errors. */
  function ParseUint(s: string, max: nat): (r: Option<nat>)
  {
    if !IsNumeral(s) then None
    else if DecimalValue(s) > max then None
    else Some(DecimalValue(s))
  }
}
