/** The query builder for the services table: how a list of filters becomes one query text with
    positional arguments, and what that text selects. */
module ServiceQuery {
  import opened Prelude
  import opened Members
  import opened Sql
  import Services

  datatype Filter = Filter(member: Option<string>, service: Option<string>)

  datatype Error = EmptyFilter | QueryFailed

  const KEYS: Text := [Col(MemberIdColumn), Comma, Col(ServiceColumn)]
  const STATEMENT_ORDER: seq<Column> := [MemberIdColumn, ServiceColumn]

  // The registered statements.
  const OBJECTS: Text := [Select, OrderBy] + KEYS
  const BY_MEMBER: Text := [Select, Where, Open, Col(MemberColumn), Equals, Param, Close, OrderBy] + KEYS
  const BY_SERVICE: Text := [Select, Where, Open, Col(ServiceColumn), Equals, Param, Close, OrderBy] + KEYS
  const BY_MEMBER_AND_SERVICE: Text :=
    [Select, Where, Open, Col(MemberColumn), Equals, Param, And, Col(ServiceColumn), Equals, Param, Close, OrderBy] + KEYS

  /** The text before the first `sep` and the text after it (all and nothing when there is none). */
  function Cut(t: Text, sep: Token): (Text, Text)
  {
    if t == [] then ([], [])
    else if t[0] == sep then ([], t[1..])
    else
      var (before, after) := Cut(t[1..], sep);
      ([t[0]] + before, after)
  }

  predicate IsEmpty(f: Filter) { f.member == None && f.service == None }

  /** What the caller means by a filter. */
  predicate Matches(f: Filter, row: Joined)
  {
    && (f.member.Some? ==> row.member == f.member.value)
    && (f.service.Some? ==> row.service == f.service.value)
  }

  predicate MatchesAny(filters: seq<Filter>, row: Joined)
  {
    exists f | f in filters :: Matches(f, row)
  }

  function StatementFor(f: Filter): Text
    requires !IsEmpty(f)
  {
    if f.member.Some? && f.service.Some? then BY_MEMBER_AND_SERVICE
    else if f.service.Some? then BY_SERVICE
    else BY_MEMBER
  }

  function ArgsFor(f: Filter): seq<string>
  {
    (if f.member.Some? then [f.member.value] else [])
    + (if f.service.Some? then [f.service.value] else [])
  }

  function AllArgs(filters: seq<Filter>): seq<string>
  {
    if filters == [] then [] else AllArgs(filters[..|filters| - 1]) + ArgsFor(filters[|filters| - 1])
  }

  /** The parenthesised condition of one filter. */
  function Group(f: Filter): Text
    requires !IsEmpty(f)
  {
    if f.member.Some? && f.service.Some? then
      [Open, Col(MemberColumn), Equals, Param, And, Col(ServiceColumn), Equals, Param, Close]
    else if f.service.Some? then [Open, Col(ServiceColumn), Equals, Param, Close]
    else [Open, Col(MemberColumn), Equals, Param, Close]
  }

  ghost predicate NoEmptyFilter(filters: seq<Filter>)
  {
    forall f | f in filters :: !IsEmpty(f)
  }

  function Groups(filters: seq<Filter>): Text
    requires filters != [] && forall f | f in filters :: !IsEmpty(f)
  {
    if |filters| == 1 then Group(filters[0])
    else
      var last := |filters| - 1;
      Groups(filters[..last]) + [Or] + Group(filters[last])
  }

  /** Every row that matches at least one filter, in statement order; a list is rejected exactly when
      it contains an empty filter. */
  method GetServices(filters: seq<Filter>, rows: seq<Joined>) returns (r: Result<seq<Joined>, Error>)
    ensures !NoEmptyFilter(filters) ==> r == Err(EmptyFilter)
    ensures NoEmptyFilter(filters) ==> r == Ok(Wanted(filters, rows))
  {
    var query := BuildQuery(filters);
    if query.Err? {
      return Err(query.error);
    }
    if filters == [] {
      UnfilteredTextMeans(rows);
    } else {
      SplicedTextMeans(filters, rows);
    }
    var objects := Execute(query.value.text, query.value.args, rows);
    if objects == None {
      return Err(QueryFailed);
    }
    r := Ok(objects.value);
  }

  function Wanted(filters: seq<Filter>, rows: seq<Joined>): seq<Joined>
  {
    SortBy(STATEMENT_ORDER,
           if filters == [] then rows else Sql.Filter(rows, row => MatchesAny(filters, row)))
  }

  datatype Query = Query(text: Text, args: seq<string>)

  /** The registered statement for the fields that a filter sets, and their values. */
  method StatementAndArgs(filter: Filter) returns (query: Option<Query>)
    ensures query == if IsEmpty(filter) then None else Some(Query(StatementFor(filter), ArgsFor(filter)))
  {
    if filter.member.Some? && filter.service.Some? {
      query := Some(Query(BY_MEMBER_AND_SERVICE, [filter.member.value, filter.service.value]));
    } else if filter.service.Some? && filter.member == None {
      query := Some(Query(BY_SERVICE, [filter.service.value]));
    } else if filter.member.Some? && filter.service == None {
      query := Some(Query(BY_MEMBER, [filter.member.value]));
    } else {
      query := None;
    }
    assert query.Some? ==> query.value.args == ArgsFor(filter);
  }

  /** The first statement is cut at its ORDER BY; of every later one only the condition is taken. */
  method Splice(ghost done: seq<Filter>, part0: Text, part1: Text, filter: Filter, query: Text)
    returns (new0: Text, new1: Text)
    requires NoEmptyFilter(done) && !IsEmpty(filter) && query == StatementFor(filter)
    requires if part0 == [] then done == [] else done != [] && part0 == [Select, Where] + Groups(done) && part1 == KEYS
    ensures NoEmptyFilter(done + [filter])
    ensures new0 == [Select, Where] + Groups(done + [filter]) && new1 == KEYS
  {
    AppendFilter(done, filter);
    StatementSplits(filter);
    var (before, after) := Cut(query, OrderBy);
    if part0 == [] {
      return before, after;
    }
    var (_, where) := Cut(before, Where);
    SpliceAssociates(Groups(done), where);
    new0, new1 := part0 + [Or] + where, part1;
  }

  /** Picks a prepared statement for none or one filter, and splices the text for several. */
  method BuildQuery(filters: seq<Filter>) returns (r: Result<Query, Error>)
    ensures !NoEmptyFilter(filters) ==> r == Err(EmptyFilter)
    ensures NoEmptyFilter(filters) ==>
              r == Ok(Query(if filters == [] then OBJECTS else Spliced(filters), AllArgs(filters)))
  {
    var args: seq<string> := [];
    var part0: Text, part1: Text := [], [];
    if |filters| == 0 {
      return Ok(Query(OBJECTS, args));
    }
    for i := 0 to |filters|
      invariant NoEmptyFilter(filters[..i])
      invariant args == AllArgs(filters[..i])
      invariant |filters| == 1 ==> i == 0
      invariant if i == 0 then part0 == [] else part0 == [Select, Where] + Groups(filters[..i]) && part1 == KEYS
    {
      var filter := filters[i];
      assert filter in filters;
      assert filters[..i + 1] == filters[..i] + [filter];
      var query := StatementAndArgs(filter);
      match query
      case None => return Err(EmptyFilter);
      case Some(q) =>
        AppendFilter(filters[..i], filter);
        args := args + q.args;
        if |filters| == 1 {
          OneFilterPrepared(filter);
          assert filters == [filter];
          return Ok(Query(q.text, args));
        }
        part0, part1 := Splice(filters[..i], part0, part1, filter, q.text);
    }
    assert filters[..|filters|] == filters;
    r := Ok(Query(part0 + [OrderBy] + part1, args));
  }

  /** One more filter at the end adds its arguments and its group. */
  lemma AppendFilter(filters: seq<Filter>, f: Filter)
    requires NoEmptyFilter(filters) && !IsEmpty(f)
    ensures NoEmptyFilter(filters + [f])
    ensures AllArgs(filters + [f]) == AllArgs(filters) + ArgsFor(f)
    ensures Groups(filters + [f]) == if filters == [] then Group(f) else Groups(filters) + [Or] + Group(f)
  {
    assert (filters + [f])[..|filters|] == filters;
  }

  lemma SpliceAssociates(groups: Text, where: Text)
    ensures [Select, Where] + groups + [Or] + where == [Select, Where] + (groups + [Or] + where)
  {
  }

  /** The complete text for a non-empty list of filters. */
  function Spliced(filters: seq<Filter>): Text
    requires filters != [] && forall f | f in filters :: !IsEmpty(f)
  {
    [Select, Where] + Groups(filters) + [OrderBy] + KEYS
  }

  /** A prepared statement is cut at its ORDER BY and its WHERE into the pieces that are spliced. */
  lemma StatementSplits(f: Filter)
    requires !IsEmpty(f)
    ensures Cut(StatementFor(f), OrderBy) == ([Select, Where] + Group(f), KEYS)
    ensures Cut([Select, Where] + Group(f), Where) == ([Select], Group(f))
  {
    CutAt([Select, Where] + Group(f), KEYS, OrderBy);
    assert StatementFor(f) == [Select, Where] + Group(f) + [OrderBy] + KEYS;
    CutAt([Select], Group(f), Where);
    assert [Select] + [Where] + Group(f) == [Select, Where] + Group(f);
  }

  lemma {:induction false} CutAt(before: Text, after: Text, sep: Token)
    requires sep !in before
    ensures Cut(before + [sep] + after, sep) == (before, after)
  {
    if before == [] {
      assert [] + [sep] + after == [sep] + after;
    } else {
      CutAt(before[1..], after, sep);
      assert (before + [sep] + after)[1..] == before[1..] + [sep] + after;
      assert [before[0]] + before[1..] == before;
    }
  }

  /** The one-filter path runs the very text that the general path would splice. */
  lemma OneFilterPrepared(f: Filter)
    requires !IsEmpty(f)
    ensures StatementFor(f) == Spliced([f])
    ensures AllArgs([f]) == ArgsFor(f)
  {
    assert AllArgs([f][..0]) == [];
  }

  // ---- The meaning of the spliced text ----

  /** The condition of one filter, its placeholders numbered from `k`. */
  function ConditionOf(f: Filter, k: nat): Condition
    requires !IsEmpty(f)
  {
    if f.member.Some? && f.service.Some? then
      Conj(EqualsParam(MemberColumn, k), EqualsParam(ServiceColumn, k + 1))
    else if f.service.Some? then EqualsParam(ServiceColumn, k)
    else EqualsParam(MemberColumn, k)
  }

  function AnyOf(filters: seq<Filter>, k: nat): Condition
    requires filters != [] && forall f | f in filters :: !IsEmpty(f)
  {
    if |filters| == 1 then ConditionOf(filters[0], k)
    else Disj(ConditionOf(filters[0], k), AnyOf(filters[1..], k + |ArgsFor(filters[0])|))
  }

  function ArgsFrom(filters: seq<Filter>): seq<string>
  {
    if filters == [] then [] else ArgsFor(filters[0]) + ArgsFrom(filters[1..])
  }

  lemma {:induction false} ArgsBothWays(filters: seq<Filter>)
    ensures ArgsFrom(filters) == AllArgs(filters)
  {
    if |filters| > 1 {
      var last := |filters| - 1;
      var middle := filters[1..last];
      assert filters[1..][..last - 1] == middle == filters[..last][1..];
      ArgsBothWays(filters[1..]);
      ArgsBothWays(filters[..last]);
      ArgsBothWays(middle);
    } else if |filters| == 1 {
      assert filters == [filters[0]];
      OneFilter(filters[0]);
    }
  }

  lemma OneFilter(f: Filter)
    ensures ArgsFrom([f]) == AllArgs([f])
  {
    assert [f][1..] == [] && [f][..0] == [];
  }

  lemma {:induction false} GroupsFromFront(filters: seq<Filter>)
    requires |filters| >= 2 && NoEmptyFilter(filters)
    ensures NoEmptyFilter(filters[1..])
    ensures Groups(filters) == Group(filters[0]) + [Or] + Groups(filters[1..])
  {
    var n := |filters| - 1;
    var first, middle, last := filters[0], filters[1..n], filters[n];
    assert forall f | f in middle :: f in filters;
    assert filters == [first] + middle + [last] && filters[1..] == middle + [last];
    assert filters[..n] == [first] + middle;
    AppendFilter([first] + middle, last);
    AppendFilter(middle, last);
    if n > 1 {
      assert ([first] + middle)[1..] == middle;
      GroupsFromFront([first] + middle);
      OrAssociates(Group(first), Groups(middle), Group(last));
    } else {
      assert middle == [] && [first] + middle == [first];
    }
  }

  lemma OrAssociates(a: Text, b: Text, c: Text)
    ensures a + [Or] + b + [Or] + c == a + [Or] + (b + [Or] + c)
    ensures a + [Or] + b + c == a + ([Or] + (b + c))
  {
  }

  predicate EndsCondition(rest: Text)
  {
    !StartsWith(rest, Or) && !StartsWith(rest, And)
  }

  lemma GroupParses(f: Filter, rest: Text, k: nat)
    requires !IsEmpty(f) && !StartsWith(rest, And)
    ensures ParseAnd(Group(f) + rest, k) == Some(Parsed(ConditionOf(f, k), rest, k + |ArgsFor(f)|))
  {
    var inner := (Group(f) + rest)[1..];
    if f.member.Some? && f.service.Some? {
      assert inner == [Col(MemberColumn), Equals, Param] + ([And, Col(ServiceColumn), Equals, Param] + ([Close] + rest));
      BothParse([Close] + rest, k);
    } else {
      var c := if f.service.Some? then ServiceColumn else MemberColumn;
      assert inner == [Col(c), Equals, Param] + ([Close] + rest);
      OneParses(c, [Close] + rest, k);
    }
    Parenthesised(Group(f) + rest, ConditionOf(f, k), rest, k, k + |ArgsFor(f)|);
  }

  lemma Parenthesised(t: Text, cond: Condition, rest: Text, k: nat, params: nat)
    requires StartsWith(t, Open) && ParseOr(t[1..], k) == Some(Parsed(cond, [Close] + rest, params))
    requires !StartsWith(rest, And)
    ensures ParseAnd(t, k) == Some(Parsed(cond, rest, params))
  {
    assert ([Close] + rest)[1..] == rest;
    assert ParseAtom(t, k) == Some(Parsed(cond, rest, params));
  }

  lemma OneParses(c: Column, rest: Text, k: nat)
    requires StartsWith(rest, Close)
    ensures ParseOr([Col(c), Equals, Param] + rest, k) == Some(Parsed(EqualsParam(c, k), rest, k + 1))
  {
    ComparisonParses(c, rest, k);
    assert ParseAnd([Col(c), Equals, Param] + rest, k) == Some(Parsed(EqualsParam(c, k), rest, k + 1));
  }

  lemma AndParses(c: Column, second: Text, right: Condition, rest: Text, k: nat, n: nat)
    requires ParseAnd(second, k + 1) == Some(Parsed(right, rest, n))
    ensures ParseAnd([Col(c), Equals, Param] + ([And] + second), k) == Some(Parsed(Conj(EqualsParam(c, k), right), rest, n))
  {
    ComparisonParses(c, [And] + second, k);
    assert ([And] + second)[1..] == second;
  }

  lemma OnlyAnd(t: Text, cond: Condition, rest: Text, k: nat, n: nat)
    requires ParseAnd(t, k) == Some(Parsed(cond, rest, n)) && !StartsWith(rest, Or)
    ensures ParseOr(t, k) == Some(Parsed(cond, rest, n))
  {
  }

  lemma OnlyComparison(c: Column, rest: Text, k: nat)
    requires !StartsWith(rest, And)
    ensures ParseAnd([Col(c), Equals, Param] + rest, k) == Some(Parsed(EqualsParam(c, k), rest, k + 1))
  {
    ComparisonParses(c, rest, k);
  }

  lemma BothParse(rest: Text, k: nat)
    requires StartsWith(rest, Close)
    ensures ParseOr([Col(MemberColumn), Equals, Param] + ([And, Col(ServiceColumn), Equals, Param] + rest), k) ==
            Some(Parsed(Conj(EqualsParam(MemberColumn, k), EqualsParam(ServiceColumn, k + 1)), rest, k + 2))
  {
    var second := [Col(ServiceColumn), Equals, Param] + rest;
    var both := Conj(EqualsParam(MemberColumn, k), EqualsParam(ServiceColumn, k + 1));
    OnlyComparison(ServiceColumn, rest, k + 1);
    AndParses(MemberColumn, second, EqualsParam(ServiceColumn, k + 1), rest, k, k + 2);
    assert [And] + second == [And, Col(ServiceColumn), Equals, Param] + rest;
    OnlyAnd([Col(MemberColumn), Equals, Param] + ([And] + second), both, rest, k, k + 2);
  }

  lemma ComparisonParses(c: Column, rest: Text, k: nat)
    ensures ParseAtom([Col(c), Equals, Param] + rest, k) == Some(Parsed(EqualsParam(c, k), rest, k + 1))
  {
    assert ([Col(c), Equals, Param] + rest)[3..] == rest;
  }

  lemma FirstGroupParses(f: Filter, others: Text, right: Condition, rest: Text, k: nat, n: nat)
    requires !IsEmpty(f) && ParseOr(others + rest, k + |ArgsFor(f)|) == Some(Parsed(right, rest, n))
    ensures ParseOr(Group(f) + [Or] + others + rest, k) == Some(Parsed(Disj(ConditionOf(f, k), right), rest, n))
  {
    var middle := others + rest;
    OrAssociates(Group(f), others, rest);
    GroupParses(f, [Or] + middle, k);
    assert ([Or] + middle)[1..] == middle;
  }

  lemma LastGroupParses(f: Filter, rest: Text, k: nat)
    requires !IsEmpty(f) && EndsCondition(rest)
    ensures ParseOr(Group(f) + rest, k) == Some(Parsed(ConditionOf(f, k), rest, k + |ArgsFor(f)|))
  {
    GroupParses(f, rest, k);
  }

  lemma OneMoreGroup(filters: seq<Filter>, rest: Text, k: nat)
    requires |filters| >= 2 && NoEmptyFilter(filters) && NoEmptyFilter(filters[1..])
    requires Groups(filters) == Group(filters[0]) + [Or] + Groups(filters[1..])
    requires var j := k + |ArgsFor(filters[0])|;
             ParseOr(Groups(filters[1..]) + rest, j) ==
             Some(Parsed(AnyOf(filters[1..], j), rest, j + |ArgsFrom(filters[1..])|))
    ensures ParseOr(Groups(filters) + rest, k) == Some(Parsed(AnyOf(filters, k), rest, k + |ArgsFrom(filters)|))
  {
    var f, others := filters[0], filters[1..];
    var j := k + |ArgsFor(f)|;
    FirstGroupParses(f, Groups(others), AnyOf(others, j), rest, k, j + |ArgsFrom(others)|);
  }

  /** The spliced condition is read as the disjunction of the filters, with the placeholders numbered
      in the order in which the arguments were collected. */
  lemma {:induction false} GroupsParse(filters: seq<Filter>, rest: Text, k: nat)
    requires filters != [] && NoEmptyFilter(filters) && EndsCondition(rest)
    ensures ParseOr(Groups(filters) + rest, k) ==
            Some(Parsed(AnyOf(filters, k), rest, k + |ArgsFrom(filters)|))
  {
    var f, others := filters[0], filters[1..];
    if |filters| == 1 {
      assert others == [] && ArgsFrom(others) == [];
      LastGroupParses(f, rest, k);
    } else {
      GroupsFromFront(filters);
      GroupsParse(others, rest, k + |ArgsFor(f)|);
      OneMoreGroup(filters, rest, k);
    }
  }

  /** A condition whose placeholders are bound to the arguments of its filter holds when the filter matches. */
  lemma ConditionHolds(f: Filter, k: nat, args: seq<string>, row: Joined)
    requires !IsEmpty(f) && k + |ArgsFor(f)| <= |args|
    requires forall i | 0 <= i < |ArgsFor(f)| :: args[k + i] == ArgsFor(f)[i]
    ensures Holds(ConditionOf(f, k), args, row) <==> Matches(f, row)
  {
    assert args[k + 0] == ArgsFor(f)[0];
    if f.member.Some? && f.service.Some? {
      assert args[k + 1] == ArgsFor(f)[1];
    }
  }

  /** `mine` is bound from position `k` on. */
  ghost predicate BoundAt(args: seq<string>, k: nat, mine: seq<string>)
  {
    k + |mine| <= |args| && forall i | 0 <= i < |mine| :: args[k + i] == mine[i]
  }

  lemma BoundSplits(args: seq<string>, k: nat, a: seq<string>, b: seq<string>)
    requires BoundAt(args, k, a + b)
    ensures BoundAt(args, k, a) && BoundAt(args, k + |a|, b)
  {
    forall i | 0 <= i < |a| ensures args[k + i] == a[i] {
      assert (a + b)[i] == a[i];
    }
    forall i | 0 <= i < |b| ensures args[k + |a| + i] == b[i] {
      assert (a + b)[|a| + i] == b[i];
      assert args[k + (|a| + i)] == b[i];
    }
  }

  lemma MatchesAnyStep(filters: seq<Filter>, row: Joined)
    requires filters != []
    ensures MatchesAny(filters, row) <==> Matches(filters[0], row) || MatchesAny(filters[1..], row)
  {
    assert filters == [filters[0]] + filters[1..];
  }

  /** With its own arguments bound, that disjunction holds of a row exactly when some filter does. */
  lemma {:induction false} AnyOfHolds(filters: seq<Filter>, k: nat, args: seq<string>, row: Joined)
    requires filters != [] && NoEmptyFilter(filters) && BoundAt(args, k, ArgsFrom(filters))
    ensures Holds(AnyOf(filters, k), args, row) <==> MatchesAny(filters, row)
  {
    var f := filters[0];
    BoundSplits(args, k, ArgsFor(f), ArgsFrom(filters[1..]));
    ConditionHolds(f, k, args, row);
    MatchesAnyStep(filters, row);
    if |filters| > 1 {
      assert forall g | g in filters[1..] :: g in filters;
      AnyOfHolds(filters[1..], k + |ArgsFor(f)|, args, row);
    }
  }

  lemma KeysParse()
    ensures ParseKeys(KEYS) == Some(STATEMENT_ORDER)
  {
    assert KEYS[2..] == [Col(ServiceColumn)];
    assert ParseKeys([Col(ServiceColumn)]) == Some([ServiceColumn]);
    assert [MemberIdColumn] + [ServiceColumn] == STATEMENT_ORDER;
  }

  lemma {:induction false} SameFilter(rows: seq<Joined>, p: Joined -> bool, q: Joined -> bool)
    requires forall row :: p(row) == q(row)
    ensures Sql.Filter(rows, p) == Sql.Filter(rows, q)
  {
    if rows != [] {
      SameFilter(rows[1..], p, q);
    }
  }

  /** Meaning preservation: the spliced text with the collected arguments selects exactly the rows
      that match at least one filter, in statement order. */
  lemma SplicedTextMeans(filters: seq<Filter>, rows: seq<Joined>)
    requires filters != [] && NoEmptyFilter(filters)
    ensures Execute(Spliced(filters), AllArgs(filters), rows) == Some(Wanted(filters, rows))
  {
    var args := AllArgs(filters);
    SplicedTextParses(filters);
    ArgsBothWays(filters);
    forall row ensures Holds(AnyOf(filters, 0), args, row) == MatchesAny(filters, row) {
      AnyOfHolds(filters, 0, args, row);
    }
    SameFilter(rows, row => Holds(AnyOf(filters, 0), args, row), row => MatchesAny(filters, row));
    ExecuteParsed(Spliced(filters), AnyOf(filters, 0), args, rows);
  }

  lemma ExecuteParsed(t: Text, cond: Condition, args: seq<string>, rows: seq<Joined>)
    requires |t| >= 2 && t[0] == Select && t[1] == Where
    requires ParseOr(t[2..], 0) == Some(Parsed(cond, [OrderBy] + KEYS, |args|))
    requires ParseKeys(([OrderBy] + KEYS)[1..]) == Some(STATEMENT_ORDER)
    ensures Execute(t, args, rows) == Some(SortBy(STATEMENT_ORDER, Sql.Filter(rows, row => Holds(cond, args, row))))
  {
  }

  lemma SplicedTextParses(filters: seq<Filter>)
    requires filters != [] && NoEmptyFilter(filters)
    ensures var t := Spliced(filters);
            && t[0] == Select && t[1] == Where
            && ParseOr(t[2..], 0) == Some(Parsed(AnyOf(filters, 0), [OrderBy] + KEYS, |AllArgs(filters)|))
    ensures ParseKeys(([OrderBy] + KEYS)[1..]) == Some(STATEMENT_ORDER)
  {
    assert Spliced(filters)[2..] == Groups(filters) + ([OrderBy] + KEYS);
    GroupsParse(filters, [OrderBy] + KEYS, 0);
    ArgsBothWays(filters);
    assert ([OrderBy] + KEYS)[1..] == KEYS;
    KeysParse();
  }

  /** Without a filter the registered text selects everything. */
  lemma UnfilteredTextMeans(rows: seq<Joined>)
    ensures Execute(OBJECTS, AllArgs([]), rows) == Some(Wanted([], rows))
  {
    assert OBJECTS[2..] == KEYS;
    KeysParse();
  }

  /** What is wanted, spelled out: every row as often as it is there when some filter agrees with it in all
      that the filter sets, or when there is no filter; by member id, and by service name within it. */
  lemma WantedMeans(filters: seq<Filter>, rows: seq<Joined>)
    ensures var found := Wanted(filters, rows);
            && (forall row :: multiset(found)[row] ==
                  if filters == [] || (exists f :: f in filters && Agrees(f, row)) then multiset(rows)[row] else 0)
            && (forall i, j | 0 <= i < j < |found| ::
                  found[i].memberId < found[j].memberId
                  || (found[i].memberId == found[j].memberId && TextLe(found[i].service, found[j].service)))
  {
    var chosen := if filters == [] then rows else Sql.Filter(rows, row => MatchesAny(filters, row));
    SortByOrders(STATEMENT_ORDER, chosen);
    if filters != [] {
      forall row ensures multiset(chosen)[row] == if (exists f :: f in filters && Agrees(f, row)) then multiset(rows)[row] else 0 {
        FilterCounts(rows, r => MatchesAny(filters, r), row);
        SameFilter(rows, r => MatchesAny(filters, r), r => MatchesAny(filters, r));
        assert MatchesAny(filters, row) <==> exists f :: f in filters && Agrees(f, row);
      }
    }
    OrderMeans(Wanted(filters, rows));
  }

  ghost predicate Agrees(f: Filter, row: Joined)
  {
    (f.member == None || f.member == Some(row.member)) && (f.service == None || f.service == Some(row.service))
  }

  lemma {:induction false} FilterCounts(rows: seq<Joined>, p: Joined -> bool, row: Joined)
    ensures multiset(Sql.Filter(rows, p))[row] == if p(row) then multiset(rows)[row] else 0
  {
    if rows != [] {
      FilterCounts(rows[1..], p, row);
      assert rows == [rows[0]] + rows[1..];
      var head := if p(rows[0]) then [rows[0]] else [];
      assert multiset(head + Sql.Filter(rows[1..], p)) == multiset(head) + multiset(Sql.Filter(rows[1..], p));
    }
  }

  lemma OrderMeans(rows: seq<Joined>)
    requires Ordered(STATEMENT_ORDER, rows)
    ensures forall i, j | 0 <= i < j < |rows| ::
              rows[i].memberId < rows[j].memberId
              || (rows[i].memberId == rows[j].memberId && TextLe(rows[i].service, rows[j].service))
  {
    forall i, j | 0 <= i < j < |rows|
      ensures rows[i].memberId < rows[j].memberId
              || (rows[i].memberId == rows[j].memberId && TextLe(rows[i].service, rows[j].service))
    {
      OrderOfTwo(rows[i], rows[j]);
    }
  }

  lemma OrderOfTwo(a: Joined, b: Joined)
    requires RowLe(STATEMENT_ORDER, a, b)
    ensures a.memberId < b.memberId || (a.memberId == b.memberId && TextLe(a.service, b.service))
  {
    var rest := STATEMENT_ORDER[1..];
    assert rest == [ServiceColumn] && rest[1..] == [];
    TextOrder(a.service, a.service, "");
    if a.memberId == b.memberId {
      assert Field(a, STATEMENT_ORDER[0]) == Field(b, STATEMENT_ORDER[0]);
      assert RowLe(rest, a, b);
    }
  }

  // ---- The join itself ----

  function JoinRow(members: seq<Member>, row: Services.Row): seq<Joined>
  {
    if members == [] then []
    else if members[0].id == row.memberId then
      [Joined(row.id, row.memberId, members[0].name, row.service)] + JoinRow(members[1..], row)
    else JoinRow(members[1..], row)
  }

  function JoinRows(members: seq<Member>, rows: seq<Services.Row>): seq<Joined>
  {
    if rows == [] then [] else JoinRow(members, rows[0]) + JoinRows(members, rows[1..])
  }

  lemma {:induction false} JoinRowHas(members: seq<Member>, row: Services.Row, j: Joined)
    ensures j in JoinRow(members, row) <==>
            exists m :: m in members && m.id == row.memberId && j == Joined(row.id, row.memberId, m.name, row.service)
  {
    if members != [] {
      JoinRowHas(members[1..], row, j);
      assert members == [members[0]] + members[1..];
    }
  }

  lemma {:induction false} JoinRowsHas(members: seq<Member>, rows: seq<Services.Row>, j: Joined)
    ensures j in JoinRows(members, rows) <==>
            exists m, r :: m in members && r in rows && m.id == r.memberId && j == Joined(r.id, r.memberId, m.name, r.service)
  {
    if rows != [] {
      JoinRowHas(members, rows[0], j);
      JoinRowsHas(members, rows[1..], j);
      assert rows == [rows[0]] + rows[1..];
    }
  }

  lemma {:induction false} FilterHas(rows: seq<Joined>, p: Joined -> bool, j: Joined)
    ensures j in Sql.Filter(rows, p) <==> j in rows && p(j)
  {
    if rows != [] {
      FilterHas(rows[1..], p, j);
      assert rows == [rows[0]] + rows[1..];
    }
  }

  /** Asking for the rows of one member lists exactly the services that are enabled on it. */
  lemma MemberQueryListsView(members: seq<Member>, rows: seq<Services.Row>, name: string, service: string)
    ensures var found := Wanted([Filter(Some(name), None)], JoinRows(members, rows));
            (exists j :: j in found && j.service == service) <==> (name, service) in Services.ViewOf(members, rows)
  {
    var p := row => MatchesAny([Filter(Some(name), None)], row);
    var joined := JoinRows(members, rows);
    var found := Wanted([Filter(Some(name), None)], joined);
    SameFilter(joined, p, row => MatchesAny([Filter(Some(name), None)], row));
    SortByOrders(STATEMENT_ORDER, Sql.Filter(joined, p));
    assert forall j: Joined :: p(j) <==> j.member == name by {
      assert Filter(Some(name), None) in [Filter(Some(name), None)];
    }
    if j :| j in found && j.service == service {
      FilterHas(joined, p, j);
      JoinRowsHas(members, rows, j);
    }
    if (name, service) in Services.ViewOf(members, rows) {
      var m, r :| m in members && r in rows && r.memberId == m.id && m.name == name && r.service == service;
      var j := Joined(r.id, r.memberId, m.name, r.service);
      JoinRowsHas(members, rows, j);
      FilterHas(joined, p, j);
      assert j in found;
    }
  }
}
