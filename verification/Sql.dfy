/** The fragment of SQL that the generated mapper speaks: token texts, a recursive-descent reading of
    them, and their meaning over the rows of the services table joined with the cluster members. */
module Sql {
  import opened Prelude

  datatype Column = MemberIdColumn | MemberColumn | ServiceColumn

  /** `Select` stands for the whole fixed part up to the end of the join clause. */
  datatype Token = Select | Where | OrderBy | Open | Close | And | Or | Equals | Param | Comma | Col(column: Column)

  type Text = seq<Token>

  /** A row of the join. */
  datatype Joined = Joined(id: nat, memberId: nat, member: string, service: string)

  datatype Value = Number(n: nat) | Characters(s: string)

  function Field(row: Joined, c: Column): Value
  {
    match c
    case MemberIdColumn => Number(row.memberId)
    case MemberColumn => Characters(row.member)
    case ServiceColumn => Characters(row.service)
  }

  // ---- Syntax ----

  datatype Condition =
    | EqualsParam(column: Column, param: nat)
    | Conj(left: Condition, right: Condition)
    | Disj(left: Condition, right: Condition)

  /** What was read, what is left, and how many placeholders were numbered so far. */
  datatype Parsed = Parsed(cond: Condition, rest: Text, params: nat)

  predicate StartsWith(t: Text, k: Token) { t != [] && t[0] == k }

  function ParseOr(t: Text, params: nat): (r: Option<Parsed>)
    ensures r.Some? ==> |r.value.rest| < |t|
    decreases |t|, 2
  {
    match ParseAnd(t, params)
    case None => None
    case Some(left) =>
      if !StartsWith(left.rest, Or) then Some(left)
      else
        match ParseOr(left.rest[1..], left.params)
        case None => None
        case Some(right) => Some(Parsed(Disj(left.cond, right.cond), right.rest, right.params))
  }

  function ParseAnd(t: Text, params: nat): (r: Option<Parsed>)
    ensures r.Some? ==> |r.value.rest| < |t|
    decreases |t|, 1
  {
    match ParseAtom(t, params)
    case None => None
    case Some(left) =>
      if !StartsWith(left.rest, And) then Some(left)
      else
        match ParseAnd(left.rest[1..], left.params)
        case None => None
        case Some(right) => Some(Parsed(Conj(left.cond, right.cond), right.rest, right.params))
  }

  function ParseAtom(t: Text, params: nat): (r: Option<Parsed>)
    ensures r.Some? ==> |r.value.rest| < |t|
    decreases |t|, 0
  {
    if StartsWith(t, Open) then
      match ParseOr(t[1..], params)
      case None => None
      case Some(inner) =>
        if StartsWith(inner.rest, Close) then Some(inner.(rest := inner.rest[1..])) else None
    else if |t| >= 3 && t[0].Col? && t[1] == Equals && t[2] == Param then
      Some(Parsed(EqualsParam(t[0].column, params), t[3..], params + 1))
    else None
  }

  function ParseKeys(t: Text): Option<seq<Column>>
  {
    if t == [] || !t[0].Col? then None
    else if |t| == 1 then Some([t[0].column])
    else if t[1] != Comma then None
    else
      match ParseKeys(t[2..])
      case None => None
      case Some(keys) => Some([t[0].column] + keys)
  }

  // ---- Meaning ----

  /** A placeholder stands for the argument with its number. */
  predicate Holds(c: Condition, args: seq<string>, row: Joined)
  {
    match c
    case EqualsParam(column, k) => k < |args| && Field(row, column) == Characters(args[k])
    case Conj(a, b) => Holds(a, args, row) && Holds(b, args, row)
    case Disj(a, b) => Holds(a, args, row) || Holds(b, args, row)
  }

  function Filter(rows: seq<Joined>, keep: Joined -> bool): seq<Joined>
  {
    if rows == [] then []
    else (if keep(rows[0]) then [rows[0]] else []) + Filter(rows[1..], keep)
  }

  /** Runs a query text: the rows that satisfy the condition, ordered by the keys. A text that does
      not parse and a wrong number of arguments are errors. */
  function Execute(t: Text, args: seq<string>, rows: seq<Joined>): Option<seq<Joined>>
  {
    if !StartsWith(t, Select) then None
    else if StartsWith(t[1..], OrderBy) then
      match ParseKeys(t[2..])
      case None => None
      case Some(keys) => if args == [] then Some(SortBy(keys, rows)) else None
    else if StartsWith(t[1..], Where) then
      match ParseOr(t[2..], 0)
      case None => None
      case Some(p) =>
        if !StartsWith(p.rest, OrderBy) || p.params != |args| then None
        else
          match ParseKeys(p.rest[1..])
          case None => None
          case Some(keys) => Some(SortBy(keys, Filter(rows, row => Holds(p.cond, args, row))))
    else None
  }

  // ---- Ordering ----

  predicate TextLe(a: string, b: string)
  {
    a == "" || (b != "" && (a[0] < b[0] || (a[0] == b[0] && TextLe(a[1..], b[1..]))))
  }

  predicate ValueLe(a: Value, b: Value)
  {
    match (a, b)
    case (Number(m), Number(n)) => m <= n
    case (Characters(s), Characters(t)) => TextLe(s, t)
    case (Number(_), Characters(_)) => true
    case (Characters(_), Number(_)) => false
  }

  predicate RowLe(keys: seq<Column>, a: Joined, b: Joined)
  {
    keys == [] ||
    if Field(a, keys[0]) == Field(b, keys[0]) then RowLe(keys[1..], a, b)
    else ValueLe(Field(a, keys[0]), Field(b, keys[0]))
  }

  function Insert(keys: seq<Column>, row: Joined, rows: seq<Joined>): seq<Joined>
  {
    if rows == [] || RowLe(keys, row, rows[0]) then [row] + rows
    else [rows[0]] + Insert(keys, row, rows[1..])
  }

  function SortBy(keys: seq<Column>, rows: seq<Joined>): seq<Joined>
  {
    if rows == [] then [] else Insert(keys, rows[0], SortBy(keys, rows[1..]))
  }

  ghost predicate Ordered(keys: seq<Column>, rows: seq<Joined>)
  {
    forall i, j | 0 <= i < j < |rows| :: RowLe(keys, rows[i], rows[j])
  }

  lemma {:induction false} TextOrder(a: string, b: string, c: string)
    ensures TextLe(a, b) || TextLe(b, a)
    ensures TextLe(a, b) && TextLe(b, a) ==> a == b
    ensures TextLe(a, b) && TextLe(b, c) ==> TextLe(a, c)
  {
    if a != "" && b != "" {
      assert a == [a[0]] + a[1..] && b == [b[0]] + b[1..];
      TextOrder(a[1..], b[1..], if c == "" then c else c[1..]);
    }
  }

  lemma ValueOrder(a: Value, b: Value, c: Value)
    ensures ValueLe(a, b) || ValueLe(b, a)
    ensures ValueLe(a, b) && ValueLe(b, a) ==> a == b
    ensures ValueLe(a, b) && ValueLe(b, c) ==> ValueLe(a, c)
  {
    if a.Characters? && b.Characters? {
      TextOrder(a.s, b.s, if c.Characters? then c.s else "");
    }
  }

  lemma {:induction false} RowOrder(keys: seq<Column>, a: Joined, b: Joined, c: Joined)
    ensures RowLe(keys, a, b) || RowLe(keys, b, a)
    ensures RowLe(keys, a, b) && RowLe(keys, b, c) ==> RowLe(keys, a, c)
  {
    if keys != [] {
      var x, y, z := Field(a, keys[0]), Field(b, keys[0]), Field(c, keys[0]);
      ValueOrder(x, y, z);
      ValueOrder(y, z, x);
      RowOrder(keys[1..], a, b, c);
    }
  }

  lemma {:induction false} InsertOrders(keys: seq<Column>, row: Joined, rows: seq<Joined>)
    requires Ordered(keys, rows)
    ensures Ordered(keys, Insert(keys, row, rows))
    ensures forall r :: r in Insert(keys, row, rows) <==> r == row || r in rows
    ensures multiset(Insert(keys, row, rows)) == multiset(rows) + multiset{row}
  {
    if rows == [] {
    } else if RowLe(keys, row, rows[0]) {
      forall r | r in rows ensures RowLe(keys, row, r) {
        RowOrder(keys, row, rows[0], r);
      }
    } else {
      assert rows == [rows[0]] + rows[1..];
      InsertOrders(keys, row, rows[1..]);
      RowOrder(keys, rows[0], row, row);
      var rest := Insert(keys, row, rows[1..]);
      assert forall r | r in rest :: RowLe(keys, rows[0], r);
    }
  }

  /** Sorting gives an ordered rearrangement of the rows. */
  lemma {:induction false} SortByOrders(keys: seq<Column>, rows: seq<Joined>)
    ensures Ordered(keys, SortBy(keys, rows))
    ensures forall r :: r in SortBy(keys, rows) <==> r in rows
    ensures multiset(SortBy(keys, rows)) == multiset(rows)
  {
    if rows != [] {
      assert rows == [rows[0]] + rows[1..];
      SortByOrders(keys, rows[1..]);
      InsertOrders(keys, rows[0], SortBy(keys, rows[1..]));
    }
  }
}
