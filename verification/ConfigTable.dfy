/** The config table: the statements of its generated mapper on rows, and the upsert layer that makes
    the table behave as a finite map. */
module ConfigTable {
  import opened Prelude

  datatype Row = Row(id: nat, key: string, value: string)

  datatype Error = DuplicateKey | NotFound | MoreThanOneMatch | WrongRowCount

  // ---- Statements ----

  function SelectRows(rows: seq<Row>, key: string): seq<Row>
  {
    if rows == [] then []
    else (if rows[0].key == key then [rows[0]] else []) + SelectRows(rows[1..], key)
  }

  function UpdateRows(rows: seq<Row>, id: nat, key: string, value: string): seq<Row>
  {
    if rows == [] then []
    else [if rows[0].id == id then Row(id, key, value) else rows[0]] + UpdateRows(rows[1..], id, key, value)
  }

  function CountId(rows: seq<Row>, id: nat): nat
  {
    if rows == [] then 0 else (if rows[0].id == id then 1 else 0) + CountId(rows[1..], id)
  }

  function DeleteRows(rows: seq<Row>, key: string): seq<Row>
  {
    if rows == [] then []
    else (if rows[0].key == key then [] else [rows[0]]) + DeleteRows(rows[1..], key)
  }

  ghost predicate UniqueRows(rows: seq<Row>)
  {
    forall i, j | 0 <= i < j < |rows| :: rows[i].id != rows[j].id && rows[i].key != rows[j].key
  }

  /** The map that the rows stand for. */
  function MapOf(rows: seq<Row>): map<string, string>
  {
    if rows == [] then map[] else MapOf(rows[1..])[rows[0].key := rows[0].value]
  }

  lemma {:induction false} MapOfKeys(rows: seq<Row>, key: string)
    ensures key in MapOf(rows) <==> exists r :: r in rows && r.key == key
  {
    if rows != [] {
      assert rows == [rows[0]] + rows[1..];
      MapOfKeys(rows[1..], key);
    }
  }

  lemma {:induction false} SelectIsLookup(rows: seq<Row>, key: string)
    requires UniqueRows(rows)
    ensures key !in MapOf(rows) ==> SelectRows(rows, key) == []
    ensures key in MapOf(rows) ==>
              && |SelectRows(rows, key)| == 1
              && SelectRows(rows, key)[0] in rows
              && SelectRows(rows, key)[0].key == key
              && SelectRows(rows, key)[0].value == MapOf(rows)[key]
  {
    if rows != [] {
      SelectIsLookup(rows[1..], key);
      MapOfKeys(rows[1..], key);
      assert rows == [rows[0]] + rows[1..];
    }
  }

  lemma {:induction false} InsertIsUpdate(rows: seq<Row>, row: Row)
    requires UniqueRows(rows) && row.key !in MapOf(rows)
    ensures MapOf(rows + [row]) == MapOf(rows)[row.key := row.value]
  {
    if rows == [] {
      assert rows + [row] == [row] && [row][1..] == [];
    } else {
      assert (rows + [row])[1..] == rows[1..] + [row];
      InsertIsUpdate(rows[1..], row);
    }
  }

  lemma {:induction false} UpdateIsUpdate(rows: seq<Row>, row: Row, value: string)
    requires UniqueRows(rows) && row in rows
    ensures MapOf(UpdateRows(rows, row.id, row.key, value)) == MapOf(rows)[row.key := value]
    ensures CountId(rows, row.id) == 1
  {
    assert rows == [rows[0]] + rows[1..];
    if row == rows[0] {
      UpdateMissesAll(rows[1..], row.id, row.key, value);
    } else {
      UpdateIsUpdate(rows[1..], row, value);
    }
  }

  /** Ids and keys stay where they are. */
  lemma {:induction false} UpdateKeepsRows(rows: seq<Row>, row: Row, value: string)
    requires forall r | r in rows && r.id == row.id :: r.key == row.key
    ensures |UpdateRows(rows, row.id, row.key, value)| == |rows|
    ensures forall i | 0 <= i < |rows| ::
              var r := UpdateRows(rows, row.id, row.key, value)[i];
              r.id == rows[i].id && r.key == rows[i].key
  {
    if rows != [] {
      assert rows == [rows[0]] + rows[1..];
      UpdateKeepsRows(rows[1..], row, value);
    }
  }

  lemma {:induction false} UpdateMissesAll(rows: seq<Row>, id: nat, key: string, value: string)
    requires forall r | r in rows :: r.id != id
    ensures UpdateRows(rows, id, key, value) == rows && CountId(rows, id) == 0
  {
    if rows != [] {
      assert rows == [rows[0]] + rows[1..];
      UpdateMissesAll(rows[1..], id, key, value);
    }
  }

  lemma {:induction false} DeleteKeepsOthers(rows: seq<Row>, key: string)
    requires UniqueRows(rows)
    ensures UniqueRows(DeleteRows(rows, key))
    ensures forall r :: r in DeleteRows(rows, key) <==> r in rows && r.key != key
  {
    if rows != [] {
      assert rows == [rows[0]] + rows[1..];
      DeleteKeepsOthers(rows[1..], key);
    }
  }

  lemma {:induction false} DeleteIsRemoval(rows: seq<Row>, key: string)
    requires UniqueRows(rows)
    ensures MapOf(DeleteRows(rows, key)) == MapOf(rows) - {key}
    ensures |rows| - |DeleteRows(rows, key)| == if key in MapOf(rows) then 1 else 0
  {
    if rows != [] {
      var left, rest := DeleteRows(rows[1..], key), MapOf(rows[1..]);
      DeleteIsRemoval(rows[1..], key);
      MapOfKeys(rows[1..], rows[0].key);
      if rows[0].key == key {
        assert rest[key := rows[0].value] - {key} == rest - {key};
        assert [] + left == left;
      } else {
        assert rest[rows[0].key := rows[0].value] - {key} == (rest - {key})[rows[0].key := rows[0].value];
        assert ([rows[0]] + left)[1..] == left;
      }
    }
  }

  class Config {
    var rows: seq<Row>
    var nextId: nat

    ghost predicate Valid()
      reads this
    {
      UniqueRows(rows) && forall r | r in rows :: r.id < nextId
    }

    function Map(): map<string, string>
      reads this
    {
      MapOf(rows)
    }

    constructor ()
      ensures Valid() && Map() == map[]
    {
      rows, nextId := [], 1;
    }

    method ConfigItemExists(key: string) returns (found: bool)
      requires Valid()
      ensures found <==> key in Map()
    {
      SelectIsLookup(rows, key);
      found := SelectRows(rows, key) != [];
    }

    method GetConfigItem(key: string) returns (r: Result<Row, Error>)
      requires Valid()
      ensures key !in Map() ==> r == Err(NotFound)
      ensures key in Map() ==> r.Ok? && r.value in rows && r.value.key == key && r.value.value == Map()[key]
    {
      SelectIsLookup(rows, key);
      var objects := SelectRows(rows, key);
      if |objects| == 0 {
        return Err(NotFound);
      } else if |objects| == 1 {
        return Ok(objects[0]);
      } else {
        return Err(MoreThanOneMatch);
      }
    }

    method CreateConfigItem(key: string, value: string) returns (err: Option<Error>)
      requires Valid()
      modifies this
      ensures Valid()
      ensures err == if key in old(Map()) then Some(DuplicateKey) else None
      ensures Map() == if key in old(Map()) then old(Map()) else old(Map())[key := value]
      ensures rows == if key in old(Map()) then old(rows) else old(rows) + [Row(old(nextId), key, value)]
    {
      var exists_ := ConfigItemExists(key);
      if exists_ {
        return Some(DuplicateKey);
      }
      var row := Row(nextId, key, value);
      InsertIsUpdate(rows, row);
      forall r | r in rows ensures r.key != key {
        MapOfKeys(rows, r.key);
      }
      rows, nextId := rows + [row], nextId + 1;
      err := None;
    }

    method UpdateConfigItem(key: string, value: string) returns (err: Option<Error>)
      requires Valid()
      modifies this
      ensures Valid() && nextId == old(nextId)
      ensures err == if key in old(Map()) then None else Some(NotFound)
      ensures Map() == if key in old(Map()) then old(Map())[key := value] else old(Map())
    {
      SelectIsLookup(rows, key);
      var found := SelectRows(rows, key);
      if found == [] {
        return Some(NotFound);
      }
      UpdateIsUpdate(rows, found[0], value);
      UpdateKeepsRows(rows, found[0], value);
      var affected := CountId(rows, found[0].id);
      if affected != 1 {
        return Some(WrongRowCount);
      }
      var before := rows;
      rows := UpdateRows(rows, found[0].id, key, value);
      forall r | r in rows ensures r.id < nextId {
        var i :| 0 <= i < |rows| && rows[i] == r;
        assert before[i] in before;
      }
      err := None;
    }

    method DeleteConfigItem(key: string) returns (err: Option<Error>)
      requires Valid()
      modifies this
      ensures Valid() && nextId == old(nextId)
      ensures err == if key in old(Map()) then None else Some(NotFound)
      ensures Map() == old(Map()) - {key}
    {
      DeleteKeepsOthers(rows, key);
      DeleteIsRemoval(rows, key);
      var left := DeleteRows(rows, key);
      var affected := |rows| - |left|;
      rows := left;
      if affected == 0 {
        return Some(NotFound);
      } else if affected > 1 {
        return Some(WrongRowCount);
      }
      err := None;
    }

    /** The upsert: never the duplicate-key error, never a wrong row count. */
    method SetConfig(key: string, value: string) returns (err: Option<Error>)
      requires Valid()
      modifies this
      ensures Valid() && err == None
      ensures Map() == old(Map())[key := value]
    {
      var exists_ := ConfigItemExists(key);
      if exists_ {
        err := UpdateConfigItem(key, value);
      } else {
        err := CreateConfigItem(key, value);
      }
    }

    method GetConfig(key: string) returns (r: Result<Option<string>, Error>)
      requires Valid()
      ensures r == Ok(if key in Map() then Some(Map()[key]) else None)
    {
      var exists_ := ConfigItemExists(key);
      if !exists_ {
        return Ok(None);
      }
      var item := GetConfigItem(key);
      match item
      case Err(e) => r := Err(e);
      case Ok(row) => r := Ok(Some(row.value));
    }

    method DeleteConfig(key: string) returns (err: Option<Error>)
      requires Valid()
      modifies this
      ensures Valid() && err == None
      ensures Map() == old(Map()) - {key}
    {
      var exists_ := ConfigItemExists(key);
      if !exists_ {
        assert Map() - {key} == Map();
        return None;
      }
      err := DeleteConfigItem(key);
    }
  }

  // ---- Whole runs ----

  datatype Op = Set(key: string, value: string) | Get(key: string) | Delete(key: string)

  /** The finite map that a client of the upsert layer sees: its answers, one for each operation. */
  function MapRun(m: map<string, string>, ops: seq<Op>): (map<string, string>, seq<Option<string>>)
  {
    if ops == [] then (m, [])
    else
      var (before, answers) := MapRun(m, ops[..|ops| - 1]);
      match ops[|ops| - 1]
      case Set(k, v) => (before[k := v], answers + [None])
      case Get(k) => (before, answers + [if k in before then Some(before[k]) else None])
      case Delete(k) => (before - {k}, answers + [None])
  }

  predicate Touches(op: Op, key: string)
  {
    (op.Set? || op.Delete?) && op.key == key
  }

  /** The last set or delete of a key decides what it holds; an untouched key keeps its value; and every
      get is answered from the state at its moment. */
  lemma {:induction false} LastTouchDecides(m: map<string, string>, ops: seq<Op>, key: string)
    ensures var (end, answers) := MapRun(m, ops);
            && (forall k | 0 <= k < |ops| && Touches(ops[k], key) && (forall j | k < j < |ops| :: !Touches(ops[j], key)) ::
                  (key in end <==> ops[k].Set?) && (ops[k].Set? ==> end[key] == ops[k].value))
            && ((forall k | 0 <= k < |ops| :: !Touches(ops[k], key)) ==>
                  (key in end <==> key in m) && (key in m ==> end[key] == m[key]))
  {
    if ops != [] {
      var last := |ops| - 1;
      LastTouchDecides(m, ops[..last], key);
      forall k | 0 <= k < last && Touches(ops[k], key) && (forall j | k < j < |ops| :: !Touches(ops[j], key))
        ensures ops[..last][k] == ops[k] && forall j | k < j < last :: !Touches(ops[..last][j], key)
      {
      }
    }
  }

  lemma {:induction false} AnswersAreLookups(m: map<string, string>, ops: seq<Op>)
    ensures var answers := MapRun(m, ops).1;
            && |answers| == |ops|
            && forall k | 0 <= k < |ops| && ops[k].Get? ::
                 var then_ := MapRun(m, ops[..k]).0;
                 answers[k] == if ops[k].key in then_ then Some(then_[ops[k].key]) else None
  {
    if ops != [] {
      var last := |ops| - 1;
      AnswersAreLookups(m, ops[..last]);
      forall k | 0 <= k < last ensures ops[..last][..k] == ops[..k] && ops[..last][k] == ops[k] {
      }
    }
  }

  function Reported(err: Option<Error>): seq<Error>
  {
    match err
    case None => []
    case Some(e) => [e]
  }

  /** Any sequence of sets, gets and deletes on the table gives the answers of the map, without an
      error, and leaves a table that stands for the resulting map. */
  method RunConfig(c: Config, ops: seq<Op>) returns (answers: seq<Option<string>>, errors: seq<Error>)
    requires c.Valid()
    modifies c
    ensures c.Valid() && errors == []
    ensures (c.Map(), answers) == MapRun(old(c.Map()), ops)
  {
    answers, errors := [], [];
    for i := 0 to |ops|
      invariant c.Valid() && errors == []
      invariant (c.Map(), answers) == MapRun(old(c.Map()), ops[..i])
    {
      assert ops[..i + 1][..i] == ops[..i];
      match ops[i]
      case Set(k, v) =>
        var err := c.SetConfig(k, v);
        errors := errors + Reported(err);
        answers := answers + [None];
      case Get(k) =>
        var r := c.GetConfig(k);
        match r {
          case Ok(value) => answers := answers + [value];
          case Err(e) => errors := errors + [e];
        }
      case Delete(k) =>
        var err := c.DeleteConfig(k);
        errors := errors + Reported(err);
        answers := answers + [None];
    }
    assert ops[..|ops|] == ops;
  }
}
