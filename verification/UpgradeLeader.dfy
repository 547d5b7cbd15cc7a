/** Which central member leads a schema upgrade: the rows of the members that run central are
    sorted by id and the first one is compared with the local name. */
module UpgradeLeader {
  import opened Members

  datatype LeaderCheck = Leader | Follower | Crash

  function InsertById(m: Member, rows: seq<Member>): (sorted: seq<Member>)
    ensures |sorted| == |rows| + 1
  {
    if rows == [] || m.id < rows[0].id then [m] + rows
    else [rows[0]] + InsertById(m, rows[1..])
  }

  function SortById(rows: seq<Member>): (sorted: seq<Member>)
    ensures |sorted| == |rows|
  {
    if rows == [] then [] else InsertById(rows[0], SortById(rows[1..]))
  }

  /** The first row of the sorted list decides. Without any row the source indexes an empty slice. */
  function CheckLeader(self: string, rows: seq<Member>): LeaderCheck
  {
    if rows == [] then Crash
    else if SortById(rows)[0].name == self then Leader
    else Follower
  }

  ghost predicate ById(rows: seq<Member>)
  {
    forall i, j | 0 <= i < j < |rows| :: rows[i].id <= rows[j].id
  }

  lemma {:induction false} InsertByIdSorts(m: Member, rows: seq<Member>)
    requires ById(rows)
    ensures ById(InsertById(m, rows))
    ensures multiset(InsertById(m, rows)) == multiset(rows) + multiset{m}
  {
    if rows == [] || m.id < rows[0].id {
    } else {
      InsertByIdSorts(m, rows[1..]);
      var rest := InsertById(m, rows[1..]);
      assert rows == [rows[0]] + rows[1..];
      assert multiset(rows) == multiset{rows[0]} + multiset(rows[1..]);
      forall r | r in rest ensures rows[0].id <= r.id {
        InsertByIdMembers(m, rows[1..], r);
      }
    }
  }

  lemma {:induction false} InsertByIdMembers(m: Member, rows: seq<Member>, r: Member)
    ensures r in InsertById(m, rows) <==> r == m || r in rows
  {
    if rows == [] || m.id < rows[0].id {
    } else {
      InsertByIdMembers(m, rows[1..], r);
      assert rows == [rows[0]] + rows[1..];
    }
  }

  lemma {:induction false} SortByIdSorts(rows: seq<Member>)
    ensures ById(SortById(rows))
    ensures multiset(SortById(rows)) == multiset(rows)
  {
    if rows != [] {
      SortByIdSorts(rows[1..]);
      InsertByIdSorts(rows[0], SortById(rows[1..]));
      assert rows == [rows[0]] + rows[1..];
    }
  }

  ghost predicate Lowest(m: Member, rows: seq<Member>)
  {
    m in rows && forall o | o in rows :: m.id <= o.id
  }

  /** The check answers "leader" exactly for the member with the lowest id. */
  lemma LeaderIsLowestId(m: Member, rows: seq<Member>)
    requires DistinctMembers(rows) && m in rows
    ensures CheckLeader(m.name, rows) == Leader <==> Lowest(m, rows)
    ensures CheckLeader(m.name, rows) != Crash && CheckLeader(m.name, []) == Crash
  {
    SortByIdSorts(rows);
    var sorted := SortById(rows);
    assert sorted[0] in multiset(rows);
    forall o | o in rows ensures sorted[0].id <= o.id {
      assert o in multiset(sorted);
    }
  }

  lemma SameMembersDistinct(rows: seq<Member>, shuffled: seq<Member>)
    requires DistinctMembers(rows) && multiset(shuffled) == multiset(rows)
    ensures DistinctMembers(shuffled)
  {
    assert forall m :: m in shuffled <==> m in multiset(rows);
    DistinctCounts(rows);
    forall i, j | 0 <= i < j < |shuffled| ensures shuffled[i] != shuffled[j] {
      var before, m, after := shuffled[..j], shuffled[j], shuffled[j + 1..];
      assert shuffled == before + [m] + after;
      assert multiset(shuffled)[m] == multiset(before)[m] + 1 + multiset(after)[m];
      assert m in multiset(rows) && multiset(rows)[m] <= 1;
      assert before[i] == shuffled[i] && m !in multiset(before);
    }
  }

  lemma {:induction false} DistinctCounts(rows: seq<Member>)
    requires forall i, j | 0 <= i < j < |rows| :: rows[i] != rows[j]
    ensures forall m :: multiset(rows)[m] <= 1
  {
    if rows != [] {
      DistinctCounts(rows[1..]);
      assert rows == [rows[0]] + rows[1..];
      assert rows[0] !in rows[1..];
      assert multiset(rows) == multiset{rows[0]} + multiset(rows[1..]);
    }
  }

  /** A non-empty central set has exactly one leader, and the order in which the database returns
      the rows does not matter. */
  lemma ExactlyOneLeader(rows: seq<Member>, shuffled: seq<Member>) returns (leader: Member)
    requires DistinctMembers(rows) && rows != []
    requires multiset(shuffled) == multiset(rows)
    ensures leader in rows
    ensures forall m | m in rows :: CheckLeader(m.name, rows) == Leader <==> m == leader
    ensures forall m | m in rows :: CheckLeader(m.name, shuffled) == CheckLeader(m.name, rows)
  {
    SortByIdSorts(rows);
    var sorted := SortById(rows);
    assert |multiset(shuffled)| == |multiset(rows)|;
    SameMembersDistinct(rows, shuffled);
    leader := sorted[0];
    assert leader in multiset(rows);
    forall o | o in rows ensures leader.id <= o.id {
      assert o in multiset(sorted);
    }
    assert forall m :: m in shuffled <==> m in multiset(rows);
    forall m | m in rows
      ensures CheckLeader(m.name, rows) == Leader <==> m == leader
      ensures CheckLeader(m.name, shuffled) == CheckLeader(m.name, rows)
    {
      assert m in multiset(shuffled);
      LeaderIsLowestId(m, rows);
      LeaderIsLowestId(m, shuffled);
    }
  }
}
