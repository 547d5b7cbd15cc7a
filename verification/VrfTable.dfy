/** Choosing a VRF routing table: the least free id at or above ten. */
module VrfTable {
  import opened Prelude

  const MIN_ID: int := 10
  const MAX_ID: int := 0xFFFF_FFFF
  const RESERVED: set<int> := {253, 254, 255}

  /** The ids read from the two system listings, one parse attempt a line; the reserved tables are
      always in use. */
  method GetUsedVrfTableIds(lines: seq<Option<int>>) returns (used: set<int>)
    ensures used == RESERVED + set i | 0 <= i < |lines| && lines[i].Some? :: lines[i].value
  {
    used := RESERVED;
    for n := 0 to |lines|
      invariant used == RESERVED + set i | 0 <= i < n && lines[i].Some? :: lines[i].value
    {
      if lines[n].Some? {
        used := used + {lines[n].value};
      }
    }
  }

  ghost predicate LeastFree(id: int, used: set<int>)
  {
    && MIN_ID <= id <= MAX_ID && id !in used
    && forall j | MIN_ID <= j < id :: j in used
  }

  method FindAvailableVrfTableId(lines: seq<Option<int>>) returns (id: Option<int>, used: set<int>)
    ensures used == RESERVED + set i | 0 <= i < |lines| && lines[i].Some? :: lines[i].value
    ensures id.Some? ==> LeastFree(id.value, used)
    ensures id.Some? ==> 10 <= id.value <= 10 + |used| && id.value !in {253, 254, 255}
    ensures id.None? <==> forall j | 10 <= j <= 0xFFFF_FFFF :: j in used
    ensures used >= {253, 254, 255}
  {
    used := GetUsedVrfTableIds(lines);
    for i := MIN_ID to MAX_ID + 1
      invariant forall j | MIN_ID <= j < i :: j in used
    {
      if i !in used {
        LeastFreeIsNear(i, used);
        return Some(i), used;
      }
    }
    id := None;
  }

  /** Pigeonhole: the used ids below the least free one are among all the used ids. */
  lemma LeastFreeIsNear(id: int, used: set<int>)
    requires LeastFree(id, used)
    ensures id <= MIN_ID + |used|
  {
    var below := Interval(MIN_ID, id);
    assert below <= used;
    assert used == below + (used - below);
  }

  ghost function Interval(lo: int, hi: int): (s: set<int>)
    requires lo <= hi
    ensures |s| == hi - lo
    ensures forall j :: j in s <==> lo <= j < hi
    decreases hi - lo
  {
    if lo == hi then {} else Interval(lo, hi - 1) + {hi - 1}
  }

  /** There is at most one least free id, so the returned id is determined by the listings. */
  lemma LeastFreeIsUnique(a: int, b: int, used: set<int>)
    requires LeastFree(a, used) && LeastFree(b, used)
    ensures a == b
  {
    assert a < b ==> a in used;
    assert b < a ==> b in used;
  }
}
