/** The spot table's filter (src/components/SpotTable.tsx): which spots of the
    list are shown for the three filter inputs. */
module SpotTable {
  import opened Types
  import opened JsText

  /** The three filter inputs. `-1` means "Tous" (no filter) for the floor and
      the state; the state select offers 0 (Libre) and 1 (Occupé). */
  datatype Criteria = Criteria(searchQuery: string, floorFilter: int, stateFilter: int)

  /** The initial filter inputs: empty query, every floor, every state. */
  function DefaultCriteria(): Criteria
  {
    Criteria("", -1, -1)
  }

  /** `occupied == stateFilter` under JavaScript's loose equality, where a
      boolean compares as the number 0 or 1. */
  predicate LooselyEqual(occupied: bool, n: int)
  {
    (if occupied then 1 else 0) == n
  }

  /** The filter callback: the number contains the query, the floor test and the state test pass. */
  predicate Keeps(c: Criteria, spot: Spot)
  {
    && Includes(spot.number, c.searchQuery)
    && (spot.floor == c.floorFilter || c.floorFilter == -1)
    && (LooselyEqual(spot.occupied, c.stateFilter) || c.stateFilter == -1)
  }

  /** `spots.filter(...)`: the spots the callback keeps, in list order. */
  function FilterSpots(spots: seq<Spot>, c: Criteria): (r: seq<Spot>)
    ensures |r| <= |spots|
    ensures forall s :: s in r <==> s in spots && Keeps(c, s)
  {
    if spots == [] then []
    else
      assert spots == [spots[0]] + spots[1..];
      (if Keeps(c, spots[0]) then [spots[0]] else []) + FilterSpots(spots[1..], c)
  }

  /** idx lists, in increasing order, exactly the positions of spots whose
      spot passes c, and r is the spots at those positions. */
  ghost predicate SelectsKept(spots: seq<Spot>, c: Criteria, r: seq<Spot>, idx: seq<nat>)
  {
    && |idx| == |r|
    && (forall k :: 0 <= k < |idx| ==> idx[k] < |spots| && r[k] == spots[idx[k]])
    && (forall k, l :: 0 <= k < l < |idx| ==> idx[k] < idx[l])
    && (forall i :: 0 <= i < |spots| ==> (Keeps(c, spots[i]) <==> i in idx))
  }

  /** Every position in idx moved one place to the right. */
  function Shift(idx: seq<nat>): (r: seq<nat>)
    ensures |r| == |idx|
    ensures forall k :: 0 <= k < |idx| ==> r[k] == idx[k] + 1
  {
    seq(|idx|, k requires 0 <= k < |idx| => idx[k] + 1)
  }

  lemma ShiftMembers(idx: seq<nat>)
    ensures 0 !in Shift(idx)
    ensures forall i :: i in Shift(idx) <==> i > 0 && i - 1 in idx
  {
    var r := Shift(idx);
    forall i ensures i in r <==> i > 0 && i - 1 in idx {
      if i in r {
        var k :| 0 <= k < |r| && r[k] == i;
        assert idx[k] == i - 1;
      }
      if i > 0 && i - 1 in idx {
        var k :| 0 <= k < |idx| && idx[k] == i - 1;
        assert r[k] == i;
      }
    }
  }

  /** A selection of the tail, shifted, is a selection of the whole list
      once the head is added or dropped as the callback decides. */
  lemma SelectsKeptCons(spots: seq<Spot>, c: Criteria, tail: seq<Spot>, tailIdx: seq<nat>) returns (idx: seq<nat>)
    requires spots != []
    requires SelectsKept(spots[1..], c, tail, tailIdx)
    ensures SelectsKept(spots, c, (if Keeps(c, spots[0]) then [spots[0]] else []) + tail, idx)
  {
    var keep := Keeps(c, spots[0]);
    var head: seq<nat> := if keep then [0] else [];
    var r := (if keep then [spots[0]] else []) + tail;
    idx := head + Shift(tailIdx);
    ConsPositions(spots, tail, tailIdx, keep, head);
    ConsOrdered(tailIdx, head);
    ConsMembers(spots, c, tailIdx, keep, head);
  }

  lemma ConsPositions(spots: seq<Spot>, tail: seq<Spot>, tailIdx: seq<nat>, keep: bool, head: seq<nat>)
    requires spots != [] && |tailIdx| == |tail|
    requires forall k :: 0 <= k < |tailIdx| ==> tailIdx[k] < |spots| - 1 && tail[k] == spots[1..][tailIdx[k]]
    requires head == if keep then [0] else []
    ensures var r, idx := (if keep then [spots[0]] else []) + tail, head + Shift(tailIdx);
      |idx| == |r| && forall k :: 0 <= k < |idx| ==> idx[k] < |spots| && r[k] == spots[idx[k]]
  {
    var r, idx := (if keep then [spots[0]] else []) + tail, head + Shift(tailIdx);
    forall k | 0 <= k < |idx| ensures idx[k] < |spots| && r[k] == spots[idx[k]] {
      if k >= |head| {
        var m := k - |head|;
        assert idx[k] == tailIdx[m] + 1 && r[k] == tail[m];
      }
    }
  }

  lemma ConsOrdered(tailIdx: seq<nat>, head: seq<nat>)
    requires forall k, l :: 0 <= k < l < |tailIdx| ==> tailIdx[k] < tailIdx[l]
    requires head == [] || head == [0]
    ensures var idx := head + Shift(tailIdx); forall k, l :: 0 <= k < l < |idx| ==> idx[k] < idx[l]
  {
    var idx := head + Shift(tailIdx);
    forall k, l | 0 <= k < l < |idx| ensures idx[k] < idx[l] {
      if k < |head| {
        assert idx[k] == 0 && idx[l] == tailIdx[l - |head|] + 1;
      } else {
        assert idx[k] == tailIdx[k - |head|] + 1 && idx[l] == tailIdx[l - |head|] + 1;
      }
    }
  }

  lemma ConsMembers(spots: seq<Spot>, c: Criteria, tailIdx: seq<nat>, keep: bool, head: seq<nat>)
    requires spots != [] && keep == Keeps(c, spots[0])
    requires forall i :: 0 <= i < |spots| - 1 ==> (Keeps(c, spots[1..][i]) <==> i in tailIdx)
    requires head == if keep then [0] else []
    ensures var idx := head + Shift(tailIdx);
      forall i :: 0 <= i < |spots| ==> (Keeps(c, spots[i]) <==> i in idx)
  {
    var idx := head + Shift(tailIdx);
    ShiftMembers(tailIdx);
    forall i | 0 <= i < |spots| ensures Keeps(c, spots[i]) <==> i in idx {
      assert i in idx <==> i in head || i in Shift(tailIdx);
      if i > 0 {
        assert spots[i] == spots[1..][i - 1];
      }
    }
  }

  /** The filter is a stable selection: the result is the input restricted to
      the passing positions, with their relative order kept. */
  lemma {:induction false} FilterIsStableSelection(spots: seq<Spot>, c: Criteria) returns (idx: seq<nat>)
    ensures SelectsKept(spots, c, FilterSpots(spots, c), idx)
  {
    if spots == [] {
      idx := [];
    } else {
      var tailIdx := FilterIsStableSelection(spots[1..], c);
      idx := SelectsKeptCons(spots, c, FilterSpots(spots[1..], c), tailIdx);
    }
  }

  /** With the initial inputs every spot is shown, in the same order. */
  lemma {:induction false} FilterDefaultsIsIdentity(spots: seq<Spot>)
    ensures FilterSpots(spots, DefaultCriteria()) == spots
  {
    if spots != [] {
      IncludesEmpty(spots[0].number);
      FilterDefaultsIsIdentity(spots[1..]);
      assert spots == [spots[0]] + spots[1..];
    }
  }

  /** A floor choice other than "Tous" shows exactly the spots of that floor
      that pass the other two tests. */
  lemma FilterByFloor(spots: seq<Spot>, c: Criteria)
    requires c.floorFilter != -1
    ensures forall s :: s in FilterSpots(spots, c) <==>
      s in spots && s.floor == c.floorFilter &&
      Includes(s.number, c.searchQuery) &&
      (LooselyEqual(s.occupied, c.stateFilter) || c.stateFilter == -1)
  {
  }

  /** When the callback rejects every spot, nothing is shown. */
  lemma {:induction false} FilterKeepsNone(spots: seq<Spot>, c: Criteria)
    requires forall s :: s in spots ==> !Keeps(c, s)
    ensures FilterSpots(spots, c) == []
  {
    if spots != [] {
      assert spots[0] in spots;
      FilterKeepsNone(spots[1..], c);
    }
  }

  /** State 0 shows the free spots, state 1 the occupied ones (of those
      passing the other tests), and any other value but -1 shows none. */
  lemma FilterByState(spots: seq<Spot>, c: Criteria)
    ensures c.stateFilter == 0 ==> forall s :: s in FilterSpots(spots, c) <==>
      s in spots && !s.occupied && Keeps(c.(stateFilter := -1), s)
    ensures c.stateFilter == 1 ==> forall s :: s in FilterSpots(spots, c) <==>
      s in spots && s.occupied && Keeps(c.(stateFilter := -1), s)
    ensures c.stateFilter !in {-1, 0, 1} ==> FilterSpots(spots, c) == []
  {
    if c.stateFilter !in {-1, 0, 1} {
      FilterKeepsNone(spots, c);
    }
  }

  /** Filtering a filtered list again with the same inputs changes nothing. */
  lemma {:induction false} FilterIdempotent(spots: seq<Spot>, c: Criteria)
    ensures FilterSpots(FilterSpots(spots, c), c) == FilterSpots(spots, c)
  {
    if spots != [] {
      FilterIdempotent(spots[1..], c);
      var tail := FilterSpots(spots[1..], c);
      if Keeps(c, spots[0]) {
        var r := [spots[0]] + tail;
        assert FilterSpots(spots, c) == r;
        assert r[0] == spots[0] && r[1..] == tail;
        assert FilterSpots(r, c) == [spots[0]] + FilterSpots(tail, c);
      } else {
        assert FilterSpots(spots, c) == [] + tail == tail;
      }
    }
  }
}
