/** The spot store: the spot list and the floor list derived from it
    (src/features/parkingSlice.ts). */
module ParkingSlice {
  import opened Types
  import opened JsText

  // ---------------------------------------------------------------------------
  // The derived floor list
  // ---------------------------------------------------------------------------

  /** `spots.map((spot) => spot.floor)` */
  function FloorList(spots: seq<Spot>): (fs: seq<int>)
    ensures |fs| == |spots|
    ensures forall i :: 0 <= i < |spots| ==> fs[i] == spots[i].floor
  {
    if spots == [] then [] else [spots[0].floor] + FloorList(spots[1..])
  }

  lemma FloorListMembers(spots: seq<Spot>)
    ensures forall f :: f in FloorList(spots) <==> exists s :: s in spots && s.floor == f
  {
    var fs := FloorList(spots);
    forall f | f in fs ensures exists s :: s in spots && s.floor == f {
      var i :| 0 <= i < |fs| && fs[i] == f;
      assert spots[i] in spots;
    }
    forall f | exists s :: s in spots && s.floor == f ensures f in fs {
      var s :| s in spots && s.floor == f;
      var i :| 0 <= i < |spots| && spots[i] == s;
      assert fs[i] == f;
    }
  }

  predicate NoDuplicates(s: seq<int>)
  {
    forall i, j :: 0 <= i < j < |s| ==> s[i] != s[j]
  }

  /** `[...new Set(xs)]`: every value of xs once. Its order is left unstated,
      because the sort that follows fixes the order. */
  function Dedup(xs: seq<int>): (r: seq<int>)
    ensures NoDuplicates(r)
    ensures forall x :: x in r <==> x in xs
  {
    if xs == [] then []
    else
      var init, last := xs[..|xs| - 1], xs[|xs| - 1];
      assert xs == init + [last];
      var r := Dedup(init);
      if last in r then r else r + [last]
  }

  /** The order `.sort()` without a comparator puts numbers in: that of their
      decimal strings, so 10 comes before 2. */
  predicate FloorBefore(x: int, y: int)
  {
    StrLess(IntToString(x), IntToString(y))
  }

  lemma FloorBeforeIrreflexive(x: int)
    ensures !FloorBefore(x, x)
  {
    StrLessIrreflexive(IntToString(x));
  }

  lemma FloorBeforeAsymmetric(x: int, y: int)
    ensures !(FloorBefore(x, y) && FloorBefore(y, x))
  {
    StrLessAsymmetric(IntToString(x), IntToString(y));
  }

  lemma FloorBeforeTransitive(x: int, y: int, z: int)
    requires FloorBefore(x, y) && FloorBefore(y, z)
    ensures FloorBefore(x, z)
  {
    StrLessTransitive(IntToString(x), IntToString(y), IntToString(z));
  }

  lemma FloorBeforeTotal(x: int, y: int)
    ensures x == y || FloorBefore(x, y) || FloorBefore(y, x)
  {
    StrLessTotal(IntToString(x), IntToString(y));
    IntToStringInjective(x, y);
  }

  /** Every earlier element comes strictly before every later one in string order. */
  predicate SortedByString(s: seq<int>)
  {
    forall i, j :: 0 <= i < j < |s| ==> FloorBefore(s[i], s[j])
  }

  lemma SortedHasNoDuplicates(s: seq<int>)
    requires SortedByString(s)
    ensures NoDuplicates(s)
  {
    forall i, j | 0 <= i < j < |s| ensures s[i] != s[j] {
      FloorBeforeIrreflexive(s[i]);
    }
  }

  /** One insertion step of the sort: places x before the first element it precedes. */
  function Insert(x: int, s: seq<int>): (r: seq<int>)
    ensures multiset(r) == multiset(s) + multiset{x}
  {
    if s == [] then [x]
    else if FloorBefore(x, s[0]) then [x] + s
    else
      assert s == [s[0]] + s[1..];
      [s[0]] + Insert(x, s[1..])
  }

  lemma InsertMembers(x: int, s: seq<int>)
    ensures forall y :: y in Insert(x, s) <==> y == x || y in s
  {
    var r := Insert(x, s);
    forall y ensures y in r <==> y == x || y in s {
      assert y in r <==> y in multiset(r);
      assert y in s <==> y in multiset(s);
    }
  }

  /** A value before every member of a sorted list can head it. */
  lemma ConsSorted(y: int, s: seq<int>)
    requires SortedByString(s)
    requires forall z :: z in s ==> FloorBefore(y, z)
    ensures SortedByString([y] + s)
  {
    var r := [y] + s;
    forall i, j | 0 <= i < j < |r| ensures FloorBefore(r[i], r[j]) {
      if i == 0 {
        assert r[j] == s[j - 1] && s[j - 1] in s;
      } else {
        assert r[i] == s[i - 1] && r[j] == s[j - 1];
      }
    }
  }

  /** Inserting a new value into a sorted list keeps it sorted. */
  lemma {:induction false} InsertSorted(x: int, s: seq<int>)
    requires SortedByString(s) && x !in s
    ensures SortedByString(Insert(x, s))
  {
    if s == [] {
    } else if FloorBefore(x, s[0]) {
      forall z | z in s ensures FloorBefore(x, z) {
        var j :| 0 <= j < |s| && s[j] == z;
        if j > 0 {
          FloorBeforeTransitive(x, s[0], s[j]);
        }
      }
      ConsSorted(x, s);
    } else {
      var tail := s[1..];
      assert x !in tail;
      SortedTail(s);
      InsertSorted(x, tail);
      var rest := Insert(x, tail);
      InsertMembers(x, tail);
      FloorBeforeTotal(x, s[0]);
      forall y | y in rest ensures FloorBefore(s[0], y) {
        if y != x {
          SortedHeadFirst(s, y);
        }
      }
      ConsSorted(s[0], rest);
    }
  }

  /** The array's `.sort()`: a sort by the decimal string of each number.
      Distinct numbers have distinct strings, so on a duplicate-free list every
      correct sort, stable or not, gives this result. */
  function SortByString(s: seq<int>): (r: seq<int>)
    ensures multiset(r) == multiset(s)
  {
    if s == [] then []
    else
      assert s == [s[0]] + s[1..];
      Insert(s[0], SortByString(s[1..]))
  }

  lemma SortByStringMembers(s: seq<int>)
    ensures forall y :: y in SortByString(s) <==> y in s
  {
    var r := SortByString(s);
    forall y ensures y in r <==> y in s {
      assert y in r <==> y in multiset(r);
      assert y in s <==> y in multiset(s);
    }
  }

  /** Sorting a duplicate-free list gives a strictly string-ordered list. */
  lemma {:induction false} SortByStringSorted(s: seq<int>)
    requires NoDuplicates(s)
    ensures SortedByString(SortByString(s))
  {
    if s != [] {
      var tail := s[1..];
      assert NoDuplicates(tail) by {
        forall i, j | 0 <= i < j < |tail| ensures tail[i] != tail[j] {
          assert tail[i] == s[i + 1] && tail[j] == s[j + 1];
        }
      }
      SortByStringSorted(tail);
      SortByStringMembers(tail);
      assert s[0] !in tail by {
        forall j | 0 <= j < |tail| ensures tail[j] != s[0] {
          assert tail[j] == s[j + 1];
        }
      }
      InsertSorted(s[0], SortByString(tail));
    }
  }

  /** The floor list `setParkingSpots` derives: the distinct floors of the
      spots, in string order. */
  function Floors(spots: seq<Spot>): (fs: seq<int>)
    ensures SortedByString(fs)
    ensures NoDuplicates(fs)
    ensures forall f :: f in fs <==> exists s :: s in spots && s.floor == f
  {
    var distinct := Dedup(FloorList(spots));
    FloorListMembers(spots);
    SortByStringMembers(distinct);
    SortByStringSorted(distinct);
    SortedHasNoDuplicates(SortByString(distinct));
    SortByString(distinct)
  }

  /** In a string-sorted list the head comes before every other member. */
  lemma SortedHeadFirst(a: seq<int>, x: int)
    requires SortedByString(a) && a != [] && x in a[1..]
    ensures FloorBefore(a[0], x) && x != a[0]
  {
    var j :| 1 <= j < |a| && a[j] == x;
    assert FloorBefore(a[0], a[j]);
    FloorBeforeIrreflexive(x);
  }

  lemma SortedTail(a: seq<int>)
    requires SortedByString(a) && a != []
    ensures SortedByString(a[1..])
  {
    var tail := a[1..];
    forall i, j | 0 <= i < j < |tail| ensures FloorBefore(tail[i], tail[j]) {
      assert tail[i] == a[i + 1] && tail[j] == a[j + 1];
    }
  }

  /** Sorted lists with the same members start with the same element. */
  lemma SameHeads(a: seq<int>, b: seq<int>)
    requires SortedByString(a) && SortedByString(b) && a != [] && b != []
    requires forall x :: x in a <==> x in b
    ensures a[0] == b[0]
  {
    var x, y := a[0], b[0];
    if x != y {
      assert y in b && x in a;
      assert y in a[1..] by { assert a == [x] + a[1..]; }
      assert x in b[1..] by { assert b == [y] + b[1..]; }
      SortedHeadFirst(a, y);
      SortedHeadFirst(b, x);
      FloorBeforeAsymmetric(x, y);
    }
  }

  /** Lists with the same head and the same members, sorted, have tails with the same members. */
  lemma SameTails(a: seq<int>, b: seq<int>)
    requires SortedByString(a) && SortedByString(b) && a != [] && b != [] && a[0] == b[0]
    requires forall x :: x in a <==> x in b
    ensures forall x :: x in a[1..] <==> x in b[1..]
  {
    forall x | x in a[1..] ensures x in b[1..] {
      SortedHeadFirst(a, x);
      assert x in a;
    }
    forall x | x in b[1..] ensures x in a[1..] {
      SortedHeadFirst(b, x);
      assert x in b;
    }
  }

  /** Two string-sorted lists with the same members are the same list. */
  lemma {:induction false} SortedByStringUnique(a: seq<int>, b: seq<int>)
    requires SortedByString(a) && SortedByString(b)
    requires forall x :: x in a <==> x in b
    ensures a == b
  {
    assert a != [] ==> a[0] in a && a[0] in b;
    assert b != [] ==> b[0] in b && b[0] in a;
    if a != [] {
      assert a[0] in a;
      assert b != [];
      SameHeads(a, b);
      SameTails(a, b);
      SortedTail(a);
      SortedTail(b);
      SortedByStringUnique(a[1..], b[1..]);
      assert a == [a[0]] + a[1..];
      assert b == [b[0]] + b[1..];
    }
  }

  /** The derived floor list is THE string-sorted list of the distinct floors. */
  lemma FloorsCharacterized(spots: seq<Spot>, fs: seq<int>)
    requires SortedByString(fs)
    requires forall f :: f in fs <==> exists s :: s in spots && s.floor == f
    ensures fs == Floors(spots)
  {
    SortedByStringUnique(fs, Floors(spots));
  }

  /** For floors 0 to 9 the string order is the numeric order. */
  lemma SingleDigitOrder(x: int, y: int)
    requires 0 <= x < 10 && 0 <= y < 10
    ensures FloorBefore(x, y) <==> x < y
  {
    var sx, sy := IntToString(x), IntToString(y);
    assert sx == [DigitChar(x)] && sy == [DigitChar(y)];
    assert DigitChar(x) as int == 48 + x && DigitChar(y) as int == 48 + y;
    if x == y {
      StrLessIrreflexive(sx);
    } else {
      assert sx[0] != sy[0];
      assert StrLess(sx, sy) <==> sx[0] < sy[0];
    }
  }

  /** When every floor is a single digit, the floor list is numerically ascending. */
  lemma SingleDigitFloorsAscending(spots: seq<Spot>)
    requires forall s :: s in spots ==> 0 <= s.floor < 10
    ensures forall i, j :: 0 <= i < j < |Floors(spots)| ==> Floors(spots)[i] < Floors(spots)[j]
  {
    var fs := Floors(spots);
    forall i, j | 0 <= i < j < |fs| ensures fs[i] < fs[j] {
      assert fs[i] in fs && fs[j] in fs;
      SingleDigitOrder(fs[i], fs[j]);
    }
  }

  /** Floors 2 and 10 are listed as [10, 2]: the sort compares "10" with "2". */
  lemma TenSortsBeforeTwo()
    ensures Floors([Spot("A1", 2, false), Spot("B1", 10, false)]) == [10, 2]
  {
    var spots := [Spot("A1", 2, false), Spot("B1", 10, false)];
    assert IntToString(10) == "10";
    assert IntToString(2) == "2";
    assert FloorBefore(10, 2);
    forall f ensures f in [10, 2] <==> exists s :: s in spots && s.floor == f {
      if f in [10, 2] {
        assert spots[0].floor == 2 && spots[1].floor == 10;
        assert spots[0] in spots && spots[1] in spots;
      }
    }
    FloorsCharacterized(spots, [10, 2]);
  }

  // ---------------------------------------------------------------------------
  // Toggling one spot
  // ---------------------------------------------------------------------------

  /** The spot with its occupancy flag negated. */
  function Flip(s: Spot): Spot
  {
    s.(occupied := !s.occupied)
  }

  /** k is the position `find` stops at when looking for number. */
  predicate IsFirstMatch(spots: seq<Spot>, number: string, k: int)
  {
    0 <= k < |spots| && spots[k].number == number &&
    forall j :: 0 <= j < k ==> spots[j].number != number
  }

  /** Past a head of another number, the first match is the tail's first match. */
  lemma FirstMatchInTail(spots: seq<Spot>, number: string)
    requires spots != [] && spots[0].number != number
    ensures forall k :: 0 < k < |spots| ==>
      (IsFirstMatch(spots, number, k) <==> IsFirstMatch(spots[1..], number, k - 1))
  {
    var tail := spots[1..];
    forall k | 0 < k < |spots|
      ensures IsFirstMatch(spots, number, k) <==> IsFirstMatch(tail, number, k - 1)
    {
      assert forall j :: 0 <= j < k - 1 ==> tail[j] == spots[j + 1];
      if IsFirstMatch(tail, number, k - 1) {
        forall j | 0 <= j < k ensures spots[j].number != number {
          if j > 0 {
            assert spots[j] == tail[j - 1];
          }
        }
      }
    }
  }

  /** `spots.find((spot) => spot.number === number)`, as a position. */
  method FindSpot(spots: seq<Spot>, number: string) returns (r: Option<nat>)
    ensures r.Some? ==> IsFirstMatch(spots, number, r.value)
    ensures r.None? ==> forall s :: s in spots ==> s.number != number
  {
    var i := 0;
    while i < |spots|
      invariant 0 <= i <= |spots|
      invariant forall j :: 0 <= j < i ==> spots[j].number != number
    {
      if spots[i].number == number {
        return Some(i);
      }
      i := i + 1;
    }
    return None;
  }

  /** The spot list after `changeSpotState` for a spot number: the first spot
      with that number has its flag negated, and nothing else changes. */
  function Toggled(spots: seq<Spot>, number: string): (r: seq<Spot>)
    ensures |r| == |spots|
    ensures forall k :: 0 <= k < |spots| ==>
      r[k] == if IsFirstMatch(spots, number, k) then Flip(spots[k]) else spots[k]
  {
    if spots == [] then []
    else if spots[0].number == number then [Flip(spots[0])] + spots[1..]
    else
      FirstMatchInTail(spots, number);
      [spots[0]] + Toggled(spots[1..], number)
  }

  /** With no spot of that number, the list is unchanged. */
  lemma ToggledNoMatch(spots: seq<Spot>, number: string)
    requires forall s :: s in spots ==> s.number != number
    ensures Toggled(spots, number) == spots
  {
    var r := Toggled(spots, number);
    forall k | 0 <= k < |spots| ensures r[k] == spots[k] {
      assert spots[k] in spots;
    }
  }

  /** Toggling only flips the flag at the found position. */
  lemma ToggledAt(spots: seq<Spot>, number: string, k: nat)
    requires IsFirstMatch(spots, number, k)
    ensures Toggled(spots, number) == spots[k := Flip(spots[k])]
  {
    var r := Toggled(spots, number);
    forall i | 0 <= i < |spots| ensures r[i] == spots[k := Flip(spots[k])][i] {
      if i != k {
        assert !IsFirstMatch(spots, number, i);
      }
    }
  }

  /** Toggling the same spot twice restores the list. */
  lemma {:induction false} ToggledTwice(spots: seq<Spot>, number: string)
    ensures Toggled(Toggled(spots, number), number) == spots
  {
    if spots != [] && spots[0].number != number {
      ToggledTwice(spots[1..], number);
      assert Toggled(spots, number) == [spots[0]] + Toggled(spots[1..], number);
    }
  }

  /** Toggling never touches a floor, so the derived floor list stays valid. */
  lemma ToggledKeepsFloors(spots: seq<Spot>, number: string)
    ensures Floors(Toggled(spots, number)) == Floors(spots)
  {
    var r := Toggled(spots, number);
    assert FloorList(r) == FloorList(spots);
  }

  // ---------------------------------------------------------------------------
  // The store
  // ---------------------------------------------------------------------------

  /** The parking slice's state: the spots and the floors shown in the floor filter. */
  class ParkingStore {
    var spots: seq<Spot>
    var floors: seq<int>

    /** The floor list is the one derived from the spot list. */
    ghost predicate Valid()
      reads this
    {
      floors == Floors(spots)
    }

    /** `initialState`: no spots, no floors. */
    constructor ()
      ensures spots == [] && floors == []
      ensures Valid()
    {
      spots := [];
      floors := [];
    }

    /** `setParkingSpots`: a null or undefined payload is ignored; any list,
        the empty one included, replaces the spots and rederives the floors. */
    method SetParkingSpots(payload: Option<seq<Spot>>)
      modifies this
      ensures payload.None? ==> spots == old(spots) && floors == old(floors)
      ensures payload.Some? ==> spots == payload.value && floors == Floors(payload.value)
      ensures payload.Some? || old(Valid()) ==> Valid()
    {
      if payload.None? {
        return;
      }
      spots := payload.value;
      floors := SortByString(Dedup(FloorList(spots)));
    }

    /** `changeSpotState`: negates the flag of the first stored spot whose
        number is that of the payload's spot; silently does nothing if none has it. */
    method ChangeSpotState(spot: Spot)
      modifies this
      ensures spots == Toggled(old(spots), spot.number)
      ensures floors == old(floors)
      ensures old(Valid()) ==> Valid()
    {
      ghost var before := spots;
      var found := FindSpot(spots, spot.number);
      match found {
        case Some(k) =>
          ToggledAt(spots, spot.number, k);
          spots := spots[k := Flip(spots[k])];
        case None =>
          ToggledNoMatch(spots, spot.number);
      }
      ToggledKeepsFloors(before, spot.number);
    }
  }
}
