/**
 * How the renderer divides the nav mesh into floors and lays the floors out
 * on a square grid of UV islands: the sorted separator heights, the number
 * of floors, the grid's row size, the floor a height falls on, and the grid
 * cell of a floor.
 */
module FloorLayout {

  ghost predicate SortedAsc(s: seq<real>) {
    forall i, j :: 0 <= i < j < |s| ==> s[i] <= s[j]
  }

  /** Inserts h into an ascending sequence, keeping it ascending. */
  function Insert(h: real, s: seq<real>): (r: seq<real>)
    requires SortedAsc(s)
    ensures SortedAsc(r)
    ensures multiset(r) == multiset(s) + multiset{h}
  {
    if s == [] then [h]
    else if h <= s[0] then
      ConsSorted(h, s);
      [h] + s
    else
      var rest := Insert(h, s[1..]);
      assert s == [s[0]] + s[1..];
      BoundedBelow(s[0], rest, s[1..], h);
      ConsSorted(s[0], rest);
      [s[0]] + rest
  }

  /** x is a lower bound of every element of rest, whose elements are those of tail and h. */
  lemma BoundedBelow(x: real, rest: seq<real>, tail: seq<real>, h: real)
    requires multiset(rest) == multiset(tail) + multiset{h}
    requires SortedAsc([x] + tail) && x <= h
    ensures forall k :: 0 <= k < |rest| ==> x <= rest[k]
  {
    forall k | 0 <= k < |rest|
      ensures x <= rest[k]
    {
      assert rest[k] in multiset(rest);
      if rest[k] != h {
        assert ([x] + tail)[0] == x;
        assert rest[k] in multiset(tail);
        var j :| 0 <= j < |tail| && tail[j] == rest[k];
        assert ([x] + tail)[j + 1] == tail[j];
      }
    }
  }

  lemma ConsSorted(x: real, rest: seq<real>)
    requires SortedAsc(rest)
    requires forall k :: 0 <= k < |rest| ==> x <= rest[k]
    ensures SortedAsc([x] + rest)
  {
    var r := [x] + rest;
    forall i, j | 0 <= i < j < |r|
      ensures r[i] <= r[j]
    {
      assert r[j] == rest[j - 1];
      if i > 0 {
        assert r[i] == rest[i - 1];
      }
    }
  }

  /** The in-place sort of the separator heights (TArray::Sort), as a value. */
  function SortAscending(s: seq<real>): (r: seq<real>)
    ensures SortedAsc(r)
    ensures multiset(r) == multiset(s)
  {
    if s == [] then []
    else
      assert s == [s[0]] + s[1..];
      Insert(s[0], SortAscending(s[1..]))
  }

  /** The number of separator heights h with 0 < h <= top. */
  function CountFloorHeights(hs: seq<real>, top: real): (r: nat)
    ensures r <= |hs|
  {
    if hs == [] then 0
    else CountFloorHeights(hs[..|hs| - 1], top) + (if 0.0 < hs[|hs| - 1] <= top then 1 else 0)
  }

  /** NumberOfFloors: the ground floor plus one per separator inside (0, top]. */
  function FloorCount(hs: seq<real>, top: real): (r: nat)
    ensures 1 <= r <= |hs| + 1
  {
    1 + CountFloorHeights(hs, top)
  }

  lemma {:induction false} CountFloorHeightsAppend(a: seq<real>, b: seq<real>, top: real)
    ensures CountFloorHeights(a + b, top) == CountFloorHeights(a, top) + CountFloorHeights(b, top)
    decreases |b|
  {
    if b == [] {
      assert a + b == a;
    } else {
      var b' := b[..|b| - 1];
      assert (a + b)[..|a + b| - 1] == a + b';
      CountFloorHeightsAppend(a, b', top);
    }
  }

  /** Removing the element at k takes its own contribution off the count. */
  lemma CountFloorHeightsRemove(b: seq<real>, k: nat, top: real)
    requires k < |b|
    ensures CountFloorHeights(b, top) ==
      CountFloorHeights(b[..k] + b[k + 1..], top) + (if 0.0 < b[k] <= top then 1 else 0)
  {
    assert b == b[..k] + [b[k]] + b[k + 1..];
    CountFloorHeightsAppend(b[..k], [b[k]], top);
    CountFloorHeightsAppend(b[..k] + [b[k]], b[k + 1..], top);
    CountFloorHeightsAppend(b[..k], b[k + 1..], top);
    assert [b[k]][..0] == [];
  }

  lemma MultisetRemove(b: seq<real>, k: nat)
    requires k < |b|
    ensures multiset(b[..k] + b[k + 1..]) == multiset(b) - multiset{b[k]}
  {
    assert b == b[..k] + [b[k]] + b[k + 1..];
  }

  /** The number of floors depends only on the heights, not on their order. */
  lemma {:induction false} CountFloorHeightsPermutation(a: seq<real>, b: seq<real>, top: real)
    requires multiset(a) == multiset(b)
    ensures CountFloorHeights(a, top) == CountFloorHeights(b, top)
    decreases |a|
  {
    if a == [] {
      assert |b| == |multiset(b)| == 0;
    } else {
      var x := a[|a| - 1];
      assert x in multiset(b);
      var k :| 0 <= k < |b| && b[k] == x;
      MultisetRemove(a, |a| - 1);
      MultisetRemove(b, k);
      assert a[..|a| - 1] + a[|a|..] == a[..|a| - 1];
      CountFloorHeightsPermutation(a[..|a| - 1], b[..k] + b[k + 1..], top);
      CountFloorHeightsRemove(b, k, top);
    }
  }

  /** Integer square root: the idealisation of truncating a float sqrt. */
  function Isqrt(n: nat): (r: nat)
    ensures r * r <= n < (r + 1) * (r + 1)
  {
    if n == 0 then 0
    else
      var r0 := Isqrt(n - 1);
      if (r0 + 1) * (r0 + 1) <= n then
        assert n <= (r0 + 1) * (r0 + 1);
        assert (r0 + 2) * (r0 + 2) == (r0 + 1) * (r0 + 1) + 2 * r0 + 3;
        r0 + 1
      else r0
  }

  /**
   * FloorRowSize: the side of the square grid of UV islands. With several
   * floors it is the least R whose square exceeds the floor count.
   */
  function RowSize(numberOfFloors: int): (r: int)
    ensures r >= 1
    ensures numberOfFloors <= 1 ==> r == 1
    ensures numberOfFloors > 1 ==> (r - 1) * (r - 1) <= numberOfFloors < r * r
  {
    if numberOfFloors > 1 then Isqrt(numberOfFloors) + 1 else 1
  }

  /**
   * The floor a relative height lies on: the number of separator heights at
   * or below it. All configured heights take part, including those that do
   * not start a floor of their own.
   */
  function FloorIndex(hs: seq<real>, relHeight: real): (r: nat)
    ensures r <= |hs|
  {
    if hs == [] then 0
    else FloorIndex(hs[..|hs| - 1], relHeight) + (if relHeight >= hs[|hs| - 1] then 1 else 0)
  }

  /** (column, row) of a floor on a grid rowSize cells wide. */
  function GridCell(floor: nat, rowSize: int): (cell: (nat, nat))
    requires rowSize >= 1
    ensures cell.0 < rowSize
  {
    (floor % rowSize, floor / rowSize)
  }

  /**
   * The cell determines the floor (floor == row * rowSize + column), so
   * distinct floors get distinct cells.
   */
  lemma GridCellInverse(floor: nat, other: nat, rowSize: int)
    requires rowSize >= 1
    ensures floor == GridCell(floor, rowSize).1 * rowSize + GridCell(floor, rowSize).0
    ensures GridCell(floor, rowSize) == GridCell(other, rowSize) ==> floor == other
  {
  }

  /** A higher point never lies on a lower floor. */
  lemma {:induction false} FloorIndexMonotone(hs: seq<real>, lo: real, hi: real)
    requires lo <= hi
    ensures FloorIndex(hs, lo) <= FloorIndex(hs, hi)
    decreases |hs|
  {
    if hs != [] {
      FloorIndexMonotone(hs[..|hs| - 1], lo, hi);
    }
  }

  /**
   * When every separator height is positive, a point at or below the top of
   * the nav mesh lies on one of the NumberOfFloors floors.
   */
  lemma {:induction false} FloorIndexWithinFloors(hs: seq<real>, relHeight: real, top: real)
    requires forall k :: 0 <= k < |hs| ==> hs[k] > 0.0
    requires relHeight <= top
    ensures FloorIndex(hs, relHeight) < FloorCount(hs, top)
    decreases |hs|
  {
    if hs != [] {
      FloorIndexWithinFloors(hs[..|hs| - 1], relHeight, top);
    }
  }

  /** Every one of the floors gets a cell inside the rowSize x rowSize grid. */
  lemma FloorCellInGrid(numberOfFloors: nat, floor: nat)
    requires floor < numberOfFloors
    ensures GridCell(floor, RowSize(numberOfFloors)).1 < RowSize(numberOfFloors)
  {
    var r := RowSize(numberOfFloors);
    assert floor < r * r;
    var q := floor / r;
    assert q * r <= floor;
    assert (q - r) * r < 0 by {
      assert (q - r) * r == q * r - r * r;
    }
    NegativeFactor(q - r, r);
  }

  lemma NegativeFactor(x: int, r: int)
    requires r > 0 && x * r < 0
    ensures x < 0
  {
  }

  /** Scenario: one separator at 5 under a 10-high nav mesh gives two floors on a 2x2 grid. */
  lemma TwoFloorScenario()
    ensures FloorCount([5.0], 10.0) == 2
    ensures RowSize(FloorCount([5.0], 10.0)) == 2
  {
    assert [5.0][..0] == [];
    assert Isqrt(2) == 1;
  }
}
