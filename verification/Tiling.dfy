/** Byte ranges that tile an area: the sort-and-sweep of SlottedPage::validate against "every byte has one owner". */
module Tiling {

  datatype Range = Range(begin: nat, end: nat)

  predicate Owns(r: Range, x: int) {
    r.begin <= x < r.end
  }

  /** How many of the ranges contain the byte. */
  function Owners(rs: seq<Range>, x: int): nat {
    if rs == [] then 0 else Owners(rs[..|rs| - 1], x) + if Owns(rs[|rs| - 1], x) then 1 else 0
  }

  function TotalLength(rs: seq<Range>): int {
    if rs == [] then 0 else TotalLength(rs[..|rs| - 1]) + rs[|rs| - 1].end - rs[|rs| - 1].begin
  }

  // ---------------------------------------------------------------- sorting by begin

  function Insert(rs: seq<Range>, r: Range): (s: seq<Range>)
    ensures |s| == |rs| + 1
  {
    if rs == [] then [r]
    else if rs[|rs| - 1].begin <= r.begin then rs + [r]
    else Insert(rs[..|rs| - 1], r) + [rs[|rs| - 1]]
  }

  /** std::sort by the first byte. */
  function Sort(rs: seq<Range>): (s: seq<Range>)
    ensures |s| == |rs|
  {
    if rs == [] then [] else Insert(Sort(rs[..|rs| - 1]), rs[|rs| - 1])
  }

  predicate Ordered(rs: seq<Range>) {
    forall i, j :: 0 <= i < j < |rs| ==> rs[i].begin <= rs[j].begin
  }

  /** All ranges are non-empty and lie in [low, high). */
  predicate Within(rs: seq<Range>, low: int, high: int) {
    forall i :: 0 <= i < |rs| ==> low <= rs[i].begin < rs[i].end <= high
  }

  lemma OwnersAppend(rs: seq<Range>, r: Range, x: int)
    ensures Owners(rs + [r], x) == Owners(rs, x) + if Owns(r, x) then 1 else 0
  {
    assert (rs + [r])[..|rs|] == rs;
  }

  lemma TotalAppend(rs: seq<Range>, r: Range)
    ensures TotalLength(rs + [r]) == TotalLength(rs) + r.end - r.begin
  {
    assert (rs + [r])[..|rs|] == rs;
  }

  lemma {:induction false} InsertKeeps(rs: seq<Range>, r: Range, x: int)
    ensures Owners(Insert(rs, r), x) == Owners(rs, x) + if Owns(r, x) then 1 else 0
    ensures TotalLength(Insert(rs, r)) == TotalLength(rs) + r.end - r.begin
  {
    if rs == [] {
      OwnersAppend([], r, x);
      TotalAppend([], r);
      assert [] + [r] == [r];
    } else if rs[|rs| - 1].begin <= r.begin {
      OwnersAppend(rs, r, x);
      TotalAppend(rs, r);
    } else {
      var init, last := rs[..|rs| - 1], rs[|rs| - 1];
      InsertKeeps(init, r, x);
      OwnersAppend(Insert(init, r), last, x);
      TotalAppend(Insert(init, r), last);
    }
  }

  lemma {:induction false} InsertWithin(rs: seq<Range>, r: Range, low: int, high: int)
    requires Within(rs, low, high) && low <= r.begin < r.end <= high
    ensures Within(Insert(rs, r), low, high)
  {
    if rs != [] && rs[|rs| - 1].begin > r.begin {
      InsertWithin(rs[..|rs| - 1], r, low, high);
    }
  }

  lemma {:induction false} InsertBelow(rs: seq<Range>, r: Range, bound: nat)
    requires r.begin <= bound && forall i :: 0 <= i < |rs| ==> rs[i].begin <= bound
    ensures forall i :: 0 <= i < |Insert(rs, r)| ==> Insert(rs, r)[i].begin <= bound
  {
    if rs != [] && rs[|rs| - 1].begin > r.begin {
      InsertBelow(rs[..|rs| - 1], r, bound);
    }
  }

  lemma {:induction false} InsertOrdered(rs: seq<Range>, r: Range)
    requires Ordered(rs)
    ensures Ordered(Insert(rs, r))
  {
    if rs != [] && rs[|rs| - 1].begin > r.begin {
      InsertOrdered(rs[..|rs| - 1], r);
      InsertBelow(rs[..|rs| - 1], r, rs[|rs| - 1].begin);
    }
  }

  /** Sorting orders the ranges and changes neither owners nor bounds nor the total. */
  lemma {:induction false} SortKeeps(rs: seq<Range>, x: int)
    ensures Owners(Sort(rs), x) == Owners(rs, x) && TotalLength(Sort(rs)) == TotalLength(rs)
  {
    if rs != [] {
      SortKeeps(rs[..|rs| - 1], x);
      InsertKeeps(Sort(rs[..|rs| - 1]), rs[|rs| - 1], x);
    }
  }

  lemma {:induction false} SortOrders(rs: seq<Range>, low: int, high: int)
    requires Within(rs, low, high)
    ensures Ordered(Sort(rs)) && Within(Sort(rs), low, high)
  {
    if rs != [] {
      SortOrders(rs[..|rs| - 1], low, high);
      InsertOrdered(Sort(rs[..|rs| - 1]), rs[|rs| - 1]);
      InsertWithin(Sort(rs[..|rs| - 1]), rs[|rs| - 1], low, high);
    }
  }

  // ---------------------------------------------------------------- the sweep

  /** Each range starts where the one before ended, and the last ends at `high`. */
  predicate Sweep(rs: seq<Range>, next: int, high: int)
    decreases |rs|
  {
    if rs == [] then next == high
    else rs[0].begin == next && rs[0].begin < rs[0].end && Sweep(rs[1..], rs[0].end, high)
  }

  method SweepRanges(rs: seq<Range>, low: int, high: int) returns (ok: bool)
    ensures ok == Sweep(rs, low, high)
  {
    var next := low;
    var i := 0;
    while i < |rs|
      invariant 0 <= i <= |rs|
      invariant Sweep(rs, low, high) == Sweep(rs[i..], next, high)
    {
      assert rs[i..][0] == rs[i] && rs[i..][1..] == rs[i + 1..];
      if rs[i].begin != next || rs[i].end <= rs[i].begin {
        return false;
      }
      next := rs[i].end;
      i := i + 1;
    }
    return next == high;
  }

  ghost predicate Tiles(rs: seq<Range>, low: int, high: int) {
    forall x :: low <= x < high ==> Owners(rs, x) == 1
  }

  lemma {:induction false} OwnersHead(rs: seq<Range>, x: int)
    requires rs != []
    ensures Owners(rs, x) == (if Owns(rs[0], x) then 1 else 0) + Owners(rs[1..], x)
    decreases |rs|
  {
    if |rs| == 1 {
      assert rs[..0] == [] && rs[1..] == [];
    } else {
      var n := |rs| - 1;
      OwnersHead(rs[..n], x);
      assert rs[..n][1..] == rs[1..][..n - 1];
      assert rs[1..][n - 1] == rs[n];
    }
  }

  lemma {:induction false} SomeOwner(rs: seq<Range>, x: int)
    requires Owners(rs, x) > 0
    ensures exists i :: 0 <= i < |rs| && Owns(rs[i], x)
  {
    if !Owns(rs[|rs| - 1], x) {
      SomeOwner(rs[..|rs| - 1], x);
      var i :| 0 <= i < |rs| - 1 && Owns(rs[..|rs| - 1][i], x);
      assert Owns(rs[i], x);
    }
  }

  lemma {:induction false} OwnerCounts(rs: seq<Range>, x: int, i: nat)
    requires i < |rs| && Owns(rs[i], x)
    ensures Owners(rs, x) > 0
  {
    if i < |rs| - 1 {
      OwnerCounts(rs[..|rs| - 1], x, i);
    }
  }

  lemma {:induction false} NoOwner(rs: seq<Range>, x: int)
    requires forall i :: 0 <= i < |rs| ==> !Owns(rs[i], x)
    ensures Owners(rs, x) == 0
  {
    if rs != [] {
      NoOwner(rs[..|rs| - 1], x);
    }
  }

  lemma {:induction false} SweepBounds(rs: seq<Range>, next: int, high: int)
    requires Sweep(rs, next, high)
    ensures next <= high && Within(rs, next, high)
    decreases |rs|
  {
    if rs != [] {
      SweepBounds(rs[1..], rs[0].end, high);
      forall i | 0 <= i < |rs| ensures next <= rs[i].begin < rs[i].end <= high {
        if i > 0 {
          assert rs[i] == rs[1..][i - 1];
        }
      }
    }
  }

  lemma {:induction false} SweepTiles(rs: seq<Range>, next: int, high: int, x: int)
    requires Sweep(rs, next, high) && next <= x < high
    ensures Owners(rs, x) == 1
    decreases |rs|
  {
    OwnersHead(rs, x);
    SweepBounds(rs[1..], rs[0].end, high);
    if x < rs[0].end {
      NoOwner(rs[1..], x);
    } else {
      SweepTiles(rs[1..], rs[0].end, high, x);
    }
  }

  lemma {:induction false} SweepTotal(rs: seq<Range>, next: int, high: int)
    requires Sweep(rs, next, high)
    ensures TotalLength(rs) == high - next
    decreases |rs|
  {
    if rs != [] {
      SweepTotal(rs[1..], rs[0].end, high);
      TotalHead(rs);
    }
  }

  lemma {:induction false} TotalHead(rs: seq<Range>)
    requires rs != []
    ensures TotalLength(rs) == rs[0].end - rs[0].begin + TotalLength(rs[1..])
    decreases |rs|
  {
    if |rs| == 1 {
      assert rs[..0] == [] && rs[1..] == [];
    } else {
      var n := |rs| - 1;
      TotalHead(rs[..n]);
      assert rs[..n][1..] == rs[1..][..n - 1];
      assert rs[1..][n - 1] == rs[n];
    }
  }

  /** The first of ordered ranges that tile an area starts it. */
  lemma TilesStart(rs: seq<Range>, next: int, high: int)
    requires rs != [] && Ordered(rs) && Within(rs, next, high) && Tiles(rs, next, high)
    ensures rs[0].begin == next
  {
    assert next <= rs[0].begin < rs[0].end <= high;
    assert Owners(rs, next) == 1;
    SomeOwner(rs, next);
    var i :| 0 <= i < |rs| && Owns(rs[i], next);
  }

  lemma TilesRest(rs: seq<Range>, next: int, high: int)
    requires rs != [] && Ordered(rs) && Within(rs, next, high) && Tiles(rs, next, high) && rs[0].begin == next
    ensures Ordered(rs[1..]) && Within(rs[1..], rs[0].end, high) && Tiles(rs[1..], rs[0].end, high)
  {
    forall i | 0 <= i < |rs[1..]| ensures rs[0].end <= rs[1..][i].begin < rs[1..][i].end <= high {
      var x := rs[i + 1].begin;
      assert rs[1..][i] == rs[i + 1] && next <= x < rs[i + 1].end <= high;
      OwnersHead(rs, x);
      OwnerCounts(rs[1..], x, i);
      assert Owners(rs, x) == 1;
    }
    forall x | rs[0].end <= x < high ensures Owners(rs[1..], x) == 1 {
      OwnersHead(rs, x);
      assert Owners(rs, x) == 1;
    }
  }

  lemma {:induction false} TilesSweep(rs: seq<Range>, next: int, high: int)
    requires Ordered(rs) && Within(rs, next, high) && Tiles(rs, next, high) && next <= high
    ensures Sweep(rs, next, high)
    decreases |rs|
  {
    if rs == [] {
      assert next < high ==> Owners(rs, next) == 1;
    } else {
      TilesStart(rs, next, high);
      TilesRest(rs, next, high);
      assert rs[0].end <= high;
      TilesSweep(rs[1..], rs[0].end, high);
    }
  }

  /** Sorting and sweeping decides whether every byte of the area has exactly one owner. */
  lemma SweepDecidesTiling(rs: seq<Range>, low: int, high: int)
    requires Within(rs, low, high) && low <= high
    ensures Sweep(Sort(rs), low, high) <==> Tiles(rs, low, high)
  {
    SortOrders(rs, low, high);
    if Sweep(Sort(rs), low, high) {
      forall x | low <= x < high ensures Owners(rs, x) == 1 {
        SortKeeps(rs, x);
        SweepTiles(Sort(rs), low, high, x);
      }
    }
    if Tiles(rs, low, high) {
      forall x | low <= x < high ensures Owners(Sort(rs), x) == 1 {
        SortKeeps(rs, x);
        assert Owners(rs, x) == 1;
      }
      TilesSweep(Sort(rs), low, high);
    }
  }

  /** Tiling ranges are exactly as long as the area. */
  lemma TilingTotal(rs: seq<Range>, low: int, high: int)
    requires Within(rs, low, high) && low <= high && Tiles(rs, low, high)
    ensures TotalLength(rs) == high - low
  {
    SweepDecidesTiling(rs, low, high);
    SweepTotal(Sort(rs), low, high);
    SortKeeps(rs, low);
  }
}
