/** The bounded edit distance behind "did you mean" (src/compiler/diagnostic_suggestion.hpp). */
module EditDistance {
  import opened Common

  function Min(a: nat, b: nat): nat {
    if a < b then a else b
  }

  // ---------------------------------------------------------------- the distance

  predicate Swapped(a: string, b: string, i: nat, j: nat)
    requires i <= |a| && j <= |b|
  {
    i > 1 && j > 1 && a[i - 1] == b[j - 2] && a[i - 2] == b[j - 1]
  }

  /** Optimal string alignment distance of the first i and the first j characters. */
  function Distance(a: string, b: string, i: nat, j: nat): nat
    requires i <= |a| && j <= |b|
    decreases i + j
  {
    if i == 0 || j == 0 then i + j
    else
      Best(Distance(a, b, i - 1, j), Distance(a, b, i, j - 1), Distance(a, b, i - 1, j - 1), a[i - 1] == b[j - 1],
           if Swapped(a, b, i, j) then Some(Distance(a, b, i - 2, j - 2)) else None)
  }

  /** The cheapest way to reach a cell of the table: from above, from the left, over the diagonal, by a swap. */
  function Best(above: nat, left: nat, diagonal: nat, same: bool, swap: Option<nat>): (d: nat)
    ensures d <= above + 1 && d <= left + 1 && d <= diagonal + (if same then 0 else 1) &&
      (swap.Some? ==> d <= swap.value + 1)
    ensures d == above + 1 || d == left + 1 || d == diagonal + (if same then 0 else 1) ||
      (swap.Some? && d == swap.value + 1)
  {
    var plain := Min(Min(above + 1, left + 1), diagonal + if same then 0 else 1);
    if swap.Some? then Min(plain, swap.value + 1) else plain
  }

  // ---------------------------------------------------------------- edit scripts

  /** One step of turning a into b, written from left to right; no part is edited twice. */
  datatype Edit = Keep | Substitute | Insert | Delete | Transpose

  function Cost(script: seq<Edit>): nat {
    if script == [] then 0 else Cost(script[..|script| - 1]) + if script[|script| - 1].Keep? then 0 else 1
  }

  /** The script turns the first i characters of a into the first j of b. */
  predicate Aligns(script: seq<Edit>, a: string, b: string, i: nat, j: nat)
    requires i <= |a| && j <= |b|
    decreases |script|
  {
    if script == [] then i == 0 && j == 0
    else
      var before := script[..|script| - 1];
      match script[|script| - 1]
      case Keep => i > 0 && j > 0 && a[i - 1] == b[j - 1] && Aligns(before, a, b, i - 1, j - 1)
      case Substitute => i > 0 && j > 0 && Aligns(before, a, b, i - 1, j - 1)
      case Insert => j > 0 && Aligns(before, a, b, i, j - 1)
      case Delete => i > 0 && Aligns(before, a, b, i - 1, j)
      case Transpose => Swapped(a, b, i, j) && Aligns(before, a, b, i - 2, j - 2)
  }

  /** The entry at (i, j) is the best over its neighbours. */
  lemma Step(a: string, b: string, i: nat, j: nat)
    requires 0 < i <= |a| && 0 < j <= |b|
    ensures Distance(a, b, i, j) ==
            Best(Distance(a, b, i - 1, j), Distance(a, b, i, j - 1), Distance(a, b, i - 1, j - 1), a[i - 1] == b[j - 1],
                 if Swapped(a, b, i, j) then Some(Distance(a, b, i - 2, j - 2)) else None)
  {
  }

  lemma LastEditBound(e: Edit, a: string, b: string, i: nat, j: nat)
    requires i <= |a| && j <= |b|
    ensures e.Insert? && j > 0 ==> Distance(a, b, i, j) <= Distance(a, b, i, j - 1) + 1
    ensures e.Delete? && i > 0 ==> Distance(a, b, i, j) <= Distance(a, b, i - 1, j) + 1
    ensures e.Keep? && i > 0 && j > 0 && a[i - 1] == b[j - 1] ==> Distance(a, b, i, j) <= Distance(a, b, i - 1, j - 1)
    ensures e.Substitute? && i > 0 && j > 0 ==> Distance(a, b, i, j) <= Distance(a, b, i - 1, j - 1) + 1
    ensures e.Transpose? && Swapped(a, b, i, j) ==> Distance(a, b, i, j) <= Distance(a, b, i - 2, j - 2) + 1
  {
  }

  /** No script is cheaper than the distance. */
  lemma {:induction false} ScriptsCostAtLeast(script: seq<Edit>, a: string, b: string, i: nat, j: nat)
    requires i <= |a| && j <= |b| && Aligns(script, a, b, i, j)
    ensures Distance(a, b, i, j) <= Cost(script)
    decreases |script|
  {
    if script != [] {
      var before, last := script[..|script| - 1], script[|script| - 1];
      LastEditBound(last, a, b, i, j);
      match last
      case Keep => ScriptsCostAtLeast(before, a, b, i - 1, j - 1);
      case Substitute => ScriptsCostAtLeast(before, a, b, i - 1, j - 1);
      case Insert => ScriptsCostAtLeast(before, a, b, i, j - 1);
      case Delete => ScriptsCostAtLeast(before, a, b, i - 1, j);
      case Transpose => ScriptsCostAtLeast(before, a, b, i - 2, j - 2);
    }
  }

  function EditCost(e: Edit): nat {
    if e.Keep? then 0 else 1
  }

  /** The edit can be the last one of a script for the first i and j characters. */
  predicate Possible(e: Edit, a: string, b: string, i: nat, j: nat)
    requires i <= |a| && j <= |b|
  {
    match e
    case Keep => i > 0 && j > 0 && a[i - 1] == b[j - 1]
    case Substitute => i > 0 && j > 0
    case Insert => j > 0
    case Delete => i > 0
    case Transpose => Swapped(a, b, i, j)
  }

  function Rows(e: Edit): nat {
    match e
    case Insert => 0
    case Transpose => 2
    case _ => 1
  }

  function Columns(e: Edit): nat {
    match e
    case Delete => 0
    case Transpose => 2
    case _ => 1
  }

  /** Some last edit accounts for the distance. */
  lemma LastEdit(a: string, b: string, i: nat, j: nat) returns (e: Edit)
    requires i <= |a| && j <= |b| && i + j > 0
    ensures Possible(e, a, b, i, j) && Distance(a, b, i, j) == Distance(a, b, i - Rows(e), j - Columns(e)) + EditCost(e)
  {
    if i == 0 {
      e := Insert;
    } else if j == 0 {
      e := Delete;
    } else {
      Step(a, b, i, j);
      var swap := if Swapped(a, b, i, j) then Some(Distance(a, b, i - 2, j - 2)) else None;
      e := BestEdit(Distance(a, b, i - 1, j), Distance(a, b, i, j - 1), Distance(a, b, i - 1, j - 1),
          a[i - 1] == b[j - 1], swap);
    }
  }

  lemma BestEdit(above: nat, left: nat, diagonal: nat, same: bool, swap: Option<nat>) returns (e: Edit)
    ensures var d := Best(above, left, diagonal, same, swap);
            match e
            case Insert => d == left + 1
            case Delete => d == above + 1
            case Transpose => swap.Some? && d == swap.value + 1
            case Keep => same && d == diagonal
            case Substitute => !same && d == diagonal + 1
  {
    var d := Best(above, left, diagonal, same, swap);
    if d == left + 1 {
      e := Insert;
    } else if d == above + 1 {
      e := Delete;
    } else if swap.Some? && d == swap.value + 1 {
      e := Transpose;
    } else {
      e := if same then Keep else Substitute;
    }
  }

  lemma ExtendScript(script: seq<Edit>, e: Edit, a: string, b: string, i: nat, j: nat)
    requires i <= |a| && j <= |b| && Possible(e, a, b, i, j) && Aligns(script, a, b, i - Rows(e), j - Columns(e))
    ensures Aligns(script + [e], a, b, i, j) && Cost(script + [e]) == Cost(script) + EditCost(e)
  {
    assert (script + [e])[..|script|] == script;
  }

  /** Some script costs exactly the distance. */
  lemma {:induction false} CheapestScript(a: string, b: string, i: nat, j: nat) returns (script: seq<Edit>)
    requires i <= |a| && j <= |b|
    ensures Aligns(script, a, b, i, j) && Cost(script) == Distance(a, b, i, j)
    decreases i + j
  {
    if i == 0 && j == 0 {
      return [];
    }
    var e := LastEdit(a, b, i, j);
    var before := CheapestScript(a, b, i - Rows(e), j - Columns(e));
    ExtendScript(before, e, a, b, i, j);
    script := before + [e];
  }

  /** The distance is at least the difference of the lengths. */
  lemma {:induction false} LengthsApart(a: string, b: string, i: nat, j: nat)
    requires i <= |a| && j <= |b|
    ensures i <= j + Distance(a, b, i, j) && j <= i + Distance(a, b, i, j)
    decreases i + j
  {
    if i > 0 && j > 0 {
      LengthsApart(a, b, i - 1, j);
      LengthsApart(a, b, i, j - 1);
      LengthsApart(a, b, i - 1, j - 1);
      if Swapped(a, b, i, j) {
        LengthsApart(a, b, i - 2, j - 2);
      }
    }
  }

  // ---------------------------------------------------------------- three rolling rows

  /** The array holds row i of the distance table up to column n. */
  ghost predicate IsRow(row: array<nat>, a: string, b: string, i: nat, n: nat)
    reads row
    requires i <= |a|
  {
    n <= |b| < row.Length && forall c :: 0 <= c <= n ==> row[c] == Distance(a, b, i, c)
  }

  /** The smallest entry of row i up to column n. */
  function LeastOf(a: string, b: string, i: nat, n: nat): (least: nat)
    requires i <= |a| && n <= |b|
    ensures forall c :: 0 <= c <= n ==> least <= Distance(a, b, i, c)
    ensures exists c :: 0 <= c <= n && least == Distance(a, b, i, c)
  {
    if n == 0 then Distance(a, b, i, 0) else Min(LeastOf(a, b, i, n - 1), Distance(a, b, i, n))
  }

  method NextCell(a: string, b: string, i: nat, j: nat, current: array<nat>, previous: array<nat>, twoBack: array<nat>)
    returns (cell: nat)
    requires 0 < i <= |a| && 0 < j <= |b| && current.Length == previous.Length == twoBack.Length == |b| + 1
    requires IsRow(current, a, b, i, j - 1) && IsRow(previous, a, b, i - 1, |b|) &&
      (i > 1 ==> IsRow(twoBack, a, b, i - 2, |b|))
    ensures cell == Distance(a, b, i, j)
  {
    var cost := if a[i - 1] == b[j - 1] then 0 else 1;
    cell := Min(Min(previous[j] + 1, current[j - 1] + 1), previous[j - 1] + cost);
    if i > 1 && j > 1 && a[i - 1] == b[j - 2] && a[i - 2] == b[j - 1] {
      cell := Min(cell, twoBack[j - 2] + 1);
    }
  }

  /** The inner loop: one row from the two before it. */
  method FillRow(a: string, b: string, i: nat, current: array<nat>, previous: array<nat>, twoBack: array<nat>)
    returns (least: nat)
    requires 0 < i <= |a| && current.Length == previous.Length == twoBack.Length == |b| + 1
    requires current != previous && current != twoBack
    requires IsRow(previous, a, b, i - 1, |b|) && (i > 1 ==> IsRow(twoBack, a, b, i - 2, |b|))
    modifies current
    ensures IsRow(current, a, b, i, |b|) && least == LeastOf(a, b, i, |b|)
  {
    current[0] := i;
    least := i;
    var j := 1;
    while j <= |b|
      invariant 1 <= j <= |b| + 1 && IsRow(current, a, b, i, j - 1) && least == LeastOf(a, b, i, j - 1)
    {
      var cell := NextCell(a, b, i, j, current, previous, twoBack);
      current[j] := cell;
      least := Min(least, cell);
      j := j + 1;
    }
  }

  /** bounded_damerau_levenshtein: the distance, if it is within the limit. */
  method BoundedDistance(a: string, b: string, limit: nat) returns (r: Option<nat>)
    ensures r == if Distance(a, b, |a|, |b|) <= limit then Some(Distance(a, b, |a|, |b|)) else None
  {
    LengthsApart(a, b, |a|, |b|);
    if |a| > |b| + limit || |b| > |a| + limit {
      return None;
    }
    var twoBack := new nat[|b| + 1](_ => 0);
    var previous := new nat[|b| + 1](c requires c >= 0 => c);
    var current := new nat[|b| + 1](_ => 0);
    var i := 1;
    while i <= |a|
      invariant 1 <= i <= |a| + 1
      invariant fresh(twoBack) && fresh(previous) && fresh(current)
      invariant twoBack.Length == previous.Length == current.Length == |b| + 1
      invariant twoBack != previous && previous != current && twoBack != current
      invariant IsRow(previous, a, b, i - 1, |b|) && (i > 1 ==> IsRow(twoBack, a, b, i - 2, |b|))
    {
      var least := FillRow(a, b, i, current, previous, twoBack);
      if least > limit && i > |b| + limit {
        return None;
      }
      twoBack, previous := previous, twoBack;
      previous, current := current, previous;
      i := i + 1;
    }
    r := if previous[|b|] <= limit then Some(previous[|b|]) else None;
  }
}
