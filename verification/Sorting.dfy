/** ORDER BY: sort keys, the row comparator and the stable sort (prepare_sort_rows and sort_rows,
    src/core/executor.cpp). */
module Sorting {
  import opened Common
  import opened Values
  import opened Expressions
  import opened Aggregates
  import opened Plans

  datatype Family = NumericFamily | BooleanFamily | TextFamily

  datatype SortError = MissingKey | NonFiniteKey | MixedFamilies

  datatype Sortable = Sortable(row: SlotRow, keys: seq<Value>)

  function FamilyOf(v: Value): Family {
    if v.Int? || v.BigInt? || v.Double? then NumericFamily
    else if v.Bool? then BooleanFamily
    else TextFamily
  }

  predicate FiniteValue(v: Value) {
    v.Double? ==> IsFinite(v.bits)
  }

  /** The key values of one row and the families seen so far, one per key. */
  datatype Prepared = Prepared(keys: seq<Value>, families: seq<Option<Family>>)

  function PrepareRow(row: SlotRow, keys: seq<SortKey>, families: seq<Option<Family>>): (r: Result<Prepared, SortError>)
    requires |families| == |keys|
    ensures r.Ok? ==> |r.value.keys| == |keys| == |r.value.families|
    decreases |keys|
  {
    if keys == [] then Ok(Prepared([], []))
    else
      var n := |keys| - 1;
      match PrepareRow(row, keys[..n], families[..n])
      case Err(error) => Err(error)
      case Ok(before) =>
        match Lookup(row, keys[n].slot)
        case Err(_) => Err(MissingKey)
        case Ok(v) =>
          if !FiniteValue(v) then Err(NonFiniteKey)
          else if !v.Null? && families[n].Some? && families[n].value != FamilyOf(v) then Err(MixedFamilies)
          else Ok(Prepared(before.keys + [v], before.families + [if v.Null? then families[n] else Some(FamilyOf(v))]))
  }

  predicate SizesOk(rows: seq<Sortable>, keys: seq<SortKey>) {
    forall i :: 0 <= i < |rows| ==> |rows[i].keys| == |keys|
  }

  datatype PreparedRows = PreparedRows(rows: seq<Sortable>, families: seq<Option<Family>>)

  /** prepare_sort_rows. */
  function PrepareRows(rows: seq<SlotRow>, keys: seq<SortKey>): (r: Result<PreparedRows, SortError>)
    ensures r.Ok? ==> |r.value.rows| == |rows| && |r.value.families| == |keys| && SizesOk(r.value.rows, keys)
    ensures r.Ok? ==> forall i :: 0 <= i < |rows| ==> r.value.rows[i].row == rows[i]
  {
    if rows == [] then Ok(PreparedRows([], seq(|keys|, _ => None)))
    else
      match PrepareRows(rows[..|rows| - 1], keys)
      case Err(error) => Err(error)
      case Ok(before) =>
        var row := rows[|rows| - 1];
        match PrepareRow(row, keys, before.families)
        case Err(error) => Err(error)
        case Ok(p) => Ok(PreparedRows(before.rows + [Sortable(row, p.keys)], p.families))
  }

  // ---------------------------------------------------------------- the comparator

  /** One key: NULLs last in either direction. */
  function CompareKey(a: Value, b: Value, ascending: bool): int {
    if a.Null? || b.Null? then
      if a.Null? && b.Null? then 0 else if a.Null? then 1 else -1
    else if ascending then CompareSortValues(a, b) else -CompareSortValues(a, b)
  }

  function CompareRows(a: seq<Value>, b: seq<Value>, keys: seq<SortKey>): int
    requires |a| == |keys| == |b|
    decreases |keys|
  {
    if keys == [] then 0
    else
      var c := CompareKey(a[0], b[0], keys[0].ascending);
      if c != 0 then c else CompareRows(a[1..], b[1..], keys[1..])
  }

  /** The comparator passed to the sort: the first differing key decides. */
  method RowLess(a: seq<Value>, b: seq<Value>, keys: seq<SortKey>) returns (less: bool)
    requires |a| == |keys| == |b|
    ensures less <==> CompareRows(a, b, keys) < 0
  {
    var i := 0;
    while i < |keys|
      invariant 0 <= i <= |keys|
      invariant CompareRows(a, b, keys) == CompareRows(a[i..], b[i..], keys[i..])
    {
      assert a[i..][1..] == a[i + 1..] && b[i..][1..] == b[i + 1..] && keys[i..][1..] == keys[i + 1..];
      var aNull, bNull := a[i].Null?, b[i].Null?;
      if aNull || bNull {
        if aNull != bNull {
          return !aNull;
        }
      } else {
        var c := CompareSortValues(a[i], b[i]);
        if c != 0 {
          return if keys[i].ascending then c < 0 else c > 0;
        }
      }
      i := i + 1;
    }
    return false;
  }

  /** The key values have the declared types, or are NULL; DOUBLE keys are finite. */
  ghost predicate KeysTyped(values: seq<Value>, types: seq<ExprType>) {
    && |values| == |types|
    && (forall i :: 0 <= i < |values| ==> values[i].Null? || Orderable(values[i], types[i]))
  }

  lemma CompareKeyIsOrder(a: Value, b: Value, c: Value, t: ExprType, ascending: bool)
    requires (a.Null? || Orderable(a, t)) && (b.Null? || Orderable(b, t)) && (c.Null? || Orderable(c, t))
    ensures CompareKey(b, a, ascending) == -CompareKey(a, b, ascending)
    ensures CompareKey(a, b, ascending) <= 0 && CompareKey(b, c, ascending) <= 0 ==> CompareKey(a, c, ascending) <= 0
    ensures CompareKey(a, b, ascending) <= 0 && CompareKey(b, c, ascending) <= 0 && CompareKey(a, c, ascending) == 0 ==>
      CompareKey(a, b, ascending) == 0 && CompareKey(b, c, ascending) == 0
  {
    if !a.Null? && !b.Null? && !c.Null? {
      CompareIsOrder(a, b, c, t);
      CompareIsOrder(b, c, a, t);
      CompareIsOrder(c, a, b, t);
      CompareIsOrder(c, b, a, t);
      CompareIsOrder(b, a, c, t);
      CompareIsOrder(a, c, b, t);
    } else if !a.Null? && !b.Null? {
      CompareIsOrder(a, b, b, t);
    }
  }

  lemma KeysTypedTail(values: seq<Value>, types: seq<ExprType>)
    requires KeysTyped(values, types) && values != []
    ensures KeysTyped(values[1..], types[1..])
  {
  }

  /** The comparator is a strict weak ordering on typed keys, as std::stable_sort demands. */
  lemma {:induction false} CompareRowsIsOrder(a: seq<Value>, b: seq<Value>, c: seq<Value>, keys: seq<SortKey>,
                                              types: seq<ExprType>)
    requires |keys| == |types| && KeysTyped(a, types) && KeysTyped(b, types) && KeysTyped(c, types)
    ensures CompareRows(b, a, keys) == -CompareRows(a, b, keys)
    ensures CompareRows(a, b, keys) <= 0 && CompareRows(b, c, keys) <= 0 ==> CompareRows(a, c, keys) <= 0
    decreases |keys|
  {
    if keys != [] {
      CompareKeyIsOrder(a[0], b[0], c[0], types[0], keys[0].ascending);
      KeysTypedTail(a, types);
      KeysTypedTail(b, types);
      KeysTypedTail(c, types);
      CompareRowsIsOrder(a[1..], b[1..], c[1..], keys[1..], types[1..]);
    }
  }

  // ---------------------------------------------------------------- the stable sort

  ghost predicate AllTyped(rows: seq<Sortable>, types: seq<ExprType>) {
    forall i :: 0 <= i < |rows| ==> KeysTyped(rows[i].keys, types)
  }

  /** x enters behind every row that it does not precede. */
  function Insert(rows: seq<Sortable>, x: Sortable, keys: seq<SortKey>): (r: seq<Sortable>)
    requires SizesOk(rows, keys) && |x.keys| == |keys|
    ensures SizesOk(r, keys) && |r| == |rows| + 1
  {
    if rows == [] then [x]
    else if CompareRows(x.keys, rows[|rows| - 1].keys, keys) >= 0 then rows + [x]
    else Insert(rows[..|rows| - 1], x, keys) + [rows[|rows| - 1]]
  }

  function StableSort(rows: seq<Sortable>, keys: seq<SortKey>): (r: seq<Sortable>)
    requires SizesOk(rows, keys)
    ensures SizesOk(r, keys) && |r| == |rows|
  {
    if rows == [] then [] else Insert(StableSort(rows[..|rows| - 1], keys), rows[|rows| - 1], keys)
  }

  ghost predicate Sorted(rows: seq<Sortable>, keys: seq<SortKey>)
    requires SizesOk(rows, keys)
  {
    rows == [] || (Sorted(rows[..|rows| - 1], keys) && NoneAbove(rows[..|rows| - 1], rows[|rows| - 1], keys))
  }

  ghost predicate NoneAbove(rows: seq<Sortable>, x: Sortable, keys: seq<SortKey>)
    requires SizesOk(rows, keys) && |x.keys| == |keys|
  {
    forall i :: 0 <= i < |rows| ==> CompareRows(rows[i].keys, x.keys, keys) <= 0
  }

  lemma {:induction false} SortedPairs(rows: seq<Sortable>, keys: seq<SortKey>, i: nat, j: nat)
    requires SizesOk(rows, keys) && Sorted(rows, keys) && i < j < |rows|
    ensures CompareRows(rows[i].keys, rows[j].keys, keys) <= 0
    decreases |rows|
  {
    if j < |rows| - 1 {
      SortedPairs(rows[..|rows| - 1], keys, i, j);
    } else {
      assert CompareRows(rows[..j][i].keys, rows[j].keys, keys) <= 0;
    }
  }

  lemma {:induction false} InsertKeeps(rows: seq<Sortable>, x: Sortable, keys: seq<SortKey>)
    requires SizesOk(rows, keys) && |x.keys| == |keys|
    ensures multiset(Insert(rows, x, keys)) == multiset(rows) + multiset{x}
  {
    if rows != [] {
      var n := |rows| - 1;
      assert rows == rows[..n] + [rows[n]];
      if CompareRows(x.keys, rows[n].keys, keys) < 0 {
        InsertKeeps(rows[..n], x, keys);
      }
    }
  }

  lemma {:induction false} SortKeeps(rows: seq<Sortable>, keys: seq<SortKey>)
    requires SizesOk(rows, keys)
    ensures multiset(StableSort(rows, keys)) == multiset(rows)
  {
    if rows != [] {
      var n := |rows| - 1;
      SortKeeps(rows[..n], keys);
      InsertKeeps(StableSort(rows[..n], keys), rows[n], keys);
      assert rows == rows[..n] + [rows[n]];
    }
  }

  lemma CompareTransitive(a: seq<Value>, b: seq<Value>, c: seq<Value>, keys: seq<SortKey>, types: seq<ExprType>)
    requires |keys| == |types| && KeysTyped(a, types) && KeysTyped(b, types) && KeysTyped(c, types)
    requires CompareRows(a, b, keys) <= 0 && CompareRows(b, c, keys) <= 0
    ensures CompareRows(a, c, keys) <= 0
  {
    CompareRowsIsOrder(a, b, c, keys, types);
  }

  lemma NoneAboveEither(rows: seq<Sortable>, last: Sortable, x: Sortable, keys: seq<SortKey>, types: seq<ExprType>)
    requires SizesOk(rows, keys) && |x.keys| == |keys| == |types| && |last.keys| == |keys|
    requires AllTyped(rows, types) && KeysTyped(x.keys, types) && KeysTyped(last.keys, types)
    requires NoneAbove(rows, last, keys) && CompareRows(last.keys, x.keys, keys) <= 0
    ensures NoneAbove(rows, x, keys)
  {
    forall i | 0 <= i < |rows| ensures CompareRows(rows[i].keys, x.keys, keys) <= 0 {
      CompareTransitive(rows[i].keys, last.keys, x.keys, keys, types);
    }
  }

  lemma SortedAppend(rows: seq<Sortable>, x: Sortable, keys: seq<SortKey>)
    requires SizesOk(rows, keys) && |x.keys| == |keys| && Sorted(rows, keys) && NoneAbove(rows, x, keys)
    ensures Sorted(rows + [x], keys)
  {
    assert (rows + [x])[..|rows|] == rows;
  }

  lemma AppendSorted(rows: seq<Sortable>, x: Sortable, keys: seq<SortKey>, types: seq<ExprType>)
    requires SizesOk(rows, keys) && |x.keys| == |keys| == |types| && Sorted(rows, keys) && rows != []
    requires AllTyped(rows, types) && KeysTyped(x.keys, types) && CompareRows(rows[|rows| - 1].keys, x.keys, keys) <= 0
    ensures Sorted(rows + [x], keys)
  {
    var init, last := rows[..|rows| - 1], rows[|rows| - 1];
    NoneAboveEither(init, last, x, keys, types);
    assert rows == init + [last];
    SortedAppend(rows, x, keys);
  }

  /** Everything in the result is at most y when everything inserted is. */
  lemma {:induction false} InsertBelow(rows: seq<Sortable>, x: Sortable, keys: seq<SortKey>, y: Sortable)
    requires SizesOk(rows, keys) && |x.keys| == |keys| == |y.keys|
    requires CompareRows(x.keys, y.keys, keys) <= 0 && NoneAbove(rows, y, keys)
    ensures NoneAbove(Insert(rows, x, keys), y, keys)
  {
    if rows != [] && CompareRows(x.keys, rows[|rows| - 1].keys, keys) < 0 {
      InsertBelow(rows[..|rows| - 1], x, keys, y);
    }
  }

  lemma {:induction false} InsertTyped(rows: seq<Sortable>, x: Sortable, keys: seq<SortKey>, types: seq<ExprType>)
    requires SizesOk(rows, keys) && |x.keys| == |keys| && AllTyped(rows, types) && KeysTyped(x.keys, types)
    ensures AllTyped(Insert(rows, x, keys), types)
  {
    if rows != [] && CompareRows(x.keys, rows[|rows| - 1].keys, keys) < 0 {
      InsertTyped(rows[..|rows| - 1], x, keys, types);
    }
  }

  lemma {:induction false} InsertSorted(rows: seq<Sortable>, x: Sortable, keys: seq<SortKey>, types: seq<ExprType>)
    requires SizesOk(rows, keys) && |x.keys| == |keys| == |types| && Sorted(rows, keys)
    requires AllTyped(rows, types) && KeysTyped(x.keys, types)
    ensures Sorted(Insert(rows, x, keys), keys)
  {
    if rows != [] {
      var n := |rows| - 1;
      var last := rows[n];
      CompareRowsIsOrder(last.keys, x.keys, x.keys, keys, types);
      if CompareRows(x.keys, last.keys, keys) >= 0 {
        AppendSorted(rows, x, keys, types);
      } else {
        InsertSorted(rows[..n], x, keys, types);
        InsertBelow(rows[..n], x, keys, last);
        SortedAppend(Insert(rows[..n], x, keys), last, keys);
      }
    }
  }

  lemma {:induction false} SortSorts(rows: seq<Sortable>, keys: seq<SortKey>, types: seq<ExprType>)
    requires SizesOk(rows, keys) && |keys| == |types| && AllTyped(rows, types)
    ensures Sorted(StableSort(rows, keys), keys) && AllTyped(StableSort(rows, keys), types)
  {
    if rows != [] {
      var n := |rows| - 1;
      SortSorts(rows[..n], keys, types);
      InsertSorted(StableSort(rows[..n], keys), rows[n], keys, types);
      InsertTyped(StableSort(rows[..n], keys), rows[n], keys, types);
    }
  }

  /** The output is in ORDER BY order: no row precedes an earlier one. */
  lemma SortOrders(rows: seq<Sortable>, keys: seq<SortKey>, types: seq<ExprType>, i: nat, j: nat)
    requires SizesOk(rows, keys) && |keys| == |types| && AllTyped(rows, types) && i < j < |rows|
    ensures CompareRows(StableSort(rows, keys)[i].keys, StableSort(rows, keys)[j].keys, keys) <= 0
  {
    SortSorts(rows, keys, types);
    SortedPairs(StableSort(rows, keys), keys, i, j);
  }

  /** The rows whose keys tie with the pivot's, in order. */
  function Ties(rows: seq<Sortable>, pivot: Sortable, keys: seq<SortKey>): seq<Sortable>
    requires SizesOk(rows, keys) && |pivot.keys| == |keys|
  {
    if rows == [] then []
    else
      Ties(rows[..|rows| - 1], pivot, keys) +
      if CompareRows(rows[|rows| - 1].keys, pivot.keys, keys) == 0 then [rows[|rows| - 1]] else []
  }

  /** Of two rows in strict order at most one ties with the pivot. */
  lemma OneTies(x: Sortable, last: Sortable, pivot: Sortable, keys: seq<SortKey>, types: seq<ExprType>)
    requires |keys| == |types| && KeysTyped(x.keys, types) && KeysTyped(last.keys, types) &&
      KeysTyped(pivot.keys, types)
    requires CompareRows(x.keys, last.keys, keys) < 0
    ensures CompareRows(x.keys, pivot.keys, keys) != 0 || CompareRows(last.keys, pivot.keys, keys) != 0
  {
    CompareRowsIsOrder(last.keys, pivot.keys, x.keys, keys, types);
    CompareRowsIsOrder(x.keys, last.keys, x.keys, keys, types);
    CompareRowsIsOrder(pivot.keys, x.keys, x.keys, keys, types);
  }

  lemma TiesAppend(rows: seq<Sortable>, x: Sortable, pivot: Sortable, keys: seq<SortKey>)
    requires SizesOk(rows, keys) && |x.keys| == |keys| == |pivot.keys|
    ensures Ties(rows + [x], pivot, keys) == Ties(rows, pivot, keys) + if CompareRows(x.keys, pivot.keys, keys) == 0
      then [x] else []
  {
    assert (rows + [x])[..|rows|] == rows;
  }

  lemma {:induction false} InsertTies(rows: seq<Sortable>, x: Sortable, pivot: Sortable, keys: seq<SortKey>,
                                      types: seq<ExprType>)
    requires SizesOk(rows, keys) && |x.keys| == |keys| == |types| && |pivot.keys| == |keys|
    requires AllTyped(rows, types) && KeysTyped(x.keys, types) && KeysTyped(pivot.keys, types)
    ensures Ties(Insert(rows, x, keys), pivot, keys) ==
            Ties(rows, pivot, keys) + if CompareRows(x.keys, pivot.keys, keys) == 0 then [x] else []
  {
    if rows == [] {
      TiesAppend(rows, x, pivot, keys);
      assert rows + [x] == [x];
    } else {
      var n := |rows| - 1;
      var last := rows[n];
      if CompareRows(x.keys, last.keys, keys) >= 0 {
        TiesAppend(rows, x, pivot, keys);
      } else {
        InsertTies(rows[..n], x, pivot, keys, types);
        TiesAppend(Insert(rows[..n], x, keys), last, pivot, keys);
        OneTies(x, last, pivot, keys, types);
      }
    }
  }

  /** Rows with equal keys keep their input order. */
  lemma {:induction false} SortIsStable(rows: seq<Sortable>, pivot: Sortable, keys: seq<SortKey>, types: seq<ExprType>)
    requires SizesOk(rows, keys) && |keys| == |types| && |pivot.keys| == |keys|
    requires AllTyped(rows, types) && KeysTyped(pivot.keys, types)
    ensures Ties(StableSort(rows, keys), pivot, keys) == Ties(rows, pivot, keys)
  {
    if rows != [] {
      var n := |rows| - 1;
      SortIsStable(rows[..n], pivot, keys, types);
      SortSorts(rows[..n], keys, types);
      InsertTies(StableSort(rows[..n], keys), rows[n], pivot, keys, types);
    }
  }
}
