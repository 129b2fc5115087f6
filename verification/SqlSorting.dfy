/** ORDER BY on the executor's rows is the order of the statement's units. */
module SqlSorting {
  import opened Common
  import opened Values
  import opened Expressions
  import opened Binding
  import opened Pipeline
  import opened Aggregates
  import opened Plans
  import opened Sorting
  import opened Comparisons
  import opened Ordering
  import opened Select
  import opened Execution
  import opened SqlMeaning
  import opened SqlNames
  import opened SqlJoins
  import opened SqlRows

  /** The sort keys of the plan are the named columns, in the directions of the statement. */
  ghost predicate KeysPlanned(from: Scope, grouped: bool, columns: seq<BoundColumn>, orderBy: seq<AstSort>,
                              keys: seq<SortKey>)
  {
    |keys| == |orderBy| && forall k :: 0 <= k < |keys| ==> KeyPlanned(from, grouped, columns, orderBy[k], keys[k])
  }

  ghost predicate KeyPlanned(from: Scope, grouped: bool, columns: seq<BoundColumn>, order: AstSort, key: SortKey) {
    && key.ascending == order.ascending && Resolve(from, order.name).Some?
    && (grouped ==> Resolve(from, order.name).value.ref in columns)
    && key.slot == SlotIn(from, 0, Resolve(from, order.name).value.ref)
  }

  ghost function OrderTypes(from: Scope, orderBy: seq<AstSort>): (r: seq<ExprType>)
    ensures |r| == |orderBy|
  {
    seq(|orderBy|, k requires 0 <= k < |orderBy| =>
      if Resolve(from, orderBy[k].name).Some? then TypeIn(from, Resolve(from, orderBy[k].name).value.ref) else TNull)
  }

  lemma ResolvedInScope(from: Scope, n: Name)
    requires DistinctIds(from) && Resolve(from, n).Some?
    ensures InScope(Resolve(from, n).value.ref, from)
  {
    ResolvedType(from, Resolve(from, n).value);
  }

  /** A prepared row and its unit: the key values are those the unit is sorted by. */
  ghost predicate Pairs(f: Floats, from: Scope, columns: seq<BoundColumn>, calls: seq<AggregateCall>,
                        orderBy: seq<AstSort>, x: Sortable, u: Unit)
  {
    && u != [] && RowTells(f, from, columns, calls, u, x.row) && x.keys == OrderValues(from, orderBy, u)
    && KeysTyped(x.keys, OrderTypes(from, orderBy))
  }

  ghost predicate AllPairs(f: Floats, from: Scope, columns: seq<BoundColumn>, calls: seq<AggregateCall>,
                           orderBy: seq<AstSort>, xs: seq<Sortable>, us: seq<Unit>)
  {
    |xs| == |us| && forall i :: 0 <= i < |us| ==> Pairs(f, from, columns, calls, orderBy, xs[i], us[i])
  }

  lemma KeyIsValue(f: Floats, from: Scope, columns: seq<BoundColumn>, calls: seq<AggregateCall>, order: AstSort,
                   key: SortKey, u: Unit, row: SlotRow)
    requires Sane(from) && u != [] && RowTells(f, from, columns, calls, u, row)
    requires KeyPlanned(from, columns != [] || calls != [], columns, order, key)
    ensures Lookup(row, key.slot) == Ok(ValueOf(from, u[0], order.name))
    ensures HasType(ValueOf(from, u[0], order.name), TypeIn(from, Resolve(from, order.name).value.ref))
  {
    ResolvedInScope(from, order.name);
    NameValue(from, u[0], order.name);
    BoundValueTyped(from, u[0], Resolve(from, order.name).value.ref);
  }

  lemma PreparedPairs(f: Floats, from: Scope, columns: seq<BoundColumn>, calls: seq<AggregateCall>,
                      orderBy: seq<AstSort>, keys: seq<SortKey>, x: Sortable, u: Unit)
    requires Sane(from) && u != [] && RowTells(f, from, columns, calls, u, x.row)
    requires KeysPlanned(from, columns != [] || calls != [], columns, orderBy, keys)
    requires Prepares(x, keys) && forall k :: 0 <= k < |x.keys| ==> FiniteValue(x.keys[k])
    ensures Pairs(f, from, columns, calls, orderBy, x, u)
  {
    var types := OrderTypes(from, orderBy);
    forall k | 0 <= k < |keys|
      ensures x.keys[k] == OrderValues(from, orderBy, u)[k] && (x.keys[k].Null? || Orderable(x.keys[k], types[k]))
    {
      assert KeyPlanned(from, columns != [] || calls != [], columns, orderBy[k], keys[k]);
      KeyIsValue(f, from, columns, calls, orderBy[k], keys[k], u, x.row);
      assert FiniteValue(x.keys[k]);
    }
  }

  lemma {:induction false} PutCorresponds(f: Floats, from: Scope, columns: seq<BoundColumn>,
                                          calls: seq<AggregateCall>, orderBy: seq<AstSort>, keys: seq<SortKey>,
                                          xs: seq<Sortable>, us: seq<Unit>, x: Sortable, u: Unit)
    requires Directions(keys) == SortDirections(orderBy)
    requires AllPairs(f, from, columns, calls, orderBy, xs, us) && Pairs(f, from, columns, calls, orderBy, x, u)
    requires SizesOk(xs, keys) && |x.keys| == |keys|
    ensures AllPairs(f, from, columns, calls, orderBy, Insert(xs, x, keys), PutInOrder(from, orderBy, us, u))
    decreases |xs|
  {
    if xs != [] {
      var n, types := |xs| - 1, OrderTypes(from, orderBy);
      var last := xs[n];
      assert Pairs(f, from, columns, calls, orderBy, last, us[n]);
      RowComparisonIsPlain(last.keys, x.keys, keys, types);
      CompareRowsIsOrder(last.keys, x.keys, x.keys, keys, types);
      if CompareRows(x.keys, last.keys, keys) < 0 {
        PutCorresponds(f, from, columns, calls, orderBy, keys, xs[..n], us[..n], x, u);
      }
    }
  }

  lemma {:induction false} SortCorresponds(f: Floats, from: Scope, columns: seq<BoundColumn>,
                                           calls: seq<AggregateCall>, orderBy: seq<AstSort>, keys: seq<SortKey>,
                                           xs: seq<Sortable>, us: seq<Unit>)
    requires Directions(keys) == SortDirections(orderBy) && orderBy != []
    requires AllPairs(f, from, columns, calls, orderBy, xs, us) && SizesOk(xs, keys)
    ensures AllPairs(f, from, columns, calls, orderBy, StableSort(xs, keys), InSortOrder(from, orderBy, us))
    decreases |xs|
  {
    if xs != [] {
      var n := |xs| - 1;
      SortCorresponds(f, from, columns, calls, orderBy, keys, xs[..n], us[..n]);
      assert Pairs(f, from, columns, calls, orderBy, xs[n], us[n]);
      PutCorresponds(f, from, columns, calls, orderBy, keys, StableSort(xs[..n], keys),
                     InSortOrder(from, orderBy, us[..n]), xs[n], us[n]);
    }
  }

  /** Sorting the rows that tell the units gives rows that tell the sorted units. */
  lemma SortedRowsTell(f: Floats, from: Scope, columns: seq<BoundColumn>, calls: seq<AggregateCall>,
                       orderBy: seq<AstSort>, keys: seq<SortKey>, us: seq<Unit>, rows: Rows)
    requires Sane(from) && RowsTell(f, from, columns, calls, us, rows) && orderBy != []
    requires forall g :: 0 <= g < |us| ==> us[g] != []
    requires KeysPlanned(from, columns != [] || calls != [], columns, orderBy, keys)
    requires SortRows(rows, keys).Ok?
    ensures RowsTell(f, from, columns, calls, InSortOrder(from, orderBy, us), SortRows(rows, keys).value)
  {
    PrepareReads(rows, keys);
    var xs := PrepareRows(rows, keys).value.rows;
    forall i | 0 <= i < |us| ensures Pairs(f, from, columns, calls, orderBy, xs[i], us[i]) {
      assert Prepares(xs[i], keys) && xs[i].row == rows[i];
      PreparedPairs(f, from, columns, calls, orderBy, keys, xs[i], us[i]);
    }
    assert Directions(keys) == SortDirections(orderBy) by {
      forall k | 0 <= k < |keys| ensures keys[k].ascending == orderBy[k].ascending {
        assert KeyPlanned(from, columns != [] || calls != [], columns, orderBy[k], keys[k]);
      }
    }
    SortCorresponds(f, from, columns, calls, orderBy, keys, xs, us);
    forall i | 0 <= i < |us|
      ensures RowTells(f, from, columns, calls, InSortOrder(from, orderBy, us)[i], SortRows(rows, keys).value[i])
    {
      assert Pairs(f, from, columns, calls, orderBy, StableSort(xs, keys)[i], InSortOrder(from, orderBy, us)[i]);
    }
  }
}
