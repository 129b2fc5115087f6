/** Each aggregate call computes, over the rows of a group, the aggregate of the statement over its tuples. */
module SqlAggregates {
  import opened Common
  import opened Values
  import opened Expressions
  import opened Binding
  import opened Pipeline
  import opened Aggregates
  import opened Plans
  import opened Execution
  import opened Comparisons
  import opened SqlMeaning
  import opened SqlNames
  import opened SqlJoins

  // ---------------------------------------------------------------- folds over values

  /** Non-NULL values of a column of the type. */
  ghost predicate OfColumn(values: seq<Value>, ty: Type) {
    forall i :: 0 <= i < |values| ==> TypeOfValue(values[i]) == DeclaredType(ty)
  }

  lemma FoldStep(f: Floats, call: AggregateCall, values: seq<Value>)
    requires values != [] && FoldValues(f, call, values).Ok?
    ensures var n := |values| - 1;
            && FoldValues(f, call, values[..n]).Ok?
            && FoldValues(f, call, values) == AddValue(f, call, FoldValues(f, call, values[..n]).value, values[n])
  {
  }

  lemma {:induction false} DoubleFold(f: Floats, call: AggregateCall, values: seq<Value>)
    requires call.kind.Sum? && call.outputType.DoubleType? && FoldValues(f, call, values).Ok?
    ensures FoldValues(f, call, values).value.value ==
            if values == [] then None else Some(Double(SumOfDoubles(f, values)))
  {
    if values != [] {
      FoldStep(f, call, values);
      DoubleFold(f, call, values[..|values| - 1]);
      assert SumOfDoubles(f, []) == 0;
    }
  }

  lemma {:induction false} IntegerFold(f: Floats, call: AggregateCall, values: seq<Value>)
    requires call.kind.Sum? && !call.outputType.DoubleType? && FoldValues(f, call, values).Ok?
    ensures FoldValues(f, call, values).value.value ==
            if values == [] then None else Some(BigInt(IntegerSum(values)))
  {
    if values != [] {
      FoldStep(f, call, values);
      IntegerFold(f, call, values[..|values| - 1]);
      assert IntegerSum([]) == 0;
    }
  }

  lemma {:induction false} AverageFold(f: Floats, call: AggregateCall, values: seq<Value>)
    requires call.kind.Avg? && FoldValues(f, call, values).Ok?
    ensures var state := FoldValues(f, call, values).value;
            state.count == |values| && state.total == Total(f, values)
  {
    if values != [] {
      FoldStep(f, call, values);
      AverageFold(f, call, values[..|values| - 1]);
    }
  }

  lemma {:induction false} BestIsThere(largest: bool, values: seq<Value>)
    requires values != []
    ensures Best(largest, values) in values
  {
    if |values| > 1 {
      BestIsThere(largest, values[..|values| - 1]);
    }
  }

  lemma {:induction false} ExtremeFold(f: Floats, call: AggregateCall, values: seq<Value>, ty: Type)
    requires (call.kind.Min? || call.kind.Max?) && OfColumn(values, ty) && FoldValues(f, call, values).Ok?
    ensures FoldValues(f, call, values).value.value ==
            if values == [] then None else Some(Best(call.kind.Max?, values))
  {
    if values != [] {
      var n := |values| - 1;
      FoldStep(f, call, values);
      ExtremeFold(f, call, values[..n], ty);
      if n > 0 {
        var best := Best(call.kind.Max?, values[..n]);
        BestIsThere(call.kind.Max?, values[..n]);
        SortComparisonIsPlain(values[n], best, DeclaredType(ty));
      }
    }
  }

  /** The input types an aggregate call was checked for. */
  ghost predicate CallFits(call: AggregateCall, ty: Type) {
    call.kind.Sum? ==> (call.outputType.DoubleType? <==> ty.DoubleType?)
  }

  lemma FoldedAggregate(f: Floats, call: AggregateCall, ty: Type, values: seq<Value>)
    requires OfColumn(values, ty) && CallFits(call, ty)
    requires FoldValues(f, call, values).Ok? && Finish(f, call, FoldValues(f, call, values).value).Ok?
    ensures Finish(f, call, FoldValues(f, call, values).value).value == AggregateOf(f, call.kind, ty, values)
  {
    match call.kind
    case Count => CountIsExact(f, call, values);
    case Sum =>
      if ty.DoubleType? {
        DoubleFold(f, call, values);
      } else {
        IntegerFold(f, call, values);
      }
    case Avg => AverageFold(f, call, values);
    case Min => ExtremeFold(f, call, values, ty);
    case Max => ExtremeFold(f, call, values, ty);
  }

  // ---------------------------------------------------------------- the values a call sees

  /** The call reads the column at the place. */
  ghost predicate Reads(call: AggregateCall, from: Scope, p: Place) {
    && p.relation < |from| && p.column < |from[p.relation].columns|
    && call.input == Some(SlotIn(from, 0, BoundColumn(from[p.relation].id, p.column)))
  }

  lemma PlaceInScope(from: Scope, p: Place)
    requires p.relation < |from| && p.column < |from[p.relation].columns|
    ensures InScope(BoundColumn(from[p.relation].id, p.column), from)
  {
    assert from[p.relation] in from;
  }

  lemma InputIsValue(call: AggregateCall, from: Scope, p: Place, t: Tuple)
    requires DistinctIds(from) && TupleOk(from, t) && Reads(call, from, p)
    ensures InputOf(call, PlanRow(from, t)) == Ok(if ValueAt(t, p).Null? then None else Some(ValueAt(t, p)))
  {
    var b := BoundColumn(from[p.relation].id, p.column);
    PlaceInScope(from, p);
    SlotHoldsColumn(from, 0, BoundEnv(from, t), b);
    BoundValueAt(from, t, p);
  }

  lemma {:induction false} InputsArePresent(call: AggregateCall, from: Scope, p: Place, u: Unit)
    requires DistinctIds(from) && AllOk(from, u) && Reads(call, from, p)
    ensures Readable(call, PlanRowsOf(from, u)) && Inputs(call, PlanRowsOf(from, u)) == Present(u, p)
  {
    if u != [] {
      var n := |u| - 1;
      InputsArePresent(call, from, p, u[..n]);
      InputIsValue(call, from, p, u[n]);
      PlanRowsInit(from, u);
      forall i | 0 <= i < |u| ensures InputOf(call, PlanRowsOf(from, u)[i]).Ok? {
        InputIsValue(call, from, p, u[i]);
      }
    }
  }

  lemma {:induction false} PresentTyped(from: Scope, u: Unit, p: Place)
    requires AllOk(from, u) && p.relation < |from| && p.column < |from[p.relation].columns|
    ensures OfColumn(Present(u, p), from[p.relation].columns[p.column].ty)
  {
    if u != [] {
      var n := |u| - 1;
      PresentTyped(from, u[..n], p);
      assert TupleOk(from, u[n]) && PhysicalOk(from[p.relation], u[n][p.relation]);
      assert ValueMatches(u[n][p.relation][p.column], from[p.relation].columns[p.column]);
    }
  }

  /** A call over the rows of a unit finishes with the aggregate of its column. */
  lemma ColumnAggregate(f: Floats, call: AggregateCall, from: Scope, p: Place, u: Unit)
    requires DistinctIds(from) && AllOk(from, u) && Reads(call, from, p)
    requires CallFits(call, from[p.relation].columns[p.column].ty)
    requires Fold(f, call, PlanRowsOf(from, u)).Ok? && Finish(f, call, Fold(f, call, PlanRowsOf(from, u)).value).Ok?
    ensures Finish(f, call, Fold(f, call, PlanRowsOf(from, u)).value).value ==
            AggregateOf(f, call.kind, from[p.relation].columns[p.column].ty, Present(u, p))
  {
    InputsArePresent(call, from, p, u);
    FoldIsFoldOfInputs(f, call, PlanRowsOf(from, u));
    PresentTyped(from, u, p);
    FoldedAggregate(f, call, from[p.relation].columns[p.column].ty, Present(u, p));
  }

  /** COUNT(*) counts the tuples. */
  lemma StarAggregate(f: Floats, call: AggregateCall, from: Scope, u: Unit)
    requires AllSized(|from|, u) && call.kind.Count? && call.input.None?
    requires Fold(f, call, PlanRowsOf(from, u)).Ok?
    ensures Finish(f, call, Fold(f, call, PlanRowsOf(from, u)).value) == Ok(BigInt(|u|))
  {
    var rows := PlanRowsOf(from, u);
    CountStarSeesRows(call, rows);
    FoldIsFoldOfInputs(f, call, rows);
    CountIsExact(f, call, Inputs(call, rows));
  }
}
