/** The executor itself: validated plans never fail internally, and the fast operators change nothing. */
module Executor {
  import opened Common
  import opened Values
  import opened Expressions
  import opened Binding
  import opened Aggregates
  import opened Plans
  import opened Execution
  import Grouping
  import HashJoin
  import JoinKeys

  // ---------------------------------------------------------------- soundness of validated plans

  lemma TableRows(catalog: Catalog, tables: Tables, id: nat)
    requires TablesOk(catalog, tables) && FindTable(catalog, id).Some?
    ensures forall i :: 0 <= i < |tables(id)| ==> PhysicalOk(FindTable(catalog, id).value, tables(id)[i])
  {
    var t := FindTable(catalog, id).value;
    forall i | 0 <= i < |tables(id)| ensures PhysicalOk(t, tables(id)[i]) {
      assert t in catalog && 0 <= i < |tables(t.id)|;
    }
  }

  /** A node that passed validation delivers rows of the validated shape, on all contents that match the
      schemas; it can fail only by the row limit, an overflow or a non-finite number. */
  lemma {:induction false} ValidPlansAreSound(catalog: Catalog, tables: Tables, node: Node, depth: nat, types: SlotRow,
                                              limit: nat, f: Floats)
    requires TablesOk(catalog, tables) && ValidateNode(catalog, node, depth, types).Ok?
    ensures SoundOutcome(Reference(catalog, tables, node, depth, limit, f),
      ValidateNode(catalog, node, depth, types).value.row)
    decreases node
  {
    match node
    case Scan(id, columns) =>
      TableRows(catalog, tables, id);
      ScanSound(FindTable(catalog, id).value, tables(id), columns, limit);
    case Filter(condition, child) =>
      ValidPlansAreSound(catalog, tables, child, depth + 1, types, limit, f);
      var rows := Reference(catalog, tables, child, depth + 1, limit, f);
      if rows.Ok? {
        FilterSound(condition, rows.value, ValidateNode(catalog, child, depth + 1, types).value.row);
      }
    case Sort(keys, child) =>
      ValidPlansAreSound(catalog, tables, child, depth + 1, types, limit, f);
      var rows := Reference(catalog, tables, child, depth + 1, limit, f);
      if rows.Ok? {
        SortSound(rows.value, keys, ValidateNode(catalog, child, depth + 1, types).value.row);
      }
    case Join(_, _, _) => JoinNodeSound(catalog, tables, node, depth, types, limit, f);
    case Aggregate(groupKeys, calls, child) =>
      ValidPlansAreSound(catalog, tables, child, depth + 1, types, limit, f);
      var rows := Reference(catalog, tables, child, depth + 1, limit, f);
      var c := ValidateNode(catalog, child, depth + 1, types).value;
      ValidRowShape(catalog, child, depth + 1, types);
      AggregateValid(c.row, groupKeys, calls);
      if rows.Ok? {
        AggregateSound(f, rows.value, groupKeys, calls, c.row, ValidateNode(catalog, node, depth, types).value.row);
      }
  }

  /** The validated rows of the two inputs of a join. */
  ghost function Left(catalog: Catalog, node: Node, depth: nat, types: SlotRow): Checked
    requires node.Join? && ValidateNode(catalog, node, depth, types).Ok?
  {
    ValidateNode(catalog, node.left, depth + 1, types).value
  }

  ghost function Right(catalog: Catalog, node: Node, depth: nat, types: SlotRow): Checked
    requires node.Join? && ValidateNode(catalog, node, depth, types).Ok?
  {
    ValidateNode(catalog, node.right, depth + 1, Left(catalog, node, depth, types).types).value
  }

  lemma JoinShape(catalog: Catalog, node: Node, depth: nat, types: SlotRow)
    requires node.Join? && ValidateNode(catalog, node, depth, types).Ok?
    ensures var l, r := Left(catalog, node, depth, types).row, Right(catalog, node, depth, types).row;
            && ValidateNode(catalog, node, depth, types).value.row == l + r
            && Unique(l + r) && ValidPredicate(node.condition, l + r)
  {
    var l := Left(catalog, node, depth, types);
    ValidRowShape(catalog, node.left, depth + 1, types);
    MergeAppends(l.row, Right(catalog, node, depth, types).row);
  }

  lemma {:induction false} JoinNodeSound(catalog: Catalog, tables: Tables, node: Node, depth: nat, types: SlotRow,
                                         limit: nat, f: Floats)
    requires TablesOk(catalog, tables) && ValidateNode(catalog, node, depth, types).Ok? && node.Join?
    ensures SoundOutcome(Reference(catalog, tables, node, depth, limit, f),
      ValidateNode(catalog, node, depth, types).value.row)
    decreases node, 0
  {
    var l, r := Left(catalog, node, depth, types), Right(catalog, node, depth, types);
    ValidPlansAreSound(catalog, tables, node.left, depth + 1, types, limit, f);
    ValidPlansAreSound(catalog, tables, node.right, depth + 1, l.types, limit, f);
    JoinShape(catalog, node, depth, types);
    var left := Reference(catalog, tables, node.left, depth + 1, limit, f);
    var right := Reference(catalog, tables, node.right, depth + 1, limit, f);
    if left.Ok? && right.Ok? {
      JoinSound(left.value, right.value, node.condition, limit, l.row, r.row);
    }
  }

  // ---------------------------------------------------------------- the collected slot types

  /** At every join below the node the collected types are those of the joined row. */
  ghost predicate JoinsAgree(catalog: Catalog, node: Node, depth: nat, types: SlotRow, slotTypes: SlotRow)
    requires ValidateNode(catalog, node, depth, types).Ok?
    decreases node
  {
    match node
    case Scan(_, _) => true
    case Filter(_, child) => JoinsAgree(catalog, child, depth + 1, types, slotTypes)
    case Sort(_, child) => JoinsAgree(catalog, child, depth + 1, types, slotTypes)
    case Join(_, left, right) =>
      var l := ValidateNode(catalog, left, depth + 1, types).value;
      && JoinsAgree(catalog, left, depth + 1, types, slotTypes)
      && JoinsAgree(catalog, right, depth + 1, l.types, slotTypes)
      && JoinKeys.TypesAgree(slotTypes, ValidateNode(catalog, node, depth, types).value.row)
    case Aggregate(_, _, child) => JoinsAgree(catalog, child, depth + 1, types, slotTypes)
  }

  // ---------------------------------------------------------------- operators as loops

  lemma {:induction false} ScanStops(t: TableMeta, rows: seq<Row>, columns: seq<ScanColumn>, limit: nat, i: nat)
    requires i <= |rows| && ScanRows(t, rows[..i], columns, limit).Err?
    ensures ScanRows(t, rows, columns, limit) == ScanRows(t, rows[..i], columns, limit)
    decreases |rows|
  {
    if i < |rows| {
      assert rows[..|rows| - 1][..i] == rows[..i];
      ScanStops(t, rows[..|rows| - 1], columns, limit, i);
    } else {
      assert rows[..i] == rows;
    }
  }

  method ScanTable(t: TableMeta, rows: seq<Row>, columns: seq<ScanColumn>, limit: nat)
    returns (r: Result<Rows, ExecError>)
    ensures r == ScanRows(t, rows, columns, limit)
  {
    var done: Rows := [];
    for i := 0 to |rows|
      invariant ScanRows(t, rows[..i], columns, limit) == Ok(done)
    {
      assert rows[..i + 1][..i] == rows[..i];
      var next := ScanRow(t, done, rows[i], columns, limit);
      if next.Err? {
        ScanStops(t, rows, columns, limit, i + 1);
        return next;
      }
      done := next.value;
    }
    assert rows[..|rows|] == rows;
    r := Ok(done);
  }

  lemma {:induction false} FilterStops(condition: Expr<nat>, rows: Rows, i: nat)
    requires i <= |rows| && FilterRows(condition, rows[..i]).Err?
    ensures FilterRows(condition, rows) == FilterRows(condition, rows[..i])
    decreases |rows|
  {
    if i < |rows| {
      assert rows[..|rows| - 1][..i] == rows[..i];
      FilterStops(condition, rows[..|rows| - 1], i);
    } else {
      assert rows[..i] == rows;
    }
  }

  method FilterTable(condition: Expr<nat>, rows: Rows) returns (r: Result<Rows, ExecError>)
    ensures r == FilterRows(condition, rows)
  {
    var done: Rows := [];
    for i := 0 to |rows|
      invariant FilterRows(condition, rows[..i]) == Ok(done)
    {
      assert rows[..i + 1][..i] == rows[..i];
      var keep := EvaluatePredicate(condition, rows[i]);
      if keep.Err? {
        FilterStops(condition, rows, i + 1);
        return Err(Invalid);
      }
      if keep.value {
        done := done + [rows[i]];
      }
    }
    assert rows[..|rows|] == rows;
    r := Ok(done);
  }

  method AggregateTable(f: Floats, rows: Rows, groupKeys: seq<nat>, calls: seq<AggregateCall>, prim: Value -> bv64)
    returns (r: Result<Rows, ExecError>)
    ensures r == AggregateRows(f, rows, groupKeys, calls)
  {
    var groups := Grouping.GroupByHash(f, rows, groupKeys, calls, prim);
    match groups
    case Err(error) => r := Err(AggregateFailure(error));
    case Ok(gs) =>
      GroupKeySizes(f, rows, groupKeys, calls);
      match OutputRows(f, gs, groupKeys, calls) {
        case Err(error) => r := Err(AggregateFailure(error));
        case Ok(output) => r := Ok(output);
      }
  }

  method JoinTables(left: Rows, right: Rows, condition: Expr<nat>, slotTypes: SlotRow, limit: nat, prim: Value -> bv64,
                    ghost l: SlotRow, ghost r: SlotRow)
    returns (rows: Result<Rows, ExecError>)
    requires AllConform(left, l) && AllConform(right, r)
    requires Unique(l + r) && ValidPredicate(condition, l + r) && JoinKeys.TypesAgree(slotTypes, l + r)
    ensures rows == JoinRows(left, right, condition, limit)
  {
    var joined := HashJoin.Join(left, right, condition, slotTypes, limit, prim, l, r);
    match joined
    case Err(error) => rows := Err(if error.RowLimit? then TooManyRows else Invalid);
    case Ok(output) => rows := Ok(output);
  }

  /** execute_node: hash joins and hash grouping, for any std::hash, compute the reference result. */
  method ExecuteNode(catalog: Catalog, tables: Tables, node: Node, depth: nat, limit: nat, f: Floats,
      prim: Value -> bv64,
                     slotTypes: SlotRow, ghost types: SlotRow)
    returns (r: Result<Rows, ExecError>)
    requires TablesOk(catalog, tables) && ValidateNode(catalog, node, depth, types).Ok?
    requires JoinsAgree(catalog, node, depth, types, slotTypes)
    ensures r == Reference(catalog, tables, node, depth, limit, f)
    decreases node, 1
  {
    match node
    case Scan(id, columns) =>
      var t := FindTable(catalog, id);
      r := ScanTable(t.value, tables(id), columns, limit);
    case Filter(condition, child) =>
      var rows := ExecuteNode(catalog, tables, child, depth + 1, limit, f, prim, slotTypes, types);
      if rows.Err? { return rows; }
      r := FilterTable(condition, rows.value);
    case Sort(keys, child) =>
      var rows := ExecuteNode(catalog, tables, child, depth + 1, limit, f, prim, slotTypes, types);
      if rows.Err? { return rows; }
      r := SortRows(rows.value, keys);
    case Join(_, _, _) =>
      r := ExecuteJoin(catalog, tables, node, depth, limit, f, prim, slotTypes, types);
    case Aggregate(groupKeys, calls, child) =>
      var rows := ExecuteNode(catalog, tables, child, depth + 1, limit, f, prim, slotTypes, types);
      if rows.Err? { return rows; }
      r := AggregateTable(f, rows.value, groupKeys, calls, prim);
  }

  lemma JoinAgrees(catalog: Catalog, node: Node, depth: nat, types: SlotRow, slotTypes: SlotRow)
    requires node.Join? && ValidateNode(catalog, node, depth, types).Ok? &&
      JoinsAgree(catalog, node, depth, types, slotTypes)
    ensures JoinsAgree(catalog, node.left, depth + 1, types, slotTypes)
    ensures JoinsAgree(catalog, node.right, depth + 1, Left(catalog, node, depth, types).types, slotTypes)
    ensures JoinKeys.TypesAgree(slotTypes,
      Left(catalog, node, depth, types).row + Right(catalog, node, depth, types).row)
  {
    JoinShape(catalog, node, depth, types);
  }

  lemma InputsConform(catalog: Catalog, tables: Tables, node: Node, depth: nat, types: SlotRow, limit: nat, f: Floats)
    requires TablesOk(catalog, tables) && node.Join? && ValidateNode(catalog, node, depth, types).Ok?
    ensures SoundOutcome(Reference(catalog, tables, node.left, depth + 1, limit, f),
      Left(catalog, node, depth, types).row)
    ensures SoundOutcome(Reference(catalog, tables, node.right, depth + 1, limit, f),
      Right(catalog, node, depth, types).row)
  {
    ValidPlansAreSound(catalog, tables, node.left, depth + 1, types, limit, f);
    ValidPlansAreSound(catalog, tables, node.right, depth + 1, Left(catalog, node, depth, types).types, limit, f);
  }

  method ExecuteJoin(catalog: Catalog, tables: Tables, node: Node, depth: nat, limit: nat, f: Floats,
      prim: Value -> bv64,
                     slotTypes: SlotRow, ghost types: SlotRow)
    returns (r: Result<Rows, ExecError>)
    requires TablesOk(catalog, tables) && node.Join? && ValidateNode(catalog, node, depth, types).Ok?
    requires JoinsAgree(catalog, node, depth, types, slotTypes)
    ensures r == Reference(catalog, tables, node, depth, limit, f)
    decreases node, 0
  {
    ghost var l, right := Left(catalog, node, depth, types), Right(catalog, node, depth, types);
    JoinAgrees(catalog, node, depth, types, slotTypes);
    JoinShape(catalog, node, depth, types);
    InputsConform(catalog, tables, node, depth, types, limit, f);
    var leftRows := ExecuteNode(catalog, tables, node.left, depth + 1, limit, f, prim, slotTypes, types);
    if leftRows.Err? { return leftRows; }
    var rightRows := ExecuteNode(catalog, tables, node.right, depth + 1, limit, f, prim, slotTypes, l.types);
    if rightRows.Err? { return rightRows; }
    r := JoinTables(leftRows.value, rightRows.value, node.condition, slotTypes, limit, prim, l.row, right.row);
  }
}
