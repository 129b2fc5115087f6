/** How executing one plan ends, given what the storage answers (src/core/executor.cpp). */
module Outcomes {
  import opened Common
  import opened Aggregates
  import opened Plans
  import opened Execution
  import opened Select
  import opened SelectAccepted
  import opened Writes
  import opened Mutations
  import opened Catalogs

  datatype ErrorKind = CompileKind | AnalysisKind | ExecuteKind | StorageKind | InternalKind

  /** What a statement result carries: an error, the count of a command and the error that cut it short, or rows. */
  datatype Outcome = Fails(kind: ErrorKind) | Command(count: nat, error: Option<ErrorKind>) | Query

  datatype PlanResult = WasCancelled | Ended(outcome: Outcome, catalog: TableCatalog)

  // ---------------------------------------------------------------- the storage's answers

  datatype OpenReply = OpenThrew | Opened(error: bool, cursor: bool)

  /** One scan_next call, or a cancellation found before it. */
  datatype ScanReply = CancelFound | ScanThrew | Next(error: bool, record: Option<Stored>)

  datatype CloseReply = CloseThrew | CursorClosed(error: bool)

  /** insert, delete_records, update_rows and create_table: how many records, and whether an error came with it. */
  datatype ChangeReply = ChangeThrew | Changed(count: nat, error: bool)

  datatype TableReplies = TableReplies(open: OpenReply, scan: seq<ScanReply>, close: CloseReply)

  /** Everything one execution meets; `cancelFound` is a cancellation noticed between the scans. */
  datatype Backend = Backend(tables: nat -> TableReplies, change: ChangeReply, cancelFound: bool, floats: Floats)

  /** How a scan ends: at the end of the table, or before it. */
  datatype Ending = AtEnd | CutShort | Trouble(kind: ErrorKind)

  /** scan_records up to its end; the replies after that do not matter. */
  function EndingOf(replies: seq<ScanReply>): Ending {
    if replies == [] then AtEnd
    else
      match replies[0]
      case CancelFound => CutShort
      case ScanThrew => Trouble(InternalKind)
      case Next(error, record) =>
        if error then Trouble(if record.Some? then InternalKind else StorageKind)
        else if record.None? then AtEnd
        else EndingOf(replies[1..])
  }

  /** The records delivered before it ends. */
  function Delivered(replies: seq<ScanReply>): seq<Stored> {
    if replies == [] || !replies[0].Next? || replies[0].error || replies[0].record.None? then []
    else [replies[0].record.value] + Delivered(replies[1..])
  }

  function RowsIn(records: seq<Stored>): (r: seq<Row>)
    ensures |r| == |records| && forall i :: 0 <= i < |r| ==> r[i] == records[i].row
  {
    seq(|records|, i requires 0 <= i < |records| => records[i].row)
  }

  /** The contents of the tables, as far as they were delivered. */
  function Contents(b: Backend): Tables {
    (id: nat) => RowsIn(Delivered(b.tables(id).scan))
  }

  // ---------------------------------------------------------------- reading

  datatype Read<T> = Interrupted | Broken(kind: ErrorKind) | Got(value: T)

  /** open_table, scan_records and close_cursor; `handled` is what the record handler makes of the records. */
  function ReadTable<T>(r: TableReplies, handled: Result<T, ErrorKind>): Read<T> {
    match r.open
    case OpenThrew => Broken(InternalKind)
    case Opened(error, cursor) =>
      if error then Broken(if cursor then InternalKind else StorageKind)
      else if !cursor then Broken(InternalKind)
      else
        match handled
        case Err(kind) => Broken(kind)
        case Ok(value) =>
          match EndingOf(r.scan)
          case CutShort => Interrupted
          case Trouble(kind) => Broken(kind)
          case AtEnd =>
            match r.close
            case CloseThrew => Broken(InternalKind)
            case CursorClosed(failed) => if failed then Broken(StorageKind) else Got(value)
  }

  /** The kind under which the executor reports an error of its own. */
  function KindOf(e: ExecError): ErrorKind {
    match e
    case TooManyRows => ExecuteKind
    case AggregateFailure(f) => if f.CountOverflow? || f.SumOverflow? || f.NotFinite? then ExecuteKind else InternalKind
    case _ => InternalKind
  }

  function Kinded<T>(r: Result<T, ExecError>): Result<T, ErrorKind> {
    match r
    case Ok(value) => Ok(value)
    case Err(error) => Err(KindOf(error))
  }

  function Lift<T>(r: Result<T, ExecError>): Read<T> {
    match r
    case Ok(value) => Got(value)
    case Err(error) => Broken(KindOf(error))
  }

  /** execute_node over a storage that may fail at every scan. */
  function RunNode(catalog: Catalog, b: Backend, node: Node, depth: nat, limit: nat): Read<Rows>
    decreases node
  {
    if depth >= MAX_PLAN_DEPTH then Broken(InternalKind)
    else
      match node
      case Scan(id, columns) =>
        (match FindTable(catalog, id)
         case None => Broken(InternalKind)
         case Some(t) => ReadTable(b.tables(id), Kinded(ScanRows(t, Contents(b)(id), columns, limit))))
      case Filter(condition, child) =>
        (match RunNode(catalog, b, child, depth + 1, limit)
         case Got(rows) => Lift(FilterRows(condition, rows))
         case stopped => stopped)
      case Sort(keys, child) =>
        (match RunNode(catalog, b, child, depth + 1, limit)
         case Got(rows) => Lift(SortRows(rows, keys))
         case stopped => stopped)
      case Join(condition, left, right) =>
        (match RunNode(catalog, b, left, depth + 1, limit)
         case Got(l) =>
           (match RunNode(catalog, b, right, depth + 1, limit)
            case Got(r) => Lift(JoinRows(l, r, condition, limit))
            case stopped => stopped)
         case stopped => stopped)
      case Aggregate(groupKeys, calls, child) =>
        (match RunNode(catalog, b, child, depth + 1, limit)
         case Got(rows) => Lift(AggregateRows(b.floats, rows, groupKeys, calls))
         case stopped => stopped)
  }

  // ---------------------------------------------------------------- the executors

  /** How a command ends that asked the storage to change `requested` records. */
  function CommandEnd(requested: nat, reply: ChangeReply): Outcome {
    match reply
    case ChangeThrew => Fails(InternalKind)
    case Changed(count, error) =>
      if count > requested then Fails(InternalKind)
      else if error then (if count == 0 then Fails(StorageKind) else Command(count, Some(StorageKind)))
      else if count != requested then Fails(InternalKind)
      else Command(count, None)
  }

  /** execute_insert. */
  function InsertEnd(plan: InsertPlan, catalog: Catalog, b: Backend): Outcome {
    match FindTable(catalog, plan.table)
    case None => Fails(InternalKind)
    case Some(t) =>
      if !MetadataOk(t) || !InsertAccepted(t, plan) then Fails(InternalKind) else CommandEnd(|plan.rows|, b.change)
  }

  /** execute_delete and execute_update. */
  function MutationEnd(plan: MutationPlan, catalog: Catalog, b: Backend): Option<Outcome> {
    match FindTable(catalog, plan.table)
    case None => Some(Fails(InternalKind))
    case Some(t) =>
      if !MutationValid(t, plan) then Some(Fails(InternalKind))
      else
        var targets := Targets(t, plan, Delivered(b.tables(plan.table).scan));
        match ReadTable(b.tables(plan.table), if targets.Err? then Err(InternalKind) else Ok(targets.value))
        case Interrupted => None
        case Broken(kind) => Some(Fails(kind))
        case Got(found) => Some(CommandEnd(|found|, b.change))
  }

  /** execute_query. */
  function QueryEnd(plan: QueryPlan, catalog: Catalog, b: Backend, limit: nat): Option<Outcome> {
    if ValidateQuery(catalog, plan).Err? then Some(Fails(InternalKind))
    else if b.cancelFound then None
    else
      match RunNode(catalog, b, plan.root, 1, limit)
      case Interrupted => None
      case Broken(kind) => Some(Fails(kind))
      case Got(rows) => Some(if ProjectRows(rows, plan.outputs).Ok? then Query else Fails(InternalKind))
  }

  /** execute_create_table. */
  function CreateEnd(plan: Plan, c: TableCatalog, reply: ChangeReply): Outcome
    requires plan.CreateTable?
  {
    if c.next > MAX_TABLE_ID then Fails(ExecuteKind)
    else if !MetadataOk(NewTable(c, plan)) then Fails(InternalKind)
    else if Duplicate(c.tables, NewTable(c, plan)) then Fails(ExecuteKind)
    else
      match reply
      case ChangeThrew => Fails(InternalKind)
      case Changed(_, error) => if error then Fails(StorageKind) else Command(0, None)
  }

  function Uncancelled(o: Option<Outcome>, c: TableCatalog): PlanResult {
    if o.None? then WasCancelled else Ended(o.value, c)
  }

  /** execute_plan_impl: only a successful CREATE changes the catalog. */
  function Execute(plan: Plan, c: TableCatalog, b: Backend, limit: nat): PlanResult {
    match plan
    case CreateTable(_, _) =>
      var outcome := CreateEnd(plan, c, b.change);
      Ended(outcome, if outcome.Command? then Added(c, plan) else c)
    case InsertRows(insert) => Ended(InsertEnd(insert, c.tables, b), c)
    case MutateRows(mutation) => Uncancelled(MutationEnd(mutation, c.tables, b), c)
    case RunQuery(query) => Uncancelled(QueryEnd(query, c.tables, b, limit), c)
  }

  // ---------------------------------------------------------------- what can be reported

  predicate ExecutionErrorKind(k: ErrorKind) {
    k.ExecuteKind? || k.StorageKind?
  }

  /** Errors are of the execution kinds or internal, and only a storage error comes with a count. */
  predicate Reportable(o: Outcome) {
    match o
    case Fails(k) => ExecutionErrorKind(k) || k.InternalKind?
    case Command(_, e) => e.None? || e.value.StorageKind?
    case Query => true
  }

  predicate ReportableRead<T>(r: Read<T>) {
    r.Broken? ==> ExecutionErrorKind(r.kind) || r.kind.InternalKind?
  }

  lemma {:induction false} EndingIsReportable(replies: seq<ScanReply>)
    ensures EndingOf(replies).Trouble? ==> EndingOf(replies).kind.StorageKind? || EndingOf(replies).kind.InternalKind?
  {
    if replies != [] && replies[0].Next? {
      EndingIsReportable(replies[1..]);
    }
  }

  lemma ReadIsReportable<T>(r: TableReplies, handled: Result<T, ErrorKind>)
    requires handled.Err? ==> ExecutionErrorKind(handled.error) || handled.error.InternalKind?
    ensures ReportableRead(ReadTable(r, handled))
  {
    EndingIsReportable(r.scan);
  }

  lemma {:induction false} RunIsReportable(catalog: Catalog, b: Backend, node: Node, depth: nat, limit: nat)
    ensures ReportableRead(RunNode(catalog, b, node, depth, limit))
    decreases node
  {
    match node
    case Scan(id, columns) =>
      var t := FindTable(catalog, id);
      if t.Some? {
        ReadIsReportable(b.tables(id), Kinded(ScanRows(t.value, Contents(b)(id), columns, limit)));
      }
    case Filter(_, child) => RunIsReportable(catalog, b, child, depth + 1, limit);
    case Sort(_, child) => RunIsReportable(catalog, b, child, depth + 1, limit);
    case Join(_, left, right) =>
      RunIsReportable(catalog, b, left, depth + 1, limit);
      RunIsReportable(catalog, b, right, depth + 1, limit);
    case Aggregate(_, _, child) => RunIsReportable(catalog, b, child, depth + 1, limit);
  }

  /** Whatever the plan and whatever the storage answers, the outcome is one the runner can report. */
  lemma ExecutionIsReportable(plan: Plan, c: TableCatalog, b: Backend, limit: nat)
    ensures Execute(plan, c, b, limit).Ended? ==> Reportable(Execute(plan, c, b, limit).outcome)
  {
    match plan
    case CreateTable(_, _) =>
    case InsertRows(_) =>
    case MutateRows(mutation) => EndingIsReportable(b.tables(mutation.table).scan);
    case RunQuery(query) => RunIsReportable(c.tables, b, query.root, 1, limit);
  }

  /** Only a CREATE that passed the runtime's checks changes the catalog. */
  lemma ExecuteKeepsGood(plan: Plan, c: TableCatalog, b: Backend, limit: nat)
    requires GoodCatalog(c)
    ensures Execute(plan, c, b, limit).Ended? ==>
      && GoodCatalog(Execute(plan, c, b, limit).catalog) && Execute(plan, c, b, limit).catalog.next >= c.next
  {
    if plan.CreateTable? && CreateEnd(plan, c, b.change).Command? {
      CreateKeepsGood(c, plan);
    }
  }
}
