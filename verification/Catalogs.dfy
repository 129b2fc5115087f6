/** The catalog of an open database: restored by open (src/core/database.cpp), grown by CREATE TABLE
    (src/core/executor.cpp), and shadowed by the analysis (src/core/analysis_catalog.cpp). */
module Catalogs {
  import opened Common
  import opened Binding
  import opened Plans
  import opened Select
  import opened SelectAnalysis
  import opened Writes
  import opened Mutations

  // ---------------------------------------------------------------- catalogs

  datatype TableCatalog = TableCatalog(tables: seq<TableMeta>, next: nat)

  /** What compilation yields. */
  datatype Plan =
    | CreateTable(name: string, columns: seq<ColumnMeta>)
    | InsertRows(insert: InsertPlan)
    | MutateRows(mutation: MutationPlan)
    | RunQuery(query: QueryPlan)

  const MAX_TABLE_ID: nat := 0xFFFF_FFFF
  const FIRST_USER_TABLE: nat := 2

  predicate Duplicate(tables: seq<TableMeta>, t: TableMeta) {
    exists i :: 0 <= i < |tables| && (tables[i].id == t.id || tables[i].name == t.name)
  }

  function NewTable(c: TableCatalog, p: Plan): TableMeta
    requires p.CreateTable?
  {
    TableMeta(c.next, p.name, p.columns)
  }

  function Added(c: TableCatalog, p: Plan): TableCatalog
    requires p.CreateTable?
  {
    TableCatalog(c.tables + [NewTable(c, p)], c.next + 1)
  }

  /** The checks of execute_create_table before it calls the storage. */
  predicate RuntimeAccepts(c: TableCatalog, p: Plan)
    requires p.CreateTable?
  {
    c.next <= MAX_TABLE_ID && MetadataOk(NewTable(c, p)) && !Duplicate(c.tables, NewTable(c, p))
  }

  datatype Shadowed = NotCreate | Rejected | Applied(catalog: TableCatalog)

  /** apply_supported_ddl. */
  function ApplyDdl(c: TableCatalog, p: Plan): Shadowed {
    if !p.CreateTable? then NotCreate
    else if c.next > MAX_TABLE_ID || c.next < FIRST_USER_TABLE then Rejected
    else if !MetadataOk(NewTable(c, p)) || Duplicate(c.tables, NewTable(c, p)) then Rejected
    else Applied(Added(c, p))
  }

  /** On catalogs past the reserved ids the shadow accepts exactly the CREATEs the runtime would, with the same
      effect. */
  lemma ShadowMirrorsRuntime(c: TableCatalog, p: Plan)
    requires p.CreateTable? && c.next >= FIRST_USER_TABLE
    ensures ApplyDdl(c, p) == if RuntimeAccepts(c, p) then Applied(Added(c, p)) else Rejected
  {
  }

  /** The catalog after successful CREATEs, in order. */
  function AddAll(c: TableCatalog, creates: seq<Plan>): TableCatalog
    requires forall i :: 0 <= i < |creates| ==> creates[i].CreateTable?
  {
    if creates == [] then c else Added(AddAll(c, creates[..|creates| - 1]), creates[|creates| - 1])
  }

  lemma AddAllStep(c: TableCatalog, creates: seq<Plan>, p: Plan)
    requires p.CreateTable? && forall i :: 0 <= i < |creates| ==> creates[i].CreateTable?
    ensures AddAll(c, creates + [p]) == Added(AddAll(c, creates), p)
  {
    assert (creates + [p])[..|creates|] == creates;
  }

  // ---------------------------------------------------------------- the catalog stays good

  /** Valid metadata, no id and no name twice, and the next id beyond all of them. */
  ghost predicate GoodCatalog(c: TableCatalog) {
    CatalogOk(c.tables) && DistinctNames(c.tables) && forall t :: t in c.tables ==> t.id < c.next
  }

  lemma CreateKeepsGood(c: TableCatalog, p: Plan)
    requires GoodCatalog(c) && p.CreateTable? && RuntimeAccepts(c, p)
    ensures GoodCatalog(Added(c, p))
  {
    assert forall i :: 0 <= i < |c.tables| ==> c.tables[i] in c.tables;
  }

  // ---------------------------------------------------------------- what open restores

  function Later(a: nat, b: nat): nat {
    if a < b then b else a
  }

  /** The catalog restored from the listed tables, if open accepts them. */
  function Restored(listed: seq<TableMeta>): Option<TableCatalog> {
    if listed == [] then Some(TableCatalog([], 0))
    else
      var n := |listed| - 1;
      match Restored(listed[..n])
      case None => None
      case Some(c) =>
        if !MetadataOk(listed[n]) || Duplicate(c.tables, listed[n]) then None
        else Some(TableCatalog(c.tables + [listed[n]], Later(c.next, listed[n].id + 1)))
  }

  lemma {:induction false} RestoredStops(listed: seq<TableMeta>, i: nat)
    requires i <= |listed| && Restored(listed[..i]).None?
    ensures Restored(listed).None?
    decreases |listed|
  {
    if i == |listed| {
      assert listed[..i] == listed;
    } else {
      var n := |listed| - 1;
      assert listed[..n][..i] == listed[..i];
      RestoredStops(listed[..n], i);
    }
  }

  /** The loop of Database::open over the tables the storage lists. */
  method RestoreCatalog(listed: seq<TableMeta>) returns (r: Option<TableCatalog>)
    ensures r == Restored(listed)
  {
    var c := TableCatalog([], 0);
    for i := 0 to |listed|
      invariant Restored(listed[..i]) == Some(c)
    {
      assert listed[..i + 1][..i] == listed[..i];
      if !MetadataOk(listed[i]) || Duplicate(c.tables, listed[i]) {
        RestoredStops(listed, i + 1);
        return None;
      }
      c := TableCatalog(c.tables + [listed[i]], Later(c.next, listed[i].id + 1));
    }
    assert listed[..|listed|] == listed;
    r := Some(c);
  }

  lemma GoodGrows(before: seq<TableMeta>, last: TableMeta)
    ensures CatalogOk(before + [last]) && DistinctNames(before + [last]) <==>
            CatalogOk(before) && DistinctNames(before) && MetadataOk(last) && !Duplicate(before, last)
  {
    var all := before + [last];
    assert forall i :: 0 <= i < |before| ==> all[i] == before[i];
    assert all[|before|] == last;
    if CatalogOk(all) && DistinctNames(all) {
      assert forall t :: t in before ==> t in all;
      assert last in all;
    }
  }

  lemma {:induction false} RestoredTables(listed: seq<TableMeta>)
    ensures Restored(listed).Some? <==> CatalogOk(listed) && DistinctNames(listed)
    ensures Restored(listed).Some? ==> Restored(listed).value.tables == listed
  {
    if listed != [] {
      var n := |listed| - 1;
      RestoredTables(listed[..n]);
      GoodGrows(listed[..n], listed[n]);
      assert listed == listed[..n] + [listed[n]];
    }
  }

  lemma {:induction false} RestoredNext(listed: seq<TableMeta>, id: nat)
    requires Restored(listed).Some?
    ensures id < Restored(listed).value.next <==> exists t :: t in listed && t.id >= id
  {
    if listed != [] {
      var n := |listed| - 1;
      RestoredNext(listed[..n], id);
      assert listed == listed[..n] + [listed[n]];
      assert listed[n].id >= id ==> listed[n] in listed;
      assert forall t :: t in listed <==> t in listed[..n] || t == listed[n];
    }
  }

  /** open accepts exactly the listings without invalid metadata, repeated ids or repeated names, and restores them
      in order; the next id is past the reserved ones exactly when some listed id is 1 or more. */
  lemma RestoredIsGood(listed: seq<TableMeta>)
    ensures Restored(listed).Some? <==> CatalogOk(listed) && DistinctNames(listed)
    ensures Restored(listed).Some? ==> GoodCatalog(Restored(listed).value) && Restored(listed).value.tables == listed
    ensures Restored(listed).Some? ==>
      (Restored(listed).value.next >= FIRST_USER_TABLE <==> exists t :: t in listed && t.id >= FIRST_USER_TABLE - 1)
  {
    RestoredTables(listed);
    if Restored(listed).Some? {
      RestoredNext(listed, FIRST_USER_TABLE - 1);
      forall t | t in listed ensures t.id < Restored(listed).value.next {
        RestoredNext(listed, t.id);
      }
    }
  }
}
