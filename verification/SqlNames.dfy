/** Names in a SELECT: analysis resolves a name exactly when it stands for one column, and to that column. */
module SqlNames {
  import opened Common
  import opened Values
  import opened Expressions
  import opened Optimizer
  import opened Binding
  import opened Plans
  import opened Select
  import opened SelectAnalysis
  import opened SqlMeaning
  import opened Execution
  import Pipeline

  // ---------------------------------------------------------------- one name

  /** Relations and the columns of each relation have distinct names, and relations distinct ids. */
  ghost predicate Sane(from: Scope) {
    && DistinctIds(from)
    && (forall i, j :: 0 <= i < j < |from| ==> from[i].name != from[j].name)
    && (forall i :: 0 <= i < |from| ==> DistinctColumns(from[i].columns))
  }

  ghost predicate DistinctColumns(columns: seq<ColumnMeta>) {
    forall i, j :: 0 <= i < j < |columns| ==> columns[i].name != columns[j].name
  }

  lemma {:induction false} FindColumnFinds(columns: seq<ColumnMeta>, name: string, from: nat, c: nat)
    requires from <= c < |columns| && columns[c].name == name && DistinctColumns(columns)
    ensures FindColumn(columns, name, from) == Some(c)
    decreases |columns| - from
  {
    if columns[from].name != name {
      FindColumnFinds(columns, name, from + 1, c);
    }
  }

  lemma {:induction false} FindRelationFinds(from: Scope, name: string, i: nat)
    requires i < |from| && from[i].name == name
    requires forall j, k :: 0 <= j < k < |from| ==> from[j].name != from[k].name
    ensures FindRelation(from, name) == Some(from[i])
  {
    if i > 0 {
      FindRelationFinds(from[1..], name, i - 1);
    }
  }

  /** The entry that resolution makes of a place. */
  function Entry(from: Scope, p: Place): Resolved
    requires p.relation < |from| && p.column < |from[p.relation].columns|
  {
    Resolved(BoundColumn(from[p.relation].id, p.column),
             DeclaredType(from[p.relation].columns[p.column].ty))
  }

  predicate Unqualified(from: Scope, name: string, p: Place) {
    NamedAt(from, Name(None, name), p)
  }

  /** Every candidate is a named column, in order of the relations; all named columns are candidates. */
  ghost predicate Lists(from: Scope, name: string, places: seq<Place>) {
    && |places| == |Candidates(from, name)|
    && (forall i :: 0 <= i < |places| ==>
          Unqualified(from, name, places[i]) && Candidates(from, name)[i] == Entry(from, places[i]))
    && (forall p :: Unqualified(from, name, p) ==> p in places)
    && (forall i, j :: 0 <= i < j < |places| ==> places[i] != places[j])
  }

  function Shifted(places: seq<Place>): (r: seq<Place>)
    ensures |r| == |places| && forall i :: 0 <= i < |r| ==> r[i] == Place(places[i].relation + 1, places[i].column)
  {
    seq(|places|, i requires 0 <= i < |places| => Place(places[i].relation + 1, places[i].column))
  }

  lemma LaterPlace(from: Scope, name: string, p: Place)
    requires from != []
    ensures p.relation > 0 ==>
              (Unqualified(from, name, p) <==> Unqualified(from[1..], name, Place(p.relation - 1, p.column)))
  {
  }

  lemma LaterIsListed(from: Scope, name: string, rest: seq<Place>, p: Place)
    requires from != [] && Lists(from[1..], name, rest) && Unqualified(from, name, p) && p.relation > 0
    ensures p in Shifted(rest)
  {
    LaterPlace(from, name, p);
    var i :| 0 <= i < |rest| && rest[i] == Place(p.relation - 1, p.column);
    assert Shifted(rest)[i] == p;
  }

  lemma ListsLater(from: Scope, name: string, rest: seq<Place>)
    requires from != [] && Lists(from[1..], name, rest)
    ensures forall i :: 0 <= i < |rest| ==>
              Unqualified(from, name, Shifted(rest)[i]) &&
              Candidates(from[1..], name)[i] == Entry(from, Shifted(rest)[i])
    ensures forall p :: Unqualified(from, name, p) && p.relation > 0 ==> p in Shifted(rest)
  {
    forall p | Unqualified(from, name, p) && p.relation > 0 ensures p in Shifted(rest) {
      LaterIsListed(from, name, rest, p);
    }
    forall i | 0 <= i < |rest| ensures Unqualified(from, name, Shifted(rest)[i]) {
      LaterPlace(from, name, Shifted(rest)[i]);
      assert Unqualified(from[1..], name, rest[i]);
    }
  }

  function HerePlaces(from: Scope, name: string): seq<Place>
    requires from != []
  {
    match FindColumn(from[0].columns, name)
    case None => []
    case Some(c) => [Place(0, c)]
  }

  lemma HereIsListed(from: Scope, name: string, p: Place)
    requires Sane(from) && from != [] && Unqualified(from, name, p) && p.relation == 0
    ensures HerePlaces(from, name) == [p]
  {
    FindColumnFinds(from[0].columns, name, 0, p.column);
  }

  lemma CandidatesStep(from: Scope, name: string)
    requires from != []
    ensures |HerePlaces(from, name)| <= 1
    ensures HerePlaces(from, name) == [] ==> Candidates(from, name) == Candidates(from[1..], name)
    ensures HerePlaces(from, name) != [] ==>
              && Unqualified(from, name, HerePlaces(from, name)[0]) && HerePlaces(from, name)[0].relation == 0
              && Candidates(from, name) == [Entry(from, HerePlaces(from, name)[0])] + Candidates(from[1..], name)
  {
  }

  lemma ListsNothingHere(from: Scope, name: string, rest: seq<Place>)
    requires from != [] && Lists(from[1..], name, rest) && Candidates(from, name) == Candidates(from[1..], name)
    requires forall p :: Unqualified(from, name, p) ==> p.relation > 0
    ensures Lists(from, name, Shifted(rest))
  {
    ListsLater(from, name, rest);
  }

  /** The place here and the later ones are all there are. */
  lemma OneHereCovers(from: Scope, name: string, here: Place, rest: seq<Place>, p: Place)
    requires from != [] && Lists(from[1..], name, rest) && Unqualified(from, name, p)
    requires forall q :: Unqualified(from, name, q) && q.relation == 0 ==> q == here
    ensures p in [here] + Shifted(rest)
  {
    ListsLater(from, name, rest);
    InEither(here, Shifted(rest), p);
  }

  lemma OneHereEntries(from: Scope, name: string, here: Place, rest: seq<Place>, i: nat)
    requires from != [] && Lists(from[1..], name, rest) && Unqualified(from, name, here) && here.relation == 0
    requires Candidates(from, name) == [Entry(from, here)] + Candidates(from[1..], name)
    requires i <= |rest|
    ensures var p := ([here] + Shifted(rest))[i];
            Unqualified(from, name, p) && Candidates(from, name)[i] == Entry(from, p)
  {
    ListsLater(from, name, rest);
    if i > 0 {
      assert ([here] + Shifted(rest))[i] == Shifted(rest)[i - 1];
    }
  }

  lemma OneHereDistinct(here: Place, rest: seq<Place>)
    requires here.relation == 0 && forall i, j :: 0 <= i < j < |rest| ==> rest[i] != rest[j]
    ensures forall i, j :: 0 <= i < j < |[here] + Shifted(rest)| ==>
              ([here] + Shifted(rest))[i] != ([here] + Shifted(rest))[j]
  {
    DistinctFront(here, Shifted(rest));
  }

  lemma ListsOneHere(from: Scope, name: string, here: Place, rest: seq<Place>)
    requires from != [] && Lists(from[1..], name, rest) && Unqualified(from, name, here) && here.relation == 0
    requires Candidates(from, name) == [Entry(from, here)] + Candidates(from[1..], name)
    requires forall p :: Unqualified(from, name, p) && p.relation == 0 ==> p == here
    ensures Lists(from, name, [here] + Shifted(rest))
  {
    var places := [here] + Shifted(rest);
    forall p | Unqualified(from, name, p) ensures p in places {
      OneHereCovers(from, name, here, rest, p);
    }
    forall i | 0 <= i < |places|
      ensures Unqualified(from, name, places[i]) && Candidates(from, name)[i] == Entry(from, places[i])
    {
      OneHereEntries(from, name, here, rest, i);
    }
    OneHereDistinct(here, rest);
  }

  lemma InEither(here: Place, later: seq<Place>, p: Place)
    requires p == here || p in later
    ensures p in [here] + later
  {
  }

  lemma DistinctFront(here: Place, later: seq<Place>)
    requires forall i :: 0 <= i < |later| ==> later[i] != here
    requires forall i, j :: 0 <= i < j < |later| ==> later[i] != later[j]
    ensures forall i, j :: 0 <= i < j < |[here] + later| ==> ([here] + later)[i] != ([here] + later)[j]
  {
  }

  lemma ListsHere(from: Scope, name: string, rest: seq<Place>)
    requires Sane(from) && from != [] && Lists(from[1..], name, rest)
    ensures Lists(from, name, HerePlaces(from, name) + Shifted(rest))
  {
    var here := HerePlaces(from, name);
    CandidatesStep(from, name);
    forall p | Unqualified(from, name, p) && p.relation == 0 ensures here == [p] {
      HereIsListed(from, name, p);
    }
    if here == [] {
      ListsNothingHere(from, name, rest);
      assert here + Shifted(rest) == Shifted(rest);
    } else {
      ListsOneHere(from, name, here[0], rest);
      assert here == [here[0]];
    }
  }

  lemma {:induction false} CandidatesAreNamed(from: Scope, name: string) returns (places: seq<Place>)
    requires Sane(from)
    ensures Lists(from, name, places)
  {
    if from == [] {
      places := [];
    } else {
      var rest := CandidatesAreNamed(from[1..], name);
      ListsHere(from, name, rest);
      places := HerePlaces(from, name) + Shifted(rest);
    }
  }

  /** resolve_column accepts a name exactly when it stands for one column, and then gives that column and its type. */
  lemma ResolveFindsTheName(from: Scope, n: Name)
    requires Sane(from)
    ensures Resolve(from, n).Some? <==> exists p :: OnePlace(from, n, p)
    ensures forall p :: OnePlace(from, n, p) ==>
              Resolve(from, n).Some? && PlaceOf(from, n) == Some(p) && Resolve(from, n).value == Entry(from, p)
  {
    if n.qualifier.Some? {
      QualifiedName(from, n);
    } else {
      UnqualifiedName(from, n);
    }
  }

  lemma QualifiedName(from: Scope, n: Name)
    requires Sane(from) && n.qualifier.Some?
    ensures Resolve(from, n).Some? <==> exists p :: OnePlace(from, n, p)
    ensures forall p :: OnePlace(from, n, p) ==>
              Resolve(from, n).Some? && PlaceOf(from, n) == Some(p) && Resolve(from, n).value == Entry(from, p)
  {
    forall p | NamedAt(from, n, p)
      ensures Resolve(from, n) == Some(Entry(from, p)) && OnePlace(from, n, p)
    {
      FindRelationFinds(from, n.qualifier.value, p.relation);
      FindColumnFinds(from[p.relation].columns, n.name, 0, p.column);
      forall q | NamedAt(from, n, q) ensures q == p {
        assert q.relation == p.relation;
        FindColumnFinds(from[q.relation].columns, n.name, 0, q.column);
      }
    }
    if Resolve(from, n).Some? {
      var t := FindRelation(from, n.qualifier.value).value;
      var i :| 0 <= i < |from| && from[i] == t;
      assert NamedAt(from, n, Place(i, FindColumn(t.columns, n.name).value));
    }
  }

  lemma AllTheSame(places: seq<Place>, p: Place)
    requires places != [] && forall i :: 0 <= i < |places| ==> places[i] == p
    requires forall i, j :: 0 <= i < j < |places| ==> places[i] != places[j]
    ensures |places| == 1
  {
    var k := if |places| > 1 then 1 else 0;
    assert places[0] == places[k];
  }

  lemma UnqualifiedName(from: Scope, n: Name)
    requires Sane(from) && n.qualifier.None?
    ensures Resolve(from, n).Some? <==> exists p :: OnePlace(from, n, p)
    ensures forall p :: OnePlace(from, n, p) ==>
              Resolve(from, n).Some? && PlaceOf(from, n) == Some(p) && Resolve(from, n).value == Entry(from, p)
  {
    var places := CandidatesAreNamed(from, n.name);
    assert n == Name(None, n.name);
    forall q ensures NamedAt(from, n, q) == Unqualified(from, n.name, q) {}
    if |places| == 1 {
      forall q | NamedAt(from, n, q) ensures q == places[0] {
        assert Unqualified(from, n.name, q) && q in places;
      }
      assert OnePlace(from, n, places[0]);
    }
    forall p | OnePlace(from, n, p)
      ensures |places| == 1 && places[0] == p && PlaceOf(from, n) == Some(p)
    {
      assert Unqualified(from, n.name, p) && p in places;
      forall i | 0 <= i < |places| ensures places[i] == p {
        assert Unqualified(from, n.name, places[i]) && NamedAt(from, n, places[i]);
      }
      AllTheSame(places, p);
    }
  }

  // ---------------------------------------------------------------- the relations of a statement

  lemma FromStep(catalog: Catalog, table: string, joins: seq<AstJoin>)
    requires joins != [] && BindFrom(catalog, table, joins).Some?
    ensures var before := BindFrom(catalog, table, joins[..|joins| - 1]);
            && before.Some? && FindRelation(catalog, joins[|joins| - 1].table).Some?
            && BindFrom(catalog, table, joins).value.scope ==
                before.value.scope + [FindRelation(catalog, joins[|joins| - 1].table).value]
  {
  }

  lemma FromNamedStep(catalog: Catalog, table: string, joins: seq<AstJoin>, names: seq<string>)
    requires joins != [] && BindFrom(catalog, table, joins).Some?
    requires |names| == |joins| + 1 && names[|joins|] == joins[|joins| - 1].table
    requires BindFrom(catalog, table, joins[..|joins| - 1]).Some?
    requires var before := BindFrom(catalog, table, joins[..|joins| - 1]).value.scope;
             && before == Relations(catalog, names[..|names| - 1]) && |before| == |names| - 1
             && forall i :: 0 <= i < |names| - 1 ==> FindRelation(catalog, names[..|names| - 1][i]) == Some(before[i])
    ensures BindFrom(catalog, table, joins).value.scope == Relations(catalog, names)
    ensures var scope := BindFrom(catalog, table, joins).value.scope;
            |scope| == |names| && forall i :: 0 <= i < |names| ==> FindRelation(catalog, names[i]) == Some(scope[i])
  {
    FromStep(catalog, table, joins);
    assert forall i :: 0 <= i < |names| - 1 ==> names[..|names| - 1][i] == names[i];
  }

  lemma {:induction false} FromIsNamed(catalog: Catalog, table: string, joins: seq<AstJoin>, names: seq<string>)
    requires BindFrom(catalog, table, joins).Some?
    requires |names| == |joins| + 1 && names[0] == table
    requires forall k :: 0 <= k < |joins| ==> names[k + 1] == joins[k].table
    ensures BindFrom(catalog, table, joins).value.scope == Relations(catalog, names)
    ensures var scope := BindFrom(catalog, table, joins).value.scope;
            |scope| == |names| && forall i :: 0 <= i < |names| ==> FindRelation(catalog, names[i]) == Some(scope[i])
    decreases |joins|
  {
    if joins == [] {
      assert names[..0] == [] && Relations(catalog, names[..0]) == [];
    } else {
      FromIsNamed(catalog, table, joins[..|joins| - 1], names[..|names| - 1]);
      FromNamedStep(catalog, table, joins, names);
    }
  }

  lemma FromIsSane(catalog: Catalog, ast: SelectAst)
    requires CatalogOk(catalog) && BindFrom(catalog, ast.table, ast.joins).Some?
    ensures BindFrom(catalog, ast.table, ast.joins).value.scope == Relations(catalog, TableNames(ast))
    ensures Sane(Relations(catalog, TableNames(ast)))
  {
    FromIsNamed(catalog, ast.table, ast.joins, TableNames(ast));
    FromShape(catalog, ast.table, ast.joins);
    var scope := Relations(catalog, TableNames(ast));
    forall i | 0 <= i < |scope| ensures DistinctColumns(scope[i].columns) {
      assert MetadataOk(scope[i]);
    }
    forall i, j | 0 <= i < j < |scope| ensures scope[i].name != scope[j].name {
      assert FindRelation(catalog, TableNames(ast)[i]) == Some(scope[i]);
      assert FindRelation(catalog, TableNames(ast)[j]) == Some(scope[j]);
    }
  }

  lemma SanePrefix(from: Scope, k: nat)
    requires Sane(from) && k <= |from|
    ensures Sane(from[..k])
  {
  }

  // ---------------------------------------------------------------- tuples

  /** One row of the right width and types for each relation. */
  ghost predicate TupleOk(from: Scope, t: Tuple) {
    |t| == |from| && forall i :: 0 <= i < |t| ==> PhysicalOk(from[i], t[i])
  }

  /** The value of a bound column in a tuple. */
  function BoundValue(from: Scope, t: Tuple, b: BoundColumn): Value
    requires |t| == |from|
  {
    if from == [] then Null
    else if from[0].id == b.table then if b.column < |t[0]| then t[0][b.column] else Null
    else BoundValue(from[1..], t[1..], b)
  }

  ghost function BoundEnv(from: Scope, t: Tuple): BoundColumn -> Value
    requires |t| == |from|
  {
    b => BoundValue(from, t, b)
  }

  lemma {:induction false} BoundValueAt(from: Scope, t: Tuple, p: Place)
    requires DistinctIds(from) && |t| == |from| && p.relation < |from|
    ensures BoundValue(from, t, BoundColumn(from[p.relation].id, p.column)) == ValueAt(t, p)
    decreases p.relation
  {
    if p.relation > 0 {
      BoundValueAt(from[1..], t[1..], Place(p.relation - 1, p.column));
    }
  }

  lemma {:induction false} BoundValueTyped(from: Scope, t: Tuple, b: BoundColumn)
    requires TupleOk(from, t)
    ensures HasType(BoundValue(from, t, b), TypeIn(from, b))
  {
    if from != [] {
      if from[0].id == b.table {
        assert PhysicalOk(from[0], t[0]);
        assert b.column < |t[0]| ==> ValueMatches(t[0][b.column], from[0].columns[b.column]);
      } else {
        BoundValueTyped(from[1..], t[1..], b);
      }
    }
  }

  lemma BoundEnvOk(from: Scope, t: Tuple)
    requires TupleOk(from, t)
    ensures EnvOk(BoundEnv(from, t), Types(from))
  {
    forall b ensures HasType(BoundEnv(from, t)(b), Types(from)(b)) {
      BoundValueTyped(from, t, b);
    }
  }

  /** A resolved name has the value of the column it stands for. */
  lemma NameValue(from: Scope, t: Tuple, n: Name)
    requires Sane(from) && TupleOk(from, t) && Resolve(from, n).Some?
    ensures PlaceOf(from, n).Some? && Resolve(from, n).value == Entry(from, PlaceOf(from, n).value)
    ensures BoundValue(from, t, Resolve(from, n).value.ref) == ValueOf(from, t, n)
  {
    ResolveFindsTheName(from, n);
    var p :| OnePlace(from, n, p);
    BoundValueAt(from, t, p);
  }

  /** Analysis keeps the meaning of an expression over names. */
  lemma {:induction false} AnalyzeKeepsMeaning(e: Expr<Name>, from: Scope, t: Tuple)
    requires Sane(from) && TupleOk(from, t) && Analyze(e, from).Some?
    ensures Meaning(Analyze(e, from).value.expr, BoundEnv(from, t)) == Meaning(e, Env(from, t))
  {
    match e
    case Column(n) => NameValue(from, t, n);
    case Literal(_) =>
    case Compare(_, l, r) =>
      AnalyzeKeepsMeaning(l, from, t);
      AnalyzeKeepsMeaning(r, from, t);
    case Logic(_, l, r) =>
      AnalyzeKeepsMeaning(l, from, t);
      AnalyzeKeepsMeaning(r, from, t);
    case NullTest(_, x) => AnalyzeKeepsMeaning(x, from, t);
    case Not(x) => AnalyzeKeepsMeaning(x, from, t);
  }
}
