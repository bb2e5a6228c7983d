/** Loading the catalog: one query over all relations grouped on the client, against one
    query per relation; and the grouping of constraints. */
module CatalogLoad {
  import opened Wrappers

  // --- grouping consecutive rows --------------------------------------------------------

  datatype Group<K, X> = Group(key: K, items: seq<X>)

  function AddRow<K(==), X>(gs: seq<Group<K, X>>, k: K, x: X): seq<Group<K, X>> {
    if gs != [] && gs[|gs| - 1].key == k
    then gs[..|gs| - 1] + [Group(k, gs[|gs| - 1].items + [x])]
    else gs + [Group(k, [x])]
  }

  /** The groups after all rows were read, one starting wherever the key changes. */
  function Grouped<K(==), X>(rows: seq<X>, key: X -> K): seq<Group<K, X>> {
    if rows == [] then []
    else AddRow(Grouped(rows[..|rows| - 1], key), key(rows[|rows| - 1]), rows[|rows| - 1])
  }

  function ItemLists<K, X>(gs: seq<Group<K, X>>): seq<seq<X>> {
    seq(|gs|, i requires 0 <= i < |gs| => gs[i].items)
  }

  function Flat<K, X>(gs: seq<Group<K, X>>): seq<X> { Concat(ItemLists(gs)) }

  function Filter<K(==), X>(rows: seq<X>, key: X -> K, k: K): seq<X> {
    if rows == [] then []
    else Filter(rows[..|rows| - 1], key, k) + if key(rows[|rows| - 1]) == k then [rows[|rows| - 1]] else []
  }

  /** Rows with the same key are adjacent, as ORDER BY on the key makes them. */
  ghost predicate Contiguous<K(!new), X>(rows: seq<X>, key: X -> K) {
    forall i, j, k :: 0 <= i <= j <= k < |rows| && key(rows[i]) == key(rows[k]) ==> key(rows[j]) == key(rows[i])
  }

  ghost predicate DistinctKeys<K(!new), X>(gs: seq<Group<K, X>>) {
    forall i, j :: 0 <= i < j < |gs| ==> gs[i].key != gs[j].key
  }

  lemma {:induction false} GroupedStep<K, X>(rows: seq<X>, key: X -> K, i: nat)
    requires i < |rows|
    ensures Grouped(rows[..i + 1], key) == AddRow(Grouped(rows[..i], key), key(rows[i]), rows[i])
  {
    assert rows[..i + 1][..i] == rows[..i];
  }

  ghost predicate NoneEmpty<K, X>(gs: seq<Group<K, X>>) {
    forall i :: 0 <= i < |gs| ==> gs[i].items != []
  }

  lemma {:induction false} FlatSnoc<K, X>(gs: seq<Group<K, X>>, g: Group<K, X>)
    ensures Flat(gs + [g]) == Flat(gs) + g.items
  {
    assert ItemLists(gs + [g]) == ItemLists(gs) + [g.items];
    ConcatSnoc(ItemLists(gs), g.items);
  }

  /** Reading one more row adds it at the end of the flattened groups. */
  lemma {:induction false} FlatAdd<K, X>(gs: seq<Group<K, X>>, k: K, x: X)
    requires NoneEmpty(gs)
    ensures Flat(AddRow(gs, k, x)) == Flat(gs) + [x] && NoneEmpty(AddRow(gs, k, x))
  {
    if gs != [] && gs[|gs| - 1].key == k {
      var init, last := gs[..|gs| - 1], gs[|gs| - 1];
      assert gs == init + [last];
      FlatSnoc(init, last);
      FlatSnoc(init, Group(k, last.items + [x]));
    } else {
      FlatSnoc(gs, Group(k, [x]));
    }
  }

  lemma {:induction false} FlatStep<K, X>(rows: seq<X>, key: X -> K, n: nat)
    requires n < |rows| && NoneEmpty(Grouped(rows[..n], key)) && Flat(Grouped(rows[..n], key)) == rows[..n]
    ensures NoneEmpty(Grouped(rows[..n + 1], key)) && Flat(Grouped(rows[..n + 1], key)) == rows[..n + 1]
  {
    GroupedStep(rows, key, n);
    FlatAdd(Grouped(rows[..n], key), key(rows[n]), rows[n]);
    OneMoreRow(rows, n);
  }

  lemma OneMoreRow<X>(rows: seq<X>, n: nat)
    requires n < |rows|
    ensures rows[..n + 1] == rows[..n] + [rows[n]]
  {
  }

  /** Flattening the groups gives back the fetched rows, in order. */
  lemma {:induction false} FlatIsRows<K, X>(rows: seq<X>, key: X -> K)
    ensures Flat(Grouped(rows, key)) == rows && NoneEmpty(Grouped(rows, key))
  {
    FlatPrefix(rows, key, |rows|);
    assert rows[..|rows|] == rows;
  }

  lemma {:induction false} FlatPrefix<K, X>(rows: seq<X>, key: X -> K, n: nat)
    requires n <= |rows|
    ensures Flat(Grouped(rows[..n], key)) == rows[..n] && NoneEmpty(Grouped(rows[..n], key))
  {
    if n == 0 {
      assert rows[..0] == [];
    } else {
      FlatPrefix(rows, key, n - 1);
      FlatStep(rows, key, n - 1);
    }
  }

  lemma {:induction false} KeysFromRows<K, X>(rows: seq<X>, key: X -> K, i: nat) returns (at: nat)
    requires i < |Grouped(rows, key)|
    ensures at < |rows| && key(rows[at]) == Grouped(rows, key)[i].key
  {
    var init := rows[..|rows| - 1];
    if i < |Grouped(init, key)| {
      at := KeysFromRows(init, key, i);
    } else {
      at := |rows| - 1;
    }
  }

  lemma {:induction false} LastKey<K, X>(rows: seq<X>, key: X -> K)
    requires rows != []
    ensures var gs := Grouped(rows, key); gs != [] && gs[|gs| - 1].key == key(rows[|rows| - 1])
  {
  }

  lemma {:induction false} ContiguousPrefix<K(!new), X>(rows: seq<X>, key: X -> K)
    requires Contiguous(rows, key) && rows != []
    ensures Contiguous(rows[..|rows| - 1], key)
  {
    var init := rows[..|rows| - 1];
    forall i, j, k | 0 <= i <= j <= k < |init| && key(init[i]) == key(init[k]) ensures key(init[j]) == key(init[i]) {
      assert init[i] == rows[i] && init[j] == rows[j] && init[k] == rows[k];
    }
  }

  ghost predicate NoGroup<K(!new), X>(gs: seq<Group<K, X>>, k: K) {
    forall i :: 0 <= i < |gs| ==> gs[i].key != k
  }

  /** A key that differs from the last one read has not been read before. */
  lemma NewKey<K(!new), X>(rows: seq<X>, key: X -> K)
    requires Contiguous(rows, key) && |rows| > 1 && key(rows[|rows| - 2]) != key(rows[|rows| - 1])
    ensures NoGroup(Grouped(rows[..|rows| - 1], key), key(rows[|rows| - 1]))
    ensures Filter(rows[..|rows| - 1], key, key(rows[|rows| - 1])) == []
  {
    var init, k := rows[..|rows| - 1], key(rows[|rows| - 1]);
    forall i | 0 <= i < |init| ensures key(init[i]) != k {
      assert init[i] == rows[i];
    }
    forall i | 0 <= i < |Grouped(init, key)| ensures Grouped(init, key)[i].key != k {
      var at := KeysFromRows(init, key, i);
    }
    FilterNone(init, key, k);
  }

  lemma {:induction false} FilterNone<K, X>(rows: seq<X>, key: X -> K, k: K)
    requires forall i :: 0 <= i < |rows| ==> key(rows[i]) != k
    ensures Filter(rows, key, k) == []
  {
    if rows == [] {
    } else {
      FilterNone(rows[..|rows| - 1], key, k);
    }
  }

  /** There is one group per key, and it holds exactly the rows of that key. */
  ghost predicate Faithful<K(!new), X>(gs: seq<Group<K, X>>, rows: seq<X>, key: X -> K) {
    DistinctKeys(gs) && forall i :: 0 <= i < |gs| ==> gs[i].items == Filter(rows, key, gs[i].key)
  }

  lemma {:induction false} FilterSnoc<K, X>(rows: seq<X>, x: X, key: X -> K, k: K)
    ensures Filter(rows + [x], key, k) == Filter(rows, key, k) + if key(x) == k then [x] else []
  {
    assert (rows + [x])[..|rows|] == rows;
  }

  lemma {:induction false} FaithfulAdd<K(!new), X>(gs: seq<Group<K, X>>, rows: seq<X>, x: X, key: X -> K)
    requires Faithful(gs, rows, key)
    requires (gs != [] && gs[|gs| - 1].key == key(x)) || (NoGroup(gs, key(x)) && Filter(rows, key, key(x)) == [])
    ensures Faithful(AddRow(gs, key(x), x), rows + [x], key)
  {
    var all := AddRow(gs, key(x), x);
    forall i | 0 <= i < |all| ensures all[i].items == Filter(rows + [x], key, all[i].key) {
      FilterSnoc(rows, x, key, all[i].key);
      assert i < |all| - 1 ==> all[i] == gs[i];
    }
  }

  /** The key of the last row is that of the last group, or new. */
  lemma {:induction false} LastOrNew<K(!new), X>(rows: seq<X>, key: X -> K)
    requires Contiguous(rows, key) && rows != []
    ensures var init, k := rows[..|rows| - 1], key(rows[|rows| - 1]);
            var gs := Grouped(init, key);
            (gs != [] && gs[|gs| - 1].key == k) || (NoGroup(gs, k) && Filter(init, key, k) == [])
  {
    var n := |rows| - 1;
    if n > 0 {
      LastKey(rows[..n], key);
      assert rows[..n][n - 1] == rows[n - 1];
      if key(rows[n - 1]) != key(rows[n]) { NewKey(rows, key); }
    }
  }

  /** With contiguous keys the groups hold exactly the rows of their keys, in order. */
  lemma {:induction false} GroupsAreFilters<K(!new), X>(rows: seq<X>, key: X -> K)
    requires Contiguous(rows, key)
    ensures Faithful(Grouped(rows, key), rows, key)
  {
    if rows == [] {
    } else {
      var init, x := rows[..|rows| - 1], rows[|rows| - 1];
      ContiguousPrefix(rows, key);
      GroupsAreFilters(init, key);
      LastOrNew(rows, key);
      FaithfulAdd(Grouped(init, key), init, x, key);
      LastSplit(rows);
    }
  }

  lemma LastSplit<X>(xs: seq<X>)
    requires xs != []
    ensures xs[..|xs| - 1] + [xs[|xs| - 1]] == xs
  {
  }

  /** Every key read has a group. */
  lemma {:induction false} EveryKeyHasGroup<K, X>(rows: seq<X>, key: X -> K, at: nat) returns (i: nat)
    requires at < |rows|
    ensures i < |Grouped(rows, key)| && Grouped(rows, key)[i].key == key(rows[at])
  {
    if at == |rows| - 1 {
      i := |Grouped(rows, key)| - 1;
    } else {
      var init := rows[..|rows| - 1];
      i := EveryKeyHasGroup(init, key, at);
    }
  }

  // --- tables -------------------------------------------------------------------------------

  /** A mapped column: its name, DuckDB type and Firebird descriptor. */
  datatype Column<T, D> = Column(name: string, typ: T, desc: D)

  /** A column of a relation; `user` tells relations of the user from those of the system
      and the monitoring snapshots. */
  datatype FieldRow<T, D> = FieldRow(relation: string, column: Column<T, D>, isView: bool, user: bool)

  datatype TableSchema<T, D> = TableSchema(tableName: string, isView: bool, names: seq<string>, types: seq<T>, descs: seq<D>)

  function RelationOf<T, D>(r: FieldRow<T, D>): string { r.relation }

  function Names<T, D>(rows: seq<FieldRow<T, D>>): seq<string> {
    seq(|rows|, i requires 0 <= i < |rows| => rows[i].column.name)
  }

  function Types<T, D>(rows: seq<FieldRow<T, D>>): seq<T> {
    seq(|rows|, i requires 0 <= i < |rows| => rows[i].column.typ)
  }

  function Descs<T, D>(rows: seq<FieldRow<T, D>>): seq<D> {
    seq(|rows|, i requires 0 <= i < |rows| => rows[i].column.desc)
  }

  /** The schema a group of rows stands for; the first row says whether it is a view. */
  function SchemaOf<T, D>(g: Group<string, FieldRow<T, D>>): TableSchema<T, D> {
    TableSchema(g.key, g.items != [] && g.items[0].isView, Names(g.items), Types(g.items), Descs(g.items))
  }

  function Schemas<T, D>(gs: seq<Group<string, FieldRow<T, D>>>): seq<TableSchema<T, D>> {
    seq(|gs|, i requires 0 <= i < |gs| => SchemaOf(gs[i]))
  }

  /** Column k of the schema is that of row k: its name, its type and its descriptor. */
  ghost predicate HasColumns<T, D>(s: TableSchema<T, D>, own: seq<FieldRow<T, D>>) {
    && |s.names| == |s.types| == |s.descs| == |own|
    && forall k :: 0 <= k < |own| ==>
         s.names[k] == own[k].column.name && s.types[k] == own[k].column.typ && s.descs[k] == own[k].column.desc
  }

  /** The schema of the relation `name` with these rows; the first says whether it is a view. */
  ghost predicate IsSchema<T, D>(s: TableSchema<T, D>, name: string, own: seq<FieldRow<T, D>>) {
    own != [] && s.tableName == name && s.isView == own[0].isView && HasColumns(s, own)
  }

  function AppendColumn<T, D>(s: TableSchema<T, D>, c: Column<T, D>): TableSchema<T, D> {
    s.(names := s.names + [c.name], types := s.types + [c.typ], descs := s.descs + [c.desc])
  }

  lemma {:induction false} AppendToSchema<T, D>(k: string, items: seq<FieldRow<T, D>>, r: FieldRow<T, D>)
    ensures SchemaOf(Group(k, items + [r])) ==
            AppendColumn(if items == [] then TableSchema(k, r.isView, [], [], []) else SchemaOf(Group(k, items)), r.column)
  {
    var all := items + [r];
    assert Names(all) == Names(items) + [r.column.name];
    assert Types(all) == Types(items) + [r.column.typ];
    assert Descs(all) == Descs(items) + [r.column.desc];
    if items == [] { assert Names(items) == [] && Types(items) == [] && Descs(items) == []; }
  }

  lemma {:induction false} AppendToSchemas<T, D>(gs: seq<Group<string, FieldRow<T, D>>>, r: FieldRow<T, D>)
    requires NoneEmpty(gs)
    ensures var before := Schemas(gs);
            var started := if gs == [] || before[|gs| - 1].tableName != r.relation
                           then before + [TableSchema(r.relation, r.isView, [], [], [])] else before;
            Schemas(AddRow(gs, r.relation, r)) == started[..|started| - 1] + [AppendColumn(started[|started| - 1], r.column)]
  {
    if gs != [] && gs[|gs| - 1].key == r.relation {
      AppendToSchema(r.relation, gs[|gs| - 1].items, r);
    } else {
      AppendToSchema(r.relation, [], r);
      assert [] + [r] == [r];
    }
  }

  /** Groups the rows of the all-tables query by relation as they arrive. */
  method LoadAllTableSchemas<T, D>(rows: seq<FieldRow<T, D>>) returns (result: seq<TableSchema<T, D>>)
    ensures result == Schemas(Grouped(rows, RelationOf))
    ensures var gs := Grouped(rows, RelationOf);
            |result| == |gs| && forall i :: 0 <= i < |gs| ==> IsSchema(result[i], gs[i].key, gs[i].items)
  {
    result := [];
    assert rows[..0] == [] && Schemas(Grouped(rows[..0], RelationOf)) == [];
    for i := 0 to |rows|
      invariant result == Schemas(Grouped(rows[..i], RelationOf))
    {
      FlatIsRows(rows[..i], RelationOf);
      GroupedStep(rows, RelationOf, i);
      result := AddField(result, rows[i], Grouped(rows[..i], RelationOf));
    }
    assert rows[..|rows|] == rows;
    FlatIsRows(rows, RelationOf);
  }

  /** One round of the loop: a new table when the relation changes, then the column. */
  method AddField<T, D>(before: seq<TableSchema<T, D>>, r: FieldRow<T, D>, ghost gs: seq<Group<string, FieldRow<T, D>>>)
    returns (result: seq<TableSchema<T, D>>)
    requires NoneEmpty(gs) && before == Schemas(gs)
    ensures result == Schemas(AddRow(gs, r.relation, r))
  {
    AppendToSchemas(gs, r);
    result := before;
    if result == [] || result[|result| - 1].tableName != r.relation {
      result := result + [TableSchema(r.relation, r.isView, [], [], [])];
    }
    result := result[..|result| - 1] + [AppendColumn(result[|result| - 1], r.column)];
  }

  /** Every table of the one-query load has exactly the columns of its relation, each with
      its own type and descriptor, in order. */
  lemma {:induction false} TableSchemasExact<T, D>(rows: seq<FieldRow<T, D>>, i: nat)
    requires Contiguous(rows, RelationOf) && i < |Schemas(Grouped(rows, RelationOf))|
    ensures var s := Schemas(Grouped(rows, RelationOf))[i];
            var own := Filter(rows, RelationOf, s.tableName);
            && |s.names| == |s.types| == |s.descs| == |own| > 0
            && (forall k :: 0 <= k < |own| ==>
                  s.names[k] == own[k].column.name && s.types[k] == own[k].column.typ && s.descs[k] == own[k].column.desc)
            && s.isView == own[0].isView
  {
    GroupsAreFilters(rows, RelationOf);
    FlatIsRows(rows, RelationOf);
    var g := Grouped(rows, RelationOf)[i];
    assert g.items != [] && g.items == Filter(rows, RelationOf, g.key);
  }

  /** Every relation read has its table, and only one. */
  lemma {:induction false} EveryRelationLoaded<T, D>(rows: seq<FieldRow<T, D>>, at: nat) returns (i: nat)
    requires Contiguous(rows, RelationOf) && at < |rows|
    ensures var ss := Schemas(Grouped(rows, RelationOf));
            && i < |ss| && ss[i].tableName == rows[at].relation
            && (forall j :: 0 <= j < |ss| && ss[j].tableName == rows[at].relation ==> j == i)
  {
    i := EveryKeyHasGroup(rows, RelationOf, at);
    GroupsAreFilters(rows, RelationOf);
    var gs := Grouped(rows, RelationOf);
    forall j | 0 <= j < |gs| && j != i ensures gs[j].key != gs[i].key { }
  }

  /** An identifier in upper case. */
  function ToUpper(s: string): string { seq(|s|, i requires 0 <= i < |s| => UpperChar(s[i])) }

  /** What one per-table query returns: the columns of the relation whose name is the
      upper-cased argument; an error when there are none. */
  function TableColumns<T, D>(catalog: seq<FieldRow<T, D>>, name: string): Option<seq<FieldRow<T, D>>> {
    var found := Filter(catalog, RelationOf, ToUpper(name));
    if found == [] then None else Some(found)
  }

  method LoadTableSchema<T, D>(catalog: seq<FieldRow<T, D>>, name: string)
    returns (ok: bool, names: seq<string>, types: seq<T>, descs: seq<D>)
    ensures ok == TableColumns(catalog, name).Some?
    ensures ok ==> var found := TableColumns(catalog, name).value;
                   names == Names(found) && types == Types(found) && descs == Descs(found)
    ensures var own := Filter(catalog, RelationOf, ToUpper(name));
            && ok == (own != []) && |names| == |types| == |descs| == |own|
            && forall k :: 0 <= k < |own| ==>
                 names[k] == own[k].column.name && types[k] == own[k].column.typ && descs[k] == own[k].column.desc
  {
    var cursor := Filter(catalog, RelationOf, ToUpper(name));
    names, types, descs := [], [], [];
    for i := 0 to |cursor|
      invariant names == Names(cursor[..i]) && types == Types(cursor[..i]) && descs == Descs(cursor[..i])
    {
      assert cursor[..i + 1] == cursor[..i] + [cursor[i]];
      assert Names(cursor[..i + 1]) == names + [cursor[i].column.name];
      assert Types(cursor[..i + 1]) == types + [cursor[i].column.typ];
      assert Descs(cursor[..i + 1]) == descs + [cursor[i].column.desc];
      names := names + [cursor[i].column.name];
      types := types + [cursor[i].column.typ];
      descs := descs + [cursor[i].column.desc];
    }
    assert cursor[..|cursor|] == cursor;
    ok := names != [];
  }

  predicate IsUpper(name: string) { ToUpper(name) == name }

  /** The schema the per-table path makes for a relation, None when it skips it. */
  function FallbackEntry<T, D>(catalog: seq<FieldRow<T, D>>, name: string, isView: bool): Option<TableSchema<T, D>> {
    match TableColumns(catalog, name)
    case None => None
    case Some(found) => Some(TableSchema(name, isView, Names(found), Types(found), Descs(found)))
  }

  /** The per-table path gives the table asked for exactly the columns of the relation with
      the upper-cased name. */
  lemma FallbackColumns<T, D>(catalog: seq<FieldRow<T, D>>, name: string, isView: bool)
    ensures var own := Filter(catalog, RelationOf, ToUpper(name));
            match FallbackEntry(catalog, name, isView)
            case None => own == []
            case Some(s) => own != [] && s.tableName == name && s.isView == isView && HasColumns(s, own)
  {
    var own := Filter(catalog, RelationOf, ToUpper(name));
    assert |Names(own)| == |Types(own)| == |Descs(own)| == |own|;
  }

  // --- what the all-tables query leaves out -----------------------------------------------------

  /** The rows of the all-tables query: those of user relations. The per-table query has no
      such filter. */
  function Listed<T, D>(catalog: seq<FieldRow<T, D>>): seq<FieldRow<T, D>> {
    if catalog == [] then []
    else Listed(catalog[..|catalog| - 1]) + if catalog[|catalog| - 1].user then [catalog[|catalog| - 1]] else []
  }

  /** Being a user relation is a property of the relation. */
  ghost predicate Uniform<T, D>(catalog: seq<FieldRow<T, D>>) {
    forall i, j :: 0 <= i < |catalog| && 0 <= j < |catalog| && catalog[i].relation == catalog[j].relation ==> catalog[i].user == catalog[j].user
  }

  /** The catalog, with the columns of every relation together. */
  ghost predicate Catalog<T, D>(catalog: seq<FieldRow<T, D>>) { Contiguous(catalog, RelationOf) && Uniform(catalog) }

  lemma {:induction false} ListedFrom<T, D>(catalog: seq<FieldRow<T, D>>) returns (at: seq<nat>)
    ensures |at| == |Listed(catalog)|
    ensures forall i :: 0 <= i < |at| ==> at[i] < |catalog| && Listed(catalog)[i] == catalog[at[i]] && catalog[at[i]].user
    ensures forall i, j :: 0 <= i < j < |at| ==> at[i] < at[j]
  {
    if catalog == [] {
      at := [];
    } else {
      var init := catalog[..|catalog| - 1];
      var before := ListedFrom(init);
      at := before;
      if catalog[|catalog| - 1].user {
        at := before + [|catalog| - 1];
        assert Listed(catalog) == Listed(init) + [catalog[|catalog| - 1]];
      } else {
        assert Listed(catalog) == Listed(init);
      }
    }
  }

  lemma {:induction false} ListedContiguous<T, D>(catalog: seq<FieldRow<T, D>>)
    requires Contiguous(catalog, RelationOf)
    ensures Contiguous(Listed(catalog), RelationOf)
  {
    var at := ListedFrom(catalog);
    var rows := Listed(catalog);
    forall i, j, k | 0 <= i <= j <= k < |rows| && RelationOf(rows[i]) == RelationOf(rows[k]) ensures RelationOf(rows[j]) == RelationOf(rows[i]) {
      assert at[i] <= at[j] <= at[k];
      assert RelationOf(catalog[at[i]]) == RelationOf(catalog[at[k]]);
    }
  }

  /** Of a user relation every row is listed, of another none. */
  lemma {:induction false} ListedFilter<T, D>(catalog: seq<FieldRow<T, D>>, name: string, user: bool)
    requires forall i :: 0 <= i < |catalog| && catalog[i].relation == name ==> catalog[i].user == user
    ensures Filter(Listed(catalog), RelationOf, name) == if user then Filter(catalog, RelationOf, name) else []
  {
    if catalog == [] {
    } else {
      var init, x := catalog[..|catalog| - 1], catalog[|catalog| - 1];
      ListedFilter(init, name, user);
      if x.user {
        FilterSnoc(Listed(init), x, RelationOf, name);
      } else {
        assert Listed(catalog) == Listed(init);
      }
    }
  }

  /** A table of the one-query load has all columns of its relation. */
  lemma {:induction false} ListedGroup<T, D>(catalog: seq<FieldRow<T, D>>, i: nat)
    requires Catalog(catalog) && i < |Grouped(Listed(catalog), RelationOf)|
    ensures var g := Grouped(Listed(catalog), RelationOf)[i];
            g.items != [] && g.items == Filter(catalog, RelationOf, g.key)
  {
    var rows := Listed(catalog);
    var g := Grouped(rows, RelationOf)[i];
    ListedContiguous(catalog);
    GroupsAreFilters(rows, RelationOf);
    FlatIsRows(rows, RelationOf);
    var at := ListedFrom(catalog);
    var row := KeysFromRows(rows, RelationOf, i);
    assert catalog[at[row]].relation == g.key && catalog[at[row]].user;
    ListedFilter(catalog, g.key, true);
  }

  /** The one-query load refines the per-table load: the batch path's tables have distinct
      names and, where the name is in upper case, exactly the schema the per-table query
      would have given. */
  lemma {:induction false} BatchRefinesFallback<T, D>(catalog: seq<FieldRow<T, D>>, i: nat)
    requires Catalog(catalog) && i < |Grouped(Listed(catalog), RelationOf)|
    ensures var ss := Schemas(Grouped(Listed(catalog), RelationOf));
            var s := ss[i];
            && s.names != [] && |s.names| == |s.types| == |s.descs|
            && (IsUpper(s.tableName) ==> FallbackEntry(catalog, s.tableName, s.isView) == Some(s))
            && (forall j :: 0 <= j < |ss| && j != i ==> ss[j].tableName != s.tableName)
  {
    var gs := Grouped(Listed(catalog), RelationOf);
    ListedContiguous(catalog);
    GroupsAreFilters(Listed(catalog), RelationOf);
    ListedGroup(catalog, i);
    GroupEntry(catalog, gs[i]);
    forall j | 0 <= j < |gs| && j != i ensures Schemas(gs)[j].tableName != Schemas(gs)[i].tableName {
      assert gs[j].key != gs[i].key;
    }
  }

  lemma {:induction false} GroupEntry<T, D>(catalog: seq<FieldRow<T, D>>, g: Group<string, FieldRow<T, D>>)
    requires g.items != [] && g.items == Filter(catalog, RelationOf, g.key)
    ensures var s := SchemaOf(g);
            && s.names != [] && |s.names| == |s.types| == |s.descs|
            && (IsUpper(s.tableName) ==> FallbackEntry(catalog, s.tableName, s.isView) == Some(s))
  {
    assert |Names(g.items)| == |g.items|;
  }

  predicate SameColumns<T(==), D(==)>(a: TableSchema<T, D>, b: TableSchema<T, D>) {
    a.names == b.names && a.types == b.types && a.descs == b.descs
  }

  /** What the per-table query makes of any name in any catalog: nothing when no relation,
      of the user or of the system, has the upper-cased name, else the columns of the
      relation that has, under the name asked for. */
  lemma {:induction false} FallbackExact<T, D>(catalog: seq<FieldRow<T, D>>, name: string, isView: bool)
    requires Catalog(catalog)
    ensures var all := Schemas(Grouped(catalog, RelationOf));
            var found := FallbackEntry(catalog, name, isView);
            && (found == None <==> forall j :: 0 <= j < |all| ==> all[j].tableName != ToUpper(name))
            && (forall j :: 0 <= j < |all| && all[j].tableName == ToUpper(name) ==>
                  found == Some(all[j].(tableName := name, isView := isView)))
  {
    var gs := Grouped(catalog, RelationOf);
    GroupsAreFilters(catalog, RelationOf);
    FlatIsRows(catalog, RelationOf);
    if forall j :: 0 <= j < |gs| ==> gs[j].key != ToUpper(name) {
      NoGroupNoRows(catalog, ToUpper(name));
    }
    forall j | 0 <= j < |gs| && gs[j].key == ToUpper(name)
      ensures FallbackEntry(catalog, name, isView) == Some(Schemas(gs)[j].(tableName := name, isView := isView))
    {
      assert gs[j].items == Filter(catalog, RelationOf, ToUpper(name));
    }
  }

  lemma {:induction false} NoGroupNoRows<T, D>(catalog: seq<FieldRow<T, D>>, name: string)
    requires NoGroup(Grouped(catalog, RelationOf), name)
    ensures Filter(catalog, RelationOf, name) == []
  {
    forall at | 0 <= at < |catalog| ensures RelationOf(catalog[at]) != name {
      var i := EveryKeyHasGroup(catalog, RelationOf, at);
    }
    FilterNone(catalog, RelationOf, name);
  }

  /** For every user relation of every catalog: the two loads agree on it if and only if some
      relation, of the user or of the system, has its upper-cased name and the same columns.
      For a name in upper case that is the relation itself; for another name it is a matter
      of coincidence. */
  lemma {:induction false} FallbackAgreesExactly<T, D>(catalog: seq<FieldRow<T, D>>, i: nat)
    requires Catalog(catalog) && i < |Grouped(Listed(catalog), RelationOf)|
    ensures var all, s := Schemas(Grouped(catalog, RelationOf)), Schemas(Grouped(Listed(catalog), RelationOf))[i];
            && (FallbackEntry(catalog, s.tableName, s.isView) == Some(s) <==>
                exists j :: 0 <= j < |all| && all[j].tableName == ToUpper(s.tableName) && SameColumns(all[j], s))
            && ((forall j :: 0 <= j < |all| && all[j].tableName == ToUpper(s.tableName) ==> all[j].tableName == s.tableName) ==>
                (FallbackEntry(catalog, s.tableName, s.isView) == Some(s) <==> IsUpper(s.tableName)))
  {
    var s := Schemas(Grouped(Listed(catalog), RelationOf))[i];
    FallbackExact(catalog, s.tableName, s.isView);
    BatchRefinesFallback(catalog, i);
  }

  /** A relation created with a quoted lower-case name is in the batch load and missing
      from the per-table load. */
  lemma LowerCaseIsSkipped()
    ensures var catalog := [LOWER_T];
            |Grouped(Listed(catalog), RelationOf)| == 1 && FallbackEntry(catalog, "t", false) == None
  {
    var catalog := [LOWER_T];
    assert catalog[..0] == [] && Listed(catalog) == [] + [LOWER_T] == catalog;
    assert Grouped(catalog[..0], RelationOf) == [];
    assert ToUpper("t")[0] == 'T';
    forall j | 0 <= j < |catalog| ensures RelationOf(catalog[j]) != ToUpper("t") { }
    FilterNone(catalog, RelationOf, ToUpper("t"));
  }

  function UpperT(user: bool): FieldRow<int, int> { FieldRow("T", Column("A", 0, 0), false, user) }

  const LOWER_T := FieldRow("t", Column("b", 0, 0), false, true)

  lemma TwoGroups(user: bool)
    ensures Catalog([UpperT(user), LOWER_T])
    ensures Grouped([UpperT(user), LOWER_T], RelationOf) == [Group("T", [UpperT(user)]), Group("t", [LOWER_T])]
  {
    var catalog := [UpperT(user), LOWER_T];
    assert "T"[0] != "t"[0];
    assert catalog[..1] == [UpperT(user)] && [UpperT(user)][..0] == [];
    assert Grouped([UpperT(user)], RelationOf) == AddRow([], "T", UpperT(user)) == [Group("T", [UpperT(user)])];
    assert Grouped(catalog, RelationOf) == AddRow(Grouped([UpperT(user)], RelationOf), "t", LOWER_T);
  }

  lemma OneColumn(r: FieldRow<int, int>)
    ensures SchemaOf(Group(r.relation, [r])) == TableSchema(r.relation, r.isView, [r.column.name], [r.column.typ], [r.column.desc])
  {
    assert Names([r]) == [r.column.name] && Types([r]) == [r.column.typ] && Descs([r]) == [r.column.desc];
  }

  /** Beside a relation T, be it the user's or the system's, a relation created as "t" gets
      T's columns from the per-table load: a wrong schema, not a missing table. */
  lemma LowerCaseGetsOthersColumns(user: bool)
    ensures var catalog := [UpperT(user), LOWER_T];
            && Catalog(catalog)
            && Schemas(Grouped(catalog, RelationOf)) == [TableSchema("T", false, ["A"], [0], [0]), TableSchema("t", false, ["b"], [0], [0])]
            && Listed(catalog) == (if user then catalog else [LOWER_T])
            && FallbackEntry(catalog, "t", false) == Some(TableSchema("t", false, ["A"], [0], [0]))
  {
    var catalog := [UpperT(user), LOWER_T];
    TwoGroups(user);
    OneColumn(UpperT(user));
    OneColumn(LOWER_T);
    FallbackExact(catalog, "t", false);
    assert Schemas(Grouped(catalog, RelationOf))[0].tableName == ToUpper("t");
    assert catalog[..1] == [UpperT(user)] && [UpperT(user)][..0] == [];
    assert Listed([UpperT(user)]) == [] + if user then [UpperT(user)] else [];
  }

  // --- the two paths ---------------------------------------------------------------------------

  /** The per-table path: one query per relation found, skipping those that fail. */
  function FallbackSchemas<T, D>(catalog: seq<FieldRow<T, D>>, names: seq<(string, bool)>): seq<TableSchema<T, D>> {
    if names == [] then []
    else (match FallbackEntry(catalog, names[0].0, names[0].1) case None => [] case Some(s) => [s]) + FallbackSchemas(catalog, names[1..])
  }

  /** tables_.emplace under the upper-cased name: the first entry of a name stays. */
  function Register<T, D>(tables: map<string, TableSchema<T, D>>, ss: seq<TableSchema<T, D>>): map<string, TableSchema<T, D>>
    decreases |ss|
  {
    if ss == [] then tables
    else
      var name := ToUpper(ss[0].tableName);
      Register(if name in tables then tables else tables[name := ss[0]], ss[1..])
  }

  function UpperName<T, D>(s: TableSchema<T, D>): string { ToUpper(s.tableName) }

  /** Index of the first entry registered under `u`; |ss| when there is none. */
  function FirstAt<T, D>(ss: seq<TableSchema<T, D>>, u: string): (i: nat)
    ensures i <= |ss| && (i < |ss| ==> UpperName(ss[i]) == u)
    ensures forall j :: 0 <= j < i ==> UpperName(ss[j]) != u
  {
    if ss == [] || UpperName(ss[0]) == u then 0 else 1 + FirstAt(ss[1..], u)
  }

  /** What registering keeps: under every upper-cased name what was there before, else the
      first entry of that name, and nothing else. */
  lemma {:induction false} RegisterExact<T, D>(tables: map<string, TableSchema<T, D>>, ss: seq<TableSchema<T, D>>, u: string)
    ensures u in Register(tables, ss) <==> u in tables || FirstAt(ss, u) < |ss|
    ensures u in Register(tables, ss) ==> Register(tables, ss)[u] == if u in tables then tables[u] else ss[FirstAt(ss, u)]
    decreases |ss|
  {
    if ss == [] {
    } else {
      var name := UpperName(ss[0]);
      RegisterExact(if name in tables then tables else tables[name := ss[0]], ss[1..], u);
    }
  }

  /** The table itself is found under its upper-cased name. */
  ghost predicate Registered<T, D>(ss: seq<TableSchema<T, D>>, i: nat)
    requires i < |ss|
  {
    var tables := Register(map[], ss);
    UpperName(ss[i]) in tables && tables[UpperName(ss[i])] == ss[i]
  }

  ghost predicate DistinctNames<T, D>(ss: seq<TableSchema<T, D>>) {
    forall i, j :: 0 <= i < j < |ss| ==> ss[i].tableName != ss[j].tableName
  }

  ghost predicate DistinctUpperNames<T, D>(ss: seq<TableSchema<T, D>>) {
    forall i, j :: 0 <= i < j < |ss| ==> UpperName(ss[i]) != UpperName(ss[j])
  }

  /** Of tables whose names differ only in case the first stays and the others are lost;
      so every loaded table is registered if and only if the upper-cased names differ. */
  lemma {:induction false} FirstStays<T, D>(ss: seq<TableSchema<T, D>>)
    requires DistinctNames(ss)
    ensures forall i :: 0 <= i < |ss| ==> (Registered(ss, i) <==> FirstAt(ss, UpperName(ss[i])) == i)
    ensures (forall i :: 0 <= i < |ss| ==> Registered(ss, i)) <==> DistinctUpperNames(ss)
  {
    forall i | 0 <= i < |ss| ensures Registered(ss, i) <==> FirstAt(ss, UpperName(ss[i])) == i {
      RegisterExact(map[], ss, UpperName(ss[i]));
      var first := FirstAt(ss, UpperName(ss[i]));
      assert first <= i;
      if first < i { assert ss[first].tableName != ss[i].tableName; }
    }
    if forall i :: 0 <= i < |ss| ==> Registered(ss, i) {
      forall i, j | 0 <= i < j < |ss| ensures UpperName(ss[i]) != UpperName(ss[j]) {
        assert Registered(ss, j);
        assert FirstAt(ss, UpperName(ss[j])) == j;
      }
    }
  }

  /** On the batch path the tables have distinct names, so this is what is registered. */
  lemma {:induction false} BatchRegisters<T, D>(catalog: seq<FieldRow<T, D>>)
    requires Catalog(catalog)
    ensures var ss := Schemas(Grouped(Listed(catalog), RelationOf));
            && DistinctNames(ss)
            && (forall i :: 0 <= i < |ss| ==> (Registered(ss, i) <==> FirstAt(ss, UpperName(ss[i])) == i))
            && ((forall i :: 0 <= i < |ss| ==> Registered(ss, i)) <==> DistinctUpperNames(ss))
  {
    ListedContiguous(catalog);
    GroupsAreFilters(Listed(catalog), RelationOf);
    FirstStays(Schemas(Grouped(Listed(catalog), RelationOf)));
  }

  /** On the per-table path the relations found have distinct names, and so have the tables. */
  lemma {:induction false} FallbackRegisters<T, D>(catalog: seq<FieldRow<T, D>>, names: seq<(string, bool)>)
    requires forall i, j :: 0 <= i < j < |names| ==> names[i].0 != names[j].0
    ensures var ss := FallbackSchemas(catalog, names);
            && DistinctNames(ss)
            && (forall i :: 0 <= i < |ss| ==> (Registered(ss, i) <==> FirstAt(ss, UpperName(ss[i])) == i))
            && ((forall i :: 0 <= i < |ss| ==> Registered(ss, i)) <==> DistinctUpperNames(ss))
  {
    FallbackNames(catalog, names);
    FirstStays(FallbackSchemas(catalog, names));
  }

  lemma {:induction false} FallbackNames<T, D>(catalog: seq<FieldRow<T, D>>, names: seq<(string, bool)>)
    requires forall i, j :: 0 <= i < j < |names| ==> names[i].0 != names[j].0
    ensures DistinctNames(FallbackSchemas(catalog, names))
    ensures forall i :: 0 <= i < |FallbackSchemas(catalog, names)| ==>
              exists at :: 0 <= at < |names| && names[at].0 == FallbackSchemas(catalog, names)[i].tableName
  {
    if names == [] {
    } else {
      var rest := FallbackSchemas(catalog, names[1..]);
      forall i, j | 0 <= i < j < |names| - 1 ensures names[1..][i].0 != names[1..][j].0 {
        assert names[1..][i] == names[i + 1] && names[1..][j] == names[j + 1];
      }
      FallbackNames(catalog, names[1..]);
      forall i | 0 <= i < |rest| ensures exists at :: 1 <= at < |names| && names[at].0 == rest[i].tableName {
        var at :| 0 <= at < |names| - 1 && names[1..][at].0 == rest[i].tableName;
        assert names[at + 1].0 == rest[i].tableName;
      }
      match FallbackEntry(catalog, names[0].0, names[0].1)
      case None => assert FallbackSchemas(catalog, names) == rest;
      case Some(s) =>
        assert FallbackSchemas(catalog, names) == [s] + rest && s.tableName == names[0].0;
    }
  }

  class SchemaEntry<T, D> {
    var tables: map<string, TableSchema<T, D>>
    var loaded: bool

    constructor ()
      ensures Valid() && !loaded
    {
      tables, loaded := map[], false;
    }

    predicate Valid()
      reads this
    {
      !loaded ==> tables == map[]
    }

    method AddEntries(ss: seq<TableSchema<T, D>>)
      modifies this`tables
      ensures tables == Register(old(tables), ss)
    {
      assert ss[0..] == ss;
      for i := 0 to |ss|
        invariant Register(tables, ss[i..]) == Register(old(tables), ss)
      {
        assert ss[i..][0] == ss[i] && ss[i..][1..] == ss[i + 1..];
        var name := ToUpper(ss[i].tableName);
        if name !in tables { tables := tables[name := ss[i]]; }
      }
      assert ss[|ss|..] == [];
    }

    /** Loads the catalog once. `batch` is the answer to the all-tables query, None when it
        failed; `names` lists the relations with their view flags, None when that query
        failed too; `catalog` is what the per-table queries see. */
    method EnsureTablesLoaded(batch: Option<seq<FieldRow<T, D>>>, names: Option<seq<(string, bool)>>, catalog: seq<FieldRow<T, D>>)
      returns (ok: bool)
      requires Valid()
      modifies this
      ensures Valid() && ok == loaded
      ensures old(loaded) ==> ok && tables == old(tables)
      ensures !old(loaded) && batch.Some? ==> ok && tables == Register(map[], Schemas(Grouped(batch.value, RelationOf)))
      ensures !old(loaded) && batch.None? && names.None? ==> !ok
      ensures !old(loaded) && batch.None? && names.Some? ==>
                var found := Register(map[], FallbackSchemas(catalog, names.value));
                ok == (names.value == [] || found != map[]) && tables == found
    {
      if loaded { return true; }
      if batch.Some? {
        var ss := LoadAllTableSchemas(batch.value);
        AddEntries(ss);
      } else if names.None? {
        return false;
      } else {
        LoadEach(names.value, catalog);
        if names.value != [] && tables == map[] { return false; }
      }
      loaded := true;
      return true;
    }

    /** One query per relation. */
    method LoadEach(names: seq<(string, bool)>, catalog: seq<FieldRow<T, D>>)
      modifies this`tables
      ensures tables == Register(old(tables), FallbackSchemas(catalog, names))
    {
      assert names[0..] == names;
      for i := 0 to |names|
        invariant Register(tables, FallbackSchemas(catalog, names[i..])) == Register(old(tables), FallbackSchemas(catalog, names))
      {
        assert names[i..][0] == names[i] && names[i..][1..] == names[i + 1..];
        var ok, cols, types, descs := LoadTableSchema(catalog, names[i].0);
        ghost var rest := FallbackSchemas(catalog, names[i + 1..]);
        if ok {
          var s := TableSchema(names[i].0, names[i].1, cols, types, descs);
          assert ([s] + rest)[1..] == rest;
          var key := ToUpper(s.tableName);
          if key !in tables { tables := tables[key := s]; }
        } else {
          assert [] + rest == rest;
        }
      }
      assert names[|names|..] == [];
    }
  }

  /** The relations found that have readable columns. */
  function Readable<T, D>(catalog: seq<FieldRow<T, D>>, names: seq<(string, bool)>): seq<(string, bool)> {
    if names == [] then []
    else (if Filter(catalog, RelationOf, names[0].0) == [] then [] else [names[0]]) + Readable(catalog, names[1..])
  }

  function Heads<T, D>(gs: seq<Group<string, FieldRow<T, D>>>): seq<(string, bool)> {
    seq(|gs|, i requires 0 <= i < |gs| => (gs[i].key, SchemaOf(gs[i]).isView))
  }

  lemma {:induction false} SameSchemas<T, D>(catalog: seq<FieldRow<T, D>>, names: seq<(string, bool)>, gs: seq<Group<string, FieldRow<T, D>>>)
    requires forall i :: 0 <= i < |names| ==> IsUpper(names[i].0)
    requires forall i :: 0 <= i < |gs| ==> gs[i].items != [] && gs[i].items == Filter(catalog, RelationOf, gs[i].key)
    requires Readable(catalog, names) == Heads(gs)
    ensures FallbackSchemas(catalog, names) == Schemas(gs)
    decreases |names|
  {
    if names == [] {
      assert |Heads(gs)| == |gs|;
    } else if Filter(catalog, RelationOf, names[0].0) == [] {
      assert Readable(catalog, names) == Readable(catalog, names[1..]);
      SameSchemas(catalog, names[1..], gs);
      assert FallbackSchemas(catalog, names) == FallbackSchemas(catalog, names[1..]);
    } else {
      HeadsRest(catalog, names, gs);
      SameSchemas(catalog, names[1..], gs[1..]);
      assert FallbackSchemas(catalog, names) == [SchemaOf(gs[0])] + FallbackSchemas(catalog, names[1..]);
    }
  }

  lemma {:induction false} HeadsRest<T, D>(catalog: seq<FieldRow<T, D>>, names: seq<(string, bool)>, gs: seq<Group<string, FieldRow<T, D>>>)
    requires names != [] && Filter(catalog, RelationOf, names[0].0) != [] && Readable(catalog, names) == Heads(gs)
    ensures gs != [] && names[0] == (gs[0].key, SchemaOf(gs[0]).isView) && Readable(catalog, names[1..]) == Heads(gs[1..])
    ensures forall i :: 0 <= i < |gs[1..]| ==> gs[1..][i] == gs[i + 1]
    ensures Schemas(gs) == [SchemaOf(gs[0])] + Schemas(gs[1..])
  {
    var heads := Heads(gs);
    assert heads[0] == names[0] && heads[1..] == Readable(catalog, names[1..]);
    assert Heads(gs[1..]) == heads[1..];
  }

  /** When every name is in upper case and the relations are listed in the order of the
      all-tables query, both paths register the same tables. */
  lemma {:induction false} BothPathsAgree<T, D>(catalog: seq<FieldRow<T, D>>, names: seq<(string, bool)>)
    requires Catalog(catalog) && (forall i :: 0 <= i < |names| ==> IsUpper(names[i].0))
    requires Readable(catalog, names) == Heads(Grouped(Listed(catalog), RelationOf))
    ensures Register(map[], FallbackSchemas(catalog, names)) == Register(map[], Schemas(Grouped(Listed(catalog), RelationOf)))
  {
    var gs := Grouped(Listed(catalog), RelationOf);
    forall i | 0 <= i < |gs| ensures gs[i].items != [] && gs[i].items == Filter(catalog, RelationOf, gs[i].key) {
      ListedGroup(catalog, i);
    }
    SameSchemas(catalog, names, gs);
  }

  // --- constraints ----------------------------------------------------------------------------

  /** A row of the constraint queries: the key column, and for foreign keys the referenced
      table and column. */
  datatype KeyRow = KeyRow(relation: string, constraintName: string, primary: bool, column: string, pkTable: string, pkColumn: string)

  function KeyOf(r: KeyRow): (string, string) { (r.relation, r.constraintName) }

  datatype UniqueKey = UniqueKey(constraintName: string, isPrimary: bool, columns: seq<string>)
  datatype ForeignKey = ForeignKey(constraintName: string, pkTable: string, fkColumns: seq<string>, pkColumns: seq<string>)

  type KeyGroup = Group<(string, string), KeyRow>

  function KeyColumns(rows: seq<KeyRow>): seq<string> {
    seq(|rows|, i requires 0 <= i < |rows| => rows[i].column)
  }

  function PkColumns(rows: seq<KeyRow>): seq<string> {
    seq(|rows|, i requires 0 <= i < |rows| => rows[i].pkColumn)
  }

  function UniqueOf(g: KeyGroup): UniqueKey {
    UniqueKey(g.key.1, g.items != [] && g.items[0].primary, KeyColumns(g.items))
  }

  function ForeignOf(g: KeyGroup): ForeignKey {
    ForeignKey(g.key.1, if g.items == [] then "" else g.items[0].pkTable, KeyColumns(g.items), PkColumns(g.items))
  }

  /** The constraints of one relation, in order. */
  function Of<C>(gs: seq<KeyGroup>, rel: string, make: KeyGroup -> C): seq<C> {
    if gs == [] then []
    else Of(gs[..|gs| - 1], rel, make) + if gs[|gs| - 1].key.0 == rel then [make(gs[|gs| - 1])] else []
  }

  /** `out` lists, for every relation, the constraints of its groups. */
  ghost predicate Indexed<C>(out: map<string, seq<C>>, gs: seq<KeyGroup>, make: KeyGroup -> C) {
    && (forall rel: string :: rel in out ==> out[rel] == Of(gs, rel, make) && out[rel] != [])
    && (forall rel: string :: rel !in out ==> Of(gs, rel, make) == [])
  }

  lemma {:induction false} OfSnoc<C>(gs: seq<KeyGroup>, g: KeyGroup, rel: string, make: KeyGroup -> C)
    ensures Of(gs + [g], rel, make) == Of(gs, rel, make) + if g.key.0 == rel then [make(g)] else []
  {
    assert (gs + [g])[..|gs|] == gs;
  }

  function Push<C>(out: map<string, seq<C>>, rel: string, c: C): map<string, seq<C>> {
    out[rel := (if rel in out then out[rel] else []) + [c]]
  }

  /** Changing the last entry of `out[rel]` in place. */
  function SetLast<C>(out: map<string, seq<C>>, rel: string, c: C): map<string, seq<C>>
    requires rel in out && out[rel] != []
  {
    out[rel := out[rel][..|out[rel]| - 1] + [c]]
  }

  lemma {:induction false} IndexedPush<C>(out: map<string, seq<C>>, gs: seq<KeyGroup>, g: KeyGroup, make: KeyGroup -> C)
    requires Indexed(out, gs, make)
    ensures Indexed(Push(out, g.key.0, make(g)), gs + [g], make)
  {
    forall rel: string ensures Of(gs + [g], rel, make) == Of(gs, rel, make) + if g.key.0 == rel then [make(g)] else [] {
      OfSnoc(gs, g, rel, make);
    }
  }

  lemma {:induction false} IndexedSet<C>(out: map<string, seq<C>>, gs: seq<KeyGroup>, g: KeyGroup, h: KeyGroup, make: KeyGroup -> C)
    requires Indexed(out, gs + [g], make) && g.key == h.key
    ensures g.key.0 in out && out[g.key.0] != [] && out[g.key.0][|out[g.key.0]| - 1] == make(g)
    ensures Indexed(SetLast(out, g.key.0, make(h)), gs + [h], make)
  {
    OfSnoc(gs, g, g.key.0, make);
    forall rel: string
      ensures Of(gs + [g], rel, make) == Of(gs, rel, make) + if g.key.0 == rel then [make(g)] else []
      ensures Of(gs + [h], rel, make) == Of(gs, rel, make) + if h.key.0 == rel then [make(h)] else []
    {
      OfSnoc(gs, g, rel, make);
      OfSnoc(gs, h, rel, make);
    }
  }

  lemma {:induction false} AppendToUnique(k: (string, string), items: seq<KeyRow>, r: KeyRow)
    ensures UniqueOf(Group(k, items + [r])) ==
            var u := if items == [] then UniqueKey(k.1, r.primary, []) else UniqueOf(Group(k, items));
            u.(columns := u.columns + [r.column])
  {
    assert KeyColumns(items + [r]) == KeyColumns(items) + [r.column];
    if items == [] { assert KeyColumns(items) == []; }
  }

  lemma {:induction false} AppendToForeign(k: (string, string), items: seq<KeyRow>, r: KeyRow)
    ensures ForeignOf(Group(k, items + [r])) ==
            var f := if items == [] then ForeignKey(k.1, r.pkTable, [], []) else ForeignOf(Group(k, items));
            f.(fkColumns := f.fkColumns + [r.column], pkColumns := f.pkColumns + [r.pkColumn])
  {
    assert KeyColumns(items + [r]) == KeyColumns(items) + [r.column];
    assert PkColumns(items + [r]) == PkColumns(items) + [r.pkColumn];
    if items == [] { assert KeyColumns(items) == [] && PkColumns(items) == []; }
  }

  lemma {:induction false} PushThenSet<C>(out: map<string, seq<C>>, rel: string, c: C, d: C)
    ensures SetLast(Push(out, rel, c), rel, d) == Push(out, rel, d)
  {
    var had := if rel in out then out[rel] else [];
    assert (had + [c])[..|had|] == had;
  }

  predicate SameKey(gs: seq<KeyGroup>, r: KeyRow) { gs != [] && gs[|gs| - 1].key == KeyOf(r) }

  /** One round of the loop below; `isNew` tells that the key differs from the last row's. */
  method AddForeignRow(out0: map<string, seq<ForeignKey>>, r: KeyRow, isNew: bool, ghost gs: seq<KeyGroup>)
    returns (out: map<string, seq<ForeignKey>>)
    requires Indexed(out0, gs, ForeignOf) && NoneEmpty(gs) && isNew == !SameKey(gs, r)
    ensures Indexed(out, AddRow(gs, KeyOf(r), r), ForeignOf)
  {
    ghost var k := KeyOf(r);
    out := out0;
    if isNew {
      AppendToForeign(k, [], r);
      assert [] + [r] == [r];
      IndexedPush(out, gs, Group(k, [r]), ForeignOf);
      var c := ForeignKey(r.constraintName, r.pkTable, [], []);
      PushThenSet(out, r.relation, c, ForeignOf(Group(k, [r])));
      out := Push(out, r.relation, c);
    } else {
      ghost var g := gs[|gs| - 1];
      AppendToForeign(k, g.items, r);
      assert gs == gs[..|gs| - 1] + [g];
      IndexedSet(out, gs[..|gs| - 1], g, Group(k, g.items + [r]), ForeignOf);
    }
    var last := out[r.relation][|out[r.relation]| - 1];
    out := SetLast(out, r.relation, last.(fkColumns := last.fkColumns + [r.column], pkColumns := last.pkColumns + [r.pkColumn]));
  }

  method AddUniqueRow(out0: map<string, seq<UniqueKey>>, r: KeyRow, isNew: bool, ghost gs: seq<KeyGroup>)
    returns (out: map<string, seq<UniqueKey>>)
    requires Indexed(out0, gs, UniqueOf) && NoneEmpty(gs) && isNew == !SameKey(gs, r)
    ensures Indexed(out, AddRow(gs, KeyOf(r), r), UniqueOf)
  {
    ghost var k := KeyOf(r);
    out := out0;
    if isNew {
      AppendToUnique(k, [], r);
      assert [] + [r] == [r];
      IndexedPush(out, gs, Group(k, [r]), UniqueOf);
      var c := UniqueKey(r.constraintName, r.primary, []);
      PushThenSet(out, r.relation, c, UniqueOf(Group(k, [r])));
      out := Push(out, r.relation, c);
    } else {
      ghost var g := gs[|gs| - 1];
      AppendToUnique(k, g.items, r);
      assert gs == gs[..|gs| - 1] + [g];
      IndexedSet(out, gs[..|gs| - 1], g, Group(k, g.items + [r]), UniqueOf);
    }
    var last := out[r.relation][|out[r.relation]| - 1];
    out := SetLast(out, r.relation, last.(columns := last.columns + [r.column]));
  }

  /** The row read last has the key of the last group. */
  lemma {:induction false} KeyRead(rows: seq<KeyRow>, i: nat)
    requires i < |rows|
    ensures var gs := Grouped(rows[..i], KeyOf);
            && NoneEmpty(gs)
            && (SameKey(gs, rows[i]) <==> i > 0 && KeyOf(rows[i - 1]) == KeyOf(rows[i]))
            && Grouped(rows[..i + 1], KeyOf) == AddRow(gs, KeyOf(rows[i]), rows[i])
  {
    GroupedStep(rows, KeyOf, i);
    FlatIsRows(rows[..i], KeyOf);
    if i > 0 {
      LastKey(rows[..i], KeyOf);
      assert rows[..i][i - 1] == rows[i - 1];
    }
  }

  /** Groups foreign-key rows by relation and constraint; the two column lists of a key
      grow together. */
  method LoadForeignKeys(rows: seq<KeyRow>) returns (out: map<string, seq<ForeignKey>>)
    ensures Indexed(out, Grouped(rows, KeyOf), ForeignOf)
  {
    out := map[];
    var active, curRel, curCon := false, "", "";
    assert rows[..0] == [];
    for i := 0 to |rows|
      invariant Indexed(out, Grouped(rows[..i], KeyOf), ForeignOf)
      invariant active <==> i > 0
      invariant i > 0 ==> (curRel, curCon) == KeyOf(rows[i - 1])
    {
      var r := rows[i];
      KeyRead(rows, i);
      var isNew := !active || r.relation != curRel || r.constraintName != curCon;
      out := AddForeignRow(out, r, isNew, Grouped(rows[..i], KeyOf));
      active, curRel, curCon := true, r.relation, r.constraintName;
    }
    assert rows[..|rows|] == rows;
  }

  /** Groups PRIMARY KEY and UNIQUE rows. The loop has no test for its first row: it relies
      on that row's names differing from two empty strings, which names in the system tables
      always do; only a row of two empty names (None) would have no group to go to. */
  method LoadUniqueConstraints(rows: seq<KeyRow>) returns (r: Option<map<string, seq<UniqueKey>>>)
    ensures r == None <==> rows != [] && KeyOf(rows[0]) == ("", "")
    ensures r.Some? ==> Indexed(r.value, Grouped(rows, KeyOf), UniqueOf)
  {
    var out: map<string, seq<UniqueKey>> := map[];
    var curRel, curCon := "", "";
    if rows != [] && rows[0].relation == curRel && rows[0].constraintName == curCon { return None; }
    assert rows[..0] == [];
    for i := 0 to |rows|
      invariant Indexed(out, Grouped(rows[..i], KeyOf), UniqueOf)
      invariant (curRel, curCon) == if i > 0 then KeyOf(rows[i - 1]) else ("", "")
    {
      var x := rows[i];
      KeyRead(rows, i);
      var isNew := x.relation != curRel || x.constraintName != curCon;
      out := AddUniqueRow(out, x, isNew, Grouped(rows[..i], KeyOf));
      curRel, curCon := x.relation, x.constraintName;
    }
    assert rows[..|rows|] == rows;
    r := Some(out);
  }

  lemma {:induction false} OfFlat<C>(gs: seq<KeyGroup>, rel: string, make: KeyGroup -> C, i: nat) returns (at: nat)
    requires i < |Of(gs, rel, make)|
    ensures at < |gs| && gs[at].key.0 == rel && Of(gs, rel, make)[i] == make(gs[at])
  {
    var init := gs[..|gs| - 1];
    if i < |Of(init, rel, make)| {
      at := OfFlat(init, rel, make, i);
    } else {
      at := |gs| - 1;
    }
  }

  /** What the foreign keys of a relation are: each is one (relation, constraint) group, its
      foreign and referenced columns are parallel, and together they are exactly the rows
      of that constraint, in order. */
  lemma {:induction false} ForeignKeysExact(rows: seq<KeyRow>, out: map<string, seq<ForeignKey>>, rel: string, i: nat)
    requires Contiguous(rows, KeyOf) && Indexed(out, Grouped(rows, KeyOf), ForeignOf)
    requires rel in out && i < |out[rel]|
    ensures var f := out[rel][i];
            var own := Filter(rows, KeyOf, (rel, f.constraintName));
            && |f.fkColumns| == |f.pkColumns| == |own| > 0
            && (forall j :: 0 <= j < |own| ==> f.fkColumns[j] == own[j].column && f.pkColumns[j] == own[j].pkColumn)
            && f.pkTable == own[0].pkTable
  {
    GroupsAreFilters(rows, KeyOf);
    FlatIsRows(rows, KeyOf);
    var at := OfFlat(Grouped(rows, KeyOf), rel, ForeignOf, i);
    var g := Grouped(rows, KeyOf)[at];
    assert g.key == (rel, g.key.1) && g.items != [];
    assert g.items == Filter(rows, KeyOf, g.key);
  }

  /** The same for PRIMARY KEY and UNIQUE constraints. */
  lemma {:induction false} UniqueKeysExact(rows: seq<KeyRow>, out: map<string, seq<UniqueKey>>, rel: string, i: nat)
    requires Contiguous(rows, KeyOf) && Indexed(out, Grouped(rows, KeyOf), UniqueOf)
    requires rel in out && i < |out[rel]|
    ensures var u := out[rel][i];
            var own := Filter(rows, KeyOf, (rel, u.constraintName));
            && |u.columns| == |own| > 0
            && (forall j :: 0 <= j < |own| ==> u.columns[j] == own[j].column)
            && u.isPrimary == own[0].primary
  {
    GroupsAreFilters(rows, KeyOf);
    FlatIsRows(rows, KeyOf);
    var at := OfFlat(Grouped(rows, KeyOf), rel, UniqueOf, i);
    var g := Grouped(rows, KeyOf)[at];
    assert g.key == (rel, g.key.1) && g.items != [];
    assert g.items == Filter(rows, KeyOf, g.key);
  }

  /** Every key row is in the list of its relation. */
  lemma {:induction false} EveryConstraintListed<C>(rows: seq<KeyRow>, out: map<string, seq<C>>, make: KeyGroup -> C, at: nat)
    requires Indexed(out, Grouped(rows, KeyOf), make) && at < |rows|
    ensures rows[at].relation in out
    ensures exists g :: g in Grouped(rows, KeyOf) && g.key == KeyOf(rows[at]) && make(g) in out[rows[at].relation]
  {
    var i := EveryKeyHasGroup(rows, KeyOf, at);
    OfHas(Grouped(rows, KeyOf), rows[at].relation, make, i);
  }

  lemma {:induction false} OfHas<C>(gs: seq<KeyGroup>, rel: string, make: KeyGroup -> C, i: nat)
    requires i < |gs| && gs[i].key.0 == rel
    ensures make(gs[i]) in Of(gs, rel, make)
  {
    if i >= |gs| - 1 {
    } else {
      OfHas(gs[..|gs| - 1], rel, make, i);
    }
  }
}
