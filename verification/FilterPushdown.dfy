/** Pushed and residual table filters together mean what the original filters meant. */
module FilterPushdown {
  import opened Wrappers
  import opened Values
  import opened SqlSemantics
  import opened Columns
  import opened TableFilters
  import opened Conditions
  import opened QueryBuilder

  /** The value DuckDB applies a table filter to. */
  function EntryValue(t: Table, ids: seq<ColId>, e: Entry, row: Row): Option<Datum> {
    if e.projected < |ids| && ids[e.projected].Col? && ids[e.projected].n < |t.names|
    then View(t, ids[e.projected].n, row) else None
  }

  predicate Passes(t: Table, ids: seq<ColId>, e: Entry, row: Row, other: Oracle) {
    Sem(e.f, EntryValue(t, ids, e, row), other) == True
  }

  predicate PassesAll(t: Table, ids: seq<ColId>, es: seq<Entry>, row: Row, other: Oracle) {
    forall i :: 0 <= i < |es| ==> Passes(t, ids, es[i], row, other)
  }

  /** The filters reported as residual, which DuckDB applies above the scan. */
  predicate PassesResidual(t: Table, ids: seq<ColId>, es: seq<Entry>, row: Row, other: Oracle) {
    forall i :: 0 <= i < |es| && Classify(t, ids, es[i]).Residual? ==> Passes(t, ids, es[i], row, other)
  }

  predicate FaithfulEntries(es: seq<Entry>) {
    forall i :: 0 <= i < |es| ==> Faithful(es[i].f)
  }

  predicate CondsHold(cs: seq<Cond>, row: Row) {
    forall i :: 0 <= i < |cs| ==> Eval(CondSql(cs[i]), row) == True
  }

  lemma {:induction false} PushedMeaning(t: Table, ids: seq<ColId>, e: Entry, row: Row, other: Oracle)
    requires RowOk(t, row) && Faithful(e.f) && Classify(t, ids, e).Pushed?
    ensures Eval(FilterSql(Classify(t, ids, e).ref, e.f), row) == Sem(e.f, EntryValue(t, ids, e, row), other)
  {
    var c := ids[e.projected].n;
    RefView(t, c, row);
    FilterMeaning(RefOf(t, c), e.f, row, View(t, c, row), other);
  }

  lemma HoldCons(c: Cond, cs: seq<Cond>, row: Row)
    ensures CondsHold([c] + cs, row) <==> Eval(CondSql(c), row) == True && CondsHold(cs, row)
  {
    var all := [c] + cs;
    if CondsHold(all, row) {
      assert all[0] == c;
      forall i | 0 <= i < |cs| ensures Eval(CondSql(cs[i]), row) == True { assert all[i + 1] == cs[i]; }
    }
  }

  lemma {:induction false} PassesStep(t: Table, ids: seq<ColId>, es: seq<Entry>, row: Row, other: Oracle)
    requires es != []
    ensures PassesAll(t, ids, es, row, other) <==>
            Passes(t, ids, es[0], row, other) && PassesAll(t, ids, es[1..], row, other)
    ensures PassesResidual(t, ids, es, row, other) <==>
            (Classify(t, ids, es[0]).Residual? ==> Passes(t, ids, es[0], row, other)) && PassesResidual(t, ids, es[1..], row, other)
  {
    var rest := es[1..];
    if PassesAll(t, ids, es, row, other) {
      forall i | 0 <= i < |rest| ensures Passes(t, ids, rest[i], row, other) { assert rest[i] == es[i + 1]; }
    }
    if PassesResidual(t, ids, es, row, other) {
      forall i | 0 <= i < |rest| && Classify(t, ids, rest[i]).Residual? ensures Passes(t, ids, rest[i], row, other) {
        assert rest[i] == es[i + 1];
      }
    }
    if Passes(t, ids, es[0], row, other) && PassesAll(t, ids, rest, row, other) {
      forall i | 0 <= i < |es| ensures Passes(t, ids, es[i], row, other) { if i > 0 { assert es[i] == rest[i - 1]; } }
    }
    if (Classify(t, ids, es[0]).Residual? ==> Passes(t, ids, es[0], row, other)) && PassesResidual(t, ids, rest, row, other) {
      forall i | 0 <= i < |es| && Classify(t, ids, es[i]).Residual? ensures Passes(t, ids, es[i], row, other) {
        if i > 0 { assert es[i] == rest[i - 1]; }
      }
    }
  }

  /** For every set of table filters and every row, NULLs included: the row passes all
      filters iff it satisfies the pushed conditions and the residual filters. */
  lemma {:induction false} PushdownPreservesMeaning(t: Table, ids: seq<ColId>, es: seq<Entry>, row: Row, other: Oracle)
    requires RowOk(t, row) && FaithfulEntries(es)
    ensures PassesAll(t, ids, es, row, other) <==>
            CondsHold(FilterConds(t, ids, es), row) && PassesResidual(t, ids, es, row, other)
  {
    if es == [] {
    } else {
      PassesStep(t, ids, es, row, other);
      assert FaithfulEntries(es[1..]);
      PushdownPreservesMeaning(t, ids, es[1..], row, other);
      var rest := FilterConds(t, ids, es[1..]);
      match Classify(t, ids, es[0])
      case Pushed(ref) =>
        PushedMeaning(t, ids, es[0], row, other);
        HoldCons(FromFilter(ref, es[0].f), rest, row);
        assert FilterConds(t, ids, es) == [FromFilter(ref, es[0].f)] + rest;
      case Residual(_) =>
        assert FilterConds(t, ids, es) == rest;
    }
  }

  /** The WHERE clause selects exactly the rows that satisfy the pushed filters, the key
      range and the lifted predicates. */
  lemma {:induction false} WhereMeaning(q: Query, row: Row)
    ensures Selects(Intended(q).where, row) <==> CondsHold(PushedConds(q), row) && CondsHold(q.extra, row)
  {
    var all := AllConds(q);
    CondsTrue(all, row);
    CondsTrue(q.extra, row);
    if all != [] { MkAndMeaning(CondSqls(all), row); }
    if q.extra == [] {
      assert all == PushedConds(q);
    } else {
      MkAndMeaning(CondSqls(q.extra), row);
      HoldSnoc(PushedConds(q), Nested(q.extra), row);
    }
  }

  lemma HoldSnoc(cs: seq<Cond>, c: Cond, row: Row)
    ensures CondsHold(cs + [c], row) <==> CondsHold(cs, row) && Eval(CondSql(c), row) == True
  {
    var all := cs + [c];
    if CondsHold(all, row) {
      assert all[|cs|] == c;
      forall i | 0 <= i < |cs| ensures Eval(CondSql(cs[i]), row) == True { assert all[i] == cs[i]; }
    }
  }
}
