/** Which statements the server accepts: literals and patterns that are well formed, and
    parameters the client can write in the form the server asks for. */
module Acceptance {
  import opened Wrappers
  import opened Values
  import opened NoneCharset
  import opened SqlTokens
  import opened SqlGrammar
  import opened SqlSemantics
  import opened Columns
  import opened Binder
  import opened Emission
  import opened TableFilters
  import opened Conditions
  import opened QueryBuilder

  // --- the server's side -------------------------------------------------------------------

  /** Index of the column of that name; |names| when there is none. */
  function ColumnNamed(names: seq<string>, name: string): (c: nat)
    ensures if name in names then c < |names| && names[c] == name else c == |names|
  {
    if names == [] || names[0] == name then 0 else 1 + ColumnNamed(names[1..], name)
  }

  /** The type of an expression; that of a parameter is the type of what it is compared
      with. */
  function DescOf(t: Table, ref: Ref): ColumnDesc {
    match ref
    case AsText(_) => ColumnDesc(SQL_VARYING, 0, 0, -1)
    case Bare(n) =>
      var c := ColumnNamed(t.names, n);
      if c < |t.names| && c < |t.descs| then t.descs[c] else ColumnDesc(SQL_OTHER, 0, 0, -1)
  }

  /** A parameter that reaches the server unchanged. */
  predicate OperandCarried(t: Table, l: Operand, r: Operand) {
    r.Param? ==> l.Column? && Carried(DescOf(t, l.ref), r.v)
  }

  predicate OperandsCarried(t: Table, l: Operand, items: seq<Operand>) {
    forall i :: 0 <= i < |items| ==> OperandCarried(t, l, items[i])
  }

  predicate AllCarried(t: Table, p: Sql)
    decreases p
  {
    match p
    case Cmp(l, _, r) => OperandCarried(t, l, r)
    case In(l, _, items) => OperandsCarried(t, l, items)
    case Not(q) => AllCarried(t, q)
    case And(ps) => forall i :: 0 <= i < |ps| ==> AllCarried(t, ps[i])
    case Or(ps) => forall i :: 0 <= i < |ps| ==> AllCarried(t, ps[i])
    case _ => true
  }

  /** Running the statement fails, or would compare with other constants than those asked
      for. */
  predicate Refused(t: Table, s: Statement) {
    s.where.Some? && (Rejected(s.where.value) || !AllCarried(t, s.where.value))
  }

  // --- DuckDB's side ---------------------------------------------------------------------------

  /** The DuckDB type of a compared expression. */
  function TypeOfRef(t: Table, ref: Ref): TypeId { TypeOfColumn(DescOf(t, ref), t.mode, t.widen) }

  /** DuckDB compares a column with constants of the column's type. */
  predicate Typed(t: Table, ref: Ref, v: Value) { v.NullOf? || WellTyped(TypeOfRef(t, ref), v) }

  /** What a caller can see before the scan: the constant is NULL, or it is representable
      and the column is regular. */
  predicate Takes(t: Table, ref: Ref, v: Value) {
    v.NullOf? || (Regular(DescOf(t, ref), t.widen) && Representable(v))
  }

  /** What the parameters of a condition are compared with. */
  function ComparedWith(c: Cond): Ref {
    match c
    case FromFilter(ref, _) => ref
    case FromExtra(NotInExtra(ref, _)) => ref
    case _ => Bare("")
  }

  ghost predicate CondTyped(t: Table, c: Cond) {
    forall v :: v in CondBinds(c) ==> Typed(t, ComparedWith(c), v)
  }

  ghost predicate CondTaken(t: Table, c: Cond) {
    forall v :: v in CondBinds(c) ==> Takes(t, ComparedWith(c), v)
  }

  ghost predicate AllTyped(t: Table, cs: seq<Cond>) { forall i :: 0 <= i < |cs| ==> CondTyped(t, cs[i]) }
  ghost predicate AllTaken(t: Table, cs: seq<Cond>) { forall i :: 0 <= i < |cs| ==> CondTaken(t, cs[i]) }

  // --- one condition -------------------------------------------------------------------------------

  ghost predicate ValuesCarried(t: Table, ref: Ref, vs: seq<Value>) {
    forall v :: v in vs ==> Carried(DescOf(t, ref), v)
  }

  lemma CarriedCat(t: Table, ref: Ref, vs: seq<Value>, ws: seq<Value>)
    ensures ValuesCarried(t, ref, vs + ws) <==> ValuesCarried(t, ref, vs) && ValuesCarried(t, ref, ws)
  {
    if ValuesCarried(t, ref, vs + ws) {
      forall v | v in vs ensures Carried(DescOf(t, ref), v) { assert v in vs + ws; }
      forall v | v in ws ensures Carried(DescOf(t, ref), v) { assert v in vs + ws; }
    }
  }

  lemma OperandsCons(t: Table, l: Operand, o: Operand, rest: seq<Operand>)
    ensures OperandsCarried(t, l, [o] + rest) <==> OperandCarried(t, l, o) && OperandsCarried(t, l, rest)
  {
    var all := [o] + rest;
    if OperandsCarried(t, l, all) {
      assert all[0] == o;
      forall i | 0 <= i < |rest| ensures OperandCarried(t, l, rest[i]) { assert all[i + 1] == rest[i]; }
    }
  }

  lemma {:induction false} ListCarried(t: Table, ref: Ref, vs: seq<Value>)
    requires AllPrintable(vs)
    ensures OperandsCarried(t, Column(ref), ValueOperands(vs)) <==> ValuesCarried(t, ref, ListBinds(vs))
  {
    if vs == [] {
    } else {
      ListCarried(t, ref, vs[1..]);
      CarriedCat(t, ref, ValueBinds(vs[0]), ListBinds(vs[1..]));
      OperandsCons(t, Column(ref), ValueOperand(vs[0]), ValueOperands(vs[1..]));
      assert OperandCarried(t, Column(ref), ValueOperand(vs[0])) <==> ValuesCarried(t, ref, ValueBinds(vs[0]));
    }
  }

  ghost predicate EachCarried(t: Table, ps: seq<Sql>) {
    forall i :: 0 <= i < |ps| ==> AllCarried(t, ps[i])
  }

  lemma EachCarriedCons(t: Table, p: Sql, ps: seq<Sql>)
    ensures EachCarried(t, [p] + ps) <==> AllCarried(t, p) && EachCarried(t, ps)
  {
    var all := [p] + ps;
    if EachCarried(t, all) {
      assert all[0] == p;
      forall i | 0 <= i < |ps| ensures AllCarried(t, ps[i]) { assert all[i + 1] == ps[i]; }
    }
  }

  lemma JoinedCarried(t: Table, ps: seq<Sql>)
    ensures AllCarried(t, MkAnd(ps)) <==> EachCarried(t, ps)
    ensures AllCarried(t, MkOr(ps)) <==> EachCarried(t, ps)
  {
  }

  /** A translated filter is carried exactly when all its parameters are. */
  lemma {:induction false} FilterCarried(t: Table, ref: Ref, f: Filter)
    requires Translatable(f)
    ensures AllCarried(t, FilterSql(ref, f)) <==> ValuesCarried(t, ref, Binds(f))
    decreases f, 1
  {
    match f
    case AllOf(fs) => ChildrenCarried(t, ref, fs); JoinedCarried(t, FilterSqls(ref, fs));
    case AnyOf(fs) => ChildrenCarried(t, ref, fs); JoinedCarried(t, FilterSqls(ref, fs));
    case Optional(child) => FilterCarried(t, ref, child.value);
    case OneOf(vs) => ListCarried(t, ref, vs);
    case Constant(_, v) => assert Binds(f) == ValueBinds(v);
    case _ =>
  }

  lemma {:induction false} ChildrenCarried(t: Table, ref: Ref, fs: seq<Filter>)
    requires AllTranslatable(fs)
    ensures EachCarried(t, FilterSqls(ref, fs)) <==> ValuesCarried(t, ref, AllBinds(fs))
    decreases fs, 0
  {
    if fs == [] {
    } else {
      FilterCarried(t, ref, fs[0]);
      ChildrenCarried(t, ref, fs[1..]);
      CarriedCat(t, ref, Binds(fs[0]), AllBinds(fs[1..]));
      EachCarriedCons(t, FilterSql(ref, fs[0]), FilterSqls(ref, fs[1..]));
    }
  }

  lemma ExtraCarried(t: Table, e: Extra)
    requires ValidExtra(e)
    ensures AllCarried(t, ExtraSql(e)) <==> ValuesCarried(t, ComparedWith(FromExtra(e)), ExtraBinds(e))
  {
    match e
    case InExtra(_, w, items) => CharsOperandsAt(w, items);
    case NotInExtra(ref, vs) => BindableList(vs); ListCarried(t, ref, vs);
    case _ =>
  }

  lemma CondCarried(t: Table, c: Cond)
    requires ValidCond(c) && !c.Nested?
    ensures AllCarried(t, CondSql(c)) <==> ValuesCarried(t, ComparedWith(c), CondBinds(c))
  {
    match c
    case KeyBound(_, _, _) =>
    case FromFilter(ref, f) => FilterCarried(t, ref, f);
    case FromExtra(e) => ExtraCarried(t, e);
  }

  /** A bound constant of the right type is carried exactly when its column takes it. */
  lemma TakenExactly(t: Table, ref: Ref, v: Value)
    requires Typed(t, ref, v) && IsBindableType(TypeOf(v))
    ensures Carried(DescOf(t, ref), v) <==> Takes(t, ref, v)
  {
    if !v.NullOf? { CarriedExactly(DescOf(t, ref), t.mode, t.widen, v); }
  }

  ghost predicate Bindable(vs: seq<Value>) { forall v :: v in vs ==> IsBindableType(TypeOf(v)) }

  lemma {:induction false} ListBindable(vs: seq<Value>)
    ensures Bindable(ListBinds(vs))
  {
    if vs == [] {
    } else {
      ListBindable(vs[1..]);
    }
  }

  /** Only constants of bindable types become parameters. */
  lemma {:induction false} FilterBindable(f: Filter)
    ensures Bindable(Binds(f))
    decreases f, 1
  {
    match f
    case AllOf(fs) => ChildrenBindable(fs);
    case AnyOf(fs) => ChildrenBindable(fs);
    case Optional(Some(c)) => FilterBindable(c);
    case OneOf(vs) => ListBindable(vs);
    case _ =>
  }

  lemma {:induction false} ChildrenBindable(fs: seq<Filter>)
    ensures Bindable(AllBinds(fs))
    decreases fs, 0
  {
    if fs == [] {
    } else {
      FilterBindable(fs[0]);
      ChildrenBindable(fs[1..]);
    }
  }

  lemma CondBindable(c: Cond)
    requires !c.Nested?
    ensures Bindable(CondBinds(c))
  {
    match c
    case FromFilter(_, f) => FilterBindable(f);
    case FromExtra(NotInExtra(_, vs)) => ListBindable(vs);
    case _ =>
  }

  /** A condition is carried exactly when its column takes its constants. */
  lemma CondExactly(t: Table, c: Cond)
    requires ValidCond(c) && !c.Nested? && CondTyped(t, c)
    ensures AllCarried(t, CondSql(c)) <==> CondTaken(t, c)
  {
    CondCarried(t, c);
    CondBindable(c);
    forall v | v in CondBinds(c) ensures Carried(DescOf(t, ComparedWith(c)), v) <==> Takes(t, ComparedWith(c), v) {
      TakenExactly(t, ComparedWith(c), v);
    }
  }

  // --- a whole statement ------------------------------------------------------------------------------

  ghost predicate Flat(cs: seq<Cond>) { forall i :: 0 <= i < |cs| ==> ValidCond(cs[i]) && !cs[i].Nested? }

  ghost predicate CondsCarried(t: Table, cs: seq<Cond>) { forall i :: 0 <= i < |cs| ==> AllCarried(t, CondSql(cs[i])) }

  lemma CondsExactly(t: Table, cs: seq<Cond>)
    requires Flat(cs) && AllTyped(t, cs)
    ensures CondsCarried(t, cs) <==> AllTaken(t, cs)
  {
    forall i | 0 <= i < |cs| ensures AllCarried(t, CondSql(cs[i])) <==> CondTaken(t, cs[i]) { CondExactly(t, cs[i]); }
  }

  lemma ConjunctionCarried(t: Table, cs: seq<Cond>)
    ensures AllCarried(t, MkAnd(CondSqls(cs))) <==> CondsCarried(t, cs)
  {
    CondSqlsAt(cs);
    JoinedCarried(t, CondSqls(cs));
  }

  lemma CarriedSnoc(t: Table, cs: seq<Cond>, c: Cond)
    ensures CondsCarried(t, cs + [c]) <==> CondsCarried(t, cs) && AllCarried(t, CondSql(c))
  {
    var all := cs + [c];
    if CondsCarried(t, all) {
      assert all[|cs|] == c;
      forall i | 0 <= i < |cs| ensures AllCarried(t, CondSql(cs[i])) { assert all[i] == cs[i]; }
    }
  }

  lemma QueryCarried(q: Query)
    ensures (Intended(q).where.Some? ==> AllCarried(q.t, Intended(q).where.value)) <==>
            CondsCarried(q.t, PushedConds(q)) && CondsCarried(q.t, q.extra)
  {
    ConjunctionCarried(q.t, AllConds(q));
    if q.extra == [] {
      assert AllConds(q) == PushedConds(q);
    } else {
      CarriedSnoc(q.t, PushedConds(q), Nested(q.extra));
      ConjunctionCarried(q.t, q.extra);
      assert CondSql(Nested(q.extra)) == MkAnd(CondSqls(q.extra));
    }
  }

  // --- literals and patterns -----------------------------------------------------------------------------

  ghost predicate AllAccepted(cs: seq<Cond>) {
    forall i :: 0 <= i < |cs| ==> !Rejected(CondSql(cs[i]))
  }

  lemma AndAccepted(ps: seq<Sql>)
    requires forall i :: 0 <= i < |ps| ==> !Rejected(ps[i])
    ensures !Rejected(MkAnd(ps))
  {
  }

  lemma {:induction false} ConjunctionAccepted(cs: seq<Cond>)
    requires AllAccepted(cs)
    ensures !Rejected(MkAnd(CondSqls(cs)))
  {
    CondSqlsAt(cs);
    AndAccepted(CondSqls(cs));
  }

  lemma {:induction false} FiltersAccepted(t: Table, ids: seq<ColId>, es: seq<Entry>)
    ensures AllAccepted(FilterConds(t, ids, es)) && Flat(FilterConds(t, ids, es))
  {
    if es == [] {
    } else {
      FiltersAccepted(t, ids, es[1..]);
      var here, rest := EntryConds(t, ids, es[0]), FilterConds(t, ids, es[1..]);
      match Classify(t, ids, es[0])
      case Pushed(ref) =>
        FilterAccepted(ref, es[0].f);
        assert here + rest == [FromFilter(ref, es[0].f)] + rest;
      case Residual(_) =>
        assert here + rest == rest;
    }
  }

  lemma AllCondsAccepted(q: Query)
    requires AllAccepted(PushedConds(q)) && AllAccepted(q.extra)
    ensures AllAccepted(AllConds(q))
  {
    ConjunctionAccepted(q.extra);
    assert q.extra != [] ==> CondSql(Nested(q.extra)) == MkAnd(CondSqls(q.extra));
  }

  /** A query whose literals and patterns are well formed is refused exactly when some column
      does not take a constant that is bound for it. */
  lemma AcceptedExactly(q: Query)
    requires AllAccepted(q.extra) && Flat(q.extra) && AllTyped(q.t, PushedConds(q)) && AllTyped(q.t, q.extra)
    ensures !Refused(q.t, Intended(q)) <==> AllTaken(q.t, PushedConds(q)) && AllTaken(q.t, q.extra)
  {
    FiltersAccepted(q.t, q.ids, q.entries);
    AllCondsAccepted(q);
    ConjunctionAccepted(AllConds(q));
    QueryCarried(q);
    CondsExactly(q.t, PushedConds(q));
    CondsExactly(q.t, q.extra);
  }

  // --- every comparison the client can encode is pushed ------------------------------------------------------

  /** A comparison with a constant of the column's type, on a column that is not gated: it is
      pushed if the constant reaches the server as a parameter; and if the column takes the
      constant, only then or when it is printed as a literal. */
  lemma PushedExactly(t: Table, ids: seq<ColId>, e: Entry)
    requires e.projected < |ids| && ids[e.projected].Col? && ids[e.projected].n < |t.names|
    requires var c := ids[e.projected].n; !Gated(t, c) && ColumnNamed(t.names, t.names[c]) == c
    requires e.f.Constant? && HasText(e.f.op) && Typed(t, RefOf(t, ids[e.projected].n), e.f.v)
    ensures var ref := RefOf(t, ids[e.projected].n);
            && (Carried(DescOf(t, ref), e.f.v) ==> Classify(t, ids, e) == Pushed(ref))
            && (Takes(t, ref, e.f.v) ==>
                  (Classify(t, ids, e) == Pushed(ref) <==> Carried(DescOf(t, ref), e.f.v) || e.f.v.Decimal?))
  {
    var ref, v := RefOf(t, ids[e.projected].n), e.f.v;
    if IsBindableType(TypeOf(v)) {
      TakenExactly(t, ref, v);
    } else if v.Val? {
      NotCarried(t, ids[e.projected].n, v);
    }
  }

  /** What is neither bound nor printed the client could not encode either. */
  lemma NotCarried(t: Table, c: nat, v: Value)
    requires c < |t.names| && !Gated(t, c) && ColumnNamed(t.names, t.names[c]) == c
    requires v.Val? && WellTyped(TypeOfRef(t, RefOf(t, c)), v) && !IsBindableType(TypeOf(v))
    ensures !Carried(DescOf(t, RefOf(t, c)), v)
  {
  }

  // --- columns that do not take their constants -------------------------------------------------------------

  /** SELECT c FROM T with `c = v`. */
  function OneFilter(d: ColumnDesc, v: Value): Query {
    Query(Table("T", ["c"], [d], STRICT, false), [Col(0)], [Entry(0, Filter.Constant(Eq, v))], [], None)
  }

  lemma OneFilterConds(d: ColumnDesc, v: Value)
    requires Printable(v) && !IsDecfloatType(d.sqltype)
    ensures PushedConds(OneFilter(d, v)) == [FromFilter(Bare("c"), Filter.Constant(Eq, v))]
    ensures DescOf(OneFilter(d, v).t, Bare("c")) == d
  {
    var q := OneFilter(d, v);
    assert Classify(q.t, q.ids, q.entries[0]) == Pushed(Bare("c"));
    assert q.entries[1..] == [] && FilterConds(q.t, q.ids, []) == [];
  }

  /** A filter on a text BLOB is pushed, and so is one on an integer column whose scale makes
      it a DOUBLE: of the first the client cannot write the parameter, of the second it
      writes another number. */
  lemma IrregularRefused()
    ensures Refused(OneFilter(TEXT_BLOB, TEXT_X).t, Intended(OneFilter(TEXT_BLOB, TEXT_X)))
    ensures Refused(OneFilter(DEEP_SCALE, HALF).t, Intended(OneFilter(DEEP_SCALE, HALF)))
  {
    IrregularTypes();
    IrregularCase(TEXT_BLOB, TEXT_X);
    IrregularCase(DEEP_SCALE, HALF);
  }

  /** What the client makes of the two parameters: no buffer, and zero. */
  lemma IrregularInputs()
    ensures Encode(TEXT_BLOB, TEXT_X) == Refusal && Encode(DEEP_SCALE, HALF) == Data(Whole(0))
  {
  }

  lemma IrregularTypes()
    ensures WellTyped(TypeOfColumn(TEXT_BLOB, STRICT, false), TEXT_X) && !Regular(TEXT_BLOB, false)
    ensures WellTyped(TypeOfColumn(DEEP_SCALE, STRICT, false), HALF) && !Regular(DEEP_SCALE, false)
  {
  }

  const TEXT_BLOB := ColumnDesc(SQL_BLOB, 1, 0, 4)
  const DEEP_SCALE := ColumnDesc(SQL_LONG, 1, -12, -1)
  const TEXT_X := Val(VARCHAR, Text("x"))
  const HALF := Val(DOUBLE, Approx(0.5))

  lemma IrregularCase(d: ColumnDesc, v: Value)
    requires WellTyped(TypeOfColumn(d, STRICT, false), v) && v.Val? && IsBindableType(TypeOf(v))
    requires !Regular(d, false) && !IsDecfloatType(d.sqltype)
    ensures Refused(OneFilter(d, v).t, Intended(OneFilter(d, v)))
  {
    var q := OneFilter(d, v);
    var c := FromFilter(Bare("c"), Filter.Constant(Eq, v));
    OneFilterConds(d, v);
    assert CondBinds(c) == [v];
    assert v in CondBinds(c) && !CondTaken(q.t, c);
    AcceptedExactly(q);
  }
}
