/** Lifted predicates mean what the filters they replace meant. */
module ComplexMeaning {
  import opened Wrappers
  import opened Values
  import opened Utf8
  import opened NoneCharset
  import opened LikePatterns
  import opened SqlSemantics
  import opened Columns
  import opened TableFilters
  import opened Conditions
  import opened QueryBuilder
  import opened ComplexFilters

  /** The environment shows DuckDB's view of the row in every resolvable column. */
  ghost predicate Agrees(c: Context, row: Row, env: Env) {
    forall i :: 0 <= i && Resolve(c, i).Some? ==> env(i) == View(c.t, Resolve(c, i).value, row)
  }

  /** The lifted predicates whose text means the same to both engines: LIKE patterns
      without a backslash (see LikePatterns.BackslashFreeCondition) and NOT IN lists
      that the bind path does not change (see Values.BindExactCondition). */
  predicate LiftFaithful(x: Extra) {
    match x
    case LikeExtra(_, p) => BACKSLASH !in p
    case NotInExtra(_, vs) => forall i :: 0 <= i < |vs| ==> BindExact(Eq, vs[i])
    case _ => true
  }

  // --- LIKE ------------------------------------------------------------------------------

  lemma LikeMeaning(x: Option<Datum>, p: string)
    requires BACKSLASH !in p
    ensures EvalLike(x, p, BACKSLASH) == PlainLike(x, Some(Text(p)))
  {
    match x
    case Some(Text(s)) =>
      PlainWellFormed(p, BACKSLASH);
      PlainAgrees(s, p, BACKSLASH);
    case _ =>
  }

  lemma LikeLift(c: Context, e: Expr, row: Row, env: Env, other: Unknowns)
    requires TryLikePrefix(e).Some? && DecideLike(c, TryLikePrefix(e).value.0, TryLikePrefix(e).value.1).Lift?
    requires LiftFaithful(DecideLike(c, TryLikePrefix(e).value.0, TryLikePrefix(e).value.1).e)
    requires RowOk(c.t, row) && Agrees(c, row, env)
    ensures Evaluate(e, env, other) ==
            OfTri(Eval(ExtraSql(DecideLike(c, TryLikePrefix(e).value.0, TryLikePrefix(e).value.1).e), row))
  {
    var (i, p) := TryLikePrefix(e).value;
    RefView(c.t, Resolve(c, i).value, row);
    LikeMeaning(env(i), p);
    assert Evaluate(e.args[0], env, other) == env(i);
    assert Evaluate(e.args[1], env, other) == Some(Text(p));
  }

  // --- equality and IN on NONE text -----------------------------------------------------------

  /** The stored bytes equal the encoded literal exactly when the transcoded text equals
      the literal; NULL is unknown on both sides. */
  lemma {:induction false} TextEqual(t: Table, n: nat, x: Option<Datum>, literal: string)
    requires n < |t.descs| && IsNoneCharVarchar(t.descs[n]) && SingleByte(t.mode)
    requires ValueOk(t, n, x) && EncodeLiteral(t.mode, literal).Some?
    ensures Compare(Eq, x, Some(Text(EncodeLiteral(t.mode, literal).value))) == Compare(Eq, Transcoded(t, n, x), Some(Text(literal)))
    ensures Compare(Eq, Transcoded(t, n, x), Some(Text(literal))) == Compare(Eq, Some(Text(literal)), Transcoded(t, n, x))
  {
    if x.Some? {
      var s, b := x.value.bytes, EncodeLiteral(t.mode, literal).value;
      assert ByteString(s);
      PushedEqualityExact(t.mode, s, literal);
      ByteOrderZero(s, b);
      ByteOrderZero(Transcode(t.mode, s), literal);
      ByteOrderZero(literal, Transcode(t.mode, s));
    }
  }

  lemma {:induction false} TextMember(t: Table, n: nat, x: Option<Datum>, literals: seq<string>, w: string, row: Row)
    requires n < |t.descs| && IsNoneCharVarchar(t.descs[n]) && SingleByte(t.mode)
    requires ValueOk(t, n, x) && EncodeLiterals(t.mode, literals).Some?
    ensures MemberOf(x, EvalOperands(CharsOperands(w, EncodeLiterals(t.mode, literals).value), row)) ==
            MemberOf(Transcoded(t, n, x), Texts(literals))
  {
    if literals == [] {
    } else {
      var bytes := EncodeLiterals(t.mode, literals).value;
      TextEqual(t, n, x, literals[0]);
      TextMember(t, n, x, literals[1..], w, row);
      assert bytes[0] == EncodeLiteral(t.mode, literals[0]).value && bytes[1..] == EncodeLiterals(t.mode, literals[1..]).value;
      CharsFirst(w, bytes, row);
      MemberFirst(x, Some(Text(bytes[0])), EvalOperands(CharsOperands(w, bytes[1..]), row));
      MemberFirst(Transcoded(t, n, x), Some(Text(literals[0])), Texts(literals[1..]));
    }
  }

  lemma CharsFirst(w: string, bytes: seq<string>, row: Row)
    requires bytes != []
    ensures EvalOperands(CharsOperands(w, bytes), row) == [Some(Text(bytes[0]))] + EvalOperands(CharsOperands(w, bytes[1..]), row)
  {
  }

  lemma MemberFirst(x: Option<Datum>, y: Option<Datum>, ys: seq<Option<Datum>>)
    ensures MemberOf(x, [y] + ys) == Compare(Eq, x, y).Or(MemberOf(x, ys))
  {
    assert ([y] + ys)[1..] == ys;
  }

  function Texts(ss: seq<string>): seq<Option<Datum>> {
    if ss == [] then [] else [Some(Text(ss[0]))] + Texts(ss[1..])
  }

  lemma {:induction false} TextsOf(es: seq<Expr>, env: Env, other: Unknowns)
    requires TextConstants(es).Some?
    ensures EvaluateAll(es, env, other) == Texts(TextConstants(es).value)
  {
    if es == [] {
    } else {
      TextsOf(es[1..], env, other);
      var ss := TextConstants(es).value;
      assert ss[1..] == TextConstants(es[1..]).value;
    }
  }

  /** A column the NONE pushdown applies to is shown transcoded and referred to bare. */
  lemma NoneColumn(t: Table, n: nat, row: Row)
    requires n < |t.descs| && n < |t.names| && IsNoneCharVarchar(t.descs[n]) && RowOk(t, row)
    ensures EvalRef(RefOf(t, n), row) == Stored(row, t.names[n])
    ensures View(t, n, row) == Transcoded(t, n, Stored(row, t.names[n]))
    ensures ValueOk(t, n, Stored(row, t.names[n]))
  {
  }

  lemma {:induction false} InLift(c: Context, e: Expr, row: Row, env: Env, other: Unknowns)
    requires TryInList(e).Some? && DecideText(c, TryInList(e).value.0, TryInList(e).value.1, true).Lift?
    requires RowOk(c.t, row) && Agrees(c, row, env)
    ensures Evaluate(e, env, other) ==
            OfTri(Eval(ExtraSql(DecideText(c, TryInList(e).value.0, TryInList(e).value.1, true).e), row))
  {
    var (i, literals) := TryInList(e).value;
    var n := Resolve(c, i).value;
    NoneColumn(c.t, n, row);
    TextsOf(e.operands[1..], env, other);
    TextMember(c.t, n, Stored(row, c.t.names[n]), literals, Introducer(c.t.mode), row);
    assert Evaluate(e.operands[0], env, other) == env(i);
  }

  lemma {:induction false} EqualLift(c: Context, e: Expr, row: Row, env: Env, other: Unknowns)
    requires TryEquality(e).Some? && DecideText(c, TryEquality(e).value.0, [TryEquality(e).value.1], false).Lift?
    requires RowOk(c.t, row) && Agrees(c, row, env)
    ensures Evaluate(e, env, other) ==
            OfTri(Eval(ExtraSql(DecideText(c, TryEquality(e).value.0, [TryEquality(e).value.1], false).e), row))
  {
    var (i, literal) := TryEquality(e).value;
    var n := Resolve(c, i).value;
    NoneColumn(c.t, n, row);
    TextEqual(c.t, n, Stored(row, c.t.names[n]), literal);
    assert EncodeLiterals(c.t.mode, [literal]).value[0] == EncodeLiteral(c.t.mode, literal).value;
  }

  // --- NOT IN and NOT bool ----------------------------------------------------------------------

  lemma {:induction false} ConstantsOf(es: seq<Expr>, env: Env, other: Unknowns)
    requires BindableConstants(es).Some?
    ensures EvaluateAll(es, env, other) == Payloads(BindableConstants(es).value)
  {
    if es == [] {
    } else {
      ConstantsOf(es[1..], env, other);
      var vs := BindableConstants(es).value;
      assert vs[1..] == BindableConstants(es[1..]).value;
    }
  }

  lemma NotInLift(c: Context, e: Expr, row: Row, env: Env, other: Unknowns)
    requires TryNotIn(e).Some? && DecideNotIn(c, TryNotIn(e).value.0, TryNotIn(e).value.1).Lift?
    requires LiftFaithful(DecideNotIn(c, TryNotIn(e).value.0, TryNotIn(e).value.1).e)
    requires RowOk(c.t, row) && Agrees(c, row, env)
    ensures Evaluate(e, env, other) ==
            OfTri(Eval(ExtraSql(DecideNotIn(c, TryNotIn(e).value.0, TryNotIn(e).value.1).e), row))
  {
    var (i, vs) := TryNotIn(e).value;
    RefView(c.t, Resolve(c, i).value, row);
    ConstantsOf(e.operands[1..], env, other);
    BindableConstantsForm(e.operands[1..]);
    BindableList(vs);
    ListMeaning(env(i), vs, row);
    assert Evaluate(e.operands[0], env, other) == env(i);
  }

  lemma NotBoolLift(c: Context, e: Expr, row: Row, env: Env, other: Unknowns)
    requires TryNotBool(e).Some? && DecideNotBool(c, TryNotBool(e).value).Lift?
    requires Agrees(c, row, env)
    ensures Evaluate(e, env, other) == OfTri(Eval(ExtraSql(DecideNotBool(c, TryNotBool(e).value).e), row))
  {
    var i := TryNotBool(e).value;
    assert Evaluate(e.operands[0], env, other) == env(i);
  }

  // --- the loop as a whole --------------------------------------------------------------------------

  /** A lifted predicate has, on every row, the truth value of the filter it replaces. */
  lemma LiftMeaning(c: Context, e: Expr, row: Row, env: Env, other: Unknowns)
    requires Decide(c, e).Lift? && LiftFaithful(Decide(c, e).e)
    requires RowOk(c.t, row) && Agrees(c, row, env)
    ensures Evaluate(e, env, other) == OfTri(Eval(ExtraSql(Decide(c, e).e), row))
  {
    if TryLikePrefix(e).Some? { LikeLift(c, e, row, env, other); }
    else if TryInList(e).Some? { InLift(c, e, row, env, other); }
    else if TryEquality(e).Some? { EqualLift(c, e, row, env, other); }
    else if TryNotIn(e).Some? { NotInLift(c, e, row, env, other); }
    else { NotBoolLift(c, e, row, env, other); }
  }

  predicate KeepsAll(es: seq<Expr>, env: Env, other: Unknowns) {
    forall i :: 0 <= i < |es| ==> Keeps(es[i], env, other)
  }

  predicate ExtrasHold(xs: seq<Extra>, row: Row) {
    forall i :: 0 <= i < |xs| ==> Eval(ExtraSql(xs[i]), row) == True
  }

  predicate AllLiftFaithful(xs: seq<Extra>) {
    forall i :: 0 <= i < |xs| ==> LiftFaithful(xs[i])
  }

  lemma KeepsCons(e: Expr, es: seq<Expr>, env: Env, other: Unknowns)
    ensures KeepsAll([e] + es, env, other) <==> Keeps(e, env, other) && KeepsAll(es, env, other)
  {
    var all := [e] + es;
    if KeepsAll(all, env, other) {
      assert all[0] == e;
      forall i | 0 <= i < |es| ensures Keeps(es[i], env, other) { assert all[i + 1] == es[i]; }
    }
  }

  lemma {:induction false} ExtrasCons(x: Extra, xs: seq<Extra>, row: Row)
    ensures ExtrasHold([x] + xs, row) <==> Eval(ExtraSql(x), row) == True && ExtrasHold(xs, row)
    ensures AllLiftFaithful([x] + xs) <==> LiftFaithful(x) && AllLiftFaithful(xs)
  {
    var all := [x] + xs;
    if ExtrasHold(all, row) {
      assert all[0] == x;
      forall i | 0 <= i < |xs| ensures Eval(ExtraSql(xs[i]), row) == True { assert all[i + 1] == xs[i]; }
    }
    ExtrasFirst(x, xs);
  }

  lemma {:induction false} ExtrasFirst(x: Extra, xs: seq<Extra>)
    ensures AllLiftFaithful([x] + xs) <==> LiftFaithful(x) && AllLiftFaithful(xs)
  {
    var all := [x] + xs;
    if AllLiftFaithful(all) {
      assert all[0] == x;
      forall i | 0 <= i < |xs| ensures LiftFaithful(xs[i]) { assert all[i + 1] == xs[i]; }
    }
  }

  /** The in-place loop preserves meaning: on every row the conjunction of the planner's
      filters equals that of the filters left and of the lifted predicates, and every
      filter is either left or lifted. */
  lemma {:induction false} HookPreservesMeaning(c: Context, es: seq<Expr>, row: Row, env: Env, other: Unknowns)
    requires RowOk(c.t, row) && Agrees(c, row, env) && AllLiftFaithful(Lifted(c, es))
    ensures KeepsAll(es, env, other) <==> KeepsAll(Left(c, es), env, other) && ExtrasHold(Lifted(c, es), row)
    ensures |Left(c, es)| + |Lifted(c, es)| == |es|
  {
    if es == [] {
    } else {
      var rest := es[1..];
      assert es == [es[0]] + rest;
      KeepsCons(es[0], rest, env, other);
      match Decide(c, es[0])
      case Lift(x) =>
        ExtrasCons(x, Lifted(c, rest), row);
        assert Lifted(c, es) == [x] + Lifted(c, rest) && Left(c, es) == Left(c, rest);
        HookPreservesMeaning(c, rest, row, env, other);
        LiftMeaning(c, es[0], row, env, other);
      case _ =>
        KeepsCons(es[0], Left(c, rest), env, other);
        assert Lifted(c, es) == Lifted(c, rest) && Left(c, es) == [es[0]] + Left(c, rest);
        HookPreservesMeaning(c, rest, row, env, other);
    }
  }

  /** `at` says where in `es` the elements of `left` come from, in increasing order. */
  ghost predicate From<E>(left: seq<E>, es: seq<E>, at: seq<nat>) {
    && |at| == |left|
    && (forall j :: 0 <= j < |at| ==> at[j] < |es| && left[j] == es[at[j]])
    && (forall j, k :: 0 <= j < k < |at| ==> at[j] < at[k])
  }

  function Shifted(at: seq<nat>): seq<nat> {
    seq(|at|, i requires 0 <= i < |at| => at[i] + 1)
  }

  lemma FromRest<E>(left: seq<E>, es: seq<E>, at: seq<nat>)
    requires es != [] && From(left, es[1..], at)
    ensures From(left, es, Shifted(at))
  {
    var up := Shifted(at);
    forall j | 0 <= j < |at| ensures up[j] < |es| && left[j] == es[up[j]] { assert es[1..][at[j]] == es[at[j] + 1]; }
  }

  lemma FromFirst<E>(left: seq<E>, es: seq<E>, at: seq<nat>)
    requires es != [] && From(left, es, at) && (forall j :: 0 <= j < |at| ==> at[j] > 0)
    ensures From([es[0]] + left, es, [0] + at)
  {
    var all, up := [es[0]] + left, [0] + at;
    forall j | 0 <= j < |up| ensures up[j] < |es| && all[j] == es[up[j]] { assert j > 0 ==> all[j] == left[j - 1]; }
  }

  lemma FromAll<E>(left: seq<E>, es: seq<E>, at: seq<nat>)
    requires From(left, es, at)
    ensures forall j :: 0 <= j < |at| ==> es[at[j]] in left
  {
    forall j | 0 <= j < |at| ensures es[at[j]] in left { assert left[j] == es[at[j]]; }
  }

  lemma {:induction false} LeftUnlifted(c: Context, es: seq<Expr>)
    ensures forall e :: e in Left(c, es) ==> !Decide(c, e).Lift?
  {
    if es == [] {
    } else {
      LeftUnlifted(c, es[1..]);
    }
  }

  /** The filters left are the unlifted ones, in their original order: position `j` of
      the result is position `Origin(j)` of the input, and origins increase. */
  lemma {:induction false} LeftInOrder(c: Context, es: seq<Expr>) returns (origin: seq<nat>)
    ensures From(Left(c, es), es, origin)
    ensures forall j :: 0 <= j < |origin| ==> !Decide(c, es[origin[j]]).Lift?
  {
    if es == [] {
      origin := [];
    } else {
      var tail := LeftInOrder(c, es[1..]);
      FromRest(Left(c, es[1..]), es, tail);
      origin := Shifted(tail);
      if Decide(c, es[0]).Lift? {
        assert Left(c, es) == Left(c, es[1..]);
      } else {
        FromFirst(Left(c, es[1..]), es, origin);
        origin := [0] + origin;
      }
    }
    LeftUnlifted(c, es);
    FromAll(Left(c, es), es, origin);
  }

  // --- which expressions are lifted -------------------------------------------------------------------

  /** The expression is column n of the table. */
  predicate Refers(c: Context, e: Expr, n: nat) {
    e.ColumnRef? && e.col < |c.ids| && c.ids[e.col] == Col(n) && n < |c.t.names|
  }

  predicate IsTextConstant(e: Expr) { e.Constant? && e.v.Val? && e.v.typ == VARCHAR && e.v.datum.Text? }

  predicate BindableConstant(e: Expr) { e.Constant? && !e.v.NullOf? && IsBindableType(TypeOf(e.v)) }

  /** `column LIKE 'p...'` whose pattern does not start with a wildcard. */
  predicate LikeShape(c: Context, e: Expr, n: nat) {
    && e.Function? && e.name == "~~" && |e.args| == 2 && Refers(c, e.args[0], n)
    && IsTextConstant(e.args[1]) && e.args[1].v.datum.bytes != "" && e.args[1].v.datum.bytes[0] !in {'%', '_'}
  }

  /** `column = 'text'`, either way round. */
  predicate EqualShape(c: Context, e: Expr, n: nat) {
    && e.Comparison? && e.op == Eq
    && ((Refers(c, e.l, n) && IsTextConstant(e.r)) || (IsTextConstant(e.l) && Refers(c, e.r, n)))
  }

  predicate ListShape(c: Context, e: Expr, n: nat) { e.Operator? && |e.operands| >= 2 && Refers(c, e.operands[0], n) }

  predicate InShape(c: Context, e: Expr, n: nat) {
    ListShape(c, e, n) && e.kind == InOp && forall k :: 1 <= k < |e.operands| ==> IsTextConstant(e.operands[k])
  }

  predicate NotInShape(c: Context, e: Expr, n: nat) {
    ListShape(c, e, n) && e.kind == NotInOp && forall k :: 1 <= k < |e.operands| ==> BindableConstant(e.operands[k])
  }

  /** NOT of a BOOLEAN column. */
  predicate NotShape(c: Context, e: Expr, n: nat) {
    e.Operator? && e.kind == NotOp && |e.operands| == 1 && Refers(c, e.operands[0], n) && e.operands[0].boolean
  }

  /** The text constants of an equality or an IN list. */
  function TextsCompared(e: Expr): seq<Expr>
    requires e.Comparison? || (e.Operator? && e.operands != [])
  {
    if e.Operator? then e.operands[1..] else if e.l.ColumnRef? then [e.r] else [e.l]
  }

  predicate AllEncode(mode: NoneEncoding, es: seq<Expr>)
    requires SingleByte(mode)
  {
    forall k :: 0 <= k < |es| ==> IsTextConstant(es[k]) && EncodeLiteral(mode, es[k].v.datum.bytes).Some?
  }

  /** none_pushdown is on for a single-byte character set, and the column is known. */
  predicate Comparing(c: Context, n: nat) {
    c.pushNone && (c.t.mode == WIN1252 || c.t.mode == ISO_8859_1) && n < |c.t.descs|
  }

  /** CHAR or VARCHAR of character set NONE. */
  predicate NoneText(c: Context, n: nat)
    requires n < |c.t.descs|
  {
    c.t.descs[n].charset == 0 && c.t.descs[n].sqltype in {SQL_TEXT, SQL_VARYING}
  }

  predicate IsDecfloat(c: Context, n: nat) { n < |c.t.descs| && c.t.descs[n].sqltype in {SQL_DEC16, SQL_DEC34} }

  /** What is lifted: the comparison means the same on the stored bytes. */
  predicate Liftable(c: Context, e: Expr, n: nat) {
    || (LikeShape(c, e, n) && !Gated(c.t, n))
    || ((EqualShape(c, e, n) || InShape(c, e, n)) && Comparing(c, n) && NoneText(c, n) && AllEncode(c.t.mode, TextsCompared(e)))
    || (NotInShape(c, e, n) && !Gated(c.t, n))
    || (NotShape(c, e, n) && !IsDecfloat(c, n))
  }

  /** What is left to DuckDB with the reason that the column is text of character set NONE. */
  predicate ReportedGated(c: Context, e: Expr, n: nat) {
    || (LikeShape(c, e, n) && Gated(c.t, n))
    || ((EqualShape(c, e, n) || InShape(c, e, n)) && Comparing(c, n) &&
        if NoneText(c, n) then !AllEncode(c.t.mode, TextsCompared(e)) else Gated(c.t, n))
    || (NotInShape(c, e, n) && Gated(c.t, n))
  }

  lemma {:induction false} TextConstantsExactly(es: seq<Expr>)
    ensures TextConstants(es).Some? <==> forall k :: 0 <= k < |es| ==> IsTextConstant(es[k])
    ensures TextConstants(es).Some? ==> |TextConstants(es).value| == |es|
    ensures TextConstants(es).Some? ==>
              forall k :: 0 <= k < |es| ==> IsTextConstant(es[k]) && TextConstants(es).value[k] == es[k].v.datum.bytes
  {
    if es == [] {
    } else {
      TextConstantsExactly(es[1..]);
      if forall k :: 0 <= k < |es| ==> IsTextConstant(es[k]) {
        forall k | 0 <= k < |es| - 1 ensures IsTextConstant(es[1..][k]) { assert es[1..][k] == es[k + 1]; }
      }
    }
  }

  lemma {:induction false} EncodeLiteralsExactly(mode: NoneEncoding, ss: seq<string>)
    requires SingleByte(mode)
    ensures EncodeLiterals(mode, ss).Some? <==> forall k :: 0 <= k < |ss| ==> EncodeLiteral(mode, ss[k]).Some?
  {
    if ss == [] {
    } else {
      EncodeLiteralsExactly(mode, ss[1..]);
      if forall k :: 0 <= k < |ss| ==> EncodeLiteral(mode, ss[k]).Some? {
        forall k | 0 <= k < |ss| - 1 ensures EncodeLiteral(mode, ss[1..][k]).Some? { assert ss[1..][k] == ss[k + 1]; }
      }
    }
  }

  lemma {:induction false} BindableConstantsExactly(es: seq<Expr>)
    ensures BindableConstants(es).Some? <==> forall k :: 0 <= k < |es| ==> BindableConstant(es[k])
  {
    if es == [] {
    } else {
      BindableConstantsExactly(es[1..]);
      if forall k :: 0 <= k < |es| ==> BindableConstant(es[k]) {
        forall k | 0 <= k < |es| - 1 ensures BindableConstant(es[1..][k]) { assert es[1..][k] == es[k + 1]; }
      }
    }
  }

  /** The decision for text, once the column is known. */
  lemma TextDecided(c: Context, projected: nat, literals: seq<string>, isIn: bool, n: nat, es: seq<Expr>)
    requires Resolve(c, projected) == Some(n) && (!isIn ==> |literals| == 1)
    requires |es| == |literals| && forall k :: 0 <= k < |es| ==> IsTextConstant(es[k]) && es[k].v.datum.bytes == literals[k]
    ensures DecideText(c, projected, literals, isIn).Lift? <==> Comparing(c, n) && NoneText(c, n) && AllEncode(c.t.mode, es)
    ensures DecideText(c, projected, literals, isIn) == KeepGated <==>
              Comparing(c, n) && if NoneText(c, n) then !AllEncode(c.t.mode, es) else Gated(c.t, n)
  {
    if Comparing(c, n) { EncodeLiteralsExactly(c.t.mode, literals); }
  }

  /** The decision on an expression says what its shape says. */
  ghost predicate Decided(c: Context, e: Expr, n: nat) {
    (Decide(c, e).Lift? <==> Liftable(c, e, n)) && (Decide(c, e) == KeepGated <==> ReportedGated(c, e, n))
  }

  lemma {:induction false} ListDecided(c: Context, e: Expr, n: nat)
    requires ListShape(c, e, n)
    ensures Decided(c, e, n)
  {
    var rest := e.operands[1..];
    TextConstantsExactly(rest);
    BindableConstantsExactly(rest);
    assert forall k :: 0 <= k < |rest| ==> rest[k] == e.operands[k + 1];
    assert forall k :: 1 <= k < |e.operands| ==> e.operands[k] == rest[k - 1];
    if e.kind == InOp && TextConstants(rest).Some? { TextDecided(c, e.operands[0].col, TextConstants(rest).value, true, n, rest); }
  }

  lemma EqualDecided(c: Context, e: Expr, n: nat)
    requires EqualShape(c, e, n)
    ensures Decided(c, e, n)
  {
    TextDecided(c, TryEquality(e).value.0, [TryEquality(e).value.1], false, n, TextsCompared(e));
  }

  lemma ShapeDecided(c: Context, e: Expr, n: nat)
    requires LikeShape(c, e, n) || EqualShape(c, e, n) || ListShape(c, e, n) || NotShape(c, e, n)
    ensures Decided(c, e, n)
  {
    if ListShape(c, e, n) { ListDecided(c, e, n); }
    if EqualShape(c, e, n) { EqualDecided(c, e, n); }
  }

  /** Exactly the expressions of these shapes are lifted or reported; everything else is left
      to DuckDB. */
  lemma {:induction false} DecidedExactly(c: Context, e: Expr)
    ensures Decide(c, e).Lift? <==> exists n :: Liftable(c, e, n)
    ensures Decide(c, e) == KeepGated <==> exists n :: ReportedGated(c, e, n)
  {
    if Decide(c, e) != Keep {
      var n := Resolve(c, ComparedColumn(e).value).value;
      ShapeDecided(c, e, n);
    }
    if n :| Liftable(c, e, n) { ShapeDecided(c, e, n); }
    if n :| ReportedGated(c, e, n) { ShapeDecided(c, e, n); }
  }

  // --- the lifted predicates are accepted --------------------------------------------------------------

  /** The introducer names the character set the literal was encoded in. */
  lemma IntroducerDenotes(mode: NoneEncoding, literal: string)
    requires SingleByte(mode) && EncodeLiteral(mode, literal).Some?
    ensures DecodeAll(literal).Some? && DenotedText(Introducer(mode), EncodeLiteral(mode, literal).value) == DecodeAll(literal)
  {
    EncodedDenotes(mode, literal);
    IntroducersDiffer();
  }

  lemma IntroducersDiffer()
    ensures Introducer(ISO_8859_1) !in ["", "_UTF8", "_WIN1252"] && Introducer(WIN1252) !in ["", "_UTF8"]
  {
    assert Introducer(ISO_8859_1)[1] != "_UTF8"[1] && Introducer(ISO_8859_1)[1] != "_WIN1252"[1];
    assert Introducer(WIN1252)[1] != "_UTF8"[1];
  }

  /** Each literal denotes, in the character set it is marked with, the text of the DuckDB
      constant it came from. */
  predicate Denotes(w: string, bytes: seq<string>, literals: seq<string>) {
    && |bytes| == |literals|
    && forall k :: 0 <= k < |bytes| ==> DecodeAll(literals[k]).Some? && DenotedText(w, bytes[k]) == DecodeAll(literals[k])
  }

  lemma {:induction false} LiteralsDenote(mode: NoneEncoding, literals: seq<string>)
    requires SingleByte(mode) && EncodeLiterals(mode, literals).Some?
    ensures Denotes(Introducer(mode), EncodeLiterals(mode, literals).value, literals)
  {
    if literals == [] {
    } else {
      LiteralsDenote(mode, literals[1..]);
      IntroducerDenotes(mode, literals[0]);
    }
  }

  /** What is written for `=` and IN on NONE text: literals that denote the constants of the
      expression they were lifted from. */
  lemma LiftedLiterals(c: Context, e: Expr)
    requires Decide(c, e).Lift?
    ensures match Decide(c, e).e
            case EqualExtra(_, w, b) => TryEquality(e).Some? && Denotes(w, [b], [TryEquality(e).value.1])
            case InExtra(_, w, bytes) => TryInList(e).Some? && Denotes(w, bytes, TryInList(e).value.1)
            case _ => true
  {
    if TryLikePrefix(e).Some? {
    } else if TryInList(e).Some? {
      LiteralsDenote(c.t.mode, TryInList(e).value.1);
    } else if TryEquality(e).Some? {
      LiteralsDenote(c.t.mode, [TryEquality(e).value.1]);
    }
  }

  /** The server accepts every lifted `=`, IN, NOT IN and NOT, and a LIKE whose pattern has
      no backslash. */
  lemma LiftAccepted(c: Context, e: Expr)
    requires Decide(c, e).Lift?
    requires Decide(c, e).e.LikeExtra? ==> BACKSLASH !in Decide(c, e).e.pattern
    ensures !Rejected(ExtraSql(Decide(c, e).e))
  {
    LiftedLiterals(c, e);
    match Decide(c, e).e
    case LikeExtra(_, p) => PlainWellFormed(p, BACKSLASH);
    case InExtra(_, w, bytes) => CharsOperandsAt(w, bytes);
    case NotInExtra(_, vs) => ValueOperandsPlain(vs);
    case _ =>
  }

  ghost predicate NoneRejected(xs: seq<Extra>) {
    forall i :: 0 <= i < |xs| ==> !Rejected(ExtraSql(xs[i]))
  }

  lemma NoneRejectedFirst(x: Extra, xs: seq<Extra>)
    requires !Rejected(ExtraSql(x)) && NoneRejected(xs)
    ensures NoneRejected([x] + xs)
  {
    var all := [x] + xs;
    forall i | 0 <= i < |all| ensures !Rejected(ExtraSql(all[i])) {
      if i > 0 { assert all[i] == xs[i - 1]; }
    }
  }

  lemma {:induction false} LiftedAccepted(c: Context, es: seq<Expr>)
    requires AllLiftFaithful(Lifted(c, es))
    ensures NoneRejected(Lifted(c, es))
  {
    if es == [] {
    } else {
      match Decide(c, es[0])
      case Lift(x) =>
        ExtrasFirst(x, Lifted(c, es[1..]));
        assert Lifted(c, es) == [x] + Lifted(c, es[1..]);
        LiftedAccepted(c, es[1..]);
        LiftAccepted(c, es[0]);
        NoneRejectedFirst(x, Lifted(c, es[1..]));
      case _ =>
        assert Lifted(c, es) == Lifted(c, es[1..]);
        LiftedAccepted(c, es[1..]);
    }
  }

  // --- the lifted predicates are well formed ---------------------------------------------------------

  lemma LiftValid(c: Context, e: Expr)
    requires Decide(c, e).Lift?
    ensures ValidExtra(Decide(c, e).e)
  {
    if TryLikePrefix(e).Some? {
    } else if TryInList(e).Some? {
      TextConstantsForm(e.operands[1..]);
      IntroducerValid(c.t.mode);
    } else if TryEquality(e).Some? {
      IntroducerValid(c.t.mode);
    } else if TryNotIn(e).Some? {
      BindableConstantsForm(e.operands[1..]);
    }
  }

  lemma {:induction false} LiftedValid(c: Context, es: seq<Expr>)
    ensures forall i :: 0 <= i < |Lifted(c, es)| ==> ValidExtra(Lifted(c, es)[i])
  {
    if es == [] {
    } else {
      LiftedValid(c, es[1..]);
      if Decide(c, es[0]).Lift? { LiftValid(c, es[0]); }
    }
  }
}
