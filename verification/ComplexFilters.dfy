/** The complex-filter hook: LIKE 'prefix%', `=` and IN on NONE text, NOT IN, NOT bool. */
module ComplexFilters {
  import opened Wrappers
  import opened Values
  import opened NoneCharset
  import opened LikePatterns
  import opened SqlTokens
  import opened SqlGrammar
  import opened SqlSemantics
  import opened Columns
  import opened Emission
  import opened TableFilters
  import opened Conditions
  import opened QueryBuilder

  // --- expressions --------------------------------------------------------------------

  datatype OpKind = InOp | NotInOp | NotOp | OtherOp(id: nat)

  /** A bound expression; a column reference is an index into the projected columns. */
  datatype Expr =
    | ColumnRef(col: nat, boolean: bool)
    | Constant(v: Value)
    | Function(name: string, args: seq<Expr>)
    | Comparison(op: CmpOp, l: Expr, r: Expr)
    | Operator(kind: OpKind, operands: seq<Expr>)
    | Opaque(id: nat)

  /** The values of the projected columns, and of the expressions the hook does not look into. */
  type Env = nat -> Option<Datum>
  type Unknowns = Expr -> Option<Datum>

  function OfTri(t: Tri): Option<Datum> {
    match t
    case True => Some(Bool(true))
    case False => Some(Bool(false))
    case Unknown => None
  }

  function PlainLike(x: Option<Datum>, p: Option<Datum>): Tri {
    match (x, p)
    case (Some(Text(s)), Some(Text(q))) => Tri.Of(Matches(s, q))
    case _ => Unknown
  }

  const LIKE_NAME := "~~"

  function Evaluate(e: Expr, env: Env, other: Unknowns): Option<Datum>
    decreases e, 1
  {
    match e
    case ColumnRef(c, _) => env(c)
    case Constant(v) => Payload(v)
    case Function(name, args) =>
      if name == LIKE_NAME && |args| == 2
      then OfTri(PlainLike(Evaluate(args[0], env, other), Evaluate(args[1], env, other))) else other(e)
    case Comparison(op, l, r) => OfTri(Compare(op, Evaluate(l, env, other), Evaluate(r, env, other)))
    case Operator(kind, args) =>
      if kind == InOp && args != [] then
        OfTri(MemberOf(Evaluate(args[0], env, other), EvaluateAll(args[1..], env, other)))
      else if kind == NotInOp && args != [] then
        OfTri(MemberOf(Evaluate(args[0], env, other), EvaluateAll(args[1..], env, other)).Not())
      else if kind == NotOp && |args| == 1 then OfTri(Truthy(Evaluate(args[0], env, other)).Not())
      else other(e)
    case Opaque(_) => other(e)
  }

  function EvaluateAll(es: seq<Expr>, env: Env, other: Unknowns): seq<Option<Datum>>
    decreases es, 0
  {
    if es == [] then [] else [Evaluate(es[0], env, other)] + EvaluateAll(es[1..], env, other)
  }

  /** A filter keeps a row when it evaluates to true. */
  predicate Keeps(e: Expr, env: Env, other: Unknowns) {
    Evaluate(e, env, other) == Some(Bool(true))
  }

  // --- the matchers ----------------------------------------------------------------------

  /** The text of a non-NULL VARCHAR constant. */
  function TextConstant(e: Expr): Option<string> {
    match e
    case Constant(Val(VARCHAR, Text(s))) => Some(s)
    case _ => None
  }

  function TryLikePrefix(e: Expr): Option<(nat, string)> {
    match e
    case Function(name, args) =>
      if name != LIKE_NAME || |args| != 2 || !args[0].ColumnRef? then None
      else (match TextConstant(args[1])
            case None => None
            case Some(p) => if p == "" || p[0] == '%' || p[0] == '_' then None else Some((args[0].col, p)))
    case _ => None
  }

  function TryEquality(e: Expr): Option<(nat, string)> {
    match e
    case Comparison(Eq, l, r) =>
      var col, con := if l.ColumnRef? then l else r, if l.ColumnRef? then r else l;
      if !col.ColumnRef? then None
      else (match TextConstant(con)
            case None => None
            case Some(s) => Some((col.col, s)))
    case _ => None
  }

  function TextConstants(es: seq<Expr>): Option<seq<string>> {
    if es == [] then Some([])
    else match TextConstant(es[0])
      case None => None
      case Some(s) =>
        match TextConstants(es[1..])
        case None => None
        case Some(ss) => Some([s] + ss)
  }

  function TryInList(e: Expr): Option<(nat, seq<string>)> {
    match e
    case Operator(InOp, args) =>
      if |args| < 2 || !args[0].ColumnRef? then None
      else (match TextConstants(args[1..])
            case None => None
            case Some(ss) => Some((args[0].col, ss)))
    case _ => None
  }

  function BindableConstants(es: seq<Expr>): Option<seq<Value>> {
    if es == [] then Some([])
    else if es[0].Constant? && !es[0].v.NullOf? && IsBindableType(TypeOf(es[0].v)) then
      match BindableConstants(es[1..])
      case None => None
      case Some(vs) => Some([es[0].v] + vs)
    else None
  }

  function TryNotIn(e: Expr): Option<(nat, seq<Value>)> {
    match e
    case Operator(NotInOp, args) =>
      if |args| < 2 || !args[0].ColumnRef? then None
      else (match BindableConstants(args[1..])
            case None => None
            case Some(vs) => Some((args[0].col, vs)))
    case _ => None
  }

  function TryNotBool(e: Expr): Option<nat> {
    match e
    case Operator(NotOp, args) =>
      if |args| == 1 && args[0].ColumnRef? && args[0].boolean then Some(args[0].col) else None
    case _ => None
  }

  // --- what the hook decides --------------------------------------------------------------

  /** The scan as the hook sees it; `pushNone` is the none_pushdown option. */
  datatype Context = Context(t: Table, ids: seq<ColId>, pushNone: bool)

  datatype Decision = Keep | KeepGated | Lift(e: Extra)

  function Resolve(c: Context, projected: nat): Option<nat> {
    if projected >= |c.ids| then None
    else match c.ids[projected]
      case RowId => None
      case Col(n) => if n >= |c.t.names| then None else Some(n)
  }

  /** `none_pushdown` is on and the transcoding is one of the single-byte ones. */
  predicate NonePushdownActive(c: Context) { c.pushNone && SingleByte(c.t.mode) }

  function Introducer(mode: NoneEncoding): string {
    if mode == ISO_8859_1 then "_ISO8859_1" else "_WIN1252"
  }

  predicate IsNoneCharVarchar(d: ColumnDesc) { d.charset == 0 && IsCharVarchar(d) }

  function EncodeLiterals(mode: NoneEncoding, ss: seq<string>): (r: Option<seq<string>>)
    requires SingleByte(mode)
    ensures r.Some? ==> |r.value| == |ss|
  {
    if ss == [] then Some([])
    else match EncodeLiteral(mode, ss[0])
      case None => None
      case Some(b) =>
        match EncodeLiterals(mode, ss[1..])
        case None => None
        case Some(bs) => Some([b] + bs)
  }

  function DecideLike(c: Context, projected: nat, pattern: string): Decision {
    match Resolve(c, projected)
    case None => Keep
    case Some(n) => if Gated(c.t, n) then KeepGated else Lift(LikeExtra(RefOf(c.t, n), pattern))
  }

  /** `=` (one literal) or IN on a NONE text column. */
  function DecideText(c: Context, projected: nat, literals: seq<string>, isIn: bool): Decision
    requires !isIn ==> |literals| == 1
  {
    match Resolve(c, projected)
    case None => Keep
    case Some(n) =>
      if !NonePushdownActive(c) || n >= |c.t.descs| then Keep
      else if !IsNoneCharVarchar(c.t.descs[n]) then if Gated(c.t, n) then KeepGated else Keep
      else match EncodeLiterals(c.t.mode, literals)
        case None => KeepGated
        case Some(bytes) =>
          var w := Introducer(c.t.mode);
          if isIn then Lift(InExtra(RefOf(c.t, n), w, bytes)) else Lift(EqualExtra(RefOf(c.t, n), w, bytes[0]))
  }

  function DecideNotIn(c: Context, projected: nat, vs: seq<Value>): Decision {
    match Resolve(c, projected)
    case None => Keep
    case Some(n) => if Gated(c.t, n) then KeepGated else Lift(NotInExtra(RefOf(c.t, n), vs))
  }

  function DecideNotBool(c: Context, projected: nat): Decision {
    match Resolve(c, projected)
    case None => Keep
    case Some(n) => if Decfloat(c.t, n) then Keep else Lift(NotBoolExtra(c.t.names[n]))
  }

  /** The matchers in the order the hook tries them. */
  function Decide(c: Context, e: Expr): Decision {
    if TryLikePrefix(e).Some? then DecideLike(c, TryLikePrefix(e).value.0, TryLikePrefix(e).value.1)
    else if TryInList(e).Some? then DecideText(c, TryInList(e).value.0, TryInList(e).value.1, true)
    else if TryEquality(e).Some? then DecideText(c, TryEquality(e).value.0, [TryEquality(e).value.1], false)
    else if TryNotIn(e).Some? then DecideNotIn(c, TryNotIn(e).value.0, TryNotIn(e).value.1)
    else if TryNotBool(e).Some? then DecideNotBool(c, TryNotBool(e).value)
    else Keep
  }

  // --- the loop over the planner's filters ------------------------------------------------------

  /** The filters left to DuckDB, in their original order. */
  function Left(c: Context, es: seq<Expr>): seq<Expr> {
    if es == [] then []
    else (if Decide(c, es[0]).Lift? then [] else [es[0]]) + Left(c, es[1..])
  }

  function Lifted(c: Context, es: seq<Expr>): seq<Extra> {
    if es == [] then []
    else (match Decide(c, es[0])
          case Lift(x) => [x]
          case _ => []) + Lifted(c, es[1..])
  }

  function GateCount(c: Context, es: seq<Expr>): nat {
    if es == [] then 0 else (if Decide(c, es[0]) == KeepGated then 1 else 0) + GateCount(c, es[1..])
  }

  datatype ExtraPredicate = ExtraPredicate(sql: string, params: seq<Value>)

  function PredicateOf(x: Extra): ExtraPredicate {
    ExtraPredicate(Show(ExtraLx(x)), ExtraBinds(x))
  }

  function PredicatesOf(xs: seq<Extra>): seq<ExtraPredicate> {
    if xs == [] then [] else [PredicateOf(xs[0])] + PredicatesOf(xs[1..])
  }

  /** The planner's filter list, which the hook erases from in place. */
  class FilterList {
    var items: seq<Expr>

    constructor (es: seq<Expr>)
      ensures items == es
    {
      items := es;
    }

    method Erase(i: nat)
      requires i < |items|
      modifies this
      ensures items == old(items)[..i] + old(items)[i + 1..]
    {
      items := items[..i] + items[i + 1..];
    }
  }

  /** The part of the bind data the hook writes. */
  class BindData {
    var extras: seq<ExtraPredicate>
    var gatedReasons: seq<string>

    constructor ()
      ensures extras == [] && gatedReasons == []
    {
      extras, gatedReasons := [], [];
    }

    method AddExtra(x: ExtraPredicate)
      modifies this`extras
      ensures extras == old(extras) + [x]
    {
      extras := extras + [x];
    }

    method AddGate()
      modifies this`gatedReasons
      ensures gatedReasons == old(gatedReasons) + [NONE_CHARSET]
    {
      gatedReasons := gatedReasons + [NONE_CHARSET];
    }
  }

  // --- emitting the predicates -----------------------------------------------------------------------

  /** The hook's own test for DECFLOAT and its own column expression. */
  method ColExpr(c: Context, n: nat) returns (column: string)
    requires n < |c.t.names|
    ensures column == RefText(RefOf(c.t, n))
  {
    var decfloat := false;
    if n < |c.t.descs| {
      decfloat := c.t.descs[n].sqltype == SQL_DEC16 || c.t.descs[n].sqltype == SQL_DEC34;
    }
    column := QuoteIdent(c.t.names[n]);
    if decfloat { column := "CAST(" + column + " AS VARCHAR(64))"; }
  }

  /** The hook's own test for gated columns. */
  method IsNoneTextGated(c: Context, n: nat) returns (gated: bool)
    ensures gated == Gated(c.t, n)
  {
    if n >= |c.t.descs| { return false; }
    var d := c.t.descs[n];
    if c.t.mode == STRICT { return false; }
    if d.charset != 0 { return false; }
    gated := d.sqltype == SQL_TEXT || d.sqltype == SQL_VARYING || (d.sqltype == SQL_BLOB && d.subtype == 1);
  }

  /** The expression a lifted predicate compares. */
  function ComparedRef(x: Extra): Ref {
    if x.NotBoolExtra? then Bare(x.name) else x.ref
  }

  /** The projected column an expression that is lifted refers to. */
  function ComparedColumn(e: Expr): Option<nat> {
    if TryLikePrefix(e).Some? then Some(TryLikePrefix(e).value.0)
    else if TryInList(e).Some? then Some(TryInList(e).value.0)
    else if TryEquality(e).Some? then Some(TryEquality(e).value.0)
    else if TryNotIn(e).Some? then Some(TryNotIn(e).value.0)
    else TryNotBool(e)
  }

  /** A lifted predicate compares the very expression that is projected for its column. */
  lemma LiftComparesProjection(c: Context, e: Expr)
    requires Decide(c, e).Lift?
    ensures ComparedColumn(e).Some? && ComparedColumn(e).value < |c.ids|
    ensures |Items(c.t, c.ids)| == |c.ids| && Items(c.t, c.ids)[ComparedColumn(e).value] == ColumnItem(ComparedRef(Decide(c, e).e))
  {
    ItemsAt(c.t, c.ids, ComparedColumn(e).value);
  }

  lemma LikeText(ref: Ref, p: string)
    ensures Show(ExtraLx(LikeExtra(ref, p))) == RefText(ref) + " LIKE " + Literal(p) + " ESCAPE '\\'"
  {
    RefForm(ref); LikeForm(); Conditions.EscapeForm(); Single(Str(p));
    ShowCat(RefLx(ref) + LIKE_LX + [Tok(Str(p))], ESCAPE_LX);
    Show3(RefLx(ref), LIKE_LX, [Tok(Str(p))]);
  }

  method EmitLike(c: Context, n: nat, pattern: string) returns (x: ExtraPredicate)
    requires n < |c.t.names|
    ensures x == PredicateOf(LikeExtra(RefOf(c.t, n), pattern))
  {
    LikeText(RefOf(c.t, n), pattern);
    var column := ColExpr(c, n);
    var literal := SqlLiteral(pattern);
    x := ExtraPredicate(column + " LIKE " + literal + " ESCAPE '\\'", []);
  }

  lemma EqualText(ref: Ref, w: string, b: string)
    requires ValidCharset(w)
    ensures Show(ExtraLx(EqualExtra(ref, w, b))) == RefText(ref) + " = " + (w + " " + Literal(b))
  {
    RefForm(ref); EqText(); CharsForm(w, b);
    Show3(RefLx(ref), OpLx(Eq), CharsLx(w, b));
  }

  lemma EqText()
    ensures Show(OpLx(Eq)) == " = "
  {
    OpForm(Eq);
  }

  method EmitEqual(c: Context, n: nat, bytes: string) returns (x: ExtraPredicate)
    requires n < |c.t.names| && SingleByte(c.t.mode)
    ensures x == PredicateOf(EqualExtra(RefOf(c.t, n), Introducer(c.t.mode), bytes))
  {
    IntroducerValid(c.t.mode);
    EqualText(RefOf(c.t, n), Introducer(c.t.mode), bytes);
    var column := ColExpr(c, n);
    var literal := SqlLiteral(bytes);
    x := ExtraPredicate(column + " = " + (Introducer(c.t.mode) + " " + literal), []);
  }

  lemma IntroducerValid(mode: NoneEncoding)
    ensures ValidCharset(Introducer(mode))
  {
  }

  function CharsRest(w: string, items: seq<string>, i: nat): string
    requires i <= |items|
  {
    if i == |items| then "" else CommaText(i) + Show(CharsListLx(w, items[i..]))
  }

  lemma {:induction false} CharsStep(w: string, items: seq<string>, i: nat)
    requires i < |items| && ValidCharset(w)
    ensures CharsRest(w, items, i) == CommaText(i) + (w + " " + Literal(items[i])) + CharsRest(w, items, i + 1)
  {
    var rest := items[i..];
    assert rest[0] == items[i] && rest[1..] == items[i + 1..];
    var here := w + " " + Literal(items[i]);
    CharsForm(w, items[i]);
    if |rest| > 1 {
      CommaForm();
      Show3(CharsLx(w, rest[0]), COMMA_LX, CharsListLx(w, rest[1..]));
      Regroup(CommaText(i), here, ", ", Show(CharsListLx(w, rest[1..])));
      Regroup(CommaText(i) + here, ", ", Show(CharsListLx(w, rest[1..])), "");
    }
  }

  lemma {:induction false} InCharsText(ref: Ref, w: string, items: seq<string>)
    ensures Show(ExtraLx(InExtra(ref, w, items))) == RefText(ref) + " IN (" + Show(CharsListLx(w, items)) + ")"
  {
    RefForm(ref); InOpen(); Single(RP);
    ShowCat(RefLx(ref) + IN_OPEN + CharsListLx(w, items), [S(')')]);
    Show3(RefLx(ref), IN_OPEN, CharsListLx(w, items));
  }

  method AppendChars(start: string, w: string, items: seq<string>) returns (sql: string)
    requires items != [] && ValidCharset(w)
    ensures sql == start + Show(CharsListLx(w, items))
  {
    sql := start;
    ghost var whole := start + CharsRest(w, items, 0);
    assert items[0..] == items && CharsRest(w, items, 0) == Show(CharsListLx(w, items));
    for i := 0 to |items|
      invariant sql + CharsRest(w, items, i) == whole
    {
      ghost var here := w + " " + Literal(items[i]);
      CharsStep(w, items, i);
      Regroup(sql, CommaText(i), here, CharsRest(w, items, i + 1));
      ghost var before := sql;
      if i > 0 { sql := sql + ", "; }
      assert sql == before + CommaText(i);
      var literal := SqlLiteral(items[i]);
      sql := sql + (w + " " + literal);
      assert sql == before + CommaText(i) + here;
    }
    assert sql + "" == sql;
  }

  method EmitInChars(c: Context, n: nat, items: seq<string>) returns (x: ExtraPredicate)
    requires n < |c.t.names| && SingleByte(c.t.mode) && items != []
    ensures x == PredicateOf(InExtra(RefOf(c.t, n), Introducer(c.t.mode), items))
  {
    var w := Introducer(c.t.mode);
    IntroducerValid(c.t.mode);
    InCharsText(RefOf(c.t, n), w, items);
    var column := ColExpr(c, n);
    var sql := AppendChars(column + " IN (", w, items);
    x := ExtraPredicate(sql + ")", []);
  }

  lemma {:induction false} NotInText(ref: Ref, vs: seq<Value>)
    ensures Show(ExtraLx(NotInExtra(ref, vs))) == RefText(ref) + " NOT IN (" + Show(ListLx(vs)) + ")"
  {
    RefForm(ref); NotInOpenText(); Single(RP);
    ShowCat(RefLx(ref) + NOT_IN_OPEN + ListLx(vs), [S(')')]);
    Show3(RefLx(ref), NOT_IN_OPEN, ListLx(vs));
  }

  /** `?, ?, ...`: one placeholder per value. */
  method AppendMarks(start: string, vs: seq<Value>) returns (sql: string)
    requires vs != [] && AllBindable(vs)
    ensures sql == start + Show(ListLx(vs))
  {
    sql := start;
    ghost var whole := start + ListText(vs, 0);
    assert vs[0..] == vs && ListText(vs, 0) == Show(ListLx(vs));
    Single(MARK);
    for i := 0 to |vs|
      invariant sql + ListText(vs, i) == whole
    {
      ListStep(vs, i);
      assert Show(ValueLx(vs[i])) == "?";
      Regroup(sql, CommaText(i), "?", ListText(vs, i + 1));
      ghost var before := sql;
      if i > 0 { sql := sql + ", "; }
      assert sql == before + CommaText(i);
      sql := sql + "?";
      assert sql == before + CommaText(i) + "?";
    }
    assert sql + "" == sql;
  }

  method EmitNotIn(c: Context, n: nat, vs: seq<Value>) returns (x: ExtraPredicate)
    requires n < |c.t.names| && vs != [] && AllBindable(vs)
    ensures x == PredicateOf(NotInExtra(RefOf(c.t, n), vs))
  {
    NotInText(RefOf(c.t, n), vs);
    BindableList(vs);
    var column := ColExpr(c, n);
    var sql := AppendMarks(column + " NOT IN (", vs);
    x := ExtraPredicate(sql + ")", vs);
  }

  method EmitNotBool(c: Context, n: nat) returns (x: ExtraPredicate)
    requires n < |c.t.names|
    ensures x == PredicateOf(NotBoolExtra(c.t.names[n]))
  {
    NotForm(); Single(Quoted(c.t.names[n]));
    ShowCat(NOT_LX, [Tok(Quoted(c.t.names[n]))]);
    var name := QuoteIdent(c.t.names[n]);
    x := ExtraPredicate("NOT " + name, []);
  }

  /** Transcodes every literal; one that has no representation fails them all. */
  method EncodeAllLiterals(mode: NoneEncoding, ss: seq<string>) returns (ok: bool, out: seq<string>)
    requires SingleByte(mode)
    ensures ok == EncodeLiterals(mode, ss).Some?
    ensures ok ==> out == EncodeLiterals(mode, ss).value
  {
    out := [];
    assert ss[0..] == ss;
    for i := 0 to |ss|
      invariant EncodeLiterals(mode, ss).Some? == EncodeLiterals(mode, ss[i..]).Some?
      invariant EncodeLiterals(mode, ss).Some? ==> EncodeLiterals(mode, ss).value == out + EncodeLiterals(mode, ss[i..]).value
    {
      assert ss[i..][0] == ss[i] && ss[i..][1..] == ss[i + 1..];
      var good, bytes := TryEncodeNoneLiteral(ss[i], mode);
      if !good { return false, []; }
      out := out + [bytes];
    }
    assert ss[|ss|..] == [];
    ok := true;
  }

  // --- the hook ----------------------------------------------------------------------------------------

  /** What a decision adds to the bind data. */
  function NewExtras(d: Decision): seq<ExtraPredicate> {
    if d.Lift? then [PredicateOf(d.e)] else []
  }

  function NewGates(d: Decision): seq<string> {
    if d == KeepGated then [NONE_CHARSET] else []
  }

  method HandleText(c: Context, projected: nat, literals: seq<string>, isIn: bool, bind: BindData) returns (erase: bool)
    requires literals != [] && (!isIn ==> |literals| == 1)
    modifies bind
    ensures erase == DecideText(c, projected, literals, isIn).Lift?
    ensures bind.extras == old(bind.extras) + NewExtras(DecideText(c, projected, literals, isIn))
    ensures bind.gatedReasons == old(bind.gatedReasons) + NewGates(DecideText(c, projected, literals, isIn))
  {
    var src := Resolve(c, projected);
    if src.None? { return false; }
    var n := src.value;
    if !NonePushdownActive(c) || n >= |c.t.descs| { return false; }
    if !IsNoneCharVarchar(c.t.descs[n]) {
      var gated := IsNoneTextGated(c, n);
      if gated { bind.AddGate(); }
      return false;
    }
    var all, bytes := EncodeAllLiterals(c.t.mode, literals);
    if !all {
      bind.AddGate();
      return false;
    }
    var x: ExtraPredicate;
    if isIn { x := EmitInChars(c, n, bytes); } else { x := EmitEqual(c, n, bytes[0]); }
    bind.AddExtra(x);
    return true;
  }

  method HandleLike(c: Context, projected: nat, pattern: string, bind: BindData) returns (erase: bool)
    modifies bind
    ensures erase == DecideLike(c, projected, pattern).Lift?
    ensures bind.extras == old(bind.extras) + NewExtras(DecideLike(c, projected, pattern))
    ensures bind.gatedReasons == old(bind.gatedReasons) + NewGates(DecideLike(c, projected, pattern))
  {
    var src := Resolve(c, projected);
    if src.None? { return false; }
    var gated := IsNoneTextGated(c, src.value);
    if gated {
      bind.AddGate();
      return false;
    }
    var x := EmitLike(c, src.value, pattern);
    bind.AddExtra(x);
    return true;
  }

  method HandleNotIn(c: Context, projected: nat, vs: seq<Value>, bind: BindData) returns (erase: bool)
    requires vs != [] && AllBindable(vs)
    modifies bind
    ensures erase == DecideNotIn(c, projected, vs).Lift?
    ensures bind.extras == old(bind.extras) + NewExtras(DecideNotIn(c, projected, vs))
    ensures bind.gatedReasons == old(bind.gatedReasons) + NewGates(DecideNotIn(c, projected, vs))
  {
    var src := Resolve(c, projected);
    if src.None? { return false; }
    var gated := IsNoneTextGated(c, src.value);
    if gated {
      bind.AddGate();
      return false;
    }
    var x := EmitNotIn(c, src.value, vs);
    bind.AddExtra(x);
    return true;
  }

  method HandleNotBool(c: Context, projected: nat, bind: BindData) returns (erase: bool)
    modifies bind
    ensures erase == DecideNotBool(c, projected).Lift?
    ensures bind.extras == old(bind.extras) + NewExtras(DecideNotBool(c, projected))
    ensures bind.gatedReasons == old(bind.gatedReasons) + NewGates(DecideNotBool(c, projected))
  {
    var src := Resolve(c, projected);
    if src.None? { return false; }
    if Decfloat(c.t, src.value) { return false; }
    var x := EmitNotBool(c, src.value);
    bind.AddExtra(x);
    return true;
  }

  lemma {:induction false} BindableConstantsForm(es: seq<Expr>)
    requires BindableConstants(es).Some?
    ensures AllBindable(BindableConstants(es).value) && |BindableConstants(es).value| == |es|
  {
    if es == [] {
    } else {
      BindableConstantsForm(es[1..]);
    }
  }

  lemma {:induction false} TextConstantsForm(es: seq<Expr>)
    requires TextConstants(es).Some?
    ensures |TextConstants(es).value| == |es|
  {
    if es == [] {
    } else {
      TextConstantsForm(es[1..]);
    }
  }

  /** The body of the loop: tries the matchers in turn and reports whether the filter
      can be erased. */
  method HandleFilter(c: Context, e: Expr, bind: BindData) returns (erase: bool)
    modifies bind
    ensures erase == Decide(c, e).Lift?
    ensures bind.extras == old(bind.extras) + NewExtras(Decide(c, e))
    ensures bind.gatedReasons == old(bind.gatedReasons) + NewGates(Decide(c, e))
  {
    var like := TryLikePrefix(e);
    if like.Some? {
      erase := HandleLike(c, like.value.0, like.value.1, bind);
      return;
    }
    var list := TryInList(e);
    if list.Some? {
      TextConstantsForm(e.operands[1..]);
      erase := HandleText(c, list.value.0, list.value.1, true, bind);
      return;
    }
    var equal := TryEquality(e);
    if equal.Some? {
      erase := HandleText(c, equal.value.0, [equal.value.1], false, bind);
      return;
    }
    var notIn := TryNotIn(e);
    if notIn.Some? {
      BindableConstantsForm(e.operands[1..]);
      erase := HandleNotIn(c, notIn.value.0, notIn.value.1, bind);
      return;
    }
    var notBool := TryNotBool(e);
    if notBool.Some? {
      erase := HandleNotBool(c, notBool.value, bind);
      return;
    }
    return false;
  }

  function Gates(c: Context, es: seq<Expr>): seq<string> {
    seq(GateCount(c, es), _ => NONE_CHARSET)
  }

  /** One round of the loop. */
  lemma {:induction false} HookStep(c: Context, es: seq<Expr>)
    requires es != []
    ensures Left(c, es) == (if Decide(c, es[0]).Lift? then [] else [es[0]]) + Left(c, es[1..])
    ensures PredicatesOf(Lifted(c, es)) == NewExtras(Decide(c, es[0])) + PredicatesOf(Lifted(c, es[1..]))
    ensures Gates(c, es) == NewGates(Decide(c, es[0])) + Gates(c, es[1..])
  {
    var rest := Lifted(c, es[1..]);
    match Decide(c, es[0])
    case Lift(x) => assert ([x] + rest)[1..] == rest;
    case _ => assert Lifted(c, es) == rest;
  }

  lemma Erased<T>(xs: seq<T>, i: nat)
    requires i < |xs|
    ensures (xs[..i] + xs[i + 1..])[..i] == xs[..i] && (xs[..i] + xs[i + 1..])[i..] == xs[i + 1..]
  {
  }

  lemma Passed<T>(xs: seq<T>, i: nat)
    requires i < |xs|
    ensures xs[..i + 1] == xs[..i] + [xs[i]]
  {
  }

  /** FirebirdScanPushdownComplexFilter. */
  method PushdownComplexFilter(c: Context, filters: FilterList, bind: BindData)
    modifies filters, bind
    ensures filters.items == Left(c, old(filters.items))
    ensures bind.extras == old(bind.extras) + PredicatesOf(Lifted(c, old(filters.items)))
    ensures bind.gatedReasons == old(bind.gatedReasons) + Gates(c, old(filters.items))
  {
    ghost var all, done, kept := filters.items, 0, [];
    var i := 0;
    assert all[0..] == all;
    while i < |filters.items|
      invariant 0 <= i <= |filters.items| && 0 <= done <= |all|
      invariant filters.items[..i] == kept && filters.items[i..] == all[done..]
      invariant kept + Left(c, all[done..]) == Left(c, all)
      invariant bind.extras + PredicatesOf(Lifted(c, all[done..])) == old(bind.extras) + PredicatesOf(Lifted(c, all))
      invariant bind.gatedReasons + Gates(c, all[done..]) == old(bind.gatedReasons) + Gates(c, all)
      decreases |filters.items| - i
    {
      ghost var before := filters.items;
      ghost var e, rest := all[done], all[done + 1..];
      assert before[i] == before[i..][0] && all[done..][1..] == rest && before[i + 1..] == before[i..][1..];
      HookStep(c, all[done..]);
      Regroup(kept, if Decide(c, e).Lift? then [] else [e], Left(c, rest), []);
      Regroup(bind.extras, NewExtras(Decide(c, e)), PredicatesOf(Lifted(c, rest)), []);
      Regroup(bind.gatedReasons, NewGates(Decide(c, e)), Gates(c, rest), []);
      var erase := HandleFilter(c, filters.items[i], bind);
      if erase {
        filters.Erase(i);
        assert kept + [] == kept;
        Erased(before, i);
      } else {
        Passed(before, i);
        i := i + 1;
        kept := kept + [e];
      }
      done := done + 1;
    }
    assert filters.items[..i] == filters.items && all[done..] == [];
    assert kept + [] == kept && bind.extras + [] == bind.extras && bind.gatedReasons + [] == bind.gatedReasons;
  }
}
