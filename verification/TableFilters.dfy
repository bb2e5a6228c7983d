/** Table filters, their translation to SQL text and parameters, and its correctness. */
module TableFilters {
  import opened Wrappers
  import opened Values
  import opened NumberText
  import opened SqlTokens
  import opened SqlGrammar
  import opened SqlSemantics
  import opened Emission

  datatype Filter =
    | IsNull
    | IsNotNull
    | Constant(op: CmpOp, v: Value)
    | AllOf(fs: seq<Filter>)
    | AnyOf(fs: seq<Filter>)
    | OneOf(vs: seq<Value>)
    | Optional(child: Option<Filter>)
    | Unsupported(id: nat)

  /** The meaning of the filter kinds the translator does not know. */
  type Oracle = (nat, Option<Datum>) -> Tri

  // --- what DuckDB means -------------------------------------------------------------

  function Payloads(vs: seq<Value>): seq<Option<Datum>> {
    if vs == [] then [] else [Payload(vs[0])] + Payloads(vs[1..])
  }

  /** The truth of a filter on a column value. */
  function Sem(f: Filter, x: Option<Datum>, other: Oracle): Tri
    decreases f, 1
  {
    match f
    case IsNull => Tri.Of(x.None?)
    case IsNotNull => Tri.Of(x.Some?)
    case Constant(op, v) => Compare(op, x, Payload(v))
    case AllOf(fs) => SemAll(fs, x, other)
    case AnyOf(fs) => SemAny(fs, x, other)
    case OneOf(vs) => MemberOf(x, Payloads(vs))
    case Optional(None) => True
    case Optional(Some(c)) => Sem(c, x, other)
    case Unsupported(id) => other(id, x)
  }

  function SemAll(fs: seq<Filter>, x: Option<Datum>, other: Oracle): Tri
    decreases fs, 0
  {
    if fs == [] then True else Sem(fs[0], x, other).And(SemAll(fs[1..], x, other))
  }

  function SemAny(fs: seq<Filter>, x: Option<Datum>, other: Oracle): Tri
    decreases fs, 0
  {
    if fs == [] then False else Sem(fs[0], x, other).Or(SemAny(fs[1..], x, other))
  }

  // --- what can be translated -----------------------------------------------------------

  predicate AllPrintable(vs: seq<Value>) {
    vs == [] || (Printable(vs[0]) && AllPrintable(vs[1..]))
  }

  predicate Translatable(f: Filter)
    decreases f, 1
  {
    match f
    case IsNull | IsNotNull => true
    case Constant(op, v) => HasText(op) && Printable(v)
    case AllOf(fs) => fs != [] && AllTranslatable(fs)
    case AnyOf(fs) => fs != [] && AllTranslatable(fs)
    case OneOf(vs) => AllPrintable(vs)
    case Optional(child) => child.Some? && Translatable(child.value)
    case Unsupported(_) => false
  }

  predicate AllTranslatable(fs: seq<Filter>)
    decreases fs, 0
  {
    fs == [] || (Translatable(fs[0]) && AllTranslatable(fs[1..]))
  }

  /** The filter and all filters inside it. */
  function SubFilters(f: Filter): seq<Filter>
    decreases f, 1
  {
    [f] + match f
      case AllOf(fs) => AllSubFilters(fs)
      case AnyOf(fs) => AllSubFilters(fs)
      case Optional(Some(c)) => SubFilters(c)
      case _ => []
  }

  function AllSubFilters(fs: seq<Filter>): seq<Filter>
    decreases fs, 0
  {
    if fs == [] then [] else SubFilters(fs[0]) + AllSubFilters(fs[1..])
  }

  predicate Sendable(v: Value) { v.NullOf? || v.Decimal? || IsBindableType(TypeOf(v)) }

  /** Nothing in the filter itself, whatever is inside it, keeps it from being sent. */
  predicate Supported(f: Filter) {
    match f
    case IsNull | IsNotNull => true
    case Constant(op, v) => op != Distinct && Sendable(v)
    case AllOf(fs) => fs != []
    case AnyOf(fs) => fs != []
    case OneOf(vs) => forall i :: 0 <= i < |vs| ==> Sendable(vs[i])
    case Optional(child) => child.Some?
    case Unsupported(_) => false
  }

  ghost predicate AllSupported(fs: seq<Filter>) { forall g :: g in fs ==> Supported(g) }

  lemma SupportedCat(fs: seq<Filter>, gs: seq<Filter>)
    ensures AllSupported(fs + gs) <==> AllSupported(fs) && AllSupported(gs)
  {
    if AllSupported(fs + gs) {
      forall g | g in fs ensures Supported(g) { assert g in fs + gs; }
      forall g | g in gs ensures Supported(g) { assert g in fs + gs; }
    }
  }

  lemma {:induction false} PrintableList(vs: seq<Value>)
    ensures AllPrintable(vs) <==> forall i :: 0 <= i < |vs| ==> Sendable(vs[i])
  {
    if vs == [] {
    } else {
      PrintableList(vs[1..]);
      if AllPrintable(vs) { forall i | 0 <= i < |vs| ensures Sendable(vs[i]) { assert i > 0 ==> vs[i] == vs[1..][i - 1]; } }
    }
  }

  /** A filter is translated exactly when no filter inside it is unsupported. */
  lemma {:induction false} TranslatableExactly(f: Filter)
    ensures Translatable(f) <==> AllSupported(SubFilters(f))
    decreases f, 1
  {
    SupportedCat([f], SubFilters(f)[1..]);
    assert AllSupported([f]) <==> Supported(f) by { assert f in [f]; }
    match f
    case AllOf(fs) => ChildrenExactly(fs);
    case AnyOf(fs) => ChildrenExactly(fs);
    case Optional(Some(c)) => TranslatableExactly(c);
    case OneOf(vs) => PrintableList(vs);
    case _ =>
  }

  lemma {:induction false} ChildrenExactly(fs: seq<Filter>)
    ensures AllTranslatable(fs) <==> AllSupported(AllSubFilters(fs))
    decreases fs, 0
  {
    if fs == [] {
    } else {
      TranslatableExactly(fs[0]);
      ChildrenExactly(fs[1..]);
      SupportedCat(SubFilters(fs[0]), AllSubFilters(fs[1..]));
    }
  }

  // --- the emitted lexemes and parameters ----------------------------------------------------

  const IS_NULL: seq<Lexeme> := [Space, W("IS"), Space, W("NULL")]
  const IS_NOT_NULL: seq<Lexeme> := [Space, W("IS"), Space, W("NOT"), Space, W("NULL")]
  const NEVER: seq<Lexeme> := [S('('), Tok(Number("1")), Tok(Rel(Eq)), Tok(Number("0")), S(')')]
  const IN_OPEN: seq<Lexeme> := [Space, W("IN"), Space, S('(')]

  function OpLx(op: CmpOp): seq<Lexeme> { [Space, Tok(Rel(op)), Space] }

  function ListLx(vs: seq<Value>): seq<Lexeme> {
    if vs == [] then []
    else if |vs| == 1 then ValueLx(vs[0])
    else ValueLx(vs[0]) + COMMA_LX + ListLx(vs[1..])
  }

  function FilterLx(ref: Ref, f: Filter): seq<Lexeme>
    decreases f, 1
  {
    match f
    case IsNull => RefLx(ref) + IS_NULL
    case IsNotNull => RefLx(ref) + IS_NOT_NULL
    case Constant(op, v) => RefLx(ref) + OpLx(op) + ValueLx(v)
    case AllOf(fs) => JoinLx(ref, fs, "AND")
    case AnyOf(fs) => JoinLx(ref, fs, "OR")
    case OneOf(vs) => if vs == [] then NEVER else RefLx(ref) + IN_OPEN + ListLx(vs) + [S(')')]
    case Optional(Some(c)) => FilterLx(ref, c)
    case Optional(None) => []
    case Unsupported(_) => []
  }

  /** (f0) sep (f1) sep ... */
  function JoinLx(ref: Ref, fs: seq<Filter>, sep: string): seq<Lexeme>
    decreases fs, 0
  {
    if fs == [] then []
    else if |fs| == 1 then GroupLx(FilterLx(ref, fs[0]))
    else GroupLx(FilterLx(ref, fs[0])) + SepLx(sep) + JoinLx(ref, fs[1..], sep)
  }

  function ListBinds(vs: seq<Value>): seq<Value> {
    if vs == [] then [] else ValueBinds(vs[0]) + ListBinds(vs[1..])
  }

  function Binds(f: Filter): seq<Value>
    decreases f, 1
  {
    match f
    case Constant(_, v) => ValueBinds(v)
    case AllOf(fs) => AllBinds(fs)
    case AnyOf(fs) => AllBinds(fs)
    case OneOf(vs) => ListBinds(vs)
    case Optional(Some(c)) => Binds(c)
    case _ => []
  }

  function AllBinds(fs: seq<Filter>): seq<Value>
    decreases fs, 0
  {
    if fs == [] then [] else Binds(fs[0]) + AllBinds(fs[1..])
  }

  // --- the translator --------------------------------------------------------------------------

  lemma OpForm(op: CmpOp)
    requires HasText(op)
    ensures Spaced(OpLx(op)) && Show(OpLx(op)) == " " + OpText(op) + " " && Tokens(OpLx(op)) == [Rel(op)]
  {
    var tail := [Tok(Rel(op)), Space];
    assert OpLx(op)[1..] == tail && tail[1..] == [Space];
    assert Show([Space]) == " ";
    assert Tokens([Space]) == [];
    assert Show(tail) == OpText(op) + " ";
  }

  lemma {:induction false} ConstantText(ref: Ref, op: CmpOp, v: Value)
    requires HasText(op)
    ensures Show(RefLx(ref) + OpLx(op) + ValueLx(v)) == RefText(ref) + " " + OpText(op) + " " + Show(ValueLx(v))
  {
    RefForm(ref);
    OpForm(op);
    Show3(RefLx(ref), OpLx(op), ValueLx(v));
    assert RefText(ref) + (" " + OpText(op) + " ") == RefText(ref) + " " + OpText(op) + " ";
  }

  lemma NullTestText(ref: Ref)
    ensures Show(RefLx(ref) + IS_NULL) == RefText(ref) + " IS NULL"
    ensures Show(RefLx(ref) + IS_NOT_NULL) == RefText(ref) + " IS NOT NULL"
  {
    RefForm(ref);
    ShowCat(RefLx(ref), IS_NULL);
    ShowCat(RefLx(ref), IS_NOT_NULL);
    NullTestEnd();
  }

  lemma {:induction false} NullTestEnd()
    ensures Show(IS_NULL) == " IS NULL" && Show(IS_NOT_NULL) == " IS NOT NULL"
  {
  }

  method TranslateConstant(column: string, op: CmpOp, v: Value, params: ParamList, ghost ref: Ref)
    returns (ok: bool, out: string)
    requires column == RefText(ref)
    modifies params
    ensures ok == (HasText(op) && Printable(v))
    ensures ok ==> out == Show(RefLx(ref) + OpLx(op) + ValueLx(v))
    ensures params.items == old(params.items) + if ok then ValueBinds(v) else []
  {
    if op == Distinct { return false, ""; }
    ConstantText(ref, op, v);
    if IsBindableType(TypeOf(v)) {
      params.Push(v);
      assert Show([S('?')]) == "?" + "";
      return true, column + " " + OpText(op) + " ?";
    }
    var lit: string;
    ok, lit := SafeLiteralInline(v);
    out := column + " " + OpText(op) + " " + lit;
  }

  method TranslateFilter(column: string, f: Filter, params: ParamList, ghost ref: Ref)
    returns (ok: bool, out: string)
    requires column == RefText(ref)
    modifies params
    ensures ok == Translatable(f)
    ensures ok ==> out == Show(FilterLx(ref, f)) && params.items == old(params.items) + Binds(f)
    ensures old(params.items) <= params.items
    decreases f, 1
  {
    match f
    case IsNull =>
      NullTestText(ref);
      return true, column + " IS NULL";
    case IsNotNull =>
      NullTestText(ref);
      return true, column + " IS NOT NULL";
    case Constant(op, v) =>
      ok, out := TranslateConstant(column, op, v, params, ref);
    case AllOf(fs) =>
      ok, out := TranslateChildren(column, fs, " AND ", params, ref, "AND");
    case AnyOf(fs) =>
      ok, out := TranslateChildren(column, fs, " OR ", params, ref, "OR");
    case OneOf(vs) =>
      ok, out := TranslateInList(column, vs, params, ref);
    case Optional(child) =>
      if child.None? { return false, ""; }
      ok, out := TranslateFilter(column, child.value, params, ref);
    case Unsupported(_) =>
      return false, "";
  }

  function Glue(sep: string, i: nat): string {
    if i == 0 then "" else " " + sep + " "
  }

  function GroupText(ref: Ref, f: Filter): string {
    "(" + Show(FilterLx(ref, f)) + ")"
  }

  /** Text of the children from `i` on, with the separator that precedes them. */
  function RestText(ref: Ref, fs: seq<Filter>, sep: string, i: nat): string
    requires i <= |fs|
  {
    if i == |fs| then "" else Glue(sep, i) + Show(JoinLx(ref, fs[i..], sep))
  }

  lemma {:induction false} JoinText(ref: Ref, fs: seq<Filter>, sep: string)
    requires fs != [] && IsWordText(sep)
    ensures Show(JoinLx(ref, fs, sep)) == GroupText(ref, fs[0]) + RestText(ref, fs, sep, 1)
  {
    var group := GroupLx(FilterLx(ref, fs[0]));
    Single(LP);
    Single(RP);
    Show3([S('(')], FilterLx(ref, fs[0]), [S(')')]);
    if |fs| > 1 {
      Show3(group, SepLx(sep), JoinLx(ref, fs[1..], sep));
      SepForm(sep);
      Regroup(Show(group), Glue(sep, 1), Show(JoinLx(ref, fs[1..], sep)), "");
    }
  }

  /** One round of the children loop, in the text, the parameters and the verdict. */
  lemma ChildStep(ref: Ref, fs: seq<Filter>, sep: string, i: nat)
    requires i < |fs| && IsWordText(sep)
    ensures RestText(ref, fs, sep, i) == Glue(sep, i) + GroupText(ref, fs[i]) + RestText(ref, fs, sep, i + 1)
    ensures AllBinds(fs[i..]) == Binds(fs[i]) + AllBinds(fs[i + 1..])
    ensures AllTranslatable(fs[i..]) == (Translatable(fs[i]) && AllTranslatable(fs[i + 1..]))
  {
    var rest := fs[i..];
    assert rest[0] == fs[i] && rest[1..] == fs[i + 1..];
    JoinText(ref, rest, sep);
    assert RestText(ref, rest, sep, 1) == RestText(ref, fs, sep, i + 1);
    Regroup(Glue(sep, i), GroupText(ref, fs[i]), RestText(ref, fs, sep, i + 1), "");
  }

  /** Appends a translated child between parentheses. */
  method AddChild(acc0: string, glue: string, part: string) returns (acc: string)
    ensures acc == acc0 + (if acc0 == "" then "" else glue) + ("(" + part + ")")
    ensures acc != ""
  {
    acc := acc0;
    if acc != "" { acc := acc + glue; }
    acc := acc + ("(" + part + ")");
  }

  /** What the loop has built after `i` children: text and parameters that the rest of
      the children complete. */
  ghost predicate SoFar(ref: Ref, fs: seq<Filter>, sep: string, i: nat, acc: string, items: seq<Value>, before: seq<Value>)
    requires i <= |fs|
  {
    && (acc == "" <==> i == 0)
    && before <= items
    && acc + RestText(ref, fs, sep, i) == RestText(ref, fs, sep, 0)
    && items + AllBinds(fs[i..]) == before + AllBinds(fs)
    && AllTranslatable(fs[i..]) == AllTranslatable(fs)
  }

  lemma SoFarStep(ref: Ref, fs: seq<Filter>, sep: string, i: nat, acc: string, items: seq<Value>, before: seq<Value>)
    requires i < |fs| && IsWordText(sep) && SoFar(ref, fs, sep, i, acc, items, before)
    ensures !Translatable(fs[i]) ==> !AllTranslatable(fs)
    ensures Translatable(fs[i]) ==>
              SoFar(ref, fs, sep, i + 1, acc + (if acc == "" then "" else " " + sep + " ") + GroupText(ref, fs[i]), items + Binds(fs[i]), before)
  {
    ChildStep(ref, fs, sep, i);
    assert Glue(sep, i) == if acc == "" then "" else " " + sep + " ";
    Regroup(acc, Glue(sep, i), GroupText(ref, fs[i]), RestText(ref, fs, sep, i + 1));
    Regroup(items, Binds(fs[i]), AllBinds(fs[i + 1..]), []);
  }

  lemma SoFarNext(ref: Ref, fs: seq<Filter>, sep: string, i: nat, acc: string, items: seq<Value>, before: seq<Value>, next: string)
    requires i < |fs| && IsWordText(sep) && SoFar(ref, fs, sep, i, acc, items, before) && Translatable(fs[i])
    requires next == acc + (if acc == "" then "" else " " + sep + " ") + ("(" + Show(FilterLx(ref, fs[i])) + ")") && next != ""
    ensures SoFar(ref, fs, sep, i + 1, next, items + Binds(fs[i]), before)
  {
    SoFarStep(ref, fs, sep, i, acc, items, before);
  }

  lemma SoFarEnd(ref: Ref, fs: seq<Filter>, sep: string, acc: string, items: seq<Value>, before: seq<Value>)
    requires SoFar(ref, fs, sep, |fs|, acc, items, before)
    ensures AllTranslatable(fs) && acc == (if fs == [] then "" else Show(JoinLx(ref, fs, sep))) && items == before + AllBinds(fs)
  {
    assert fs[|fs|..] == [] && fs[0..] == fs;
    assert acc + "" == acc && items + [] == items;
    if fs != [] { assert RestText(ref, fs, sep, 0) == "" + Show(JoinLx(ref, fs, sep)); }
  }

  /** The children loop of AND and OR; on failure the parameters of the siblings are still
      there. */
  method TranslateEach(column: string, fs: seq<Filter>, glue: string, params: ParamList, ghost ref: Ref, ghost sep: string)
    returns (ok: bool, acc: string)
    requires column == RefText(ref) && IsWordText(sep) && glue == " " + sep + " "
    modifies params
    ensures ok == AllTranslatable(fs) && old(params.items) <= params.items
    ensures ok ==> SoFar(ref, fs, sep, |fs|, acc, params.items, old(params.items))
    decreases fs, 0
  {
    acc := "";
    ghost var before := params.items;
    assert fs[0..] == fs;
    for i := 0 to |fs|
      invariant SoFar(ref, fs, sep, i, acc, params.items, before)
    {
      ghost var had, items := acc, params.items;
      var good, part := TranslateFilter(column, fs[i], params, ref);
      if !good {
        SoFarStep(ref, fs, sep, i, had, items, before);
        return false, "";
      }
      acc := AddChild(acc, glue, part);
      SoFarNext(ref, fs, sep, i, had, items, before, acc);
    }
    SoFarEnd(ref, fs, sep, acc, params.items, before);
    ok := true;
  }

  /** AND and OR; a failing child undoes what its siblings pushed. */
  method TranslateChildren(column: string, fs: seq<Filter>, glue: string, params: ParamList, ghost ref: Ref, ghost sep: string)
    returns (ok: bool, out: string)
    requires column == RefText(ref) && IsWordText(sep) && glue == " " + sep + " "
    modifies params
    ensures ok == (fs != [] && AllTranslatable(fs))
    ensures ok ==> out == Show(JoinLx(ref, fs, sep)) && params.items == old(params.items) + AllBinds(fs)
    ensures !ok ==> params.items == old(params.items)
    decreases fs, 1
  {
    var saved := |params.items|;
    ghost var before := params.items;
    ok, out := TranslateEach(column, fs, glue, params, ref, sep);
    if !ok {
      params.Resize(saved);
      return;
    }
    SoFarEnd(ref, fs, sep, out, params.items, before);
    ok := out != "";
  }

  function CommaText(i: nat): string {
    if i == 0 then "" else ", "
  }

  /** Text of the list from `i` on, with the comma that precedes it. */
  function ListText(vs: seq<Value>, i: nat): string
    requires i <= |vs|
  {
    if i == |vs| then "" else CommaText(i) + Show(ListLx(vs[i..]))
  }

  /** One round of the list loop, in the text, the parameters and the verdict. */
  lemma ListStep(vs: seq<Value>, i: nat)
    requires i < |vs|
    ensures ListText(vs, i) == CommaText(i) + Show(ValueLx(vs[i])) + ListText(vs, i + 1)
    ensures ListBinds(vs[i..]) == ValueBinds(vs[i]) + ListBinds(vs[i + 1..])
    ensures AllPrintable(vs[i..]) == (Printable(vs[i]) && AllPrintable(vs[i + 1..]))
  {
    var rest := vs[i..];
    assert rest[0] == vs[i] && rest[1..] == vs[i + 1..];
    if |rest| > 1 {
      Show3(ValueLx(rest[0]), COMMA_LX, ListLx(rest[1..]));
      CommaForm();
      Regroup(CommaText(i), Show(ValueLx(vs[i])), ", ", Show(ListLx(rest[1..])));
      Regroup(CommaText(i) + Show(ValueLx(vs[i])), ", ", Show(ListLx(rest[1..])), "");
    }
  }

  lemma {:induction false} InListText(ref: Ref, vs: seq<Value>)
    requires vs != []
    ensures Show(FilterLx(ref, OneOf(vs))) == RefText(ref) + " IN (" + Show(ListLx(vs)) + ")"
  {
    RefForm(ref);
    InOpen();
    Single(RP);
    ShowCat(RefLx(ref) + IN_OPEN + ListLx(vs), [S(')')]);
    Show3(RefLx(ref), IN_OPEN, ListLx(vs));
  }

  lemma InOpen()
    ensures Spaced(IN_OPEN) && Show(IN_OPEN) == " IN (" && Tokens(IN_OPEN) == [Word("IN"), LP]
  {
  }

  lemma NeverText()
    ensures Show(NEVER) == "(1=0)"
  {
  }

  method TranslateInList(column: string, vs: seq<Value>, params: ParamList, ghost ref: Ref)
    returns (ok: bool, out: string)
    requires column == RefText(ref)
    modifies params
    ensures ok == AllPrintable(vs)
    ensures ok ==> out == Show(FilterLx(ref, OneOf(vs))) && params.items == old(params.items) + ListBinds(vs)
    ensures !ok ==> params.items == old(params.items)
  {
    if vs == [] {
      NeverText();
      return true, "(1=0)";
    }
    var saved := |params.items|;
    var acc;
    ok, acc := AppendValues(column + " IN (", vs, params);
    if !ok {
      params.Resize(saved);
      return false, "";
    }
    InListText(ref, vs);
    return true, acc + ")";
  }

  /** The loop over the elements of an IN list. */
  method AppendValues(start: string, vs: seq<Value>, params: ParamList) returns (ok: bool, acc: string)
    requires vs != []
    modifies params
    ensures ok == AllPrintable(vs)
    ensures ok ==> acc == start + Show(ListLx(vs)) && params.items == old(params.items) + ListBinds(vs)
    ensures old(params.items) <= params.items
  {
    acc := start;
    ghost var whole, binds := start + ListText(vs, 0), params.items + ListBinds(vs);
    assert vs[0..] == vs && ListText(vs, 0) == Show(ListLx(vs));
    for i := 0 to |vs|
      invariant old(params.items) <= params.items
      invariant acc + ListText(vs, i) == whole
      invariant params.items + ListBinds(vs[i..]) == binds
      invariant AllPrintable(vs[i..]) == AllPrintable(vs)
    {
      ListStep(vs, i);
      Regroup(acc, CommaText(i), Show(ValueLx(vs[i])), ListText(vs, i + 1));
      Regroup(params.items, ValueBinds(vs[i]), ListBinds(vs[i + 1..]), []);
      ghost var before := acc;
      if i > 0 { acc := acc + ", "; }
      assert acc == before + CommaText(i);
      var good, text := AppendValue(vs[i], params);
      if !good {
        return false, acc;
      }
      acc := acc + text;
      assert acc == before + CommaText(i) + Show(ValueLx(vs[i]));
    }
    assert acc + "" == acc && params.items + [] == params.items && vs[|vs|..] == [];
    ok := true;
  }

  /** One element of an IN list: a placeholder and its value, or a literal. */
  method AppendValue(v: Value, params: ParamList) returns (ok: bool, text: string)
    modifies params
    ensures ok == Printable(v)
    ensures ok ==> text == Show(ValueLx(v))
    ensures params.items == old(params.items) + if ok then ValueBinds(v) else []
  {
    if IsBindableType(TypeOf(v)) {
      Single(MARK);
      params.Push(v);
      return true, "?";
    }
    ok, text := SafeLiteralInline(v);
  }

  // --- the emitted text is well spaced -----------------------------------------------------------

  lemma NullTestForm()
    ensures Spaced(IS_NULL) && Tokens(IS_NULL) == [Word("IS"), Word("NULL")]
    ensures Spaced(IS_NOT_NULL) && Tokens(IS_NOT_NULL) == [Word("IS"), Word("NOT"), Word("NULL")]
  {
    IsNullForm();
    IsNotNullForm();
    IsNotNullTokens();
  }

  lemma IsNullForm()
    ensures Spaced(IS_NULL) && Tokens(IS_NULL) == [Word("IS"), Word("NULL")]
  {
  }

  lemma {:induction false} IsNotNullForm()
    ensures Spaced(IS_NOT_NULL)
  {
    Single(Word("IS"));
    Single(Word("NULL"));
    SepForm("NOT");
    Join3([W("IS")], SepLx("NOT"), [W("NULL")]);
    assert IS_NOT_NULL[1..] == [W("IS")] + SepLx("NOT") + [W("NULL")];
  }

  lemma IsNotNullTokens()
    ensures Tokens(IS_NOT_NULL) == [Word("IS"), Word("NOT"), Word("NULL")]
  {
  }

  lemma {:induction false} NeverForm()
    ensures Spaced(NEVER) && Tokens(NEVER) == [LP, Number("1"), Rel(Eq), Number("0"), RP]
  {
  }

  lemma {:induction false} ListForm(vs: seq<Value>)
    requires vs != []
    ensures Spaced(ListLx(vs))
    ensures Tokens(ListLx(vs)) == Tokens(ValueLx(vs[0])) + if |vs| == 1 then [] else [COMMA] + Tokens(ListLx(vs[1..]))
  {
    ValueSpaced(vs[0]);
    if |vs| <= 1 {
    } else {
      CommaForm();
      ListForm(vs[1..]);
      Join(ValueLx(vs[0]), COMMA_LX);
      Join(ValueLx(vs[0]) + COMMA_LX, ListLx(vs[1..]));
    }
  }

  lemma NullTestSpaced(ref: Ref)
    ensures Spaced(RefLx(ref) + IS_NULL) && Spaced(RefLx(ref) + IS_NOT_NULL)
  {
    RefForm(ref);
    NullTestForm();
    Join(RefLx(ref), IS_NULL);
    Join(RefLx(ref), IS_NOT_NULL);
  }

  lemma ConstantSpaced(ref: Ref, op: CmpOp, v: Value)
    requires Translatable(Filter.Constant(op, v))
    ensures Spaced(FilterLx(ref, Filter.Constant(op, v)))
  {
    RefForm(ref);
    OpForm(op);
    ValueSpaced(v);
    Join(RefLx(ref), OpLx(op));
    Join(RefLx(ref) + OpLx(op), ValueLx(v));
  }

  /** The text of every translatable filter is well spaced. */
  lemma {:induction false} FilterSpaced(ref: Ref, f: Filter)
    requires Translatable(f)
    ensures Spaced(FilterLx(ref, f))
    decreases f, 1
  {
    match f
    case IsNull => NullTestSpaced(ref);
    case IsNotNull => NullTestSpaced(ref);
    case Constant(op, v) => ConstantSpaced(ref, op, v);
    case AllOf(fs) => JoinSpaced(ref, fs, "AND");
    case AnyOf(fs) => JoinSpaced(ref, fs, "OR");
    case OneOf(vs) => InSpaced(ref, vs);
    case Optional(child) => FilterSpaced(ref, child.value);
  }

  lemma {:induction false} InSpaced(ref: Ref, vs: seq<Value>)
    ensures Spaced(FilterLx(ref, OneOf(vs)))
    ensures vs != [] ==> Tokens(FilterLx(ref, OneOf(vs))) == RefTokens(ref) + [Word("IN"), LP] + Tokens(ListLx(vs)) + [RP]
  {
    if vs == [] {
      NeverForm();
    } else {
      InListSpaced(ref, vs);
    }
  }

  lemma InListSpaced(ref: Ref, vs: seq<Value>)
    requires vs != []
    ensures Spaced(RefLx(ref) + IN_OPEN + ListLx(vs) + [S(')')])
    ensures Tokens(RefLx(ref) + IN_OPEN + ListLx(vs) + [S(')')]) == RefTokens(ref) + [Word("IN"), LP] + Tokens(ListLx(vs)) + [RP]
  {
    RefForm(ref);
    InOpen();
    ListForm(vs);
    Bracketed(RefLx(ref), IN_OPEN, ListLx(vs));
  }

  lemma {:induction false} JoinSpaced(ref: Ref, fs: seq<Filter>, sep: string)
    requires fs != [] && AllTranslatable(fs) && IsWordText(sep)
    ensures Spaced(JoinLx(ref, fs, sep))
    ensures Tokens(JoinLx(ref, fs, sep)) ==
      [LP] + Tokens(FilterLx(ref, fs[0])) + [RP] + if |fs| == 1 then [] else [Word(sep)] + Tokens(JoinLx(ref, fs[1..], sep))
    decreases fs, 0
  {
    FilterSpaced(ref, fs[0]);
    var group := GroupLx(FilterLx(ref, fs[0]));
    GroupForm(FilterLx(ref, fs[0]));
    if |fs| <= 1 {
    } else {
      JoinSpaced(ref, fs[1..], sep);
      SepForm(sep);
      Join3(group, SepLx(sep), JoinLx(ref, fs[1..], sep));
      Regroup(Tokens(group), [Word(sep)], Tokens(JoinLx(ref, fs[1..], sep)), []);
    }
  }

  // --- the emitted text parses to the intended condition ---------------------------------------------

  function ValueOperands(vs: seq<Value>): seq<Operand> {
    if vs == [] then [] else [ValueOperand(vs[0])] + ValueOperands(vs[1..])
  }

  /** The condition a translated filter denotes. */
  function FilterSql(ref: Ref, f: Filter): Sql
    decreases f, 1
  {
    match f
    case IsNull => NullTest(Column(ref), false)
    case IsNotNull => NullTest(Column(ref), true)
    case Constant(op, v) => Cmp(Column(ref), op, ValueOperand(v))
    case AllOf(fs) => MkAnd(FilterSqls(ref, fs))
    case AnyOf(fs) => MkOr(FilterSqls(ref, fs))
    case OneOf(vs) =>
      if vs == [] then Cmp(Exact(1, 0), Eq, Exact(0, 0)) else In(Column(ref), false, ValueOperands(vs))
    case Optional(Some(c)) => FilterSql(ref, c)
    case _ => And([])
  }

  function FilterSqls(ref: Ref, fs: seq<Filter>): (ps: seq<Sql>)
    ensures |ps| == |fs|
    decreases fs, 0
  {
    if fs == [] then [] else [FilterSql(ref, fs[0])] + FilterSqls(ref, fs[1..])
  }

  /** Reading a column reference first hands the rest to ParseRest. */
  lemma {:induction false} RefFirst(ref: Ref, rest: seq<Token>, ps: seq<Value>)
    ensures ParseFactor(RefTokens(ref) + rest, ps) == ParseRest(Column(ref), rest, ps)
  {
    ParseRef(ref, rest, ps);
    assert (RefTokens(ref) + rest)[0] == RefTokens(ref)[0];
  }

  lemma RefThenTokens(ref: Ref, xs: seq<Lexeme>, rest: seq<Token>)
    ensures Tokens(RefLx(ref) + xs) + rest == RefTokens(ref) + (Tokens(xs) + rest)
  {
    RefForm(ref);
    TokensCat(RefLx(ref), xs);
    Regroup(RefTokens(ref), Tokens(xs), rest, []);
  }

  lemma RefThen(ref: Ref, xs: seq<Lexeme>, rest: seq<Token>, ps: seq<Value>)
    ensures ParseFactor(Tokens(RefLx(ref) + xs) + rest, ps) == ParseRest(Column(ref), Tokens(xs) + rest, ps)
  {
    RefThenTokens(ref, xs, rest);
    RefFirst(ref, Tokens(xs) + rest, ps);
  }

  lemma {:induction false} ParseComparison(l: Operand, op: CmpOp, v: Value, rest: seq<Token>, ps: seq<Value>)
    requires HasText(op) && Printable(v)
    ensures ParseRest(l, Tokens(OpLx(op) + ValueLx(v)) + rest, ValueBinds(v) + ps) ==
            Got(Cmp(l, op, ValueOperand(v)), rest, ps)
  {
    OpForm(op);
    TokensCat(OpLx(op), ValueLx(v));
    var ts := [Rel(op)] + Tokens(ValueLx(v)) + rest;
    assert ts[1..] == Tokens(ValueLx(v)) + rest;
    ParseValue(v, rest, ps);
  }

  lemma ParseConstant(ref: Ref, op: CmpOp, v: Value, rest: seq<Token>, ps: seq<Value>)
    requires HasText(op) && Printable(v)
    ensures ParseFactor(Tokens(RefLx(ref) + OpLx(op) + ValueLx(v)) + rest, ValueBinds(v) + ps) ==
            Got(Cmp(Column(ref), op, ValueOperand(v)), rest, ps)
  {
    assert RefLx(ref) + OpLx(op) + ValueLx(v) == RefLx(ref) + (OpLx(op) + ValueLx(v));
    RefThen(ref, OpLx(op) + ValueLx(v), rest, ValueBinds(v) + ps);
    ParseComparison(Column(ref), op, v, rest, ps);
  }

  lemma {:induction false} ParseIsNull(l: Operand, rest: seq<Token>, ps: seq<Value>)
    ensures ParseRest(l, [Word("IS"), Word("NULL")] + rest, ps) == Got(NullTest(l, false), rest, ps)
  {
    var a := [Word("IS"), Word("NULL")];
    assert (a + rest)[..2] == a && (a + rest)[2..] == rest;
  }

  lemma ParseIsNotNull(l: Operand, rest: seq<Token>, ps: seq<Value>)
    ensures ParseRest(l, [Word("IS"), Word("NOT"), Word("NULL")] + rest, ps) == Got(NullTest(l, true), rest, ps)
  {
    var b := [Word("IS"), Word("NOT"), Word("NULL")];
    assert (b + rest)[..3] == b && (b + rest)[3..] == rest;
    assert (b + rest)[..2][1] == Word("NOT");
  }

  lemma ParseNullTest(ref: Ref, rest: seq<Token>, ps: seq<Value>)
    ensures ParseFactor(Tokens(RefLx(ref) + IS_NULL) + rest, ps) == Got(NullTest(Column(ref), false), rest, ps)
    ensures ParseFactor(Tokens(RefLx(ref) + IS_NOT_NULL) + rest, ps) == Got(NullTest(Column(ref), true), rest, ps)
  {
    NullTestForm();
    RefThen(ref, IS_NULL, rest, ps);
    RefThen(ref, IS_NOT_NULL, rest, ps);
    ParseIsNull(Column(ref), rest, ps);
    ParseIsNotNull(Column(ref), rest, ps);
  }

  function AfterValue(vs: seq<Value>, rest: seq<Token>): seq<Token>
    requires vs != []
  {
    if |vs| == 1 then [RP] + rest else [COMMA] + (Tokens(ListLx(vs[1..])) + ([RP] + rest))
  }

  lemma ListTokens(vs: seq<Value>, rest: seq<Token>)
    requires vs != []
    ensures Tokens(ListLx(vs)) + ([RP] + rest) == Tokens(ValueLx(vs[0])) + AfterValue(vs, rest)
  {
    ListForm(vs);
    if |vs| > 1 {
      Regroup(Tokens(ValueLx(vs[0])), [COMMA], Tokens(ListLx(vs[1..])), [RP] + rest);
      Regroup([COMMA], Tokens(ListLx(vs[1..])), [RP] + rest, []);
    }
  }

  /** The first element of a list, with what follows it. */
  lemma ParseElement(vs: seq<Value>, rest: seq<Token>, ps: seq<Value>)
    requires vs != [] && Printable(vs[0])
    ensures ParseOperand(Tokens(ListLx(vs)) + ([RP] + rest), ListBinds(vs) + ps) ==
            Got(ValueOperand(vs[0]), AfterValue(vs, rest), ListBinds(vs[1..]) + ps)
  {
    ListTokens(vs, rest);
    Regroup(ValueBinds(vs[0]), ListBinds(vs[1..]), ps, []);
    ParseValue(vs[0], AfterValue(vs, rest), ListBinds(vs[1..]) + ps);
  }

  /** One item of a list has been read. */
  lemma ListRound(acc: seq<Operand>, ts: seq<Token>, ps: seq<Value>, o: Operand, after: seq<Token>, more: seq<Value>)
    requires ParseOperand(ts, ps) == Got(o, after, more) && after != []
    ensures after[0] == COMMA ==> ParseList(acc, ts, ps) == ParseList(acc + [o], after[1..], more)
    ensures after[0] == RP ==> ParseList(acc, ts, ps) == Got(acc + [o], after[1..], more)
  {
  }

  lemma {:induction false} ParseListItems(acc: seq<Operand>, vs: seq<Value>, rest: seq<Token>, ps: seq<Value>)
    requires vs != [] && AllPrintable(vs)
    ensures ParseList(acc, Tokens(ListLx(vs)) + ([RP] + rest), ListBinds(vs) + ps) ==
            Got(acc + ValueOperands(vs), rest, ps)
    decreases |vs|
  {
    ParseElement(vs, rest, ps);
    var o := ValueOperand(vs[0]);
    var after := AfterValue(vs, rest);
    ListRound(acc, Tokens(ListLx(vs)) + ([RP] + rest), ListBinds(vs) + ps, o, after, ListBinds(vs[1..]) + ps);
    if |vs| == 1 {
      assert ListBinds(vs[1..]) + ps == ps && after[1..] == rest;
      assert ValueOperands(vs) == [o];
    } else {
      assert after[1..] == Tokens(ListLx(vs[1..])) + ([RP] + rest);
      ParseListItems(acc + [o], vs[1..], rest, ps);
      Regroup(acc, [o], ValueOperands(vs[1..]), []);
    }
  }

  lemma {:induction false} ParseNever(rest: seq<Token>, ps: seq<Value>)
    ensures ParseFactor(Tokens(NEVER) + rest, ps) == Got(Cmp(Exact(1, 0), Eq, Exact(0, 0)), rest, ps)
  {
    NeverForm();
    ReadBit();
    var inner := [Number("1"), Rel(Eq), Number("0")];
    var after := [RP] + rest;
    assert inner + after == [Number("1")] + ([Rel(Eq)] + ([Number("0")] + after));
    var a := [Rel(Eq)] + ([Number("0")] + after);
    assert (inner + after)[1..] == a && a[1..] == [Number("0")] + after && ([Number("0")] + after)[1..] == after;
    assert ParseRest(Exact(1, 0), a, ps) == Got(Cmp(Exact(1, 0), Eq, Exact(0, 0)), after, ps);
    LoneFactor(inner + after, ps, Cmp(Exact(1, 0), Eq, Exact(0, 0)), after, ps);
    Group(inner, ps, Cmp(Exact(1, 0), Eq, Exact(0, 0)), rest, ps);
    assert Tokens(NEVER) + rest == [LP] + inner + [RP] + rest;
  }

  lemma ReadBit()
    ensures Read("1") == Reading(1, 0, false) && Read("0") == Reading(0, 0, false)
  {
    assert "1"[..0] == "" && "0"[..0] == "";
  }

  lemma {:induction false} ParseInRest(l: Operand, negated: bool, items: seq<Operand>, body: seq<Token>, ps: seq<Value>, rest: seq<Token>, ps': seq<Value>)
    requires ParseList([], body, ps) == Got(items, rest, ps')
    ensures ParseRest(l, (if negated then [Word("NOT")] else []) + [Word("IN"), LP] + body, ps) == Got(In(l, negated, items), rest, ps')
  {
    var open := [Word("IN"), LP];
    if negated {
      assert [Word("NOT")] + open == [Word("NOT"), Word("IN"), LP];
      NotInRest(l, items, body, ps, rest, ps');
    } else {
      assert [] + open == open;
      InRest(l, items, body, ps, rest, ps');
    }
  }

  lemma {:induction false} InRest(l: Operand, items: seq<Operand>, body: seq<Token>, ps: seq<Value>, rest: seq<Token>, ps': seq<Value>)
    requires ParseList([], body, ps) == Got(items, rest, ps')
    ensures ParseRest(l, [Word("IN"), LP] + body, ps) == Got(In(l, false, items), rest, ps')
  {
    var open := [Word("IN"), LP];
    assert (open + body)[..2] == open && (open + body)[2..] == body;
  }

  lemma {:induction false} NotInRest(l: Operand, items: seq<Operand>, body: seq<Token>, ps: seq<Value>, rest: seq<Token>, ps': seq<Value>)
    requires ParseList([], body, ps) == Got(items, rest, ps')
    ensures ParseRest(l, [Word("NOT"), Word("IN"), LP] + body, ps) == Got(In(l, true, items), rest, ps')
  {
    var open := [Word("NOT"), Word("IN"), LP];
    var ts := open + body;
    assert ts[..3] == open && ts[3..] == body && ts[0] == Word("NOT");
    StartsHead(ts, [Word("IS"), Word("NULL")]);
    StartsHead(ts, [Word("IS"), Word("NOT"), Word("NULL")]);
    StartsHead(ts, [Word("IN"), LP]);
  }

  lemma {:induction false} StartsHead(ts: seq<Token>, prefix: seq<Token>)
    requires ts != [] && prefix != []
    ensures Starts(ts, prefix) ==> ts[0] == prefix[0]
  {
    if Starts(ts, prefix) { assert ts[..|prefix|][0] == ts[0]; }
  }

  lemma {:induction false} InTokens(ref: Ref, vs: seq<Value>, rest: seq<Token>)
    requires vs != []
    ensures Tokens(FilterLx(ref, OneOf(vs))) + rest ==
            RefTokens(ref) + ([] + [Word("IN"), LP] + (Tokens(ListLx(vs)) + ([RP] + rest)))
  {
    InSpaced(ref, vs);
  }

  lemma ParseIn(ref: Ref, vs: seq<Value>, rest: seq<Token>, ps: seq<Value>)
    requires vs != [] && AllPrintable(vs)
    ensures ParseFactor(Tokens(FilterLx(ref, OneOf(vs))) + rest, ListBinds(vs) + ps) ==
            Got(In(Column(ref), false, ValueOperands(vs)), rest, ps)
  {
    InTokens(ref, vs, rest);
    var body := Tokens(ListLx(vs)) + ([RP] + rest);
    ParseListItems([], vs, rest, ps);
    assert [] + ValueOperands(vs) == ValueOperands(vs);
    ParseInRest(Column(ref), false, ValueOperands(vs), body, ListBinds(vs) + ps, rest, ps);
    RefFirst(ref, [] + [Word("IN"), LP] + body, ListBinds(vs) + ps);
  }

  /** The text of a translated filter, wherever it stands, parses to the filter's
      condition and consumes exactly the filter's own parameters. */
  lemma {:induction false} ParseFilter(ref: Ref, f: Filter, rest: seq<Token>, ps: seq<Value>)
    requires Translatable(f) && Stops(rest)
    ensures ParseOr(Tokens(FilterLx(ref, f)) + rest, Binds(f) + ps) == Got(FilterSql(ref, f), rest, ps)
    decreases f, 1
  {
    var ts := Tokens(FilterLx(ref, f)) + rest;
    assert [] + ps == ps;
    match f
    case IsNull | IsNotNull =>
      ParseNullTest(ref, rest, ps);
      LoneFactor(ts, ps, FilterSql(ref, f), rest, ps);
    case Constant(op, v) =>
      ParseConstant(ref, op, v, rest, ps);
      LoneFactor(ts, Binds(f) + ps, FilterSql(ref, f), rest, ps);
    case OneOf(vs) =>
      if vs == [] { ParseNever(rest, ps); } else { ParseIn(ref, vs, rest, ps); }
      LoneFactor(ts, Binds(f) + ps, FilterSql(ref, f), rest, ps);
    case AllOf(fs) => ParseConjunction(ref, fs, rest, ps);
    case AnyOf(fs) => ParseDisjunction(ref, fs, rest, ps);
    case Optional(child) => ParseFilter(ref, child.value, rest, ps);
  }

  lemma {:induction false} ChildTokens(ref: Ref, fs: seq<Filter>, sep: string, rest: seq<Token>)
    requires fs != [] && AllTranslatable(fs) && IsWordText(sep)
    ensures Tokens(JoinLx(ref, fs, sep)) + rest == [LP] + Tokens(FilterLx(ref, fs[0])) + [RP] + Trailing(ref, fs[1..], sep, rest)
    decreases fs, 0
  {
    JoinSpaced(ref, fs, sep);
  }

  /** The first child group, with what follows it. */
  lemma {:induction false} ParseChild(ref: Ref, fs: seq<Filter>, sep: string, rest: seq<Token>, ps: seq<Value>)
    requires fs != [] && AllTranslatable(fs) && IsWordText(sep) && Stops(rest)
    ensures ParseFactor(Tokens(JoinLx(ref, fs, sep)) + rest, AllBinds(fs) + ps) ==
            Got(FilterSql(ref, fs[0]), Trailing(ref, fs[1..], sep, rest), AllBinds(fs[1..]) + ps)
    decreases fs, 0
  {
    var body := Tokens(FilterLx(ref, fs[0]));
    var after := Trailing(ref, fs[1..], sep, rest);
    ChildTokens(ref, fs, sep, rest);
    Regroup(Binds(fs[0]), AllBinds(fs[1..]), ps, []);
    ParseFilter(ref, fs[0], [RP] + after, AllBinds(fs[1..]) + ps);
    Group(body, AllBinds(fs) + ps, FilterSql(ref, fs[0]), after, AllBinds(fs[1..]) + ps);
  }

  /** What follows an operand: the others, after the separator, then `rest`. */
  function Following(last: bool, sep: string, others: seq<Token>, rest: seq<Token>): seq<Token> {
    if last then rest else [Word(sep)] + (others + rest)
  }

  function Trailing(ref: Ref, fs: seq<Filter>, sep: string, rest: seq<Token>): seq<Token> {
    Following(fs == [], sep, Tokens(JoinLx(ref, fs, sep)), rest)
  }

  lemma {:induction false} ConjunctionRound(acc: seq<Sql>, ref: Ref, fs: seq<Filter>, rest: seq<Token>, ps: seq<Value>)
    requires fs != [] && AllTranslatable(fs) && Stops(rest)
    ensures ParseAndTail(acc, Trailing(ref, fs, "AND", rest), AllBinds(fs) + ps) ==
            ParseAndTail(acc + [FilterSql(ref, fs[0])], Trailing(ref, fs[1..], "AND", rest), AllBinds(fs[1..]) + ps)
    decreases fs, 1
  {
    ParseChild(ref, fs, "AND", rest, ps);
    AndTailStep(acc, Tokens(JoinLx(ref, fs, "AND")) + rest, AllBinds(fs) + ps, FilterSql(ref, fs[0]),
                Trailing(ref, fs[1..], "AND", rest), AllBinds(fs[1..]) + ps);
  }

  lemma {:induction false} ConjunctionTail(acc: seq<Sql>, ref: Ref, fs: seq<Filter>, rest: seq<Token>, ps: seq<Value>)
    requires AllTranslatable(fs) && Stops(rest)
    ensures ParseAndTail(acc, Trailing(ref, fs, "AND", rest), AllBinds(fs) + ps) ==
            Got(MkAnd(acc + FilterSqls(ref, fs)), rest, ps)
    decreases fs, 2
  {
    if fs == [] {
      assert acc + [] == acc && [] + ps == ps;
      TailStops(acc, rest, ps);
    } else {
      ConjunctionRound(acc, ref, fs, rest, ps);
      ConjunctionTail(acc + [FilterSql(ref, fs[0])], ref, fs[1..], rest, ps);
      Regroup(acc, [FilterSql(ref, fs[0])], FilterSqls(ref, fs[1..]), []);
    }
  }

  lemma {:induction false} ParseConjunction(ref: Ref, fs: seq<Filter>, rest: seq<Token>, ps: seq<Value>)
    requires fs != [] && AllTranslatable(fs) && Stops(rest)
    ensures ParseOr(Tokens(JoinLx(ref, fs, "AND")) + rest, AllBinds(fs) + ps) == Got(MkAnd(FilterSqls(ref, fs)), rest, ps)
    decreases fs, 3
  {
    ParseChild(ref, fs, "AND", rest, ps);
    ConjunctionTail([FilterSql(ref, fs[0])], ref, fs[1..], rest, ps);
    assert [FilterSql(ref, fs[0])] + FilterSqls(ref, fs[1..]) == FilterSqls(ref, fs);
  }

  lemma {:induction false} ChildConjunction(ref: Ref, fs: seq<Filter>, rest: seq<Token>, ps: seq<Value>)
    requires fs != [] && AllTranslatable(fs) && Stops(rest)
    ensures ParseAnd(Tokens(JoinLx(ref, fs, "OR")) + rest, AllBinds(fs) + ps) ==
            Got(FilterSql(ref, fs[0]), Trailing(ref, fs[1..], "OR", rest), AllBinds(fs[1..]) + ps)
    decreases fs, 1
  {
    ParseChild(ref, fs, "OR", rest, ps);
    assert MkAnd([FilterSql(ref, fs[0])]) == FilterSql(ref, fs[0]);
  }

  lemma DisjunctionRound(acc: seq<Sql>, ref: Ref, fs: seq<Filter>, rest: seq<Token>, ps: seq<Value>)
    requires fs != [] && AllTranslatable(fs) && Stops(rest)
    ensures ParseOrTail(acc, Trailing(ref, fs, "OR", rest), AllBinds(fs) + ps) ==
            ParseOrTail(acc + [FilterSql(ref, fs[0])], Trailing(ref, fs[1..], "OR", rest), AllBinds(fs[1..]) + ps)
    decreases fs, 2
  {
    ChildConjunction(ref, fs, rest, ps);
    OrTailStep(acc, Tokens(JoinLx(ref, fs, "OR")) + rest, AllBinds(fs) + ps, FilterSql(ref, fs[0]),
               Trailing(ref, fs[1..], "OR", rest), AllBinds(fs[1..]) + ps);
  }

  lemma {:induction false} DisjunctionTail(acc: seq<Sql>, ref: Ref, fs: seq<Filter>, rest: seq<Token>, ps: seq<Value>)
    requires AllTranslatable(fs) && Stops(rest)
    ensures ParseOrTail(acc, Trailing(ref, fs, "OR", rest), AllBinds(fs) + ps) ==
            Got(MkOr(acc + FilterSqls(ref, fs)), rest, ps)
    decreases fs, 3
  {
    if fs == [] {
      assert acc + [] == acc && [] + ps == ps;
      TailStops(acc, rest, ps);
    } else {
      DisjunctionRound(acc, ref, fs, rest, ps);
      DisjunctionTail(acc + [FilterSql(ref, fs[0])], ref, fs[1..], rest, ps);
      Regroup(acc, [FilterSql(ref, fs[0])], FilterSqls(ref, fs[1..]), []);
    }
  }

  lemma ParseDisjunction(ref: Ref, fs: seq<Filter>, rest: seq<Token>, ps: seq<Value>)
    requires fs != [] && AllTranslatable(fs) && Stops(rest)
    ensures ParseOr(Tokens(JoinLx(ref, fs, "OR")) + rest, AllBinds(fs) + ps) == Got(MkOr(FilterSqls(ref, fs)), rest, ps)
    decreases fs, 4
  {
    ChildConjunction(ref, fs, rest, ps);
    DisjunctionTail([FilterSql(ref, fs[0])], ref, fs[1..], rest, ps);
    assert [FilterSql(ref, fs[0])] + FilterSqls(ref, fs[1..]) == FilterSqls(ref, fs);
  }

  // --- the condition means what the filter means -----------------------------------------------------

  /** No constant of the filter is changed by the bind path, see BindExactCondition. */
  predicate Faithful(f: Filter)
    decreases f, 1
  {
    match f
    case Constant(op, v) => BindExact(op, v)
    case AllOf(fs) => AllFaithful(fs)
    case AnyOf(fs) => AllFaithful(fs)
    case OneOf(vs) => forall i :: 0 <= i < |vs| ==> BindExact(Eq, vs[i])
    case Optional(Some(c)) => Faithful(c)
    case _ => true
  }

  predicate AllFaithful(fs: seq<Filter>)
    decreases fs, 0
  {
    fs == [] || (Faithful(fs[0]) && AllFaithful(fs[1..]))
  }

  lemma OperandMeaning(op: CmpOp, x: Option<Datum>, v: Value, row: Row)
    requires Printable(v) && OnTick(x) && BindExact(op, v)
    ensures Compare(op, x, EvalOperand(ValueOperand(v), row)) == Compare(op, x, Payload(v))
  {
    BoundAgrees(op, x, v);
  }

  lemma {:induction false} ListMeaning(x: Option<Datum>, vs: seq<Value>, row: Row)
    requires AllPrintable(vs) && OnTick(x) && forall i :: 0 <= i < |vs| ==> BindExact(Eq, vs[i])
    ensures MemberOf(x, EvalOperands(ValueOperands(vs), row)) == MemberOf(x, Payloads(vs))
  {
    if vs == [] {
    } else {
      OperandMeaning(Eq, x, vs[0], row);
      ListMeaning(x, vs[1..], row);
      assert EvalOperands(ValueOperands(vs), row)[1..] == EvalOperands(ValueOperands(vs[1..]), row);
      assert Payloads(vs)[1..] == Payloads(vs[1..]);
    }
  }

  /** On every value, NULL included, the emitted condition has the truth value of
      the filter. */
  lemma {:induction false} FilterMeaning(ref: Ref, f: Filter, row: Row, x: Option<Datum>, other: Oracle)
    requires Translatable(f) && Faithful(f)
    requires EvalRef(ref, row) == x && OnTick(x)
    ensures Eval(FilterSql(ref, f), row) == Sem(f, x, other)
    decreases f, 1
  {
    match f
    case IsNull | IsNotNull =>
    case Constant(op, v) => OperandMeaning(op, x, v, row);
    case AllOf(fs) =>
      ChildrenMeaning(ref, fs, row, x, other);
      MkAndMeaning(FilterSqls(ref, fs), row);
    case AnyOf(fs) =>
      ChildrenMeaning(ref, fs, row, x, other);
      MkOrMeaning(FilterSqls(ref, fs), row);
    case OneOf(vs) =>
      if vs != [] { ListMeaning(x, vs, row); }
    case Optional(child) => FilterMeaning(ref, child.value, row, x, other);
  }

  lemma {:induction false} ChildrenMeaning(ref: Ref, fs: seq<Filter>, row: Row, x: Option<Datum>, other: Oracle)
    requires AllTranslatable(fs) && AllFaithful(fs)
    requires EvalRef(ref, row) == x && OnTick(x)
    ensures EvalAll(FilterSqls(ref, fs), row) == SemAll(fs, x, other)
    ensures EvalAny(FilterSqls(ref, fs), row) == SemAny(fs, x, other)
    decreases fs, 0
  {
    if fs == [] {
    } else {
      FilterMeaning(ref, fs[0], row, x, other);
      ChildrenMeaning(ref, fs[1..], row, x, other);
      assert FilterSqls(ref, fs)[1..] == FilterSqls(ref, fs[1..]);
    }
  }

  /** A translated table filter never makes the server reject the statement. */
  lemma {:induction false} ValueOperandsPlain(vs: seq<Value>)
    ensures forall i :: 0 <= i < |ValueOperands(vs)| ==> !ValueOperands(vs)[i].Chars?
  {
    if vs == [] {
    } else {
      ValueOperandsPlain(vs[1..]);
    }
  }

  lemma {:induction false} FilterAccepted(ref: Ref, f: Filter)
    requires Translatable(f)
    ensures !Rejected(FilterSql(ref, f))
    decreases f, 1
  {
    match f
    case AllOf(fs) => ChildrenAccepted(ref, fs);
    case AnyOf(fs) => ChildrenAccepted(ref, fs);
    case Optional(child) => FilterAccepted(ref, child.value);
    case OneOf(vs) => ValueOperandsPlain(vs);
    case _ =>
  }

  lemma {:induction false} ChildrenAccepted(ref: Ref, fs: seq<Filter>)
    requires AllTranslatable(fs)
    ensures forall i :: 0 <= i < |fs| ==> !Rejected(FilterSqls(ref, fs)[i])
    decreases fs, 0
  {
    if fs == [] {
    } else {
      FilterAccepted(ref, fs[0]);
      ChildrenAccepted(ref, fs[1..]);
    }
  }
}
