/** The conditions of a WHERE clause: translated table filters, lifted complex
    predicates and key ranges, with their text, parameters and parse. */
module Conditions {
  import opened Wrappers
  import opened Values
  import opened SqlTokens
  import opened SqlGrammar
  import opened SqlSemantics
  import opened LikePatterns
  import opened Emission
  import opened TableFilters

  /** A predicate lifted by the complex-filter hook. */
  datatype Extra =
    | LikeExtra(ref: Ref, pattern: string)
    | EqualExtra(ref: Ref, charset: string, bytes: string)
    | InExtra(ref: Ref, charset: string, items: seq<string>)
    | NotInExtra(ref: Ref, values: seq<Value>)
    | NotBoolExtra(name: string)

  predicate AllBindable(vs: seq<Value>) {
    forall i :: 0 <= i < |vs| ==> IsBindableType(TypeOf(vs[i]))
  }

  predicate ValidCharset(w: string) { IsWordText(w) && w[0] == '_' }

  predicate ValidExtra(e: Extra) {
    match e
    case LikeExtra(_, _) => true
    case EqualExtra(_, w, _) => ValidCharset(w)
    case InExtra(_, w, items) => ValidCharset(w) && items != []
    case NotInExtra(_, vs) => vs != [] && AllBindable(vs)
    case NotBoolExtra(_) => true
  }

  // --- lexemes ------------------------------------------------------------------------

  const LIKE_LX: seq<Lexeme> := [Space, W("LIKE"), Space]
  const ESCAPE_LX: seq<Lexeme> := [Space, W("ESCAPE"), Space, Tok(Str("\\"))]
  const NOT_IN_OPEN: seq<Lexeme> := [Space, W("NOT"), Space, W("IN"), Space, S('(')]
  const NOT_LX: seq<Lexeme> := [W("NOT"), Space]

  /** A literal behind its charset introducer. */
  function CharsLx(charset: string, bytes: string): seq<Lexeme> { [W(charset), Space, Tok(Str(bytes))] }

  function CharsListLx(charset: string, items: seq<string>): seq<Lexeme> {
    if items == [] then []
    else if |items| == 1 then CharsLx(charset, items[0])
    else CharsLx(charset, items[0]) + COMMA_LX + CharsListLx(charset, items[1..])
  }

  function ExtraLx(e: Extra): seq<Lexeme> {
    match e
    case LikeExtra(ref, p) => RefLx(ref) + LIKE_LX + [Tok(Str(p))] + ESCAPE_LX
    case EqualExtra(ref, w, b) => RefLx(ref) + OpLx(Eq) + CharsLx(w, b)
    case InExtra(ref, w, items) => RefLx(ref) + IN_OPEN + CharsListLx(w, items) + [S(')')]
    case NotInExtra(ref, vs) => RefLx(ref) + NOT_IN_OPEN + ListLx(vs) + [S(')')]
    case NotBoolExtra(n) => NOT_LX + [Tok(Quoted(n))]
  }

  function ExtraBinds(e: Extra): seq<Value> {
    if e.NotInExtra? then ListBinds(e.values) else []
  }

  function CharsOperands(charset: string, items: seq<string>): seq<Operand> {
    if items == [] then [] else [Chars(charset, items[0])] + CharsOperands(charset, items[1..])
  }

  function ExtraSql(e: Extra): Sql {
    match e
    case LikeExtra(ref, p) => Like(Column(ref), p, BACKSLASH)
    case EqualExtra(ref, w, b) => Cmp(Column(ref), Eq, Chars(w, b))
    case InExtra(ref, w, items) => In(Column(ref), false, CharsOperands(w, items))
    case NotInExtra(ref, vs) => In(Column(ref), true, ValueOperands(vs))
    case NotBoolExtra(n) => Not(Truth(Column(Bare(n))))
  }

  // --- fixed pieces ------------------------------------------------------------------------

  lemma LikeForm()
    ensures Spaced(LIKE_LX) && Show(LIKE_LX) == " LIKE " && Tokens(LIKE_LX) == [Word("LIKE")]
  {
  }

  lemma EscapeLiteral()
    ensures Literal("\\") == "'\\'"
  {
    assert Doubled("\\", '\'') == "\\" + Doubled("", '\'');
  }

  lemma {:induction false} EscapeForm()
    ensures Spaced(ESCAPE_LX) && Show(ESCAPE_LX) == " ESCAPE '\\'" && Tokens(ESCAPE_LX) == [Word("ESCAPE"), Str("\\")]
  {
    EscapeLiteral();
    Single(Str("\\"));
    var start := [Space, W("ESCAPE"), Space];
    assert Show(start) == " ESCAPE ";
    assert Tokens(start) == [Word("ESCAPE")];
    Join(start, [Tok(Str("\\"))]);
    assert ESCAPE_LX == start + [Tok(Str("\\"))];
  }

  const NOT_START: seq<Lexeme> := [Space, W("NOT")]

  lemma {:induction false} NotStart()
    ensures Spaced(NOT_START) && Tokens(NOT_START) == [Word("NOT")] && NOT_IN_OPEN == NOT_START + IN_OPEN
  {
  }

  lemma {:induction false} NotInOpen()
    ensures Spaced(NOT_IN_OPEN) && Tokens(NOT_IN_OPEN) == [Word("NOT"), Word("IN"), LP]
  {
    NotStart();
    InOpen();
    Join(NOT_START, IN_OPEN);
  }

  lemma NotInOpenText()
    ensures Show(NOT_IN_OPEN) == " NOT IN ("
  {
  }

  lemma NotForm()
    ensures Spaced(NOT_LX) && Show(NOT_LX) == "NOT " && Tokens(NOT_LX) == [Word("NOT")]
  {
  }

  lemma {:induction false} CharsForm(w: string, b: string)
    requires ValidCharset(w)
    ensures Spaced(CharsLx(w, b)) && Show(CharsLx(w, b)) == w + " " + Literal(b) && Tokens(CharsLx(w, b)) == [Word(w), Str(b)]
  {
    Single(Word(w));
    Single(Str(b));
    assert Spaced([Space]) && Show([Space]) == " " && Tokens([Space]) == [];
    Join([W(w)], [Space]);
    Join([W(w)] + [Space], [Tok(Str(b))]);
    assert CharsLx(w, b) == [W(w)] + [Space] + [Tok(Str(b))];
  }

  lemma {:induction false} CharsListForm(w: string, items: seq<string>)
    requires ValidCharset(w) && items != []
    ensures Spaced(CharsListLx(w, items))
    ensures Tokens(CharsListLx(w, items)) ==
            [Word(w), Str(items[0])] + if |items| == 1 then [] else [COMMA] + Tokens(CharsListLx(w, items[1..]))
  {
    CharsForm(w, items[0]);
    if |items| <= 1 {
    } else {
      CommaForm();
      CharsListForm(w, items[1..]);
      Join(CharsLx(w, items[0]), COMMA_LX);
      Join(CharsLx(w, items[0]) + COMMA_LX, CharsListLx(w, items[1..]));
    }
  }

  // --- spacing of a lifted predicate --------------------------------------------------------

  lemma {:induction false} BindableList(vs: seq<Value>)
    requires AllBindable(vs)
    ensures AllPrintable(vs) && ListBinds(vs) == vs
  {
    if vs == [] {
    } else {
      BindableList(vs[1..]);
    }
  }

  lemma {:induction false} LikeSpaced(ref: Ref, p: string)
    ensures Spaced(ExtraLx(LikeExtra(ref, p)))
  {
    RefForm(ref); LikeForm(); EscapeForm(); Single(Str(p));
    Join3(RefLx(ref), LIKE_LX, [Tok(Str(p))]);
    Join(RefLx(ref) + LIKE_LX + [Tok(Str(p))], ESCAPE_LX);
  }

  lemma {:induction false} EqualSpaced(ref: Ref, w: string, b: string)
    requires ValidCharset(w)
    ensures Spaced(ExtraLx(EqualExtra(ref, w, b)))
  {
    RefForm(ref); OpForm(Eq); CharsForm(w, b);
    Join3(RefLx(ref), OpLx(Eq), CharsLx(w, b));
  }

  lemma {:induction false} InCharsSpaced(ref: Ref, w: string, items: seq<string>)
    requires ValidCharset(w) && items != []
    ensures Spaced(ExtraLx(InExtra(ref, w, items)))
  {
    RefForm(ref); InOpen(); CharsListForm(w, items);
    Bracketed(RefLx(ref), IN_OPEN, CharsListLx(w, items));
  }

  lemma {:induction false} NotInSpaced(ref: Ref, vs: seq<Value>)
    requires vs != []
    ensures Spaced(ExtraLx(NotInExtra(ref, vs)))
  {
    RefForm(ref); NotInOpen(); ListForm(vs);
    Bracketed(RefLx(ref), NOT_IN_OPEN, ListLx(vs));
  }

  lemma ExtraSpaced(e: Extra)
    requires ValidExtra(e)
    ensures Spaced(ExtraLx(e))
  {
    match e
    case LikeExtra(ref, p) => LikeSpaced(ref, p);
    case EqualExtra(ref, w, b) => EqualSpaced(ref, w, b);
    case InExtra(ref, w, items) => InCharsSpaced(ref, w, items);
    case NotInExtra(ref, vs) => NotInSpaced(ref, vs);
    case NotBoolExtra(n) =>
      NotForm(); Single(Quoted(n));
      Join(NOT_LX, [Tok(Quoted(n))]);
  }

  // --- parse of a lifted predicate ------------------------------------------------------------

  lemma {:induction false} ParseChars(w: string, b: string, rest: seq<Token>, ps: seq<Value>)
    requires ValidCharset(w)
    ensures ParseOperand([Word(w), Str(b)] + rest, ps) == Got(Chars(w, b), rest, ps)
  {
    assert ([Word(w), Str(b)] + rest)[2..] == rest;
    assert w != "NULL" && w != "CAST";
  }

  lemma {:induction false} ParseCharsList(acc: seq<Operand>, w: string, items: seq<string>, rest: seq<Token>, ps: seq<Value>)
    requires ValidCharset(w) && items != []
    ensures ParseList(acc, Tokens(CharsListLx(w, items)) + ([RP] + rest), ps) == Got(acc + CharsOperands(w, items), rest, ps)
    decreases |items|
  {
    CharsListForm(w, items);
    var o := Chars(w, items[0]);
    var first := [Word(w), Str(items[0])];
    if |items| == 1 {
      assert Tokens(CharsListLx(w, items)) == first;
      ParseChars(w, items[0], [RP] + rest, ps);
      assert ([RP] + rest)[1..] == rest;
      assert items[1..] == [] && CharsOperands(w, items[1..]) == [];
      assert CharsOperands(w, items) == [o];
    } else {
      var after := [COMMA] + (Tokens(CharsListLx(w, items[1..])) + ([RP] + rest));
      Regroup(first, [COMMA], Tokens(CharsListLx(w, items[1..])), [RP] + rest);
      Regroup([COMMA], Tokens(CharsListLx(w, items[1..])), [RP] + rest, []);
      assert Tokens(CharsListLx(w, items)) + ([RP] + rest) == first + after;
      ParseChars(w, items[0], after, ps);
      assert after[1..] == Tokens(CharsListLx(w, items[1..])) + ([RP] + rest);
      ParseCharsList(acc + [o], w, items[1..], rest, ps);
      assert acc + [o] + CharsOperands(w, items[1..]) == acc + CharsOperands(w, items);
    }
  }

  function LikeTail(p: string): seq<Lexeme> { LIKE_LX + [Tok(Str(p))] + ESCAPE_LX }

  lemma {:induction false} LikeTailTokens(p: string)
    ensures Tokens(LikeTail(p)) == [Word("LIKE"), Str(p), Word("ESCAPE"), Str("\\")]
  {
    LikeForm(); EscapeForm(); Single(Str(p));
    Tokens3(LIKE_LX, [Tok(Str(p))], ESCAPE_LX);
  }

  lemma {:induction false} ParseLikeTail(l: Operand, p: string, rest: seq<Token>, ps: seq<Value>)
    ensures ParseRest(l, [Word("LIKE"), Str(p), Word("ESCAPE"), Str("\\")] + rest, ps) == Got(Like(l, p, BACKSLASH), rest, ps)
  {
    var ts := [Word("LIKE"), Str(p), Word("ESCAPE"), Str("\\")] + rest;
    assert ts[4..] == rest;
  }

  lemma {:induction false} ParseLike(ref: Ref, p: string, rest: seq<Token>, ps: seq<Value>)
    ensures ParseFactor(Tokens(ExtraLx(LikeExtra(ref, p))) + rest, ps) == Got(Like(Column(ref), p, BACKSLASH), rest, ps)
  {
    assert ExtraLx(LikeExtra(ref, p)) == RefLx(ref) + LikeTail(p);
    LikeTailTokens(p);
    RefThen(ref, LikeTail(p), rest, ps);
    ParseLikeTail(Column(ref), p, rest, ps);
  }

  lemma {:induction false} ParseEqual(ref: Ref, w: string, b: string, rest: seq<Token>, ps: seq<Value>)
    requires ValidCharset(w)
    ensures ParseFactor(Tokens(ExtraLx(EqualExtra(ref, w, b))) + rest, ps) == Got(Cmp(Column(ref), Eq, Chars(w, b)), rest, ps)
  {
    var xs := OpLx(Eq) + CharsLx(w, b);
    assert ExtraLx(EqualExtra(ref, w, b)) == RefLx(ref) + xs;
    OpForm(Eq); CharsForm(w, b);
    TokensCat(OpLx(Eq), CharsLx(w, b));
    RefThen(ref, xs, rest, ps);
    ParseChars(w, b, rest, ps);
    assert (Tokens(xs) + rest)[1..] == [Word(w), Str(b)] + rest;
  }

  lemma {:induction false} InCharsTokens(ref: Ref, w: string, items: seq<string>, rest: seq<Token>)
    requires ValidCharset(w) && items != []
    ensures Tokens(ExtraLx(InExtra(ref, w, items))) + rest ==
            RefTokens(ref) + ([] + [Word("IN"), LP] + (Tokens(CharsListLx(w, items)) + ([RP] + rest)))
  {
    RefForm(ref); InOpen(); CharsListForm(w, items);
    var open, list := [Word("IN"), LP], Tokens(CharsListLx(w, items));
    Bracketed(RefLx(ref), IN_OPEN, CharsListLx(w, items));
    Regroup(RefTokens(ref) + open, list, [RP] + rest, []);
    Regroup(RefTokens(ref) + open + list, [RP], rest, []);
    Regroup(RefTokens(ref), open, list + ([RP] + rest), []);
    assert [] + open == open;
  }

  lemma {:induction false} ParseInChars(ref: Ref, w: string, items: seq<string>, rest: seq<Token>, ps: seq<Value>)
    requires ValidCharset(w) && items != []
    ensures ParseFactor(Tokens(ExtraLx(InExtra(ref, w, items))) + rest, ps) ==
            Got(In(Column(ref), false, CharsOperands(w, items)), rest, ps)
  {
    var body := Tokens(CharsListLx(w, items)) + ([RP] + rest);
    InCharsTokens(ref, w, items, rest);
    ParseCharsList([], w, items, rest, ps);
    assert [] + CharsOperands(w, items) == CharsOperands(w, items);
    ParseInRest(Column(ref), false, CharsOperands(w, items), body, ps, rest, ps);
    RefFirst(ref, [] + [Word("IN"), LP] + body, ps);
  }

  lemma {:induction false} NotInTokens(ref: Ref, vs: seq<Value>, rest: seq<Token>)
    requires vs != []
    ensures Tokens(ExtraLx(NotInExtra(ref, vs))) + rest ==
            RefTokens(ref) + ([Word("NOT")] + [Word("IN"), LP] + (Tokens(ListLx(vs)) + ([RP] + rest)))
  {
    RefForm(ref); NotInOpen(); ListForm(vs);
    var open := [Word("NOT"), Word("IN"), LP];
    Bracketed(RefLx(ref), NOT_IN_OPEN, ListLx(vs));
    Regroup(RefTokens(ref) + open, Tokens(ListLx(vs)), [RP] + rest, []);
    Regroup(RefTokens(ref) + open + Tokens(ListLx(vs)), [RP], rest, []);
    Regroup(RefTokens(ref), open, Tokens(ListLx(vs)) + ([RP] + rest), []);
    assert [Word("NOT")] + [Word("IN"), LP] == open;
  }

  lemma {:induction false} ParseNotIn(ref: Ref, vs: seq<Value>, rest: seq<Token>, ps: seq<Value>)
    requires vs != [] && AllBindable(vs)
    ensures ParseFactor(Tokens(ExtraLx(NotInExtra(ref, vs))) + rest, ListBinds(vs) + ps) ==
            Got(In(Column(ref), true, ValueOperands(vs)), rest, ps)
  {
    BindableList(vs);
    NotInTokens(ref, vs, rest);
    var body := Tokens(ListLx(vs)) + ([RP] + rest);
    ParseListItems([], vs, rest, ps);
    assert [] + ValueOperands(vs) == ValueOperands(vs);
    ParseInRest(Column(ref), true, ValueOperands(vs), body, ListBinds(vs) + ps, rest, ps);
    RefFirst(ref, [Word("NOT")] + [Word("IN"), LP] + body, ListBinds(vs) + ps);
  }

  lemma {:induction false} NotBoolTokens(n: string, rest: seq<Token>)
    ensures Tokens(ExtraLx(NotBoolExtra(n))) + rest == [Word("NOT")] + ([Quoted(n)] + rest)
  {
    NotForm(); Single(Quoted(n));
    TokensCat(NOT_LX, [Tok(Quoted(n))]);
    Regroup([Word("NOT")], [Quoted(n)], rest, []);
  }

  lemma ParseNotBool(n: string, rest: seq<Token>, ps: seq<Value>)
    requires (rest == [] || rest[0] == RP)
    ensures ParseFactor(Tokens(ExtraLx(NotBoolExtra(n))) + rest, ps) == Got(Not(Truth(Column(Bare(n)))), rest, ps)
  {
    NotBoolTokens(n, rest);
    TruthFactor(n, rest, ps);
    NotFactor([Quoted(n)] + rest, ps, Truth(Column(Bare(n))), rest, ps);
  }

  lemma {:induction false} ParseExtraFactor(e: Extra, rest: seq<Token>, ps: seq<Value>)
    requires ValidExtra(e) && (rest == [] || rest[0] == RP)
    ensures ParseFactor(Tokens(ExtraLx(e)) + rest, ExtraBinds(e) + ps) == Got(ExtraSql(e), rest, ps)
  {
    if !e.NotInExtra? { assert ExtraBinds(e) + ps == ps; }
    match e
    case LikeExtra(ref, p) => ParseLike(ref, p, rest, ps);
    case EqualExtra(ref, w, b) => ParseEqual(ref, w, b, rest, ps);
    case InExtra(ref, w, items) => ParseInChars(ref, w, items, rest, ps);
    case NotInExtra(ref, vs) => ParseNotIn(ref, vs, rest, ps);
    case NotBoolExtra(n) => ParseNotBool(n, rest, ps);
  }

  /** A lifted predicate between parentheses parses to its condition and consumes
      exactly its own parameters. */
  lemma {:induction false} ParseExtra(e: Extra, rest: seq<Token>, ps: seq<Value>)
    requires ValidExtra(e) && (rest == [] || rest[0] == RP)
    ensures ParseOr(Tokens(ExtraLx(e)) + rest, ExtraBinds(e) + ps) == Got(ExtraSql(e), rest, ps)
  {
    ParseExtraFactor(e, rest, ps);
    LoneFactor(Tokens(ExtraLx(e)) + rest, ExtraBinds(e) + ps, ExtraSql(e), rest, ps);
  }

  // --- conditions -----------------------------------------------------------------------------------

  datatype Cond =
    | KeyBound(key: string, op: CmpOp, n: int)
    | FromFilter(ref: Ref, f: Filter)
    | FromExtra(e: Extra)
    | Nested(cs: seq<Cond>)

  predicate ValidCond(c: Cond)
    decreases c, 1
  {
    match c
    case KeyBound(_, op, _) => HasText(op)
    case FromFilter(_, f) => Translatable(f)
    case FromExtra(e) => ValidExtra(e)
    case Nested(cs) => cs != [] && ValidConds(cs)
  }

  predicate ValidConds(cs: seq<Cond>)
    decreases cs, 0
  {
    cs == [] || (ValidCond(cs[0]) && ValidConds(cs[1..]))
  }

  /** An integer as std::to_string prints it. */
  function IntValue(n: int): Value { Decimal(HUGEINT, n, 0) }

  function CondLx(c: Cond): (xs: seq<Lexeme>)
    ensures xs != []
    decreases c, 1
  {
    match c
    case KeyBound(k, op, n) => RefLx(Bare(k)) + OpLx(op) + ValueLx(IntValue(n))
    case FromFilter(ref, f) => GroupLx(FilterLx(ref, f))
    case FromExtra(e) => GroupLx(ExtraLx(e))
    case Nested(cs) => GroupLx(AndLx(cs))
  }

  /** c0 AND c1 AND ... */
  function AndLx(cs: seq<Cond>): seq<Lexeme>
    decreases cs, 0
  {
    if cs == [] then []
    else if |cs| == 1 then CondLx(cs[0])
    else CondLx(cs[0]) + SepLx("AND") + AndLx(cs[1..])
  }

  function CondBinds(c: Cond): seq<Value>
    decreases c, 1
  {
    match c
    case KeyBound(_, _, _) => []
    case FromFilter(_, f) => Binds(f)
    case FromExtra(e) => ExtraBinds(e)
    case Nested(cs) => CondsBinds(cs)
  }

  function CondsBinds(cs: seq<Cond>): seq<Value>
    decreases cs, 0
  {
    if cs == [] then [] else CondBinds(cs[0]) + CondsBinds(cs[1..])
  }

  function CondSql(c: Cond): Sql
    decreases c, 1
  {
    match c
    case KeyBound(k, op, n) => Cmp(Column(Bare(k)), op, Exact(n, 0))
    case FromFilter(ref, f) => FilterSql(ref, f)
    case FromExtra(e) => ExtraSql(e)
    case Nested(cs) => MkAnd(CondSqls(cs))
  }

  function CondSqls(cs: seq<Cond>): (ps: seq<Sql>)
    ensures |ps| == |cs|
    decreases cs, 0
  {
    if cs == [] then [] else [CondSql(cs[0])] + CondSqls(cs[1..])
  }

  lemma {:induction false} CondForm(c: Cond)
    requires ValidCond(c)
    ensures Spaced(CondLx(c))
    decreases c, 1
  {
    match c
    case KeyBound(k, op, n) =>
      RefForm(Bare(k)); OpForm(op); ValueSpaced(IntValue(n));
      Join3(RefLx(Bare(k)), OpLx(op), ValueLx(IntValue(n)));
    case FromFilter(ref, f) => FilterSpaced(ref, f); GroupForm(FilterLx(ref, f));
    case FromExtra(e) => ExtraSpaced(e); GroupForm(ExtraLx(e));
    case Nested(cs) => AndForm(cs); GroupForm(AndLx(cs));
  }

  lemma {:induction false} AndForm(cs: seq<Cond>)
    requires cs != [] && ValidConds(cs)
    ensures Spaced(AndLx(cs)) && AndLx(cs) != []
    ensures Tokens(AndLx(cs)) == Tokens(CondLx(cs[0])) + if |cs| == 1 then [] else [Word("AND")] + Tokens(AndLx(cs[1..]))
    decreases cs, 0
  {
    CondForm(cs[0]);
    if |cs| <= 1 {
    } else {
      AndForm(cs[1..]);
      SepForm("AND");
      Join3(CondLx(cs[0]), SepLx("AND"), AndLx(cs[1..]));
      Regroup(Tokens(CondLx(cs[0])), [Word("AND")], Tokens(AndLx(cs[1..])), []);
    }
  }

  lemma AndSeparator()
    ensures Show(SepLx("AND")) == " AND "
  {
  }

  lemma AndText(cs: seq<Cond>)
    requires |cs| > 1
    ensures Show(AndLx(cs)) == Show(CondLx(cs[0])) + " AND " + Show(AndLx(cs[1..]))
  {
    AndSeparator();
    Show3(CondLx(cs[0]), SepLx("AND"), AndLx(cs[1..]));
  }

  /** One condition is one factor of the conjunction. */
  lemma {:induction false} ParseCond(c: Cond, rest: seq<Token>, ps: seq<Value>)
    requires ValidCond(c)
    ensures ParseFactor(Tokens(CondLx(c)) + rest, CondBinds(c) + ps) == Got(CondSql(c), rest, ps)
    decreases c, 1
  {
    match c
    case KeyBound(k, op, n) =>
      assert ValueBinds(IntValue(n)) == [];
      ParseConstant(Bare(k), op, IntValue(n), rest, ps);
    case FromFilter(ref, f) =>
      FilterSpaced(ref, f);
      GroupForm(FilterLx(ref, f));
      ParseFilter(ref, f, [RP] + rest, ps);
      Group(Tokens(FilterLx(ref, f)), Binds(f) + ps, FilterSql(ref, f), rest, ps);
    case FromExtra(e) =>
      ExtraSpaced(e);
      GroupForm(ExtraLx(e));
      ParseExtra(e, [RP] + rest, ps);
      Group(Tokens(ExtraLx(e)), ExtraBinds(e) + ps, ExtraSql(e), rest, ps);
    case Nested(cs) =>
      AndForm(cs);
      GroupForm(AndLx(cs));
      ParseConds(cs, [RP] + rest, ps);
      Group(Tokens(AndLx(cs)), CondsBinds(cs) + ps, MkAnd(CondSqls(cs)), rest, ps);
  }

  function Trailing(cs: seq<Cond>, rest: seq<Token>): seq<Token> {
    Following(cs == [], "AND", Tokens(AndLx(cs)), rest)
  }

  lemma {:induction false} ParseFirstCond(cs: seq<Cond>, rest: seq<Token>, ps: seq<Value>)
    requires cs != [] && ValidConds(cs)
    ensures ParseFactor(Tokens(AndLx(cs)) + rest, CondsBinds(cs) + ps) ==
            Got(CondSql(cs[0]), Trailing(cs[1..], rest), CondsBinds(cs[1..]) + ps)
    decreases cs, 0
  {
    AndForm(cs);
    if |cs| > 1 {
      Regroup(Tokens(CondLx(cs[0])), [Word("AND")], Tokens(AndLx(cs[1..])), rest);
      Regroup([Word("AND")], Tokens(AndLx(cs[1..])), rest, []);
    }
    assert Tokens(AndLx(cs)) + rest == Tokens(CondLx(cs[0])) + Trailing(cs[1..], rest);
    Regroup(CondBinds(cs[0]), CondsBinds(cs[1..]), ps, []);
    ParseCond(cs[0], Trailing(cs[1..], rest), CondsBinds(cs[1..]) + ps);
  }

  lemma {:induction false} CondRound(acc: seq<Sql>, cs: seq<Cond>, rest: seq<Token>, ps: seq<Value>)
    requires cs != [] && ValidConds(cs)
    ensures ParseAndTail(acc, Trailing(cs, rest), CondsBinds(cs) + ps) ==
            ParseAndTail(acc + [CondSql(cs[0])], Trailing(cs[1..], rest), CondsBinds(cs[1..]) + ps)
    decreases cs, 1
  {
    ParseFirstCond(cs, rest, ps);
    AndTailStep(acc, Tokens(AndLx(cs)) + rest, CondsBinds(cs) + ps, CondSql(cs[0]), Trailing(cs[1..], rest), CondsBinds(cs[1..]) + ps);
  }

  lemma {:induction false} ParseCondsTail(acc: seq<Sql>, cs: seq<Cond>, rest: seq<Token>, ps: seq<Value>)
    requires ValidConds(cs) && Stops(rest)
    ensures ParseAndTail(acc, Trailing(cs, rest), CondsBinds(cs) + ps) ==
            Got(MkAnd(acc + CondSqls(cs)), rest, ps)
    decreases cs, 2
  {
    if cs == [] {
      assert acc + [] == acc && [] + ps == ps;
      TailStops(acc, rest, ps);
    } else {
      CondRound(acc, cs, rest, ps);
      ParseCondsTail(acc + [CondSql(cs[0])], cs[1..], rest, ps);
      Regroup(acc, [CondSql(cs[0])], CondSqls(cs[1..]), []);
    }
  }

  /** A conjunction of conditions parses to the conjunction of their meanings, each
      `?` taking the parameter of the condition it came from. */
  lemma {:induction false} ParseConds(cs: seq<Cond>, rest: seq<Token>, ps: seq<Value>)
    requires cs != [] && ValidConds(cs) && Stops(rest)
    ensures ParseOr(Tokens(AndLx(cs)) + rest, CondsBinds(cs) + ps) == Got(MkAnd(CondSqls(cs)), rest, ps)
    decreases cs, 2
  {
    ParseFirstCond(cs, rest, ps);
    ParseCondsTail([CondSql(cs[0])], cs[1..], rest, ps);
    assert [CondSql(cs[0])] + CondSqls(cs[1..]) == CondSqls(cs);
  }

  /** A conjunction holds exactly when each of its conditions holds. */
  lemma {:induction false} CondsTrue(cs: seq<Cond>, row: Row)
    ensures EvalAll(CondSqls(cs), row) == True <==> forall i :: 0 <= i < |cs| ==> Eval(CondSql(cs[i]), row) == True
  {
    CondSqlsAt(cs);
    AllTrue(CondSqls(cs), row);
  }

  lemma {:induction false} CondSqlsAt(cs: seq<Cond>)
    ensures forall i :: 0 <= i < |cs| ==> CondSqls(cs)[i] == CondSql(cs[i])
  {
    if cs == [] {
    } else {
      CondSqlsAt(cs[1..]);
    }
  }

  lemma {:induction false} CharsOperandsAt(w: string, bytes: seq<string>)
    ensures |CharsOperands(w, bytes)| == |bytes|
    ensures forall k :: 0 <= k < |bytes| ==> CharsOperands(w, bytes)[k] == Chars(w, bytes[k])
  {
    if bytes == [] {
    } else {
      CharsOperandsAt(w, bytes[1..]);
    }
  }
}
