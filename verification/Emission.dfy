/** Lexemes the emitters share: column references and constants. */
module Emission {
  import opened Values
  import opened NumberText
  import opened SqlTokens
  import opened SqlGrammar

  function W(w: string): Lexeme { Tok(Word(w)) }
  function S(c: char): Lexeme { Tok(Sym(c)) }

  /** Text before which any token may end: a space, `)` or `,`. */
  predicate Soft(x: Lexeme) {
    x == Space || x == S(')') || x == S(',')
  }

  /** Text after which any token may start: a space or `(`. */
  predicate Opening(x: Lexeme) {
    x == Space || x == S('(')
  }

  lemma SoftEnd(x: Lexeme, y: Lexeme)
    requires (x.Tok? ==> ValidToken(x.t)) && (Soft(y) || Opening(x))
    ensures Adjacent(x, y)
  {
  }

  /** Joining well-spaced pieces over a soft boundary. */
  lemma Join(a: seq<Lexeme>, b: seq<Lexeme>)
    requires Spaced(a) && Spaced(b)
    requires a != [] && b != [] ==> Soft(b[0]) || Opening(a[|a| - 1])
    ensures Spaced(a + b)
    ensures Show(a + b) == Show(a) + Show(b)
    ensures Tokens(a + b) == Tokens(a) + Tokens(b)
  {
    if a != [] && b != [] {
      SoftEnd(a[|a| - 1], b[0]);
    }
    SpacedCat(a, b);
    ShowCat(a, b);
    TokensCat(a, b);
  }

  lemma Show3(a: seq<Lexeme>, b: seq<Lexeme>, c: seq<Lexeme>)
    ensures Show(a + b + c) == Show(a) + Show(b) + Show(c)
  {
    ShowCat(a + b, c);
    ShowCat(a, b);
  }

  lemma Tokens3(a: seq<Lexeme>, b: seq<Lexeme>, c: seq<Lexeme>)
    ensures Tokens(a + b + c) == Tokens(a) + Tokens(b) + Tokens(c)
  {
    TokensCat(a + b, c);
    TokensCat(a, b);
  }

  lemma {:induction false} Join3(a: seq<Lexeme>, b: seq<Lexeme>, c: seq<Lexeme>)
    requires Spaced(a) && Spaced(b) && Spaced(c) && a != [] && b != [] && c != []
    requires Soft(b[0]) || Opening(a[|a| - 1])
    requires Soft(c[0]) || Opening(b[|b| - 1])
    ensures Spaced(a + b + c)
    ensures Tokens(a + b + c) == Tokens(a) + Tokens(b) + Tokens(c)
  {
    Join(a, b);
    Join(a + b, c);
  }

  lemma Single(t: Token)
    requires ValidToken(t)
    ensures Spaced([Tok(t)]) && Show([Tok(t)]) == TokenText(t) && Tokens([Tok(t)]) == [t]
  {
    assert Show([Tok(t)]) == TokenText(t) + "";
  }

  // --- parentheses and separators ------------------------------------------------------

  function GroupLx(xs: seq<Lexeme>): seq<Lexeme> { [S('(')] + xs + [S(')')] }

  lemma GroupForm(xs: seq<Lexeme>)
    requires Spaced(xs)
    ensures Spaced(GroupLx(xs))
    ensures Show(GroupLx(xs)) == "(" + Show(xs) + ")"
    ensures Tokens(GroupLx(xs)) == [LP] + Tokens(xs) + [RP]
  {
    Single(LP);
    Single(RP);
    Join([S('(')], xs);
    Join([S('(')] + xs, [S(')')]);
  }

  /** The separator between conditions. */
  function SepLx(sep: string): seq<Lexeme> { [Space, W(sep), Space] }

  lemma SepForm(sep: string)
    requires IsWordText(sep)
    ensures Spaced(SepLx(sep)) && Show(SepLx(sep)) == " " + sep + " " && Tokens(SepLx(sep)) == [Word(sep)]
  {
    var tail := [W(sep), Space];
    assert SepLx(sep)[1..] == tail && tail[1..] == [Space];
    assert Show([Space]) == " ";
    assert Tokens([Space]) == [];
    assert Show(tail) == sep + " ";
  }

  const COMMA_LX: seq<Lexeme> := [S(','), Space]

  lemma CommaForm()
    ensures Spaced(COMMA_LX) && Show(COMMA_LX) == ", " && Tokens(COMMA_LX) == [COMMA]
  {
  }

  /** Sequences joined in the loops of the emitters. */
  lemma Regroup<T>(a: seq<T>, b: seq<T>, c: seq<T>, d: seq<T>)
    ensures a + (b + c + d) == a + b + c + d
    ensures a + (b + c) == a + b + c
  {
  }

  /** a, an opening piece, a list and a closing parenthesis. */
  lemma {:induction false} Bracketed(a: seq<Lexeme>, open: seq<Lexeme>, list: seq<Lexeme>)
    requires Spaced(a) && Spaced(open) && Spaced(list) && a != [] && open != [] && list != []
    requires Soft(open[0]) && Opening(open[|open| - 1])
    ensures Spaced(a + open + list + [S(')')])
    ensures Tokens(a + open + list + [S(')')]) == Tokens(a) + Tokens(open) + Tokens(list) + [RP]
  {
    Join3(a, open, list);
    Single(RP);
    Join(a + open + list, [S(')')]);
  }

  // --- column references -----------------------------------------------------------

  function RefLx(ref: Ref): (xs: seq<Lexeme>)
    ensures xs != []
  {
    match ref
    case Bare(n) => [Tok(Quoted(n))]
    case AsText(n) => CAST_START + [Tok(Quoted(n))] + CAST_END
  }

  const CAST_END: seq<Lexeme> :=
    [Space, W("AS"), Space, W("VARCHAR"), S('('), Tok(Number("64")), S(')'), S(')')]

  /** SQL text of a column reference. */
  function RefText(ref: Ref): string {
    match ref
    case Bare(n) => QuotedName(n)
    case AsText(n) => "CAST(" + QuotedName(n) + " AS VARCHAR(64))"
  }

  lemma CastEndText()
    ensures Show(CAST_END) == " AS VARCHAR(64))"
  {
  }

  lemma CastEndTokens()
    ensures Tokens(CAST_END) == [Word("AS"), Word("VARCHAR"), LP, Number("64"), RP, RP]
  {
  }

  const CAST_AS: seq<Lexeme> := [Space, W("AS"), Space]
  const CAST_TYPE: seq<Lexeme> := [W("VARCHAR"), S('('), Tok(Number("64")), S(')'), S(')')]

  lemma CastAsSpaced()
    ensures Spaced(CAST_AS)
  {
  }

  lemma CastTypeSpaced()
    ensures Spaced(CAST_TYPE)
  {
  }

  lemma CastEndSpaced()
    ensures Spaced(CAST_END)
  {
    CastAsSpaced();
    CastTypeSpaced();
    Join(CAST_AS, CAST_TYPE);
    assert CAST_END == CAST_AS + CAST_TYPE;
  }

  const CAST_START: seq<Lexeme> := [W("CAST"), S('(')]

  lemma CastStart()
    ensures Spaced(CAST_START) && Show(CAST_START) == "CAST(" && Tokens(CAST_START) == [Word("CAST"), LP]
  {
  }

  lemma {:induction false} CastForm(n: string)
    ensures Spaced(RefLx(AsText(n)))
    ensures Show(RefLx(AsText(n))) == RefText(AsText(n))
    ensures Tokens(RefLx(AsText(n))) == CastTokens(n)
  {
    CastSpaced(n);
    CastStart();
    CastEndText();
    CastEndTokens();
    Single(Quoted(n));
    Show3(CAST_START, [Tok(Quoted(n))], CAST_END);
    Tokens3(CAST_START, [Tok(Quoted(n))], CAST_END);
  }

  lemma CastSpaced(n: string)
    ensures Spaced(RefLx(AsText(n)))
  {
    CastStart();
    CastEndSpaced();
    Single(Quoted(n));
    Join3(CAST_START, [Tok(Quoted(n))], CAST_END);
  }

  lemma RefForm(ref: Ref)
    ensures Spaced(RefLx(ref))
    ensures Show(RefLx(ref)) == RefText(ref)
    ensures Tokens(RefLx(ref)) == RefTokens(ref)
  {
    match ref
    case Bare(n) => Single(Quoted(n));
    case AsText(n) => CastForm(n);
  }

  // --- constants ----------------------------------------------------------------------

  /** The constants an emitter can write: bound, printed, or NULL. */
  predicate Printable(v: Value) {
    IsBindableType(TypeOf(v)) || v.NullOf? || v.Decimal?
  }

  function ValueLx(v: Value): (xs: seq<Lexeme>)
    ensures xs != []
  {
    if IsBindableType(TypeOf(v)) then [S('?')]
    else match v
      case Decimal(_, u, s) =>
        if u < 0 then [S('-'), Tok(Number(Unsigned(-u, s)))] else [Tok(Number(Unsigned(u, s)))]
      case _ => [W("NULL")]
  }

  function ValueBinds(v: Value): seq<Value> {
    if IsBindableType(TypeOf(v)) then [v] else []
  }

  /** What the constant is to the parser. */
  function ValueOperand(v: Value): Operand {
    if IsBindableType(TypeOf(v)) then Param(v)
    else match v
      case Decimal(_, u, s) => Exact(u, s)
      case _ => Nil
  }

  lemma ValueSpaced(v: Value)
    ensures Spaced(ValueLx(v))
  {
    if v.Decimal? { UnsignedRoundTrip(if v.unscaled < 0 then -v.unscaled else v.unscaled, v.scale); }
  }

  /** A constant reads back as itself, taking its own parameter if it has one. */
  lemma {:induction false} ParseValue(v: Value, rest: seq<Token>, ps: seq<Value>)
    requires Printable(v)
    ensures ParseOperand(Tokens(ValueLx(v)) + rest, ValueBinds(v) + ps) == Got(ValueOperand(v), rest, ps)
  {
    if IsBindableType(TypeOf(v)) {
      assert Tokens(ValueLx(v)) == [MARK];
      assert ([MARK] + rest)[1..] == rest && ([v] + ps)[1..] == ps;
    } else {
      assert [] + ps == ps;
      if v.Decimal? {
        var m := if v.unscaled < 0 then -v.unscaled else v.unscaled;
        UnsignedRoundTrip(m, v.scale);
        var n := Number(Unsigned(m, v.scale));
        if v.unscaled < 0 {
          assert ValueLx(v) == [S('-'), Tok(n)] && ValueLx(v)[1..] == [Tok(n)];
          assert Tokens([Tok(n)]) == [n];
          assert Tokens(ValueLx(v)) == [MINUS, n];
          assert ([MINUS, n] + rest)[2..] == rest;
        } else {
          assert Tokens(ValueLx(v)) == [n];
          assert ([n] + rest)[1..] == rest;
        }
      } else {
        assert Tokens(ValueLx(v)) == [Word("NULL")];
        assert ([Word("NULL")] + rest)[1..] == rest;
      }
    }
  }

  /** SafeLiteralInline: prints constants that cannot be bound. */
  method SafeLiteralInline(v: Value) returns (ok: bool, out: string)
    ensures ok == (v.NullOf? || v.Decimal?)
    ensures ok && !IsBindableType(TypeOf(v)) ==> out == Show(ValueLx(v))
  {
    match v
    case NullOf(_) =>
      assert LexemeText(W("NULL")) + "" == "NULL";
      return true, "NULL";
    case Decimal(_, u, s) =>
      ghost var n := Tok(Number(Unsigned(if u < 0 then -u else u, s)));
      assert Show([n]) == TokenText(n.t) + "";
      assert Show([S('-'), n]) == "-" + Show([n]);
      return true, NumText(u, s);
    case Val(_, _) =>
      return false, "";
  }

  /** The bound values a statement collects while it is built. */
  class ParamList {
    var items: seq<Value>

    constructor ()
      ensures items == []
    {
      items := [];
    }

    method Push(v: Value)
      modifies this
      ensures items == old(items) + [v]
    {
      items := items + [v];
    }

    /** Drops everything after the first `n` values. */
    method Resize(n: nat)
      requires n <= |items|
      modifies this
      ensures items == old(items)[..n]
    {
      items := items[..n];
    }
  }
}
