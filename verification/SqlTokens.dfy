/** The lexical level of the statements: quoting, a reference lexer, and the
    spacing under which emitted text reads back as the intended tokens. */
module SqlTokens {
  import opened Values
  import opened NumberText

  datatype Token =
    | Word(w: string)       // keyword, charset introducer, RDB$DB_KEY
    | Quoted(name: string)  // "identifier"
    | Str(s: string)        // 'literal'
    | Number(n: string)        // unsigned number
    | Rel(op: CmpOp)        // comparison operator
    | Sym(c: char)          // ( ) , ? * -
    | Bad                   // anything the grammar has no place for

  // --- quoting -----------------------------------------------------------------

  /** `s` with every `q` written twice. */
  function Doubled(s: string, q: char): string {
    if s == "" then ""
    else (if s[0] == q then [q, q] else [s[0]]) + Doubled(s[1..], q)
  }

  function Enclosed(s: string, q: char): string {
    [q] + Doubled(s, q) + [q]
  }

  lemma {:induction false} DoubledSnoc(s: string, c: char, q: char)
    ensures Doubled(s + [c], q) == Doubled(s, q) + (if c == q then [q, q] else [c])
  {
    if s == "" {
      assert (s + [c])[1..] == "";
    } else {
      assert (s + [c])[1..] == s[1..] + [c];
      DoubledSnoc(s[1..], c, q);
    }
  }

  /** The shared loop of QuoteIdent and SqlLiteral. */
  method Enclose(s: string, q: char) returns (out: string)
    ensures out == Enclosed(s, q)
  {
    out := [q];
    for i := 0 to |s|
      invariant out == [q] + Doubled(s[..i], q)
    {
      assert s[..i + 1] == s[..i] + [s[i]];
      DoubledSnoc(s[..i], s[i], q);
      if s[i] == q {
        out := out + [q];
      }
      out := out + [s[i]];
    }
    assert s[..|s|] == s;
    out := out + [q];
  }

  function QuotedName(name: string): string { Enclosed(name, '"') }

  function Literal(s: string): string { Enclosed(s, '\'') }

  method QuoteIdent(name: string) returns (out: string)
    ensures out == QuotedName(name)
  {
    out := Enclose(name, '"');
  }

  method SqlLiteral(s: string) returns (out: string)
    ensures out == Literal(s)
  {
    out := Enclose(s, '\'');
  }

  // --- the reference lexer --------------------------------------------------------

  datatype Scan = Unclosed | Closed(body: string, rest: string)

  /** Reads a quoted token's body, just after its opening quote: a doubled quote
      stands for one quote, a single quote closes the token. */
  function ScanQuoted(s: string, q: char): (r: Scan)
    ensures r.Closed? ==> |r.rest| < |s|
  {
    if s == "" then Unclosed
    else if s[0] == q then
      if |s| > 1 && s[1] == q then
        match ScanQuoted(s[2..], q)
        case Unclosed => Unclosed
        case Closed(b, rest) => Closed([q] + b, rest)
      else Closed("", s[1..])
    else
      match ScanQuoted(s[1..], q)
      case Unclosed => Unclosed
      case Closed(b, rest) => Closed([s[0]] + b, rest)
  }

  predicate IsWordStart(c: char) {
    'A' <= c <= 'Z' || 'a' <= c <= 'z' || c == '_'
  }

  predicate IsWordChar(c: char) {
    IsWordStart(c) || IsDigit(c) || c == '$'
  }

  predicate IsSymbol(c: char) {
    c == '(' || c == ')' || c == ',' || c == '?' || c == '*' || c == '-'
  }

  function WordLen(s: string): (n: nat)
    ensures n <= |s|
  {
    if s == "" || !IsWordChar(s[0]) then 0 else 1 + WordLen(s[1..])
  }

  function NumberLen(s: string): (n: nat)
    ensures n <= |s|
  {
    if s == "" || !IsNumberChar(s[0]) then 0 else 1 + NumberLen(s[1..])
  }

  /** Splits a statement into tokens. Quoted text is opaque: a `?` inside a
      literal or an identifier is not a placeholder. */
  function Lex(s: string): seq<Token>
    decreases |s|
  {
    if s == "" then []
    else if s[0] == ' ' then Lex(s[1..])
    else if s[0] == '"' then
      match ScanQuoted(s[1..], '"')
      case Unclosed => [Bad]
      case Closed(b, rest) => [Quoted(b)] + Lex(rest)
    else if s[0] == '\'' then
      match ScanQuoted(s[1..], '\'')
      case Unclosed => [Bad]
      case Closed(b, rest) => [Str(b)] + Lex(rest)
    else if IsWordStart(s[0]) then
      var n := 1 + WordLen(s[1..]);
      [Word(s[..n])] + Lex(s[n..])
    else if IsDigit(s[0]) then
      var n := 1 + NumberLen(s[1..]);
      [Number(s[..n])] + Lex(s[n..])
    else if s[0] == '=' then [Rel(Eq)] + Lex(s[1..])
    else if s[0] == '<' then
      if |s| > 1 && s[1] == '>' then [Rel(Ne)] + Lex(s[2..])
      else if |s| > 1 && s[1] == '=' then [Rel(Le)] + Lex(s[2..])
      else [Rel(Lt)] + Lex(s[1..])
    else if s[0] == '>' then
      if |s| > 1 && s[1] == '=' then [Rel(Ge)] + Lex(s[2..])
      else [Rel(Gt)] + Lex(s[1..])
    else if s[0] == '-' && |s| > 1 && s[1] == '-' then [Bad]  // a comment opens
    else if IsSymbol(s[0]) then [Sym(s[0])] + Lex(s[1..])
    else [Bad]
  }

  /** Quoting in context: a quoted token followed by any text that does not start
      with the same quote ends exactly where it was closed and reads back as
      the text it was made from. */
  lemma {:induction false} QuoteRoundTrip(s: string, q: char, rest: string)
    requires rest == "" || rest[0] != q
    ensures ScanQuoted(Doubled(s, q) + [q] + rest, q) == Closed(s, rest)
  {
    var text := Doubled(s, q) + [q] + rest;
    if s == "" {
      assert text == [q] + rest;
    } else {
      QuoteRoundTrip(s[1..], q, rest);
      DoubledFirst(s, q, rest);
      assert s == [s[0]] + s[1..];
    }
  }

  lemma {:induction false} DoubledFirst(s: string, q: char, rest: string)
    requires s != ""
    ensures var n := if s[0] == q then 2 else 1;
            var text := Doubled(s, q) + [q] + rest;
            && |text| > n && text[..n] == (if s[0] == q then [q, q] else [s[0]])
            && text[0] == s[0] && (s[0] == q ==> text[1] == q)
            && text[n..] == Doubled(s[1..], q) + [q] + rest
  {
    var first, d := if s[0] == q then [q, q] else [s[0]], Doubled(s[1..], q);
    assert Doubled(s, q) == first + d;
    Prefixed(first, d, [q], rest);
  }

  lemma Prefixed(a: string, b: string, c: string, d: string)
    ensures a + b + c + d == a + (b + c + d)
    ensures (a + b + c + d)[..|a|] == a && (a + b + c + d)[|a|..] == b + c + d
  {
  }

  // --- lexemes: tokens with the spaces between them -------------------------------

  datatype Lexeme = Space | Tok(t: Token)

  /** Operators that have SQL text. */
  predicate HasText(op: CmpOp) { op != Distinct }

  function OpText(op: CmpOp): string {
    match op
    case Eq => "="
    case Ne => "<>"
    case Lt => "<"
    case Gt => ">"
    case Le => "<="
    case Ge => ">="
    case Distinct => ""
  }

  function TokenText(t: Token): string {
    match t
    case Word(w) => w
    case Quoted(n) => QuotedName(n)
    case Str(s) => Literal(s)
    case Number(n) => n
    case Rel(op) => OpText(op)
    case Sym(c) => [c]
    case Bad => ""
  }

  predicate IsWordText(w: string) {
    w != "" && IsWordStart(w[0]) && forall i :: 0 <= i < |w| ==> IsWordChar(w[i])
  }

  predicate ValidToken(t: Token) {
    match t
    case Word(w) => IsWordText(w)
    case Quoted(_) => true
    case Str(_) => true
    case Number(n) => IsNumberText(n)
    case Rel(op) => HasText(op)
    case Sym(c) => IsSymbol(c)
    case Bad => false
  }

  /** Whether text starting with `c` may follow token `t` directly. */
  predicate MayFollow(t: Token, c: char) {
    match t
    case Word(_) => !IsWordChar(c)
    case Number(_) => !IsNumberChar(c)
    case Quoted(_) => c != '"'
    case Str(_) => c != '\''
    case Rel(_) => c != '>' && c != '='
    case Sym(s) => s == '-' ==> c != '-'
    case Bad => false
  }

  function LexemeText(x: Lexeme): string {
    match x
    case Space => " "
    case Tok(t) => TokenText(t)
  }

  function Show(xs: seq<Lexeme>): string {
    if xs == [] then "" else LexemeText(xs[0]) + Show(xs[1..])
  }

  function Tokens(xs: seq<Lexeme>): seq<Token> {
    if xs == [] then []
    else match xs[0]
      case Space => Tokens(xs[1..])
      case Tok(t) => [t] + Tokens(xs[1..])
  }

  /** First character of a lexeme. */
  function Head(x: Lexeme): char {
    match x
    case Space => ' '
    case Tok(Word(w)) => if w == "" then ' ' else w[0]
    case Tok(Quoted(_)) => '"'
    case Tok(Str(_)) => '\''
    case Tok(Number(n)) => if n == "" then ' ' else n[0]
    case Tok(Rel(op)) => if HasText(op) then OpText(op)[0] else ' '
    case Tok(Sym(c)) => c
    case Tok(Bad) => ' '
  }

  predicate Adjacent(x: Lexeme, y: Lexeme) {
    x.Tok? ==> MayFollow(x.t, Head(y))
  }

  /** The lexemes are well formed and none can fuse with its neighbour. */
  ghost predicate Spaced(xs: seq<Lexeme>) {
    && (forall i :: 0 <= i < |xs| && xs[i].Tok? ==> ValidToken(xs[i].t))
    && (forall i :: 0 <= i < |xs| - 1 ==> Adjacent(xs[i], xs[i + 1]))
  }

  lemma {:induction false} ShowCat(a: seq<Lexeme>, b: seq<Lexeme>)
    ensures Show(a + b) == Show(a) + Show(b)
  {
    if a == [] {
      assert a + b == b;
    } else {
      assert (a + b)[1..] == a[1..] + b;
      ShowCat(a[1..], b);
    }
  }

  lemma {:induction false} TokensCat(a: seq<Lexeme>, b: seq<Lexeme>)
    ensures Tokens(a + b) == Tokens(a) + Tokens(b)
  {
    if a == [] {
      assert a + b == b;
    } else {
      assert (a + b)[1..] == a[1..] + b;
      TokensCat(a[1..], b);
    }
  }

  lemma {:induction false} SpacedCat(a: seq<Lexeme>, b: seq<Lexeme>)
    requires Spaced(a) && Spaced(b)
    requires a != [] && b != [] ==> Adjacent(a[|a| - 1], b[0])
    ensures Spaced(a + b)
  {
    var c := a + b;
    forall i | 0 <= i < |c| - 1 ensures Adjacent(c[i], c[i + 1]) {
      if i + 1 < |a| {
        assert c[i] == a[i] && c[i + 1] == a[i + 1];
      } else if i >= |a| {
        assert c[i] == b[i - |a|] && c[i + 1] == b[i - |a| + 1];
      }
    }
  }

  lemma {:induction false} WordLenExact(w: string, rest: string)
    requires forall i :: 0 <= i < |w| ==> IsWordChar(w[i])
    requires rest == "" || !IsWordChar(rest[0])
    ensures WordLen(w + rest) == |w|
  {
    if w == "" {
      assert w + rest == rest;
    } else {
      assert (w + rest)[1..] == w[1..] + rest;
      WordLenExact(w[1..], rest);
    }
  }

  lemma {:induction false} NumberLenExact(n: string, rest: string)
    requires forall i :: 0 <= i < |n| ==> IsNumberChar(n[i])
    requires rest == "" || !IsNumberChar(rest[0])
    ensures NumberLen(n + rest) == |n|
  {
    if n == "" {
      assert n + rest == rest;
    } else {
      assert (n + rest)[1..] == n[1..] + rest;
      NumberLenExact(n[1..], rest);
    }
  }

  lemma LexWord(w: string, rest: string)
    requires IsWordText(w)
    requires rest == "" || !IsWordChar(rest[0])
    ensures Lex(w + rest) == [Word(w)] + Lex(rest)
  {
    var text := w + rest;
    assert text[1..] == w[1..] + rest;
    WordLenExact(w[1..], rest);
    assert text[..|w|] == w && text[|w|..] == rest;
  }

  lemma LexNumber(n: string, rest: string)
    requires IsNumberText(n)
    requires rest == "" || !IsNumberChar(rest[0])
    ensures Lex(n + rest) == [Number(n)] + Lex(rest)
  {
    var text := n + rest;
    assert text[1..] == n[1..] + rest;
    NumberLenExact(n[1..], rest);
    assert text[..|n|] == n && text[|n|..] == rest;
  }

  lemma {:induction false} LexEnclosed(s: string, q: char, rest: string)
    requires q == '"' || q == '\''
    requires rest == "" || rest[0] != q
    ensures Lex(Enclosed(s, q) + rest) == [if q == '"' then Quoted(s) else Str(s)] + Lex(rest)
  {
    var text := Enclosed(s, q) + rest;
    assert text[1..] == Doubled(s, q) + [q] + rest;
    QuoteRoundTrip(s, q, rest);
  }

  lemma LexRel(op: CmpOp, rest: string)
    requires HasText(op)
    requires rest == "" || (rest[0] != '>' && rest[0] != '=')
    ensures Lex(OpText(op) + rest) == [Rel(op)] + Lex(rest)
  {
    if |OpText(op)| == 1 { LexShortRel(op, rest); } else { LexLongRel(op, rest); }
  }

  lemma {:induction false} LexShortRel(op: CmpOp, rest: string)
    requires op == Eq || op == Lt || op == Gt
    requires rest == "" || (rest[0] != '>' && rest[0] != '=')
    ensures Lex(OpText(op) + rest) == [Rel(op)] + Lex(rest)
  {
    var text := OpText(op) + rest;
    assert text[1..] == rest;
    assert rest != "" ==> text[1] == rest[0];
  }

  lemma {:induction false} LexLongRel(op: CmpOp, rest: string)
    requires op == Ne || op == Le || op == Ge
    ensures Lex(OpText(op) + rest) == [Rel(op)] + Lex(rest)
  {
    var text := OpText(op) + rest;
    assert text[2..] == rest && text[0] == OpText(op)[0] && text[1] == OpText(op)[1];
  }

  lemma {:induction false} LexSym(c: char, rest: string)
    requires IsSymbol(c)
    requires rest == "" || (c == '-' ==> rest[0] != '-')
    ensures Lex([c] + rest) == [Sym(c)] + Lex(rest)
  {
    var text := [c] + rest;
    assert text[1..] == rest;
    assert rest != "" ==> text[1] == rest[0];
  }

  /** A valid token's text, followed by text that cannot extend it, lexes to that token. */
  lemma LexToken(t: Token, rest: string)
    requires ValidToken(t)
    requires rest == "" || MayFollow(t, rest[0])
    ensures Lex(TokenText(t) + rest) == [t] + Lex(rest)
  {
    match t
    case Word(w) => LexWord(w, rest);
    case Number(n) => LexNumber(n, rest);
    case Quoted(s) => LexEnclosed(s, '"', rest);
    case Str(s) => LexEnclosed(s, '\'', rest);
    case Rel(op) => LexRel(op, rest);
    case Sym(c) => LexSym(c, rest);
  }

  lemma {:induction false} ShowHead(xs: seq<Lexeme>)
    requires xs != [] && (xs[0].Tok? ==> ValidToken(xs[0].t))
    ensures Show(xs) != "" && Show(xs)[0] == Head(xs[0])
  {
    assert LexemeText(xs[0])[0] == Head(xs[0]);
  }

  /** Well-spaced text lexes to exactly the tokens it was printed from. */
  lemma {:induction false} LexShow(xs: seq<Lexeme>)
    requires Spaced(xs)
    ensures Lex(Show(xs)) == Tokens(xs)
  {
    if xs == [] {
    } else {
      var tail := xs[1..];
      assert Spaced(tail) by {
        forall i | 0 <= i < |tail| - 1 ensures Adjacent(tail[i], tail[i + 1]) {
          assert tail[i] == xs[i + 1] && tail[i + 1] == xs[i + 2];
        }
      }
      LexShow(tail);
      if tail != [] {
        ShowHead(tail);
        assert Adjacent(xs[0], xs[1]);
      }
      if xs[0].Tok? {
        LexToken(xs[0].t, Show(tail));
      } else {
        assert (" " + Show(tail))[1..] == Show(tail);
      }
    }
  }

  function Count(ts: seq<Token>, t: Token): nat {
    if ts == [] then 0 else (if ts[0] == t then 1 else 0) + Count(ts[1..], t)
  }
}
