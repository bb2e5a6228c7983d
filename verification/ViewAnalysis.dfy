/** AnalyzeViewSource: the shape of a view, read off its source text. Literals and
    comments are blanked by a four-state lexer, white space is collapsed, and the
    flags are searches in the result. */
module ViewAnalysis {
  import opened Wrappers
  import opened SqlTokens
  import opened Emission
  import opened QueryBuilder

  // --- the four-state lexer ---------------------------------------------------------------

  datatype LexState = CODE | STR | LINE_COMMENT | BLOCK_COMMENT

  function Spaces(n: nat): string { seq(n, _ => ' ') }

  predicate Starts(s: string, prefix: string) { |prefix| <= |s| && s[..|prefix|] == prefix }

  /** What the lexer makes of the text `s` when it is in state `st`. */
  function Lexed(s: string, st: LexState): string {
    if s == "" then ""
    else match st
      case CODE =>
        if s[0] == '\'' then " " + Lexed(s[1..], STR)
        else if Starts(s, "--") then "  " + Lexed(s[2..], LINE_COMMENT)
        else if Starts(s, "/*") then "  " + Lexed(s[2..], BLOCK_COMMENT)
        else [UpperChar(s[0])] + Lexed(s[1..], CODE)
      case STR =>
        if Starts(s, "''") then "  " + Lexed(s[2..], STR)
        else if s[0] == '\'' then " " + Lexed(s[1..], CODE)
        else " " + Lexed(s[1..], STR)
      case LINE_COMMENT =>
        if s[0] == '\n' then "\n" + Lexed(s[1..], CODE) else " " + Lexed(s[1..], LINE_COMMENT)
      case BLOCK_COMMENT =>
        if Starts(s, "*/") then "  " + Lexed(s[2..], CODE) else " " + Lexed(s[1..], BLOCK_COMMENT)
  }

  /** One turn of the lexer loop: its output, the next state, how much it consumed. */
  function LexStep(c: char, n: char, st: LexState): (string, LexState, nat) {
    match st
    case CODE =>
      if c == '\'' then (" ", STR, 1)
      else if c == '-' && n == '-' then ("  ", LINE_COMMENT, 2)
      else if c == '/' && n == '*' then ("  ", BLOCK_COMMENT, 2)
      else ([UpperChar(c)], CODE, 1)
    case STR =>
      if c == '\'' && n == '\'' then ("  ", STR, 2)
      else if c == '\'' then (" ", CODE, 1)
      else (" ", STR, 1)
    case LINE_COMMENT =>
      if c == '\n' then ("\n", CODE, 1) else (" ", LINE_COMMENT, 1)
    case BLOCK_COMMENT =>
      if c == '*' && n == '/' then ("  ", CODE, 2) else (" ", BLOCK_COMMENT, 1)
  }

  lemma LexStepMeaning(s: string, st: LexState)
    requires s != ""
    ensures var (out, next, used) := LexStep(s[0], if |s| > 1 then s[1] else '\0', st);
            1 <= used <= |s| && Lexed(s, st) == out + Lexed(s[used..], next)
  {
    match st
    case CODE => CodeStep(s);
    case STR => StringStep(s);
    case LINE_COMMENT =>
    case BLOCK_COMMENT => BlockStep(s);
  }

  lemma {:induction false} StartsPair(s: string, a: char, b: char)
    requires s != ""
    ensures Starts(s, [a, b]) <==> |s| > 1 && s[0] == a && s[1] == b
  {
    if |s| > 1 { assert s[..2] == [s[0], s[1]]; }
  }

  lemma CodeStep(s: string)
    requires s != ""
    ensures var (out, next, used) := LexStep(s[0], if |s| > 1 then s[1] else '\0', CODE);
            1 <= used <= |s| && Lexed(s, CODE) == out + Lexed(s[used..], next)
  {
    StartsPair(s, '-', '-');
    StartsPair(s, '/', '*');
  }

  lemma {:induction false} StringStep(s: string)
    requires s != ""
    ensures var (out, next, used) := LexStep(s[0], if |s| > 1 then s[1] else '\0', STR);
            1 <= used <= |s| && Lexed(s, STR) == out + Lexed(s[used..], next)
  {
    StartsPair(s, '\'', '\'');
  }

  lemma {:induction false} BlockStep(s: string)
    requires s != ""
    ensures var (out, next, used) := LexStep(s[0], if |s| > 1 then s[1] else '\0', BLOCK_COMMENT);
            1 <= used <= |s| && Lexed(s, BLOCK_COMMENT) == out + Lexed(s[used..], next)
  {
    StartsPair(s, '*', '/');
  }

  /** Upper-cases the code and blanks literals and comments. */
  method Blank(src: string) returns (norm: string)
    ensures norm == Lexed(src, CODE)
  {
    norm := "";
    var state, i := CODE, 0;
    while i < |src|
      invariant 0 <= i <= |src|
      invariant norm + Lexed(src[i..], state) == Lexed(src, CODE)
    {
      var c := src[i];
      var n := if i + 1 < |src| then src[i + 1] else '\0';
      assert src[i..][0] == c && (i + 1 < |src| ==> src[i..][1] == n);
      LexStepMeaning(src[i..], state);
      var (out, next, used) := LexStep(c, n, state);
      assert src[i..][used..] == src[i + used..];
      Regroup(norm, out, Lexed(src[i + used..], next), "");
      norm, state, i := norm + out, next, i + used;
    }
    assert src[i..] == "";
  }

  lemma {:induction false} LengthPreserved(s: string, st: LexState)
    ensures |Lexed(s, st)| == |s|
    decreases |s|
  {
    if s == "" {
    } else {
      LexStepMeaning(s, st);
      var (out, next, used) := LexStep(s[0], if |s| > 1 then s[1] else '\0', st);
      LengthPreserved(s[used..], next);
    }
  }

  // --- a declarative lexer ---------------------------------------------------------------------

  /** A source text is a list of pieces. Only the last one may be unterminated. */
  datatype Piece =
    | Plain(c: char)
    | Literal(body: string, closed: bool)
    | LineComment(body: string, closed: bool)
    | BlockComment(body: string, closed: bool)

  function Closing(closed: bool, s: string): string { if closed then s else "" }

  /** A quote inside a literal is written twice. */
  function PieceText(p: Piece): string {
    match p
    case Plain(c) => [c]
    case Literal(b, closed) => "'" + Doubled(b, '\'') + Closing(closed, "'")
    case LineComment(b, closed) => "--" + b + Closing(closed, "\n")
    case BlockComment(b, closed) => "/*" + b + Closing(closed, "*/")
  }

  function Unparse(ps: seq<Piece>): string {
    if ps == [] then "" else PieceText(ps[0]) + Unparse(ps[1..])
  }

  predicate NoEnd(body: string) {
    body == "" || (!Starts(body, "*/") && NoEnd(body[1..]))
  }

  predicate WellFormed(p: Piece, rest: string) {
    match p
    case Plain(c) => c != '\'' && !(c == '-' && Starts(rest, "-")) && !(c == '/' && Starts(rest, "*"))
    case Literal(_, closed) => if closed then !Starts(rest, "'") else rest == ""
    case LineComment(b, closed) => '\n' !in b && (closed || rest == "")
    case BlockComment(b, closed) => NoEnd(b) && (closed || rest == "")
  }

  predicate AllWellFormed(ps: seq<Piece>) {
    ps == [] || (WellFormed(ps[0], Unparse(ps[1..])) && AllWellFormed(ps[1..]))
  }

  /** What is left of a piece after blanking. */
  function PieceBlank(p: Piece): string {
    match p
    case Plain(c) => [UpperChar(c)]
    case LineComment(b, true) => Spaces(|b| + 2) + "\n"
    case _ => Spaces(|PieceText(p)|)
  }

  function Blanked(ps: seq<Piece>): string {
    if ps == [] then "" else PieceBlank(ps[0]) + Blanked(ps[1..])
  }

  lemma SpacesCat(m: nat, n: nat, rest: string)
    ensures Spaces(m) + (Spaces(n) + rest) == Spaces(m + n) + rest
  {
  }

  lemma {:induction false} InLiteral(body: string, closed: bool, rest: string)
    requires if closed then !Starts(rest, "'") else rest == ""
    ensures Lexed(Doubled(body, '\'') + (Closing(closed, "'") + rest), STR) ==
            Spaces(|Doubled(body, '\'')| + |Closing(closed, "'")|) + Lexed(rest, CODE)
    decreases |body|
  {
    var tail := Closing(closed, "'") + rest;
    if body == "" {
      assert Doubled(body, '\'') + tail == tail;
      LiteralEnd(closed, rest);
    } else {
      var more := Doubled(body[1..], '\'') + tail;
      var used := if body[0] == '\'' then 2 else 1;
      InLiteral(body[1..], closed, rest);
      LiteralChar(body[0], more);
      var c := if body[0] == '\'' then "''" else [body[0]];
      assert Doubled(body, '\'') == c + Doubled(body[1..], '\'');
      Associate(c, Doubled(body[1..], '\''), tail);
      SpacesCat(used, |Doubled(body[1..], '\'')| + |Closing(closed, "'")|, Lexed(rest, CODE));
    }
  }

  lemma LiteralEnd(closed: bool, rest: string)
    requires if closed then !Starts(rest, "'") else rest == ""
    ensures Lexed(Closing(closed, "'") + rest, STR) == Spaces(|Closing(closed, "'")|) + Lexed(rest, CODE)
  {
    var tail := Closing(closed, "'") + rest;
    if closed {
      assert tail[1..] == rest;
      if rest != "" { assert rest[..1] == [rest[0]]; }
      StringStep(tail);
      assert Spaces(1) == " ";
    }
  }

  /** One character of a literal's contents. */
  lemma {:induction false} LiteralChar(c: char, more: string)
    ensures c == '\'' ==> Lexed("''" + more, STR) == Spaces(2) + Lexed(more, STR)
    ensures c != '\'' ==> Lexed([c] + more, STR) == Spaces(1) + Lexed(more, STR)
  {
    assert Spaces(2) == "  " && Spaces(1) == " ";
    if c == '\'' {
      assert ("''" + more)[2..] == more;
      StringStep("''" + more);
    } else {
      assert ([c] + more)[1..] == more;
      StringStep([c] + more);
    }
  }

  lemma {:induction false} InLine(body: string, closed: bool, rest: string)
    requires '\n' !in body && (closed || rest == "")
    ensures Lexed(body + (Closing(closed, "\n") + rest), LINE_COMMENT) == Spaces(|body|) + Closing(closed, "\n") + Lexed(rest, CODE)
    decreases |body|
  {
    var tail := Closing(closed, "\n") + rest;
    if body == "" {
      assert body + tail == tail;
      if closed { assert tail[1..] == rest; }
    } else {
      InLine(body[1..], closed, rest);
      assert (body + tail)[1..] == body[1..] + tail;
      SpacesCat(1, |body| - 1, Closing(closed, "\n") + Lexed(rest, CODE));
      assert Spaces(1) == " ";
      assert Spaces(|body| - 1) + Closing(closed, "\n") + Lexed(rest, CODE) == Spaces(|body| - 1) + (Closing(closed, "\n") + Lexed(rest, CODE));
    }
  }

  lemma BlockChar(body: string, closed: bool, rest: string)
    requires body != "" && NoEnd(body) && (closed || rest == "")
    ensures var tail := Closing(closed, "*/") + rest;
            Lexed(body + tail, BLOCK_COMMENT) == " " + Lexed(body[1..] + tail, BLOCK_COMMENT)
  {
    var text := body + (Closing(closed, "*/") + rest);
    assert text[1..] == body[1..] + (Closing(closed, "*/") + rest);
    StartsPair(body, '*', '/');
    StartsPair(text, '*', '/');
    if |body| == 1 && closed { assert text[1] == '*'; }
  }

  lemma {:induction false} InBlock(body: string, closed: bool, rest: string)
    requires NoEnd(body) && (closed || rest == "")
    ensures Lexed(body + (Closing(closed, "*/") + rest), BLOCK_COMMENT) ==
            Spaces(|body| + |Closing(closed, "*/")|) + Lexed(rest, CODE)
    decreases |body|
  {
    var tail := Closing(closed, "*/") + rest;
    if body == "" {
      assert body + tail == tail;
      if closed {
        assert tail[..2] == "*/" && tail[2..] == rest;
        assert Spaces(2) == "  ";
      }
    } else {
      InBlock(body[1..], closed, rest);
      BlockChar(body, closed, rest);
      SpacesCat(1, |body| - 1 + |Closing(closed, "*/")|, Lexed(rest, CODE));
      assert Spaces(1) == " ";
    }
  }

  lemma LexPlain(c: char, rest: string)
    requires WellFormed(Plain(c), rest)
    ensures Lexed([c] + rest, CODE) == [UpperChar(c)] + Lexed(rest, CODE)
  {
    var text := [c] + rest;
    assert text[1..] == rest;
    if rest != "" { assert text[..2] == [c, rest[0]] && rest[..1] == [rest[0]]; }
  }

  lemma {:induction false} LexLiteral(b: string, closed: bool, rest: string)
    requires WellFormed(Literal(b, closed), rest)
    ensures Lexed(PieceText(Literal(b, closed)) + rest, CODE) == PieceBlank(Literal(b, closed)) + Lexed(rest, CODE)
  {
    var text := PieceText(Literal(b, closed)) + rest;
    InLiteral(b, closed, rest);
    assert text[1..] == Doubled(b, '\'') + (Closing(closed, "'") + rest);
    SpacesCat(1, |Doubled(b, '\'')| + |Closing(closed, "'")|, Lexed(rest, CODE));
    assert Spaces(1) == " ";
  }

  lemma {:induction false} LexLine(b: string, closed: bool, rest: string)
    requires WellFormed(LineComment(b, closed), rest)
    ensures Lexed(PieceText(LineComment(b, closed)) + rest, CODE) == PieceBlank(LineComment(b, closed)) + Lexed(rest, CODE)
  {
    var text := PieceText(LineComment(b, closed)) + rest;
    var after := Closing(closed, "\n") + Lexed(rest, CODE);
    InLine(b, closed, rest);
    assert text[..2] == "--" && text[2..] == b + (Closing(closed, "\n") + rest);
    SpacesCat(2, |b|, after);
    assert Spaces(2) == "  ";
    Associate(Spaces(|b|), Closing(closed, "\n"), Lexed(rest, CODE));
    assert PieceBlank(LineComment(b, closed)) == Spaces(2 + |b|) + Closing(closed, "\n");
    Associate(Spaces(2 + |b|), Closing(closed, "\n"), Lexed(rest, CODE));
  }

  lemma {:induction false} LexBlock(b: string, closed: bool, rest: string)
    requires WellFormed(BlockComment(b, closed), rest)
    ensures Lexed(PieceText(BlockComment(b, closed)) + rest, CODE) == PieceBlank(BlockComment(b, closed)) + Lexed(rest, CODE)
  {
    var text := PieceText(BlockComment(b, closed)) + rest;
    InBlock(b, closed, rest);
    assert text[..2] == "/*" && text[2..] == b + (Closing(closed, "*/") + rest);
    SpacesCat(2, |b| + |Closing(closed, "*/")|, Lexed(rest, CODE));
    assert Spaces(2) == "  ";
  }

  lemma LexPiece(p: Piece, rest: string)
    requires WellFormed(p, rest)
    ensures Lexed(PieceText(p) + rest, CODE) == PieceBlank(p) + Lexed(rest, CODE)
  {
    match p
    case Plain(c) => LexPlain(c, rest);
    case Literal(b, closed) => LexLiteral(b, closed, rest);
    case LineComment(b, closed) => LexLine(b, closed, rest);
    case BlockComment(b, closed) => LexBlock(b, closed, rest);
  }

  /** The four-state lexer agrees with the declarative one on every list of pieces. */
  lemma {:induction false} LexedPieces(ps: seq<Piece>)
    requires AllWellFormed(ps)
    ensures Lexed(Unparse(ps), CODE) == Blanked(ps)
  {
    if ps == [] {
    } else {
      LexPiece(ps[0], Unparse(ps[1..]));
      LexedPieces(ps[1..]);
    }
  }

  // --- every source is a list of pieces ------------------------------------------------------

  lemma {:induction false} DoubledCons(c: char, more: string)
    ensures Doubled([c] + more, '\'') == (if c == '\'' then "''" else [c]) + Doubled(more, '\'')
  {
    assert ([c] + more)[1..] == more;
  }

  lemma {:induction false} FindQuote(s: string) returns (body: string, closed: bool, rest: string)
    ensures s == Doubled(body, '\'') + (Closing(closed, "'") + rest) && |rest| <= |s|
    ensures if closed then !Starts(rest, "'") else rest == ""
    decreases |s|
  {
    if s == "" {
      body, closed, rest := "", false, "";
    } else if s[0] == '\'' && !Starts(s[1..], "'") {
      body, closed, rest := "", true, s[1..];
      assert s == "'" + rest && Doubled("", '\'') == "";
    } else {
      var c := if s[0] == '\'' then "''" else [s[0]];
      if s[0] == '\'' { assert s[1..][..1] == [s[1]]; }
      assert s[..|c|] == c && s == c + s[|c|..];
      var more;
      more, closed, rest := FindQuote(s[|c|..]);
      body := [s[0]] + more;
      DoubledCons(s[0], more);
      Regroup(c, Doubled(more, '\''), Closing(closed, "'") + rest, "");
    }
  }

  lemma {:induction false} FindNewline(s: string) returns (body: string, closed: bool, rest: string)
    ensures s == body + (Closing(closed, "\n") + rest) && '\n' !in body && (closed || rest == "") && |rest| <= |s|
  {
    if s == "" {
      body, closed, rest := "", false, "";
    } else if s[0] == '\n' {
      body, closed, rest := "", true, s[1..];
    } else {
      var more;
      more, closed, rest := FindNewline(s[1..]);
      body := [s[0]] + more;
      assert s == [s[0]] + s[1..];
    }
  }

  lemma {:induction false} FindEnd(s: string) returns (body: string, closed: bool, rest: string)
    ensures s == body + (Closing(closed, "*/") + rest) && NoEnd(body) && (closed || rest == "") && |rest| <= |s|
  {
    if s == "" {
      body, closed, rest := "", false, "";
    } else if Starts(s, "*/") {
      body, closed, rest := "", true, s[2..];
      assert s == s[..2] + s[2..];
    } else {
      var more;
      more, closed, rest := FindEnd(s[1..]);
      body := [s[0]] + more;
      assert s == [s[0]] + s[1..] && body[1..] == more;
      if |body| > 1 { assert body[..2] == s[..2]; }
    }
  }

  lemma FirstLiteral(s: string) returns (p: Piece, rest: string)
    requires s != "" && s[0] == '\''
    ensures s == PieceText(p) + rest && WellFormed(p, rest) && |rest| < |s|
  {
    var body, closed;
    body, closed, rest := FindQuote(s[1..]);
    p := Literal(body, closed);
    assert s == "'" + s[1..];
  }

  lemma FirstLine(s: string) returns (p: Piece, rest: string)
    requires Starts(s, "--")
    ensures s == PieceText(p) + rest && WellFormed(p, rest) && |rest| < |s|
  {
    var body, closed;
    body, closed, rest := FindNewline(s[2..]);
    p := LineComment(body, closed);
    assert s == s[..2] + s[2..];
  }

  lemma FirstBlock(s: string) returns (p: Piece, rest: string)
    requires Starts(s, "/*")
    ensures s == PieceText(p) + rest && WellFormed(p, rest) && |rest| < |s|
  {
    var body, closed;
    body, closed, rest := FindEnd(s[2..]);
    p := BlockComment(body, closed);
    assert s == s[..2] + s[2..];
  }

  lemma {:induction false} FirstPlain(s: string)
    requires s != "" && s[0] != '\'' && !Starts(s, "--") && !Starts(s, "/*")
    ensures s == PieceText(Plain(s[0])) + s[1..] && WellFormed(Plain(s[0]), s[1..])
  {
    var rest := s[1..];
    assert s == [s[0]] + rest;
    if rest != "" { assert s[..2] == [s[0], rest[0]] && rest[..1] == [rest[0]]; }
  }

  lemma FirstPiece(s: string) returns (p: Piece, rest: string)
    requires s != ""
    ensures s == PieceText(p) + rest && WellFormed(p, rest) && |rest| < |s|
  {
    if s[0] == '\'' {
      p, rest := FirstLiteral(s);
    } else if Starts(s, "--") {
      p, rest := FirstLine(s);
    } else if Starts(s, "/*") {
      p, rest := FirstBlock(s);
    } else {
      FirstPlain(s);
      p, rest := Plain(s[0]), s[1..];
    }
  }

  lemma {:induction false} EverySource(s: string) returns (ps: seq<Piece>)
    ensures AllWellFormed(ps) && Unparse(ps) == s
    decreases |s|
  {
    if s == "" {
      ps := [];
    } else {
      var p, rest := FirstPiece(s);
      var more := EverySource(rest);
      ps := [p] + more;
      assert ps[1..] == more;
    }
  }

  // --- white space ----------------------------------------------------------------------------

  predicate IsSpace(c: char) {
    c == ' ' || c == '\t' || c == '\n' || c == '\r' || c as int == 12 || c as int == 11
  }

  /** `s` with every run of white space replaced by one blank; `prev` tells whether the
      character before it was white space. */
  function Collapse(s: string, prev: bool): string {
    if s == "" then ""
    else if IsSpace(s[0]) then (if prev then "" else " ") + Collapse(s[1..], true)
    else [s[0]] + Collapse(s[1..], false)
  }

  /** What one character adds. */
  function Flattened(c: char, prev: bool): string {
    if !IsSpace(c) then [c] else if prev then "" else " "
  }

  lemma FlattenStep(flat: string, norm: string, i: nat, prev: bool)
    requires i < |norm|
    ensures flat + Collapse(norm[i..], prev) == (flat + Flattened(norm[i], prev)) + Collapse(norm[i + 1..], IsSpace(norm[i]))
  {
    assert norm[i..][0] == norm[i] && norm[i..][1..] == norm[i + 1..];
    Associate(flat, Flattened(norm[i], prev), Collapse(norm[i + 1..], IsSpace(norm[i])));
  }

  lemma Associate(a: string, b: string, c: string)
    ensures a + (b + c) == (a + b) + c && a + "" == a
  {
  }

  method Flatten(norm: string) returns (flat: string)
    ensures flat == Collapse(norm, false)
  {
    flat := "";
    var prev := false;
    assert norm[0..] == norm;
    for i := 0 to |norm|
      invariant flat + Collapse(norm[i..], prev) == Collapse(norm, false)
    {
      FlattenStep(flat, norm, i, prev);
      Associate(flat, "", "");
      if IsSpace(norm[i]) {
        if !prev { flat := flat + " "; }
        prev := true;
      } else {
        flat := flat + [norm[i]];
        prev := false;
      }
    }
    Associate(flat, "", "");
  }

  /** Blanks are the only white space, and no two are adjacent. */
  predicate Normal(s: string, prev: bool) {
    s == "" || (if IsSpace(s[0]) then s[0] == ' ' && !prev && Normal(s[1..], true) else Normal(s[1..], false))
  }

  lemma {:induction false} CollapseNormal(s: string, prev: bool)
    ensures Normal(Collapse(s, prev), prev)
  {
    if s == "" {
    } else {
      var rest := Collapse(s[1..], IsSpace(s[0]));
      CollapseNormal(s[1..], IsSpace(s[0]));
      if !IsSpace(s[0]) {
        assert ([s[0]] + rest)[1..] == rest;
      } else if !prev {
        assert (" " + rest)[1..] == rest;
      } else {
        assert Collapse(s, prev) == rest;
      }
    }
  }

  lemma {:induction false} NormalFixed(s: string, prev: bool)
    requires Normal(s, prev)
    ensures Collapse(s, prev) == s
  {
    if s == "" {
    } else {
      NormalFixed(s[1..], IsSpace(s[0]));
      assert s == [s[0]] + s[1..];
    }
  }

  /** Collapsing yields a normal form and is idempotent. */
  lemma CollapseIdempotent(s: string)
    ensures Normal(Collapse(s, false), false) && Collapse(Collapse(s, false), false) == Collapse(s, false)
  {
    CollapseNormal(s, false);
    NormalFixed(Collapse(s, false), false);
  }

  // --- non-interference --------------------------------------------------------------------------

  /** The two sources have the same code, with literals and comments in the same places;
      the contents of those are arbitrary. */
  predicate SameCode(ps: seq<Piece>, qs: seq<Piece>) {
    |ps| == |qs| && forall i :: 0 <= i < |ps| ==> if ps[i].Plain? then ps[i] == qs[i] else !qs[i].Plain?
  }

  predicate AllSpace(s: string) { s == "" || (IsSpace(s[0]) && AllSpace(s[1..])) }

  lemma {:induction false} CollapseSpaces(a: string, b: string, prev: bool)
    requires AllSpace(a) && a != ""
    ensures Collapse(a + b, prev) == (if prev then "" else " ") + Collapse(b, true)
  {
    assert (a + b)[1..] == a[1..] + b;
    if |a| == 1 {
      assert a[1..] + b == b;
    } else {
      CollapseSpaces(a[1..], b, true);
    }
  }

  lemma {:induction false} SpacesAreSpace(n: nat, tail: string)
    requires AllSpace(tail)
    ensures AllSpace(Spaces(n) + tail)
  {
    if n == 0 {
      assert Spaces(0) + tail == tail;
    } else {
      SpacesAreSpace(n - 1, tail);
      assert (Spaces(n) + tail)[1..] == Spaces(n - 1) + tail;
    }
  }

  lemma BlankIsSpace(p: Piece)
    requires !p.Plain?
    ensures AllSpace(PieceBlank(p)) && PieceBlank(p) != ""
  {
    SpacesAreSpace(|PieceText(p)|, "");
    assert Spaces(|PieceText(p)|) + "" == Spaces(|PieceText(p)|);
    if p.LineComment? && p.closed {
      assert "\n"[1..] == "";
      SpacesAreSpace(|p.body| + 2, "\n");
    }
  }

  lemma {:induction false} SameCollapse(ps: seq<Piece>, qs: seq<Piece>, prev: bool)
    requires SameCode(ps, qs)
    ensures Collapse(Blanked(ps), prev) == Collapse(Blanked(qs), prev)
  {
    if ps == [] {
    } else {
      var p, q := ps[0], qs[0];
      forall i | 0 <= i < |ps| - 1 ensures if ps[1..][i].Plain? then ps[1..][i] == qs[1..][i] else !qs[1..][i].Plain? {
        assert ps[1..][i] == ps[i + 1] && qs[1..][i] == qs[i + 1];
      }
      if p.Plain? {
        var c := UpperChar(p.c);
        SameCollapse(ps[1..], qs[1..], IsSpace(c));
        assert ([c] + Blanked(ps[1..]))[1..] == Blanked(ps[1..]) && ([c] + Blanked(qs[1..]))[1..] == Blanked(qs[1..]);
      } else {
        BlankIsSpace(p);
        BlankIsSpace(q);
        SameCollapse(ps[1..], qs[1..], true);
        CollapseSpaces(PieceBlank(p), Blanked(ps[1..]), prev);
        CollapseSpaces(PieceBlank(q), Blanked(qs[1..]), prev);
      }
    }
  }

  // --- the flags ---------------------------------------------------------------------------------

  datatype Analysis = Analysis(inspected: bool, hasJoin: bool, hasGroupBy: bool, hasWhere: bool, hasAggregate: bool)

  /** What is searched for keywords. */
  function Hay(src: string): string { " " + Collapse(Lexed(src, CODE), false) + " " }

  const AGGREGATES: seq<string> :=
    ["COUNT(", "SUM(", "AVG(", "MIN(", "MAX(", "LIST(", "COUNT (", "SUM (", "AVG (", "MIN (", "MAX (", "LIST ("]

  predicate ContainsAny(hay: string, needles: seq<string>) {
    exists i :: 0 <= i < |needles| && Contains(hay, needles[i])
  }

  function Shape(source: Option<string>): Analysis {
    match source
    case None => Analysis(false, false, false, false, false)
    case Some(src) =>
      if src == "" then Analysis(false, false, false, false, false)
      else
        var hay := Hay(src);
        Analysis(true, Contains(hay, " JOIN "), Contains(hay, " GROUP BY "), Contains(hay, " WHERE "), ContainsAny(hay, AGGREGATES))
  }

  /** `source` is RDB$VIEW_SOURCE, None when there is none to read. */
  method AnalyzeViewSource(source: Option<string>) returns (va: Analysis)
    ensures va == Shape(source)
    ensures va.inspected <==> source.Some? && source.value != ""
    ensures !va.inspected ==> !va.hasJoin && !va.hasGroupBy && !va.hasWhere && !va.hasAggregate
  {
    va := Analysis(false, false, false, false, false);
    if source.None? || source.value == "" { return; }
    var norm := Blank(source.value);
    var flat := Flatten(norm);
    var hay := " " + flat + " ";
    var aggregate := false;
    for i := 0 to |AGGREGATES|
      invariant aggregate <==> exists j :: 0 <= j < i && Contains(hay, AGGREGATES[j])
    {
      if Contains(hay, AGGREGATES[i]) { aggregate := true; }
    }
    va := Analysis(true, Contains(hay, " JOIN "), Contains(hay, " GROUP BY "), Contains(hay, " WHERE "), aggregate);
  }

  /** A view page may be ordered by RDB$DB_KEY. */
  predicate SimpleForPagination(va: Analysis) {
    va.inspected && !va.hasJoin && !va.hasGroupBy && !va.hasAggregate
  }

  lemma {:induction false} PiecesOrNothing(ps: seq<Piece>)
    ensures Unparse(ps) == "" <==> ps == []
  {
    if ps != [] { assert |PieceText(ps[0])| > 0; }
  }

  /** Changing what literals and comments say, even how long they are, without ending
      them never changes the searched text, and so no flag. */
  lemma NonInterference(ps: seq<Piece>, qs: seq<Piece>)
    requires AllWellFormed(ps) && AllWellFormed(qs) && SameCode(ps, qs)
    ensures Hay(Unparse(ps)) == Hay(Unparse(qs)) && Shape(Some(Unparse(ps))) == Shape(Some(Unparse(qs)))
  {
    LexedPieces(ps);
    LexedPieces(qs);
    SameCollapse(ps, qs, false);
    PiecesOrNothing(ps);
    PiecesOrNothing(qs);
  }

  // --- keywords as words ----------------------------------------------------------------------

  predicate NoSpace(w: string) { forall i :: 0 <= i < |w| ==> !IsSpace(w[i]) }

  /** The words of a text; `w` is the part of the current word already read. */
  function Words(s: string, w: string): seq<string> {
    if s == "" then (if w == "" then [] else [w])
    else if IsSpace(s[0]) then (if w == "" then [] else [w]) + Words(s[1..], "")
    else Words(s[1..], w + [s[0]])
  }

  predicate Adjacent(ws: seq<string>, x: string, y: string) {
    exists i :: 0 <= i < |ws| - 1 && ws[i] == x && ws[i + 1] == y
  }

  /** A word followed by a blank begins with another such word only if they are the same. */
  lemma PrefixWord(w: string, t: string, x: string, u: string)
    requires NoSpace(w) && NoSpace(x) && t != "" && t[0] == ' ' && u != "" && u[0] == ' '
    ensures Starts(w + t, x + u) <==> w == x && Starts(t, u)
  {
    var a, b := w + t, x + u;
    if Starts(a, b) {
      assert a[..|b|] == b && b[|x|] == ' ';
      assert a[|w|] == ' ';
      assert forall k :: 0 <= k < |x| ==> a[k] == b[k] && b[k] == x[k];
      assert |w| == |x|;
      assert w == a[..|w|] == b[..|x|] == x;
      assert t[..|u|] == a[|w|..|w| + |u|] == b[|x|..] == u;
    }
    if w == x && Starts(t, u) { assert a[..|b|] == w + t[..|u|]; }
  }

  lemma {:induction false} OccursShift(a: string, t: string, n: string, i: nat)
    ensures OccursAt(a + t, n, |a| + i) <==> OccursAt(t, n, i)
  {
    if i + |n| <= |t| { assert (a + t)[|a| + i..|a| + i + |n|] == t[i..i + |n|]; }
  }

  /** Where a blank, a word and more can occur in text that starts with a word. */
  lemma FirstWord(w: string, t: string, x: string, u: string)
    requires NoSpace(w) && NoSpace(x) && t != "" && t[0] == ' ' && u != "" && u[0] == ' '
    ensures Contains(" " + w + t, " " + x + u) <==> (w == x && Starts(t, u)) || Contains(t, " " + x + u)
  {
    var h, n := " " + w + t, " " + x + u;
    PrefixWord(w, t, x, u);
    assert h[1..] == w + t && n[1..] == x + u;
    OccursFirst(h, n);
    OccursInTail(w, t, n);
  }

  /** An occurrence of text that starts with a blank is at the start or past the word. */
  lemma OccursInTail(w: string, t: string, n: string)
    requires NoSpace(w) && n != "" && n[0] == ' '
    ensures Contains(" " + w + t, n) <==> OccursAt(" " + w + t, n, 0) || Contains(t, n)
  {
    var a := " " + w;
    var h := a + t;
    if Contains(h, n) {
      var i :| 0 <= i <= |h| && OccursAt(h, n, i);
      assert h[i] == n[0];
      assert i == 0 || i >= |a|;
      if i > 0 {
        OccursShift(a, t, n, i - |a|);
        assert OccursAt(t, n, i - |a|);
      }
    }
    if Contains(t, n) {
      var i :| 0 <= i <= |t| && OccursAt(t, n, i);
      OccursShift(a, t, n, i);
      assert OccursAt(h, n, |a| + i);
    }
  }

  lemma {:induction false} OccursFirst(h: string, n: string)
    requires h != "" && n != "" && h[0] == n[0]
    ensures OccursAt(h, n, 0) <==> Starts(h[1..], n[1..])
  {
    if |n| <= |h| {
      assert h[0..|n|] == [h[0]] + h[1..][..|n| - 1];
      assert n == [n[0]] + n[1..];
    }
  }

  /** The text searched while `w` is being read. */
  function Reading(s: string, prev: bool, w: string): string { " " + w + (Collapse(s, prev) + " ") }

  lemma {:induction false} ReadingStep(s: string, prev: bool, w: string)
    requires s != "" && (prev ==> w == "")
    ensures IsSpace(s[0]) && prev ==> Reading(s, prev, w) == Reading(s[1..], true, "")
    ensures IsSpace(s[0]) && !prev ==> Reading(s, prev, w) == " " + w + Reading(s[1..], true, "")
    ensures !IsSpace(s[0]) ==> Reading(s, prev, w) == Reading(s[1..], false, w + [s[0]])
  {
    var rest := Collapse(s[1..], IsSpace(s[0]));
    if !IsSpace(s[0]) {
      assert w + ([s[0]] + rest + " ") == w + [s[0]] + (rest + " ");
    } else if !prev {
      assert " " + rest + " " == " " + "" + (rest + " ");
    }
  }

  lemma BlankAlone(u: string)
    requires |u| > 1
    ensures !Contains(" ", u) && !Starts(" ", u)
  {
  }

  /** A blank, a word and a blank occur in the collapsed text exactly when the word is one
      of the words of the text. */
  lemma {:induction false} WordIn(s: string, prev: bool, w: string, x: string)
    requires NoSpace(w) && NoSpace(x) && x != "" && (prev ==> w == "")
    ensures Contains(Reading(s, prev, w), " " + x + " ") <==> x in Words(s, w)
    decreases |s|
  {
    if s == "" {
      assert Collapse(s, prev) + " " == " ";
      FirstWord(w, " ", x, " ");
      BlankAlone(" " + x + " ");
    } else {
      ReadingStep(s, prev, w);
      if !IsSpace(s[0]) {
        WordIn(s[1..], false, w + [s[0]], x);
      } else {
        WordIn(s[1..], true, "", x);
        var t := Reading(s[1..], true, "");
        FirstWord(w, t, x, " ");
        assert t[..1] == " ";
      }
    }
  }

  /** Which word comes first. */
  lemma {:induction false} HeadIs(s: string, prev: bool, w: string, y: string)
    requires NoSpace(w) && NoSpace(y) && y != "" && (prev <==> w == "")
    ensures Starts(Reading(s, prev, w), " " + y + " ") <==> Words(s, w) != [] && Words(s, w)[0] == y
    decreases |s|
  {
    var h := Reading(s, prev, w);
    if s == "" {
      assert Collapse(s, prev) + " " == " ";
      StartsWord(w, " ", y);
    } else {
      ReadingStep(s, prev, w);
      if !IsSpace(s[0]) {
        HeadIs(s[1..], false, w + [s[0]], y);
      } else if prev {
        HeadIs(s[1..], true, "", y);
      } else {
        StartsWord(w, Reading(s[1..], true, ""), y);
      }
    }
  }

  lemma StartsWord(w: string, t: string, y: string)
    requires NoSpace(w) && NoSpace(y) && t != "" && t[0] == ' '
    ensures Starts(" " + w + t, " " + y + " ") <==> w == y
  {
    PrefixWord(w, t, y, " ");
    var h, n := " " + w + t, " " + y + " ";
    OccursFirst(h, n);
    assert h[1..] == w + t && n[1..] == y + " " && t[..1] == " ";
    assert Starts(h, n) <==> OccursAt(h, n, 0);
  }

  lemma AdjacentCons(w: string, ws: seq<string>, x: string, y: string)
    ensures Adjacent([w] + ws, x, y) <==> (w == x && ws != [] && ws[0] == y) || Adjacent(ws, x, y)
  {
    var all := [w] + ws;
    if Adjacent(ws, x, y) {
      var i :| 0 <= i < |ws| - 1 && ws[i] == x && ws[i + 1] == y;
      assert all[i + 1] == x && all[i + 2] == y;
    }
    if w == x && ws != [] && ws[0] == y { assert all[0] == x && all[1] == y; }
  }

  lemma {:induction false} PairIn(s: string, prev: bool, w: string, x: string, y: string)
    requires NoSpace(w) && NoSpace(x) && NoSpace(y) && x != "" && y != "" && (prev ==> w == "")
    ensures Contains(Reading(s, prev, w), " " + x + (" " + y + " ")) <==> Adjacent(Words(s, w), x, y)
    decreases |s|
  {
    var u := " " + y + " ";
    if s == "" {
      assert Collapse(s, prev) + " " == " ";
      FirstWord(w, " ", x, u);
      BlankAlone(" " + x + u);
      BlankAlone(u);
    } else {
      ReadingStep(s, prev, w);
      if !IsSpace(s[0]) {
        PairIn(s[1..], false, w + [s[0]], x, y);
      } else {
        PairIn(s[1..], true, "", x, y);
        FirstWord(w, Reading(s[1..], true, ""), x, u);
        HeadIs(s[1..], true, "", y);
        var ws := Words(s[1..], "");
        AdjacentCons(w, ws, x, y);
        assert [] + ws == ws;
        assert Words(s, w) == if w == "" then ws else [w] + ws;
      }
    }
  }

  /** The words of the code of a view. */
  function CodeWords(src: string): seq<string> { Words(Lexed(src, CODE), "") }

  const AGGREGATE_NAMES: seq<string> := ["COUNT", "SUM", "AVG", "MIN", "MAX", "LIST"]

  /** The name of an aggregate is followed by a parenthesis, at once or after a blank. */
  predicate CallsAggregate(hay: string) {
    exists i :: 0 <= i < |AGGREGATE_NAMES| && Called(hay, AGGREGATE_NAMES[i])
  }

  predicate Called(hay: string, name: string) { Contains(hay, name + "(") || Contains(hay, name + " (") }

  lemma {:induction false} AggregateCalls(hay: string)
    ensures ContainsAny(hay, AGGREGATES) <==> CallsAggregate(hay)
  {
    forall i | 0 <= i < |AGGREGATE_NAMES|
      ensures AGGREGATES[i] == AGGREGATE_NAMES[i] + "(" && AGGREGATES[i + 6] == AGGREGATE_NAMES[i] + " ("
    {
    }
    if ContainsAny(hay, AGGREGATES) {
      var k :| 0 <= k < |AGGREGATES| && Contains(hay, AGGREGATES[k]);
      assert Called(hay, AGGREGATE_NAMES[if k < 6 then k else k - 6]);
    }
    if CallsAggregate(hay) {
      var i :| 0 <= i < |AGGREGATE_NAMES| && Called(hay, AGGREGATE_NAMES[i]);
      assert Contains(hay, AGGREGATES[i]) || Contains(hay, AGGREGATES[i + 6]);
    }
  }

  /** The flags say what they are named for: JOIN and WHERE are words of the code, GROUP
      and BY adjacent words of it, however the author broke the lines, and some aggregate is
      called. */
  lemma {:induction false} FlagsMeaning(src: string)
    requires src != ""
    ensures var va := Shape(Some(src));
            && (va.hasJoin <==> "JOIN" in CodeWords(src))
            && (va.hasWhere <==> "WHERE" in CodeWords(src))
            && (va.hasGroupBy <==> Adjacent(CodeWords(src), "GROUP", "BY"))
            && (va.hasAggregate <==> CallsAggregate(Hay(src)))
  {
    AggregateCalls(Hay(src));
    var text := Lexed(src, CODE);
    assert Reading(text, false, "") == Hay(src);
    WordIn(text, false, "", "JOIN");
    WordIn(text, false, "", "WHERE");
    PairIn(text, false, "", "GROUP", "BY");
    assert " " + "JOIN" + " " == " JOIN " && " " + "WHERE" + " " == " WHERE ";
    assert " " + "GROUP" + (" " + "BY" + " ") == " GROUP BY ";
  }
}
