/** A statement the server accepts has exactly as many placeholders as parameters,
    whatever produced it: quoted question marks are not placeholders. */
module Placeholders {
  import opened Values
  import opened SqlTokens
  import opened SqlGrammar
  import opened QueryBuilder
  import opened PreparedQuery

  function Marks(ts: seq<Token>): nat { Count(ts, MARK) }

  /** Parsing passed as many placeholders as it took parameters. */
  ghost predicate Balanced<T>(r: Parsed<T>, ts: seq<Token>, ps: seq<Value>) {
    r.Got? ==> Marks(ts) - Marks(r.ts) == |ps| - |r.ps|
  }

  lemma {:induction false} MarksDrop(ts: seq<Token>, n: nat)
    requires n <= |ts| && forall i :: 0 <= i < n ==> ts[i] != MARK
    ensures Marks(ts[n..]) == Marks(ts)
  {
    if n == 0 {
    } else {
      MarksDrop(ts[1..], n - 1);
      assert ts[1..][n - 1..] == ts[n..];
    }
  }

  lemma StartsDrop(ts: seq<Token>, prefix: seq<Token>)
    requires Starts(ts, prefix) && forall i :: 0 <= i < |prefix| ==> prefix[i] != MARK
    ensures Marks(ts[|prefix|..]) == Marks(ts)
  {
    forall i | 0 <= i < |prefix| ensures ts[i] != MARK { assert ts[..|prefix|][i] == ts[i]; }
    MarksDrop(ts, |prefix|);
  }

  lemma CastDrop(ts: seq<Token>)
    requires |ts| >= 9 && ts[2].Quoted? && ts[..9] == CastTokens(ts[2].name)
    ensures Marks(ts[9..]) == Marks(ts)
  {
    assert Starts(ts, CastTokens(ts[2].name));
    StartsDrop(ts, CastTokens(ts[2].name));
  }

  lemma OperandBalanced(ts: seq<Token>, ps: seq<Value>)
    ensures Balanced(ParseOperand(ts, ps), ts, ps)
  {
    if ts != [] && ParseOperand(ts, ps).Got? {
      if ts[0] != MARK { MarksDrop(ts, 1); }
      if ts[0] == MINUS { MarksDrop(ts, 2); }
      if ts[0].Word? {
        if ts[0].w == "CAST" { CastDrop(ts); }
        else if ts[0].w != "NULL" { MarksDrop(ts, 2); }
      }
    }
  }

  lemma {:induction false} ListBalanced(acc: seq<Operand>, ts: seq<Token>, ps: seq<Value>)
    ensures Balanced(ParseList(acc, ts, ps), ts, ps)
    decreases |ts|
  {
    OperandBalanced(ts, ps);
    match ParseOperand(ts, ps)
    case Fail =>
    case Got(o, ts', ps') =>
      if ts' != [] && (ts'[0] == COMMA || ts'[0] == RP) { MarksDrop(ts', 1); }
      if ts' != [] && ts'[0] == COMMA { ListBalanced(acc + [o], ts'[1..], ps'); }
  }

  lemma {:induction false} RestBalanced(l: Operand, ts: seq<Token>, ps: seq<Value>)
    ensures Balanced(ParseRest(l, ts, ps), ts, ps)
  {
    if ts != [] && ts[0].Rel? {
      MarksDrop(ts, 1);
      OperandBalanced(ts[1..], ps);
    } else if Starts(ts, [Word("IS"), Word("NULL")]) {
      StartsDrop(ts, [Word("IS"), Word("NULL")]);
    } else if Starts(ts, [Word("IS"), Word("NOT"), Word("NULL")]) {
      StartsDrop(ts, [Word("IS"), Word("NOT"), Word("NULL")]);
    } else if Starts(ts, [Word("IN"), LP]) {
      StartsDrop(ts, [Word("IN"), LP]);
      ListBalanced([], ts[2..], ps);
    } else if Starts(ts, [Word("NOT"), Word("IN"), LP]) {
      StartsDrop(ts, [Word("NOT"), Word("IN"), LP]);
      ListBalanced([], ts[3..], ps);
    } else if ts != [] && ts[0] == Word("LIKE") && ParseRest(l, ts, ps).Got? {
      MarksDrop(ts, 4);
    }
  }

  lemma {:induction false} FactorBalanced(ts: seq<Token>, ps: seq<Value>)
    ensures Balanced(ParseFactor(ts, ps), ts, ps)
    decreases |ts|, 0
  {
    if ts == [] {
    } else {
      if ts[0] == Word("NOT") {
        MarksDrop(ts, 1);
        FactorBalanced(ts[1..], ps);
      } else if ts[0] == LP {
        MarksDrop(ts, 1);
        OrBalanced(ts[1..], ps);
        var r := ParseOr(ts[1..], ps);
        if r.Got? && r.ts != [] && r.ts[0] == RP { MarksDrop(r.ts, 1); }
      } else {
        OperandBalanced(ts, ps);
        var r := ParseOperand(ts, ps);
        if r.Got? { RestBalanced(r.v, r.ts, r.ps); }
      }
    }
  }

  lemma {:induction false} AndBalanced(ts: seq<Token>, ps: seq<Value>)
    ensures Balanced(ParseAnd(ts, ps), ts, ps)
    decreases |ts|, 2
  {
    FactorBalanced(ts, ps);
    var r := ParseFactor(ts, ps);
    if r.Got? { AndTailBalanced([r.v], r.ts, r.ps); }
  }

  lemma {:induction false} AndTailBalanced(acc: seq<Sql>, ts: seq<Token>, ps: seq<Value>)
    ensures Balanced(ParseAndTail(acc, ts, ps), ts, ps)
    decreases |ts|, 1
  {
    if ts != [] && ts[0] == Word("AND") {
      MarksDrop(ts, 1);
      FactorBalanced(ts[1..], ps);
      var r := ParseFactor(ts[1..], ps);
      if r.Got? { AndTailBalanced(acc + [r.v], r.ts, r.ps); }
    }
  }

  lemma {:induction false} OrBalanced(ts: seq<Token>, ps: seq<Value>)
    ensures Balanced(ParseOr(ts, ps), ts, ps)
    decreases |ts|, 4
  {
    AndBalanced(ts, ps);
    var r := ParseAnd(ts, ps);
    if r.Got? { OrTailBalanced([r.v], r.ts, r.ps); }
  }

  lemma {:induction false} OrTailBalanced(acc: seq<Sql>, ts: seq<Token>, ps: seq<Value>)
    ensures Balanced(ParseOrTail(acc, ts, ps), ts, ps)
    decreases |ts|, 3
  {
    if ts != [] && ts[0] == Word("OR") {
      MarksDrop(ts, 1);
      AndBalanced(ts[1..], ps);
      var r := ParseAnd(ts[1..], ps);
      if r.Got? { OrTailBalanced(acc + [r.v], r.ts, r.ps); }
    }
  }

  lemma ItemBalanced(ts: seq<Token>)
    ensures Balanced(ParseItem(ts), ts, [])
  {
    OperandBalanced(ts, []);
    if Starts(ts, NULL_BIGINT) { StartsDrop(ts, NULL_BIGINT); }
  }

  lemma {:induction false} ItemsBalanced(acc: seq<Item>, ts: seq<Token>)
    ensures Balanced(ParseItems(acc, ts), ts, [])
    decreases |ts|
  {
    ItemBalanced(ts);
    match ParseItem(ts)
    case Fail =>
    case Got(i, ts', _) =>
      if ts' != [] && ts'[0] == COMMA {
        MarksDrop(ts', 1);
        ItemsBalanced(acc + [i], ts'[1..]);
      }
  }

  lemma {:induction false} PageBalanced(ts: seq<Token>)
    requires ParsePage(ts).Some?
    ensures Marks(ts) == 0
  {
    if ts != [] {
      StartsDrop(ts, [Word("ORDER"), Word("BY")]);
      KeyBalanced(ts[2..]);
      var r := ParseKey(ts[2..]);
      MarksDrop(r.ts, |r.ts|);
    }
  }

  lemma KeyBalanced(ts: seq<Token>)
    requires ParseKey(ts).Got?
    ensures Marks(ParseKey(ts).ts) == Marks(ts)
  {
    if ts[0] == Word("RDB$DB_KEY") { MarksDrop(ts, 1); } else { MarksDrop(ts, 2); }
  }

  lemma TailBalanced(items: seq<Item>, table: string, ts: seq<Token>, ps: seq<Value>)
    requires ParseTail(items, table, ts, ps).Some?
    ensures Marks(ts) == |ps|
  {
    if ts != [] && ts[0] == Word("WHERE") {
      MarksDrop(ts, 1);
      OrBalanced(ts[1..], ps);
      PageBalanced(ParseOr(ts[1..], ps).ts);
    } else {
      PageBalanced(ts);
    }
  }

  lemma FromBalanced(items: seq<Item>, ts: seq<Token>, ps: seq<Value>)
    requires |ts| > 1 && ts[0] == Word("FROM") && ts[1].Quoted?
    requires ParseTail(items, ts[1].name, ts[2..], ps).Some?
    ensures Marks(ts) == |ps|
  {
    MarksDrop(ts, 2);
    TailBalanced(items, ts[1].name, ts[2..], ps);
  }

  lemma StatementBalanced(ts: seq<Token>, ps: seq<Value>)
    requires ParseStatement(ts, ps).Some?
    ensures Marks(ts) == |ps|
  {
    if |ts| > 1 && ts[1] == Sym('*') {
      MarksDrop(ts, 2);
      FromBalanced([Star], ts[2..], ps);
    } else {
      MarksDrop(ts, 1);
      ItemsBalanced([], ts[1..]);
      var r := ParseItems([], ts[1..]);
      FromBalanced(r.v, r.ts, ps);
    }
  }

  /** Every statement the server prepares and binds has one placeholder per parameter. */
  lemma PlaceholdersMatch(sql: string, ps: seq<Value>)
    requires Prepare(sql, ps).Some?
    ensures Marks(Lex(sql)) == |ps|
  {
    StatementBalanced(Lex(sql), ps);
  }

  /** The statements the builder writes have one placeholder per parameter passed. */
  lemma BuiltPlaceholders(q: Query)
    requires ValidQuery(q) && GlueSafe(q)
    ensures Marks(Lex(SqlText(q))) == |AllBindsOf(q)|
  {
    PreparedExactly(q);
    PlaceholdersMatch(SqlText(q), AllBindsOf(q));
  }
}
