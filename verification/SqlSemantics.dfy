/** What a parsed statement means to the server. */
module SqlSemantics {
  import opened Wrappers
  import opened Values
  import opened NumberText
  import opened LikePatterns
  import opened NoneCharset
  import opened SqlGrammar

  /** A stored row: column name to value, None for NULL. */
  type Row = map<string, Option<Datum>>

  function Stored(row: Row, name: string): Option<Datum> {
    if name in row then row[name] else None
  }

  /** CAST(x AS VARCHAR(64)) of a DECFLOAT; text stays text. */
  function Rendered(x: Option<Datum>): Option<Datum> {
    match x
    case Some(DecFloat(m, d)) => Some(Text(NumText(m, d)))
    case _ => x
  }

  function EvalRef(ref: Ref, row: Row): Option<Datum> {
    match ref
    case Bare(n) => Stored(row, n)
    case AsText(n) => Rendered(Stored(row, n))
  }

  function EvalOperand(o: Operand, row: Row): Option<Datum> {
    match o
    case Column(ref) => EvalRef(ref, row)
    case Param(v) => Bound(v)
    case Exact(u, s) => Some(Num(u, s))
    case Nil => None
    case Chars(_, s) => Some(Text(s))
  }

  function EvalOperands(os: seq<Operand>, row: Row): seq<Option<Datum>> {
    if os == [] then [] else [EvalOperand(os[0], row)] + EvalOperands(os[1..], row)
  }

  /** LIKE on a value; a malformed pattern makes the server reject the statement,
      see Rejected. */
  function EvalLike(x: Option<Datum>, pattern: string, escape: char): Tri {
    match x
    case Some(Text(s)) =>
      (match LikeEscape(s, pattern, escape)
       case Some(b) => Tri.Of(b)
       case None => Unknown)
    case _ => Unknown
  }

  function Truthy(x: Option<Datum>): Tri {
    match x
    case Some(Bool(b)) => Tri.Of(b)
    case _ => Unknown
  }

  function Eval(p: Sql, row: Row): Tri
    decreases p, 1
  {
    match p
    case Cmp(l, op, r) => Compare(op, EvalOperand(l, row), EvalOperand(r, row))
    case In(l, negated, items) =>
      var t := MemberOf(EvalOperand(l, row), EvalOperands(items, row));
      if negated then t.Not() else t
    case NullTest(l, negated) => Tri.Of(EvalOperand(l, row).None? != negated)
    case Like(l, pattern, escape) => EvalLike(EvalOperand(l, row), pattern, escape)
    case Truth(l) => Truthy(EvalOperand(l, row))
    case Not(q) => Eval(q, row).Not()
    case And(ps) => EvalAll(ps, row)
    case Or(ps) => EvalAny(ps, row)
  }

  function EvalAll(ps: seq<Sql>, row: Row): Tri
    decreases ps, 0
  {
    if ps == [] then True else Eval(ps[0], row).And(EvalAll(ps[1..], row))
  }

  function EvalAny(ps: seq<Sql>, row: Row): Tri
    decreases ps, 0
  {
    if ps == [] then False else Eval(ps[0], row).Or(EvalAny(ps[1..], row))
  }

  /** A literal whose bytes stand for no text in its character set. */
  predicate Malformed(o: Operand) { o.Chars? && DenotedText(o.charset, o.s).None? }

  /** The server refuses a condition with a malformed literal or LIKE pattern. */
  predicate Rejected(p: Sql)
    decreases p
  {
    match p
    case Cmp(l, _, r) => Malformed(l) || Malformed(r)
    case In(l, _, items) => Malformed(l) || exists i :: 0 <= i < |items| && Malformed(items[i])
    case Like(_, pattern, escape) => !WellFormed(pattern, escape)
    case Not(q) => Rejected(q)
    case And(ps) => exists i :: 0 <= i < |ps| && Rejected(ps[i])
    case Or(ps) => exists i :: 0 <= i < |ps| && Rejected(ps[i])
    case _ => false
  }

  lemma {:induction false} MkAndMeaning(ps: seq<Sql>, row: Row)
    requires ps != []
    ensures Eval(MkAnd(ps), row) == EvalAll(ps, row)
  {
    if |ps| == 1 { assert EvalAll(ps[1..], row) == True; }
  }

  lemma {:induction false} MkOrMeaning(ps: seq<Sql>, row: Row)
    requires ps != []
    ensures Eval(MkOr(ps), row) == EvalAny(ps, row)
  {
    if |ps| == 1 { assert EvalAny(ps[1..], row) == False; }
  }

  lemma {:induction false} AllTrue(ps: seq<Sql>, row: Row)
    ensures EvalAll(ps, row) == True <==> forall i :: 0 <= i < |ps| ==> Eval(ps[i], row) == True
  {
    if ps == [] {
    } else {
      AllTrue(ps[1..], row);
      assert forall i :: 0 <= i < |ps| - 1 ==> ps[1..][i] == ps[i + 1];
      if forall i :: 0 <= i < |ps| ==> Eval(ps[i], row) == True {
        forall i | 0 <= i < |ps[1..]| ensures Eval(ps[1..][i], row) == True {
          assert ps[1..][i] == ps[i + 1];
        }
      }
    }
  }

  // --- running a statement -------------------------------------------------------------

  predicate Selects(where: Option<Sql>, row: Row) {
    where.Some? ==> Eval(where.value, row) == True
  }

  /** The rows of `table` that satisfy the WHERE clause, in table order. */
  function Filtered(where: Option<Sql>, table: seq<Row>): seq<Row> {
    if table == [] then []
    else (if Selects(where, table[0]) then [table[0]] else []) + Filtered(where, table[1..])
  }

  function EvalItem(item: Item, row: Row): Option<Datum> {
    match item
    case ColumnItem(ref) => EvalRef(ref, row)
    case NullBigint => None
    case Star => None
  }

  /** A literal compared with a DECFLOAT column by value, and with its cast by text: the two
      comparisons agree on a stored number exactly when it is the literal's number in the
      literal's scale, or another number. */
  lemma BareAgreesExactly(row: Row, name: string, u: int, s: nat, v: int, t: nat)
    requires Stored(row, name) == Some(DecFloat(u, s))
    ensures var literal := Param(Val(VARCHAR, Text(NumText(v, t))));
            && (Eval(Cmp(Column(Bare(name)), Eq, literal), row) == True <==> u * Pow10(t) == v * Pow10(s))
            && (Eval(Cmp(Column(AsText(name)), Eq, literal), row) == True <==> (u, s) == (v, t))
            && (Eval(Cmp(Column(Bare(name)), Eq, literal), row) == Eval(Cmp(Column(AsText(name)), Eq, literal), row) <==>
                (u, s) == (v, t) || u * Pow10(t) != v * Pow10(s))
  {
    NumTextRoundTrip(u, s);
    NumTextRoundTrip(v, t);
    ByteOrderZero(NumText(u, s), NumText(v, t));
  }

  /** The number fits a decimal of that many digits; a DECFLOAT has 16 or 34. */
  predicate Fits(unscaled: int, digits: nat) { -unscaled < Pow10(digits) && unscaled < Pow10(digits) }

  /** So no literal that is shorter than the column's precision may be compared with the bare
      column: the same number stored with one more decimal satisfies `=` by value, but not as
      the text DuckDB sees. */
  lemma EveryLiteralNeedsCast(row: Row, name: string, v: int, t: nat, digits: nat)
    requires Fits(v, digits) && Stored(row, name) == Some(DecFloat(10 * v, t + 1))
    ensures var literal := Param(Val(VARCHAR, Text(NumText(v, t))));
            && Fits(10 * v, digits + 1)
            && Eval(Cmp(Column(Bare(name)), Eq, literal), row) == True
            && Eval(Cmp(Column(AsText(name)), Eq, literal), row) == False
  {
    OneMoreDecimal(v, t, digits);
    BareAgreesExactly(row, name, 10 * v, t + 1, v, t);
    TextsDiffer(v, t);
  }

  lemma OneMoreDecimal(v: int, t: nat, digits: nat)
    ensures 10 * v * Pow10(t) == v * Pow10(t + 1)
    ensures Fits(v, digits) ==> Fits(10 * v, digits + 1)
  {
    assert Pow10(t + 1) == 10 * Pow10(t);
    assert 10 * v * Pow10(t) == v * (10 * Pow10(t));
  }

  lemma TextsDiffer(v: int, t: nat)
    ensures ByteOrder(NumText(10 * v, t + 1), NumText(v, t)) != 0
  {
    NumTextRoundTrip(10 * v, t + 1);
    NumTextRoundTrip(v, t);
    ByteOrderZero(NumText(10 * v, t + 1), NumText(v, t));
  }
}
