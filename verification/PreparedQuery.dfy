/** The statements the builder writes, read back by the reference lexer and parser. */
module PreparedQuery {
  import opened Wrappers
  import opened Values
  import opened NumberText
  import opened SqlTokens
  import opened SqlGrammar
  import opened NoneCharset
  import opened Columns
  import opened Emission
  import opened Conditions
  import opened QueryBuilder

  // --- the head: projection and table ---------------------------------------------------

  lemma {:induction false} ItemsForm(t: Table, ids: seq<ColId>)
    requires ids != []
    ensures Spaced(ItemsLx(t, ids)) && ItemsLx(t, ids) != []
    ensures Tokens(ItemsLx(t, ids)) == Tokens(ItemLx(t, ids[0])) + if |ids| == 1 then [] else [COMMA] + Tokens(ItemsLx(t, ids[1..]))
  {
    ItemForm(t, ids[0]);
    if |ids| <= 1 {
    } else {
      CommaForm();
      ItemsForm(t, ids[1..]);
      Join3(ItemLx(t, ids[0]), COMMA_LX, ItemsLx(t, ids[1..]));
      Regroup(Tokens(ItemLx(t, ids[0])), [COMMA], Tokens(ItemsLx(t, ids[1..])), []);
    }
  }

  lemma NotNullItem(ref: Ref, rest: seq<Token>)
    ensures !Starts(RefTokens(ref) + rest, NULL_BIGINT)
  {
    var ts := RefTokens(ref) + rest;
    match ref
    case Bare(n) => assert |ts| >= 6 ==> ts[..6][0] == Quoted(n);
    case AsText(n) => assert ts[..6][2] == Quoted(n);
  }

  lemma {:induction false} ParseOneItem(t: Table, id: ColId, rest: seq<Token>)
    ensures ParseItem(Tokens(ItemLx(t, id)) + rest) == Got(ItemOf(t, id), rest, [])
  {
    if id.Col? && id.n < |t.names| {
      var ref := RefOf(t, id.n);
      RefForm(ref);
      NotNullItem(ref, rest);
      ParseRef(ref, rest, []);
    } else {
      NullItemForm();
      assert (NULL_BIGINT + rest)[..6] == NULL_BIGINT && (NULL_BIGINT + rest)[6..] == rest;
    }
  }

  function AfterItem(t: Table, ids: seq<ColId>, rest: seq<Token>): seq<Token>
    requires ids != []
  {
    if |ids| == 1 then rest else [COMMA] + (Tokens(ItemsLx(t, ids[1..])) + rest)
  }

  lemma ItemsTokens(t: Table, ids: seq<ColId>, rest: seq<Token>)
    requires ids != []
    ensures Tokens(ItemsLx(t, ids)) + rest == Tokens(ItemLx(t, ids[0])) + AfterItem(t, ids, rest)
  {
    ItemsForm(t, ids);
    if |ids| > 1 {
      Regroup(Tokens(ItemLx(t, ids[0])), [COMMA], Tokens(ItemsLx(t, ids[1..])), rest);
      Regroup([COMMA], Tokens(ItemsLx(t, ids[1..])), rest, []);
    }
  }

  lemma {:induction false} ParseAllItems(acc: seq<Item>, t: Table, ids: seq<ColId>, rest: seq<Token>)
    requires ids != [] && rest != [] && rest[0] != COMMA
    ensures ParseItems(acc, Tokens(ItemsLx(t, ids)) + rest) == Got(acc + Items(t, ids), rest, [])
    decreases |ids|
  {
    ItemsTokens(t, ids, rest);
    var after := AfterItem(t, ids, rest);
    ParseOneItem(t, ids[0], after);
    var i := ItemOf(t, ids[0]);
    if |ids| == 1 {
      assert Items(t, ids[1..]) == [];
      assert Items(t, ids) == [i];
    } else {
      assert after[1..] == Tokens(ItemsLx(t, ids[1..])) + rest;
      ParseAllItems(acc + [i], t, ids[1..], rest);
      assert acc + [i] + Items(t, ids[1..]) == acc + Items(t, ids);
    }
  }

  function ItemsOf(t: Table, ids: seq<ColId>): seq<Item> {
    if ids == [] then [Star] else Items(t, ids)
  }

  lemma ProjectionForm(t: Table, ids: seq<ColId>)
    ensures Spaced(ProjectionLx(t, ids)) && ProjectionLx(t, ids) != []
  {
    if ids == [] { Single(Sym('*')); } else { ItemsForm(t, ids); }
  }

  lemma HeadForm(t: Table, ids: seq<ColId>)
    ensures Spaced(HeadLx(t, ids))
    ensures Tokens(HeadLx(t, ids)) == [Word("SELECT")] + Tokens(ProjectionLx(t, ids)) + [Word("FROM")] + [Quoted(t.name)]
  {
    SelectForm();
    FromForm();
    ProjectionForm(t, ids);
    Single(Quoted(t.name));
    Join3(SELECT_LX, ProjectionLx(t, ids), FROM_LX);
    Join(SELECT_LX + ProjectionLx(t, ids) + FROM_LX, [Tok(Quoted(t.name))]);
  }

  lemma {:induction false} ItemsNotStar(t: Table, ids: seq<ColId>, rest: seq<Token>)
    requires ids != []
    ensures Tokens(ItemsLx(t, ids)) + rest != [] && (Tokens(ItemsLx(t, ids)) + rest)[0] != Sym('*')
  {
    ItemsForm(t, ids);
    NullItemForm();
    if ids[0].Col? && ids[0].n < |t.names| { RefForm(RefOf(t, ids[0].n)); }
    assert Tokens(ItemLx(t, ids[0])) != [] && Tokens(ItemLx(t, ids[0]))[0] != Sym('*');
  }

  /** The head of every statement reads back as the projected items and the table. */
  lemma {:induction false} ParseHead(t: Table, ids: seq<ColId>, rest: seq<Token>, ps: seq<Value>)
    ensures ParseStatement(Tokens(HeadLx(t, ids)) + rest, ps) == ParseTail(ItemsOf(t, ids), t.name, rest, ps)
  {
    HeadForm(t, ids);
    var from := [Word("FROM"), Quoted(t.name)] + rest;
    var list := Tokens(ProjectionLx(t, ids)) + from;
    assert Tokens(HeadLx(t, ids)) + rest == [Word("SELECT")] + list;
    if ids == [] {
      Single(Sym('*'));
      ParseStar(t.name, rest, ps);
    } else {
      ItemsNotStar(t, ids, from);
      ParseAllItems([], t, ids, from);
      assert [] + Items(t, ids) == Items(t, ids);
      ParseColumns(list, Items(t, ids), t.name, rest, ps);
    }
  }

  lemma ParseStar(table: string, rest: seq<Token>, ps: seq<Value>)
    ensures ParseStatement([Word("SELECT")] + ([Sym('*')] + ([Word("FROM"), Quoted(table)] + rest)), ps) == ParseTail([Star], table, rest, ps)
  {
    var from := [Word("FROM"), Quoted(table)] + rest;
    var ts := [Word("SELECT")] + ([Sym('*')] + from);
    assert ts[2..] == from && from[2..] == rest;
  }

  lemma {:induction false} ParseColumns(list: seq<Token>, items: seq<Item>, table: string, rest: seq<Token>, ps: seq<Value>)
    requires list != [] && list[0] != Sym('*')
    requires ParseItems([], list) == Got(items, [Word("FROM"), Quoted(table)] + rest, [])
    ensures ParseStatement([Word("SELECT")] + list, ps) == ParseTail(items, table, rest, ps)
  {
    var from := [Word("FROM"), Quoted(table)] + rest;
    assert ([Word("SELECT")] + list)[1..] == list && from[2..] == rest;
  }

  // --- the paging clause -------------------------------------------------------------------

  lemma RowsTokens(p: Paging)
    ensures Spaced(RowsLx(p)) && RowsLx(p) != []
    ensures Tokens(RowsLx(p)) == match p.offset
              case None => [Number(Digits(p.limit))]
              case Some(o) => [Number(Digits(o + 1)), Word("TO"), Number(Digits(o + p.limit))]
  {
    match p.offset
    case None => NumberForm(p.limit);
    case Some(o) =>
      SpanTokens(o + 1, o + p.limit);
  }

  lemma SpanTokens(m: nat, n: nat)
    ensures Spaced(NumberLx(m) + TO_LX + NumberLx(n))
    ensures Tokens(NumberLx(m) + TO_LX + NumberLx(n)) == [Number(Digits(m)), Word("TO"), Number(Digits(n))]
  {
    NumberForm(m);
    NumberForm(n);
    ToForm();
    Join3(NumberLx(m), TO_LX, NumberLx(n));
  }

  lemma PageForm(paging: Option<Paging>)
    ensures Spaced(PageLx(paging))
    ensures PageLx(paging) != [] ==> PageLx(paging)[0] == Space
    ensures Tokens(PageLx(paging)) == match paging
              case None => []
              case Some(p) => [Word("ORDER"), Word("BY")] + KeyTokens(p.key) + [Word("ROWS")] + Tokens(RowsLx(p))
  {
    match paging
    case None =>
    case Some(p) =>
      OrderForm(); RowsForm(); KeyForm(p.key); RowsTokens(p);
      Join3(ORDER_LX, KeyLx(p.key), ROWS_LX);
      Join(ORDER_LX + KeyLx(p.key) + ROWS_LX, RowsLx(p));
  }

  lemma {:induction false} ParseKeyTokens(key: OrderKey, rest: seq<Token>)
    ensures ParseKey(KeyTokens(key) + rest) == Got(key, rest, [])
  {
    assert (KeyTokens(key) + rest)[|KeyTokens(key)|..] == rest;
  }

  lemma {:induction false} ParseRows(p: Paging, ts: seq<Token>)
    requires Starts(ts, [Word("ORDER"), Word("BY")])
    requires ParseKey(ts[2..]) == Got(p.key, [Word("ROWS")] + Tokens(RowsLx(p)), [])
    ensures ParsePage(ts) == Some(PageOf(Some(p)))
  {
    RowsTokens(p);
    match p.offset
    case None => OneRow(p.key, p.limit, ts);
    case Some(o) => TwoRows(p.key, o + 1, o + p.limit, ts);
  }

  lemma OneRow(key: OrderKey, n: nat, ts: seq<Token>)
    requires Starts(ts, [Word("ORDER"), Word("BY")])
    requires ParseKey(ts[2..]) == Got(key, [Word("ROWS")] + [Number(Digits(n))], [])
    ensures ParsePage(ts) == Some(Some(Page(key, n, None)))
  {
    DigitsForm(n);
  }

  lemma TwoRows(key: OrderKey, m: nat, n: nat, ts: seq<Token>)
    requires Starts(ts, [Word("ORDER"), Word("BY")])
    requires ParseKey(ts[2..]) == Got(key, [Word("ROWS")] + [Number(Digits(m)), Word("TO"), Number(Digits(n))], [])
    ensures ParsePage(ts) == Some(Some(Page(key, m, Some(n))))
  {
    DigitsForm(m);
    DigitsForm(n);
  }

  /** ROWS offset+1 TO offset+limit, or ROWS limit. */
  lemma ParsePageTokens(paging: Option<Paging>)
    ensures ParsePage(Tokens(PageLx(paging))) == Some(PageOf(paging))
    ensures Tokens(PageLx(paging)) != [] ==> Tokens(PageLx(paging))[0] == Word("ORDER")
  {
    PageForm(paging);
    match paging
    case None =>
    case Some(p) =>
      var rows := [Word("ROWS")] + Tokens(RowsLx(p));
      var order := [Word("ORDER"), Word("BY")];
      var ts := order + (KeyTokens(p.key) + rows);
      Regroup(order, KeyTokens(p.key), [Word("ROWS")], Tokens(RowsLx(p)));
      Regroup(KeyTokens(p.key), [Word("ROWS")], Tokens(RowsLx(p)), []);
      Regroup(order, KeyTokens(p.key), rows, []);
      assert Tokens(PageLx(paging)) == ts;
      assert ts[..2] == order && ts[2..] == KeyTokens(p.key) + rows;
      ParseKeyTokens(p.key, rows);
      ParseRows(p, ts);
  }

  // --- the condition ------------------------------------------------------------------------

  function BodyLx(cs: seq<Cond>): seq<Lexeme> {
    if cs == [] then [] else WHERE_LX + AndLx(cs)
  }

  lemma {:induction false} BodyForm(cs: seq<Cond>)
    requires ValidConds(cs)
    ensures Spaced(BodyLx(cs))
    ensures BodyLx(cs) != [] ==> BodyLx(cs)[0] == Space
    ensures Tokens(BodyLx(cs)) == if cs == [] then [] else [Word("WHERE")] + Tokens(AndLx(cs))
    ensures Show(BodyLx(cs)) == WhereText(cs)
  {
    if cs != [] {
      WhereForm();
      AndForm(cs);
      Join(WHERE_LX, AndLx(cs));
    }
  }

  function WhereOf(cs: seq<Cond>): Option<Sql> {
    if cs == [] then None else Some(MkAnd(CondSqls(cs)))
  }

  lemma ParseWhere(items: seq<Item>, table: string, ts: seq<Token>, ps: seq<Value>, p: Sql, page: seq<Token>, parsed: Option<Page>)
    requires ts != [] && ts[0] == Word("WHERE") && ParseOr(ts[1..], ps) == Got(p, page, [])
    requires ParsePage(page) == Some(parsed)
    ensures ParseTail(items, table, ts, ps) == Some(Statement(items, table, Some(p), parsed))
  {
  }

  lemma ParseNoWhere(items: seq<Item>, table: string, page: seq<Token>, parsed: Option<Page>)
    requires page == [] || page[0] == Word("ORDER")
    requires ParsePage(page) == Some(parsed)
    ensures ParseTail(items, table, page, []) == Some(Statement(items, table, None, parsed))
  {
  }

  lemma {:induction false} WhereTokens(cs: seq<Cond>, paging: Option<Paging>)
    requires ValidConds(cs) && cs != []
    ensures var ts := Tokens(BodyLx(cs)) + Tokens(PageLx(paging));
            && ts != [] && ts[0] == Word("WHERE")
            && ParseOr(ts[1..], CondsBinds(cs)) == Got(MkAnd(CondSqls(cs)), Tokens(PageLx(paging)), [])
  {
    ParsePageTokens(paging);
    var page := Tokens(PageLx(paging));
    WhereFirst(cs, page);
    ParseConds(cs, page, []);
    assert CondsBinds(cs) + [] == CondsBinds(cs);
  }

  lemma {:induction false} WhereFirst(cs: seq<Cond>, page: seq<Token>)
    requires cs != []
    ensures var ts := Tokens(BodyLx(cs)) + page;
            ts != [] && ts[0] == Word("WHERE") && ts[1..] == Tokens(AndLx(cs)) + page
  {
    WhereForm();
    TokensCat(WHERE_LX, AndLx(cs));
    Regroup([Word("WHERE")], Tokens(AndLx(cs)), page, []);
    WordFirst(Tokens(AndLx(cs)) + page);
  }

  lemma WordFirst(ts: seq<Token>)
    ensures ([Word("WHERE")] + ts)[1..] == ts
  {
  }

  lemma {:induction false} ParseBody(items: seq<Item>, table: string, cs: seq<Cond>, paging: Option<Paging>)
    requires ValidConds(cs)
    ensures ParseTail(items, table, Tokens(BodyLx(cs)) + Tokens(PageLx(paging)), CondsBinds(cs)) ==
            Some(Statement(items, table, WhereOf(cs), PageOf(paging)))
  {
    ParsePageTokens(paging);
    var page := Tokens(PageLx(paging));
    if cs == [] {
      assert Tokens(BodyLx(cs)) + page == page;
      ParseNoWhere(items, table, page, PageOf(paging));
    } else {
      WhereTokens(cs, paging);
      ParseWhere(items, table, Tokens(BodyLx(cs)) + page, CondsBinds(cs), MkAnd(CondSqls(cs)), page, PageOf(paging));
    }
  }

  /** A statement with conditions `cs` reads back as itself. */
  lemma {:induction false} PrepareConds(t: Table, ids: seq<ColId>, cs: seq<Cond>, paging: Option<Paging>)
    requires ValidConds(cs)
    ensures Prepare(Show(HeadLx(t, ids)) + WhereText(cs) + Show(PageLx(paging)), CondsBinds(cs)) ==
            Some(Statement(ItemsOf(t, ids), t.name, WhereOf(cs), PageOf(paging)))
  {
    HeadForm(t, ids);
    BodyForm(cs);
    PageForm(paging);
    Join(HeadLx(t, ids), BodyLx(cs));
    var xs := HeadLx(t, ids) + BodyLx(cs);
    Join(xs, PageLx(paging));
    LexShow(xs + PageLx(paging));
    var tail := Tokens(BodyLx(cs)) + Tokens(PageLx(paging));
    Regroup(Tokens(HeadLx(t, ids)), Tokens(BodyLx(cs)), Tokens(PageLx(paging)), []);
    ParseHead(t, ids, tail, CondsBinds(cs));
    ParseBody(ItemsOf(t, ids), t.name, cs, paging);
  }

  // --- the glue ---------------------------------------------------------------------------------

  lemma {:induction false} AndSnoc(cs: seq<Cond>, c: Cond)
    requires cs != []
    ensures Show(AndLx(cs + [c])) == Show(AndLx(cs)) + " AND " + Show(CondLx(c))
  {
    var all := cs + [c];
    AndText(all);
    assert all[1..] == cs[1..] + [c];
    if |cs| == 1 {
      assert all[1..] == [c];
    } else {
      AndSnoc(cs[1..], c);
      AndText(cs);
      Regroup(Show(CondLx(cs[0])) + " AND ", Show(AndLx(cs[1..])), " AND ", Show(CondLx(c)));
    }
  }

  lemma {:induction false} BindsSnoc(cs: seq<Cond>, c: Cond)
    ensures CondsBinds(cs + [c]) == CondsBinds(cs) + CondBinds(c)
  {
    if cs == [] {
      assert cs + [c] == [c] && CondsBinds([c][1..]) == [];
    } else {
      assert (cs + [c])[1..] == cs[1..] + [c];
      BindsSnoc(cs[1..], c);
    }
  }

  lemma {:induction false} ValidSnoc(cs: seq<Cond>, c: Cond)
    requires ValidConds(cs) && ValidCond(c)
    ensures ValidConds(cs + [c])
  {
    if cs == [] {
      assert cs + [c] == [c];
    } else {
      assert (cs + [c])[1..] == cs[1..] + [c];
      ValidSnoc(cs[1..], c);
    }
  }

  lemma AllCondsValid(q: Query)
    requires ValidQuery(q)
    ensures ValidConds(AllConds(q)) && CondsBinds(AllConds(q)) == AllBindsOf(q)
  {
    var pushed := PushedConds(q);
    FilterCondsValid(q.t, q.ids, q.entries);
    if q.extra == [] {
      assert pushed + [] == pushed && CondsBinds(pushed) + [] == CondsBinds(pushed);
    } else {
      ValidSnoc(pushed, Nested(q.extra));
      BindsSnoc(pushed, Nested(q.extra));
    }
  }

  /** Where the search finds only the clause itself, the text is that of the intended
      conditions. */
  lemma GlueText(q: Query)
    requires ValidQuery(q) && GlueSafe(q)
    ensures SqlText(q) == Show(HeadLx(q.t, q.ids)) + WhereText(AllConds(q)) + Show(PageLx(q.paging))
  {
    var pushed, extra := PushedConds(q), q.extra;
    var head := Show(HeadLx(q.t, q.ids));
    if extra == [] {
      assert AllConds(q) == pushed;
      assert BaseText(q) + "" == BaseText(q);
    } else {
      var inner := "(" + Show(AndLx(extra)) + ")";
      GroupShow(AndLx(extra));
      assert Show(CondLx(Nested(extra))) == inner;
      if pushed == [] {
        assert AllConds(q) == [Nested(extra)];
        assert BaseText(q) == head + "" && head + "" == head;
        GlueAlone(inner, Show(AndLx(extra)));
      } else {
        FoundClause(head, Show(AndLx(pushed)));
        AndSnoc(pushed, Nested(extra));
        GlueAfterFilters(head, Show(AndLx(pushed)), Show(AndLx(extra)));
      }
    }
  }

  lemma GlueAlone(inner: string, extra: string)
    requires inner == "(" + extra + ")"
    ensures " WHERE " + "(" + extra + ")" == " WHERE " + inner
  {
  }

  lemma FoundClause(head: string, conds: string)
    ensures Contains(head + (" WHERE " + conds), " WHERE ")
  {
    var s := head + (" WHERE " + conds);
    assert s[|head|..|head| + 7] == " WHERE ";
    assert OccursAt(s, " WHERE ", |head|);
  }

  lemma GlueAfterFilters(head: string, conds: string, extra: string)
    ensures head + (" WHERE " + conds) + (" AND " + "(" + extra + ")") == head + (" WHERE " + (conds + " AND " + ("(" + extra + ")")))
  {
  }

  function BrokenLx(q: Query): seq<Lexeme> {
    HeadLx(q.t, q.ids) + SepLx("AND") + GroupLx(AndLx(q.extra)) + PageLx(q.paging)
  }

  lemma {:induction false} BrokenForm(q: Query)
    requires ValidQuery(q) && q.extra != []
    ensures Spaced(BrokenLx(q))
    ensures Tokens(BrokenLx(q)) ==
            Tokens(HeadLx(q.t, q.ids)) + ([Word("AND")] + (Tokens(GroupLx(AndLx(q.extra))) + Tokens(PageLx(q.paging))))
  {
    var head, group, page := HeadLx(q.t, q.ids), GroupLx(AndLx(q.extra)), PageLx(q.paging);
    HeadForm(q.t, q.ids);
    AndForm(q.extra);
    GroupForm(AndLx(q.extra));
    SepForm("AND");
    PageForm(q.paging);
    Join3(head, SepLx("AND"), group);
    var xs := head + SepLx("AND") + group;
    assert xs[|xs| - 1] == S(')');
    Join(xs, page);
    Regroup(Tokens(head), [Word("AND")], Tokens(group), Tokens(page));
    Regroup([Word("AND")], Tokens(group), Tokens(page), []);
    Regroup(Tokens(head), [Word("AND")], Tokens(group) + Tokens(page), []);
    Regroup(Tokens(head) + [Word("AND")], Tokens(group), Tokens(page), []);
  }

  lemma BrokenShow(q: Query)
    requires ValidQuery(q) && !GlueSafe(q)
    ensures SqlText(q) == Show(BrokenLx(q))
  {
    var head, group, page := HeadLx(q.t, q.ids), GroupLx(AndLx(q.extra)), PageLx(q.paging);
    AndSeparator();
    GroupShow(AndLx(q.extra));
    Show3(head, SepLx("AND"), group);
    ShowCat(head + SepLx("AND") + group, page);
    assert Show(head) + "" == Show(head);
    BrokenText(Show(head), Show(AndLx(q.extra)), Show(page));
  }

  /** Where the search is misled by a name in the head, the server rejects the statement. */
  lemma GlueBroken(q: Query)
    requires ValidQuery(q) && !GlueSafe(q)
    ensures forall ps :: Prepare(SqlText(q), ps) == None
  {
    BrokenForm(q);
    BrokenShow(q);
    LexShow(BrokenLx(q));
    var rest := [Word("AND")] + (Tokens(GroupLx(AndLx(q.extra))) + Tokens(PageLx(q.paging)));
    forall ps ensures Prepare(SqlText(q), ps) == None {
      ParseHead(q.t, q.ids, rest, ps);
      BrokenTail(ItemsOf(q.t, q.ids), q.t.name, rest, ps);
    }
  }

  lemma {:induction false} DoubledPlain(s: string, q: char)
    requires q !in s
    ensures Doubled(s, q) == s
  {
    if s == "" {
    } else {
      DoubledPlain(s[1..], q);
      assert s == [s[0]] + s[1..];
    }
  }

  lemma OccursInside(a: string, s: string, b: string, needle: string, i: nat)
    requires OccursAt(s, needle, i)
    ensures Contains(a + s + b, needle)
  {
    var hay := a + s + b;
    assert hay[|a| + i..|a| + i + |needle|] == s[i..i + |needle|];
    assert OccursAt(hay, needle, |a| + i);
  }

  /** A table name with " WHERE " in it misleads the search in every query without pushed
      filters that has a partition range or a lifted predicate. */
  lemma NameMisleads(q: Query, i: nat)
    requires PushedConds(q) == [] && q.extra != []
    requires OccursAt(q.t.name, " WHERE ", i) && '"' !in q.t.name
    ensures !GlueSafe(q)
  {
    var start := SELECT_LX + ProjectionLx(q.t, q.ids) + FROM_LX;
    ShowCat(start, [Tok(Quoted(q.t.name))]);
    Single(Quoted(q.t.name));
    DoubledPlain(q.t.name, '"');
    assert Show([Tok(Quoted(q.t.name))]) == "\"" + q.t.name + "\"";
    Regroup(Show(start), "\"", q.t.name, "\"");
    assert Show(HeadLx(q.t, q.ids)) == Show(start) + "\"" + q.t.name + "\"";
    OccursInside(Show(start) + "\"", q.t.name, "\"", " WHERE ", i);
  }

  /** SELECT "c" FROM "a WHERE b" with the range "c" >= 1. */
  function MisledQuery(): Query {
    Query(Table("a WHERE b", ["c"], [], STRICT, false), [Col(0)], [], [KeyBound("c", Ge, 1)], None)
  }

  lemma MisledForm()
    ensures ValidQuery(MisledQuery()) && PushedConds(MisledQuery()) == []
    ensures OccursAt(MisledQuery().t.name, " WHERE ", 1) && '"' !in MisledQuery().t.name
  {
    var q := MisledQuery();
    assert q.extra[1..] == [];
    assert "a WHERE b"[1..8] == " WHERE ";
  }

  lemma Misled(q: Query, i: nat)
    requires ValidQuery(q) && PushedConds(q) == [] && q.extra != []
    requires OccursAt(q.t.name, " WHERE ", i) && '"' !in q.t.name
    ensures !GlueSafe(q) && forall ps :: Prepare(SqlText(q), ps) == None
  {
    NameMisleads(q, i);
    GlueBroken(q);
  }

  /** The server rejects a range scan of a table named `a WHERE b`. */
  lemma GlueMisled()
    ensures ValidQuery(MisledQuery()) && !GlueSafe(MisledQuery())
    ensures forall ps :: Prepare(SqlText(MisledQuery()), ps) == None
  {
    MisledForm();
    Misled(MisledQuery(), 1);
  }

  lemma BrokenText(head: string, extra: string, page: string)
    ensures head + (" AND " + "(" + extra + ")") + page == head + " AND " + ("(" + extra + ")") + page
  {
  }

  lemma {:induction false} BrokenTail(items: seq<Item>, table: string, rest: seq<Token>, ps: seq<Value>)
    requires rest != [] && rest[0] == Word("AND")
    ensures ParseTail(items, table, rest, ps) == None
  {
    assert |rest| >= 2 ==> rest[..2][0] == Word("AND");
  }

  /** The whole statement: lexed, parsed and bound, it is the intended statement, each
      placeholder having taken the parameter of its own predicate and none being
      left, exactly when the search for " WHERE " is not misled; otherwise it is
      rejected. */
  lemma PreparedExactly(q: Query)
    requires ValidQuery(q)
    ensures Prepare(SqlText(q), AllBindsOf(q)) == (if GlueSafe(q) then Some(Intended(q)) else None)
  {
    if GlueSafe(q) {
      AllCondsValid(q);
      GlueText(q);
      PrepareConds(q.t, q.ids, AllConds(q), q.paging);
    } else {
      GlueBroken(q);
    }
  }
}
