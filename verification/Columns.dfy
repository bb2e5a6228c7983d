/** Column descriptors, and the value DuckDB sees of a stored value. */
module Columns {
  import opened Wrappers
  import opened Values
  import opened NumberText
  import opened Utf8
  import opened NoneCharset
  import opened SqlGrammar
  import opened SqlSemantics

  datatype SqlType =
    | SQL_TEXT | SQL_VARYING | SQL_SHORT | SQL_LONG | SQL_INT64 | SQL_INT128
    | SQL_FLOAT | SQL_DOUBLE | SQL_DEC16 | SQL_DEC34 | SQL_BOOLEAN
    | SQL_DATE | SQL_TIME | SQL_TIMESTAMP | SQL_TIME_TZ | SQL_TIMESTAMP_TZ | SQL_BLOB | SQL_OTHER

  /** `scale` is the power of ten an integer column is scaled by. */
  datatype ColumnDesc = ColumnDesc(sqltype: SqlType, subtype: int, scale: int, charset: int)

  predicate IsDecfloatType(t: SqlType) { t == SQL_DEC16 || t == SQL_DEC34 }

  predicate IsCharVarchar(d: ColumnDesc) { d.sqltype == SQL_TEXT || d.sqltype == SQL_VARYING }

  /** Text columns whose bytes are transcoded, or kept raw, on the client. */
  predicate IsNoneTextColumnGated(d: ColumnDesc, mode: NoneEncoding) {
    mode != STRICT && d.charset == 0 && (IsCharVarchar(d) || (d.sqltype == SQL_BLOB && d.subtype == 1))
  }

  /** What a scan knows of its table. `descs` may be shorter than `names`; `widen` is the
      numeric_widen_int64 option. */
  datatype Table = Table(name: string, names: seq<string>, descs: seq<ColumnDesc>, mode: NoneEncoding, widen: bool)

  predicate Decfloat(t: Table, c: nat) {
    c < |t.descs| && IsDecfloatType(t.descs[c].sqltype)
  }

  predicate Gated(t: Table, c: nat) {
    c < |t.descs| && IsNoneTextColumnGated(t.descs[c], t.mode)
  }

  /** The expression that stands for a column in the projection and in predicates. */
  function RefOf(t: Table, c: nat): Ref
    requires c < |t.names|
  {
    if Decfloat(t, c) then AsText(t.names[c]) else Bare(t.names[c])
  }

  /** What DuckDB sees in column `c`: DECFLOAT as text; of NONE text that is transcoded, the
      characters its bytes stand for, in UTF-8; everything else as stored. */
  function View(t: Table, c: nat, row: Row): Option<Datum>
    requires c < |t.names|
  {
    if Decfloat(t, c) then Rendered(Stored(row, t.names[c])) else Transcoded(t, c, Stored(row, t.names[c]))
  }

  function Transcoded(t: Table, c: nat, x: Option<Datum>): Option<Datum> {
    match x
    case Some(Text(s)) =>
      if Gated(t, c) && SingleByte(t.mode) && ByteString(s) then Some(Text(EncodeAll(CodePoints(t.mode, s)))) else x
    case _ => x
  }

  /** What the server promises of a stored value: times on whole ticks, text made of
      bytes, and nothing but text in a CHAR or VARCHAR column. */
  ghost predicate ValueOk(t: Table, c: nat, x: Option<Datum>) {
    && OnTick(x)
    && (forall s :: x == Some(Text(s)) ==> ByteString(s))
    && (c < |t.descs| && IsCharVarchar(t.descs[c]) && x.Some? ==> x.value.Text?)
  }

  ghost predicate RowOk(t: Table, row: Row) {
    forall c :: 0 <= c < |t.names| ==> ValueOk(t, c, Stored(row, t.names[c]))
  }

  /** For every column that is not gated, the pushed expression has the value
      DuckDB sees, and that value is on a tick. */
  lemma RefView(t: Table, c: nat, row: Row)
    requires c < |t.names| && RowOk(t, row) && !Gated(t, c)
    ensures EvalRef(RefOf(t, c), row) == View(t, c, row) && OnTick(View(t, c, row))
  {
    assert ValueOk(t, c, Stored(row, t.names[c]));
  }

  // --- the fetch path ------------------------------------------------------------------------

  /** The fetch fails on bytes that are not UTF-8 under STRICT. */
  datatype Fetch = Fetched(x: Option<Datum>) | InvalidBytes

  predicate IsText(d: ColumnDesc) { IsCharVarchar(d) || (d.sqltype == SQL_BLOB && d.subtype == 1) }

  /** What the server says of the projected expression: the cast of a DECFLOAT is a VARCHAR,
      in a character set of the server's choice. */
  function ResultDesc(t: Table, c: nat, castCharset: int): ColumnDesc
    requires c < |t.descs|
  {
    if Decfloat(t, c) then ColumnDesc(SQL_VARYING, 0, 0, castCharset) else t.descs[c]
  }

  /** A text column of the result holds bytes. */
  predicate HoldsBytes(d: ColumnDesc, x: Option<Datum>) {
    IsText(d) && x.Some? ==> x.value.Text? && ByteString(x.value.bytes)
  }

  /** What is fetched of a value. */
  function FetchOf(d: ColumnDesc, mode: NoneEncoding, x: Option<Datum>): Fetch
    requires HoldsBytes(d, x)
  {
    if x.None? then Fetched(None)
    else if IsDecfloatType(d.sqltype) then Fetched(None)
    else if !IsText(d) || d.charset != 0 || mode == NoneEncoding.BLOB then Fetched(x)
    else if mode == STRICT then if Valid(x.value.bytes) then Fetched(x) else InvalidBytes
    else Fetched(Some(Text(Transcode(mode, x.value.bytes))))
  }

  /** FirebirdAppendValue on text, text BLOBs and the rest. */
  method FetchColumn(d: ColumnDesc, mode: NoneEncoding, x: Option<Datum>) returns (r: Fetch)
    requires HoldsBytes(d, x)
    ensures r == FetchOf(d, mode, x)
  {
    if x.None? { return Fetched(None); }
    match d.sqltype
    case SQL_TEXT | SQL_VARYING =>
      if d.charset == 0 {
        if mode == NoneEncoding.BLOB { return Fetched(x); }
        r := TranscodeNoneCharset(x.value.bytes, mode);
      } else {
        r := Fetched(x);
      }
    case SQL_BLOB =>
      if d.subtype == 1 && d.charset == 0 {
        if mode == NoneEncoding.BLOB { return Fetched(x); }
        r := TranscodeNoneCharset(x.value.bytes, mode);
      } else {
        r := Fetched(x);
      }
    case SQL_DEC16 | SQL_DEC34 => r := Fetched(None);
    case _ => r := Fetched(x);
  }

  method TranscodeNoneCharset(raw: string, mode: NoneEncoding) returns (r: Fetch)
    requires ByteString(raw)
    ensures r == if mode == STRICT && !Valid(raw) then InvalidBytes
                 else Fetched(Some(Text(if SingleByte(mode) then Transcode(mode, raw) else raw)))
  {
    match mode
    case STRICT =>
      var ok := IsValidUtf8(raw);
      r := if ok then Fetched(Some(Text(raw))) else InvalidBytes;
    case WIN1252 =>
      var out := Win1252ToUtf8(raw);
      r := Fetched(Some(Text(out)));
    case ISO_8859_1 =>
      var out := Latin1ToUtf8(raw);
      r := Fetched(Some(Text(out)));
    case BLOB => r := Fetched(Some(Text(raw)));
  }

  lemma {:induction false} AsciiTranscode(mode: NoneEncoding, s: string)
    requires IsAscii(s)
    ensures Transcode(mode, s) == s
  {
    if s == "" {
    } else {
      AsciiTranscode(mode, s[1..]);
      assert CodePoints(mode, s)[1..] == CodePoints(mode, s[1..]);
      assert Encode(s[0] as int) == [s[0]];
      assert s == [s[0]] + s[1..];
    }
  }

  lemma RenderedAscii(x: Option<Datum>)
    requires x.Some? ==> x.value.DecFloat?
    ensures Rendered(x).Some? ==> Rendered(x).value.Text? && IsAscii(Rendered(x).value.bytes) && Valid(Rendered(x).value.bytes)
  {
    if x.Some? {
      NumTextForm(x.value.mantissa, x.value.digits);
      AsciiValid(NumText(x.value.mantissa, x.value.digits));
    }
  }

  /** What DuckDB gets of a CHAR, VARCHAR or text BLOB of character set NONE is valid UTF-8
      unless it asked for the raw bytes; where it is not, the fetch fails. */
  lemma FetchedValid(d: ColumnDesc, mode: NoneEncoding, bytes: string)
    requires ByteString(bytes) && d.charset == 0 && mode != NoneEncoding.BLOB
    requires d.sqltype == SQL_TEXT || d.sqltype == SQL_VARYING || (d.sqltype == SQL_BLOB && d.subtype == 1)
    ensures match FetchOf(d, mode, Some(Text(bytes)))
            case InvalidBytes => mode == STRICT && !Valid(bytes)
            case Fetched(x) => x.Some? && x.value.Text? && Valid(x.value.bytes) && (mode == STRICT ==> x.value.bytes == bytes)
  {
    TranscodeValid(mode, bytes);
  }

  /** A stored value has the type of its column. */
  ghost predicate Typed(t: Table, c: nat, x: Option<Datum>)
    requires c < |t.descs|
  {
    && HoldsBytes(t.descs[c], x)
    && (Decfloat(t, c) && x.Some? ==> x.value.DecFloat?)
  }

  /** Fetching what the server returns for the projected expression gives the value DuckDB
      sees, whatever character set the cast of a DECFLOAT has; it fails exactly on bytes
      that are not UTF-8 in a NONE text column under STRICT. */
  lemma ProjectionYieldsView(t: Table, c: nat, row: Row, castCharset: int)
    requires c < |t.names| && c < |t.descs| && Typed(t, c, Stored(row, t.names[c]))
    ensures var x := EvalItem(ColumnItem(RefOf(t, c)), row);
            var d := ResultDesc(t, c, castCharset);
            && HoldsBytes(d, x)
            && FetchOf(d, t.mode, x) ==
               if t.mode == STRICT && IsText(d) && d.charset == 0 && x.Some? && !Valid(x.value.bytes)
               then InvalidBytes else Fetched(View(t, c, row))
  {
    if Decfloat(t, c) {
      var x := Stored(row, t.names[c]);
      RenderedAscii(x);
      if x.Some? { AsciiTranscode(t.mode, Rendered(x).value.bytes); }
    }
  }

  /** Of a DECFLOAT column DuckDB gets the decimal text of the number, not NULL. */
  lemma DecfloatShown(t: Table, c: nat, row: Row, castCharset: int, mantissa: int, digits: nat)
    requires c < |t.names| && c < |t.descs| && t.descs[c].sqltype in {SQL_DEC16, SQL_DEC34}
    requires Stored(row, t.names[c]) == Some(DecFloat(mantissa, digits))
    ensures var x, d := EvalItem(ColumnItem(RefOf(t, c)), row), ResultDesc(t, c, castCharset);
            && HoldsBytes(d, x) && FetchOf(d, t.mode, x) == Fetched(Some(Text(NumText(mantissa, digits))))
            && View(t, c, row) == Some(Text(NumText(mantissa, digits)))
  {
    ProjectionYieldsView(t, c, row, castCharset);
    RenderedAscii(Stored(row, t.names[c]));
  }

  /** The gate of the pushdown is as wide as it has to be: of the columns that are no
      DECFLOAT, the fetch changes some value of exactly those that are gated, unless the
      bytes are handed out raw. */
  lemma FetchChangesGated(t: Table, c: nat)
    requires c < |t.descs| && !Decfloat(t, c)
    ensures (exists x :: HoldsBytes(t.descs[c], x) && FetchOf(t.descs[c], t.mode, x) !in [Fetched(x), InvalidBytes]) <==>
            Gated(t, c) && t.mode != NoneEncoding.BLOB
  {
    var s := [0xE9 as char];
    if Gated(t, c) && t.mode != NoneEncoding.BLOB {
      assert CodePoints(t.mode, s) == [0xE9] && [0xE9][1..] == [];
      assert EncodeAll([0xE9]) == Encode(0xE9) + EncodeAll([]);
      assert Transcode(t.mode, s) != s;
      assert HoldsBytes(t.descs[c], Some(Text(s)));
    }
  }
}
