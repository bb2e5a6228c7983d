/** Input parameters: the type DuckDB gives a column, what the client writes for a constant
    compared with it, and what the server reads. */
module Binder {
  import opened Wrappers
  import opened Values
  import opened NumberText
  import opened Utf8
  import opened NoneCharset
  import opened Columns
  import N = NumericTypes

  // --- the types of columns and of constants --------------------------------------------------

  function OfLogical(t: N.LogicalType): TypeId {
    match t
    case SMALLINT => Plain(SMALLINT)
    case INTEGER => Plain(INTEGER)
    case BIGINT => Plain(BIGINT)
    case HUGEINT => Wide(HUGEINT)
    case DOUBLE => Plain(DOUBLE)
    case DECIMAL(_, _) => Wide(WideId.DECIMAL)
  }

  function FirebirdToDuckDBType(d: ColumnDesc, widen: bool): TypeId {
    match d.sqltype
    case SQL_SHORT => OfLogical(N.FirebirdToDuckDBType(N.SQL_SHORT, d.scale, widen))
    case SQL_LONG => OfLogical(N.FirebirdToDuckDBType(N.SQL_LONG, d.scale, widen))
    case SQL_INT64 => OfLogical(N.FirebirdToDuckDBType(N.SQL_INT64, d.scale, widen))
    case SQL_INT128 => OfLogical(N.FirebirdToDuckDBType(N.SQL_INT128, d.scale, widen))
    case SQL_FLOAT => Plain(FLOAT)
    case SQL_DOUBLE => Plain(DOUBLE)
    case SQL_BOOLEAN => Plain(BOOLEAN)
    case SQL_DATE => Plain(DATE)
    case SQL_TIME => Plain(TIME)
    case SQL_TIMESTAMP => Plain(TIMESTAMP)
    case SQL_TIME_TZ => Plain(TIME_TZ)
    case SQL_TIMESTAMP_TZ => Plain(TIMESTAMP_TZ)
    case SQL_BLOB => if d.subtype == 1 then Plain(VARCHAR) else Plain(PlainId.BLOB)
    case SQL_TEXT | SQL_VARYING | SQL_DEC16 | SQL_DEC34 | SQL_OTHER => Plain(VARCHAR)
  }

  /** The DuckDB type of a column. */
  function TypeOfColumn(d: ColumnDesc, mode: NoneEncoding, widen: bool): TypeId {
    if mode == NoneEncoding.BLOB && d.charset == 0 && IsText(d) then Plain(PlainId.BLOB) else FirebirdToDuckDBType(d, widen)
  }

  const TWO7: int := 0x80
  const TWO15: int := 0x8000
  const TWO31: int := 0x8000_0000
  const TWO63: int := 0x8000_0000_0000_0000

  /** Half of the numbers of an integer type's width; None for the other types. */
  function HalfSpan(p: PlainId): Option<int> {
    match p
    case TINYINT | UTINYINT => Some(TWO7)
    case SMALLINT | USMALLINT => Some(TWO15)
    case INTEGER | UINTEGER => Some(TWO31)
    case BIGINT | UBIGINT => Some(TWO63)
    case _ => None
  }

  predicate IsUnsigned(p: PlainId) { p == UTINYINT || p == USMALLINT || p == UINTEGER || p == UBIGINT }

  predicate InSpan(p: PlainId, n: int) {
    match HalfSpan(p)
    case Some(half) => if IsUnsigned(p) then 0 <= n < 2 * half else -half <= n < half
    case None => false
  }

  const MICROS_PER_DAY := 86_400_000_000

  /** The values of a type. */
  predicate OfType(p: PlainId, x: Datum) {
    match p
    case BOOLEAN => x.Bool?
    case FLOAT | DOUBLE => x.Approx?
    case VARCHAR | BLOB => x.Text? && ByteString(x.bytes)
    case DATE => x.Num? && x.scale == 0 && -TWO31 <= x.unscaled < TWO31
    case TIME | TIME_TZ => x.Micros? && 0 <= x.t <= MICROS_PER_DAY
    case TIMESTAMP | TIMESTAMP_TZ => x.Micros? && -TWO63 <= x.t < TWO63
    case INTERVAL => x.Micros?
    case _ => x.Num? && x.scale == 0 && InSpan(p, x.unscaled)
  }

  /** A constant of that type. */
  predicate WellTyped(t: TypeId, v: Value) {
    TypeOf(v) == t && (v.Val? ==> OfType(v.typ, v.datum))
  }

  // --- what the client writes ---------------------------------------------------------------------

  /** A date is counted from 1858-11-17; a timestamp is a date and the ticks of its day. */
  datatype Wire =
    | Chars(s: string)
    | Whole(n: int)
    | Double(r: real)
    | Flag(b: bool)
    | Day(day: int)
    | Ticks(ticks: int)
    | Stamp(day: int, ticks: int)

  /** A buffer for one parameter, or the error that the server's type is not supported. */
  datatype Input = Refusal | NullInput | Data(w: Wire)

  /** A number cast to a signed integer with 2 * `half` values. */
  function Wrap(half: int, n: int): int
    requires half > 0
  {
    (n + half) % (2 * half) - half
  }

  /** The nearest whole number; of two the even one. */
  function Nearest(r: real): int {
    var f := r.Floor;
    if r - f as real < 0.5 || (r - f as real == 0.5 && f % 2 == 0) then f else f + 1
  }

  /** The nearest whole number, away from zero when there are two. */
  function Rounded(unscaled: int, scale: nat): int {
    var one := Pow10(scale) as int;
    if unscaled >= 0 then (2 * unscaled + one) / (2 * one) else -((-2 * unscaled + one) / (2 * one))
  }

  /** GetValue<int64_t>; None when the number has no int64 or DuckDB does not make one of it. */
  function AsInt64(v: Value): Option<int> {
    match v
    case Val(_, Num(n, s)) => InInt64(Rounded(n, s))
    case Decimal(_, n, s) => InInt64(Rounded(n, s))
    case Val(_, Approx(r)) => InInt64(Nearest(r))
    case _ => None
  }

  function InInt64(n: int): Option<int> { if -TWO63 <= n < TWO63 then Some(n) else None }

  const HEX := "0123456789ABCDEF"

  /** A BLOB as text: bytes that are no plain printable characters in hexadecimal. */
  function BlobText(bytes: string): string
    requires ByteString(bytes)
  {
    if bytes == "" then ""
    else
      var c := bytes[0];
      (if ' ' <= c <= '~' && c !in "\\'\"" then [c] else "\\x" + [HEX[c as int / 16], HEX[c as int % 16]]) + BlobText(bytes[1..])
  }

  /** ToString, for texts, BLOBs and numbers. */
  function AsString(v: Value): Option<string> {
    match v
    case Val(BLOB, Text(s)) => if ByteString(s) then Some(BlobText(s)) else None
    case Val(_, Text(s)) => Some(s)
    case Val(DATE, _) => None
    case Val(_, Num(n, s)) => Some(NumText(n, s))
    case Decimal(_, n, s) => Some(NumText(n, s))
    case _ => None
  }

  /** The length of a text is written in 16 bits. */
  function Cut(s: string): string { s[..|s| % 0x1_0000] }

  /** Days from 1858-11-17, where Firebird's dates start, to 1970-01-01, where DuckDB's do. */
  const MJD_EPOCH_TO_UNIX_EPOCH_DAYS := 40587

  function FirebirdDay(days: int): int { Wrap(TWO31, days + MJD_EPOCH_TO_UNIX_EPOCH_DAYS) }

  function Integer(half: int, v: Value): Input
    requires half > 0
  {
    match AsInt64(v)
    case Some(n) => Data(Whole(Wrap(half, n)))
    case None => Refusal
  }

  /** One parameter, by the type the server describes it with. */
  function Encode(d: ColumnDesc, v: Value): Input {
    if v.NullOf? then NullInput
    else match d.sqltype
      case SQL_TEXT | SQL_VARYING =>
        (match AsString(v)
         case Some(s) => Data(Chars(Cut(s)))
         case None => Refusal)
      case SQL_SHORT => Integer(TWO15, v)
      case SQL_LONG => Integer(TWO31, v)
      case SQL_INT64 => Integer(TWO63, v)
      case SQL_FLOAT | SQL_DOUBLE => if v.Val? && v.datum.Approx? then Data(Double(v.datum.r)) else Refusal
      case SQL_BOOLEAN => if v.Val? && v.datum.Bool? then Data(Flag(v.datum.b)) else Refusal
      case SQL_DATE =>
        if v.Val? && v.typ == DATE && v.datum.Num? then Data(Day(FirebirdDay(v.datum.unscaled))) else Refusal
      case SQL_TIME =>
        if v.Val? && v.typ == TIME && v.datum.Micros? then Data(Ticks(v.datum.t / TICK)) else Refusal
      case SQL_TIMESTAMP =>
        if v.Val? && v.typ == TIMESTAMP && v.datum.Micros?
        then Data(Stamp(FirebirdDay(v.datum.t / MICROS_PER_DAY), v.datum.t % MICROS_PER_DAY / TICK)) else Refusal
      case _ => Refusal
  }

  function Inputs(described: seq<ColumnDesc>, params: seq<Value>): seq<Input>
    requires |described| == |params|
  {
    seq(|params|, i requires 0 <= i < |params| => Encode(described[i], params[i]))
  }

  /** Fills the buffers of all parameters; None when their number is not that of the
      statement, or one of them cannot be encoded. */
  method BindInputParameters(described: seq<ColumnDesc>, params: seq<Value>) returns (buffers: Option<seq<Input>>)
    ensures buffers.None? <==> |described| != |params| || Refusal in Inputs(described, params)
    ensures buffers.Some? ==> buffers.value == Inputs(described, params)
  {
    if |described| != |params| { return None; }
    var filled := [];
    for i := 0 to |params|
      invariant filled == Inputs(described, params)[..i] && Refusal !in filled
    {
      var input := Encode(described[i], params[i]);
      assert input == Inputs(described, params)[i];
      if input.Refusal? { return None; }
      filled := filled + [input];
    }
    buffers := Some(filled);
  }

  // --- what the server reads ------------------------------------------------------------------------

  predicate IsLeapYear(y: int) { y % 4 == 0 && (y % 100 != 0 || y % 400 == 0) }

  /** Days of a common year before its months. */
  const BEFORE_MONTH := [0, 31, 59, 90, 120, 151, 181, 212, 243, 273, 304, 334]

  /** Number of a date of the Gregorian calendar, 1 being 0001-01-01. */
  function DayNumber(year: int, month: int, day: int): int
    requires 1 <= month <= 12
  {
    365 * (year - 1) + (year - 1) / 4 - (year - 1) / 100 + (year - 1) / 400
    + BEFORE_MONTH[month - 1] + (if month > 2 && IsLeapYear(year) then 1 else 0) + day
  }

  const DAYS_IN_MONTH := [31, 28, 31, 30, 31, 30, 31, 31, 30, 31, 30, 31]

  function LastDay(year: int, month: int): int
    requires 1 <= month <= 12
  {
    if month == 2 && IsLeapYear(year) then 29 else DAYS_IN_MONTH[month - 1]
  }

  /** The numbers follow the calendar: after the last day of a month comes the first of the
      next. */
  lemma CalendarSteps(year: int, month: int)
    requires 1 <= month <= 12
    ensures DayNumber(year, month, LastDay(year, month)) + 1 ==
            if month < 12 then DayNumber(year, month + 1, 1) else DayNumber(year + 1, 1, 1)
    ensures DayNumber(1, 1, 1) == 1
  {
    Multiples(year, 4);
    Multiples(year, 100);
    Multiples(year, 400);
  }

  lemma Multiples(n: int, d: int)
    requires d == 4 || d == 100 || d == 400
    ensures n / d == (n - 1) / d + if n % d == 0 then 1 else 0
  {
  }

  /** The day DuckDB counts from, in Firebird's count. */
  function EpochDay(): int { DayNumber(1970, 1, 1) - DayNumber(1858, 11, 17) }

  const TICKS_PER_DAY := 24 * 60 * 60 * 10_000

  /** The value the server takes a parameter for: an integer at the scale of its type, dates
      and times by the calendar. */
  function Received(d: ColumnDesc, w: Wire): Datum {
    match w
    case Chars(s) => Text(s)
    case Whole(n) => if d.scale <= 0 then Num(n, -d.scale) else Num(n * Pow10(d.scale), 0)
    case Double(r) => Approx(r)
    case Flag(b) => Bool(b)
    case Day(day) => Num(day - EpochDay(), 0)
    case Ticks(t) => Micros(t * TICK)
    case Stamp(day, t) => Micros(((day - EpochDay()) * TICKS_PER_DAY + t) * TICK)
  }

  /** The server receives the constant, times without what is below one tick. */
  predicate Carried(d: ColumnDesc, v: Value) {
    match Encode(d, v)
    case Refusal => false
    case NullInput => Bound(v) == None
    case Data(w) => Bound(v) == Some(Received(d, w))
  }

  // --- which constants are carried -------------------------------------------------------------------

  /** Columns whose parameters the server describes with a type the binder knows, at the
      scale of the constant: no text BLOBs, no columns of unknown type, no DECFLOAT that is
      not cast, and no integers whose scale does not fit. */
  predicate Regular(d: ColumnDesc, widen: bool) {
    match d.sqltype
    case SQL_BLOB => d.subtype != 1
    case SQL_OTHER | SQL_DEC16 | SQL_DEC34 => false
    case SQL_SHORT | SQL_LONG | SQL_INT64 | SQL_INT128 => FirebirdToDuckDBType(d, widen) != Plain(DOUBLE)
    case _ => true
  }

  /** Texts of less than 64K and dates whose Firebird day has 32 bits. */
  predicate Representable(v: Value) {
    match v
    case Val(VARCHAR, Text(s)) => |s| < 0x1_0000
    case Val(DATE, Num(days, _)) => days + MJD_EPOCH_TO_UNIX_EPOCH_DAYS < TWO31
    case _ => true
  }

  /** The two epochs are as far apart as the calendar says. */
  lemma EpochsApart()
    ensures EpochDay() == MJD_EPOCH_TO_UNIX_EPOCH_DAYS
  {
  }

  lemma WrapIdentity(half: int, n: int)
    requires half in [TWO7, TWO15, TWO31, TWO63]
    ensures Wrap(half, n) == n <==> -half <= n < half
  {
  }

  lemma WholeRounded(n: int)
    ensures Rounded(n, 0) == n
  {
    assert Pow10(0) == 1;
  }

  lemma CutExact(s: string)
    ensures Cut(s) == s <==> |s| < 0x1_0000
  {
    if |s| >= 0x1_0000 { assert |Cut(s)| < 0x1_0000; }
  }

  lemma StampExact(t: int)
    requires -TWO63 <= t < TWO63
    ensures FirebirdDay(t / MICROS_PER_DAY) == t / MICROS_PER_DAY + MJD_EPOCH_TO_UNIX_EPOCH_DAYS
    ensures (t / MICROS_PER_DAY * TICKS_PER_DAY + t % MICROS_PER_DAY / TICK) * TICK == t / TICK * TICK
  {
    var day, rest := t / MICROS_PER_DAY, t % MICROS_PER_DAY;
    assert t == day * MICROS_PER_DAY + rest;
    assert t / TICK == day * TICKS_PER_DAY + rest / TICK;
    WrapIdentity(TWO31, day + MJD_EPOCH_TO_UNIX_EPOCH_DAYS);
  }

  /** What CarriedExactly says of one constant. */
  ghost predicate CarriedIff(d: ColumnDesc, widen: bool, v: Value) {
    Carried(d, v) <==> Regular(d, widen) && Representable(v)
  }

  ghost predicate OfColumn(d: ColumnDesc, mode: NoneEncoding, widen: bool, v: Value) {
    v.Val? && WellTyped(TypeOfColumn(d, mode, widen), v)
  }

  lemma TextExactly(d: ColumnDesc, mode: NoneEncoding, widen: bool, s: string)
    requires OfColumn(d, mode, widen, Val(VARCHAR, Text(s)))
    ensures CarriedIff(d, widen, Val(VARCHAR, Text(s)))
  {
    CutExact(s);
  }

  lemma IntegerExactly(d: ColumnDesc, mode: NoneEncoding, widen: bool, p: PlainId, n: int)
    requires p == SMALLINT || p == INTEGER || p == BIGINT
    requires OfColumn(d, mode, widen, Val(p, Num(n, 0)))
    ensures CarriedIff(d, widen, Val(p, Num(n, 0)))
  {
    WholeRounded(n);
    WrapIdentity(HalfSpan(p).value, n);
  }

  lemma DateExactly(d: ColumnDesc, mode: NoneEncoding, widen: bool, n: int)
    requires OfColumn(d, mode, widen, Val(DATE, Num(n, 0)))
    ensures CarriedIff(d, widen, Val(DATE, Num(n, 0)))
  {
    EpochsApart();
    WrapIdentity(TWO31, n + MJD_EPOCH_TO_UNIX_EPOCH_DAYS);
  }

  lemma TimeExactly(d: ColumnDesc, mode: NoneEncoding, widen: bool, p: PlainId, t: int)
    requires p == TIME || p == TIMESTAMP
    requires OfColumn(d, mode, widen, Val(p, Micros(t)))
    ensures CarriedIff(d, widen, Val(p, Micros(t)))
  {
    if p == TIMESTAMP {
      EpochsApart();
      StampExact(t);
    }
  }

  lemma ApproxExactly(d: ColumnDesc, mode: NoneEncoding, widen: bool, p: PlainId, r: real)
    requires p == FLOAT || p == DOUBLE
    requires OfColumn(d, mode, widen, Val(p, Approx(r)))
    ensures CarriedIff(d, widen, Val(p, Approx(r)))
  {
  }

  /** Exactly which constants of a column's type the server receives: NULL, and every
      constant that is representable if the column is regular. */
  lemma CarriedExactly(d: ColumnDesc, mode: NoneEncoding, widen: bool, v: Value)
    requires WellTyped(TypeOfColumn(d, mode, widen), v) && IsBindableType(TypeOf(v))
    ensures Carried(d, v) <==> v.NullOf? || (Regular(d, widen) && Representable(v))
  {
    match v
    case NullOf(_) =>
    case Decimal(_, _, _) =>
    case Val(p, Text(s)) => TextExactly(d, mode, widen, s);
    case Val(p, Micros(t)) => TimeExactly(d, mode, widen, p, t);
    case Val(p, Approx(r)) => ApproxExactly(d, mode, widen, p, r);
    case Val(p, Num(n, _)) => if p == DATE { DateExactly(d, mode, widen, n); } else if p != TINYINT { IntegerExactly(d, mode, widen, p, n); }
    case Val(_, _) =>
  }

  // --- which types are bindable ------------------------------------------------------------------------

  /** Every number of the type survives the cast to the signed integer of its own width. */
  ghost predicate SurvivesItsWidth(p: PlainId) {
    HalfSpan(p).Some? && forall n :: InSpan(p, n) ==> Wrap(HalfSpan(p).value, n) == n
  }

  ghost predicate CarriesAll(d: ColumnDesc, t: TypeId) {
    forall v :: WellTyped(t, v) && Representable(v) ==> Carried(d, v)
  }

  /** Some column of that type takes all its constants. */
  ghost predicate TakenBySome(t: TypeId) {
    exists d, mode, widen :: TypeOfColumn(d, mode, widen) == t && CarriesAll(d, t)
  }

  lemma SignedSurvive(p: PlainId)
    ensures SurvivesItsWidth(p) <==> HalfSpan(p).Some? && !IsUnsigned(p)
  {
    if HalfSpan(p).Some? {
      var half := HalfSpan(p).value;
      forall n ensures Wrap(half, n) == n <==> -half <= n < half { WrapIdentity(half, n); }
      assert IsUnsigned(p) ==> InSpan(p, half);
    }
  }

  /** The plain column of a bindable type that is no TINYINT. */
  function PlainColumn(p: PlainId): ColumnDesc {
    ColumnDesc(
      match p
      case SMALLINT => SQL_SHORT
      case INTEGER => SQL_LONG
      case BIGINT => SQL_INT64
      case FLOAT => SQL_FLOAT
      case DOUBLE => SQL_DOUBLE
      case BOOLEAN => SQL_BOOLEAN
      case DATE => SQL_DATE
      case TIME => SQL_TIME
      case TIMESTAMP => SQL_TIMESTAMP
      case _ => SQL_VARYING, 0, 0, -1)
  }

  lemma PlainColumnTakes(p: PlainId)
    requires IsBindableType(Plain(p)) && p != TINYINT
    ensures TakenBySome(Plain(p))
  {
    var d := PlainColumn(p);
    assert TypeOfColumn(d, STRICT, false) == Plain(p) && Regular(d, false);
    forall v | WellTyped(Plain(p), v) && Representable(v) ensures Carried(d, v) {
      CarriedExactly(d, STRICT, false, v);
    }
  }

  lemma EscapedByte()
    ensures BlobText([0 as char]) != [0 as char]
  {
    assert BlobText([0 as char]) == "\\x00" + "";
  }

  lemma SmallDecimal(scale: nat)
    requires scale > 0
    ensures Rounded(1, scale) == 0
  {
    assert Pow10(scale) == 10 * Pow10(scale - 1);
    DivideSmall(2 + Pow10(scale), 2 * Pow10(scale));
  }

  lemma DivideSmall(a: int, b: int)
    requires 0 <= a < b
    ensures a / b == 0
  {
  }

  /** A constant of a type that is not bindable which a column of the type does not take. */
  lemma Untaken(d: ColumnDesc, mode: NoneEncoding, widen: bool) returns (v: Value)
    requires !IsBindableType(TypeOfColumn(d, mode, widen))
    ensures WellTyped(TypeOfColumn(d, mode, widen), v) && Representable(v) && !Carried(d, v)
  {
    match TypeOfColumn(d, mode, widen)
    case Wide(w) =>
      v := Decimal(w, 1, if d.scale < 0 then -d.scale else 0);
      if d.scale < 0 { SmallDecimal(-d.scale); }
    case Plain(p) =>
      v := Val(p, if p == PlainId.BLOB then Text([0 as char]) else Micros(0));
      EscapedByte();
  }

  /** The types a constant may be bound with are exactly those that some column takes
      entirely, and the integer types that lose nothing when they are cast to the signed
      integer of their width. */
  lemma BindableExactly(t: TypeId)
    ensures IsBindableType(t) <==> (t.Plain? && SurvivesItsWidth(t.p)) || TakenBySome(t)
  {
    if t.Plain? { SignedSurvive(t.p); }
    if IsBindableType(t) {
      if t.p != TINYINT { PlainColumnTakes(t.p); }
    } else {
      forall d, mode, widen | TypeOfColumn(d, mode, widen) == t ensures !CarriesAll(d, t) {
        var v := Untaken(d, mode, widen);
      }
    }
  }
}
