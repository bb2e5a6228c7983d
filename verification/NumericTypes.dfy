/** Scaled integers: the DuckDB type of a Firebird column and the cell a fetch writes. */
module NumericTypes {
  import opened Wrappers
  import opened NumberText

  datatype LogicalType = SMALLINT | INTEGER | BIGINT | HUGEINT | DOUBLE | DECIMAL(width: nat, scale: nat)

  datatype PhysicalType = INT16 | INT32 | INT64 | INT128 | FLOAT64

  /** How DuckDB stores a type. */
  function InternalType(t: LogicalType): PhysicalType {
    match t
    case SMALLINT => INT16
    case INTEGER => INT32
    case BIGINT => INT64
    case HUGEINT => INT128
    case DOUBLE => FLOAT64
    case DECIMAL(w, _) => if w <= 4 then INT16 else if w <= 9 then INT32 else if w <= 18 then INT64 else INT128
  }

  /** The Firebird column types that hold integers. */
  datatype IntegerType = SQL_SHORT | SQL_LONG | SQL_INT64 | SQL_INT128

  /** Digits of the DECIMAL type made for a backing integer. */
  function DeclaredWidth(t: IntegerType, widen: bool): nat {
    match t
    case SQL_SHORT => 4
    case SQL_LONG => 9
    case SQL_INT64 => if widen then 38 else 18
    case SQL_INT128 => 38
  }

  function PlainType(t: IntegerType): LogicalType {
    match t
    case SQL_SHORT => SMALLINT
    case SQL_LONG => INTEGER
    case SQL_INT64 => BIGINT
    case SQL_INT128 => HUGEINT
  }

  function ScaledIntegerToDecimal(t: IntegerType, sqlscale: int, widen: bool): LogicalType
    requires t != SQL_INT128
  {
    if sqlscale == 0 then PlainType(t)
    else
      var scale, width := -sqlscale, DeclaredWidth(t, widen);
      if scale < 0 || scale > width then DOUBLE else DECIMAL(width, scale)
  }

  /** The scale parameter of DECIMAL is an unsigned byte. */
  function AsByte(n: int): nat { n % 256 }

  function FirebirdToDuckDBType(t: IntegerType, sqlscale: int, widen: bool): LogicalType {
    if t != SQL_INT128 then ScaledIntegerToDecimal(t, sqlscale, widen)
    else if sqlscale == 0 then HUGEINT
    else if -sqlscale > 38 then DOUBLE
    else DECIMAL(38, AsByte(-sqlscale))
  }

  // --- cells -------------------------------------------------------------------------------

  const TWO15: int := 0x8000
  const TWO31: int := 0x8000_0000
  const TWO63: int := 0x8000_0000_0000_0000
  const TWO64: int := 0x1_0000_0000_0000_0000
  const TWO127: int := 0x8000_0000_0000_0000_0000_0000_0000_0000

  predicate InRange(t: IntegerType, v: int) {
    match t
    case SQL_SHORT => -TWO15 <= v < TWO15
    case SQL_LONG => -TWO31 <= v < TWO31
    case SQL_INT64 => -TWO63 <= v < TWO63
    case SQL_INT128 => -TWO127 <= v < TWO127
  }

  /** What a fetch leaves in a vector slot: NULL, an integer of some width, or the two
      64-bit halves of a hugeint. */
  datatype Cell = Null | Narrow(typ: PhysicalType, v: int) | Wide(lower: int, upper: int)

  function CellType(c: Cell): PhysicalType
    requires c != Null
  {
    if c.Wide? then INT128 else c.typ
  }

  function CellValue(c: Cell): int
    requires c != Null
  {
    match c
    case Narrow(_, v) => v
    case Wide(lower, upper) => lower + upper * TWO64
  }

  /** The halves are what their C++ types can hold: uint64 and int64. */
  predicate ValidCell(c: Cell) {
    match c
    case Null => true
    case Narrow(INT16, v) => InRange(SQL_SHORT, v)
    case Narrow(INT32, v) => InRange(SQL_LONG, v)
    case Narrow(_, v) => InRange(SQL_INT64, v)
    case Wide(lower, upper) => 0 <= lower < TWO64 && InRange(SQL_INT64, upper)
  }

  /** static_cast<uint64_t> of an int64. */
  function AsUnsigned(v: int): int { if v < 0 then v + TWO64 else v }

  /** The two halves of a 128-bit integer. */
  function Halves(v: int): Cell { Wide(v % TWO64, v / TWO64) }

  /** A slot of a column of DuckDB type `dst`, given what the server sent; an INT128
      arrives as its two halves. */
  method FirebirdAppendValue(t: IntegerType, value: Option<int>, dst: LogicalType, target: array<Cell>, offset: nat)
    requires offset < target.Length && (value.Some? ==> InRange(t, value.value))
    modifies target
    ensures target[offset] == Appended(t, value, dst)
    ensures value.None? ==> target[offset] == Null
    ensures value.Some? ==> target[offset] != Null && CellValue(target[offset]) == value.value && ValidCell(target[offset])
    ensures forall i :: 0 <= i < target.Length && i != offset ==> target[i] == old(target[i])
  {
    if value.Some? { AppendedValue(t, value.value, dst); }
    if value.None? {
      target[offset] := Null;
      return;
    }
    var v := value.value;
    match t
    case SQL_SHORT => target[offset] := Narrow(INT16, v);
    case SQL_LONG => target[offset] := Narrow(INT32, v);
    case SQL_INT64 =>
      if dst.DECIMAL? && InternalType(dst) == INT128 {
        target[offset] := Wide(AsUnsigned(v), if v < 0 then -1 else 0);
      } else {
        target[offset] := Narrow(INT64, v);
      }
    case SQL_INT128 =>
      target[offset] := Halves(v);
  }

  function Appended(t: IntegerType, value: Option<int>, dst: LogicalType): Cell {
    match value
    case None => Null
    case Some(v) =>
      match t
      case SQL_SHORT => Narrow(INT16, v)
      case SQL_LONG => Narrow(INT32, v)
      case SQL_INT64 =>
        if dst.DECIMAL? && InternalType(dst) == INT128 then Wide(AsUnsigned(v), if v < 0 then -1 else 0) else Narrow(INT64, v)
      case SQL_INT128 => Halves(v)
  }

  /** The cell holds the value, in halves its C++ types can hold. */
  lemma AppendedValue(t: IntegerType, v: int, dst: LogicalType)
    requires InRange(t, v)
    ensures var c := Appended(t, Some(v), dst); CellValue(c) == v && ValidCell(c)
  {
    if t == SQL_INT128 { HalvesValue(v); }
  }

  lemma HalvesValue(v: int)
    requires InRange(SQL_INT128, v)
    ensures CellValue(Halves(v)) == v && ValidCell(Halves(v))
  {
    assert v == v / TWO64 * TWO64 + v % TWO64;
  }

  // --- what the pair of them means -------------------------------------------------------------

  /** The greatest and the least integer of that many digits are in the backing's range. */
  predicate DigitsFit(t: IntegerType, digits: nat) {
    InRange(t, Pow10(digits) - 1) && InRange(t, 1 - Pow10(digits))
  }

  /** The greatest number of digits that always fits. */
  predicate MostDigits(t: IntegerType, digits: nat) {
    DigitsFit(t, digits) && !DigitsFit(t, digits + 1)
  }

  lemma Pow10Table()
    ensures Pow10(4) == 10_000 && Pow10(5) == 100_000 && Pow10(9) == 1_000_000_000 && Pow10(10) == 10_000_000_000
    ensures Pow10(18) == 1_000_000_000_000_000_000 && Pow10(19) == 10_000_000_000_000_000_000
    ensures Pow10(38) == TEN38 && Pow10(39) == 10 * TEN38
  {
    assert Pow10(2) == 10 * Pow10(1) && Pow10(1) == 10 * Pow10(0);
    Pow10Plus(2, 2);
    Pow10Plus(4, 1);
    Pow10Plus(4, 5);
    Pow10Plus(9, 1);
    Pow10Plus(9, 9);
    Pow10Plus(18, 1);
    Pow10Plus(19, 19);
    Pow10Plus(38, 1);
  }

  const TEN38: int := 100_000_000_000_000_000_000_000_000_000_000_000_000

  /** The declared width is the greatest number of digits that always fits the backing,
      unless a BIGINT is widened: then it is 38. */
  lemma WidthIsMostDigits(t: IntegerType, widen: bool)
    ensures if t == SQL_INT64 && widen then DeclaredWidth(t, widen) == 38 else MostDigits(t, DeclaredWidth(t, widen))
  {
    Pow10Table();
  }

  /** At most as many decimals as there are digits: those that always fit the backing, or
      the 38 of a widened BIGINT. */
  predicate ScaleFits(t: IntegerType, sqlscale: int, widen: bool) {
    0 <= -sqlscale && if t == SQL_INT64 && widen then -sqlscale <= 38 else DigitsFit(t, -sqlscale)
  }

  lemma ScaleFitsWidth(t: IntegerType, sqlscale: int, widen: bool)
    ensures ScaleFits(t, sqlscale, widen) <==> 0 <= -sqlscale <= DeclaredWidth(t, widen)
  {
    var width := DeclaredWidth(t, widen);
    WidthIsMostDigits(t, widen);
    if 0 <= -sqlscale <= width { Pow10Mono(-sqlscale, width); }
    if width < -sqlscale { Pow10Mono(width + 1, -sqlscale); }
  }

  /** What a column is declared as. An unscaled one is an integer type. A scaled one is a
      DECIMAL exactly when its scale fits, its width the greatest number of digits that
      always fits the backing, or 38 for a widened BIGINT. Every other one is DOUBLE, but an
      INT128 column with a positive exponent. */
  lemma DeclaredType(t: IntegerType, sqlscale: int, widen: bool)
    ensures var dst := FirebirdToDuckDBType(t, sqlscale, widen);
            && (sqlscale == 0 ==> !dst.DECIMAL? && dst != DOUBLE)
            && (sqlscale != 0 ==> (dst.DECIMAL? <==> ScaleFits(t, sqlscale, widen) || (t == SQL_INT128 && sqlscale > 0)))
            && (sqlscale != 0 && !dst.DECIMAL? ==> dst == DOUBLE)
            && (dst.DECIMAL? ==> if t == SQL_INT64 && widen then dst.width == 38 else MostDigits(t, dst.width))
            && (dst.DECIMAL? ==> dst.scale < 256 && (dst.scale + sqlscale) % 256 == 0)
  {
    ScaleFitsWidth(t, sqlscale, widen);
    WidthIsMostDigits(t, widen);
  }

  /** The width written at fetch is the width of the declared type exactly when the scale
      fits; otherwise the column is declared DOUBLE and integers are written into it. An
      INT128 column only needs a scale of at most 38. */
  lemma WidthMatches(t: IntegerType, sqlscale: int, widen: bool, v: int)
    ensures var dst := FirebirdToDuckDBType(t, sqlscale, widen);
            CellType(Appended(t, Some(v), dst)) == InternalType(dst) <==>
            ScaleFits(t, sqlscale, widen) || (t == SQL_INT128 && -sqlscale < 0)
  {
    ScaleFitsWidth(t, sqlscale, widen);
  }

  /** The scale of the DuckDB type; integers have scale 0. */
  function ScaleOf(t: LogicalType): nat { if t.DECIMAL? then t.scale else 0 }

  /** For every stored value and every scale that fits, the cell denotes the same number:
      its integer is the scaled integer Firebird sent, its scale is Firebird's, and the cell
      holds only what its C++ type can. */
  lemma SameNumber(t: IntegerType, sqlscale: int, widen: bool, v: int)
    requires InRange(t, v) && ScaleFits(t, sqlscale, widen)
    ensures var dst := FirebirdToDuckDBType(t, sqlscale, widen);
            var c := Appended(t, Some(v), dst);
            && CellValue(c) == v && ValidCell(c) && ScaleOf(dst) == -sqlscale
            && CellType(c) == InternalType(dst)
  {
    ScaleFitsWidth(t, sqlscale, widen);
    AppendedValue(t, v, FirebirdToDuckDBType(t, sqlscale, widen));
  }

  /** Whether the scaled integer has no more digits than the declared type. */
  predicate WithinPrecision(dst: LogicalType, v: int) {
    dst.DECIMAL? ==> -(Pow10(dst.width) as int) < v < Pow10(dst.width)
  }

  /** With widening the pair of halves equals the int64 and is within 38 digits; so every
      int64 is a value of the declared type. */
  lemma WidenedLossless(sqlscale: int, v: int)
    requires InRange(SQL_INT64, v) && 0 < -sqlscale <= 38
    ensures var dst := FirebirdToDuckDBType(SQL_INT64, sqlscale, true);
            && dst == DECIMAL(38, -sqlscale)
            && Appended(SQL_INT64, Some(v), dst).Wide?
            && CellValue(Appended(SQL_INT64, Some(v), dst)) == v
            && WithinPrecision(dst, v)
  {
    Pow10Table();
    AppendedValue(SQL_INT64, v, FirebirdToDuckDBType(SQL_INT64, sqlscale, true));
  }

  /** Only the widened projection holds the whole range of its backing integer: scaled
      SMALLINT and INTEGER columns can carry more digits than the DECIMAL(4) and DECIMAL(9)
      they are declared as, just as BIGINT can without widening, and INT128 than
      DECIMAL(38). */
  lemma BackingExceedsWidth(t: IntegerType, sqlscale: int, widen: bool)
    requires sqlscale != 0 && ScaleFits(t, sqlscale, widen)
    ensures (forall v :: InRange(t, v) ==> WithinPrecision(FirebirdToDuckDBType(t, sqlscale, widen), v)) <==> t == SQL_INT64 && widen
  {
    var dst := FirebirdToDuckDBType(t, sqlscale, widen);
    DeclaredType(t, sqlscale, widen);
    Pow10Table();
    if !(t == SQL_INT64 && widen) {
      ScaleFitsWidth(t, sqlscale, widen);
      assert InRange(t, Pow10(dst.width)) && !WithinPrecision(dst, Pow10(dst.width));
    }
  }
}
