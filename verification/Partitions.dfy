/** FirebirdScanInitGlobal: splitting the key range of a table over partitions. */
module Partitions {
  import opened Wrappers
  import opened Values
  import opened SqlTokens
  import opened SqlGrammar
  import opened Emission
  import opened TableFilters
  import opened Conditions

  const MIN_ROWS_PER_PARTITION: int := 2_000_000

  /** The single-column integer primary key of a table and the range of its values. */
  datatype PrimaryKey = PrimaryKey(column: string, minValue: int, maxValue: int)

  datatype Range = Range(lo: int, hi: int)

  function Size(r: Range): int { r.hi - r.lo + 1 }

  predicate Hits(r: Range, k: int) { r.lo <= k <= r.hi }

  /** Where partition `i` of `n` starts, counted from the first key of `size` keys:
      the product size/n * i, rounded to an integer. */
  type Rounding = (int, nat, nat) -> int

  /** Exact arithmetic. */
  function Exactly(size: int, n: nat, i: nat): int {
    if n == 0 then 0 else i * size / n
  }

  /** Key ranges of a scan. `hardware` is what the runtime reports as concurrency. */
  function PickPartitionCount(minV: int, maxV: int, hardware: int): nat {
    var range := maxV - minV + 1;
    if range < MIN_ROWS_PER_PARTITION * 2 then 1
    else
      var hw := if hardware <= 0 then 4 else hardware;
      var byRange := range / MIN_ROWS_PER_PARTITION;
      Max(1, if byRange <= hw then byRange else hw)
  }

  function Max(a: int, b: int): int { if a >= b then a else b }

  /** The number of partitions: the caller's, else the automatic one; never more than
      there are keys. */
  function Count(pk: PrimaryKey, partitions: nat, hardware: int): nat {
    var n := if partitions > 0 then partitions else PickPartitionCount(pk.minValue, pk.maxValue, hardware);
    var capacity := pk.maxValue - pk.minValue + 1;
    if capacity > 0 && n > capacity then capacity else n
  }

  function Part(pk: PrimaryKey, n: nat, round: Rounding, i: nat): Range {
    var size := pk.maxValue - pk.minValue + 1;
    Range(pk.minValue + round(size, n, i),
          if i + 1 == n then pk.maxValue else pk.minValue + round(size, n, i + 1) - 1)
  }

  function KeyConds(pk: PrimaryKey, r: Range): seq<Cond> {
    [KeyBound(pk.column, Ge, r.lo), KeyBound(pk.column, Le, r.hi)]
  }

  /** Conditions of partition `i`; none when there is no key to split on. */
  function PartConds(pk: Option<PrimaryKey>, n: nat, round: Rounding, i: nat): seq<Cond> {
    match pk
    case None => []
    case Some(k) => KeyConds(k, Part(k, n, round, i))
  }

  // --- the partition queue -----------------------------------------------------------------

  datatype PartitionSpec = PartitionSpec(whereClause: string)

  function PartCount(pk: Option<PrimaryKey>, partitions: nat, hardware: int): nat {
    match pk
    case None => 1
    case Some(k) => Count(k, partitions, hardware)
  }

  method InitGlobal(pk: Option<PrimaryKey>, partitions: nat, hardware: int, round: Rounding)
    returns (specs: seq<PartitionSpec>, maxThreads: nat)
    ensures maxThreads == |specs| == PartCount(pk, partitions, hardware)
    ensures forall i :: 0 <= i < |specs| ==> specs[i].whereClause == Show(AndLx(PartConds(pk, |specs|, round, i)))
  {
    match pk
    case None =>
      specs, maxThreads := [PartitionSpec("")], 1;
    case Some(k) =>
      var n := if partitions > 0 then partitions else PickPartitionCount(k.minValue, k.maxValue, hardware);
      var capacity := k.maxValue - k.minValue + 1;
      if capacity > 0 && n > capacity { n := capacity; }
      specs := SplitRange(k, n, round);
      maxThreads := n;
  }

  /** One key range per partition; the last one ends at the greatest key. */
  method SplitRange(k: PrimaryKey, n: nat, round: Rounding) returns (specs: seq<PartitionSpec>)
    ensures |specs| == n
    ensures forall i :: 0 <= i < n ==> specs[i].whereClause == Show(AndLx(KeyConds(k, Part(k, n, round, i))))
  {
    var lo, hi := k.minValue, k.maxValue;
    var capacity := hi - lo + 1;
    specs := [];
    for i := 0 to n
      invariant |specs| == i
      invariant forall j :: 0 <= j < i ==> specs[j].whereClause == Show(AndLx(KeyConds(k, Part(k, n, round, j))))
    {
      var partLo := lo + round(capacity, n, i);
      var partHi := if i == n - 1 then hi else lo + round(capacity, n, i + 1) - 1;
      assert Range(partLo, partHi) == Part(k, n, round, i);
      var text := RangeClause(k, Range(partLo, partHi));
      specs := specs + [PartitionSpec(text)];
    }
  }

  method RangeClause(k: PrimaryKey, r: Range) returns (text: string)
    ensures text == Show(AndLx(KeyConds(k, r)))
  {
    RangeText(k, r);
    var name := QuoteIdent(k.column);
    var from := ToString(r.lo);
    var upto := ToString(r.hi);
    text := name + " >= " + from + " AND " + name + " <= " + upto;
  }

  /** std::to_string */
  method ToString(n: int) returns (text: string)
    ensures text == Show(ValueLx(IntValue(n)))
  {
    var ok;
    ok, text := SafeLiteralInline(IntValue(n));
  }

  lemma {:induction false} BoundText(k: string, op: CmpOp, n: int)
    requires op == Ge || op == Le
    ensures Show(CondLx(KeyBound(k, op, n))) == QuotedName(k) + (if op == Ge then " >= " else " <= ") + Show(ValueLx(IntValue(n)))
  {
    RefForm(Bare(k));
    OpForm(op);
    Show3(RefLx(Bare(k)), OpLx(op), ValueLx(IntValue(n)));
  }

  lemma RangeText(pk: PrimaryKey, r: Range)
    ensures Show(AndLx(KeyConds(pk, r))) ==
            QuotedName(pk.column) + " >= " + Show(ValueLx(IntValue(r.lo))) + " AND " +
            QuotedName(pk.column) + " <= " + Show(ValueLx(IntValue(r.hi)))
  {
    var cs := KeyConds(pk, r);
    AndText(cs);
    assert cs[1..] == [KeyBound(pk.column, Le, r.hi)];
    BoundText(pk.column, Ge, r.lo);
    BoundText(pk.column, Le, r.hi);
    Regroup(QuotedName(pk.column) + " >= " + Show(ValueLx(IntValue(r.lo))) + " AND ",
            QuotedName(pk.column), " <= ", Show(ValueLx(IntValue(r.hi))));
  }

  // --- the ranges -------------------------------------------------------------------------------

  /** What rounding must satisfy: it starts at 0, never decreases and stays in range. */
  ghost predicate Monotone(round: Rounding, size: int, n: nat) {
    && n > 0 && round(size, n, 0) == 0
    && (forall i :: 0 <= i < n ==> round(size, n, i) <= size)
    && (forall i, j :: 0 <= i <= j < n ==> round(size, n, i) <= round(size, n, j))
  }

  /** How many of the partitions from `i` on contain the key. */
  function HitsFrom(pk: PrimaryKey, n: nat, round: Rounding, i: nat, key: int): nat
    requires i <= n
    decreases n - i
  {
    if i == n then 0
    else (if Hits(Part(pk, n, round, i), key) then 1 else 0) + HitsFrom(pk, n, round, i + 1, key)
  }

  lemma {:induction false} CoverFrom(pk: PrimaryKey, n: nat, round: Rounding, i: nat, key: int)
    requires Monotone(round, pk.maxValue - pk.minValue + 1, n) && i < n
    ensures HitsFrom(pk, n, round, i, key) ==
            if pk.minValue + round(pk.maxValue - pk.minValue + 1, n, i) <= key <= pk.maxValue then 1 else 0
    decreases n - i
  {
    var size := pk.maxValue - pk.minValue + 1;
    if i + 1 >= n {
    } else {
      CoverFrom(pk, n, round, i + 1, key);
      assert round(size, n, i) <= round(size, n, i + 1) <= size;
    }
  }

  /** Whatever the rounding, as long as it is monotone: the ranges cover exactly the key
      range and are pairwise disjoint, every key in it lying in exactly one of them. */
  lemma Cover(pk: PrimaryKey, n: nat, round: Rounding, key: int)
    requires Monotone(round, pk.maxValue - pk.minValue + 1, n)
    ensures HitsFrom(pk, n, round, 0, key) == if pk.minValue <= key <= pk.maxValue then 1 else 0
  {
    CoverFrom(pk, n, round, 0, key);
  }

  /** The ranges follow each other without a gap, whatever the rounding does between
      its first value and the end. */
  lemma Contiguous(pk: PrimaryKey, n: nat, round: Rounding, i: nat)
    requires i < n && round(pk.maxValue - pk.minValue + 1, n, 0) == 0
    ensures i == 0 ==> Part(pk, n, round, i).lo == pk.minValue
    ensures i + 1 == n ==> Part(pk, n, round, i).hi == pk.maxValue
    ensures i + 1 < n ==> Part(pk, n, round, i + 1).lo == Part(pk, n, round, i).hi + 1
  {
  }

  lemma Ordered(pk: PrimaryKey, n: nat, round: Rounding, i: nat, j: nat)
    requires Monotone(round, pk.maxValue - pk.minValue + 1, n) && i < j < n
    ensures Part(pk, n, round, i).hi < Part(pk, n, round, j).lo
  {
    var size := pk.maxValue - pk.minValue + 1;
    assert round(size, n, i + 1) <= round(size, n, j);
  }

  // --- exact rounding ----------------------------------------------------------------------------

  lemma MulLess(n: int, x: int, y: int)
    requires n > 0 && n * x < n * y
    ensures x < y
  {
  }

  /** A quotient is at least `q` when the dividend holds `q` divisors. */
  lemma QuotientBound(a: int, n: int, q: int)
    requires n > 0 && n * q <= a
    ensures q <= a / n
  {
    assert n * (a / n) + a % n == a;
    assert n * (a / n + 1) == n * (a / n) + n;
    MulLess(n, q, a / n + 1);
  }

  lemma DivMonotone(a: int, b: int, n: int)
    requires n > 0 && a <= b
    ensures a / n <= b / n
  {
    QuotientBound(b, n, a / n);
  }

  lemma DivExact(size: int, n: int)
    requires n > 0
    ensures n * size / n == size
  {
    QuotientBound(n * size, n, size);
    assert n * (size + 1) == n * size + n;
    MulLess(n, n * size / n, size + 1);
  }

  /** Rounding that truncates a product which is off by less than one part in `n`: never
      above the exact boundary and at most one key below it, and exact when the keys divide
      evenly. */
  ghost predicate Truncates(round: Rounding, size: int, n: nat) {
    && n > 0 && round(size, n, 0) == 0
    && (forall i :: 0 <= i < n ==> i * size - n <= n * round(size, n, i) <= i * size)
    && (size % n == 0 ==> forall i :: 0 <= i < n ==> n * round(size, n, i) == i * size)
  }

  lemma ExactTruncates(size: int, n: nat)
    requires n > 0
    ensures Truncates(Exactly, size, n)
  {
    assert 0 * size / n == 0;
    forall i | 0 <= i < n ensures i * size - n <= n * Exactly(size, n, i) <= i * size {
      assert n * (i * size / n) + i * size % n == i * size;
    }
    if size % n == 0 {
      forall i | 0 <= i < n ensures n * Exactly(size, n, i) == i * size {
        Multiple(i, size, n);
      }
    }
  }

  lemma Multiple(i: int, size: int, n: int)
    requires n > 0 && size % n == 0
    ensures n * (i * size / n) == i * size
  {
    var w := size / n;
    assert size == n * w;
    assert i * size == n * (i * w);
    DivExact(i * w, n);
  }

  /** The keys between two neighbouring boundaries. */
  lemma StepSize(round: Rounding, size: int, n: nat, i: nat)
    requires Truncates(round, size, n) && size >= 0 && i + 1 < n
    ensures round(size, n, i + 1) - round(size, n, i) >= size / n
  {
    var a, b, w := round(size, n, i), round(size, n, i + 1), size / n;
    assert (i + 1) * size == i * size + size && size == n * w + size % n;
    assert n * (b - a) == n * b - n * a;
    if size % n == 0 {
      assert n * (b - a) == n * w;
      assert n * w < n * (b - a + 1) by { assert n * (b - a + 1) == n * (b - a) + n; }
      MulLess(n, w, b - a + 1);
    } else {
      assert n * (w - 1) == n * w - n;
      MulLess(n, w - 1, b - a);
    }
  }

  lemma LastSize(round: Rounding, size: int, n: nat)
    requires Truncates(round, size, n) && size >= 0
    ensures size - round(size, n, n - 1) >= size / n
  {
    var a, w := round(size, n, n - 1), size / n;
    assert (n - 1) * size == n * size - size && size == n * w + size % n;
    assert n * (size - a) == n * size - n * a >= n * w;
    assert n * (size - a + 1) == n * (size - a) + n;
    MulLess(n, w, size - a + 1);
  }

  /** Every partition holds at least size / n keys. */
  lemma PartSize(pk: PrimaryKey, n: nat, round: Rounding, i: nat)
    requires Truncates(round, pk.maxValue - pk.minValue + 1, n) && i < n && pk.minValue <= pk.maxValue
    ensures Size(Part(pk, n, round, i)) >= (pk.maxValue - pk.minValue + 1) / n
  {
    var size := pk.maxValue - pk.minValue + 1;
    if i + 1 == n { LastSize(round, size, n); } else { StepSize(round, size, n, i); }
  }

  lemma {:induction false} Rising(round: Rounding, size: int, n: nat, i: nat, j: nat)
    requires Truncates(round, size, n) && size >= 0 && i <= j < n
    ensures round(size, n, i) <= round(size, n, j)
    decreases j - i
  {
    if i == j {
    } else {
      StepSize(round, size, n, i);
      assert size / n >= 0;
      Rising(round, size, n, i + 1, j);
    }
  }

  /** Such rounding is monotone, so the ranges cover the keys and are disjoint. */
  lemma TruncatesMonotone(round: Rounding, size: int, n: nat)
    requires Truncates(round, size, n) && size >= 0
    ensures Monotone(round, size, n)
  {
    forall i | 0 <= i < n ensures round(size, n, i) <= size {
      Rising(round, size, n, i, n - 1);
      LastSize(round, size, n);
      assert size / n >= 0;
    }
    forall i, j | 0 <= i <= j < n ensures round(size, n, i) <= round(size, n, j) {
      Rising(round, size, n, i, j);
    }
  }

  lemma AtLeast(size: int, n: int, least: int)
    requires n > 0 && n * least <= size
    ensures size / n >= least
  {
    DivMonotone(n * least, size, n);
    DivExact(least, n);
  }

  /** Whatever count was asked for, no partition of a non-empty range is empty. */
  lemma NeverEmpty(pk: PrimaryKey, partitions: nat, hardware: int, round: Rounding, i: nat)
    requires pk.minValue <= pk.maxValue && i < Count(pk, partitions, hardware)
    requires Truncates(round, pk.maxValue - pk.minValue + 1, Count(pk, partitions, hardware))
    ensures Size(Part(pk, Count(pk, partitions, hardware), round, i)) >= 1
  {
    var n := Count(pk, partitions, hardware);
    PartSize(pk, n, round, i);
    AtLeast(pk.maxValue - pk.minValue + 1, n, 1);
  }

  /** The number of partitions: the caller's, capped at the number of keys; without one, the
      greatest number that the hardware runs at once and that leaves each partition two
      million keys, or one when there are not enough for two. */
  lemma CountExactly(pk: PrimaryKey, partitions: nat, hardware: int)
    requires pk.minValue <= pk.maxValue
    ensures var size, n := pk.maxValue - pk.minValue + 1, Count(pk, partitions, hardware);
            var workers := if hardware <= 0 then 4 else hardware;
            && (partitions > 0 ==> n <= partitions && n <= size && (n == partitions || n == size))
            && (partitions == 0 && size < 4_000_000 ==> n == 1)
            && (partitions == 0 && size >= 4_000_000 ==>
                  1 <= n <= workers && n * 2_000_000 <= size && (n == workers || (n + 1) * 2_000_000 > size))
  {
  }

  /** With the automatic count every partition holds at least 2,000,000 keys, unless the
      whole range is one partition. */
  lemma AutomaticSize(pk: PrimaryKey, hardware: int, round: Rounding, i: nat)
    requires pk.minValue <= pk.maxValue && i < Count(pk, 0, hardware)
    requires Truncates(round, pk.maxValue - pk.minValue + 1, Count(pk, 0, hardware))
    ensures Count(pk, 0, hardware) == 1 || Size(Part(pk, Count(pk, 0, hardware), round, i)) >= MIN_ROWS_PER_PARTITION
  {
    var size := pk.maxValue - pk.minValue + 1;
    var n := Count(pk, 0, hardware);
    if n > 1 {
      assert n <= size / MIN_ROWS_PER_PARTITION;
      assert n * MIN_ROWS_PER_PARTITION <= size;
      AtLeast(size, n, MIN_ROWS_PER_PARTITION);
      PartSize(pk, n, round, i);
    }
  }

  /** A partition is non-empty exactly when rounding moves between its ends. */
  lemma NonEmptyCondition(pk: PrimaryKey, n: nat, round: Rounding, i: nat)
    requires i < n
    ensures var size := pk.maxValue - pk.minValue + 1;
            Size(Part(pk, n, round, i)) > 0 <==>
            round(size, n, i) < (if i + 1 == n then size else round(size, n, i + 1))
  {
  }

  // --- long double ---------------------------------------------------------------------------------

  /** What floating-point arithmetic does to a non-negative real number: rounding keeps the
      order, has relative error at most `unit` and leaves the integers up to `size` alone. */
  ghost predicate Floating(rd: real -> real, unit: real, size: int) {
    && 0.0 <= unit <= 1.0
    && (forall x, y :: 0.0 <= x <= y ==> KeepsOrder(rd, x, y))
    && (forall x :: 1.0 <= x ==> Accurate(rd, unit, x))
    && (forall k :: 0 <= k <= size ==> Whole(rd, k))
  }

  predicate KeepsOrder(rd: real -> real, x: real, y: real) { rd(x) <= rd(y) }

  predicate Accurate(rd: real -> real, unit: real, x: real) { Near(rd(x), x, x * unit) }

  predicate Whole(rd: real -> real, k: int) { rd(k as real) == k as real }

  predicate Near(a: real, b: real, error: real) { b - error <= a <= b + error }

  /** The width of a partition. */
  function Width(rd: real -> real, size: int, n: nat): real
    requires n > 0
  {
    rd(size as real / n as real)
  }

  /** One boundary: the rounded width times `i`, rounded again and truncated. */
  function Boundary(rd: real -> real, size: int, n: nat, i: nat): int
    requires n > 0
  {
    At(rd, Width(rd, size, n), i)
  }

  function At(rd: real -> real, width: real, i: nat): int { Floor(rd(Along(width, i))) }

  function Along(width: real, i: nat): real { i as real * width }

  function Floor(x: real): int { x.Floor }

  /** The source's boundaries. */
  function LongDouble(rd: real -> real): Rounding {
    (size: int, n: nat, i: nat) => if n == 0 then 0 else Boundary(rd, size, n, i)
  }

  predicate LessThanOneFrom(x: real, y: real) { y - 1.0 < x < y + 1.0 }

  lemma Scale(k: real, a: real, b: real)
    requires k >= 0.0 && a <= b
    ensures k * a <= k * b
  {
  }

  lemma Spread(k: real, a: real, b: real, error: real)
    requires k >= 0.0 && Near(a, b, error)
    ensures Near(k * a, k * b, k * error)
  {
    Scale(k, a, b + error);
    Scale(k, b - error, a);
  }

  lemma AtMost(a: real, b: real)
    requires 0.0 <= a && b <= 1.0
    ensures a * b <= a
  {
    Scale(a, b, 1.0);
  }

  lemma Regroup3(a: real, b: real, c: real)
    ensures a * (b * c) == b * (a * c)
  {
  }

  /** A quotient of reals, multiplied back. */
  lemma Quotient(size: int, n: nat, exact: real)
    requires 0 < n <= size && exact == size as real / n as real
    ensures n as real * exact == size as real && 1.0 <= exact
  {
  }

  lemma Small(exact: real, unit: real, k: real, m: real)
    requires 1.0 <= exact && 0.0 <= unit && 0.0 <= k <= m - 1.0 && m * unit <= 1.0
    ensures k * (exact * unit) <= exact
  {
    Regroup3(k, exact, unit);
    assert k * unit <= 1.0 by { Scale(unit, k, m); }
    AtMost(exact, k * unit);
  }

  lemma OneMore(k: real, exact: real, m: real, keys: real)
    requires 0.0 <= exact && 0.0 <= k <= m - 1.0 && m * exact == keys
    ensures k * exact + exact <= keys
  {
    Scale(exact, k + 1.0, m);
  }

  lemma Below(exact: real, w: real, error: real, k: real, m: real, keys: real)
    requires 0.0 <= exact && 0.0 <= w && Near(w, exact, error) && m * exact == keys
    requires 0.0 <= k <= m - 1.0 && k * error <= exact
    ensures 0.0 <= k * w <= keys
  {
    OneMore(k, exact, m, keys);
    Spread(k, w, exact, error);
    Scale(k, 0.0, w);
  }

  /** The width is off by at most one rounding error. */
  lemma WidthNear(rd: real -> real, unit: real, size: int, n: nat, exact: real)
    requires Floating(rd, unit, size) && 0 < n <= size && exact == size as real / n as real
    ensures 1.0 <= Width(rd, size, n) && Near(Width(rd, size, n), exact, exact * unit)
  {
    Quotient(size, n, exact);
    assert Whole(rd, 1) && KeepsOrder(rd, 1.0, exact) && Accurate(rd, unit, exact);
  }

  /** No boundary before the end lies above the last key. */
  lemma BelowSize(rd: real -> real, unit: real, size: int, n: nat, i: nat)
    requires Floating(rd, unit, size) && 0 < n <= size && n as real * unit <= 1.0 && i < n
    ensures 0.0 <= i as real * Width(rd, size, n) <= size as real
  {
    var exact := size as real / n as real;
    Quotient(size, n, exact);
    WidthNear(rd, unit, size, n, exact);
    Small(exact, unit, i as real, n as real);
    Below(exact, Width(rd, size, n), exact * unit, i as real, n as real, size as real);
  }

  lemma StartsAtZero(rd: real -> real, unit: real, size: int, n: nat)
    requires Floating(rd, unit, size) && 0 < n <= size
    ensures Boundary(rd, size, n, 0) == 0
  {
    var w := Width(rd, size, n);
    assert Along(w, 0) == 0.0;
    assert Whole(rd, 0);
  }

  lemma Before(rd: real -> real, unit: real, size: int, x: real, y: real)
    requires Floating(rd, unit, size) && 0.0 <= x <= y <= size as real
    ensures Floor(rd(x)) <= Floor(rd(y)) <= size
  {
    assert KeepsOrder(rd, x, y) && KeepsOrder(rd, y, size as real) && Whole(rd, size);
  }

  lemma Rises(rd: real -> real, unit: real, size: int, w: real, i: nat, j: nat)
    requires Floating(rd, unit, size) && 0.0 <= w && i <= j && j as real * w <= size as real
    ensures At(rd, w, i) <= At(rd, w, j) <= size
  {
    Scale(w, i as real, j as real);
    Scale(w, 0.0, i as real);
    Before(rd, unit, size, Along(w, i), Along(w, j));
  }

  lemma RisesTo(rd: real -> real, unit: real, size: int, n: nat, i: nat, j: nat)
    requires Floating(rd, unit, size) && n <= size && n as real * unit <= 1.0 && i <= j < n
    ensures Boundary(rd, size, n, i) <= Boundary(rd, size, n, j) <= size
  {
    BelowSize(rd, unit, size, n, j);
    WidthNear(rd, unit, size, n, size as real / n as real);
    Rises(rd, unit, size, Width(rd, size, n), i, j);
  }

  /** Long double splits the keys as it should: whatever the precision, as long as there
      are no more partitions than 1 / `unit`, the ranges cover the keys and are disjoint. */
  lemma LongDoubleMonotone(rd: real -> real, unit: real, size: int, n: nat)
    requires Floating(rd, unit, size) && 0 < n <= size && n as real * unit <= 1.0
    ensures Monotone(LongDouble(rd), size, n)
  {
    var round := LongDouble(rd);
    StartsAtZero(rd, unit, size, n);
    forall i | 0 <= i < n ensures round(size, n, i) <= size { RisesTo(rd, unit, size, n, i, i); }
    forall i, j | 0 <= i <= j < n ensures round(size, n, i) <= round(size, n, j) { RisesTo(rd, unit, size, n, i, j); }
  }

  lemma SecondError(middle: real, exact: real, error: real, unit: real)
    requires 0.0 <= unit <= 1.0 && 0.0 <= error && exact * unit == error && middle <= exact + error
    ensures middle * unit <= 2.0 * error
  {
    AtMost(error, unit);
    Scale(unit, middle, exact + error);
    assert middle * unit <= exact * unit + error * unit;
    assert exact * unit + error * unit <= error + error;
  }

  /** The errors of the two roundings together. */
  lemma TwoErrors(p: real, middle: real, exact: real, error: real, unit: real)
    requires 0.0 <= unit <= 1.0 && 0.0 <= error == exact * unit
    requires Near(middle, exact, error) && Near(p, middle, middle * unit)
    ensures Near(p, exact, 3.0 * error)
  {
    SecondError(middle, exact, error, unit);
  }

  /** Truncating a number less than 1 / n away from a / n. */
  lemma Truncated(p: real, n: nat, a: int, r: int)
    requires n > 0 && LessThanOneFrom(n as real * p, a as real) && r as real <= p < r as real + 1.0
    ensures a - n <= n * r <= a
  {
    var m, s := n as real, r as real;
    Scale(m, s, p);
    Scale(m, p, s + 1.0);
    assert m * (s + 1.0) == m * s + m;
    assert (n * r) as real == m * s;
    assert (n * r) as real < (a + 1) as real;
    assert (n * r + n) as real > (a - 1) as real;
  }

  lemma LessThanOne(p: real, x: real, error: real, m: real, at: real, slack: real)
    requires 0.0 <= m && m * x == at && m * error == slack && slack < 1.0 && Near(p, x, error)
    ensures LessThanOneFrom(m * p, at)
  {
    Scale(m, p, x + error);
    Scale(m, x - error, p);
  }

  lemma Chain(m: real, k: real, exact: real, keys: real, unit: real)
    requires m * exact == keys
    ensures m * (k * exact) == k * keys
    ensures m * (k * exact * unit) == k * (keys * unit)
  {
    Regroup3(m, k, exact);
    assert m * (k * exact * unit) == k * ((m * exact) * unit);
  }

  lemma Slack(c: real, k: real, m: real, most: real)
    requires k <= m && 0.0 <= c && c * m == most && 4.0 * most <= 1.0
    ensures 3.0 * (k * c) < 1.0
  {
    Scale(c, k, m);
    assert c * k <= most;
  }

  lemma TotalSlack(k: real, m: real, c: real, error: real)
    requires 0.0 <= c && k <= m && 4.0 * (c * m) <= 1.0 && m * error == k * c
    ensures m * (3.0 * error) < 1.0
  {
    Slack(c, k, m, c * m);
    Tripled(m, error, k * c);
  }

  lemma ProductError(p: real, middle: real, w: real, k: real, exact: real, unit: real)
    requires 0.0 <= unit <= 1.0 && 0.0 <= k && 0.0 <= exact
    requires middle == k * w && Near(w, exact, exact * unit) && Near(p, middle, middle * unit)
    ensures Near(p, k * exact, 3.0 * (k * exact * unit))
  {
    Spread(k, w, exact, exact * unit);
    assert k * (exact * unit) == k * exact * unit;
    Positive(k, exact, unit);
    TwoErrors(p, middle, k * exact, k * exact * unit, unit);
  }

  /** From the rounded product `p` of `k` and the rounded width to m * p. */
  lemma ProductNear(p: real, middle: real, w: real, k: real, exact: real, m: real, keys: real, unit: real)
    requires 0.0 <= unit <= 1.0 && 0.0 <= k <= m && 0.0 <= exact && 0.0 <= keys && m * exact == keys
    requires 4.0 * (keys * unit * m) <= 1.0
    requires middle == k * w && Near(w, exact, exact * unit) && Near(p, middle, middle * unit)
    ensures LessThanOneFrom(m * p, k * keys)
  {
    var error := 3.0 * (k * exact * unit);
    ProductError(p, middle, w, k, exact, unit);
    Chain(m, k, exact, keys, unit);
    Positive(1.0, keys, unit);
    TotalSlack(k, m, keys * unit, k * exact * unit);
    LessThanOne(p, k * exact, error, m, k * keys, m * error);
  }

  lemma Positive(a: real, b: real, c: real)
    requires 0.0 <= a && 0.0 <= b && 0.0 <= c
    ensures 0.0 <= a * b * c
  {
    Scale(a, 0.0, b);
    Scale(a * b, 0.0, c);
  }

  lemma Tripled(m: real, error: real, x: real)
    requires m * error == x
    ensures m * (3.0 * error) == 3.0 * x
  {
  }

  lemma TruncatedProduct(p: real, middle: real, w: real, exact: real, size: int, n: nat, i: nat, unit: real, r: int)
    requires 0.0 <= unit <= 1.0 && i < n <= size && n as real * exact == size as real && 0.0 <= exact
    requires 4.0 * (size as real * unit * n as real) <= 1.0
    requires middle == i as real * w && Near(w, exact, exact * unit) && Near(p, middle, middle * unit)
    requires r as real <= p < r as real + 1.0
    ensures i * size - n <= n * r <= i * size
  {
    ProductNear(p, middle, w, i as real, exact, n as real, size as real, unit);
    Product(i, size);
    Truncated(p, n, i * size, r);
  }

  lemma BoundaryAt(rd: real -> real, unit: real, size: int, n: nat, i: nat, exact: real, w: real)
    requires Floating(rd, unit, size) && 0 < i < n <= size && 4.0 * (size as real * unit * n as real) <= 1.0
    requires n as real * exact == size as real && 1.0 <= exact && 1.0 <= w && Near(w, exact, exact * unit)
    ensures i * size - n <= n * At(rd, w, i) <= i * size
  {
    ProductAtLeast(i as real, w);
    assert Accurate(rd, unit, Along(w, i));
    TruncatedProduct(rd(Along(w, i)), Along(w, i), w, exact, size, n, i, unit, At(rd, w, i));
  }

  lemma BoundaryNear(rd: real -> real, unit: real, size: int, n: nat, i: nat)
    requires Floating(rd, unit, size) && i < n <= size && 4.0 * (size as real * unit * n as real) <= 1.0
    ensures i * size - n <= n * Boundary(rd, size, n, i) <= i * size
  {
    if i == 0 {
      StartsAtZero(rd, unit, size, n);
    } else {
      var exact := size as real / n as real;
      Quotient(size, n, exact);
      WidthNear(rd, unit, size, n, exact);
      BoundaryAt(rd, unit, size, n, i, exact, Width(rd, size, n));
    }
  }

  lemma ProductAtLeast(k: real, w: real)
    requires 1.0 <= k && 1.0 <= w
    ensures 1.0 <= k * w
  {
    Scale(w, 1.0, k);
  }

  lemma Product(n: nat, k: int)
    ensures n as real * k as real == (n * k) as real
  {
  }

  lemma BoundaryExact(rd: real -> real, unit: real, size: int, n: nat, i: nat)
    requires Floating(rd, unit, size) && i < n <= size && size % n == 0
    ensures n * Boundary(rd, size, n, i) == i * size
  {
    var w := size / n;
    WholeWidth(size, n, i, w);
    assert Whole(rd, w) && Whole(rd, i * w);
    assert Along(w as real, i) == (i * w) as real;
  }

  lemma WholeWidth(size: int, n: nat, i: nat, w: int)
    requires i < n <= size && size % n == 0 && w == size / n
    ensures size as real / n as real == w as real && i as real * w as real == (i * w) as real
    ensures 0 <= w <= size && 0 <= i * w <= size && n * (i * w) == i * size
  {
    assert size == n * w;
    WithinSize(i, n, w);
    WithinSize(1, n, w);
    Product(n, w);
    Product(i, w);
    ExactQuotient(size, n, w);
  }

  lemma ExactQuotient(size: int, n: nat, w: int)
    requires n > 0 && n as real * w as real == size as real
    ensures size as real / n as real == w as real
  {
  }

  lemma WithinSize(i: nat, n: nat, w: int)
    requires i <= n && 0 <= w
    ensures 0 <= i * w <= n * w
  {
  }

  /** When keys times partitions times precision stay below a quarter, every boundary is off
      by at most one key, so no partition is empty or smaller than it should be. */
  lemma LongDoubleTruncates(rd: real -> real, unit: real, size: int, n: nat)
    requires Floating(rd, unit, size) && 0 < n <= size && 4.0 * (size as real * unit * n as real) <= 1.0
    ensures Truncates(LongDouble(rd), size, n)
  {
    var round := LongDouble(rd);
    StartsAtZero(rd, unit, size, n);
    forall i | 0 <= i < n ensures i * size - n <= n * round(size, n, i) <= i * size {
      BoundaryNear(rd, unit, size, n, i);
    }
    if size % n == 0 {
      forall i | 0 <= i < n ensures n * round(size, n, i) == i * size { BoundaryExact(rd, unit, size, n, i); }
    }
  }

  /** The code's own arithmetic: no partition is empty, and with the automatic count none
      of several holds fewer than 2,000,000 keys. */
  lemma LongDoubleSizes(pk: PrimaryKey, partitions: nat, hardware: int, rd: real -> real, unit: real, i: nat)
    requires pk.minValue <= pk.maxValue && i < Count(pk, partitions, hardware)
    requires var size := pk.maxValue - pk.minValue + 1;
             Floating(rd, unit, size) && 4.0 * (size as real * unit * Count(pk, partitions, hardware) as real) <= 1.0
    ensures var n := Count(pk, partitions, hardware);
            Size(Part(pk, n, LongDouble(rd), i)) >= (if partitions == 0 && n > 1 then MIN_ROWS_PER_PARTITION else 1)
  {
    LongDoubleTruncates(rd, unit, pk.maxValue - pk.minValue + 1, Count(pk, partitions, hardware));
    NeverEmpty(pk, partitions, hardware, LongDouble(rd), i);
    if partitions == 0 { AutomaticSize(pk, hardware, LongDouble(rd), i); }
  }
}
