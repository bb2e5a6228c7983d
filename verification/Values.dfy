/** DuckDB constants, the values Firebird stores, and how both sides compare them.

    Text is a C++ byte string: a Dafny string whose characters are bytes. */
module Values {
  import opened Wrappers
  import opened NumberText

  /** The types whose constants are printed into the statement. */
  datatype WideId = HUGEINT | UHUGEINT | DECIMAL

  datatype PlainId =
    | BOOLEAN | TINYINT | SMALLINT | INTEGER | BIGINT | FLOAT | DOUBLE | VARCHAR
    | DATE | TIME | TIMESTAMP
    | UTINYINT | USMALLINT | UINTEGER | UBIGINT
    | TIMESTAMP_TZ | TIME_TZ | INTERVAL | BLOB

  datatype TypeId = Plain(p: PlainId) | Wide(w: WideId)

  /** A non-NULL value. `Num` is unscaled * 10^-scale, and a date in days since 1970-01-01,
      `Micros` a time or a timestamp in microseconds, `DecFloat` a Firebird DECFLOAT. */
  datatype Datum =
    | Num(unscaled: int, scale: nat)
    | Text(bytes: string)
    | Bool(b: bool)
    | Micros(t: int)
    | Approx(r: real)
    | DecFloat(mantissa: int, digits: nat)

  /** A typed DuckDB constant; NULL keeps its type. */
  datatype Value = NullOf(nullType: TypeId) | Val(typ: PlainId, datum: Datum) | Decimal(wide: WideId, unscaled: int, scale: nat)

  function TypeOf(v: Value): TypeId {
    match v
    case NullOf(t) => t
    case Val(t, _) => Plain(t)
    case Decimal(w, _, _) => Wide(w)
  }

  function Payload(v: Value): Option<Datum> {
    match v
    case NullOf(_) => None
    case Val(_, d) => Some(d)
    case Decimal(_, u, s) => Some(Num(u, s))
  }

  /** The types that can be bound as input parameters: signed integers, floats,
      BOOLEAN, VARCHAR, DATE, TIME and TIMESTAMP. */
  predicate IsBindableType(t: TypeId) {
    match t
    case Wide(_) => false
    case Plain(p) =>
      match p
      case BOOLEAN | TINYINT | SMALLINT | INTEGER | BIGINT | FLOAT | DOUBLE | VARCHAR
         | DATE | TIME | TIMESTAMP => true
      case _ => false
  }

  datatype CmpOp = Eq | Ne | Lt | Gt | Le | Ge | Distinct

  /** Byte-wise order of two strings: negative, zero or positive. */
  function ByteOrder(a: string, b: string): int {
    if a == "" && b == "" then 0
    else if a == "" then -1
    else if b == "" then 1
    else if a[0] != b[0] then (a[0] as int) - (b[0] as int)
    else ByteOrder(a[1..], b[1..])
  }

  lemma {:induction false} ByteOrderZero(a: string, b: string)
    ensures ByteOrder(a, b) == 0 <==> a == b
  {
    if a != "" && b != "" && a[0] == b[0] {
      ByteOrderZero(a[1..], b[1..]);
      assert a == [a[0]] + a[1..] && b == [b[0]] + b[1..];
    }
  }

  function Rank(d: Datum): int {
    match d
    case Num(_, _) => 0
    case Text(_) => 1
    case Bool(_) => 2
    case Micros(_) => 3
    case Approx(_) => 4
    case DecFloat(_, _) => 5
  }

  /** The order both engines use between two values of one column type. */
  function Order(a: Datum, b: Datum): int {
    match (a, b)
    case (Num(u, s), Num(v, t)) => u * Pow10(t) - v * Pow10(s)
    case (DecFloat(u, s), DecFloat(v, t)) => u * Pow10(t) - v * Pow10(s)
    case (Text(x), Text(y)) => ByteOrder(x, y)
    case (Bool(x), Bool(y)) => (if x then 1 else 0) - (if y then 1 else 0)
    case (Micros(x), Micros(y)) => x - y
    case (Approx(x), Approx(y)) => if x < y then -1 else if x == y then 0 else 1
    // Firebird compares a DECFLOAT with text by value.
    case (DecFloat(u, s), Text(x)) => u * Pow10(Signed(x).1) - Signed(x).0 * Pow10(s)
    case (Text(x), DecFloat(u, s)) => Signed(x).0 * Pow10(s) - u * Pow10(Signed(x).1)
    case _ => Rank(a) - Rank(b)
  }

  lemma {:induction false} ByteOrderReversed(a: string, b: string)
    ensures ByteOrder(a, b) == -ByteOrder(b, a)
  {
    if a != "" && b != "" && a[0] == b[0] { ByteOrderReversed(a[1..], b[1..]); }
  }

  /** The order is the same from both sides and tells different values of a type apart:
      false is before true, numbers are the same at any scale. */
  lemma OrderLaws(a: Datum, b: Datum)
    ensures Order(a, b) == -Order(b, a)
    ensures Rank(a) == Rank(b) && !a.Num? && !a.DecFloat? ==> (Order(a, b) == 0 <==> a == b)
    ensures Order(Bool(false), Bool(true)) < 0
  {
    match (a, b)
    case (Text(x), Text(y)) => ByteOrderZero(x, y); ByteOrderReversed(x, y);
    case _ =>
  }

  predicate Holds(op: CmpOp, order: int) {
    match op
    case Eq => order == 0
    case Ne => order != 0
    case Lt => order < 0
    case Gt => order > 0
    case Le => order <= 0
    case Ge => order >= 0
    case Distinct => order != 0
  }

  /** `x op y` in three-valued logic; only IS DISTINCT FROM is null-safe. */
  function Compare(op: CmpOp, x: Option<Datum>, y: Option<Datum>): Tri {
    if op == Distinct && (x.None? || y.None?) then Tri.Of(x.None? != y.None?)
    else if x.None? || y.None? then Unknown
    else Tri.Of(Holds(op, Order(x.value, y.value)))
  }

  /** The six operators are those of one order, and what is unknown of one is unknown of all;
      IS DISTINCT FROM is never unknown and takes NULL for a value of its own. */
  lemma ComparisonLaws(x: Option<Datum>, y: Option<Datum>)
    ensures Compare(Ne, x, y) == Compare(Eq, x, y).Not()
    ensures Compare(Ge, x, y) == Compare(Lt, x, y).Not() && Compare(Le, x, y) == Compare(Gt, x, y).Not()
    ensures Compare(Eq, x, y) == Compare(Le, x, y).And(Compare(Ge, x, y))
    ensures Compare(Lt, x, y) == Compare(Gt, y, x) && Compare(Eq, x, y) == Compare(Eq, y, x)
    ensures Compare(Eq, x, y) == Unknown <==> x.None? || y.None?
    ensures Compare(Distinct, x, y) == Tri.Of(!(x.None? && y.None?) && Compare(Eq, x, y) != True)
  {
    if x.Some? && y.Some? { OrderLaws(x.value, y.value); }
  }

  /** `x IN (ys)`: the disjunction of the equalities. */
  function MemberOf(x: Option<Datum>, ys: seq<Option<Datum>>): Tri {
    if ys == [] then False
    else Compare(Eq, x, ys[0]).Or(MemberOf(x, ys[1..]))
  }

  // --- the bind path ---------------------------------------------------------

  /** Firebird keeps time in units of 100 microseconds. */
  const TICK := 100

  /** What the server receives for a bound value: times lose the part below one tick. */
  function Bound(v: Value): Option<Datum> {
    match v
    case Val(_, Micros(t)) => Some(Micros(t / TICK * TICK))
    case _ => Payload(v)
  }

  /** A stored time always is a whole number of ticks. */
  predicate OnTick(x: Option<Datum>) {
    x.Some? && x.value.Micros? ==> x.value.t % TICK == 0
  }

  /** The comparisons for which binding `v` changes no answer. */
  predicate BindExact(op: CmpOp, v: Value) {
    v.Val? && v.datum.Micros? ==> v.datum.t % TICK == 0 || op == Le || op == Gt
  }

  lemma BoundAgrees(op: CmpOp, x: Option<Datum>, v: Value)
    requires OnTick(x) && BindExact(op, v)
    ensures Compare(op, x, Bound(v)) == Compare(op, x, Payload(v))
  {
    if v.Val? && v.datum.Micros? && x.Some? && x.value.Micros? {
      TickOrder(op, x.value.t, v.datum.t);
    }
  }

  lemma TickOrder(op: CmpOp, s: int, t: int)
    requires s % TICK == 0
    requires t % TICK == 0 || op == Le || op == Gt
    ensures Holds(op, s - t / TICK * TICK) == Holds(op, s - t)
  {
    assert s == s / TICK * TICK;
    assert t == t / TICK * TICK + t % TICK;
  }

  /** Binding a constant keeps the meaning of a comparison over every value the
      column can hold exactly when the constant is a whole number of ticks, or
      the comparison is `<=` or `>`. */
  lemma BindExactCondition(op: CmpOp, v: Value)
    ensures (forall x :: OnTick(x) ==> Compare(op, x, Bound(v)) == Compare(op, x, Payload(v)))
       <==> BindExact(op, v)
  {
    if BindExact(op, v) {
      forall x | OnTick(x) ensures Compare(op, x, Bound(v)) == Compare(op, x, Payload(v)) {
        BoundAgrees(op, x, v);
      }
    } else {
      var below := v.datum.t / TICK * TICK;
      var x := Some(Micros(below));
      assert OnTick(x);
      assert below < v.datum.t;
      assert Compare(op, x, Bound(v)) != Compare(op, x, Payload(v));
    }
  }
}
