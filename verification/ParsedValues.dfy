/** What the two parsers make of the same number: JavaScript a double, the native side a word or a double. */
module ParsedValues {
  import opened Common
  import opened Json
  import opened JsonRoundTrip
  import opened Schemas

  // ---- multiples -----------------------------------------------------------

  lemma Monotone(a: nat, b: nat, u: nat)
    requires a <= b
    ensures a * u <= b * u
  {
    assert b * u == a * u + (b - a) * u;
  }

  /** The only multiple of a unit at most that far below a number is its quotient's. */
  lemma QuotientIs(n: nat, u: nat, q: nat)
    requires u > 0 && q * u <= n < q * u + u
    ensures n / u == q
  {
    var d := n / u;
    assert n == u * d + n % u;
    if d < q {
      Monotone(d + 1, q, u);
    } else if q < d {
      Monotone(q + 1, d, u);
    }
  }

  /** The greatest multiple of a unit up to a number. */
  function Below(n: nat, u: nat): (b: nat)
    requires u > 0
    ensures b <= n < b + u && b == n / u * u
  {
    assert n == u * (n / u) + n % u;
    n / u * u
  }

  lemma BelowIs(n: nat, u: nat, q: nat)
    requires u > 0 && q * u <= n < q * u + u
    ensures Below(n, u) == q * u
  {
    QuotientIs(n, u, q);
  }

  // ---- doubles -------------------------------------------------------------

  /** Doubles carry 53 binary digits. */
  const PRECISION := 0x20_0000_0000_0000

  /** The distance of neighbouring doubles at a magnitude: a power of two. */
  function Spacing(n: nat, unit: nat): (u: nat)
    requires unit > 0 && (unit == 1 || PRECISION * unit <= 2 * n)
    ensures u >= unit && n < PRECISION * u && (u == 1 || PRECISION * u <= 2 * n)
    decreases n - unit
  {
    if n < PRECISION * unit then unit else Spacing(n, 2 * unit)
  }

  /** Of the multiples below and above a number the nearer one; of two equally near ones the even one. */
  function Nearer(n: nat, u: nat): nat
    requires u > 0
  {
    var below := Below(n, u);
    if 2 * (n - below) < u || (2 * (n - below) == u && n / u % 2 == 0) then below else below + u
  }

  /** The double nearest to a whole number. */
  function Nearest(n: nat): nat {
    Nearer(n, Spacing(n, 1))
  }

  lemma {:induction false} SpacingClimbs(n: nat, r: nat, unit: nat)
    requires unit > 0 && (unit == 1 || PRECISION * unit <= 2 * n) && (unit == 1 || PRECISION * unit <= 2 * r)
    requires PRECISION * Spacing(n, unit) <= 2 * r
    ensures Spacing(r, unit) == Spacing(r, Spacing(n, unit))
    decreases n - unit
  {
    if n >= PRECISION * unit {
      SpacingClimbs(n, r, 2 * unit);
    }
  }

  /** Doubles between two powers of two are the multiples of their spacing. */
  lemma NearestIsMultiple(n: nat, u: nat) returns (q: nat)
    requires u == Spacing(n, 1) && n >= PRECISION
    ensures Nearest(n) == q * u && PRECISION / 2 <= q <= PRECISION
  {
    hide Spacing;
    q := if Nearest(n) == Below(n, u) then n / u else n / u + 1;
    if n / u < PRECISION / 2 { Monotone(n / u + 1, PRECISION / 2, u); }
    if n / u >= PRECISION { Monotone(PRECISION, n / u, u); }
  }

  lemma SmallNumbersAreDoubles(n: nat)
    ensures n < PRECISION ==> Nearest(n) == n
    ensures n >= PRECISION ==> Nearest(n) >= PRECISION
  {
    if n >= PRECISION {
      var q := NearestIsMultiple(n, Spacing(n, 1));
      Monotone(PRECISION / 2, q, Spacing(n, 1));
    }
  }

  /** Rounding changes a number by less than its half. */
  lemma NearestIsNear(n: nat)
    ensures n <= 2 * Nearest(n) <= 4 * n
  {
  }

  /** A double is its own rounding. */
  lemma NearestIsFixed(n: nat)
    ensures Nearest(Nearest(n)) == Nearest(n)
  {
    if n < PRECISION {
      SmallNumbersAreDoubles(n);
    } else {
      var u, r := Spacing(n, 1), Nearest(n);
      var q := NearestIsMultiple(n, u);
      Monotone(PRECISION / 2, q, u);
      SpacingClimbs(n, r, 1);
      if q < PRECISION {
        Monotone(q + 1, PRECISION, u);
        BelowIs(r, u, q);
      } else {
        BelowIs(r, 2 * u, PRECISION / 2);
      }
    }
  }

  /** No double is nearer to a number than its rounding. */
  lemma NearestIsClosest(n: nat, m: nat)
    requires Nearest(m) == m
    ensures (if Nearest(n) < n then n - Nearest(n) else Nearest(n) - n) <= (if m < n then n - m else m - n)
  {
    if n < PRECISION {
      SmallNumbersAreDoubles(n);
    } else {
      var u := Spacing(n, 1);
      var low := Below(n, u);
      if low < m < low + u {
        NothingBetween(n, m, u);
      }
    }
  }

  lemma BetweenMultiples(q: nat, m: nat, u: nat)
    requires u > 0 && PRECISION / 2 <= q < PRECISION && q * u < m < q * u + u
    ensures PRECISION * u <= 2 * m && m < PRECISION * u
  {
    Monotone(PRECISION / 2, q, u);
    Monotone(q + 1, PRECISION, u);
    assert (q + 1) * u == q * u + u;
  }

  /** A number between two neighbouring multiples has the spacing of the lower one, and is no multiple itself. */
  lemma NothingBetween(n: nat, m: nat, u: nat)
    requires n >= PRECISION && u == Spacing(n, 1)
    requires Below(n, u) < m < Below(n, u) + u
    ensures Nearest(m) != m
  {
    hide Spacing, Nearer;
    var q := QuotientInRange(n, u);
    BetweenMultiples(q, m, u);
    SpacingClimbs(n, m, 1);
    SpacingEnds(m, u);
    BelowIs(m, u, q);
    NotAMultiple(m, u);
  }

  lemma QuotientInRange(n: nat, u: nat) returns (q: nat)
    requires n >= PRECISION && u == Spacing(n, 1)
    ensures q == n / u && Below(n, u) == q * u && PRECISION / 2 <= q < PRECISION
  {
    hide Spacing;
    q := n / u;
    if q < PRECISION / 2 { Monotone(q + 1, PRECISION / 2, u); }
    if q >= PRECISION { Monotone(PRECISION, q, u); }
  }

  lemma SpacingEnds(m: nat, u: nat)
    requires u > 0 && (u == 1 || PRECISION * u <= 2 * m) && m < PRECISION * u
    ensures Spacing(m, u) == u
  {
  }

  lemma NotAMultiple(m: nat, u: nat)
    requires u > 0 && Below(m, u) < m
    ensures Nearer(m, u) != m
  {
  }

  // ---- the text of a double ------------------------------------------------

  predicate Stands(c: nat, d: nat) {
    Nearest(c) == d
  }

  /** A multiple of a power of ten next to a double still reads as that double. */
  predicate HasMultiple(d: nat, p: nat)
    requires p > 0
  {
    Stands(Below(d, p), d) || Stands(Below(d, p) + p, d)
  }

  function Multiple(d: nat, p: nat): (c: nat)
    requires p > 0 && HasMultiple(d, p)
    ensures Stands(c, d)
  {
    var low, high := Below(d, p), Below(d, p) + p;
    if !Stands(high, d) then low
    else if !Stands(low, d) then high
    else if d - low < high - d || (d - low == high - d && d / p % 2 == 0) then low
    else high
  }

  /** The fewest digits that read as a double, filled up with zeros. */
  function Shortest(d: nat, p: nat): (c: nat)
    requires p > 0 && HasMultiple(d, p)
    ensures Stands(c, d)
    decreases if p <= d then d + 1 - p else 0
  {
    if p <= d && HasMultiple(d, 10 * p) then Shortest(d, 10 * p) else Multiple(d, p)
  }

  /** The whole number that JavaScript prints for the double nearest to a whole number. */
  function Printed(n: nat): (c: nat)
    ensures Nearest(c) == Nearest(n)
  {
    NearestIsFixed(n);
    assert Below(Nearest(n), 1) == Nearest(n);
    Shortest(Nearest(n), 1)
  }

  lemma PrintedOnce(n: nat)
    ensures Printed(Printed(n)) == Printed(n)
  {
  }

  lemma SmallNumbersArePrinted(n: nat)
    requires n < PRECISION
    ensures Printed(n) == n
  {
    SmallNumbersAreDoubles(n);
    SmallNumbersAreDoubles(Printed(n));
  }

  /** The printed number is not far from the one written, and on the same side of where rounding begins. */
  lemma PrintedIsNear(n: nat)
    ensures n <= 4 * Printed(n) <= 16 * n
    ensures PRECISION <= n <==> PRECISION <= Printed(n)
    ensures n < PRECISION ==> Printed(n) == n
  {
    hide Nearest, Shortest;
    NearestIsNear(n);
    NearestIsNear(Printed(n));
    SmallNumbersAreDoubles(n);
    SmallNumbersAreDoubles(Printed(n));
  }

  // ---- numbers as parsed ---------------------------------------------------

  function Abs(n: int): nat {
    if n < 0 then -n else n
  }

  predicate PrintsInFull(n: int) {
    Printed(Abs(n)) < HUGE
  }

  /** The value of a number written without a fraction or an exponent. */
  function Whole(num: Num): Option<int> {
    match num
    case Int(n) => Some(n)
    case Other(token) => if IsWhole(token) then Some(WholeOf(token)) else None
  }

  /** What JavaScript makes of a number: the nearest double, as it prints it, a zero without its sign. */
  function AsDouble(num: Num, e: Engine): Num {
    match Whole(num)
    case Some(n) =>
      var c: int := Printed(Abs(n));
      if PrintsInFull(n) then Int(if n < 0 then -c else c) else e.double(PrintNum(num))
    case None => e.double(PrintNum(num))
  }

  /** A double can hold the number; JavaScript reads others as infinite, and the native parser refuses them. */
  predicate InRange(num: Num, e: Engine) {
    (Whole(num).Some? && PrintsInFull(Whole(num).value)) || e.inRange(PrintNum(num))
  }

  /**
   * The host prints every double as a number that it parses to the same double again, and the order of
   * numbers is one.
   */
  ghost predicate Sane(e: Engine) {
    && (forall token: Units :: IsNumber(token) && e.inRange(token) ==>
         IsPrinted(e.double(token), e))
    && (forall a, b, c :: Less(a, b, e) && Less(b, c, e) ==> Less(a, c, e))
  }

  /** A number as JavaScript prints it. */
  predicate IsPrinted(num: Num, e: Engine) {
    ValidNum(num) && InRange(num, e) && AsDouble(num, e) == num
  }

  predicate FitsWord(n: int) {
    I64_MIN <= n <= U64_MAX
  }

  /**
   * What the native parser makes of a number: a word if it is written as one, otherwise a double, a negative
   * zero among them. A double is never equal to a word, so one that is printed like a word is kept as its text.
   */
  function AsNative(num: Num, e: Engine): Num {
    if num.Int? && FitsWord(num.n) then num else Floating(AsDouble(num, e))
  }

  function Floating(num: Num): Num {
    if num.Int? && FitsWord(num.n) then Other(PrintNum(num)) else num
  }

  /**
   * A number that both parsers take for the same: written as a word that JavaScript prints as it is, or
   * otherwise and then not printed as a word.
   */
  predicate Steady(num: Num, e: Engine) {
    if num.Int? && FitsWord(num.n) then AsDouble(num, e) == num
    else AsDouble(num, e).Int? ==> !FitsWord(AsDouble(num, e).n)
  }

  lemma SteadyNumbersReadAlike(num: Num, e: Engine)
    ensures Steady(num, e) <==> AsNative(num, e) == AsDouble(num, e)
  {
    hide AsDouble;
  }

  lemma DoublesArePrinted(num: Num, e: Engine)
    requires Sane(e) && ValidNum(num) && InRange(num, e)
    ensures IsPrinted(AsDouble(num, e), e)
  {
    hide IsNumber, IsWhole, IsPrinted, Less, Printed, NumOf, WholeOf, PrintNum;
    PrintedTokenIsRead(num);
    if Whole(num).Some? && PrintsInFull(Whole(num).value) { PrintedNumbersArePrinted(Whole(num).value, e); }
  }

  lemma PrintedNumbersArePrinted(n: int, e: Engine)
    requires PrintsInFull(n)
    ensures IsPrinted(AsDouble(Int(n), e), e)
  {
    hide Printed, PrintNum, IsNumber, NumOf, IsWhole, WholeOf;
    PrintedOnce(Abs(n));
    SignedPrinting(n, e);
  }

  lemma SignedPrinting(n: int, e: Engine)
    requires PrintsInFull(n)
    ensures AsDouble(Int(n), e).Int?
    ensures Abs(AsDouble(Int(n), e).n) == Printed(Abs(n)) && (AsDouble(Int(n), e).n < 0 ==> n < 0)
    ensures AsDouble(Int(n), e).n <= 0 ==> n <= 0 || Printed(Abs(n)) == 0
  {
    hide Printed, PrintNum;
  }

  /** Parsing natively and then as JavaScript gives what JavaScript parses. */
  lemma NativeNumbersAreDoubles(num: Num, e: Engine)
    requires Sane(e) && ValidNum(num) && InRange(num, e)
    ensures AsDouble(AsNative(num, e), e) == AsDouble(num, e)
  {
    hide IsNumber, IsWhole, Less, Printed, PrintNum, WholeOf, ValidNum, InRange, Sane;
    DoublesArePrinted(num, e);
    var d := AsDouble(num, e);
    if d.Int? { WholeNumberIsPrinted(d.n); }
  }

  /** What JavaScript prints is read as it stands by both. */
  lemma PrintedNumbersAreSteady(num: Num, e: Engine)
    requires IsPrinted(num, e)
    ensures AsNative(num, e) == num
  {
    hide AsDouble, InRange;
  }

  /** Numbers of up to 53 binary digits are the same everywhere. */
  lemma SmallNumbersAreSteady(n: int, e: Engine)
    requires -PRECISION < n < PRECISION
    ensures AsDouble(Int(n), e) == AsNative(Int(n), e) == Int(n) && Steady(Int(n), e)
  {
    SmallNumbersArePrinted(Abs(n));
  }

  // ---- values as parsed ----------------------------------------------------

  /** No half of a surrogate pair stands alone, which the native parser refuses. */
  predicate Paired(s: Units) {
    if s == [] then true
    else if IsHigh(s[0]) then |s| > 1 && IsLow(s[1]) && Paired(s[2..])
    else !IsLow(s[0]) && Paired(s[1..])
  }

  /**
   * A value of a text that both sides can parse, its nesting apart: numbers in range, paired surrogates,
   * lengths below 2^53.
   */
  predicate Parsable(v: Json, e: Engine) {
    match v
    case Number(num) => ValidNum(num) && InRange(num, e)
    case Text(text) => |text| < PRECISION && Paired(text)
    case Array(items) => |items| < PRECISION && forall i :: 0 <= i < |items| ==> Parsable(items[i], e)
    case Object(fields) => forall key :: key in fields ==> Paired(key) && Parsable(fields[key], e)
    case _ => true
  }

  /** Lists and objects at most so many levels deep. */
  predicate Nests(v: Json, levels: nat) {
    match v
    case Array(items) => levels > 0 && forall i :: 0 <= i < |items| ==> Nests(items[i], levels - 1)
    case Object(fields) => levels > 0 && forall key :: key in fields ==> Nests(fields[key], levels - 1)
    case _ => true
  }

  /** The native parser refuses texts that nest deeper. */
  const MAX_LEVELS := 127

  /** The value JavaScript holds after parsing a text. */
  function JsRead(v: Json, e: Engine): Json {
    match v
    case Number(num) => Number(AsDouble(num, e))
    case Array(items) => Array(seq(|items|, i requires 0 <= i < |items| => JsRead(items[i], e)))
    case Object(fields) => Object(map key | key in fields :: JsRead(fields[key], e))
    case _ => v
  }

  /** The value the native side holds after parsing the same text. */
  function NativeRead(v: Json, e: Engine): Json {
    match v
    case Number(num) => Number(AsNative(num, e))
    case Array(items) => Array(seq(|items|, i requires 0 <= i < |items| => NativeRead(items[i], e)))
    case Object(fields) => Object(map key | key in fields :: NativeRead(fields[key], e))
    case _ => v
  }

  lemma FieldsRead(fields: map<Units, Json>, key: Units, e: Engine)
    ensures Lookup(JsRead(Object(fields), e).fields, key) == JsIn(Lookup(fields, key), e)
    ensures Lookup(NativeRead(Object(fields), e).fields, key) == NativeIn(Lookup(fields, key), e)
  {
  }

  function JsIn(keyword: Option<Json>, e: Engine): Option<Json> {
    if keyword.Some? then Some(JsRead(keyword.value, e)) else None
  }

  function NativeIn(keyword: Option<Json>, e: Engine): Option<Json> {
    if keyword.Some? then Some(NativeRead(keyword.value, e)) else None
  }

  /** Every number in a value is steady. */
  predicate AllSteady(v: Json, e: Engine) {
    match v
    case Number(num) => Steady(num, e)
    case Array(items) => forall i :: 0 <= i < |items| ==> AllSteady(items[i], e)
    case Object(fields) => forall key :: key in fields ==> AllSteady(fields[key], e)
    case _ => true
  }

  /** Both parsers make the same of a text exactly when all its numbers are steady. */
  lemma {:induction false} SteadyValuesReadAlike(v: Json, e: Engine)
    ensures AllSteady(v, e) <==> NativeRead(v, e) == JsRead(v, e)
  {
    hide Steady, AsDouble, AsNative;
    match v {
      case Number(num) => SteadyNumbersReadAlike(num, e);
      case Array(items) =>
        forall i | 0 <= i < |items|
          ensures AllSteady(items[i], e) <==> NativeRead(v, e).items[i] == JsRead(v, e).items[i]
        {
          SteadyValuesReadAlike(items[i], e);
        }
      case Object(fields) =>
        forall key | key in fields { SteadyValuesReadAlike(fields[key], e); }
        forall key | key in fields
          ensures NativeRead(v, e).fields[key] == NativeRead(fields[key], e)
               && JsRead(v, e).fields[key] == JsRead(fields[key], e)
        {
        }
      case _ =>
    }
  }

  /** A value of JavaScript: parsable, and every number is a double as it prints. */
  predicate JsValue(v: Json, e: Engine) {
    match v
    case Number(num) => IsPrinted(num, e)
    case Text(text) => |text| < PRECISION && Paired(text)
    case Array(items) => |items| < PRECISION && forall i :: 0 <= i < |items| ==> JsValue(items[i], e)
    case Object(fields) => forall key :: key in fields ==> Paired(key) && JsValue(fields[key], e)
    case _ => true
  }

  /** Parsing gives JavaScript values. */
  lemma {:induction false} ParsedValuesAreJsValues(v: Json, e: Engine)
    requires Parsable(v, e) && Sane(e)
    ensures JsValue(JsRead(v, e), e)
  {
    hide AsDouble, IsPrinted, Sane, Paired;
    match v {
      case Number(num) => DoublesArePrinted(num, e);
      case Array(items) => forall i | 0 <= i < |items| { ParsedValuesAreJsValues(items[i], e); }
      case Object(fields) => forall key | key in fields { ParsedValuesAreJsValues(fields[key], e); }
      case _ =>
    }
  }

  /** What JavaScript holds, it prints to a text that both sides parse to the same value. */
  lemma {:induction false} JsValuesAreRead(v: Json, e: Engine)
    requires JsValue(v, e)
    ensures Parsable(v, e) && WellFormed(v) && JsRead(v, e) == v && NativeRead(v, e) == v
  {
    hide AsDouble, AsNative, ValidNum, InRange, Paired;
    match v {
      case Number(num) => PrintedNumbersAreSteady(num, e);
      case Array(items) => forall i | 0 <= i < |items| { JsValuesAreRead(items[i], e); }
      case Object(fields) =>
        forall key | key in fields { JsValuesAreRead(fields[key], e); }
        assert JsRead(v, e).fields == fields && NativeRead(v, e).fields == fields;
      case _ =>
    }
  }

  /** Parsing twice is parsing once: what JavaScript prints for a parsed value both sides parse to that value. */
  lemma ParsedOnce(v: Json, e: Engine)
    requires Parsable(v, e) && Sane(e)
    ensures JsValue(JsRead(v, e), e) && JsRead(JsRead(v, e), e) == JsRead(v, e)
    ensures NativeRead(JsRead(v, e), e) == JsRead(v, e)
  {
    ParsedValuesAreJsValues(v, e);
    JsValuesAreRead(JsRead(v, e), e);
  }

  /** Only what JavaScript parses to a value is natively parsed to it. */
  lemma {:induction false} NativeValuesAreRead(v: Json, e: Engine)
    requires Parsable(v, e) && Sane(e)
    ensures JsRead(NativeRead(v, e), e) == JsRead(v, e)
  {
    hide AsDouble, AsNative, Sane, ValidNum, InRange;
    match v {
      case Number(num) => NativeNumbersAreDoubles(num, e);
      case Array(items) => forall i | 0 <= i < |items| { NativeValuesAreRead(items[i], e); }
      case Object(fields) => forall key | key in fields { NativeValuesAreRead(fields[key], e); }
      case _ =>
    }
  }
}
