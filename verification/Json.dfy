/** JSON values, their canonical text, and the grammar that reads it back. */
module Json {
  import opened Common
  import opened Ordering

  /** A UTF-16 code unit, as JavaScript strings are made of. */
  type Unit = x: int | 0 <= x < 0x1_0000

  type Units = seq<Unit>

  /**
   * A number as a text has it. Integers of fewer than 22 digits are kept by value, and any other spelling,
   * with a fraction, an exponent, more digits or a sign before zero, as it stands. What JavaScript holds
   * are the numbers it prints for doubles.
   */
  datatype Num = Int(n: int) | Other(token: Units)

  datatype Json =
    | Null
    | Bool(b: bool)
    | Number(num: Num)
    | Text(text: Units)
    | Array(items: seq<Json>)
    | Object(fields: map<Units, Json>)

  /** The code units of an ASCII literal. */
  function Ascii(s: string): Units {
    seq(|s|, i requires 0 <= i < |s| => if s[i] < 128 as char then s[i] as int else 0)
  }

  const QUOTE: Unit := 0x22
  const BACKSLASH: Unit := 0x5C
  const COMMA: Unit := 0x2C
  const COLON: Unit := 0x3A
  const OPEN_ARRAY: Unit := 0x5B
  const CLOSE_ARRAY: Unit := 0x5D
  const OPEN_OBJECT: Unit := 0x7B
  const CLOSE_OBJECT: Unit := 0x7D
  const MINUS: Unit := 0x2D
  const PLUS: Unit := 0x2B
  const POINT: Unit := 0x2E
  const ZERO: Unit := 0x30
  const LOWER_E: Unit := 0x65
  const UPPER_E: Unit := 0x45
  const LOWER_U: Unit := 0x75

  // ---- numbers -------------------------------------------------------------

  predicate IsDigit(u: Unit) {
    ZERO <= u <= 0x39
  }

  function Decimal(n: nat): Units {
    if n < 10 then [ZERO + n] else Decimal(n / 10) + [ZERO + n % 10]
  }

  function DecimalValue(s: Units): int {
    if s == [] then 0 else DecimalValue(s[..|s| - 1]) * 10 + (s[|s| - 1] - ZERO)
  }

  /** How many digits a text starts with. */
  function Digits(s: Units): (n: nat)
    ensures n <= |s|
  {
    if s == [] || !IsDigit(s[0]) then 0 else 1 + Digits(s[1..])
  }

  predicate IsExponent(s: Units) {
    s == [] || (
      && (s[0] == LOWER_E || s[0] == UPPER_E)
      && var digits := if |s| > 1 && (s[1] == PLUS || s[1] == MINUS) then s[2..] else s[1..];
      |digits| > 0 && Digits(digits) == |digits|)
  }

  predicate IsFraction(s: Units) {
    if s != [] && s[0] == POINT then Digits(s[1..]) > 0 && IsExponent(s[1 + Digits(s[1..])..]) else IsExponent(s)
  }

  /** The number grammar of section 6 of RFC 8259. */
  predicate IsNumber(s: Units) {
    var u := if s != [] && s[0] == MINUS then s[1..] else s;
    var k := Digits(u);
    k > 0 && (u[0] == ZERO ==> k == 1) && IsFraction(u[k..])
  }

  predicate IsWhole(s: Units) {
    POINT !in s && LOWER_E !in s && UPPER_E !in s
  }

  function PrintNum(n: Num): Units {
    match n
    case Int(n) => if n < 0 then [MINUS] + Decimal(-n) else Decimal(n)
    case Other(token) => token
  }

  /** Whole numbers of fewer digits than this one are kept by value. */
  const HUGE := 1_000_000_000_000_000_000_000

  function WholeOf(token: Units): int {
    if token != [] && token[0] == MINUS then -DecimalValue(token[1..]) else DecimalValue(token)
  }

  /** Reads a token; a negative zero, like every other spelling that is not the plain one, is kept as it is. */
  function NumOf(token: Units): Num {
    if IsWhole(token) && token != [MINUS, ZERO] && -HUGE < WholeOf(token) < HUGE then Int(WholeOf(token))
    else Other(token)
  }

  /** What tokens of the grammar are read as, and nothing else. */
  predicate ValidNum(n: Num) {
    match n
    case Int(n) => -HUGE < n < HUGE
    case Other(token) => IsNumber(token) && NumOf(token) == n
  }

  // ---- text ----------------------------------------------------------------

  predicate IsHigh(u: Unit) {
    0xD800 <= u <= 0xDBFF
  }

  predicate IsLow(u: Unit) {
    0xDC00 <= u <= 0xDFFF
  }

  function HexDigit(d: nat): Unit
    requires d < 16
  {
    if d < 10 then ZERO + d else 0x61 + d - 10
  }

  function Hex(u: Unit): Units {
    [BACKSLASH, LOWER_U, HexDigit(u / 16 / 16 / 16), HexDigit(u / 16 / 16 % 16), HexDigit(u / 16 % 16),
      HexDigit(u % 16)]
  }

  /** The short escapes: which letter stands for which control character. */
  function Letter(u: Unit): Option<Unit> {
    if u == QUOTE || u == BACKSLASH then Some(u)
    else if u == 0x08 then Some(0x62)
    else if u == 0x0C then Some(0x66)
    else if u == 0x0A then Some(0x6E)
    else if u == 0x0D then Some(0x72)
    else if u == 0x09 then Some(0x74)
    else None
  }

  /** One unit outside a surrogate pair: escaped if it is special, a control or a lone surrogate. */
  function EscapeUnit(u: Unit): Units {
    if Letter(u).Some? then [BACKSLASH, Letter(u).value]
    else if u < 0x20 || IsHigh(u) || IsLow(u) then Hex(u)
    else [u]
  }

  function Escape(s: Units): Units {
    if s == [] then []
    else if IsHigh(s[0]) && |s| > 1 && IsLow(s[1]) then [s[0], s[1]] + Escape(s[2..])
    else EscapeUnit(s[0]) + Escape(s[1..])
  }

  function Quoted(s: Units): Units {
    [QUOTE] + Escape(s) + [QUOTE]
  }

  // ---- the canonical text --------------------------------------------------

  /** The order in which JavaScript sorts keys. */
  predicate UnitsBefore(a: Units, b: Units) {
    if b == [] then false
    else if a == [] then true
    else a[0] < b[0] || (a[0] == b[0] && UnitsBefore(a[1..], b[1..]))
  }

  lemma {:induction false} UnitsTransitive(a: Units, b: Units, c: Units)
    requires UnitsBefore(a, b) && UnitsBefore(b, c)
    ensures UnitsBefore(a, c)
  {
    if a != [] && a[0] == b[0] && b[0] == c[0] {
      UnitsTransitive(a[1..], b[1..], c[1..]);
    }
  }

  lemma {:induction false} UnitsIrreflexive(a: Units)
    ensures !UnitsBefore(a, a)
  {
    if a != [] { UnitsIrreflexive(a[1..]); }
  }

  lemma {:induction false} UnitsComparable(a: Units, b: Units)
    ensures a != b ==> UnitsBefore(a, b) || UnitsBefore(b, a)
  {
    if a != [] && b != [] && a[0] == b[0] {
      UnitsComparable(a[1..], b[1..]);
      assert a == [a[0]] + a[1..] && b == [b[0]] + b[1..];
    }
  }

  predicate IsLeast(k: Units, keys: set<Units>) {
    k in keys && forall j :: j in keys ==> j == k || UnitsBefore(k, j)
  }

  lemma {:induction false} LeastKeyExists(keys: set<Units>)
    requires keys != {}
    ensures exists k :: IsLeast(k, keys)
    decreases |keys|
  {
    hide UnitsBefore;
    var k :| k in keys;
    var others := keys - {k};
    if others == {} {
      assert forall j :: j in keys && j != k ==> j in others;
      assert IsLeast(k, keys);
    } else {
      LeastKeyExists(others);
      var least :| IsLeast(least, others);
      UnitsComparable(k, least);
      if UnitsBefore(k, least) {
        forall j | j in others && j != least ensures UnitsBefore(k, j) { UnitsTransitive(k, least, j); }
        assert IsLeast(k, keys);
      } else {
        assert IsLeast(least, keys);
      }
    }
  }

  lemma LeastIsUnique(a: Units, b: Units, keys: set<Units>)
    requires IsLeast(a, keys) && IsLeast(b, keys)
    ensures a == b
  {
    if a != b {
      UnitsTransitive(a, b, a);
      UnitsIrreflexive(a);
    }
  }

  function LeastKey(keys: set<Units>): (k: Units)
    requires keys != {}
    ensures IsLeast(k, keys)
  {
    LeastKeyExists(keys);
    assert forall a, b :: IsLeast(a, keys) && IsLeast(b, keys) ==> a == b by {
      forall a, b | IsLeast(a, keys) && IsLeast(b, keys) ensures a == b { LeastIsUnique(a, b, keys); }
    }
    var k :| IsLeast(k, keys);
    k
  }

  /** Putting the least key first keeps a listing of the others sorted. */
  lemma LeastGoesFirst(k: Units, rest: seq<Units>, keys: set<Units>)
    requires IsLeast(k, keys) && Elements(rest) == keys - {k} && Sorted(UnitsBefore, rest)
    ensures Elements([k] + rest) == keys && Sorted(UnitsBefore, [k] + rest)
  {
    hide UnitsBefore;
    assert forall i :: 0 <= i < |rest| ==> rest[i] in Elements(rest);
    assert Elements([k] + rest) == {k} + Elements(rest);
  }

  /** Keys in the order in which they are printed. */
  function SortedKeys(keys: set<Units>): (sorted: seq<Units>)
    ensures Elements(sorted) == keys && Sorted(UnitsBefore, sorted)
    decreases |keys|
  {
    if keys == {} then []
    else
      var k := LeastKey(keys);
      var rest := SortedKeys(keys - {k});
      LeastGoesFirst(k, rest, keys);
      [k] + rest
  }

  function Join(parts: seq<Units>): Units {
    if parts == [] then []
    else if |parts| == 1 then parts[0]
    else parts[0] + [COMMA] + Join(parts[1..])
  }

  /** The canonical text of a value: keys sorted, nothing between the tokens. */
  function Canonical(v: Json): Units {
    match v
    case Null => Ascii("null")
    case Bool(b) => Ascii(if b then "true" else "false")
    case Number(num) => PrintNum(num)
    case Text(text) => Quoted(text)
    case Array(items) =>
      [OPEN_ARRAY] + Join(seq(|items|, i requires 0 <= i < |items| => Canonical(items[i]))) + [CLOSE_ARRAY]
    case Object(fields) =>
      var keys := SortedKeys(fields.Keys);
      assert forall i :: 0 <= i < |keys| ==> keys[i] in Elements(keys);
      [OPEN_OBJECT]
      + Join(seq(|keys|, i requires 0 <= i < |keys| => Quoted(keys[i]) + [COLON] + Canonical(fields[keys[i]])))
      + [CLOSE_OBJECT]
  }

  predicate WellFormed(v: Json) {
    match v
    case Number(num) => ValidNum(num)
    case Array(items) => forall i :: 0 <= i < |items| ==> WellFormed(items[i])
    case Object(fields) => forall key :: key in fields ==> WellFormed(fields[key])
    case _ => true
  }

  // ---- reading -------------------------------------------------------------

  datatype Parsed<T> = Fails | Parsed(value: T, rest: Units)

  /** White space between tokens (section 2 of RFC 8259). */
  function SkipSpace(s: Units): (r: Units)
    ensures |r| <= |s|
  {
    if s != [] && (s[0] == 0x20 || s[0] == 0x09 || s[0] == 0x0A || s[0] == 0x0D) then SkipSpace(s[1..]) else s
  }

  function HexValue(u: Unit): Option<nat> {
    if IsDigit(u) then Some(u - ZERO)
    else if 0x61 <= u <= 0x66 then Some(u - 0x61 + 10)
    else if 0x41 <= u <= 0x46 then Some(u - 0x41 + 10)
    else None
  }

  function ReadHex(s: Units): Option<Unit> {
    if |s| < 4 then None
    else match (HexValue(s[0]), HexValue(s[1]), HexValue(s[2]), HexValue(s[3]))
    case (Some(a), Some(b), Some(c), Some(d)) =>
      if a < 16 && b < 16 && c < 16 && d < 16 then Some(a * 4096 + b * 256 + c * 16 + d) else None
    case _ => None
  }

  /** What a letter after a backslash stands for (section 7 of RFC 8259). */
  function Unescaped(letter: Unit): Option<Unit> {
    if letter == QUOTE || letter == BACKSLASH || letter == 0x2F then Some(letter)
    else if letter == 0x62 then Some(0x08)
    else if letter == 0x66 then Some(0x0C)
    else if letter == 0x6E then Some(0x0A)
    else if letter == 0x72 then Some(0x0D)
    else if letter == 0x74 then Some(0x09)
    else None
  }

  function Prepend(u: Unit, r: Parsed<Units>): Parsed<Units> {
    if r.Fails? then Fails else Parsed([u] + r.value, r.rest)
  }

  /** The contents of a text up to its closing quote. */
  function ReadText(s: Units): (r: Parsed<Units>)
    ensures r.Parsed? ==> |r.rest| < |s|
    decreases |s|
  {
    if s == [] then Fails
    else if s[0] == QUOTE then Parsed([], s[1..])
    else if s[0] == BACKSLASH then
      if |s| > 1 && Unescaped(s[1]).Some? then Prepend(Unescaped(s[1]).value, ReadText(s[2..]))
      else if |s| > 5 && s[1] == LOWER_U && ReadHex(s[2..6]).Some?
      then Prepend(ReadHex(s[2..6]).value, ReadText(s[6..]))
      else Fails
    else if s[0] < 0x20 then Fails
    else Prepend(s[0], ReadText(s[1..]))
  }

  predicate IsNumberUnit(u: Unit) {
    IsDigit(u) || u == MINUS || u == PLUS || u == POINT || u == LOWER_E || u == UPPER_E
  }

  function NumberRun(s: Units): (n: nat)
    ensures n <= |s|
  {
    if s == [] || !IsNumberUnit(s[0]) then 0 else 1 + NumberRun(s[1..])
  }

  function ReadLiteral(s: Units, word: Units, v: Json): (r: Parsed<Json>)
    ensures r.Parsed? ==> |r.rest| == |s| - |word|
  {
    if word <= s then Parsed(v, s[|word|..]) else Fails
  }

  predicate Starts(s: Units, u: Unit) {
    s != [] && s[0] == u
  }

  function ReadValue(s: Units): (r: Parsed<Json>)
    ensures r.Parsed? ==> |r.rest| < |s|
    decreases |s|, 2
  {
    var t := SkipSpace(s);
    if t == [] then Fails
    else if t[0] == OPEN_OBJECT then
      if Starts(SkipSpace(t[1..]), CLOSE_OBJECT) then Parsed(Object(map[]), SkipSpace(t[1..])[1..])
      else (match ReadMembers(t[1..]) case Fails => Fails case Parsed(fields, rest) => Parsed(Object(fields), rest))
    else if t[0] == OPEN_ARRAY then
      if Starts(SkipSpace(t[1..]), CLOSE_ARRAY) then Parsed(Array([]), SkipSpace(t[1..])[1..])
      else (match ReadItems(t[1..]) case Fails => Fails case Parsed(items, rest) => Parsed(Array(items), rest))
    else if t[0] == QUOTE then
      (match ReadText(t[1..]) case Fails => Fails case Parsed(text, rest) => Parsed(Text(text), rest))
    else if t[0] == 0x6E then ReadLiteral(t, Ascii("null"), Null)
    else if t[0] == 0x74 then ReadLiteral(t, Ascii("true"), Bool(true))
    else if t[0] == 0x66 then ReadLiteral(t, Ascii("false"), Bool(false))
    else
      var token := t[..NumberRun(t)];
      if IsNumber(token) then Parsed(Number(NumOf(token)), t[|token|..]) else Fails
  }

  /** The items of an array, up to and including its closing bracket. */
  function ReadItems(s: Units): (r: Parsed<seq<Json>>)
    ensures r.Parsed? ==> |r.rest| < |s|
    decreases |s|, 3
  {
    match ReadValue(s)
    case Fails => Fails
    case Parsed(item, rest) =>
      var t := SkipSpace(rest);
      if Starts(t, CLOSE_ARRAY) then Parsed([item], t[1..])
      else if Starts(t, COMMA) then
        (match ReadItems(t[1..]) case Fails => Fails case Parsed(items, rest) => Parsed([item] + items, rest))
      else Fails
  }

  function ReadMember(s: Units): (r: Parsed<(Units, Json)>)
    ensures r.Parsed? ==> |r.rest| < |s|
    decreases |s|, 3
  {
    var t := SkipSpace(s);
    if !Starts(t, QUOTE) then Fails
    else match ReadText(t[1..])
    case Fails => Fails
    case Parsed(key, rest) =>
      var u := SkipSpace(rest);
      if !Starts(u, COLON) then Fails
      else match ReadValue(u[1..])
      case Fails => Fails
      case Parsed(v, rest) => Parsed((key, v), rest)
  }

  /** The members of an object, up to and including its closing brace; the last of equal names wins. */
  function ReadMembers(s: Units): (r: Parsed<map<Units, Json>>)
    ensures r.Parsed? ==> |r.rest| < |s|
    decreases |s|, 4
  {
    match ReadMember(s)
    case Fails => Fails
    case Parsed((key, v), rest) =>
      var t := SkipSpace(rest);
      if Starts(t, CLOSE_OBJECT) then Parsed(map[key := v], t[1..])
      else if Starts(t, COMMA) then
        (match ReadMembers(t[1..])
         case Fails => Fails
         case Parsed(fields, rest) => Parsed(map[key := v] + fields, rest))
      else Fails
  }

  /** Reads a whole JSON text (section 2 of RFC 8259). */
  function Parse(s: Units): Option<Json> {
    match ReadValue(s)
    case Fails => None
    case Parsed(v, rest) => if SkipSpace(rest) == [] then Some(v) else None
  }
}
