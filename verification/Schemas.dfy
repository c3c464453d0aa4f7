/** The schema vocabulary that both validators read. */
module Schemas {
  import opened Common
  import opened Json

  /** The keywords of a schema object; everything else in it is ignored. */
  datatype Keywords = Keywords(
    reference: Option<Json>,
    kind: Option<Json>,
    constant: Option<Json>,
    options: Option<Json>,
    minLength: Option<Json>,
    maxLength: Option<Json>,
    pattern: Option<Json>,
    minimum: Option<Json>,
    maximum: Option<Json>,
    minItems: Option<Json>,
    maxItems: Option<Json>,
    uniqueItems: Option<Json>,
    items: Option<Json>,
    required: Option<Json>,
    properties: Option<Json>,
    additional: Option<Json>)

  function KeywordsOf(fields: map<Units, Json>): Keywords {
    Keywords(
      Lookup(fields, Ascii("$ref")),
      Lookup(fields, Ascii("type")),
      Lookup(fields, Ascii("const")),
      Lookup(fields, Ascii("enum")),
      Lookup(fields, Ascii("minLength")),
      Lookup(fields, Ascii("maxLength")),
      Lookup(fields, Ascii("pattern")),
      Lookup(fields, Ascii("minimum")),
      Lookup(fields, Ascii("maximum")),
      Lookup(fields, Ascii("minItems")),
      Lookup(fields, Ascii("maxItems")),
      Lookup(fields, Ascii("uniqueItems")),
      Lookup(fields, Ascii("items")),
      Lookup(fields, Ascii("required")),
      Lookup(fields, Ascii("properties")),
      Lookup(fields, Ascii("additionalProperties")))
  }

  /**
   * What is taken from the host: pattern matching, the order of numbers that are not both whole, which
   * numbers printed with an exponent are whole, which number tokens a double can hold and what JavaScript
   * prints for them, and what it answers where it throws or coerces.
   */
  datatype Engine = Engine(
    compiles: Units -> bool,
    matches: (Units, Units) -> bool,
    less: (Num, Num) -> bool,
    whole: Units -> bool,
    inRange: Units -> bool,
    double: Units -> Num,
    odd: (Json, Json) -> bool)

  predicate Less(a: Num, b: Num, e: Engine) {
    if a.Int? && b.Int? then a.n < b.n else e.less(a, b)
  }

  /** Both validators give up below this depth. */
  const MAX_DEPTH := 64

  function CodePoints(s: Units): nat {
    if s == [] then 0
    else if IsHigh(s[0]) && |s| > 1 && IsLow(s[1]) then 1 + CodePoints(s[2..])
    else 1 + CodePoints(s[1..])
  }

  predicate HasKind(v: Json, kind: Units, e: Engine) {
    match v
    case Object(_) => kind == Ascii("object")
    case Array(_) => kind == Ascii("array")
    case Text(_) => kind == Ascii("string")
    case Bool(_) => kind == Ascii("boolean")
    case Null => kind == Ascii("null")
    case Number(Int(_)) => kind == Ascii("number") || kind == Ascii("integer")
    case Number(Other(token)) =>
      kind == Ascii("number") || (kind == Ascii("integer") && (IsWhole(token) || e.whole(token)))
  }

  /** Keys that neither validator lets an object carry. */
  predicate Unsafe(key: Units) {
    key == Ascii("__proto__") || key == Ascii("prototype") || key == Ascii("constructor")
  }

  /** Names that every JavaScript object inherits. */
  predicate Inherited(key: Units) {
    || key == Ascii("toString")
    || key == Ascii("toLocaleString")
    || key == Ascii("valueOf")
    || key == Ascii("hasOwnProperty")
    || key == Ascii("isPrototypeOf")
    || key == Ascii("propertyIsEnumerable")
    || key == Ascii("__defineGetter__")
    || key == Ascii("__defineSetter__")
    || key == Ascii("__lookupGetter__")
    || key == Ascii("__lookupSetter__")
    || key == Ascii("__proto__")
    || key == Ascii("constructor")
  }

  /** Whether a text has a match of a pattern; the empty pattern matches every text. */
  predicate Matches(pattern: Units, text: Units, e: Engine) {
    pattern == [] || e.matches(pattern, text)
  }

  // ---- references ----------------------------------------------------------

  const HASH: Unit := 0x23
  const SLASH: Unit := 0x2F
  const TILDE: Unit := 0x7E

  function Split(s: Units): (tokens: seq<Units>)
    ensures |tokens| > 0
  {
    if s == [] then [[]]
    else
      var rest := Split(s[1..]);
      if s[0] == SLASH then [[]] + rest else [[s[0]] + rest[0]] + rest[1..]
  }

  function Replace(s: Units, digit: Unit, letter: Unit): Units {
    if s == [] then []
    else if |s| > 1 && s[0] == TILDE && s[1] == digit then [letter] + Replace(s[2..], digit, letter)
    else [s[0]] + Replace(s[1..], digit, letter)
  }

  /** Undoes the escaping of a pointer token (section 4 of RFC 6901). */
  function Unescape(token: Units): Units {
    Replace(Replace(token, 0x31, SLASH), ZERO, TILDE)
  }

  /** An array index: digits without a leading zero. */
  function Index(token: Units): Option<int> {
    if token == [] || Digits(token) < |token| || (|token| > 1 && token[0] == ZERO) then None
    else Some(DecimalValue(token))
  }

  predicate Local(reference: Units) {
    |reference| >= 2 && reference[0] == HASH && reference[1] == SLASH
  }

  // ---- reading keywords ----------------------------------------------------

  /** The number a keyword sets, if it sets one. */
  function NumberIn(keyword: Option<Json>): Option<Num> {
    match keyword
    case Some(Number(n)) => Some(n)
    case _ => None
  }

  function TextIn(keyword: Option<Json>): Option<Units> {
    match keyword
    case Some(Text(text)) => Some(text)
    case _ => None
  }

  function ItemsIn(keyword: Option<Json>): seq<Json> {
    match keyword
    case Some(Array(items)) => items
    case _ => []
  }
}
