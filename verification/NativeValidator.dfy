/** The native validator: one verdict, reading keywords only in the types it expects, ranges as doubles. */
module NativeValidator {
  import opened Common
  import opened Json
  import opened ParsedValues
  import opened Schemas

  /** An unsigned 64-bit keyword value; any other value counts as absent. */
  function Unsigned(keyword: Option<Json>): Option<int> {
    match keyword
    case Some(Number(Int(n))) => if 0 <= n <= U64_MAX then Some(n) else None
    case _ => None
  }

  function Pointer(v: Json, tokens: seq<Units>): Option<Json> {
    if tokens == [] then Some(v)
    else
      var token := Unescape(tokens[0]);
      match v
      case Object(fields) => if token in fields then Pointer(fields[token], tokens[1..]) else None
      case Array(items) =>
        (match Index(token)
         case None => None
         case Some(i) => if 0 <= i < |items| then Pointer(items[i], tokens[1..]) else None)
      case _ => None
  }

  /** A reference is a fragment: empty for the root, otherwise a pointer (section 6 of RFC 6901). */
  function Target(reference: Units, root: Json): Option<Json> {
    if reference == [] || reference[0] != HASH then None
    else if |reference| == 1 then Some(root)
    else if reference[1] != SLASH then None
    else Pointer(root, Split(reference[2..]))
  }

  function Rule(k: Keywords, key: Units): Option<Json> {
    match k.properties
    case Some(Object(fields)) => if key in fields then Some(fields[key]) else k.additional
    case _ => k.additional
  }

  predicate LengthFits(n: nat, min: Option<Json>, max: Option<Json>) {
    (Unsigned(min).Some? ==> n >= Unsigned(min).value) && (Unsigned(max).Some? ==> n <= Unsigned(max).value)
  }

  /** What the value itself must satisfy, apart from its parts. */
  predicate OwnValid(k: Keywords, v: Json, e: Engine) {
    && (k.kind.Some? && k.kind.value.Text? ==> HasKind(v, k.kind.value.text, e))
    && (k.constant.Some? ==> k.constant.value == v)
    && (k.options.Some? && k.options.value.Array? ==> v in k.options.value.items)
    && ShapeValid(k, v, e)
  }

  predicate ShapeValid(k: Keywords, v: Json, e: Engine) {
    match v
    case Text(text) =>
      && LengthFits(CodePoints(text), k.minLength, k.maxLength)
      && (TextIn(k.pattern).Some? ==> Matches(TextIn(k.pattern).value, text, e))
    case Number(n) =>
      && (NumberIn(k.minimum).Some? ==> !Less(AsDouble(n, e), AsDouble(NumberIn(k.minimum).value, e), e))
      && (NumberIn(k.maximum).Some? ==> !Less(AsDouble(NumberIn(k.maximum).value, e), AsDouble(n, e), e))
    case Array(items) =>
      && LengthFits(|items|, k.minItems, k.maxItems)
      && (k.uniqueItems == Some(Bool(true)) ==> forall i :: 0 <= i < |items| ==> items[i] !in items[..i])
    case Object(fields) => HasKeys(ItemsIn(k.required), fields)
    case _ => true
  }

  predicate HasKeys(required: seq<Json>, fields: map<Units, Json>) {
    forall i :: 0 <= i < |required| ==> (if required[i].Text? then required[i].text else []) in fields
  }

  /** Whether a value conforms to a schema. */
  predicate Valid(schema: Json, v: Json, root: Json, depth: nat, e: Engine)
    decreases MAX_DEPTH + 1 - depth, 1
  {
    if depth > MAX_DEPTH then false
    else if schema.Bool? then schema.b
    else
      var k := KeywordsOf(if schema.Object? then schema.fields else map[]);
      if TextIn(k.reference).Some? then
        (match Target(TextIn(k.reference).value, root)
         case None => false
         case Some(target) => Valid(target, v, root, depth + 1, e))
      else OwnValid(k, v, e) && PartsValid(k, v, root, depth, e)
  }

  predicate PartsValid(k: Keywords, v: Json, root: Json, depth: nat, e: Engine)
    requires depth <= MAX_DEPTH
    decreases MAX_DEPTH + 1 - depth, 0
  {
    match v
    case Array(items) =>
      k.items.Some? ==> forall i :: 0 <= i < |items| ==> Valid(k.items.value, items[i], root, depth + 1, e)
    case Object(fields) =>
      forall key :: key in fields ==>
        !Unsafe(key) && (Rule(k, key).Some? ==> Valid(Rule(k, key).value, fields[key], root, depth + 1, e))
    case _ => true
  }
}
