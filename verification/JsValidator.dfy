/** The JavaScript validator: collects failures, and looks properties up the JavaScript way. */
module JsValidator {
  import opened Common
  import opened Json
  import opened Schemas

  /** Why a value fails; `Exception` is a call that throws, `Unpredictable` one whose answer is left open. */
  datatype Reason =
    | DepthLimit
    | Forbidden
    | ExternalReference
    | UnresolvedReference
    | WrongType
    | Exception
    | NotConst
    | NotInEnum
    | TextLength
    | PatternMismatch
    | NumberRange
    | ArrayLength
    | DuplicateItems
    | Missing(key: Units)
    | UnsafeKey
    | Unpredictable

  datatype Step = Member(key: Units) | Item(index: nat)

  datatype Failure = Failure(path: seq<Step>, reason: Reason)

  /** What JavaScript takes for true. */
  predicate Truthy(keyword: Option<Json>) {
    match keyword
    case None => false
    case Some(Null) => false
    case Some(Bool(b)) => b
    case Some(Number(n)) => n != Int(0)
    case Some(Text(text)) => text != []
    case _ => true
  }

  predicate Absent(keyword: Option<Json>) {
    keyword.None? || keyword == Some(Null)
  }

  predicate IsBound(keyword: Option<Json>) {
    Absent(keyword) || NumberIn(keyword).Some?
  }

  /** Keywords of the types they are meant to have; on others JavaScript coerces or throws. */
  predicate Typed(k: Keywords) {
    && (Truthy(k.kind) ==> TextIn(k.kind).Some?)
    && (Truthy(k.options) ==> k.options.value.Array?)
    && (Truthy(k.pattern) ==> TextIn(k.pattern).Some?)
    && IsBound(k.minLength) && IsBound(k.maxLength) && IsBound(k.minItems) && IsBound(k.maxItems)
    && IsBound(k.minimum) && IsBound(k.maximum)
    && (Absent(k.required) ||
        (k.required.value.Array? && forall i :: 0 <= i < |k.required.value.items| ==> k.required.value.items[i].Text?))
    && (Absent(k.properties) || k.properties.value.Object?)
  }

  /** Schemas whose JavaScript reading is left open. */
  predicate Odd(k: Keywords) {
    if Truthy(k.reference) then TextIn(k.reference).None? else !Typed(k)
  }

  // ---- registration --------------------------------------------------------

  const VOCABULARY: seq<string> := [
    "$schema", "$id", "$ref", "$comment", "$defs", "definitions", "type", "required", "properties",
    "additionalProperties", "items", "minItems", "maxItems", "uniqueItems", "minLength", "maxLength", "pattern",
    "minimum", "maximum", "const", "enum", "title", "description", "default", "examples", "readOnly", "writeOnly",
    "deprecated"]

  predicate InVocabulary(key: Units) {
    Ascii("x-") <= key || exists i :: 0 <= i < |VOCABULARY| && Ascii(VOCABULARY[i]) == key
  }

  /** Keywords that hold schemas by name. */
  predicate IsGroup(key: Units) {
    key == Ascii("properties") || key == Ascii("definitions") || key == Ascii("$defs")
  }

  /** A schema that registration admits: bounded in depth, with known keywords and local references. */
  predicate Registered(schema: Json, depth: nat, e: Engine)
    decreases schema
  {
    && depth <= MAX_DEPTH
    && match schema
       case Bool(_) => true
       case Object(fields) =>
         && (forall key :: key in fields ==> InVocabulary(key))
         && (Truthy(Lookup(fields, Ascii("type"))) ==> fields[Ascii("type")].Text?)
         && (Truthy(Lookup(fields, Ascii("$ref"))) ==> fields[Ascii("$ref")].Text? && Local(fields[Ascii("$ref")].text))
         && (Truthy(Lookup(fields, Ascii("pattern"))) && fields[Ascii("pattern")].Text? ==>
              e.compiles(fields[Ascii("pattern")].text))
         && (forall key :: key in fields && (key == Ascii("items") || key == Ascii("additionalProperties")) ==>
              Registered(fields[key], depth + 1, e))
         && (forall key :: key in fields && IsGroup(key) ==>
              match fields[key]
              case Object(group) => forall name :: name in group ==> Registered(group[name], depth + 1, e)
              case Array(group) => forall i :: 0 <= i < |group| ==> Registered(group[i], depth + 1, e)
              case Text(text) => text == []
              case _ => true)
       case _ => false
  }

  datatype Found = Undefined | Found(v: Json) | Elsewhere

  /** Follows pointer tokens through properties; may leave the JSON value for what objects inherit. */
  function Resolve(v: Json, tokens: seq<Units>): Found {
    if tokens == [] then Found(v)
    else
      var token := Unescape(tokens[0]);
      match v
      case Object(fields) =>
        if token in fields then Resolve(fields[token], tokens[1..])
        else if Inherited(token) then Elsewhere
        else Undefined
      case Array(items) =>
        (match Index(token)
         case None => Elsewhere
         case Some(i) => if 0 <= i < |items| then Resolve(items[i], tokens[1..]) else Undefined)
      case Null => Undefined
      case _ => Elsewhere
  }

  /** The rule for a member; a name that objects inherit finds a function, a rule without keywords. */
  function Child(k: Keywords, key: Units): Option<Json> {
    match k.properties
    case Some(Object(fields)) =>
      if key in fields && fields[key] != Null then Some(fields[key])
      else if key !in fields && Inherited(key) then Some(Object(map[]))
      else k.additional
    case _ => k.additional
  }

  /** What the entry of a name in the table of types answers for a value. */
  datatype Answer = Yes | No | Throws

  predicate IsKind(name: Units) {
    || name == Ascii("object")
    || name == Ascii("array")
    || name == Ascii("string")
    || name == Ascii("integer")
    || name == Ascii("number")
    || name == Ascii("boolean")
    || name == Ascii("null")
  }

  /** The text of a value as a property key; an object with a `toString` of its own has none. */
  function PropertyKey(v: Json): Option<Units> {
    match v
    case Text(text) => Some(text)
    case Object(fields) => if Ascii("toString") in fields then None else Some(Ascii("[object Object]"))
    case Array(items) =>
      if exists i :: 0 <= i < |items| && PropertyKey(items[i]).None? then None
      else Some(Join(seq(|items|, i requires 0 <= i < |items| =>
        if items[i] == Null || PropertyKey(items[i]).None? then [] else PropertyKey(items[i]).value)))
    case _ => Some(Canonical(v))
  }

  /** Inherited functions that return something for every value. */
  predicate Indulgent(name: Units) {
    || name == Ascii("toString")
    || name == Ascii("toLocaleString")
    || name == Ascii("valueOf")
    || name == Ascii("constructor")
  }

  /** Inherited functions that look a value up among the types. */
  predicate LooksUpTypes(name: Units) {
    name == Ascii("hasOwnProperty") || name == Ascii("propertyIsEnumerable")
  }

  /** Inherited functions that look a value up among accessors. */
  predicate LooksUpAccessors(name: Units) {
    name == Ascii("__lookupGetter__") || name == Ascii("__lookupSetter__")
  }

  /** What the table of types answers under a name it inherits instead of holding. */
  function InheritedAnswer(name: Units, v: Json): Answer {
    if Indulgent(name) then Yes
    else if LooksUpTypes(name) || LooksUpAccessors(name) then
      match PropertyKey(v)
      case None => Throws
      case Some(key) => if LooksUpTypes(name) then (if IsKind(key) then Yes else No)
        else if key == Ascii("__proto__") then Yes else No
    else if name == Ascii("isPrototypeOf") then No
    else Throws
  }

  function AnswerOf(name: Units, v: Json, e: Engine): Answer {
    if Inherited(name) then InheritedAnswer(name, v) else if HasKind(v, name, e) then Yes else No
  }

  /** The answer to the type a schema names, if it names one. */
  function KindAnswer(k: Keywords, v: Json, e: Engine): Answer {
    if Truthy(k.kind) && TextIn(k.kind).Some? then AnswerOf(TextIn(k.kind).value, v, e) else Yes
  }

  predicate WrongKind(k: Keywords, v: Json, e: Engine) {
    KindAnswer(k, v, e) != Yes
  }

  function KindFailure(k: Keywords, v: Json, e: Engine): Reason {
    if KindAnswer(k, v, e) == Throws then Exception else WrongType
  }

  predicate Within(n: Num, low: Option<Num>, high: Option<Num>, e: Engine) {
    (low.Some? ==> !Less(n, low.value, e)) && (high.Some? ==> !Less(high.value, n, e))
  }

  function Texts(items: seq<Json>): set<Units> {
    set i | 0 <= i < |items| :: Canonical(items[i])
  }

  predicate Chosen(v: Json, options: seq<Json>) {
    exists i :: 0 <= i < |options| && Canonical(options[i]) == Canonical(v)
  }

  function If(failed: bool, reason: Reason): set<Reason> {
    if failed then {reason} else {}
  }

  /** Failures of a value itself, apart from its type and its parts. */
  function OwnFailures(k: Keywords, v: Json, e: Engine): set<Reason> {
    If(k.constant.Some? && Canonical(v) != Canonical(k.constant.value), NotConst)
    + If(Truthy(k.options) && !Chosen(v, ItemsIn(k.options)), NotInEnum)
    + ShapeFailures(k, v, e)
  }

  /** Failures of the keywords that concern one type of value. */
  function ShapeFailures(k: Keywords, v: Json, e: Engine): set<Reason> {
    match v
    case Text(text) =>
      If(!Within(Int(CodePoints(text)), NumberIn(k.minLength), NumberIn(k.maxLength), e), TextLength)
      + If(Truthy(k.pattern) && TextIn(k.pattern).Some? && !Matches(TextIn(k.pattern).value, text, e), PatternMismatch)
    case Number(n) =>
      If(!Within(n, NumberIn(k.minimum), NumberIn(k.maximum), e), NumberRange)
    case Array(items) =>
      If(!Within(Int(|items|), NumberIn(k.minItems), NumberIn(k.maxItems), e), ArrayLength)
      + If(Truthy(k.uniqueItems) && |Texts(items)| != |items|, DuplicateItems)
    case Object(fields) => MissingKeys(ItemsIn(k.required), fields)
    case _ => {}
  }

  function MissingKeys(required: seq<Json>, fields: map<Units, Json>): set<Reason> {
    set i | 0 <= i < |required| && required[i].Text? && required[i].text !in fields :: Missing(required[i].text)
  }

  function At(path: seq<Step>, reasons: set<Reason>): set<Failure> {
    set reason | reason in reasons :: Failure(path, reason)
  }

  function Open(schema: Json, v: Json, path: seq<Step>, e: Engine): set<Failure> {
    if e.odd(schema, v) then {} else {Failure(path, Unpredictable)}
  }

  /** Every failure of a value against a schema. */
  function Failures(schema: Json, v: Json, path: seq<Step>, root: Json, depth: nat, e: Engine): set<Failure>
    decreases MAX_DEPTH + 1 - depth, 2
  {
    if depth > MAX_DEPTH then {Failure(path, DepthLimit)}
    else match schema
    case Bool(b) => if b then {} else {Failure(path, Forbidden)}
    case Object(fields) =>
      var k := KeywordsOf(fields);
      if Odd(k) then Open(schema, v, path, e)
      else if Truthy(k.reference) then Referred(schema, TextIn(k.reference).value, v, path, root, depth, e)
      else if WrongKind(k, v, e) then {Failure(path, KindFailure(k, v, e))}
      else At(path, OwnFailures(k, v, e)) + PartFailures(k, v, path, root, depth, e)
    case Array(_) => PartFailures(KeywordsOf(map[]), v, path, root, depth, e)
    case _ => Open(schema, v, path, e)
  }

  /** Failures against the schema that a reference leads to. */
  function Referred(schema: Json, reference: Units, v: Json, path: seq<Step>, root: Json, depth: nat,
                    e: Engine): set<Failure>
    requires depth <= MAX_DEPTH
    decreases MAX_DEPTH + 1 - depth, 1
  {
    if !Local(reference) then {Failure(path, ExternalReference)}
    else match Resolve(root, Split(reference[2..]))
    case Undefined => {Failure(path, UnresolvedReference)}
    case Elsewhere => Open(schema, v, path, e)
    case Found(target) =>
      if Truthy(Some(target)) then Failures(target, v, path, root, depth + 1, e)
      else {Failure(path, UnresolvedReference)}
  }

  /** Failures of the items or members of a value. */
  function PartFailures(k: Keywords, v: Json, path: seq<Step>, root: Json, depth: nat, e: Engine): set<Failure>
    requires depth <= MAX_DEPTH
    decreases MAX_DEPTH + 1 - depth, 1, 1
  {
    match v
    case Array(items) =>
      ItemsFailures(k, items, |items|, path, root, depth, e)
    case Object(fields) =>
      MembersFailures(k, fields, fields.Keys, path, root, depth, e)
    case _ => {}
  }

  function ItemsFailures(k: Keywords, items: seq<Json>, n: nat, path: seq<Step>, root: Json, depth: nat,
                         e: Engine): set<Failure>
    requires depth <= MAX_DEPTH && n <= |items|
    decreases MAX_DEPTH + 1 - depth, 1, 0
  {
    set i, f | 0 <= i < n && f in ItemFailures(k, i, items[i], path, root, depth, e) :: f
  }

  function MembersFailures(k: Keywords, fields: map<Units, Json>, keys: set<Units>, path: seq<Step>, root: Json,
                           depth: nat, e: Engine): set<Failure>
    requires depth <= MAX_DEPTH && keys <= fields.Keys
    decreases MAX_DEPTH + 1 - depth, 1, 0
  {
    set key, f | key in keys && f in MemberFailures(k, key, fields[key], path, root, depth, e) :: f
  }

  function ItemFailures(k: Keywords, i: nat, v: Json, path: seq<Step>, root: Json, depth: nat, e: Engine): set<Failure>
    requires depth <= MAX_DEPTH
    decreases MAX_DEPTH + 1 - depth, 0
  {
    if k.items.None? then {} else Failures(k.items.value, v, path + [Item(i)], root, depth + 1, e)
  }

  function MemberFailures(k: Keywords, key: Units, v: Json, path: seq<Step>, root: Json, depth: nat,
                          e: Engine): set<Failure>
    requires depth <= MAX_DEPTH
    decreases MAX_DEPTH + 1 - depth, 0
  {
    if Unsafe(key) then {Failure(path, UnsafeKey)}
    else match Child(k, key)
    case None => {}
    case Some(child) => Failures(child, v, path + [Member(key)], root, depth + 1, e)
  }

  lemma NoParts(k: Keywords, v: Json, path: seq<Step>, root: Json, depth: nat, e: Engine)
    requires depth <= MAX_DEPTH
    ensures v.Array? ==> ItemsFailures(k, v.items, 0, path, root, depth, e) == {}
    ensures v.Object? ==> MembersFailures(k, v.fields, v.fields.Keys - v.fields.Keys, path, root, depth, e) == {}
  {
  }

  lemma OneMoreItem(k: Keywords, items: seq<Json>, n: nat, path: seq<Step>, root: Json, depth: nat, e: Engine)
    requires depth <= MAX_DEPTH && n < |items|
    ensures ItemsFailures(k, items, n + 1, path, root, depth, e)
         == ItemsFailures(k, items, n, path, root, depth, e) + ItemFailures(k, n, items[n], path, root, depth, e)
  {
    hide Failures, ItemFailures;
  }

  lemma OneMoreMember(k: Keywords, fields: map<Units, Json>, keys: set<Units>, key: Units, path: seq<Step>, root: Json,
                      depth: nat, e: Engine)
    requires depth <= MAX_DEPTH && keys <= fields.Keys && key in fields
    ensures MembersFailures(k, fields, keys + {key}, path, root, depth, e)
         == MembersFailures(k, fields, keys, path, root, depth, e)
           + MemberFailures(k, key, fields[key], path, root, depth, e)
  {
    hide Failures, MemberFailures;
  }

  /** What one member adds. */
  lemma MemberFailuresAre(k: Keywords, key: Units, v: Json, path: seq<Step>, root: Json, depth: nat, e: Engine)
    requires depth <= MAX_DEPTH
    ensures MemberFailures(k, key, v, path, root, depth, e) ==
      if Unsafe(key) then {Failure(path, UnsafeKey)}
      else if Child(k, key).None? then {}
      else Failures(Child(k, key).value, v, path + [Member(key)], root, depth + 1, e)
  {
    hide Failures, Child, Unsafe;
  }

  // ---- the validator as it runs --------------------------------------------

  /** Collects the failures of a value, part by part. */
  method Validate(schema: Json, v: Json, path: seq<Step>, root: Json, depth: nat,
                  e: Engine) returns (errors: set<Failure>)
    ensures errors == Failures(schema, v, path, root, depth, e)
    decreases MAX_DEPTH + 1 - depth, 1
  {
    hide OwnFailures, KeywordsOf, Resolve, KindAnswer, Typed;
    if depth > MAX_DEPTH {
      return {Failure(path, DepthLimit)};
    }
    if schema.Bool? {
      return if schema.b then {} else {Failure(path, Forbidden)};
    }
    if schema.Array? {
      errors := ValidateParts(KeywordsOf(map[]), v, path, root, depth, e);
      return;
    }
    if !schema.Object? {
      return Open(schema, v, path, e);
    }
    var k := KeywordsOf(schema.fields);
    if Odd(k) {
      return Open(schema, v, path, e);
    }
    if Truthy(k.reference) {
      var reference := TextIn(k.reference).value;
      if !Local(reference) {
        return {Failure(path, ExternalReference)};
      }
      var target := Resolve(root, Split(reference[2..]));
      if target.Elsewhere? {
        return Open(schema, v, path, e);
      }
      if target.Undefined? || !Truthy(Some(target.v)) {
        return {Failure(path, UnresolvedReference)};
      }
      errors := Validate(target.v, v, path, root, depth + 1, e);
      return;
    }
    if WrongKind(k, v, e) {
      return {Failure(path, KindFailure(k, v, e))};
    }
    errors := At(path, OwnFailures(k, v, e));
    var parts := ValidateParts(k, v, path, root, depth, e);
    errors := errors + parts;
  }

  method ValidateParts(k: Keywords, v: Json, path: seq<Step>, root: Json, depth: nat, e: Engine)
    returns (errors: set<Failure>)
    requires depth <= MAX_DEPTH
    ensures errors == PartFailures(k, v, path, root, depth, e)
    decreases MAX_DEPTH + 1 - depth, 0, 1
  {
    hide Failures, ItemsFailures, MembersFailures;
    errors := {};
    if v.Array? {
      errors := ValidateItems(k, v.items, path, root, depth, e);
    } else if v.Object? {
      errors := ValidateMembers(k, v.fields, path, root, depth, e);
    }
  }

  method ValidateItems(k: Keywords, items: seq<Json>, path: seq<Step>, root: Json, depth: nat, e: Engine)
    returns (errors: set<Failure>)
    requires depth <= MAX_DEPTH
    ensures errors == ItemsFailures(k, items, |items|, path, root, depth, e)
    decreases MAX_DEPTH + 1 - depth, 0, 0
  {
    hide Failures, ItemsFailures;
    errors := {};
    NoParts(k, Array(items), path, root, depth, e);
    for i := 0 to |items|
      invariant errors == ItemsFailures(k, items, i, path, root, depth, e)
    {
      OneMoreItem(k, items, i, path, root, depth, e);
      if k.items.Some? {
        var found := Validate(k.items.value, items[i], path + [Item(i)], root, depth + 1, e);
        errors := errors + found;
      }
    }
  }

  method ValidateMembers(k: Keywords, fields: map<Units, Json>, path: seq<Step>, root: Json, depth: nat, e: Engine)
    returns (errors: set<Failure>)
    requires depth <= MAX_DEPTH
    ensures errors == MembersFailures(k, fields, fields.Keys, path, root, depth, e)
    decreases MAX_DEPTH + 1 - depth, 0, 0
  {
    hide Failures, MembersFailures, MemberFailures, Child, Unsafe;
    errors := {};
    NoParts(k, Object(fields), path, root, depth, e);
    var todo := fields.Keys;
    while todo != {}
      invariant todo <= fields.Keys
      invariant errors == MembersFailures(k, fields, fields.Keys - todo, path, root, depth, e)
      decreases |todo|
    {
      var key :| key in todo;
      OneMoreMember(k, fields, fields.Keys - todo, key, path, root, depth, e);
      MemberFailuresAre(k, key, fields[key], path, root, depth, e);
      assert fields.Keys - (todo - {key}) == fields.Keys - todo + {key};
      todo := todo - {key};
      if Unsafe(key) {
        errors := errors + {Failure(path, UnsafeKey)};
      } else {
        var child := Child(k, key);
        if child.Some? {
          var found := Validate(child.value, fields[key], path + [Member(key)], root, depth + 1, e);
          errors := errors + found;
        }
      }
    }
    assert fields.Keys - todo == fields.Keys;
  }
}
