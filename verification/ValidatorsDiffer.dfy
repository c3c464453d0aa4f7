/** Where the JavaScript and the native validator part: the exact values. */
module ValidatorsDiffer {
  import opened Common
  import opened Json
  import opened JsonRoundTrip
  import opened ParsedValues
  import opened Schemas
  import opened JsValidator
  import opened ValidatorsAgree
  import NativeValidator

  /** Both validators judge a value under a schema alike, each as its side parses the two texts. */
  predicate SameVerdict(schema: Json, v: Json, e: Engine) {
    var rejected := Failures(JsRead(schema, e), JsRead(v, e), [], JsRead(schema, e), 0, e) != {};
    rejected != NativeValidator.Valid(NativeRead(schema, e), NativeRead(v, e), NativeRead(schema, e), 0, e)
  }

  /** No object anywhere has a key that both validators reject. */
  predicate NoUnsafe(v: Json) {
    match v
    case Array(items) => forall i :: 0 <= i < |items| ==> NoUnsafe(items[i])
    case Object(fields) => forall key :: key in fields ==> !Unsafe(key) && NoUnsafe(fields[key])
    case _ => true
  }

  predicate KeysWithin(v: Json, keys: set<Units>) {
    match v
    case Array(items) => forall i :: 0 <= i < |items| ==> KeysWithin(items[i], keys)
    case Object(fields) => forall key :: key in fields ==>
      (key in keys || Strange(key)) && KeysWithin(fields[key], keys)
    case _ => true
  }

  function AllKeys(v: Json): set<Units> {
    match v
    case Array(items) => set i, key | 0 <= i < |items| && key in AllKeys(items[i]) :: key
    case Object(fields) => fields.Keys + set outer, key | outer in fields && key in AllKeys(fields[outer]) :: key
    case _ => {}
  }

  lemma {:induction false} AllKeysSuffice(v: Json, keys: set<Units>)
    requires forall key :: key in AllKeys(v) ==> key in keys || Strange(key)
    ensures KeysWithin(v, keys)
  {
    hide Strange;
    match v {
      case Array(items) =>
        forall i | 0 <= i < |items| ensures KeysWithin(items[i], keys) {
          assert forall key :: key in AllKeys(items[i]) ==> key in AllKeys(v);
          AllKeysSuffice(items[i], keys);
        }
      case Object(fields) =>
        forall key | key in fields ensures (key in keys || Strange(key)) && KeysWithin(fields[key], keys) {
          assert forall inner :: inner in AllKeys(fields[key]) ==> inner in AllKeys(v);
          AllKeysSuffice(fields[key], keys);
        }
      case _ =>
    }
  }

  /** Some object at exactly that nesting has a key that JavaScript objects inherit. */
  predicate StrangeAt(v: Json, level: nat) {
    match v
    case Array(items) => level > 0 && exists i :: 0 <= i < |items| && StrangeAt(items[i], level - 1)
    case Object(fields) =>
      if level == 0 then exists key :: key in fields && Strange(key)
      else exists key :: key in fields && StrangeAt(fields[key], level - 1)
    case _ => false
  }

  lemma {:induction false} StrangeSomewhere(v: Json, depth: nat, limit: nat) returns (level: nat)
    requires !Ordinary(v, depth, limit)
    ensures depth + level <= limit && StrangeAt(v, level)
    decreases v
  {
    hide Strange;
    match v {
      case Array(items) =>
        var i :| 0 <= i < |items| && !Ordinary(items[i], depth + 1, limit);
        level := StrangeSomewhere(items[i], depth + 1, limit);
        level := level + 1;
      case Object(fields) =>
        if depth <= limit && exists key :: key in fields && Strange(key) {
          level := 0;
        } else {
          var key :| key in fields && !Ordinary(fields[key], depth + 1, limit);
          level := StrangeSomewhere(fields[key], depth + 1, limit);
          level := level + 1;
        }
    }
  }

  // ---- probes --------------------------------------------------------------

  /** A schema that descends some levels, through every key, to another. */
  function Chain(levels: nat, last: Json): Json {
    if levels == 0 then last
    else Object(map[Ascii("items") := Chain(levels - 1, last),
                    Ascii("additionalProperties") := Chain(levels - 1, last)])
  }

  /** A schema that allows some keys and no others. */
  function Closed(keys: set<Units>): Json {
    Object(map[Ascii("properties") := Rules(keys), Ascii("additionalProperties") := Bool(false)])
  }

  function Rules(keys: set<Units>): Json {
    Object(map key | key in keys :: Bool(true))
  }

  /** At the depth limit: a schema that names no property. */
  function NoProperties(): Json {
    Object(map[Ascii("properties") := Object(map[])])
  }

  function Only(items: Option<Json>, properties: Option<Json>, additional: Option<Json>): Keywords {
    Keywords(None, None, None, None, None, None, None, None, None, None, None, None, items, None, properties,
      additional)
  }

  /** Keyword names differ from the three of a probe by their length or their first letter. */
  lemma KeywordsDiffer()
    ensures |Ascii("$ref")| == |Ascii("type")| == |Ascii("enum")| == 4
    ensures |Ascii("const")| == |Ascii("items")| == 5 && Ascii("const") != Ascii("items")
    ensures |Ascii("pattern")| == |Ascii("minimum")| == |Ascii("maximum")| == 7
    ensures |Ascii("minItems")| == |Ascii("maxItems")| == |Ascii("required")| == 8
    ensures |Ascii("minLength")| == |Ascii("maxLength")| == 9
    ensures |Ascii("properties")| == 10 && |Ascii("uniqueItems")| == 11 && |Ascii("additionalProperties")| == 20
  {
    assert Ascii("const")[0] != Ascii("items")[0];
  }

  lemma ProbeKeywords(next: Json, properties: Json)
    ensures KeywordsOf(map[Ascii("items") := next, Ascii("additionalProperties") := next])
         == Only(Some(next), None, Some(next))
    ensures KeywordsOf(map[Ascii("properties") := properties, Ascii("additionalProperties") := Bool(false)])
         == Only(None, Some(properties), Some(Bool(false)))
    ensures KeywordsOf(map[Ascii("properties") := properties]) == Only(None, Some(properties), None)
  {
    hide Ascii;
    KeywordsDiffer();
  }

  predicate NoNullRules(properties: Option<Json>) {
    properties.Some? ==>
      properties.value.Object? && forall key :: key in properties.value.fields ==> properties.value.fields[key] != Null
  }

  lemma OnlyIsPlain(items: Option<Json>, properties: Option<Json>, additional: Option<Json>, e: Engine)
    requires NoNullRules(properties)
    ensures var k := Only(items, properties, additional);
      PlainNode(k, e) && !Truthy(k.reference) && !Truthy(JsKeywords(k, e).reference) && !Odd(k)
  {
  }

  lemma OnlyHasNoFailures(items: Option<Json>, properties: Option<Json>, additional: Option<Json>, v: Json, e: Engine)
    ensures var k := Only(items, properties, additional);
      && !WrongKind(k, v, e) && OwnFailures(k, v, e) == {} && NativeValidator.OwnValid(k, v, e)
  {
    hide Canonical, Texts, CodePoints, HasKind;
  }

  /** A schema object with these keywords alone is judged by its parts. */
  lemma OnlyParts(schema: Json, items: Option<Json>, properties: Option<Json>, additional: Option<Json>, v: Json,
                  path: seq<Step>, root: Json, depth: nat, e: Engine)
    requires schema.Object? && KeywordsOf(schema.fields) == Only(items, properties, additional) && depth <= MAX_DEPTH
    requires NoNullRules(properties)
    ensures var k := Only(items, properties, additional);
      && Failures(schema, v, path, root, depth, e) == PartFailures(k, v, path, root, depth, e)
      && NativeValidator.Valid(schema, v, root, depth, e) == NativeValidator.PartsValid(k, v, root, depth, e)
  {
    hide OwnFailures, WrongKind, NativeValidator.OwnValid, PartFailures, NativeValidator.PartsValid, KeywordsOf, Odd;
    var k := Only(items, properties, additional);
    OnlyIsPlain(items, properties, additional, e);
    OnlyHasNoFailures(items, properties, additional, v, e);
    AtEmpty(path, OwnFailures(k, v, e));
  }

  // ---- probes are plain and registered -------------------------------------

  lemma {:induction false} ChainIsPlain(levels: nat, last: Json, root: Json, depth: nat, e: Engine)
    requires Plain(last, root, depth + levels, e) && depth + levels <= MAX_DEPTH
    ensures Plain(Chain(levels, last), root, depth, e)
    decreases levels
  {
    hide Ascii, KeywordsOf, PlainNode, Resolve;
    if levels > 0 {
      var next := Chain(levels - 1, last);
      ChainIsPlain(levels - 1, last, root, depth + 1, e);
      ProbeKeywords(next, Null);
      OnlyIsPlain(Some(next), None, Some(next), e);
    }
  }

  lemma LastIsPlain(keys: set<Units>, root: Json, depth: nat, e: Engine)
    requires depth <= MAX_DEPTH
    ensures Plain(Closed(keys), root, depth, e) && Plain(NoProperties(), root, depth, e)
  {
    hide Ascii, KeywordsOf, PlainNode, Resolve;
    ProbeKeywords(Null, Rules(keys));
    ProbeKeywords(Null, Object(map[]));
    OnlyIsPlain(None, Some(Rules(keys)), Some(Bool(false)), e);
    OnlyIsPlain(None, Some(Object(map[])), None, e);
  }

  lemma InTheVocabulary(i: nat)
    requires i < |VOCABULARY|
    ensures InVocabulary(Ascii(VOCABULARY[i]))
  {
  }

  lemma ProbeNamesAreKnown()
    ensures InVocabulary(Ascii("items")) && InVocabulary(Ascii("properties"))
    ensures InVocabulary(Ascii("additionalProperties"))
    ensures InVocabulary(Ascii("type")) && InVocabulary(Ascii("maxLength")) && InVocabulary(Ascii("$ref"))
    ensures InVocabulary(Ascii("minLength")) && InVocabulary(Ascii("uniqueItems"))
  {
    hide InVocabulary, Ascii;
    InTheVocabulary(10);
    InTheVocabulary(8);
    InTheVocabulary(9);
    InTheVocabulary(6);
    InTheVocabulary(15);
    InTheVocabulary(2);
    InTheVocabulary(14);
    InTheVocabulary(13);
  }

  lemma NodeIsRegistered(next: Json, depth: nat, e: Engine)
    requires depth < MAX_DEPTH && Registered(next, depth + 1, e)
    ensures Registered(Object(map[Ascii("items") := next, Ascii("additionalProperties") := next]), depth, e)
  {
    hide Ascii, InVocabulary, Local;
    KeywordsDiffer();
    ProbeNamesAreKnown();
    GroupNamesDiffer();
  }

  lemma {:induction false} ChainIsRegistered(levels: nat, last: Json, depth: nat, e: Engine)
    requires Registered(last, depth + levels, e) && depth + levels <= MAX_DEPTH
    ensures Registered(Chain(levels, last), depth, e)
    decreases levels
  {
    hide Ascii, Registered;
    if levels > 0 {
      ChainIsRegistered(levels - 1, last, depth + 1, e);
      NodeIsRegistered(Chain(levels - 1, last), depth, e);
    }
  }

  lemma ClosedIsRegistered(keys: set<Units>, depth: nat, e: Engine)
    requires depth < MAX_DEPTH
    ensures Registered(Closed(keys), depth, e)
  {
    hide Ascii, InVocabulary, Local;
    KeywordsDiffer();
    ProbeNamesAreKnown();
    GroupNamesDiffer();
  }

  lemma NoPropertiesIsRegistered(depth: nat, e: Engine)
    requires depth <= MAX_DEPTH
    ensures Registered(NoProperties(), depth, e)
  {
    hide Ascii, InVocabulary, Local;
    KeywordsDiffer();
    ProbeNamesAreKnown();
    GroupNamesDiffer();
  }

  lemma GroupNamesDiffer()
    ensures |Ascii("definitions")| == 11 && |Ascii("$defs")| == 5
    ensures Ascii("$defs") != Ascii("items") && Ascii("$defs") != Ascii("const")
    ensures Ascii("definitions") != Ascii("uniqueItems")
  {
    assert Ascii("definitions")[0] != Ascii("uniqueItems")[0];
    assert Ascii("$defs")[0] != Ascii("items")[0] && Ascii("$defs")[0] != Ascii("const")[0];
  }

  /** A schema without numbers is the same after either parsing. */
  predicate Stays(v: Json, e: Engine) {
    JsRead(v, e) == v && NativeRead(v, e) == v && Parsable(v, e)
  }

  lemma FieldsStay(fields: map<Units, Json>, e: Engine)
    requires forall key :: key in fields ==> Paired(key) && Stays(fields[key], e)
    ensures Stays(Object(fields), e)
  {
    hide AsDouble, AsNative, Paired;
    forall key | key in fields
      ensures JsRead(Object(fields), e).fields[key] == fields[key] == NativeRead(Object(fields), e).fields[key]
    {
      assert Stays(fields[key], e);
    }
    assert JsRead(Object(fields), e).fields == fields && NativeRead(Object(fields), e).fields == fields;
  }

  lemma BoolsStay(e: Engine)
    ensures forall b :: Stays(Bool(b), e)
  {
  }

  lemma {:induction false} PlainUnits(s: Units)
    requires forall i :: 0 <= i < |s| ==> s[i] < 0xD800
    ensures Paired(s) && CodePoints(s) == |s|
    decreases |s|
  {
    if s != [] { PlainUnits(s[1..]); }
  }

  lemma NamesArePaired(name: string)
    ensures Paired(Ascii(name))
  {
    hide Paired;
    PlainUnits(Ascii(name));
  }

  lemma ProbeNamesArePaired()
    ensures Paired(Ascii("items")) && Paired(Ascii("additionalProperties")) && Paired(Ascii("properties"))
  {
    hide Paired, Ascii;
    NamesArePaired("items");
    NamesArePaired("additionalProperties");
    NamesArePaired("properties");
  }

  lemma {:induction false} ChainStays(levels: nat, last: Json, e: Engine)
    requires Stays(last, e)
    ensures Stays(Chain(levels, last), e)
  {
    hide Ascii, Stays, Paired;
    if levels > 0 {
      ChainStays(levels - 1, last, e);
      ProbeNamesArePaired();
      FieldsStay(Chain(levels, last).fields, e);
    }
  }

  lemma LastStays(keys: set<Units>, e: Engine)
    requires forall key :: key in keys ==> Paired(key)
    ensures Stays(Closed(keys), e) && Stays(NoProperties(), e)
  {
    hide Ascii, Stays, Paired;
    BoolsStay(e);
    ProbeNamesArePaired();
    FieldsStay(Rules(keys).fields, e);
    FieldsStay(Closed(keys).fields, e);
    FieldsStay(map[], e);
    FieldsStay(NoProperties().fields, e);
  }

  lemma {:induction false} ChainNests(levels: nat, last: Json, room: nat)
    requires Nests(last, 2) && levels + 2 <= room
    ensures Nests(Chain(levels, last), room)
    decreases levels
  {
    hide Ascii;
    if levels > 0 {
      ChainNests(levels - 1, last, room - 1);
    } else {
      NestsDeeper(last, 2, room);
    }
  }

  lemma {:induction false} NestsDeeper(v: Json, levels: nat, more: nat)
    requires Nests(v, levels) && levels <= more
    ensures Nests(v, more)
    decreases v
  {
    match v {
      case Array(items) => forall i | 0 <= i < |items| { NestsDeeper(items[i], levels - 1, more - 1); }
      case Object(fields) => forall key | key in fields { NestsDeeper(fields[key], levels - 1, more - 1); }
      case _ =>
    }
  }

  lemma FlatNests(fields: map<Units, Json>)
    requires forall key :: key in fields ==> fields[key].Bool?
    ensures Nests(Object(fields), 1)
  {
  }

  lemma LastNests(keys: set<Units>)
    ensures Nests(Closed(keys), 2) && Nests(NoProperties(), 2)
  {
    hide Ascii;
    FlatNests(Rules(keys).fields);
    FlatNests(map[]);
  }

  // ---- what the validators make of a probe ---------------------------------

  /** A rule without keywords accepts what has no unsafe keys. */
  lemma NoRuleAccepts(v: Json, path: seq<Step>, root: Json, depth: nat, e: Engine)
    requires NoUnsafe(v) && depth <= MAX_DEPTH
    ensures Failures(Object(map[]), v, path, root, depth, e) == {}
  {
    hide Ascii, KeywordsOf, Unsafe, NativeValidator.PartsValid;
    EmptyKeywords(e);
    OnlyParts(Object(map[]), None, None, None, v, path, root, depth, e);
    var k := Only(None, None, None);
    match v {
      case Array(items) => ItemsEmpty(k, items, path, root, depth, e);
      case Object(fields) => MembersEmpty(k, fields, path, root, depth, e);
      case _ =>
    }
  }

  lemma ChainParts(levels: nat, last: Json, v: Json, path: seq<Step>, root: Json, depth: nat, e: Engine)
    requires levels > 0 && depth <= MAX_DEPTH
    ensures var next := Some(Chain(levels - 1, last));
      && Failures(Chain(levels, last), v, path, root, depth, e)
        == PartFailures(Only(next, None, next), v, path, root, depth, e)
      && NativeValidator.Valid(Chain(levels, last), v, root, depth, e)
        == NativeValidator.PartsValid(Only(next, None, next), v, root, depth, e)
  {
    hide Ascii, KeywordsOf, Failures, PartFailures, NativeValidator.Valid, NativeValidator.PartsValid;
    var next := Chain(levels - 1, last);
    ProbeKeywords(next, Null);
    OnlyParts(Chain(levels, last), Some(next), None, Some(next), v, path, root, depth, e);
  }

  /** A closed schema as the two sides read it: JavaScript finds a rule for inherited names, the native side none. */
  lemma ClosedVerdicts(keys: set<Units>, v: Json, path: seq<Step>, root: Json, depth: nat, e: Engine)
    requires KeysWithin(v, keys) && NoUnsafe(v) && depth < MAX_DEPTH
    requires forall key :: key in keys ==> !Strange(key)
    ensures Failures(Closed(keys), v, path, root, depth, e) == {}
    ensures StrangeAt(v, 0) ==> !NativeValidator.Valid(Closed(keys), v, root, depth, e)
  {
    hide Ascii, KeywordsOf, Unsafe, Inherited, Failures, NativeValidator.Valid;
    var k := Only(None, Some(Rules(keys)), Some(Bool(false)));
    ProbeKeywords(Null, Rules(keys));
    OnlyParts(Closed(keys), None, Some(Rules(keys)), Some(Bool(false)), v, path, root, depth, e);
    BoolVerdicts(root, depth + 1, e);
    match v {
      case Array(items) => ItemsEmpty(k, items, path, root, depth, e);
      case Object(fields) =>
        forall key | key in fields ensures MemberFailures(k, key, fields[key], path, root, depth, e) == {} {
          if key !in keys { NoRuleAccepts(fields[key], path + [Member(key)], root, depth + 1, e); }
        }
        MembersEmpty(k, fields, path, root, depth, e);
        if key :| key in fields && Strange(key) {
          assert NativeValidator.Rule(k, key) == Some(Bool(false));
        }
      case _ =>
    }
  }

  lemma BoolVerdicts(root: Json, depth: nat, e: Engine)
    ensures forall v :: !NativeValidator.Valid(Bool(false), v, root, depth, e)
    ensures depth <= MAX_DEPTH ==> forall v, path :: Failures(Bool(true), v, path, root, depth, e) == {}
  {
  }

  lemma {:induction false} ClosedChainVerdicts(levels: nat, keys: set<Units>, v: Json, path: seq<Step>, root: Json,
                                               depth: nat, e: Engine)
    requires KeysWithin(v, keys) && NoUnsafe(v) && depth + levels < MAX_DEPTH
    requires forall key :: key in keys ==> !Strange(key)
    ensures Failures(Chain(levels, Closed(keys)), v, path, root, depth, e) == {}
    ensures StrangeAt(v, levels) ==> !NativeValidator.Valid(Chain(levels, Closed(keys)), v, root, depth, e)
    decreases levels
  {
    hide Failures, NativeValidator.Valid, Unsafe, Inherited, Closed, Strange;
    if levels == 0 {
      ClosedVerdicts(keys, v, path, root, depth, e);
    } else {
      var next := Some(Chain(levels - 1, Closed(keys)));
      ChainParts(levels, Closed(keys), v, path, root, depth, e);
      match v {
        case Array(items) =>
          forall i | 0 <= i < |items| {
            ClosedChainVerdicts(levels - 1, keys, items[i], path + [Item(i)], root, depth + 1, e);
          }
          ItemsEmpty(Only(next, None, next), items, path, root, depth, e);
        case Object(fields) =>
          forall key | key in fields {
            ClosedChainVerdicts(levels - 1, keys, fields[key], path + [Member(key)], root, depth + 1, e);
          }
          MembersEmpty(Only(next, None, next), fields, path, root, depth, e);
        case _ =>
      }
    }
  }

  /** At the depth limit an inherited name is looked up as a rule, one level too deep; natively there is no rule. */
  lemma NoPropertiesVerdicts(v: Json, path: seq<Step>, root: Json, e: Engine)
    requires NoUnsafe(v)
    ensures NativeValidator.Valid(NoProperties(), v, root, MAX_DEPTH, e)
    ensures StrangeAt(v, 0) ==> Failures(NoProperties(), v, path, root, MAX_DEPTH, e) != {}
  {
    hide KeywordsOf, Ascii, Unsafe;
    var k := Only(None, Some(Object(map[])), None);
    ProbeKeywords(Null, Object(map[]));
    OnlyParts(NoProperties(), None, Some(Object(map[])), None, v, path, root, MAX_DEPTH, e);
    if StrangeAt(v, 0) {
      var key :| key in v.fields && Strange(key);
      assert MemberFailures(k, key, v.fields[key], path, root, MAX_DEPTH, e) != {};
      MembersEmpty(k, v.fields, path, root, MAX_DEPTH, e);
    }
  }

  lemma {:induction false} DeepChainVerdicts(levels: nat, v: Json, path: seq<Step>, root: Json, depth: nat, e: Engine)
    requires NoUnsafe(v) && depth + levels == MAX_DEPTH
    ensures NativeValidator.Valid(Chain(levels, NoProperties()), v, root, depth, e)
    ensures StrangeAt(v, levels) ==> Failures(Chain(levels, NoProperties()), v, path, root, depth, e) != {}
    decreases levels
  {
    hide Failures, NativeValidator.Valid, Unsafe, Inherited, NoProperties, Strange;
    if levels == 0 {
      NoPropertiesVerdicts(v, path, root, e);
    } else {
      var next := Some(Chain(levels - 1, NoProperties()));
      ChainParts(levels, NoProperties(), v, path, root, depth, e);
      match v {
        case Array(items) =>
          forall i | 0 <= i < |items| {
            DeepChainVerdicts(levels - 1, items[i], path + [Item(i)], root, depth + 1, e);
          }
          ItemsEmpty(Only(next, None, next), items, path, root, depth, e);
        case Object(fields) =>
          forall key | key in fields {
            DeepChainVerdicts(levels - 1, fields[key], path + [Member(key)], root, depth + 1, e);
          }
          MembersEmpty(Only(next, None, next), fields, path, root, depth, e);
        case _ =>
      }
    }
  }

  // ---- the depth limit -----------------------------------------------------

  /** A value in so many lists, one inside the other. */
  function Wrapped(v: Json, levels: nat): Json {
    if levels == 0 then v else Array([Wrapped(v, levels - 1)])
  }

  lemma {:induction false} ChainDescends(levels: nat, last: Json, v: Json, path: seq<Step>, root: Json, depth: nat,
                                         e: Engine) returns (inner: seq<Step>)
    requires depth + levels <= MAX_DEPTH + 1
    ensures Failures(Chain(levels, last), Wrapped(v, levels), path, root, depth, e) == {}
       <==> Failures(last, v, inner, root, depth + levels, e) == {}
    ensures NativeValidator.Valid(Chain(levels, last), Wrapped(v, levels), root, depth, e)
       <==> NativeValidator.Valid(last, v, root, depth + levels, e)
    decreases levels
  {
    hide Failures, NativeValidator.Valid, Chain;
    if levels > 0 {
      inner := ChainDescends(levels - 1, last, v, path + [Item(0)], root, depth + 1, e);
      OneLevelDown(levels, last, Wrapped(v, levels - 1), path, root, depth, e);
    } else {
      inner := path;
      NoChain(last);
    }
  }

  /** A chain judges a list of one item by that item, one link and one level further. */
  lemma OneLevelDown(levels: nat, last: Json, item: Json, path: seq<Step>, root: Json, depth: nat, e: Engine)
    requires levels > 0 && depth <= MAX_DEPTH
    ensures Failures(Chain(levels, last), Array([item]), path, root, depth, e) == {}
       <==> Failures(Chain(levels - 1, last), item, path + [Item(0)], root, depth + 1, e) == {}
    ensures NativeValidator.Valid(Chain(levels, last), Array([item]), root, depth, e)
       <==> NativeValidator.Valid(Chain(levels - 1, last), item, root, depth + 1, e)
  {
    hide Failures, NativeValidator.Valid, Chain;
    ChainParts(levels, last, Array([item]), path, root, depth, e);
    var next := Some(Chain(levels - 1, last));
    var k := Only(next, None, next);
    ItemsEmpty(k, [item], path, root, depth, e);
    assert [item][0] == item;
    assert ItemFailures(k, 0, item, path, root, depth, e)
        == Failures(Chain(levels - 1, last), item, path + [Item(0)], root, depth + 1, e);
    assert PartFailures(k, Array([item]), path, root, depth, e) == ItemsFailures(k, [item], 1, path, root, depth, e);
  }

  lemma NoChain(last: Json)
    ensures Chain(0, last) == last
  {
  }

  /** Both validators follow a schema 64 levels down, and give up one level deeper. */
  lemma SixtyFourLevelsAreJudged(last: Json, v: Json, e: Engine) returns (inner: seq<Step>)
    ensures var (schema, deep) := (Chain(64, last), Wrapped(v, 64));
      && (Failures(schema, deep, [], schema, 0, e) == {} <==> Failures(last, v, inner, schema, 64, e) == {})
      && (NativeValidator.Valid(schema, deep, schema, 0, e) <==> NativeValidator.Valid(last, v, schema, 64, e))
    ensures var (schema, deep) := (Chain(65, last), Wrapped(v, 65));
      && Failures(schema, deep, [], schema, 0, e) != {}
      && !NativeValidator.Valid(schema, deep, schema, 0, e)
  {
    hide Failures, NativeValidator.Valid, Chain, Wrapped;
    inner := ChainDescends(64, last, v, [], Chain(64, last), 0, e);
    var below := ChainDescends(65, last, v, [], Chain(65, last), 0, e);
    NothingBelow(last, v, below, Chain(65, last), e);
  }

  lemma NothingBelow(schema: Json, v: Json, path: seq<Step>, root: Json, e: Engine)
    ensures Failures(schema, v, path, root, 65, e) != {} && !NativeValidator.Valid(schema, v, root, 65, e)
  {
    assert Failure(path, DepthLimit) in Failures(schema, v, path, root, 65, e);
  }

  // ---- constants -----------------------------------------------------------

  function Exactly(constant: Json): Json {
    Object(map[Ascii("const") := constant])
  }

  lemma ExactlyKeywords(constant: Json)
    ensures KeywordsOf(Exactly(constant).fields) == Only(None, None, None).(constant := Some(constant))
  {
    hide Ascii;
    KeywordsDiffer();
  }

  lemma ExactlyIsRegistered(constant: Json, e: Engine)
    ensures Registered(Exactly(constant), 0, e)
  {
    hide Ascii, InVocabulary, Local;
    KeywordsDiffer();
    GroupNamesDiffer();
    InTheVocabulary(19);
  }

  lemma ExactlyIsPlain(constant: Json, root: Json, e: Engine)
    requires AllSteady(constant, e)
    ensures Plain(Exactly(constant), root, 0, e)
  {
    hide Ascii, KeywordsOf, AllSteady, JsRead, NativeRead;
    ExactlyKeywords(constant);
  }

  /** A schema that asks for a constant is judged by equality alone: of canonical texts here, of values there. */
  lemma ExactlyVerdicts(constant: Json, v: Json, e: Engine)
    requires NoUnsafe(v)
    ensures Failures(Exactly(constant), v, [], Exactly(constant), 0, e) == {} <==> Canonical(v) == Canonical(constant)
    ensures NativeValidator.Valid(Exactly(constant), v, Exactly(constant), 0, e) <==> v == constant
  {
    hide KeywordsOf, Ascii, Inherited, Canonical, Texts, CodePoints, Unsafe;
    ExactlyKeywords(constant);
    var k := KeywordsOf(Exactly(constant).fields);
    AtEmpty([], OwnFailures(k, v, e));
    match v {
      case Array(items) => ItemsEmpty(k, items, [], Exactly(constant), 0, e);
      case Object(fields) => MembersEmpty(k, fields, [], Exactly(constant), 0, e);
      case _ =>
    }
  }

  lemma OneFieldReads(key: Units, value: Json, e: Engine)
    ensures JsRead(Object(map[key := value]), e) == Object(map[key := JsRead(value, e)])
    ensures NativeRead(Object(map[key := value]), e) == Object(map[key := NativeRead(value, e)])
    ensures Parsable(Object(map[key := value]), e) <==> Paired(key) && Parsable(value, e)
    ensures forall levels: nat :: Nests(value, levels) ==> Nests(Object(map[key := value]), levels + 1)
  {
    var fields := map[key := value];
    assert JsRead(Object(fields), e).fields == map[key := JsRead(value, e)];
    assert NativeRead(Object(fields), e).fields == map[key := NativeRead(value, e)];
    assert fields[key] == value;
  }

  lemma {:induction false} KeysSurviveParsing(v: Json, depth: nat, limit: nat, e: Engine)
    ensures NoUnsafe(v) ==> NoUnsafe(JsRead(v, e)) && NoUnsafe(NativeRead(v, e))
    ensures Ordinary(JsRead(v, e), depth, limit) <==> Ordinary(v, depth, limit)
    decreases v
  {
    hide Unsafe, Strange, AsDouble, AsNative;
    match v {
      case Array(items) =>
        forall i | 0 <= i < |items| { KeysSurviveParsing(items[i], depth + 1, limit, e); }
        forall i | 0 <= i < |items| ensures JsRead(v, e).items[i] == JsRead(items[i], e) {
        }
      case Object(fields) =>
        forall key | key in fields { KeysSurviveParsing(fields[key], depth + 1, limit, e); }
        forall key | key in fields ensures JsRead(v, e).fields[key] == JsRead(fields[key], e) {
        }
      case _ =>
    }
  }

  lemma {:induction false} NestingSurvivesParsing(v: Json, levels: nat, e: Engine)
    requires Nests(v, levels)
    ensures Nests(JsRead(v, e), levels)
    decreases v
  {
    hide AsDouble;
    match v {
      case Array(items) => forall i | 0 <= i < |items| { NestingSurvivesParsing(items[i], levels - 1, e); }
      case Object(fields) => forall key | key in fields { NestingSurvivesParsing(fields[key], levels - 1, e); }
      case _ =>
    }
  }

  /** A value with a number that is read apart is told from what JavaScript prints for it, but only natively. */
  lemma UnsteadyValuesSplit(v: Json, e: Engine)
    requires Parsable(v, e) && Nests(v, MAX_LEVELS - 1) && NoUnsafe(v) && Sane(e) && !AllSteady(v, e)
    ensures var schema := Exactly(JsRead(v, e)); PlainText(schema, e) && !SameVerdict(schema, v, e)
  {
    hide Failures, NativeValidator.Valid, Plain, Ordinary, NoUnsafe, Registered, Canonical, Ascii, AllSteady, JsRead,
         NativeRead, Parsable, JsValue, Sane, Nests, Paired;
    ParsedOnce(v, e);
    JsValuesAreRead(JsRead(v, e), e);
    SteadyValuesReadAlike(v, e);
    SteadyValuesReadAlike(JsRead(v, e), e);
    NamesArePaired("const");
    NestingSurvivesParsing(v, MAX_LEVELS - 1, e);
    OneFieldReads(Ascii("const"), JsRead(v, e), e);
    ExactlyIsRegistered(JsRead(v, e), e);
    ExactlyIsPlain(JsRead(v, e), Exactly(JsRead(v, e)), e);
    KeysSurviveParsing(v, 0, 0, e);
    ExactlyVerdicts(JsRead(v, e), JsRead(v, e), e);
    ExactlyVerdicts(JsRead(v, e), NativeRead(v, e), e);
  }

  /** A constant is judged alike exactly when no number in it is read apart. */
  lemma ConstantsAgreeExactly(constant: Json, e: Engine)
    requires Parsable(constant, e) && NoUnsafe(constant) && Sane(e)
    ensures (forall v :: Parsable(v, e) && NoUnsafe(v) && AllSteady(v, e) ==> SameVerdict(Exactly(constant), v, e))
       <==> AllSteady(constant, e)
  {
    hide Failures, NativeValidator.Valid, NoUnsafe, Canonical, Ascii, AllSteady, JsRead, NativeRead, Parsable, JsValue,
         Ordinary, Sane;
    OneFieldReads(Ascii("const"), constant, e);
    SteadyValuesReadAlike(constant, e);
    ParsedOnce(constant, e);
    JsValuesAreRead(JsRead(constant, e), e);
    if AllSteady(constant, e) {
      forall v | Parsable(v, e) && NoUnsafe(v) && AllSteady(v, e) ensures SameVerdict(Exactly(constant), v, e) {
        SteadyValuesReadAlike(v, e);
        ParsedOnce(v, e);
        JsValuesAreRead(JsRead(v, e), e);
        KeysSurviveParsing(v, 0, 0, e);
        ExactlyVerdicts(JsRead(constant, e), JsRead(v, e), e);
        CanonicalIsInjective(JsRead(v, e), JsRead(constant, e));
      }
    } else {
      var v := JsRead(constant, e);
      SteadyValuesReadAlike(v, e);
      KeysSurviveParsing(constant, 0, 0, e);
      ExactlyVerdicts(JsRead(constant, e), v, e);
      ExactlyVerdicts(NativeRead(constant, e), v, e);
      assert !SameVerdict(Exactly(constant), v, e);
    }
  }

  // ---- numbers that are read apart -----------------------------------------

  lemma FirstRounding()
    ensures Nearest(PRECISION + 1) == Nearest(PRECISION) == PRECISION
  {
    hide HasMultiple;
    assert Spacing(PRECISION, 1) == Spacing(PRECISION, 2) == 2;
    assert Spacing(PRECISION + 1, 1) == Spacing(PRECISION + 1, 2) == 2;
  }

  /** No rounder number stands for the first double that has neighbours two apart. */
  lemma FirstIsNotShortened()
    ensures !HasMultiple(PRECISION, 10)
  {
    hide Spacing;
    assert Below(PRECISION, 10) == 9_007_199_254_740_990;
    SmallNumbersAreDoubles(9_007_199_254_740_990);
    NextDouble();
  }

  lemma NextDouble()
    ensures Nearest(9_007_199_254_741_000) == 9_007_199_254_741_000
  {
    assert Spacing(9_007_199_254_741_000, 1) == Spacing(9_007_199_254_741_000, 2) == 2;
  }

  /** The least whole number that is no double is the double before it in JavaScript. */
  lemma FirstRoundedNumber(e: Engine)
    ensures AsDouble(Int(PRECISION + 1), e) == Int(PRECISION) && AsDouble(Int(PRECISION), e) == Int(PRECISION)
  {
    hide HasMultiple, Nearest;
    FirstRounding();
    FirstIsNotShortened();
  }

  lemma RoundedNumbersSplit(e: Engine)
    ensures !SameVerdict(Exactly(Number(Int(9_007_199_254_740_992))), Number(Int(9_007_199_254_740_993)), e)
  {
    hide Ascii, Failures, NativeValidator.Valid, Canonical, AsDouble;
    var constant, v := Number(Int(PRECISION)), Number(Int(PRECISION + 1));
    FirstRoundedNumber(e);
    OneFieldReads(Ascii("const"), constant, e);
    ExactlyVerdicts(JsRead(constant, e), JsRead(v, e), e);
    ExactlyVerdicts(NativeRead(constant, e), NativeRead(v, e), e);
  }

  /** A word in another spelling, as with a fraction of zero, is that word in JavaScript and a double natively. */
  lemma SpelledNumbersSplit(token: Units, n: int, e: Engine)
    requires AsDouble(Other(token), e) == Int(n) == AsDouble(Int(n), e) && FitsWord(n)
    ensures !SameVerdict(Exactly(Number(Int(n))), Number(Other(token)), e)
  {
    hide Ascii, Failures, NativeValidator.Valid, Canonical, AsDouble;
    var constant, v := Number(Int(n)), Number(Other(token));
    OneFieldReads(Ascii("const"), constant, e);
    ExactlyVerdicts(JsRead(constant, e), JsRead(v, e), e);
    ExactlyVerdicts(NativeRead(constant, e), NativeRead(v, e), e);
  }

  /** Zero with a sign is no plain zero to the reader, zero in JavaScript and a double natively. */
  lemma NegativeZeroSplits(e: Engine)
    ensures IsNumber([MINUS, ZERO]) && NumOf([MINUS, ZERO]) == Other([MINUS, ZERO])
    ensures !SameVerdict(Exactly(Number(Int(0))), Number(Other([MINUS, ZERO])), e)
  {
    hide SameVerdict, Exactly;
    var token: Units := [MINUS, ZERO];
    assert token[1..] == [ZERO] && [ZERO][1..] == [];
    assert Digits([ZERO]) == 1 && DecimalValue([ZERO]) == 0 by { assert [ZERO][..0] == []; }
    SmallNumbersArePrinted(0);
    SpelledNumbersSplit(token, 0, e);
  }

  // ---- exactly when they agree ---------------------------------------------

  /** A registered plain schema that both sides can parse. */
  ghost predicate PlainText(schema: Json, e: Engine) {
    && Parsable(schema, e) && Nests(schema, MAX_LEVELS)
    && Registered(JsRead(schema, e), 0, e) && Plain(schema, schema, 0, e)
  }

  ghost predicate AgreeOnPlainSchemas(v: Json, e: Engine) {
    forall schema :: PlainText(schema, e) ==> SameVerdict(schema, v, e)
  }

  /**
   * On a value without unsafe keys, which a schema can name whole, the two validators agree under every
   * registered plain schema exactly when no object down to the depth limit has a key that JavaScript objects
   * inherit, and both sides read every number alike.
   */
  lemma AgreementIsExact(v: Json, e: Engine)
    requires Parsable(v, e) && Nests(v, MAX_LEVELS - 1) && NoUnsafe(v) && Sane(e)
    ensures AgreeOnPlainSchemas(v, e) <==> Ordinary(v, 0, MAX_DEPTH) && AllSteady(v, e)
  {
    hide Failures, NativeValidator.Valid, PlainText, Ordinary, Parsable, NoUnsafe, AllSteady, JsRead, NativeRead,
         JsValue, Sane, Nests;
    if !AllSteady(v, e) {
      UnsteadyValuesSplit(v, e);
    } else {
      SteadyValuesReadAlike(v, e);
      ParsedOnce(v, e);
      KeysSurviveParsing(v, 0, MAX_DEPTH, e);
      if Ordinary(v, 0, MAX_DEPTH) {
        forall schema | PlainText(schema, e) ensures SameVerdict(schema, v, e) {
          OrdinaryValuesAgree(schema, v, e);
        }
      } else {
        var probe := InheritedNamesSplit(JsRead(v, e), e);
        assert !SameVerdict(probe, v, e);
      }
    }
  }

  lemma OrdinaryValuesAgree(schema: Json, v: Json, e: Engine)
    requires PlainText(schema, e) && Sane(e) && JsValue(JsRead(v, e), e) && NativeRead(v, e) == JsRead(v, e)
    requires Ordinary(JsRead(v, e), 0, MAX_DEPTH)
    ensures SameVerdict(schema, v, e)
  {
    hide Failures, NativeValidator.Valid, Ordinary, Parsable, JsRead, NativeRead, JsValue, Plain, Registered, Sane,
         Nests;
    Agree(schema, JsRead(v, e), [], schema, 0, e);
  }

  lemma {:induction false} KeysArePaired(v: Json, e: Engine)
    requires JsValue(v, e)
    ensures forall key :: key in AllKeys(v) ==> Paired(key)
  {
    hide IsPrinted, Paired;
    match v {
      case Array(items) => forall i | 0 <= i < |items| { KeysArePaired(items[i], e); }
      case Object(fields) => forall key | key in fields { KeysArePaired(fields[key], e); }
      case _ =>
    }
  }

  /** A value with an inherited name within the depth limit is judged differently under some probe. */
  lemma InheritedNamesSplit(v: Json, e: Engine) returns (probe: Json)
    requires JsValue(v, e) && NoUnsafe(v) && !Ordinary(v, 0, MAX_DEPTH)
    ensures PlainText(probe, e) && Stays(probe, e)
    ensures !(Failures(probe, v, [], probe, 0, e) == {} <==> NativeValidator.Valid(probe, v, probe, 0, e))
  {
    hide Failures, NativeValidator.Valid, Plain, Ordinary, Parsable, Strange, NoUnsafe, KeysWithin, AllKeys, Chain,
         Closed, NoProperties, Registered, JsRead, NativeRead, JsValue, StrangeAt, Nests, Paired;
    var level := StrangeSomewhere(v, 0, MAX_DEPTH);
    var keys := set key | key in AllKeys(v) && !Strange(key);
    AllKeysSuffice(v, keys);
    KeysArePaired(v, e);
    LastStays(keys, e);
    LastNests(keys);
    var last := if level < MAX_DEPTH then Closed(keys) else NoProperties();
    probe := Chain(level, last);
    LastIsPlain(keys, probe, level, e);
    ChainIsPlain(level, last, probe, 0, e);
    if level < MAX_DEPTH { ClosedIsRegistered(keys, level, e); } else { NoPropertiesIsRegistered(level, e); }
    ChainIsRegistered(level, last, 0, e);
    ChainStays(level, last, e);
    ChainNests(level, last, MAX_LEVELS);
    if level < MAX_DEPTH {
      ClosedChainVerdicts(level, keys, v, [], probe, 0, e);
    } else {
      DeepChainVerdicts(level, v, [], probe, 0, e);
    }
  }
}
