/** When the JavaScript and the native validator decide the same. */
module ValidatorsAgree {
  import opened Common
  import opened Json
  import opened JsonRoundTrip
  import opened ParsedValues
  import opened Schemas
  import opened JsValidator
  import NativeValidator

  // ---- keywords as parsed --------------------------------------------------

  /** The keywords of a schema object as JavaScript parses them. */
  function JsKeywords(k: Keywords, e: Engine): Keywords {
    Keywords(
      JsIn(k.reference, e), JsIn(k.kind, e), JsIn(k.constant, e), JsIn(k.options, e), JsIn(k.minLength, e),
      JsIn(k.maxLength, e), JsIn(k.pattern, e), JsIn(k.minimum, e), JsIn(k.maximum, e), JsIn(k.minItems, e),
      JsIn(k.maxItems, e), JsIn(k.uniqueItems, e), JsIn(k.items, e), JsIn(k.required, e), JsIn(k.properties, e),
      JsIn(k.additional, e))
  }

  /** The same keywords as the native side parses them. */
  function NativeKeywords(k: Keywords, e: Engine): Keywords {
    Keywords(
      NativeIn(k.reference, e), NativeIn(k.kind, e), NativeIn(k.constant, e), NativeIn(k.options, e),
      NativeIn(k.minLength, e), NativeIn(k.maxLength, e), NativeIn(k.pattern, e), NativeIn(k.minimum, e),
      NativeIn(k.maximum, e), NativeIn(k.minItems, e), NativeIn(k.maxItems, e), NativeIn(k.uniqueItems, e),
      NativeIn(k.items, e), NativeIn(k.required, e), NativeIn(k.properties, e), NativeIn(k.additional, e))
  }

  lemma KeywordsRead(fields: map<Units, Json>, e: Engine)
    ensures KeywordsOf(JsRead(Object(fields), e).fields) == JsKeywords(KeywordsOf(fields), e)
    ensures KeywordsOf(NativeRead(Object(fields), e).fields) == NativeKeywords(KeywordsOf(fields), e)
  {
    hide Ascii, JsRead, NativeRead, JsIn, NativeIn;
    assert JsRead(Object(fields), e).Object? && NativeRead(Object(fields), e).Object? by { ObjectsStay(fields, e); }
    forall key
      ensures Lookup(JsRead(Object(fields), e).fields, key) == JsIn(Lookup(fields, key), e)
      ensures Lookup(NativeRead(Object(fields), e).fields, key) == NativeIn(Lookup(fields, key), e)
    {
      FieldsRead(fields, key, e);
    }
  }

  lemma ObjectsStay(fields: map<Units, Json>, e: Engine)
    ensures JsRead(Object(fields), e).Object? && NativeRead(Object(fields), e).Object?
  {
  }

  // ---- plain schemas -------------------------------------------------------

  /** A type name both validators read alike: not empty, and no function that answers yes to some value. */
  predicate Fair(name: Units) {
    name != [] && !Indulgent(name) && !LooksUpTypes(name) && !LooksUpAccessors(name)
  }

  lemma KindsAreShort(name: Units)
    ensures IsKind(name) ==> |name| < 8 && (|name| == 7 ==> name[0] != Ascii("valueOf")[0])
  {
  }

  lemma InheritedNamesAreLong(name: Units)
    ensures Inherited(name) ==> |name| >= 8 || (name == Ascii("valueOf") && |name| == 7)
  {
  }

  /** No name that objects inherit is the name of a type. */
  lemma InheritedIsNoKind(name: Units, v: Json, e: Engine)
    requires Inherited(name)
    ensures !HasKind(v, name, e)
  {
    hide Ascii, Inherited;
    KindsAreShort(name);
    InheritedNamesAreLong(name);
  }

  lemma KindsAgree(name: Units, v: Json, e: Engine)
    requires Fair(name)
    ensures AnswerOf(name, v, e) == Yes <==> HasKind(v, name, e)
  {
    hide HasKind, Ascii;
    if Inherited(name) { InheritedIsNoKind(name, v, e); }
  }

  /** A limit natively taken for what it says. */
  predicate IsUnsigned(num: Num) {
    num.Int? && 0 <= num.n <= U64_MAX
  }

  /** A lower limit both validators read alike: a whole number within 64 bits, or one that nothing falls below. */
  predicate FairLow(limit: Option<Json>, e: Engine) {
    NumberIn(limit).Some? ==>
      IsUnsigned(NumberIn(limit).value) || !Less(Int(0), AsDouble(NumberIn(limit).value, e), e)
  }

  /** An upper limit both validators read alike: a whole number within 64 bits, or one that nothing exceeds. */
  predicate FairHigh(limit: Option<Json>, e: Engine) {
    NumberIn(limit).Some? ==>
      IsUnsigned(NumberIn(limit).value) || !Less(AsDouble(NumberIn(limit).value, e), Int(PRECISION - 1), e)
  }

  /** Options both validators read alike: what JavaScript reads one of them as, the native side reads one as. */
  predicate FairOptions(options: seq<Json>, e: Engine) {
    forall i :: 0 <= i < |options| ==>
      exists j :: 0 <= j < |options| && NativeRead(options[j], e) == JsRead(options[i], e)
  }

  /**
   * A schema object both validators read alike: keywords of their intended types, a fair type name, a constant
   * and options with no number read apart, fair limits, and no property rule that is null.
   */
  predicate PlainNode(k: Keywords, e: Engine) {
    var js := JsKeywords(k, e);
    && !Odd(js)
    && (Truthy(js.reference) ==> Local(TextIn(js.reference).value))
    && (!Truthy(js.reference) ==>
         && TextIn(js.reference).None?
         && (TextIn(js.kind).Some? ==> Fair(TextIn(js.kind).value))
         && (k.constant.Some? ==> AllSteady(k.constant.value, e))
         && FairOptions(ItemsIn(k.options), e)
         && FairLow(k.minLength, e) && FairHigh(k.maxLength, e)
         && FairLow(k.minItems, e) && FairHigh(k.maxItems, e)
         && (Truthy(js.uniqueItems) ==> k.uniqueItems == Some(Bool(true)))
         && (k.properties.Some? && k.properties.value.Object? ==>
              forall key :: key in k.properties.value.fields ==> k.properties.value.fields[key] != Null))
  }

  /** Every schema object that validation can reach within the depth limit is plain. */
  predicate Plain(schema: Json, root: Json, depth: nat, e: Engine)
    decreases MAX_DEPTH + 1 - depth
  {
    if depth > MAX_DEPTH then true
    else match schema
    case Bool(_) => true
    case Array(_) => true
    case Object(fields) =>
      var k := KeywordsOf(fields);
      && PlainNode(k, e)
      && if Truthy(JsKeywords(k, e).reference) then
           (match Resolve(root, Split(TextIn(JsKeywords(k, e).reference).value[2..]))
            case Undefined => true
            case Elsewhere => false
            case Found(target) => if Truthy(Some(JsRead(target, e))) then Plain(target, root, depth + 1, e)
              else target == Bool(false))
         else
           && (k.items.Some? ==> Plain(k.items.value, root, depth + 1, e))
           && (k.additional.Some? ==> Plain(k.additional.value, root, depth + 1, e))
           && (k.properties.Some? && k.properties.value.Object? ==>
                forall key :: key in k.properties.value.fields ==>
                  Plain(k.properties.value.fields[key], root, depth + 1, e))
    case _ => false
  }

  /** Inherited, but not among the names that are rejected anyway. */
  predicate Strange(key: Units) {
    Inherited(key) && !Unsafe(key)
  }

  /** No object down to a nesting depth has a key that JavaScript objects inherit. */
  predicate Ordinary(v: Json, depth: nat, limit: nat)
    decreases v
  {
    match v
    case Array(items) => forall i :: 0 <= i < |items| ==> Ordinary(items[i], depth + 1, limit)
    case Object(fields) =>
      && (depth <= limit ==> forall key :: key in fields ==> !Strange(key))
      && forall key :: key in fields ==> Ordinary(fields[key], depth + 1, limit)
    case _ => true
  }

  lemma {:induction false} OrdinaryDeeper(v: Json, depth: nat, limit: nat)
    requires Ordinary(v, depth, limit)
    ensures Ordinary(v, depth + 1, limit)
    decreases v
  {
    hide Strange;
    match v {
      case Array(items) =>
        forall i | 0 <= i < |items|
          ensures Ordinary(items[i], depth + 2, limit)
        {
          OrdinaryDeeper(items[i], depth + 1, limit);
        }
      case Object(fields) =>
        forall key | key in fields
          ensures Ordinary(fields[key], depth + 2, limit)
        {
          OrdinaryDeeper(fields[key], depth + 1, limit);
        }
      case _ =>
    }
  }

  // ---- one node ------------------------------------------------------------

  predicate ParsableIn(keyword: Option<Json>, e: Engine) {
    keyword.Some? ==> Parsable(keyword.value, e)
  }

  /** The keywords that numbers or schemas matter in can be parsed by both sides. */
  predicate ParsableKeywords(k: Keywords, e: Engine) {
    && ParsableIn(k.constant, e) && ParsableIn(k.options, e) && ParsableIn(k.items, e) && ParsableIn(k.additional, e)
    && ParsableIn(k.properties, e) && ParsableIn(k.minimum, e) && ParsableIn(k.maximum, e)
  }

  lemma KeywordsAreParsable(fields: map<Units, Json>, e: Engine)
    requires Parsable(Object(fields), e)
    ensures ParsableKeywords(KeywordsOf(fields), e)
  {
    hide Parsable, Ascii;
    FieldIsParsable(fields, Ascii("const"), e);
    FieldIsParsable(fields, Ascii("enum"), e);
    FieldIsParsable(fields, Ascii("items"), e);
    FieldIsParsable(fields, Ascii("minimum"), e);
    FieldIsParsable(fields, Ascii("maximum"), e);
    FieldIsParsable(fields, Ascii("properties"), e);
    FieldIsParsable(fields, Ascii("additionalProperties"), e);
  }

  lemma FieldIsParsable(fields: map<Units, Json>, key: Units, e: Engine)
    requires Parsable(Object(fields), e)
    ensures ParsableIn(Lookup(fields, key), e)
  {
  }

  lemma OptionsAgree(v: Json, options: seq<Json>)
    requires WellFormed(v) && forall i :: 0 <= i < |options| ==> WellFormed(options[i])
    ensures Chosen(v, options) <==> v in options
  {
    hide Canonical, WellFormed;
    forall i | 0 <= i < |options| ensures Canonical(options[i]) == Canonical(v) <==> options[i] == v {
      CanonicalIsInjective(options[i], v);
    }
  }

  predicate Distinct(items: seq<Json>, n: nat)
    requires n <= |items|
  {
    forall i :: 0 <= i < n ==> items[i] !in items[..i]
  }

  lemma DistinctNext(items: seq<Json>, n: nat)
    requires 0 < n <= |items|
    ensures Distinct(items, n) <==> Distinct(items, n - 1) && items[n - 1] !in items[..n - 1]
  {
  }

  lemma {:induction false} DuplicatesAgree(items: seq<Json>, n: nat)
    requires WellFormed(Array(items)) && n <= |items|
    ensures |Texts(items[..n])| <= n
    ensures |Texts(items[..n])| == n <==> Distinct(items, n)
  {
    hide Canonical, Texts, WellFormed, Distinct;
    if n == 0 {
      NoTexts(items);
    } else {
      DuplicatesAgree(items, n - 1);
      OneMoreText(items, n);
      DistinctNext(items, n);
      SeenBefore(items, n - 1);
      SizeWith(Texts(items[..n - 1]), Canonical(items[n - 1]));
    }
  }

  lemma NoTexts(items: seq<Json>)
    ensures Texts(items[..0]) == {} && Distinct(items, 0)
  {
  }

  lemma SizeWith<T>(s: set<T>, x: T)
    ensures |s + {x}| == |s| + (if x in s then 0 else 1)
  {
    if x in s { assert s + {x} == s; }
  }

  lemma SeenBefore(items: seq<Json>, i: nat)
    requires WellFormed(Array(items)) && i < |items|
    ensures Canonical(items[i]) in Texts(items[..i]) <==> items[i] in items[..i]
  {
    hide Canonical;
    assert WellFormed(Array(items[..i])) by { assert forall j :: 0 <= j < i ==> WellFormed(items[j]); }
    OptionsAgree(items[i], items[..i]);
  }

  lemma OneMoreText(items: seq<Json>, n: nat)
    requires 0 < n <= |items|
    ensures Texts(items[..n]) == Texts(items[..n - 1]) + {Canonical(items[n - 1])}
  {
    hide Canonical;
    forall t ensures t in Texts(items[..n]) <==> t in Texts(items[..n - 1]) + {Canonical(items[n - 1])} {
      if t in Texts(items[..n - 1]) {
        var i :| 0 <= i < n - 1 && t == Canonical(items[..n - 1][i]);
        assert items[..n][i] == items[..n - 1][i];
      }
      if t == Canonical(items[n - 1]) { assert items[..n][n - 1] == items[n - 1]; }
      if t in Texts(items[..n]) {
        var i :| 0 <= i < n && t == Canonical(items[..n][i]);
        if i < n - 1 { assert items[..n - 1][i] == items[..n][i]; }
      }
    }
  }

  lemma UniquenessAgrees(items: seq<Json>)
    requires WellFormed(Array(items))
    ensures |Texts(items)| == |items| <==> forall i :: 0 <= i < |items| ==> items[i] !in items[..i]
  {
    DuplicatesAgree(items, |items|);
    assert items[..|items|] == items;
  }

  lemma ConstantAgrees(v: Json, constant: Option<Json>)
    requires WellFormed(v) && (constant.Some? ==> WellFormed(constant.value))
    ensures constant.Some? ==> (Canonical(v) == Canonical(constant.value) <==> constant.value == v)
  {
    if constant.Some? { CanonicalIsInjective(v, constant.value); }
  }

  // ---- limits --------------------------------------------------------------

  /** What JavaScript makes of a word. */
  lemma WordsRead(n: int, e: Engine)
    ensures FitsWord(n) ==> PrintsInFull(n)
    ensures PrintsInFull(n) ==> AsDouble(Int(n), e).Int?
    ensures PrintsInFull(n) && PRECISION <= n ==> PRECISION <= AsDouble(Int(n), e).n
    ensures 0 <= n < PRECISION ==> AsDouble(Int(n), e) == Int(n)
  {
    hide Printed;
    PrintedIsNear(Abs(n));
  }

  /** Natively a limit is a word, or none. */
  lemma NativeLimit(limit: Option<Json>, e: Engine)
    ensures NativeValidator.Unsigned(NativeIn(limit, e)) ==
      if NumberIn(limit).Some? && IsUnsigned(NumberIn(limit).value) then Some(NumberIn(limit).value.n) else None
    ensures NumberIn(JsIn(limit, e)) ==
      if NumberIn(limit).Some? then Some(AsDouble(NumberIn(limit).value, e)) else None
  {
    hide AsDouble, PrintNum;
  }

  lemma LowAgrees(n: nat, limit: Option<Json>, e: Engine)
    requires n < PRECISION && Sane(e) && FairLow(limit, e)
    ensures var js, native := NumberIn(JsIn(limit, e)), NativeValidator.Unsigned(NativeIn(limit, e));
      (js.Some? ==> !Less(Int(n), js.value, e)) <==> (native.Some? ==> n >= native.value)
  {
    hide AsDouble, JsIn, NativeIn, IsPrinted;
    NativeLimit(limit, e);
    if NumberIn(limit).Some? {
      var num := NumberIn(limit).value;
      if IsUnsigned(num) {
        WordsRead(num.n, e);
      } else if n > 0 {
        assert Less(Int(0), Int(n), e);
      }
    }
  }

  lemma HighAgrees(n: nat, limit: Option<Json>, e: Engine)
    requires n < PRECISION && Sane(e) && FairHigh(limit, e)
    ensures var js, native := NumberIn(JsIn(limit, e)), NativeValidator.Unsigned(NativeIn(limit, e));
      (js.Some? ==> !Less(js.value, Int(n), e)) <==> (native.Some? ==> n <= native.value)
  {
    hide AsDouble, JsIn, NativeIn, IsPrinted;
    NativeLimit(limit, e);
    if NumberIn(limit).Some? {
      var num := NumberIn(limit).value;
      if IsUnsigned(num) {
        WordsRead(num.n, e);
      } else if n < PRECISION - 1 {
        assert Less(Int(n), Int(PRECISION - 1), e);
      }
    }
  }

  lemma LengthsAgree(n: nat, min: Option<Json>, max: Option<Json>, e: Engine)
    requires n < PRECISION && Sane(e) && FairLow(min, e) && FairHigh(max, e)
    ensures Within(Int(n), NumberIn(JsIn(min, e)), NumberIn(JsIn(max, e)), e)
       <==> NativeValidator.LengthFits(n, NativeIn(min, e), NativeIn(max, e))
  {
    hide JsIn, NativeIn, Less, Sane, NativeValidator.Unsigned;
    LowAgrees(n, min, e);
    HighAgrees(n, max, e);
  }

  lemma {:induction false} FewCodePoints(s: Units)
    ensures CodePoints(s) <= |s|
    decreases |s|
  {
    if s != [] {
      FewCodePoints(s[1..]);
      if |s| > 1 { FewCodePoints(s[2..]); }
    }
  }

  /** A range means the same doubles to both sides, however its ends are written. */
  lemma BoundRead(bound: Option<Json>, e: Engine)
    requires Sane(e) && ParsableIn(bound, e)
    ensures NumberIn(JsIn(bound, e)).Some? <==> NumberIn(NativeIn(bound, e)).Some?
    ensures NumberIn(JsIn(bound, e)).Some? ==>
      AsDouble(NumberIn(NativeIn(bound, e)).value, e) == NumberIn(JsIn(bound, e)).value
  {
    hide AsDouble, AsNative, Sane, ValidNum, InRange;
    if NumberIn(bound).Some? { NativeNumbersAreDoubles(NumberIn(bound).value, e); }
  }

  lemma RequiredAgrees(required: seq<Json>, fields: map<Units, Json>)
    requires forall i :: 0 <= i < |required| ==> required[i].Text?
    ensures MissingKeys(required, fields) == {} <==> NativeValidator.HasKeys(required, fields)
  {
    forall i | 0 <= i < |required| && required[i].text !in fields ensures MissingKeys(required, fields) != {} {
      assert Missing(required[i].text) in MissingKeys(required, fields);
    }
  }

  lemma RequiredRead(required: Option<Json>, e: Engine)
    requires forall i :: 0 <= i < |ItemsIn(JsIn(required, e))| ==> ItemsIn(JsIn(required, e))[i].Text?
    ensures ItemsIn(NativeIn(required, e)) == ItemsIn(JsIn(required, e))
  {
    if required.Some? && required.value.Array? {
      var items := required.value.items;
      forall i | 0 <= i < |items| ensures NativeRead(items[i], e) == JsRead(items[i], e) {
        assert ItemsIn(JsIn(required, e))[i] == JsRead(items[i], e);
      }
    }
  }

  lemma PatternRead(pattern: Option<Json>, e: Engine)
    ensures TextIn(JsIn(pattern, e)) == TextIn(NativeIn(pattern, e)) == TextIn(pattern)
  {
  }

  lemma UniqueRead(unique: Option<Json>, e: Engine)
    ensures NativeIn(unique, e) == Some(Bool(true)) <==> unique == Some(Bool(true))
    ensures JsIn(unique, e) == Some(Bool(true)) <==> unique == Some(Bool(true))
  {
  }

  /** Texts, numbers, arrays and objects are judged alike by the keywords for their type. */
  lemma ShapesAgree(k: Keywords, v: Json, e: Engine)
    requires PlainNode(k, e) && !Truthy(JsKeywords(k, e).reference) && ParsableKeywords(k, e)
    requires JsValue(v, e) && Sane(e)
    ensures ShapeFailures(JsKeywords(k, e), v, e) == {} <==> NativeValidator.ShapeValid(NativeKeywords(k, e), v, e)
  {
    hide Canonical, HasKind, Texts, Within, NativeValidator.LengthFits, CodePoints, Inherited, MissingKeys,
         NativeValidator.HasKeys, JsIn, NativeIn, FairLow, FairHigh, FairOptions, AllSteady, Sane, Less, AsDouble;
    match v {
      case Text(text) =>
        FewCodePoints(text);
        LengthsAgree(CodePoints(text), k.minLength, k.maxLength, e);
        PatternRead(k.pattern, e);
      case Number(n) => RangesAgree(k, n, e);
      case Array(items) =>
        LengthsAgree(|items|, k.minItems, k.maxItems, e);
        UniqueRead(k.uniqueItems, e);
        JsValuesAreRead(v, e);
        UniquenessAgrees(items);
      case Object(fields) =>
        RequiredTexts(JsKeywords(k, e));
        RequiredRead(k.required, e);
        RequiredAgrees(ItemsIn(JsIn(k.required, e)), fields);
      case _ =>
    }
  }

  lemma RequiredTexts(k: Keywords)
    requires Typed(k)
    ensures forall i :: 0 <= i < |ItemsIn(k.required)| ==> ItemsIn(k.required)[i].Text?
  {
  }

  lemma RangesAgree(k: Keywords, n: Num, e: Engine)
    requires ParsableKeywords(k, e) && IsPrinted(n, e) && Sane(e)
    ensures ShapeFailures(JsKeywords(k, e), Number(n), e) == {}
       <==> NativeValidator.ShapeValid(NativeKeywords(k, e), Number(n), e)
  {
    hide Sane, Less, AsDouble, JsIn, NativeIn, Parsable, ValidNum, InRange;
    BoundRead(k.minimum, e);
    BoundRead(k.maximum, e);
  }

  lemma KindRead(kind: Option<Json>, e: Engine)
    ensures TextIn(JsIn(kind, e)) == TextIn(NativeIn(kind, e)) == TextIn(kind)
    ensures NativeIn(kind, e).Some? && NativeIn(kind, e).value.Text? <==> TextIn(kind).Some?
    ensures TextIn(kind).Some? ==> NativeIn(kind, e) == JsIn(kind, e) == Some(Text(TextIn(kind).value))
  {
  }

  /** The options that count: those of an array. */
  lemma OptionsRead(options: Option<Json>, e: Engine)
    ensures |ItemsIn(JsIn(options, e))| == |ItemsIn(NativeIn(options, e))| == |ItemsIn(options)|
    ensures forall i :: 0 <= i < |ItemsIn(options)| ==>
      && ItemsIn(JsIn(options, e))[i] == JsRead(ItemsIn(options)[i], e)
      && ItemsIn(NativeIn(options, e))[i] == NativeRead(ItemsIn(options)[i], e)
    ensures JsIn(options, e).Some? && JsIn(options, e).value.Array? <==> options.Some? && options.value.Array?
    ensures NativeIn(options, e).Some? && NativeIn(options, e).value.Array? <==> options.Some? && options.value.Array?
  {
  }

  lemma OptionRead(v: Json, option: Json, e: Engine)
    requires JsValue(v, e) && Sane(e) && Parsable(option, e)
    ensures WellFormed(JsRead(option, e))
    ensures NativeRead(option, e) == v ==> JsRead(option, e) == v
  {
    hide JsRead, NativeRead, Sane, JsValue, Parsable;
    ParsedOnce(option, e);
    JsValuesAreRead(JsRead(option, e), e);
    NativeValuesAreRead(option, e);
    JsValuesAreRead(v, e);
  }

  /** Lists of which one has everything that the other has, and a value found in the other is found in the one. */
  lemma ChoicesAgree(v: Json, js: seq<Json>, native: seq<Json>)
    requires |js| == |native|
    requires forall i :: 0 <= i < |js| ==> js[i] in native
    requires forall i :: 0 <= i < |native| && native[i] == v ==> js[i] == v
    ensures v in js <==> v in native
  {
  }

  /** One of some fair options as it is read. */
  lemma FairOptionRead(v: Json, options: Option<Json>, i: nat, e: Engine)
    requires JsValue(v, e) && Sane(e) && ParsableIn(options, e) && FairOptions(ItemsIn(options), e)
    requires i < |ItemsIn(options)|
    ensures var (js, native) := (ItemsIn(JsIn(options, e)), ItemsIn(NativeIn(options, e)));
      && |js| == |native| == |ItemsIn(options)|
      && WellFormed(js[i]) && js[i] in native && (native[i] == v ==> js[i] == v)
  {
    hide JsRead, NativeRead, JsIn, NativeIn, ItemsIn, Sane, JsValue, WellFormed;
    OptionsRead(options, e);
    var items := ItemsIn(options);
    assert Parsable(items[i], e) by { ItemIsParsable(options, i, e); }
    OptionRead(v, items[i], e);
    var j :| 0 <= j < |items| && NativeRead(items[j], e) == JsRead(items[i], e);
    assert ItemsIn(NativeIn(options, e))[j] == ItemsIn(JsIn(options, e))[i];
  }

  lemma ItemIsParsable(options: Option<Json>, i: nat, e: Engine)
    requires ParsableIn(options, e) && i < |ItemsIn(options)|
    ensures Parsable(ItemsIn(options)[i], e)
  {
  }

  /** A value of JavaScript is among fair options as one side reads them exactly if it is among them on the other. */
  lemma FairOptionsAgree(v: Json, options: Option<Json>, e: Engine)
    requires JsValue(v, e) && Sane(e) && ParsableIn(options, e) && FairOptions(ItemsIn(options), e)
    ensures Chosen(v, ItemsIn(JsIn(options, e))) <==> v in ItemsIn(NativeIn(options, e))
  {
    hide JsRead, NativeRead, JsIn, NativeIn, Sane, JsValue, FairOptions, ParsableIn, ItemsIn, WellFormed, Chosen;
    OptionsRead(options, e);
    JsValuesAreRead(v, e);
    var js, native := ItemsIn(JsIn(options, e)), ItemsIn(NativeIn(options, e));
    forall i | 0 <= i < |js|
      ensures WellFormed(js[i]) && js[i] in native
      ensures native[i] == v ==> js[i] == v
    {
      FairOptionRead(v, options, i, e);
    }
    OptionsAgree(v, js);
    ChoicesAgree(v, js, native);
  }

  lemma FairConstantAgrees(v: Json, constant: Option<Json>, e: Engine)
    requires JsValue(v, e) && Sane(e) && ParsableIn(constant, e)
    requires constant.Some? ==> AllSteady(constant.value, e)
    ensures NativeIn(constant, e) == JsIn(constant, e)
    ensures constant.Some? ==>
      (Canonical(v) == Canonical(JsRead(constant.value, e)) <==> JsRead(constant.value, e) == v)
  {
    hide Canonical, JsRead, NativeRead, AllSteady, Sane, Parsable, JsValue;
    if constant.Some? {
      SteadyValuesReadAlike(constant.value, e);
      ParsedOnce(constant.value, e);
      JsValuesAreRead(v, e);
      JsValuesAreRead(JsRead(constant.value, e), e);
      ConstantAgrees(v, JsIn(constant, e));
    }
  }

  /** On a plain schema object both validators judge the value itself alike. */
  lemma OwnAgree(k: Keywords, v: Json, e: Engine)
    requires PlainNode(k, e) && !Truthy(JsKeywords(k, e).reference) && ParsableKeywords(k, e)
    requires JsValue(v, e) && Sane(e)
    ensures !WrongKind(JsKeywords(k, e), v, e) && OwnFailures(JsKeywords(k, e), v, e) == {}
       <==> NativeValidator.OwnValid(NativeKeywords(k, e), v, e)
  {
    hide Canonical, HasKind, Chosen, Inherited, ShapeFailures, NativeValidator.ShapeValid, AnswerOf, FairOptions,
         FairLow, FairHigh, AllSteady, JsRead, NativeRead, Sane, JsValue, Parsable;
    KindRead(k.kind, e);
    if TextIn(k.kind).Some? { KindsAgree(TextIn(k.kind).value, v, e); }
    FairConstantAgrees(v, k.constant, e);
    OptionsRead(k.options, e);
    FairOptionsAgree(v, k.options, e);
    ShapesAgree(k, v, e);
  }

  // ---- references ----------------------------------------------------------

  /** Both resolve a pointer alike, wherever JavaScript stays inside the value, before and after parsing. */
  lemma {:induction false} PointersAgree(v: Json, tokens: seq<Units>, e: Engine)
    requires Parsable(v, e)
    ensures Resolve(JsRead(v, e), tokens) == (match Resolve(v, tokens)
      case Found(target) => Found(JsRead(target, e))
      case other => other)
    ensures match Resolve(v, tokens)
      case Found(target) => NativeValidator.Pointer(NativeRead(v, e), tokens) == Some(NativeRead(target, e))
        && Parsable(target, e)
      case Undefined => NativeValidator.Pointer(NativeRead(v, e), tokens).None?
      case Elsewhere => true
    decreases |tokens|
  {
    hide Unescape, Index, Inherited, AsDouble, AsNative, Paired, ValidNum, InRange;
    if tokens != [] {
      var token := Unescape(tokens[0]);
      match v {
        case Object(fields) => if token in fields { PointersAgree(fields[token], tokens[1..], e); }
        case Array(items) =>
          if Index(token).Some? && 0 <= Index(token).value < |items| {
            PointersAgree(items[Index(token).value], tokens[1..], e);
          }
        case _ =>
      }
    }
  }

  // ---- whole values --------------------------------------------------------

  /** The rules for the parts of a value are plain one level down. */
  predicate PlainParts(k: Keywords, root: Json, depth: nat, e: Engine)
    requires depth <= MAX_DEPTH
  {
    && (k.items.Some? ==> Parsable(k.items.value, e) && Plain(k.items.value, root, depth + 1, e))
    && (k.additional.Some? ==> Parsable(k.additional.value, e) && Plain(k.additional.value, root, depth + 1, e))
    && (k.properties.Some? && k.properties.value.Object? ==>
         forall key :: key in k.properties.value.fields ==>
           var rule := k.properties.value.fields[key];
           rule != Null && Parsable(rule, e) && Plain(rule, root, depth + 1, e))
  }

  lemma EmptyKeywords(e: Engine)
    ensures var k := KeywordsOf(map[]);
      && k == Keywords(None, None, None, None, None, None, None, None, None, None, None, None, None, None, None, None)
      && JsKeywords(k, e) == NativeKeywords(k, e) == k
  {
  }

  /** A rule for a member that is not named like an inherited property is the same for both. */
  lemma RulesAgree(k: Keywords, key: Units, root: Json, depth: nat, e: Engine)
    requires depth <= MAX_DEPTH && PlainParts(k, root, depth, e) && !Inherited(key)
    ensures Child(JsKeywords(k, e), key) == JsIn(Child(k, key), e)
    ensures NativeValidator.Rule(NativeKeywords(k, e), key) == NativeIn(Child(k, key), e)
    ensures Child(k, key).Some? ==>
      Parsable(Child(k, key).value, e) && Plain(Child(k, key).value, root, depth + 1, e)
  {
    hide Plain, Parsable, AsDouble, AsNative, Inherited;
  }

  /**
   * The two validators agree: on every plain schema and every value without inherited names the one reports
   * no failure exactly when the other accepts, each with the schema as its side parses it.
   */
  lemma {:induction false} Agree(schema: Json, v: Json, path: seq<Step>, root: Json, depth: nat, e: Engine)
    requires Parsable(schema, e) && Parsable(root, e) && JsValue(v, e) && Sane(e)
    requires Plain(schema, root, depth, e) && Ordinary(v, depth, MAX_DEPTH)
    ensures Failures(JsRead(schema, e), v, path, JsRead(root, e), depth, e) == {}
       <==> NativeValidator.Valid(NativeRead(schema, e), v, NativeRead(root, e), depth, e)
    decreases MAX_DEPTH + 1 - depth, 3
  {
    hide OwnFailures, NativeValidator.OwnValid, PartFailures, NativeValidator.PartsValid, KeywordsOf, Ordinary,
         WrongKind, Odd, PlainNode, Resolve, Sane, JsValue, JsKeywords, NativeKeywords, Parsable;
    if depth <= MAX_DEPTH {
      match schema {
        case Object(fields) =>
          if Truthy(JsKeywords(KeywordsOf(fields), e).reference) {
            ReferencesAgree(schema, KeywordsOf(fields), v, path, root, depth, e);
          } else {
            NodesAgree(schema, KeywordsOf(fields), v, path, root, depth, e);
          }
        case Array(_) => ArraysAgree(schema, v, path, root, depth, e);
        case _ =>
      }
    }
  }

  /** Both treat a schema that is an array as one without keywords. */
  lemma {:induction false} ArraysAgree(schema: Json, v: Json, path: seq<JsValidator.Step>, root: Json, depth: nat,
                                       e: Engine)
    requires schema.Array? && Parsable(root, e) && JsValue(v, e) && Sane(e)
    requires depth <= MAX_DEPTH && Ordinary(v, depth, MAX_DEPTH)
    ensures Failures(JsRead(schema, e), v, path, JsRead(root, e), depth, e) == {}
       <==> NativeValidator.Valid(NativeRead(schema, e), v, NativeRead(root, e), depth, e)
    decreases MAX_DEPTH + 1 - depth, 2
  {
    hide OwnFailures, NativeValidator.OwnValid, PartFailures, NativeValidator.PartsValid, KeywordsOf, Ordinary,
         WrongKind, Sane, JsValue, JsKeywords, NativeKeywords, Parsable;
    EmptyKeywords(e);
    OwnAgree(KeywordsOf(map[]), v, e) by { EmptyKeywordsArePlain(e); }
    NoKeywordsNoFailures(v, e);
    PartsAgree(KeywordsOf(map[]), v, path, root, depth, e);
  }

  lemma EmptyKeywordsArePlain(e: Engine)
    ensures var k := KeywordsOf(map[]);
      PlainNode(k, e) && !Truthy(JsKeywords(k, e).reference) && ParsableKeywords(k, e)
  {
    hide KeywordsOf;
    EmptyKeywords(e);
  }

  lemma {:induction false} NodesAgree(schema: Json, k: Keywords, v: Json, path: seq<JsValidator.Step>, root: Json,
                                      depth: nat, e: Engine)
    requires schema.Object? && k == KeywordsOf(schema.fields) && !Truthy(JsKeywords(k, e).reference)
    requires Parsable(schema, e) && Parsable(root, e) && JsValue(v, e) && Sane(e) && depth <= MAX_DEPTH
    requires Plain(schema, root, depth, e) && Ordinary(v, depth, MAX_DEPTH)
    ensures Failures(JsRead(schema, e), v, path, JsRead(root, e), depth, e) == {}
       <==> NativeValidator.Valid(NativeRead(schema, e), v, NativeRead(root, e), depth, e)
    decreases MAX_DEPTH + 1 - depth, 2
  {
    hide OwnFailures, NativeValidator.OwnValid, PartFailures, NativeValidator.PartsValid, KeywordsOf, Ordinary,
         WrongKind, Typed, Sane, JsValue, Parsable, JsKeywords, NativeKeywords, ParsableKeywords, FairLow, FairHigh,
         FairOptions, AllSteady;
    KeywordsRead(schema.fields, e);
    ObjectsStay(schema.fields, e);
    KeywordsAreParsable(schema.fields, e);
    OwnAgree(k, v, e);
    AtEmpty(path, OwnFailures(JsKeywords(k, e), v, e));
    PartsArePlain(schema, k, root, depth, e);
    PartsAgree(k, v, path, root, depth, e);
    NoReference(k, e);
  }

  lemma NoReference(k: Keywords, e: Engine)
    requires PlainNode(k, e) && !Truthy(JsKeywords(k, e).reference)
    ensures TextIn(NativeKeywords(k, e).reference).None? && !Odd(JsKeywords(k, e))
  {
    hide Odd, FairLow, FairHigh, FairOptions, AllSteady;
    KindRead(k.reference, e);
  }

  lemma PartsArePlain(schema: Json, k: Keywords, root: Json, depth: nat, e: Engine)
    requires schema.Object? && k == KeywordsOf(schema.fields) && depth <= MAX_DEPTH && Parsable(schema, e)
    requires !Truthy(JsKeywords(k, e).reference) && Plain(schema, root, depth, e)
    ensures PlainParts(k, root, depth, e)
  {
    hide KeywordsOf, Typed, FairLow, FairHigh, FairOptions, AllSteady, JsKeywords;
    KeywordsAreParsable(schema.fields, e);
  }

  lemma AtEmpty(path: seq<JsValidator.Step>, reasons: set<Reason>)
    ensures At(path, reasons) == {} <==> reasons == {}
  {
    if reason :| reason in reasons { assert Failure(path, reason) in At(path, reasons); }
  }

  lemma NoKeywordsNoFailures(v: Json, e: Engine)
    ensures !WrongKind(KeywordsOf(map[]), v, e) && OwnFailures(KeywordsOf(map[]), v, e) == {}
  {
    hide Canonical, Texts, CodePoints, KeywordsOf;
    EmptyKeywords(e);
  }

  lemma {:induction false} ReferencesAgree(schema: Json, k: Keywords, v: Json, path: seq<Step>, root: Json,
                                           depth: nat, e: Engine)
    requires schema.Object? && k == KeywordsOf(schema.fields) && Truthy(JsKeywords(k, e).reference)
    requires Parsable(root, e) && JsValue(v, e) && Sane(e) && depth <= MAX_DEPTH
    requires Plain(schema, root, depth, e) && Ordinary(v, depth, MAX_DEPTH)
    ensures Failures(JsRead(schema, e), v, path, JsRead(root, e), depth, e) == {}
       <==> NativeValidator.Valid(NativeRead(schema, e), v, NativeRead(root, e), depth, e)
    decreases MAX_DEPTH + 1 - depth, 1
  {
    hide OwnFailures, NativeValidator.OwnValid, PartFailures, NativeValidator.PartsValid, KeywordsOf, Ordinary, Split,
         NativeValidator.Pointer, Resolve, Sane, JsValue, Parsable, JsIn, NativeIn, FairLow, FairHigh, FairOptions,
         AllSteady, JsRead, NativeRead, Typed;
    KeywordsRead(schema.fields, e);
    ObjectsStay(schema.fields, e);
    KindRead(k.reference, e);
    var reference := TextIn(k.reference).value;
    var tokens := Split(reference[2..]);
    PointersAgree(root, tokens, e);
    var found := Resolve(root, tokens);
    assert NativeValidator.Target(reference, NativeRead(root, e))
        == NativeValidator.Pointer(NativeRead(root, e), tokens);
    if found.Found? {
      if Truthy(Some(JsRead(found.v, e))) {
        OrdinaryDeeper(v, depth, MAX_DEPTH);
        Agree(found.v, v, path, root, depth + 1, e);
      } else {
        FalseStays(e);
      }
    }
  }

  lemma FalseStays(e: Engine)
    ensures JsRead(Bool(false), e) == NativeRead(Bool(false), e) == Bool(false)
  {
  }

  lemma {:induction false} PartsAgree(k: Keywords, v: Json, path: seq<Step>, root: Json, depth: nat, e: Engine)
    requires Parsable(root, e) && JsValue(v, e) && Sane(e) && depth <= MAX_DEPTH
    requires PlainParts(k, root, depth, e) && Ordinary(v, depth, MAX_DEPTH)
    ensures PartFailures(JsKeywords(k, e), v, path, JsRead(root, e), depth, e) == {}
       <==> NativeValidator.PartsValid(NativeKeywords(k, e), v, NativeRead(root, e), depth, e)
    decreases MAX_DEPTH + 1 - depth, 1
  {
    hide Failures, NativeValidator.Valid, Plain, Child, NativeValidator.Rule, Inherited, Unsafe, Sane, JsRead,
         NativeRead, Parsable, Paired, IsPrinted;
    var js, native := JsKeywords(k, e), NativeKeywords(k, e);
    match v {
      case Array(items) =>
        forall i | 0 <= i < |items| && k.items.Some?
          ensures ItemFailures(js, i, items[i], path, JsRead(root, e), depth, e) == {}
             <==> NativeValidator.Valid(native.items.value, items[i], NativeRead(root, e), depth + 1, e)
        {
          Agree(k.items.value, items[i], path + [Item(i)], root, depth + 1, e);
        }
        ItemsEmpty(js, items, path, JsRead(root, e), depth, e);
      case Object(fields) =>
        forall key | key in fields
          ensures MemberFailures(js, key, fields[key], path, JsRead(root, e), depth, e) == {}
             <==> !Unsafe(key) && (NativeValidator.Rule(native, key).Some? ==>
                    NativeValidator.Valid(NativeValidator.Rule(native, key).value, fields[key], NativeRead(root, e),
                      depth + 1, e))
        {
          MembersAgree(k, key, fields, path, root, depth, e);
        }
        MembersEmpty(js, fields, path, JsRead(root, e), depth, e);
      case _ =>
    }
  }

  lemma {:induction false} MembersAgree(k: Keywords, key: Units, fields: map<Units, Json>, path: seq<Step>, root: Json,
                                        depth: nat, e: Engine)
    requires Parsable(root, e) && key in fields && JsValue(fields[key], e) && Sane(e) && depth <= MAX_DEPTH
    requires PlainParts(k, root, depth, e) && Ordinary(Object(fields), depth, MAX_DEPTH)
    ensures MemberFailures(JsKeywords(k, e), key, fields[key], path, JsRead(root, e), depth, e) == {}
       <==> var rule := NativeValidator.Rule(NativeKeywords(k, e), key);
            !Unsafe(key)
            && (rule.Some? ==> NativeValidator.Valid(rule.value, fields[key], NativeRead(root, e), depth + 1, e))
    decreases MAX_DEPTH + 1 - depth, 0
  {
    hide Failures, NativeValidator.Valid, Plain, Child, NativeValidator.Rule, Inherited, Unsafe, Sane, JsRead,
         NativeRead, Parsable, JsValue, JsKeywords, NativeKeywords, PlainParts;
    if !Unsafe(key) {
      assert !Strange(key);
      RulesAgree(k, key, root, depth, e);
      if Child(k, key).Some? {
        Agree(Child(k, key).value, fields[key], path + [Member(key)], root, depth + 1, e);
      }
    }
  }

  lemma ItemsEmpty(k: Keywords, items: seq<Json>, path: seq<Step>, root: Json, depth: nat, e: Engine)
    requires depth <= MAX_DEPTH
    ensures ItemsFailures(k, items, |items|, path, root, depth, e) == {}
       <==> forall i :: 0 <= i < |items| ==> ItemFailures(k, i, items[i], path, root, depth, e) == {}
  {
    hide ItemFailures;
    forall i, f | 0 <= i < |items| && f in ItemFailures(k, i, items[i], path, root, depth, e)
      ensures f in ItemsFailures(k, items, |items|, path, root, depth, e)
    {
    }
  }

  lemma MembersEmpty(k: Keywords, fields: map<Units, Json>, path: seq<Step>, root: Json, depth: nat, e: Engine)
    requires depth <= MAX_DEPTH
    ensures MembersFailures(k, fields, fields.Keys, path, root, depth, e) == {}
       <==> forall key :: key in fields ==> MemberFailures(k, key, fields[key], path, root, depth, e) == {}
  {
    hide MemberFailures;
    forall key, f | key in fields && f in MemberFailures(k, key, fields[key], path, root, depth, e)
      ensures f in MembersFailures(k, fields, fields.Keys, path, root, depth, e)
    {
    }
  }
}
