/** Registered schemas that the two validators read differently, keyword by keyword. */
module SchemasDiffer {
  import opened Common
  import opened Json
  import opened JsonRoundTrip
  import opened ParsedValues
  import opened Schemas
  import opened JsValidator
  import opened ValidatorsAgree
  import opened ValidatorsDiffer
  import NativeValidator

  lemma NamesDiffer()
    ensures Ascii("minLength") != Ascii("maxLength") && Ascii("minItems") != Ascii("maxItems")
    ensures Ascii("minItems") != Ascii("required") && Ascii("maxItems") != Ascii("required")
    ensures Ascii("type") != Ascii("$ref") && Ascii("type") != Ascii("enum") && Ascii("enum") != Ascii("$ref")
  {
    assert Ascii("minLength")[1] != Ascii("maxLength")[1] && Ascii("minItems")[1] != Ascii("maxItems")[1];
    assert Ascii("minItems")[0] != Ascii("required")[0] && Ascii("maxItems")[0] != Ascii("required")[0];
    assert Ascii("type")[0] != Ascii("$ref")[0] && Ascii("type")[0] != Ascii("enum")[0];
    assert Ascii("enum")[0] != Ascii("$ref")[0];
  }

  // ---- limits --------------------------------------------------------------

  function MaxLength(num: Num): Json {
    Object(map[Ascii("maxLength") := Number(num)])
  }

  function MinLength(num: Num): Json {
    Object(map[Ascii("minLength") := Number(num)])
  }

  function MaxItems(num: Num): Json {
    Object(map[Ascii("maxItems") := Number(num)])
  }

  function MinItems(num: Num): Json {
    Object(map[Ascii("minItems") := Number(num)])
  }

  lemma LengthKeywords(num: Num)
    ensures KeywordsOf(MaxLength(num).fields) == Only(None, None, None).(maxLength := Some(Number(num)))
    ensures KeywordsOf(MinLength(num).fields) == Only(None, None, None).(minLength := Some(Number(num)))
  {
    hide Ascii;
    KeywordsDiffer();
    NamesDiffer();
  }

  lemma CountKeywords(num: Num)
    ensures KeywordsOf(MaxItems(num).fields) == Only(None, None, None).(maxItems := Some(Number(num)))
    ensures KeywordsOf(MinItems(num).fields) == Only(None, None, None).(minItems := Some(Number(num)))
  {
    hide Ascii;
    KeywordsDiffer();
    NamesDiffer();
  }

  /** A limit as either parser reads it. */
  lemma LimitsRead(num: Num, e: Engine)
    ensures JsRead(MaxLength(num), e) == MaxLength(AsDouble(num, e))
    ensures NativeRead(MaxLength(num), e) == MaxLength(AsNative(num, e))
    ensures JsRead(MinLength(num), e) == MinLength(AsDouble(num, e))
    ensures NativeRead(MinLength(num), e) == MinLength(AsNative(num, e))
    ensures JsRead(MaxItems(num), e) == MaxItems(AsDouble(num, e))
    ensures NativeRead(MaxItems(num), e) == MaxItems(AsNative(num, e))
    ensures JsRead(MinItems(num), e) == MinItems(AsDouble(num, e))
    ensures NativeRead(MinItems(num), e) == MinItems(AsNative(num, e))
  {
    hide Ascii, AsDouble, AsNative, Parsable;
    OneFieldReads(Ascii("maxLength"), Number(num), e);
    OneFieldReads(Ascii("minLength"), Number(num), e);
    OneFieldReads(Ascii("maxItems"), Number(num), e);
    OneFieldReads(Ascii("minItems"), Number(num), e);
  }

  /** A length within an upper limit as JavaScript compares them. */
  predicate JsBelow(n: nat, num: Num, e: Engine) {
    !Less(num, Int(n), e)
  }

  /** A length within a lower limit as JavaScript compares them. */
  predicate JsAbove(n: nat, num: Num, e: Engine) {
    !Less(Int(n), num, e)
  }

  /** Natively only whole numbers within 64 bits, plainly written, are limits. */
  predicate NativeBelow(n: nat, num: Num) {
    IsUnsigned(num) ==> n <= num.n
  }

  predicate NativeAbove(n: nat, num: Num) {
    IsUnsigned(num) ==> n >= num.n
  }

  lemma LengthVerdicts(num: Num, text: Units, e: Engine)
    ensures Failures(MaxLength(num), Text(text), [], MaxLength(num), 0, e) == {} <==> JsBelow(CodePoints(text), num, e)
    ensures Failures(MinLength(num), Text(text), [], MinLength(num), 0, e) == {} <==> JsAbove(CodePoints(text), num, e)
    ensures NativeValidator.Valid(MaxLength(num), Text(text), MaxLength(num), 0, e)
      <==> NativeBelow(CodePoints(text), num)
    ensures NativeValidator.Valid(MinLength(num), Text(text), MinLength(num), 0, e)
      <==> NativeAbove(CodePoints(text), num)
  {
    hide KeywordsOf, Ascii, CodePoints, Less;
    LengthKeywords(num);
    var high, low := KeywordsOf(MaxLength(num).fields), KeywordsOf(MinLength(num).fields);
    AtEmpty([], OwnFailures(high, Text(text), e));
    AtEmpty([], OwnFailures(low, Text(text), e));
    assert JsBelow(CodePoints(text), num, e) == (TextLength !in OwnFailures(high, Text(text), e));
    assert JsAbove(CodePoints(text), num, e) == (TextLength !in OwnFailures(low, Text(text), e));
  }

  lemma CountOwn(num: Num, items: seq<Json>, e: Engine)
    ensures var (none, limit) := (Only(None, None, None), Some(Number(num)));
      var (high, low) := (none.(maxItems := limit), none.(minItems := limit));
      && (OwnFailures(high, Array(items), e) == {} <==> JsBelow(|items|, num, e))
      && (OwnFailures(low, Array(items), e) == {} <==> JsAbove(|items|, num, e))
      && (NativeValidator.OwnValid(high, Array(items), e) <==> NativeBelow(|items|, num))
      && (NativeValidator.OwnValid(low, Array(items), e) <==> NativeAbove(|items|, num))
      && !WrongKind(high, Array(items), e) && !WrongKind(low, Array(items), e) && !Odd(high) && !Odd(low)
  {
    hide Texts, Less;
    var none, limit := Only(None, None, None), Some(Number(num));
    var high, low := none.(maxItems := limit), none.(minItems := limit);
    assert JsBelow(|items|, num, e) == (ArrayLength !in OwnFailures(high, Array(items), e));
    assert JsAbove(|items|, num, e) == (ArrayLength !in OwnFailures(low, Array(items), e));
  }

  /** A schema object without references and without rules for items judges an array by itself alone. */
  lemma ArrayVerdicts(schema: Json, k: Keywords, items: seq<Json>, e: Engine)
    requires schema.Object? && k == KeywordsOf(schema.fields) && k.reference.None? && k.items.None?
    requires !WrongKind(k, Array(items), e) && !Odd(k)
    ensures Failures(schema, Array(items), [], schema, 0, e) == {} <==> OwnFailures(k, Array(items), e) == {}
    ensures NativeValidator.Valid(schema, Array(items), schema, 0, e) <==> NativeValidator.OwnValid(k, Array(items), e)
  {
    hide KeywordsOf, OwnFailures, NativeValidator.OwnValid, WrongKind, Odd;
    AtEmpty([], OwnFailures(k, Array(items), e));
    ItemsEmpty(k, items, [], schema, 0, e);
  }

  lemma CountVerdicts(num: Num, items: seq<Json>, e: Engine)
    ensures Failures(MaxItems(num), Array(items), [], MaxItems(num), 0, e) == {} <==> JsBelow(|items|, num, e)
    ensures Failures(MinItems(num), Array(items), [], MinItems(num), 0, e) == {} <==> JsAbove(|items|, num, e)
    ensures NativeValidator.Valid(MaxItems(num), Array(items), MaxItems(num), 0, e) <==> NativeBelow(|items|, num)
    ensures NativeValidator.Valid(MinItems(num), Array(items), MinItems(num), 0, e) <==> NativeAbove(|items|, num)
  {
    hide KeywordsOf, Ascii, OwnFailures, NativeValidator.OwnValid, WrongKind, Odd, Failures, NativeValidator.Valid;
    CountKeywords(num);
    CountOwn(num, items, e);
    ArrayVerdicts(MaxItems(num), KeywordsOf(MaxItems(num).fields), items, e);
    ArrayVerdicts(MinItems(num), KeywordsOf(MinItems(num).fields), items, e);
  }

  lemma NativeWords(num: Num, e: Engine)
    ensures IsUnsigned(AsNative(num, e)) <==> IsUnsigned(num)
    ensures IsUnsigned(num) ==> AsNative(num, e) == num
  {
    hide AsDouble, PrintNum;
  }

  /** Both sides apply an upper limit alike to every length below 2^53 exactly when it is fair. */
  lemma UpperLimit(num: Num, e: Engine)
    requires Sane(e)
    ensures FairHigh(Some(Number(num)), e)
      ==> forall n: nat :: n < PRECISION ==> JsBelow(n, AsDouble(num, e), e) == NativeBelow(n, AsNative(num, e))
    ensures !FairHigh(Some(Number(num)), e)
      ==> !JsBelow(PRECISION - 1, AsDouble(num, e), e) && NativeBelow(PRECISION - 1, AsNative(num, e))
  {
    hide AsDouble, AsNative, Sane, Less;
    NativeWords(num, e);
    if FairHigh(Some(Number(num)), e) {
      forall n: nat | n < PRECISION ensures JsBelow(n, AsDouble(num, e), e) == NativeBelow(n, AsNative(num, e)) {
        HighAgrees(n, Some(Number(num)), e);
        NativeLimit(Some(Number(num)), e);
      }
    }
  }

  lemma LowerLimit(num: Num, e: Engine)
    requires Sane(e)
    ensures FairLow(Some(Number(num)), e)
      ==> forall n: nat :: n < PRECISION ==> JsAbove(n, AsDouble(num, e), e) == NativeAbove(n, AsNative(num, e))
    ensures !FairLow(Some(Number(num)), e)
      ==> !JsAbove(0, AsDouble(num, e), e) && NativeAbove(0, AsNative(num, e))
  {
    hide AsDouble, AsNative, Sane, Less;
    NativeWords(num, e);
    if FairLow(Some(Number(num)), e) {
      forall n: nat | n < PRECISION ensures JsAbove(n, AsDouble(num, e), e) == NativeAbove(n, AsNative(num, e)) {
        LowAgrees(n, Some(Number(num)), e);
        NativeLimit(Some(Number(num)), e);
      }
    }
  }

  lemma TextsStay(text: Units, e: Engine)
    ensures JsRead(Text(text), e) == Text(text) == NativeRead(Text(text), e)
  {
  }

  /** A text of the greatest length. */
  lemma LongText(e: Engine) returns (text: Units)
    ensures Parsable(Text(text), e) && CodePoints(text) == PRECISION - 1
  {
    text := seq(PRECISION - 1, i => LOWER_E);
    PlainUnits(text);
  }

  lemma LengthVerdictsAre(num: Num, text: Units, e: Engine)
    ensures SameVerdict(MaxLength(num), Text(text), e) <==>
      JsBelow(CodePoints(text), AsDouble(num, e), e) == NativeBelow(CodePoints(text), AsNative(num, e))
    ensures SameVerdict(MinLength(num), Text(text), e) <==>
      JsAbove(CodePoints(text), AsDouble(num, e), e) == NativeAbove(CodePoints(text), AsNative(num, e))
  {
    hide AsDouble, AsNative, JsRead, NativeRead, Failures, NativeValidator.Valid, CodePoints, MaxLength, MinLength,
         JsBelow, JsAbove, NativeBelow, NativeAbove;
    LimitsRead(num, e);
    TextsStay(text, e);
    LengthVerdicts(AsDouble(num, e), text, e);
    LengthVerdicts(AsNative(num, e), text, e);
  }

  lemma CountVerdictsAre(num: Num, items: seq<Json>, e: Engine)
    ensures SameVerdict(MaxItems(num), Array(items), e) <==>
      JsBelow(|items|, AsDouble(num, e), e) == NativeBelow(|items|, AsNative(num, e))
    ensures SameVerdict(MinItems(num), Array(items), e) <==>
      JsAbove(|items|, AsDouble(num, e), e) == NativeAbove(|items|, AsNative(num, e))
  {
    hide AsDouble, AsNative, JsRead, NativeRead, Failures, NativeValidator.Valid, MaxItems, MinItems, JsBelow, JsAbove,
         NativeBelow, NativeAbove;
    LimitsRead(num, e);
    var js, native := ItemsReadAs(items, e);
    CountVerdicts(AsDouble(num, e), js, e);
    CountVerdicts(AsNative(num, e), native, e);
  }

  lemma ItemsReadAs(items: seq<Json>, e: Engine) returns (js: seq<Json>, native: seq<Json>)
    ensures JsRead(Array(items), e) == Array(js) && NativeRead(Array(items), e) == Array(native)
    ensures |js| == |native| == |items|
  {
    js, native := JsRead(Array(items), e).items, NativeRead(Array(items), e).items;
  }

  /**
   * An upper limit on lengths is read alike on all texts exactly when it is a whole number within 64 bits,
   * plainly written, or one that no length exceeds.
   */
  lemma UpperLimitsAgreeExactly(num: Num, e: Engine)
    requires Sane(e)
    ensures (forall text :: Parsable(Text(text), e) ==> SameVerdict(MaxLength(num), Text(text), e))
       <==> FairHigh(Some(Number(num)), e)
  {
    hide SameVerdict, CodePoints, AsDouble, AsNative, Sane, FairHigh, MaxLength, JsBelow, NativeBelow, Paired;
    UpperLimit(num, e);
    if FairHigh(Some(Number(num)), e) {
      forall text | Parsable(Text(text), e) ensures SameVerdict(MaxLength(num), Text(text), e) {
        FewCodePoints(text);
        LengthVerdictsAre(num, text, e);
      }
    } else {
      var text := LongText(e);
      LengthVerdictsAre(num, text, e);
    }
  }

  /**
   * A lower limit on lengths is read alike on all texts exactly when it is a whole number within 64 bits,
   * plainly written, or one that no length falls below.
   */
  lemma LowerLimitsAgreeExactly(num: Num, e: Engine)
    requires Sane(e)
    ensures (forall text :: Parsable(Text(text), e) ==> SameVerdict(MinLength(num), Text(text), e))
       <==> FairLow(Some(Number(num)), e)
  {
    hide SameVerdict, AsDouble, AsNative, Sane, FairLow, MinLength, JsAbove, NativeAbove;
    LowerLimit(num, e);
    if FairLow(Some(Number(num)), e) {
      forall text | Parsable(Text(text), e) ensures SameVerdict(MinLength(num), Text(text), e) {
        FewCodePoints(text);
        LengthVerdictsAre(num, text, e);
      }
    } else {
      LengthVerdictsAre(num, [], e);
      assert Parsable(Text([]), e);
    }
  }

  /** The same holds of limits on the number of items. */
  lemma UpperCountsAgreeExactly(num: Num, e: Engine)
    requires Sane(e)
    ensures (forall items :: Parsable(Array(items), e) ==> SameVerdict(MaxItems(num), Array(items), e))
       <==> FairHigh(Some(Number(num)), e)
  {
    hide SameVerdict, AsDouble, AsNative, Sane, FairHigh, MaxItems, JsBelow, NativeBelow;
    UpperLimit(num, e);
    if FairHigh(Some(Number(num)), e) {
      forall items | Parsable(Array(items), e) ensures SameVerdict(MaxItems(num), Array(items), e) {
        CountVerdictsAre(num, items, e);
      }
    } else {
      var items := seq(PRECISION - 1, i => Null);
      assert Parsable(Array(items), e);
      CountVerdictsAre(num, items, e);
    }
  }

  lemma LowerCountsAgreeExactly(num: Num, e: Engine)
    requires Sane(e)
    ensures (forall items :: Parsable(Array(items), e) ==> SameVerdict(MinItems(num), Array(items), e))
       <==> FairLow(Some(Number(num)), e)
  {
    hide SameVerdict, AsDouble, AsNative, Sane, FairLow, MinItems, JsAbove, NativeAbove;
    LowerLimit(num, e);
    if FairLow(Some(Number(num)), e) {
      forall items | Parsable(Array(items), e) ensures SameVerdict(MinItems(num), Array(items), e) {
        CountVerdictsAre(num, items, e);
      }
    } else {
      CountVerdictsAre(num, [], e);
      assert Parsable(Array([]), e);
    }
  }

  /** A fraction, such as 1.5, is a lower limit in JavaScript and none natively: the empty text tells. */
  lemma FractionalLimitsSplit(num: Num, e: Engine)
    requires num.Other? && Less(Int(0), AsDouble(num, e), e)
    ensures !SameVerdict(MinLength(num), Text([]), e) && !SameVerdict(MinItems(num), Array([]), e)
  {
    hide SameVerdict, AsDouble, AsNative, MinItems, MinLength, Less;
    NativeWords(num, e);
    LengthVerdictsAre(num, [], e);
    CountVerdictsAre(num, [], e);
  }

  // ---- options -------------------------------------------------------------

  function OneOf(options: seq<Json>): Json {
    Object(map[Ascii("enum") := Array(options)])
  }

  lemma OneOfKeywords(options: seq<Json>)
    ensures KeywordsOf(OneOf(options).fields) == Only(None, None, None).(options := Some(Array(options)))
  {
    hide Ascii;
    KeywordsDiffer();
    NamesDiffer();
  }

  /** A schema that lists options is judged by them alone. */
  lemma OneOfVerdicts(options: seq<Json>, v: Json, e: Engine)
    requires NoUnsafe(v)
    ensures Failures(OneOf(options), v, [], OneOf(options), 0, e) == {} <==> Chosen(v, options)
    ensures NativeValidator.Valid(OneOf(options), v, OneOf(options), 0, e) <==> v in options
  {
    hide KeywordsOf, Ascii, Inherited, Canonical, Texts, CodePoints, Unsafe, Chosen;
    OneOfKeywords(options);
    var k := KeywordsOf(OneOf(options).fields);
    AtEmpty([], OwnFailures(k, v, e));
    assert Chosen(v, options) == (NotInEnum !in OwnFailures(k, v, e));
    match v {
      case Array(items) => ItemsEmpty(k, items, [], OneOf(options), 0, e);
      case Object(fields) => MembersEmpty(k, fields, [], OneOf(options), 0, e);
      case _ =>
    }
  }

  lemma OneOfReads(options: seq<Json>, e: Engine) returns (js: seq<Json>, native: seq<Json>)
    ensures Some(Array(js)) == JsIn(Some(Array(options)), e) && Some(Array(native)) == NativeIn(Some(Array(options)), e)
    ensures JsRead(OneOf(options), e) == OneOf(js) && NativeRead(OneOf(options), e) == OneOf(native)
    ensures |js| == |native| == |options|
    ensures forall i :: 0 <= i < |options| ==> js[i] == JsRead(options[i], e) && native[i] == NativeRead(options[i], e)
  {
    hide Ascii, Parsable;
    OneFieldReads(Ascii("enum"), Array(options), e);
    js, native := JsRead(Array(options), e).items, NativeRead(Array(options), e).items;
  }

  /** Options are judged alike exactly when what JavaScript reads any of them as, the native side reads one as. */
  lemma OptionsAgreeExactly(options: seq<Json>, e: Engine)
    requires Parsable(Array(options), e) && NoUnsafe(Array(options)) && Sane(e)
    ensures (forall v :: Parsable(v, e) && NoUnsafe(v) && AllSteady(v, e) ==> SameVerdict(OneOf(options), v, e))
       <==> FairOptions(options, e)
  {
    hide Failures, NativeValidator.Valid, NoUnsafe, Canonical, Ascii, AllSteady, JsRead, NativeRead, JsValue, Ordinary,
         Sane, OneOf, JsIn, NativeIn, Parsable;
    var js, native := OneOfReads(options, e);
    if FairOptions(options, e) {
      forall v | Parsable(v, e) && NoUnsafe(v) && AllSteady(v, e) ensures SameVerdict(OneOf(options), v, e) {
        SteadyValuesReadAlike(v, e);
        ParsedOnce(v, e);
        KeysSurviveParsing(v, 0, 0, e);
        OneOfVerdicts(js, JsRead(v, e), e);
        OneOfVerdicts(native, JsRead(v, e), e);
        FairOptionsAgree(JsRead(v, e), Some(Array(options)), e);
      }
    } else {
      var i :| 0 <= i < |options|
        && !exists j :: 0 <= j < |options| && NativeRead(options[j], e) == JsRead(options[i], e);
      MissedOption(options, i, js, native, e);
    }
  }

  /** An option whose JavaScript reading the native side reads none as. */
  lemma MissedOption(options: seq<Json>, i: nat, js: seq<Json>, native: seq<Json>, e: Engine)
    requires i < |options| == |js| == |native| && Parsable(Array(options), e) && NoUnsafe(Array(options)) && Sane(e)
    requires JsRead(OneOf(options), e) == OneOf(js) && NativeRead(OneOf(options), e) == OneOf(native)
    requires forall j :: 0 <= j < |options| ==>
      js[j] == JsRead(options[j], e) && native[j] == NativeRead(options[j], e) != JsRead(options[i], e)
    ensures var v := JsRead(options[i], e);
      Parsable(v, e) && NoUnsafe(v) && AllSteady(v, e) && !SameVerdict(OneOf(options), v, e)
  {
    hide Failures, NativeValidator.Valid, Canonical, Ascii, AllSteady, JsRead, NativeRead, JsValue, Ordinary, Sane,
         OneOf;
    var v := js[i];
    ParsedOnce(options[i], e);
    JsValuesAreRead(v, e);
    SteadyValuesReadAlike(v, e);
    assert NoUnsafe(options[i]);
    KeysSurviveParsing(options[i], 0, 0, e);
    OneOfVerdicts(js, v, e);
    OneOfVerdicts(native, v, e);
    assert Chosen(v, js);
  }

  // ---- distinct items ------------------------------------------------------

  function Unique(value: Json): Json {
    Object(map[Ascii("uniqueItems") := value])
  }

  lemma UniqueKeywords(value: Json)
    ensures KeywordsOf(Unique(value).fields) == Only(None, None, None).(uniqueItems := Some(value))
  {
    hide Ascii;
    KeywordsDiffer();
  }

  lemma UniqueOwn(value: Json, items: seq<Json>, e: Engine)
    ensures var k := Only(None, None, None).(uniqueItems := Some(value));
      && !Odd(k) && !Truthy(k.reference) && TextIn(k.reference).None? && !WrongKind(k, Array(items), e)
      && (OwnFailures(k, Array(items), e) == {} <==> (Truthy(Some(value)) ==> |Texts(items)| == |items|))
      && (NativeValidator.OwnValid(k, Array(items), e)
          <==> (value == Bool(true) ==> forall i :: 0 <= i < |items| ==> items[i] !in items[..i]))
  {
    hide Texts, Canonical;
    var k := Only(None, None, None).(uniqueItems := Some(value));
    var failed := Truthy(Some(value)) && |Texts(items)| != |items|;
    assert ShapeFailures(k, Array(items), e) == If(failed, DuplicateItems);
    assert OwnFailures(k, Array(items), e) == ShapeFailures(k, Array(items), e);
  }

  /** A demand for distinct items as either side understands it. */
  lemma UniqueVerdicts(value: Json, items: seq<Json>, e: Engine)
    ensures Failures(Unique(value), Array(items), [], Unique(value), 0, e) == {}
      <==> (Truthy(Some(value)) ==> |Texts(items)| == |items|)
    ensures NativeValidator.Valid(Unique(value), Array(items), Unique(value), 0, e)
      <==> (value == Bool(true) ==> forall i :: 0 <= i < |items| ==> items[i] !in items[..i])
  {
    hide KeywordsOf, Ascii, Texts, OwnFailures, NativeValidator.OwnValid, WrongKind, Odd;
    UniqueKeywords(value);
    UniqueOwn(value, items, e);
    var k := KeywordsOf(Unique(value).fields);
    AtEmpty([], OwnFailures(k, Array(items), e));
    ItemsEmpty(k, items, [], Unique(value), 0, e);
  }

  /** Items must be distinct natively only if a schema says `true`; in JavaScript if it says what counts as true. */
  lemma UniqueItemsAgreeExactly(value: Json, e: Engine)
    requires Sane(e)
    ensures (forall items :: Parsable(Array(items), e) && AllSteady(Array(items), e) ==>
              SameVerdict(Unique(value), Array(items), e))
       <==> (Truthy(Some(JsRead(value, e))) ==> value == Bool(true))
  {
    hide Failures, NativeValidator.Valid, Ascii, Texts, JsRead, NativeRead, Parsable, AllSteady, JsValue, Sane;
    OneFieldReads(Ascii("uniqueItems"), value, e);
    UniqueRead(Some(value), e);
    if Truthy(Some(JsRead(value, e))) ==> value == Bool(true) {
      forall items | Parsable(Array(items), e) && AllSteady(Array(items), e)
        ensures SameVerdict(Unique(value), Array(items), e)
      {
        SteadyValuesReadAlike(Array(items), e);
        ParsedOnce(Array(items), e);
        var js, native := ItemsReadAs(items, e);
        JsValuesAreRead(Array(js), e);
        UniquenessAgrees(js);
        UniqueVerdicts(JsRead(value, e), js, e);
        UniqueVerdicts(NativeRead(value, e), js, e);
      }
    } else {
      var twice := TwoNulls(e);
      UniqueVerdicts(JsRead(value, e), twice, e);
      UniqueVerdicts(NativeRead(value, e), twice, e);
      assert !SameVerdict(Unique(value), Array(twice), e);
    }
  }

  /** Two equal items that both parsers leave alone. */
  lemma TwoNulls(e: Engine) returns (items: seq<Json>)
    ensures items == [Null, Null] && |Texts(items)| == 1
    ensures Parsable(Array(items), e) && AllSteady(Array(items), e)
    ensures JsRead(Array(items), e) == Array(items) == NativeRead(Array(items), e)
  {
    items := [Null, Null];
    assert Texts(items) == {Canonical(Null)} by {
      assert items[0] == Null;
    }
    TwoNullsStay(items, e);
  }

  lemma TwoNullsStay(items: seq<Json>, e: Engine)
    requires items == [Null, Null]
    ensures JsRead(Array(items), e) == Array(items) == NativeRead(Array(items), e)
  {
    var js, native := ItemsReadAs(items, e);
    assert js == JsRead(Array(items), e).items && native == NativeRead(Array(items), e).items;
    assert js[0] == Null && js[1] == Null && native[0] == Null && native[1] == Null;
  }

  // ---- types ---------------------------------------------------------------

  function OfType(name: Units): Json {
    Object(map[Ascii("type") := Text(name)])
  }

  lemma OfTypeKeywords(name: Units)
    ensures KeywordsOf(OfType(name).fields) == Only(None, None, None).(kind := Some(Text(name)))
  {
    hide Ascii;
    KeywordsDiffer();
    NamesDiffer();
  }

  /** A schema that names a type is judged by that name alone. */
  lemma OfTypeVerdicts(name: Units, v: Json, e: Engine)
    requires NoUnsafe(v)
    ensures Failures(OfType(name), v, [], OfType(name), 0, e) == {} <==> name == [] || AnswerOf(name, v, e) == Yes
    ensures NativeValidator.Valid(OfType(name), v, OfType(name), 0, e) <==> HasKind(v, name, e)
  {
    hide KeywordsOf, Ascii, Inherited, Canonical, Texts, CodePoints, HasKind, Unsafe, AnswerOf;
    OfTypeKeywords(name);
    var k := KeywordsOf(OfType(name).fields);
    AtEmpty([], OwnFailures(k, v, e));
    match v {
      case Array(items) => ItemsEmpty(k, items, [], OfType(name), 0, e);
      case Object(fields) => MembersEmpty(k, fields, [], OfType(name), 0, e);
      case _ =>
    }
  }

  /** Both parsers see a value of the same type. */
  lemma KindsSurviveParsing(v: Json, name: Units, e: Engine)
    ensures HasKind(JsRead(v, e), name, e) <==> HasKind(NativeRead(v, e), name, e)
  {
    hide Ascii, AsDouble, PrintNum;
    match v {
      case Number(num) =>
        if num.Int? && FitsWord(num.n) {
          WordsRead(num.n, e);
        } else if AsDouble(num, e).Int? {
          WholeNumberIsPrinted(AsDouble(num, e).n);
        }
      case _ =>
    }
  }

  /** A value for which a name answers yes although it is no type. */
  function Witness(name: Units): Json {
    if LooksUpAccessors(name) then Text(Ascii("__proto__")) else Null
  }

  lemma UnfairNamesAreNoTypes(name: Units, e: Engine)
    requires !Fair(name)
    ensures var v := Witness(name); !HasKind(v, name, e) && (name == [] || AnswerOf(name, v, e) == Yes)
  {
    hide Ascii, HasKind;
    if name != [] {
      assert Inherited(name);
      InheritedIsNoKind(name, Witness(name), e);
      assert Canonical(Null) == Ascii("null");
      LookupsDiffer();
    } else {
      EmptyIsNoKind(e);
    }
  }

  lemma EmptyIsNoKind(e: Engine)
    ensures !HasKind(Witness([]), [], e)
  {
  }

  lemma LookupsDiffer()
    ensures !LooksUpTypes(Ascii("__lookupGetter__")) && !LooksUpTypes(Ascii("__lookupSetter__"))
  {
    assert |Ascii("__lookupGetter__")| == |Ascii("__lookupSetter__")| == 16;
  }

  /**
   * A type name is read alike on all values exactly when it is not empty and no function that objects
   * inherit and that answers yes to some value.
   */
  lemma TypesAgreeExactly(name: Units, e: Engine)
    ensures (forall v :: Parsable(v, e) && NoUnsafe(v) ==> SameVerdict(OfType(name), v, e)) <==> Fair(name)
  {
    hide Ascii, Parsable, NoUnsafe, Failures, NativeValidator.Valid, AnswerOf, HasKind, Fair, JsRead, NativeRead;
    OfTypeStays(name, e);
    if Fair(name) {
      forall v | Parsable(v, e) && NoUnsafe(v) ensures SameVerdict(OfType(name), v, e) {
        KeysSurviveParsing(v, 0, 0, e);
        KindsSurviveParsing(v, name, e);
        OfTypeVerdicts(name, JsRead(v, e), e);
        OfTypeVerdicts(name, NativeRead(v, e), e);
        KindsAgree(name, JsRead(v, e), e);
        NotEmptyIfFair(name);
      }
    } else {
      var v := Witness(name);
      WitnessStays(name, e);
      UnfairNamesAreNoTypes(name, e);
      OfTypeVerdicts(name, v, e);
      assert !SameVerdict(OfType(name), v, e);
    }
  }

  lemma NotEmptyIfFair(name: Units)
    requires Fair(name)
    ensures name != []
  {
  }

  lemma WitnessStays(name: Units, e: Engine)
    ensures var v := Witness(name); Parsable(v, e) && NoUnsafe(v) && JsRead(v, e) == v == NativeRead(v, e)
  {
    hide Paired;
    NamesArePaired("__proto__");
  }

  lemma OfTypeStays(name: Units, e: Engine)
    ensures JsRead(OfType(name), e) == OfType(name) == NativeRead(OfType(name), e)
  {
    hide Ascii, Parsable;
    OneFieldReads(Ascii("type"), Text(name), e);
  }

  // ---- references ----------------------------------------------------------

  function Refers(reference: Units): Json {
    Object(map[Ascii("$ref") := Text(reference)])
  }

  lemma RefersKeywords(reference: Units)
    ensures KeywordsOf(Refers(reference).fields) == Only(None, None, None).(reference := Some(Text(reference)))
  {
    hide Ascii;
    KeywordsDiffer();
    NamesDiffer();
  }

  /** An empty reference is no reference in JavaScript, which accepts, and one to nothing natively, which rejects. */
  lemma EmptyReferencesDiffer(v: Json, e: Engine)
    requires NoUnsafe(v)
    ensures !SameVerdict(Refers([]), v, e)
  {
    hide KeywordsOf, Ascii, Failures, NativeValidator.Valid, JsRead, NativeRead, Parsable;
    OneFieldReads(Ascii("$ref"), Text([]), e);
    TextsStay([], e);
    KeysSurviveParsing(v, 0, 0, e);
    EmptyReferenceAccepts(JsRead(v, e), e);
    EmptyReferenceRejects(NativeRead(v, e), e);
  }

  lemma EmptyReferenceRejects(v: Json, e: Engine)
    ensures !NativeValidator.Valid(Refers([]), v, Refers([]), 0, e)
  {
    hide KeywordsOf, Ascii, NativeValidator.OwnValid, NativeValidator.PartsValid;
    RefersKeywords([]);
  }

  lemma EmptyReferenceAccepts(v: Json, e: Engine)
    requires NoUnsafe(v)
    ensures Failures(Refers([]), v, [], Refers([]), 0, e) == {}
  {
    hide KeywordsOf, Ascii, Inherited, Canonical, Texts, CodePoints, Unsafe;
    RefersKeywords([]);
    var k := KeywordsOf(Refers([]).fields);
    AtEmpty([], OwnFailures(k, v, e));
    match v {
      case Array(items) => ItemsEmpty(k, items, [], Refers([]), 0, e);
      case Object(fields) => MembersEmpty(k, fields, [], Refers([]), 0, e);
      case _ =>
    }
  }

  // ---- registration --------------------------------------------------------

  /** A schema with one keyword that holds no schemas is registered whatever its value, types and references apart. */
  lemma OneKeywordIsRegistered(key: Units, value: Json, e: Engine)
    requires InVocabulary(key) && !IsGroup(key)
    requires key != Ascii("items") && key != Ascii("additionalProperties") && key != Ascii("pattern")
    requires key == Ascii("type") ==> value.Text?
    requires key == Ascii("$ref") ==> value == Text([])
    ensures Registered(Object(map[key := value]), 0, e)
  {
    hide Ascii, InVocabulary, Local;
  }

  /**
   * Registration admits every limit, every list of options, every type name, any demand for distinct items
   * and the empty reference.
   */
  lemma RegisteredSchemasCanDiffer(num: Num, options: seq<Json>, name: Units, unique: Json, e: Engine)
    ensures Registered(MaxLength(num), 0, e) && Registered(MinLength(num), 0, e)
    ensures Registered(MaxItems(num), 0, e) && Registered(MinItems(num), 0, e)
    ensures Registered(OneOf(options), 0, e) && Registered(Unique(unique), 0, e)
    ensures Registered(OfType(name), 0, e) && Registered(Refers([]), 0, e)
  {
    hide Ascii, InVocabulary, Registered;
    KeywordsDiffer();
    NamesDiffer();
    ProbeNamesAreKnown();
    GroupNamesDiffer();
    InTheVocabulary(11);
    InTheVocabulary(12);
    InTheVocabulary(20);
    OneKeywordIsRegistered(Ascii("maxLength"), Number(num), e);
    OneKeywordIsRegistered(Ascii("minLength"), Number(num), e);
    OneKeywordIsRegistered(Ascii("maxItems"), Number(num), e);
    OneKeywordIsRegistered(Ascii("minItems"), Number(num), e);
    OneKeywordIsRegistered(Ascii("enum"), Array(options), e);
    OneKeywordIsRegistered(Ascii("uniqueItems"), unique, e);
    OneKeywordIsRegistered(Ascii("type"), Text(name), e);
    OneKeywordIsRegistered(Ascii("$ref"), Text([]), e);
  }
}
