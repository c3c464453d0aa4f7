/** Reading a canonical text gives the value back, so equal texts mean equal values. */
module JsonRoundTrip {
  import opened Common
  import opened Ordering
  import opened Json

  /** What may follow a value inside a canonical text. */
  predicate Ends(rest: Units) {
    rest == [] || rest[0] == COMMA || rest[0] == CLOSE_ARRAY || rest[0] == CLOSE_OBJECT
  }

  // ---- numbers -------------------------------------------------------------

  predicate AllDigits(s: Units) {
    forall i :: 0 <= i < |s| ==> IsDigit(s[i])
  }

  lemma {:induction false} DecimalIsExact(n: nat)
    ensures AllDigits(Decimal(n)) && Decimal(n) != [] && DecimalValue(Decimal(n)) == n
    ensures Decimal(n)[0] == ZERO ==> n == 0 && Decimal(n) == [ZERO]
  {
    if n < 10 {
      assert DecimalValue([ZERO + n]) == n;
    } else {
      DecimalIsExact(n / 10);
      var front, s := Decimal(n / 10), Decimal(n);
      assert s[..|s| - 1] == front && s[0] == front[0];
    }
  }

  lemma {:induction false} DigitsOfDigits(s: Units, rest: Units)
    requires AllDigits(s) && (rest == [] || !IsDigit(rest[0]))
    ensures Digits(s + rest) == |s|
  {
    if s == [] {
      assert s + rest == rest;
    } else {
      assert (s + rest)[1..] == s[1..] + rest;
      DigitsOfDigits(s[1..], rest);
    }
  }

  lemma {:induction false} RunOfNumberUnits(s: Units, rest: Units)
    requires forall i :: 0 <= i < |s| ==> IsNumberUnit(s[i])
    requires Ends(rest)
    ensures NumberRun(s + rest) == |s|
  {
    if s == [] {
      assert s + rest == rest;
    } else {
      assert (s + rest)[1..] == s[1..] + rest;
      RunOfNumberUnits(s[1..], rest);
    }
  }

  lemma {:induction false} DigitsAreDigits(s: Units, i: nat)
    requires i < Digits(s)
    ensures IsDigit(s[i])
  {
    if i > 0 {
      DigitsAreDigits(s[1..], i - 1);
    }
  }

  predicate AllNumberUnits(s: Units) {
    forall i :: 0 <= i < |s| ==> IsNumberUnit(s[i])
  }

  lemma DigitsAreNumberUnits(s: Units)
    ensures AllNumberUnits(s[..Digits(s)])
  {
    forall i | 0 <= i < Digits(s) ensures IsNumberUnit(s[i]) { DigitsAreDigits(s, i); }
  }

  lemma ExponentHasNumberUnits(s: Units)
    requires IsExponent(s)
    ensures AllNumberUnits(s)
  {
    if s != [] {
      var k := if |s| > 1 && (s[1] == PLUS || s[1] == MINUS) then 2 else 1;
      DigitsAreNumberUnits(s[k..]);
      assert s[k..][..Digits(s[k..])] == s[k..];
      forall i | 0 <= i < |s| ensures IsNumberUnit(s[i]) {
        if i >= k { assert s[i] == s[k..][i - k]; }
      }
    }
  }

  lemma FractionHasNumberUnits(s: Units)
    requires IsFraction(s)
    ensures AllNumberUnits(s)
  {
    if s != [] && s[0] == POINT {
      var k := Digits(s[1..]);
      DigitsAreNumberUnits(s[1..]);
      ExponentHasNumberUnits(s[1 + k..]);
      forall i | 0 <= i < |s| ensures IsNumberUnit(s[i]) {
        if 0 < i < 1 + k { assert s[i] == s[1..][..k][i - 1]; }
        if i >= 1 + k { assert s[i] == s[1 + k..][i - 1 - k]; }
      }
    } else {
      ExponentHasNumberUnits(s);
    }
  }

  lemma NumberHasNumberUnits(s: Units)
    requires IsNumber(s)
    ensures AllNumberUnits(s) && s != [] && (s[0] == MINUS || IsDigit(s[0]))
  {
    var sign := if s[0] == MINUS then 1 else 0;
    var u := s[sign..];
    var k := Digits(u);
    DigitsAreNumberUnits(u);
    FractionHasNumberUnits(u[k..]);
    assert IsDigit(u[0]);
    forall i | 0 <= i < |s| ensures IsNumberUnit(s[i]) {
      if sign <= i < sign + k { assert s[i] == u[..k][i - sign]; }
      if i >= sign + k { assert s[i] == u[k..][i - sign - k]; }
    }
  }

  /** Digits without a superfluous zero are a whole number, with or without a sign. */
  lemma DigitsAreANumber(digits: Units)
    requires AllDigits(digits) && digits != [] && (digits[0] == ZERO ==> |digits| == 1)
    ensures IsNumber(digits) && IsWhole(digits)
    ensures IsNumber([MINUS] + digits) && IsWhole([MINUS] + digits)
  {
    DigitsOfDigits(digits, []);
    assert digits + [] == digits;
    assert digits[|digits|..] == [];
    assert ([MINUS] + digits)[1..] == digits;
  }

  lemma WholeNumberIsPrinted(n: int)
    ensures var token := PrintNum(Int(n));
      IsNumber(token) && IsWhole(token) && WholeOf(token) == n && token != [MINUS, ZERO]
  {
    hide IsNumber, IsWhole, Decimal, DecimalValue;
    var digits := Decimal(if n < 0 then -n else n);
    DecimalIsExact(if n < 0 then -n else n);
    DigitsAreANumber(digits);
    assert n >= 0 ==> digits[0] != MINUS;
    assert n < 0 ==> PrintNum(Int(n))[1..] == digits;
  }

  /** A valid number is what its own text is read as. */
  lemma PrintedTokenIsRead(num: Num)
    requires ValidNum(num)
    ensures IsNumber(PrintNum(num)) && NumOf(PrintNum(num)) == num
  {
    hide IsNumber, IsWhole, Decimal, DecimalValue;
    if num.Int? { WholeNumberIsPrinted(num.n); }
  }

  /** The valid numbers are exactly those that some token of the grammar is read as. */
  lemma ValidNumbersAreRead(num: Num)
    ensures ValidNum(num) <==> exists token :: IsNumber(token) && NumOf(token) == num
  {
    hide IsNumber, IsWhole, DecimalValue;
    if ValidNum(num) { PrintedTokenIsRead(num); }
  }

  lemma NumberIsReadBack(num: Num, rest: Units)
    requires ValidNum(num) && Ends(rest)
    ensures ReadValue(PrintNum(num) + rest) == Parsed(Number(num), rest)
  {
    hide NumOf;
    var token := PrintNum(num);
    PrintedTokenIsRead(num);
    NumberHasNumberUnits(token);
    RunOfNumberUnits(token, rest);
    var s := token + rest;
    assert s[0] == token[0];
    assert s[..|token|] == token && s[|token|..] == rest;
  }

  // ---- text ----------------------------------------------------------------

  lemma HexDigitIsExact(d: nat)
    requires d < 16
    ensures HexValue(HexDigit(d)) == Some(d)
  {
  }

  lemma HexIsExact(u: Unit)
    ensures ReadHex(Hex(u)[2..6]) == Some(u)
  {
    hide HexDigit, HexValue;
    HexDigitIsExact(u / 16 / 16 / 16);
    HexDigitIsExact(u / 16 / 16 % 16);
    HexDigitIsExact(u / 16 % 16);
    HexDigitIsExact(u % 16);
  }

  lemma UnitIsReadBack(u: Unit, s: Units)
    ensures ReadText(EscapeUnit(u) + s) == Prepend(u, ReadText(s))
  {
    var all := EscapeUnit(u) + s;
    if Letter(u).Some? {
      assert all[2..] == s;
    } else if |EscapeUnit(u)| == 6 {
      HexIsExact(u);
      assert all[2..6] == Hex(u)[2..6] && all[6..] == s;
      assert all[1] == LOWER_U;
    } else {
      assert all[1..] == s;
    }
  }

  /** A surrogate pair is read as it stands. */
  lemma PairIsReadBack(high: Unit, low: Unit, s: Units)
    requires IsHigh(high) && IsLow(low)
    ensures ReadText([high, low] + s) == Prepend(high, Prepend(low, ReadText(s)))
  {
    assert ([high, low] + s)[1..] == [low] + s && ([low] + s)[1..] == s;
  }

  /** How many units one step of the escaping takes. */
  function StepOf(s: Units): (n: nat)
    requires s != []
    ensures 0 < n <= |s|
  {
    if IsHigh(s[0]) && |s| > 1 && IsLow(s[1]) then 2 else 1
  }

  lemma StepIsReadBack(s: Units, after: Units)
    requires s != []
    ensures var n := StepOf(s);
      Escape(s) == (if n == 2 then s[..2] else EscapeUnit(s[0])) + Escape(s[n..])
    ensures var n := StepOf(s);
      ReadText((if n == 2 then s[..2] else EscapeUnit(s[0])) + after)
      == if n == 2 then Prepend(s[0], Prepend(s[1], ReadText(after))) else Prepend(s[0], ReadText(after))
  {
    hide EscapeUnit, ReadText;
    if StepOf(s) == 2 {
      PairIsReadBack(s[0], s[1], after);
      assert s[..2] == [s[0], s[1]];
    } else {
      UnitIsReadBack(s[0], after);
    }
  }

  lemma {:induction false} TextIsReadBack(s: Units, rest: Units)
    ensures ReadText(Escape(s) + [QUOTE] + rest) == Parsed(s, rest)
  {
    hide EscapeUnit, ReadText, Escape, IsHigh, IsLow;
    if s == [] {
      EndIsRead(rest);
    } else {
      var n := StepOf(s);
      var front := if n == 2 then s[..2] else EscapeUnit(s[0]);
      var after := Escape(s[n..]) + [QUOTE] + rest;
      TextIsReadBack(s[n..], rest);
      StepIsReadBack(s, after);
      assert Escape(s) + [QUOTE] + rest == front + after;
      assert s == (if n == 2 then [s[0]] + ([s[1]] + s[2..]) else [s[0]] + s[1..]);
    }
  }

  lemma EndIsRead(rest: Units)
    ensures ReadText(Escape([]) + [QUOTE] + rest) == Parsed([], rest)
  {
    assert Escape([]) + [QUOTE] + rest == [QUOTE] + rest;
    assert ([QUOTE] + rest)[1..] == rest;
  }

  // ---- values --------------------------------------------------------------

  /** A value is read back from its canonical text wherever that text may stand. */
  ghost predicate Reads(v: Json) {
    forall rest :: Ends(rest) ==> ReadValue(Canonical(v) + rest) == Parsed(v, rest)
  }

  /** Canonical texts are not empty and start with neither white space nor a closing bracket. */
  lemma CanonicalStarts(v: Json)
    requires WellFormed(v)
    ensures var s := Canonical(v); s != [] && SkipSpace(s) == s && s[0] != CLOSE_ARRAY && s[0] != CLOSE_OBJECT
  {
    hide SortedKeys, Join, Escape, WellFormed;
    match v {
      case Number(num) => NumberStarts(num);
      case _ =>
    }
  }

  lemma NumberStarts(num: Num)
    requires WellFormed(Number(num))
    ensures var s := PrintNum(num); s != [] && (s[0] == MINUS || IsDigit(s[0]))
  {
    if num.Int? { WholeNumberIsPrinted(num.n); }
    NumberHasNumberUnits(PrintNum(num));
  }

  lemma {:induction false} ItemsAreReadBack(items: seq<Json>, parts: seq<Units>, i: nat, rest: Units)
    requires i < |items| == |parts|
    requires forall j :: 0 <= j < |items| ==> parts[j] == Canonical(items[j]) && Reads(items[j])
    ensures ReadItems(Join(parts[i..]) + [CLOSE_ARRAY] + rest) == Parsed(items[i..], rest)
    decreases |items| - i
  {
    hide Canonical, ReadValue, Reads;
    var s := Join(parts[i..]) + [CLOSE_ARRAY] + rest;
    if i == |items| - 1 {
      var after := [CLOSE_ARRAY] + rest;
      assert s == parts[i] + after;
      ReadsAt(items[i], after);
      assert after[1..] == rest;
      assert items[i..] == [items[i]];
    } else {
      ItemsAreReadBack(items, parts, i + 1, rest);
      var next := Join(parts[i + 1..]) + [CLOSE_ARRAY] + rest;
      var after := [COMMA] + next;
      assert parts[i..][1..] == parts[i + 1..];
      assert s == parts[i] + after;
      ReadsAt(items[i], after);
      assert after[1..] == next;
      assert items[i..] == [items[i]] + items[i + 1..];
    }
  }

  lemma ReadsAt(v: Json, rest: Units)
    requires Reads(v) && Ends(rest)
    ensures ReadValue(Canonical(v) + rest) == Parsed(v, rest)
  {
  }

  ghost function Member(fields: map<Units, Json>, key: Units): Units
    requires key in fields
  {
    Quoted(key) + [COLON] + Canonical(fields[key])
  }

  lemma MemberIsReadBack(fields: map<Units, Json>, key: Units, rest: Units)
    requires key in fields && Reads(fields[key]) && Ends(rest)
    ensures ReadMember(Member(fields, key) + rest) == Parsed((key, fields[key]), rest)
  {
    hide Canonical, ReadValue, Reads, Escape;
    var v := Canonical(fields[key]);
    var after := [COLON] + v + rest;
    var s := Member(fields, key) + rest;
    assert s == [QUOTE] + (Escape(key) + [QUOTE] + after);
    assert s[1..] == Escape(key) + [QUOTE] + after;
    TextIsReadBack(key, after);
    assert after[1..] == v + rest;
    ReadsAt(fields[key], rest);
  }

  lemma {:induction false} MembersAreReadBack(fields: map<Units, Json>, keys: seq<Units>, parts: seq<Units>, i: nat,
                                              rest: Units)
    requires i < |keys| == |parts| && Sorted(UnitsBefore, keys)
    requires forall j :: 0 <= j < |keys| ==>
      keys[j] in fields && parts[j] == Member(fields, keys[j]) && Reads(fields[keys[j]])
    ensures ReadMembers(Join(parts[i..]) + [CLOSE_OBJECT] + rest) == Parsed(Members(fields, keys[i..]), rest)
    decreases |keys| - i
  {
    hide Canonical, ReadValue, Reads, ReadMember, Member, Members;
    var s := Join(parts[i..]) + [CLOSE_OBJECT] + rest;
    var key := keys[i];
    if i == |keys| - 1 {
      var after := [CLOSE_OBJECT] + rest;
      assert s == parts[i] + after;
      MemberIsReadBack(fields, key, after);
      assert after[1..] == rest;
      assert keys[i..] == [key];
    } else {
      MembersAreReadBack(fields, keys, parts, i + 1, rest);
      var next := Join(parts[i + 1..]) + [CLOSE_OBJECT] + rest;
      var after := [COMMA] + next;
      assert parts[i..][1..] == parts[i + 1..];
      assert s == parts[i] + after;
      MemberIsReadBack(fields, key, after);
      assert after[1..] == next;
      assert keys[i..] == [key] + keys[i + 1..];
    }
    FirstMember(fields, keys[i..]);
  }

  function Members(fields: map<Units, Json>, keys: seq<Units>): map<Units, Json> {
    map key | key in fields && key in keys :: fields[key]
  }

  lemma FirstMember(fields: map<Units, Json>, keys: seq<Units>)
    requires keys != [] && keys[0] in fields
    ensures Members(fields, keys) == map[keys[0] := fields[keys[0]]] + Members(fields, keys[1..])
    ensures |keys| == 1 ==> Members(fields, keys) == map[keys[0] := fields[keys[0]]]
  {
  }

  lemma LiteralsAreReadBack(v: Json)
    requires v.Null? || v.Bool?
    ensures Reads(v)
  {
    forall rest | Ends(rest) ensures ReadValue(Canonical(v) + rest) == Parsed(v, rest) {
      var s := Canonical(v) + rest;
      assert s[|Canonical(v)|..] == rest;
      assert s[0] == Canonical(v)[0];
    }
  }

  /** Reading the canonical text of a value gives that value and stops where the text ends. */
  lemma {:induction false} ValueIsReadBack(v: Json)
    requires WellFormed(v)
    ensures Reads(v)
  {
    match v {
      case Number(num) =>
        forall rest | Ends(rest)
          ensures ReadValue(Canonical(v) + rest) == Parsed(v, rest)
        {
          NumberIsReadBack(num, rest);
        }
      case Text(text) =>
        forall rest | Ends(rest) ensures ReadValue(Canonical(v) + rest) == Parsed(v, rest) {
          var s := Canonical(v) + rest;
          assert s == [QUOTE] + (Escape(text) + [QUOTE] + rest);
          assert s[1..] == Escape(text) + [QUOTE] + rest;
          TextIsReadBack(text, rest);
        }
      case Array(items) =>
        forall i | 0 <= i < |items| ensures Reads(items[i]) { ValueIsReadBack(items[i]); }
        forall rest | Ends(rest)
          ensures ReadValue(Canonical(v) + rest) == Parsed(v, rest)
        {
          ArrayIsReadBack(items, rest);
        }
      case Object(fields) =>
        forall key | key in fields ensures Reads(fields[key]) { ValueIsReadBack(fields[key]); }
        forall rest | Ends(rest)
          ensures ReadValue(Canonical(v) + rest) == Parsed(v, rest)
        {
          ObjectIsReadBack(fields, rest);
        }
      case _ => LiteralsAreReadBack(v);
    }
  }

  lemma ArrayOpens(inner: Units, items: seq<Json>, rest: Units)
    requires ReadItems(inner) == Parsed(items, rest)
    requires inner != [] && SkipSpace(inner) == inner && inner[0] != CLOSE_ARRAY
    ensures ReadValue([OPEN_ARRAY] + inner) == Parsed(Array(items), rest)
  {
    hide ReadItems, ReadMembers;
    assert ([OPEN_ARRAY] + inner)[1..] == inner;
  }

  lemma EmptyArray(rest: Units)
    ensures ReadValue([OPEN_ARRAY] + ([CLOSE_ARRAY] + rest)) == Parsed(Array([]), rest)
  {
    hide ReadItems, ReadMembers;
    assert ([OPEN_ARRAY] + ([CLOSE_ARRAY] + rest))[1..] == [CLOSE_ARRAY] + rest;
    assert ([CLOSE_ARRAY] + rest)[1..] == rest;
  }

  lemma ObjectOpens(inner: Units, fields: map<Units, Json>, rest: Units)
    requires ReadMembers(inner) == Parsed(fields, rest) && inner != [] && inner[0] == QUOTE
    ensures ReadValue([OPEN_OBJECT] + inner) == Parsed(Object(fields), rest)
  {
    hide ReadItems, ReadMembers;
    assert ([OPEN_OBJECT] + inner)[1..] == inner;
  }

  lemma EmptyObject(rest: Units)
    ensures ReadValue([OPEN_OBJECT] + ([CLOSE_OBJECT] + rest)) == Parsed(Object(map[]), rest)
  {
    hide ReadItems, ReadMembers;
    assert ([OPEN_OBJECT] + ([CLOSE_OBJECT] + rest))[1..] == [CLOSE_OBJECT] + rest;
    assert ([CLOSE_OBJECT] + rest)[1..] == rest;
  }

  lemma ArrayIsReadBack(items: seq<Json>, rest: Units)
    requires forall i :: 0 <= i < |items| ==> WellFormed(items[i]) && Reads(items[i])
    ensures ReadValue(Canonical(Array(items)) + rest) == Parsed(Array(items), rest)
  {
    hide Reads, ReadItems, ReadValue;
    var parts := seq(|items|, i requires 0 <= i < |items| => Canonical(items[i]));
    var inner := Join(parts) + [CLOSE_ARRAY] + rest;
    assert Canonical(Array(items)) + rest == [OPEN_ARRAY] + inner;
    if items == [] {
      assert inner == [CLOSE_ARRAY] + rest;
      EmptyArray(rest);
    } else {
      ItemsAreReadBack(items, parts, 0, rest);
      assert parts[0..] == parts && items[0..] == items;
      CanonicalStarts(items[0]);
      assert inner[0] == parts[0][0];
      ArrayOpens(inner, items, rest);
    }
  }

  ghost function MemberTexts(fields: map<Units, Json>): (parts: seq<Units>)
    ensures |parts| == |SortedKeys(fields.Keys)|
  {
    var keys := SortedKeys(fields.Keys);
    assert forall i :: 0 <= i < |keys| ==> keys[i] in Elements(keys);
    seq(|keys|, i requires 0 <= i < |keys| => Member(fields, keys[i]))
  }

  lemma CanonicalObject(fields: map<Units, Json>)
    ensures Canonical(Object(fields)) == [OPEN_OBJECT] + Join(MemberTexts(fields)) + [CLOSE_OBJECT]
  {
    hide Join, Quoted;
    var keys := SortedKeys(fields.Keys);
    assert forall i :: 0 <= i < |keys| ==> keys[i] in Elements(keys);
    assert MemberTexts(fields)
        == seq(|keys|, i requires 0 <= i < |keys| => Quoted(keys[i]) + [COLON] + Canonical(fields[keys[i]]));
  }

  lemma ObjectIsReadBack(fields: map<Units, Json>, rest: Units)
    requires forall key :: key in fields ==> Reads(fields[key])
    ensures ReadValue(Canonical(Object(fields)) + rest) == Parsed(Object(fields), rest)
  {
    hide Reads, ReadMembers, Canonical, ReadValue, SortedKeys;
    var parts := MemberTexts(fields);
    var inner := Join(parts) + [CLOSE_OBJECT] + rest;
    CanonicalObject(fields);
    assert Canonical(Object(fields)) + rest == [OPEN_OBJECT] + inner;
    if SortedKeys(fields.Keys) == [] {
      assert fields.Keys == {};
      assert inner == [CLOSE_OBJECT] + rest;
      EmptyObject(rest);
    } else {
      AllMembersAreReadBack(fields, rest);
      assert inner[0] == parts[0][0] == QUOTE;
      ObjectOpens(inner, fields, rest);
    }
  }

  lemma AllMembersAreReadBack(fields: map<Units, Json>, rest: Units)
    requires (forall key :: key in fields ==> Reads(fields[key])) && SortedKeys(fields.Keys) != []
    ensures ReadMembers(Join(MemberTexts(fields)) + [CLOSE_OBJECT] + rest) == Parsed(fields, rest)
  {
    hide Reads, ReadMembers, Canonical, Join, Member;
    var (keys, parts) := (SortedKeys(fields.Keys), MemberTexts(fields));
    assert forall i :: 0 <= i < |keys| ==> keys[i] in Elements(keys);
    MembersAreReadBack(fields, keys, parts, 0, rest);
    assert parts[0..] == parts && keys[0..] == keys;
    assert forall key :: key in fields ==> key in Elements(keys);
    assert Members(fields, keys) == fields;
  }

  /** Parsing a canonical text gives the value back. */
  lemma CanonicalReadsBack(v: Json)
    requires WellFormed(v)
    ensures Parse(Canonical(v)) == Some(v)
  {
    hide Canonical, ReadValue;
    ValueIsReadBack(v);
    ReadsAt(v, []);
    assert Canonical(v) + [] == Canonical(v);
  }

  /** Equal canonical texts mean equal values, whatever order their keys were written in. */
  lemma CanonicalIsInjective(a: Json, b: Json)
    requires WellFormed(a) && WellFormed(b)
    ensures Canonical(a) == Canonical(b) <==> a == b
  {
    CanonicalReadsBack(a);
    CanonicalReadsBack(b);
  }

  // ---- what texts are read as ----------------------------------------------

  lemma {:induction false} ReadValuesAreWellFormed(s: Units)
    ensures var r := ReadValue(s); r.Parsed? ==> WellFormed(r.value)
    decreases |s|, 2
  {
    hide IsNumber, NumOf, ReadText, ReadItems, ReadMembers;
    var t := SkipSpace(s);
    if t != [] {
      if t[0] == OPEN_OBJECT {
        ReadMembersAreWellFormed(t[1..]);
      } else if t[0] == OPEN_ARRAY {
        ReadItemsAreWellFormed(t[1..]);
      } else {
        ValidNumbersAreRead(NumOf(t[..NumberRun(t)]));
      }
    }
  }

  lemma {:induction false} ReadItemsAreWellFormed(s: Units)
    ensures var r := ReadItems(s); r.Parsed? ==> forall i :: 0 <= i < |r.value| ==> WellFormed(r.value[i])
    decreases |s|, 3
  {
    hide ReadValue;
    ReadValuesAreWellFormed(s);
    if ReadValue(s).Parsed? {
      var t := SkipSpace(ReadValue(s).rest);
      if Starts(t, COMMA) { ReadItemsAreWellFormed(t[1..]); }
    }
  }

  lemma ReadMemberIsWellFormed(s: Units)
    ensures var r := ReadMember(s); r.Parsed? ==> WellFormed(r.value.1)
    decreases |s|, 3
  {
    hide ReadValue, ReadText;
    var t := SkipSpace(s);
    if Starts(t, QUOTE) && ReadText(t[1..]).Parsed? {
      var u := SkipSpace(ReadText(t[1..]).rest);
      if Starts(u, COLON) { ReadValuesAreWellFormed(u[1..]); }
    }
  }

  lemma {:induction false} ReadMembersAreWellFormed(s: Units)
    ensures var r := ReadMembers(s); r.Parsed? ==> forall key :: key in r.value ==> WellFormed(r.value[key])
    decreases |s|, 4
  {
    hide ReadMember;
    ReadMemberIsWellFormed(s);
    if ReadMember(s).Parsed? {
      var t := SkipSpace(ReadMember(s).rest);
      if Starts(t, COMMA) { ReadMembersAreWellFormed(t[1..]); }
    }
  }

  /** The well-formed values are exactly those that some text is parsed to. */
  lemma WellFormedExactlyIfParsed(v: Json)
    ensures WellFormed(v) <==> exists s :: Parse(s) == Some(v)
  {
    hide WellFormed, ReadValue, Canonical;
    if WellFormed(v) { CanonicalReadsBack(v); }
    forall s | Parse(s) == Some(v) ensures WellFormed(v) { ReadValuesAreWellFormed(s); }
  }
}
