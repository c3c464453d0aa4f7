/** Which names the sync service accepts, told character by character. */
module SyncKeys {
  import opened Common
  import opened SyncModel

  predicate Letter(c: char) {
    'a' <= c <= 'z' || '0' <= c <= '9' || c == '-' || c == '_'
  }

  /** Letters with single dots between them. */
  predicate Dotted(s: string) {
    && s != "" && s[0] != '.' && s[|s| - 1] != '.'
    && (forall i :: 0 <= i < |s| ==> Letter(s[i]) || s[i] == '.')
    && (forall i :: 0 <= i < |s| - 1 ==> s[i] != '.' || s[i + 1] != '.')
  }

  predicate GoodPart(part: string) {
    part != "" && forall c :: c in part ==> KeyChar(c)
  }

  predicate GoodParts(parts: seq<string>) {
    forall i :: 0 <= i < |parts| ==> GoodPart(parts[i])
  }

  lemma GoodPartsOfMore(first: string, rest: seq<string>)
    ensures GoodParts([first] + rest) <==> GoodPart(first) && GoodParts(rest)
  {
    var all := [first] + rest;
    assert all[0] == first && forall i :: 0 <= i < |rest| ==> all[i + 1] == rest[i];
    assert forall i :: 0 < i < |all| ==> all[i] == rest[i - 1];
  }

  lemma LongerPart(c: char, part: string)
    ensures GoodPart([c] + part) <==> KeyChar(c) && (part == "" || GoodPart(part))
  {
    assert forall x :: x in [c] + part <==> x == c || x in part;
  }

  /** The parts between the dots are good exactly if the dots stand alone between letters. */
  lemma {:induction false} PartsAreGoodExactly(s: string)
    ensures GoodParts(Parts(s)) <==> Dotted(s)
    decreases |s|
  {
    hide GoodPart, GoodParts;
    if s == "" {
      assert Parts(s) == [""] + [];
      GoodPartsOfMore("", []);
      EmptyIsNoPart();
    } else if s[0] == '.' {
      GoodPartsOfMore("", Parts(s[1..]));
      EmptyIsNoPart();
    } else {
      var rest := Parts(s[1..]);
      assert rest == [rest[0]] + rest[1..];
      GoodPartsOfMore([s[0]] + rest[0], rest[1..]);
      GoodPartsOfMore(rest[0], rest[1..]);
      LongerPart(s[0], rest[0]);
      assert s == [s[0]] + s[1..];
      if s[1..] == "" {
        EmptyIsNoPart();
        NothingElse();
      } else if s[1] == '.' {
        PartsAreGoodExactly(s[2..]);
        assert s[1..][1..] == s[2..];
        assert rest[0] == "" && rest[1..] == Parts(s[2..]);
        DottedAfterDot(s);
      } else {
        PartsAreGoodExactly(s[1..]);
        assert rest[0] != "";
        DottedAfterLetter(s);
      }
    }
  }

  lemma EmptyIsNoPart()
    ensures !GoodPart("")
  {
  }

  lemma NothingElse()
    ensures GoodParts([])
  {
  }

  lemma DottedAfterDot(s: string)
    requires |s| > 1 && s[0] != '.' && s[1] == '.'
    ensures Dotted(s) <==> Letter(s[0]) && Dotted(s[2..])
  {
    var rest := s[2..];
    assert forall i :: 0 <= i < |rest| ==> rest[i] == s[i + 2];
    if Dotted(rest) && Letter(s[0]) {
      forall i | 0 <= i < |s| ensures Letter(s[i]) || s[i] == '.' { if i > 1 { assert s[i] == rest[i - 2]; } }
      forall i | 0 <= i < |s| - 1 ensures s[i] != '.' || s[i + 1] != '.' {
        if i > 1 { assert s[i] == rest[i - 2] && s[i + 1] == rest[i - 1]; }
      }
    }
  }

  lemma DottedAfterLetter(s: string)
    requires |s| > 1 && s[0] != '.' && s[1] != '.'
    ensures Dotted(s) <==> Letter(s[0]) && Dotted(s[1..])
  {
    var rest := s[1..];
    assert forall i :: 0 <= i < |rest| ==> rest[i] == s[i + 1];
    if Dotted(rest) && Letter(s[0]) {
      forall i | 0 <= i < |s| ensures Letter(s[i]) || s[i] == '.' { if i > 0 { assert s[i] == rest[i - 1]; } }
      forall i | 0 <= i < |s| - 1 ensures s[i] != '.' || s[i + 1] != '.' {
        if i > 0 { assert s[i] == rest[i - 1] && s[i + 1] == rest[i]; }
      }
    }
  }

  lemma {:induction false} LettersAreBytes(s: string)
    requires forall i :: 0 <= i < |s| ==> Letter(s[i]) || s[i] == '.'
    ensures Bytes(s) == |s|
  {
    if s != "" {
      assert forall i :: 0 <= i < |s[1..]| ==> s[1..][i] == s[i + 1];
      LettersAreBytes(s[1..]);
    }
  }

  /** A key is at most 128 letters and dots: at least one dot, none at either end, no two in a row. */
  lemma KeysAreValidExactly(key: string)
    ensures ValidKey(key) <==> |key| <= 128 && '.' in key && Dotted(key)
  {
    hide Dotted, Bytes;
    PartsAreGoodExactly(key);
    assert GoodParts(Parts(key)) <==> forall part :: part in Parts(key) ==> GoodPart(part);
    if Dotted(key) { DottedIsBytes(key); }
  }

  lemma DottedIsBytes(key: string)
    requires Dotted(key)
    ensures Bytes(key) == |key|
  {
    LettersAreBytes(key);
  }
}
