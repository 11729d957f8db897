/** What rebuild makes of texts other than those str and base62 print. */
module UuidInput {
  import opened Bytes
  import opened HexWords
  import opened UuidFields
  import opened UuidText
  import opened UuidParse

  // ---------------------------------------------------------------- numbers of any length

  lemma {:induction false} PowGrows(k: nat, n: nat)
    requires k <= n
    ensures Pow16(k) <= Pow16(n)
    decreases n - k
  {
    if k == n {
    } else {
      PowGrows(k + 1, n);
    }
  }

  lemma LeadingZero(s: seq<nibble>)
    ensures Value([0] + s) == Value(s)
  {
    LeadingDigit(0, s);
    PlaceIsProduct(0, |s|);
  }

  lemma {:induction false} LeadingZeros(k: nat, s: seq<nibble>)
    ensures Value(Rep(0, k) + s) == Value(s)
  {
    if k == 0 {
      assert Rep(0, 0) + s == s;
    } else {
      LeadingZeros(k - 1, s);
      LeadingZero(Rep(0, k - 1) + s);
      assert Rep(0, k) + s == [0] + (Rep(0, k - 1) + s);
    }
  }

  /** Without leading zeros, sixteen digits are exactly what 64 bits hold. */
  lemma SixteenDigits(t: seq<nibble>)
    requires t != [] && (|t| == 1 || t[0] != 0)
    ensures Value(t) < TWO_64 <==> |t| <= DIGITS
  {
    WordRange();
    if |t| <= DIGITS {
      ValueBound(t);
      PowGrows(|t|, DIGITS);
    } else {
      assert t == [t[0]] + t[1..];
      AtLeastPower(t[0], t[1..]);
      PowGrows(DIGITS, |t| - 1);
    }
  }

  lemma AtLeastPower(d: nibble, s: seq<nibble>)
    requires d != 0
    ensures Value([d] + s) >= Pow16(|s|)
  {
    LeadingDigit(d, s);
    PlaceIsProduct(d as nat, |s|);
    NibbleRange(d, 0, 0);
    AtLeast(Pow16(|s|), d as nat);
  }

  lemma StripValue(ds: seq<nibble>)
    requires ds != []
    ensures var t := Strip(ds);
            && (Value(ds) < TWO_64 <==> |t| <= DIGITS)
            && (|t| <= DIGITS ==> Low(t) == FromNat(Value(ds)))
  {
    var t := Strip(ds);
    StripForm(ds);
    LeadingZeros(|ds| - |t|, t);
    SixteenDigits(t);
    if |t| <= DIGITS {
      LeadingZeros(DIGITS - |t|, t);
      WordsAreNumbers(Low(t), 0);
    }
  }

  /** A run of digits, however long, reads as its value, if that fits in 64 bits, and fails otherwise. */
  lemma FieldValue(ds: seq<nibble>, rest: string)
    requires ds != []
    requires rest == [] || (HexDigit(rest[0]).None? && (|ds| > 1 || (rest[0] != 'x' && rest[0] != 'X')))
    ensures ReadField(Chars(ds) + rest)
            == if Value(ds) < TWO_64 then Some((FromNat(Value(ds)), rest)) else None
  {
    ReadRun(ds, rest);
    StripValue(ds);
  }

  // ---------------------------------------------------------------- what a stream skips

  ghost predicate StartsWithDigit(s: string) {
    s != [] && HexDigit(s[0]).Some?
  }

  lemma SpaceIsSkipped(c: char, s: string)
    requires c == ' ' || 9 <= c as int <= 13
    ensures ReadField([c] + s) == ReadField(s)
  {
    assert ([c] + s)[1..] == s;
  }

  lemma PlusIsSkipped(s: string)
    requires StartsWithDigit(s)
    ensures ReadField("+" + s) == ReadField(s)
  {
    assert ("+" + s)[1..] == s;
  }

  /** A minus sign turns the number into its negative. */
  lemma MinusNegates(s: string)
    requires StartsWithDigit(s)
    ensures ReadField("-" + s) == match ReadField(s)
                                  case None => None
                                  case Some((x, rest)) => Some((Negated(x), rest))
  {
    assert ("-" + s)[1..] == s;
  }

  /** That is, modulo 2^64. */
  lemma NegatedCancels(x: Word)
    ensures (Value(Negated(x)) + Value(x)) % TWO_64 == 0
  {
    WordsAreNumbers(x, (TWO_64 - Value(x)) % TWO_64);
  }

  lemma PrefixIsSkipped(x: char, s: string)
    requires (x == 'x' || x == 'X') && StartsWithDigit(s) && SkipPrefix(s) == s
    ensures ReadField(['0', x] + s) == ReadField(s)
  {
    var t := ['0', x] + s;
    assert t[2..] == s && SkipSpace(t) == t && SkipSign(t) == t;
  }

  // ---------------------------------------------------------------- upper and lower case

  /** t is s with some of its letters a to f in upper case. */
  ghost predicate Recased(s: string, t: string) {
    |s| == |t| && forall i :: 0 <= i < |s| ==> t[i] == s[i] || ('a' <= s[i] <= 'f' && t[i] as int == s[i] as int - 32)
  }

  lemma {:induction false} RunRecased(s: string, t: string)
    requires Recased(s, t)
    ensures Run(t) == Run(s)
  {
    if s == [] {
    } else {
      RunRecased(s[1..], t[1..]);
    }
  }

  lemma {:induction false} SpaceRecased(s: string, t: string)
    requires Recased(s, t)
    ensures Recased(SkipSpace(s), SkipSpace(t))
  {
    if s == [] {
    } else {
      SpaceRecased(s[1..], t[1..]);
    }
  }

  /** Both fail, or both read the same and leave texts that differ in case only. */
  ghost predicate Alike<T>(a: Option<(T, string)>, b: Option<(T, string)>) {
    if a.None? then b.None? else b.Some? && b.value.0 == a.value.0 && Recased(a.value.1, b.value.1)
  }

  lemma FieldRecased(s: string, t: string)
    requires Recased(s, t)
    ensures Alike(ReadField(s), ReadField(t))
  {
    var s1, t1 := SkipSpace(s), SkipSpace(t);
    SpaceRecased(s, t);
    var s2, t2 := SkipPrefix(SkipSign(s1)), SkipPrefix(SkipSign(t1));
    assert Recased(SkipSign(s1), SkipSign(t1));
    assert Recased(s2, t2);
    RunRecased(s2, t2);
  }

  ghost predicate FieldsAlike(s: string, t: string, n: nat) {
    Alike(ReadFields(s, n), ReadFields(t, n))
  }

  lemma ZeroAlike(s: string, t: string)
    requires Recased(s, t)
    ensures FieldsAlike(s, t, 0)
  {
  }

  lemma {:induction false} FieldsRecased(s: string, t: string, n: nat)
    requires Recased(s, t)
    ensures FieldsAlike(s, t, n)
    decreases n
  {
    var done, s2, t2 := StepAlike(s, t, n);
    if done {
    } else {
      FieldsRecased(s2, t2, n - 1);
    }
  }

  /** Either the texts read alike, or they do if what follows their first fields does. */
  lemma StepAlike(s: string, t: string, n: nat) returns (done: bool, s2: string, t2: string)
    requires Recased(s, t)
    ensures done ==> FieldsAlike(s, t, n)
    ensures !done ==> n > 1 && Recased(s2, t2) && (FieldsAlike(s2, t2, n - 1) ==> FieldsAlike(s, t, n))
  {
    done, s2, t2 := true, "", "";
    if n == 0 {
      ZeroAlike(s, t);
    } else {
      var s1, t1 := RestRecased(s, t);
      if n == 1 || ReadField(s).None? {
        LastAlike(s, t, n);
      } else if s1 == [] {
        MoreAlike(s, t, n, s1, t1);
      } else {
        done, s2, t2 := false, s1[1..], t1[1..];
        if FieldsAlike(s2, t2, n - 1) {
          MoreAlike(s, t, n, s1, t1);
        }
      }
    }
  }

  lemma RestRecased(s: string, t: string) returns (s1: string, t1: string)
    requires Recased(s, t)
    ensures Alike(ReadField(s), ReadField(t))
    ensures ReadField(s).Some? ==> s1 == SkipSpace(ReadField(s).value.1) && t1 == SkipSpace(ReadField(t).value.1)
    ensures |s1| == |t1| && (s1 != [] ==> Recased(s1[1..], t1[1..]))
  {
    s1, t1 := "", "";
    FieldRecased(s, t);
    if ReadField(s).Some? {
      SpaceRecased(ReadField(s).value.1, ReadField(t).value.1);
      s1, t1 := SkipSpace(ReadField(s).value.1), SkipSpace(ReadField(t).value.1);
    }
  }

  lemma LastAlike(s: string, t: string, n: nat)
    requires n > 0 && Alike(ReadField(s), ReadField(t)) && (n == 1 || ReadField(s).None?)
    ensures FieldsAlike(s, t, n)
  {
  }

  lemma MoreAlike(s: string, t: string, n: nat, s1: string, t1: string)
    requires n > 1 && Alike(ReadField(s), ReadField(t)) && ReadField(s).Some?
    requires s1 == SkipSpace(ReadField(s).value.1) && t1 == SkipSpace(ReadField(t).value.1) && |s1| == |t1|
    requires s1 != [] ==> FieldsAlike(s1[1..], t1[1..], n - 1)
    ensures FieldsAlike(s, t, n)
  {
  }

  lemma HexRecased(s: string, t: string)
    requires Recased(s, t)
    ensures RebuildHex(t) == RebuildHex(s)
  {
    FieldsRecased(s, t, 5);
  }

  /** The printed form reads back in any mixture of upper and lower case. */
  lemma AnyCaseRoundTrip(u: Uuid, t: string)
    requires Recased(Str(u), t)
    ensures Rebuild(t) == u
  {
    HexRoundTrip(u);
    HexBranch(u);
    HexRecased(Str(u), t);
    StrIs(u);
    StrDashes(u, 8);
    StrDashes(u, 13);
    assert t[8] == '-' && t[13] == '-';
    assert FindDash(t, 0) <= 8;
    assert FindDash(t, FindDash(t, 0) + 1) <= 13;
  }

  // ---------------------------------------------------------------- what is rejected

  /** A text without a dash is no uuid: rebuild returns the nil one. */
  lemma NoDashIsNil(s: string)
    requires '-' !in s
    ensures Rebuild(s) == Uuid(ZERO, ZERO)
  {
  }

  /** Neither is the printed form with anything but a digit after it. */
  lemma TrailerIsNil(u: Uuid, end: string)
    requires end != [] && HexDigit(end[0]).None?
    ensures Rebuild(Str(u) + end) == Uuid(ZERO, ZERO)
  {
    var t := Str(u) + end;
    ReadStr(u, end);
    assert |Fields(u)| == 5;
    StrIs(u);
    StrDashes(u, 8);
    StrDashes(u, 13);
    assert t[8] == '-' && t[13] == '-';
    assert FindDash(t, 0) <= 8;
    assert FindDash(t, FindDash(t, 0) + 1) <= 13;
  }
}
