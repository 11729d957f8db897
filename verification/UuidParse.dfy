/** rebuild: the parser for both printed forms, and the base62 form it reads back. */
module UuidParse {
  import opened Bytes
  import opened HexWords
  import opened UuidFields
  import opened UuidText

  // ---------------------------------------------------------------- hexadecimal form

  /** The digits at the head of s. */
  function Run(s: string): (ds: seq<nibble>)
    ensures |ds| <= |s|
  {
    if s == [] || HexDigit(s[0]).None? then [] else [HexDigit(s[0]).value] + Run(s[1..])
  }

  /** A stream skips white space before everything it reads. */
  function SkipSpace(s: string): string {
    if s != [] && (s[0] == ' ' || 9 <= s[0] as int <= 13) then SkipSpace(s[1..]) else s
  }

  function SkipSign(s: string): string {
    if s != [] && (s[0] == '+' || s[0] == '-') then s[1..] else s
  }

  function SkipPrefix(s: string): string {
    if |s| > 1 && s[0] == '0' && (s[1] == 'x' || s[1] == 'X') then s[2..] else s
  }

  /** The number with its sign changed, in 64 bits. */
  function Negated(x: Word): Word {
    FromNat((TWO_64 - Value(x)) % TWO_64)
  }

  /** stream >> hex >> x: one number below 2^64, perhaps with a sign and 0x, and what follows it. */
  function ReadField(s: string): Option<(Word, string)> {
    var signed := SkipSpace(s);
    var text := SkipPrefix(SkipSign(signed));
    var digits := Run(text);
    if digits == [] || |Strip(digits)| > DIGITS then None else
      var x := Low(Strip(digits));
      Some((if signed[0] == '-' then Negated(x) else x, text[|digits|..]))
  }

  /** n numbers with one character between each and the next. */
  function ReadFields(s: string, n: nat): (r: Option<(seq<Word>, string)>)
    ensures r.Some? ==> |r.value.0| == n
    decreases n
  {
    if n == 0 then Some(([], s)) else
      match ReadField(s)
      case None => None
      case Some((w, rest)) =>
        if n == 1 then Some(([w], rest)) else
          var more := SkipSpace(rest);
          if more == [] then None
          else match ReadFields(more[1..], n - 1)
            case None => None
            case Some((ws, end)) => Some(([w] + ws, end))
  }

  function RebuildHex(s: string): Uuid {
    match ReadFields(s, 5)
    case Some((w, "")) => Uuid(Or(Or(Shl(w[0], 8), Shl(w[1], 4)), w[2]), Or(Shl(w[3], 12), w[4]))
    case _ => Uuid(ZERO, ZERO)
  }

  lemma {:induction false} RunOf(ds: seq<nibble>, rest: string)
    requires rest == [] || HexDigit(rest[0]).None?
    ensures Run(Chars(ds) + rest) == ds
  {
    var s := Chars(ds) + rest;
    if ds == [] {
      assert s == rest;
    } else {
      RunOf(ds[1..], rest);
      HexCharFacts(ds[0], ds[0]);
      assert s[1..] == Chars(ds[1..]) + rest;
    }
  }

  /** In front of printed digits there is nothing to skip. */
  lemma NothingToSkip(ds: seq<nibble>, rest: string)
    requires ds != [] && (rest == [] || |ds| > 1 || (rest[0] != 'x' && rest[0] != 'X'))
    ensures var s := Chars(ds) + rest; SkipSpace(s) == s && SkipSign(s) == s && SkipPrefix(s) == s && s[0] != '-'
  {
    var s := Chars(ds) + rest;
    DigitIsPlain(ds[0]);
    assert s[0] == HexChar(ds[0]);
    if |ds| > 1 {
      DigitIsPlain(ds[1]);
      assert s[1] == HexChar(ds[1]);
    } else if rest != [] {
      assert s[1] == rest[0];
    }
  }

  lemma DigitIsPlain(d: nibble)
    ensures var c := HexChar(d); c as int > 32 && c != '+' && c != '-' && c != 'x' && c != 'X'
  {
    NibbleRange(d, d, 0);
  }

  lemma ReadRun(ds: seq<nibble>, rest: string)
    requires ds != []
    requires rest == [] || (HexDigit(rest[0]).None? && (|ds| > 1 || (rest[0] != 'x' && rest[0] != 'X')))
    ensures ReadField(Chars(ds) + rest) == if |Strip(ds)| > DIGITS then None else Some((Low(Strip(ds)), rest))
  {
    NothingToSkip(ds, rest);
    RunOf(ds, rest);
    assert (Chars(ds) + rest)[|ds|..] == rest;
  }

  lemma ReadFieldOf(ds: seq<nibble>, rest: string)
    requires 1 <= |ds| <= DIGITS
    requires rest == [] || (HexDigit(rest[0]).None? && (|ds| > 1 || (rest[0] != 'x' && rest[0] != 'X')))
    ensures ReadField(Chars(ds) + rest) == Some((Low(ds), rest))
  {
    ReadRun(ds, rest);
    StripForm(ds);
    LowStrip(ds, Strip(ds));
  }

  lemma LowStrip(ds: seq<nibble>, t: seq<nibble>)
    requires |t| <= |ds| <= DIGITS && ds == Rep(0, |ds| - |t|) + t
    ensures Low(t) == Low(ds)
  {
  }

  /** A separator that may stand between two fields: anything that is not read as part of one. */
  ghost predicate Separates(c: char) {
    HexDigit(c).None? && c != 'x' && c != 'X' && c != ' ' && !(9 <= c as int <= 13)
  }

  /** Fields are read one after the other, with any one separator between them. */
  lemma ReadFieldsOf(ds: seq<nibble>, c: char, rest: string, n: nat)
    requires 1 <= |ds| <= DIGITS && n > 0 && Separates(c)
    ensures ReadFields(Chars(ds) + ([c] + rest), n + 1)
            == match ReadFields(rest, n)
               case None => None
               case Some((ws, end)) => Some(([Low(ds)] + ws, end))
  {
    ReadFieldOf(ds, [c] + rest);
    assert ([c] + rest)[1..] == rest;
  }

  /** The text reads as these numbers, and end follows them. */
  ghost predicate Reads(s: string, ws: seq<Word>, end: string) {
    ReadFields(s, |ws|) == Some((ws, end))
  }

  lemma ReadLast(ds: seq<nibble>, end: string)
    requires 1 < |ds| <= DIGITS && (end == [] || HexDigit(end[0]).None?)
    ensures Reads(Chars(ds) + end, [Low(ds)], end)
  {
    ReadFieldOf(ds, end);
  }

  /** One more field in front of a text that reads as ws. */
  lemma ReadMore(ds: seq<nibble>, rest: string, ws: seq<Word>, end: string)
    requires 1 <= |ds| <= DIGITS && ws != [] && Reads(rest, ws, end)
    ensures Reads(Chars(ds) + ("-" + rest), [Low(ds)] + ws, end)
  {
    ReadFieldsOf(ds, '-', rest, |ws|);
  }

  /** The numbers rebuild reads from the printed form. */
  function Fields(u: Uuid): seq<Word> {
    [Low(u.ab[..8])] + ([Low(u.ab[8..12])] + ([Low(u.ab[12..])] + ([Low(u.cd[..4])] + [Low(u.cd[4..])])))
  }

  lemma ReadStr(u: Uuid, end: string)
    requires end == [] || HexDigit(end[0]).None?
    ensures Reads(Str(u) + end, Fields(u), end)
  {
    var s4, w4 := Chars(u.cd[4..]) + end, [Low(u.cd[4..])];
    ReadLast(u.cd[4..], end);
    var s3, w3 := Chars(u.cd[..4]) + ("-" + s4), [Low(u.cd[..4])] + w4;
    ReadMore(u.cd[..4], s4, w4, end);
    var s2, w2 := Chars(u.ab[12..]) + ("-" + s3), [Low(u.ab[12..])] + w3;
    ReadMore(u.ab[12..], s3, w3, end);
    var s1, w1 := Chars(u.ab[8..12]) + ("-" + s2), [Low(u.ab[8..12])] + w2;
    ReadMore(u.ab[8..12], s2, w2, end);
    ReadMore(u.ab[..8], s1, w1, end);
    StrThen(u, end);
  }

  lemma StrThen(u: Uuid, end: string)
    ensures Str(u) + end == UpperText(u, Chars(u.cd[..4]) + ("-" + (Chars(u.cd[4..]) + end)))
  {
    StrPieces(u);
    Reassociate(Chars(u.cd[..4]), Chars(u.cd[4..]), end);
    Reassociate(Chars(u.ab[12..]), LowerText(u), end);
    Reassociate(Chars(u.ab[8..12]), Chars(u.ab[12..]) + ("-" + LowerText(u)), end);
    Reassociate(Chars(u.ab[..8]), Chars(u.ab[8..12]) + ("-" + (Chars(u.ab[12..]) + ("-" + LowerText(u)))), end);
  }

  lemma Reassociate(a: string, b: string, end: string)
    ensures (a + ("-" + b)) + end == a + ("-" + (b + end))
  {
  }

  lemma JoinUpper(x: Word)
    ensures Or(Or(Shl(Low(x[..8]), 8), Shl(Low(x[8..12]), 4)), Low(x[12..])) == x
  {
    assert Shl(Low(x[..8]), 8) == x[..8] + Rep(0, 8);
    assert Shl(Low(x[8..12]), 4) == Rep(0, 8) + x[8..12] + Rep(0, 4);
    OrPieces(x[..8] + Rep(0, 8), Rep(0, 8) + x[8..12] + Rep(0, 4), 8);
    assert (x[..8] + Rep(0, 8))[..8] + (Rep(0, 8) + x[8..12] + Rep(0, 4))[8..] == x[..12] + Rep(0, 4);
    OrPieces(x[..12] + Rep(0, 4), Low(x[12..]), 12);
  }

  lemma JoinLower(x: Word)
    ensures Or(Shl(Low(x[..4]), 12), Low(x[4..])) == x
  {
    assert Shl(Low(x[..4]), 12) == x[..4] + Rep(0, 12);
    OrPieces(x[..4] + Rep(0, 12), Low(x[4..]), 4);
  }

  // ---------------------------------------------------------------- telling the forms apart

  /** find_first_of("-", from); the length of s stands for npos. */
  function FindDash(s: string, from: nat): (i: nat)
    requires from <= |s|
    ensures from <= i <= |s| && (i < |s| ==> s[i] == '-')
    ensures forall j :: from <= j < i ==> s[j] != '-'
    decreases |s| - from
  {
    if from == |s| || s[from] == '-' then from else FindDash(s, from + 1)
  }

  function CharAt(s: string, i: nat): char {
    if i < |s| then s[i] else '\0'
  }

  /** rebase62 on limit characters of s from start; it reads the first one in any case. */
  function HornerAt(s: string, start: nat, limit: nat): u64
    requires start + limit <= |s|
  {
    Horner(CharAt(s, start), if limit > 1 then s[start + 1..start + limit] else "")
  }

  function Rebuild(s: string): Uuid {
    var idx := FindDash(s, 0);
    if idx == |s| then Uuid(ZERO, ZERO)
    else if FindDash(s, idx + 1) == |s| then
      Uuid(FromNat(HornerAt(s, 0, idx)), FromNat(HornerAt(s, idx + 1, |s| - (idx + 1))))
    else RebuildHex(s)
  }

  lemma HexBranch(u: Uuid)
    ensures Rebuild(Str(u)) == RebuildHex(Str(u))
  {
    StrIs(u);
    StrDashes(u, 8);
    StrDashes(u, 13);
    assert FindDash(Str(u), 0) <= 8;
    assert FindDash(Str(u), FindDash(Str(u), 0) + 1) <= 13;
  }

  /** The hexadecimal form reads back as the uuid it was printed from. */
  lemma HexRoundTrip(u: Uuid)
    ensures Rebuild(Str(u)) == u
  {
    HexBranch(u);
    ReadStr(u, "");
    assert Str(u) + "" == Str(u);
    var w := Fields(u);
    assert |w| == 5 && RebuildHex(Str(u)) == Uuid(Or(Or(Shl(w[0], 8), Shl(w[1], 4)), w[2]), Or(Shl(w[3], 12), w[4]));
    JoinUpper(u.ab);
    JoinLower(u.cd);
  }

  // ---------------------------------------------------------------- base62 form

  /** The digits 0-9, A-Z, a-z. */
  function Char62(d: nat): char
    requires d < 62
  {
    if d < 10 then ('0' as int + d) as char
    else if d < 36 then ('A' as int + d - 10) as char
    else ('a' as int + d - 36) as char
  }

  /** strpos: the digit of a character, in unsigned 64-bit arithmetic. */
  function Pos62(c: char): u64 {
    if c >= 'a' then c as int - 'a' as int + 36
    else if c >= 'A' then c as int - 'A' as int + 10
    else (c as int - '0' as int) % TWO_64
  }

  function Text62(n: nat): (s: string)
    ensures |s| > 0
  {
    if n < 62 then [Char62(n)] else Text62(n / 62) + [Char62(n % 62)]
  }

  /** One turn of the rebase62 loop, in 64 bits. */
  function NextDigit(res: u64, c: char): u64 {
    (62 * res + Pos62(c)) % TWO_64
  }

  /** rebase62, on the first character and the rest. */
  function Horner(first: char, rest: string): u64 {
    if rest == [] then Pos62(first) else NextDigit(Horner(first, rest[..|rest| - 1]), rest[|rest| - 1])
  }

  /** The base62 number that the characters spell, without any bound. */
  function Spelled(first: char, rest: string): nat {
    if rest == [] then Pos62(first) else 62 * Spelled(first, rest[..|rest| - 1]) + Pos62(rest[|rest| - 1])
  }

  /** rebase62 computes that number modulo 2^64. */
  lemma {:induction false} HornerIsSpelled(first: char, rest: string)
    ensures Horner(first, rest) == Spelled(first, rest) % TWO_64
  {
    if rest == [] {
    } else {
      var init := rest[..|rest| - 1];
      HornerIsSpelled(first, init);
      WrapNext(Spelled(first, init), Pos62(rest[|rest| - 1]));
    }
  }

  lemma WrapNext(m: nat, d: nat)
    ensures (62 * (m % TWO_64) + d) % TWO_64 == (62 * m + d) % TWO_64
  {
    var q, r := m / TWO_64, 62 * (m % TWO_64) + d;
    assert m == q * TWO_64 + m % TWO_64;
    WrapsTo(62 * q + r / TWO_64, 62 * m + d, r % TWO_64);
  }

  /** The digits are letters and figures in the order of their codes: 0-9, A-Z, a-z. */
  lemma Char62Alphabet(d: nat, e: nat)
    requires d < e < 62
    ensures Char62(d) < Char62(e)
    ensures var c := Char62(d); '0' <= c <= '9' || 'A' <= c <= 'Z' || 'a' <= c <= 'z'
    ensures var c := Char62(e); '0' <= c <= '9' || 'A' <= c <= 'Z' || 'a' <= c <= 'z'
  {
  }

  /** No step of rebase62 exceeds 64 bits. */
  ghost predicate NeverWraps(first: char, rest: string) {
    rest == [] ||
    (&& NeverWraps(first, rest[..|rest| - 1])
     && 62 * Horner(first, rest[..|rest| - 1]) + Pos62(rest[|rest| - 1]) < TWO_64)
  }

  lemma Pos62Char62(d: nat)
    requires d < 62
    ensures Pos62(Char62(d)) == d && Char62(d) != '-'
  {
  }

  function Pow62(k: nat): nat {
    if k == 0 then 1 else 62 * Pow62(k - 1)
  }

  lemma {:induction false} Text62Length(n: nat, k: nat)
    requires k > 0 && n < Pow62(k)
    ensures |Text62(n)| <= k
  {
    if n < 62 {
    } else {
      Text62Length(n / 62, k - 1);
    }
  }

  lemma Text62Fits(n: u64)
    ensures |Text62(n)| <= 11
  {
    assert Pow62(4) == 14776336;
    assert Pow62(8) == 218340105584896;
    assert Pow62(11) == 52036560683837093888;
    Text62Length(n, 11);
  }

  lemma {:induction false} Text62NoDash(n: nat)
    ensures forall i :: 0 <= i < |Text62(n)| ==> Text62(n)[i] != '-'
  {
    if n < 62 {
      Pos62Char62(n);
    } else {
      Text62NoDash(n / 62);
      Pos62Char62(n % 62);
    }
  }

  /** rebase62 undoes the digit loop, and never wraps while it does. */
  lemma {:induction false} HornerText62(n: u64)
    ensures Horner(Text62(n)[0], Text62(n)[1..]) == n && NeverWraps(Text62(n)[0], Text62(n)[1..])
  {
    if n < 62 {
      Pos62Char62(n);
    } else {
      var init, last := Text62(n / 62), Char62(n % 62);
      HornerText62(n / 62);
      Pos62Char62(n % 62);
      assert Text62(n) == init + [last];
      HornerNext(n, init, last);
    }
  }

  lemma HornerNext(n: u64, init: string, last: char)
    requires init != [] && Horner(init[0], init[1..]) == n / 62 && NeverWraps(init[0], init[1..]) && Pos62(last) == n % 62
    ensures var text := init + [last]; Horner(text[0], text[1..]) == n && NeverWraps(text[0], text[1..])
  {
    HornerSnoc(init[0], init[1..], last);
    assert (init + [last])[1..] == init[1..] + [last];
  }

  lemma HornerSnoc(first: char, rest: string, last: char)
    ensures Horner(first, rest + [last]) == NextDigit(Horner(first, rest), last)
    ensures NeverWraps(first, rest + [last])
            <==> NeverWraps(first, rest) && 62 * Horner(first, rest) + Pos62(last) < TWO_64
  {
    assert (rest + [last])[..|rest|] == rest;
  }

  function Base62Text(u: Uuid): string {
    Text62(Value(u.ab)) + "-" + Text62(Value(u.cd))
  }

  lemma DashOnlyAt(s: string, t: string)
    requires (forall i :: 0 <= i < |s| ==> s[i] != '-') && (forall i :: 0 <= i < |t| ==> t[i] != '-')
    ensures var text := s + "-" + t;
            && (forall i :: 0 <= i < |text| ==> (text[i] == '-' <==> i == |s|))
            && FindDash(text, 0) == |s| && FindDash(text, |s| + 1) == |text|
  {
    var text := s + "-" + t;
    assert text[|s|] == '-';
    assert forall i :: |s| < i < |text| ==> text[i] == t[i - |s| - 1];
  }

  lemma RebuildPair(s: string, t: string)
    requires s != [] && t != []
    requires (forall i :: 0 <= i < |s| ==> s[i] != '-') && (forall i :: 0 <= i < |t| ==> t[i] != '-')
    ensures Rebuild(s + "-" + t) == Uuid(FromNat(Horner(s[0], s[1..])), FromNat(Horner(t[0], t[1..])))
  {
    var text := s + "-" + t;
    DashOnlyAt(s, t);
    assert CharAt(text, 0) == s[0] && CharAt(text, |s| + 1) == t[0];
    assert text[1..|s|] == s[1..];
    assert |t| > 1 ==> text[|s| + 2..|text|] == t[1..];
  }

  /** The base62 form has exactly one dash and reads back as the uuid it was printed from. */
  lemma Base62RoundTrip(u: Uuid)
    ensures Rebuild(Base62Text(u)) == u
    ensures forall i :: 0 <= i < |Base62Text(u)| ==> (Base62Text(u)[i] == '-' <==> i == |Text62(Value(u.ab))|)
    ensures var text := Base62Text(u);
            var i := FindDash(text, 0);
            && 0 < i < |text| - 1
            && Spelled(text[0], text[1..i]) == Value(u.ab) && Spelled(text[i + 1], text[i + 2..]) == Value(u.cd)
  {
    var m, n := Value(u.ab), Value(u.cd);
    WordsAreNumbers(u.ab, 0);
    WordsAreNumbers(u.cd, 0);
    Text62NoDash(m);
    Text62NoDash(n);
    DashOnlyAt(Text62(m), Text62(n));
    RebuildPair(Text62(m), Text62(n));
    HornerText62(m);
    HornerText62(n);
    SpelledText62(m);
    SpelledText62(n);
    var text := Base62Text(u);
    assert text[1..|Text62(m)|] == Text62(m)[1..] && text[|Text62(m)| + 2..] == Text62(n)[1..];
    assert text[0] == Text62(m)[0] && text[|Text62(m)| + 1] == Text62(n)[0];
  }

  /** The digits that base62 writes spell the number. */
  lemma {:induction false} SpelledText62(n: nat)
    ensures Spelled(Text62(n)[0], Text62(n)[1..]) == n
  {
    if n < 62 {
      Pos62Char62(n);
    } else {
      var init, last := Text62(n / 62), Char62(n % 62);
      SpelledText62(n / 62);
      Pos62Char62(n % 62);
      assert Text62(n) == init + [last];
      assert (init + [last])[1..] == init[1..] + [last];
      assert (init[1..] + [last])[..|init| - 1] == init[1..];
    }
  }

  /** One do-while loop of base62: it writes at most eleven characters below end0. */
  method PutDigits(res: array<char>, end0: nat, x: u64) returns (end: nat)
    requires 11 <= end0 <= res.Length
    modifies res
    ensures end0 - 11 <= end <= end0
    ensures res[end..end0] == Text62(x)
    ensures forall k :: 0 <= k < res.Length && !(end <= k < end0) ==> res[k] == old(res[k])
  {
    Text62Fits(x);
    end := end0;
    var left := x;
    var more := true;
    while more
      invariant 0 <= end <= end0
      invariant end0 - end + (if more then 1 else 0) <= |Text62(x)|
      invariant more ==> Text62(x) == Text62(left) + res[end..end0]
      invariant !more ==> Text62(x) == res[end..end0]
      invariant forall k :: 0 <= k < res.Length && !(end <= k < end0) ==> res[k] == old(res[k])
      decreases more, left
    {
      ghost var tail := res[end..end0];
      var rem := left % 62;
      end := end - 1;
      res[end] := Char62(rem);
      assert res[end..end0] == [Char62(rem)] + tail;
      left := left / 62;
      more := left > 0;
    }
  }

  /** base62: the two loops fit the 24-byte buffer exactly. */
  method Base62(u: Uuid) returns (text: string)
    ensures text == Base62Text(u) && |text| <= 23
  {
    WordsAreNumbers(u.ab, 0);
    WordsAreNumbers(u.cd, 0);
    var res := new char[24];
    var end := 23;
    res[end] := '\0';
    end := PutDigits(res, end, Value(u.cd));
    ghost var low := end;
    end := end - 1;
    res[end] := '-';
    end := PutDigits(res, end, Value(u.ab));
    assert res[low..23] == Text62(Value(u.cd));
    text := res[end..23];
    ThreePieces(res[..], end, low, 23);
  }

  lemma ThreePieces(s: string, from: nat, low: nat, to: nat)
    requires from < low <= to <= |s|
    ensures s[from..to] == s[from..low - 1] + [s[low - 1]] + s[low..to]
  {
  }

  /** The rebase62 lambda, on limit characters from start. */
  method Rebase62(s: string, start: nat, limit: nat) returns (res: u64)
    requires start + limit <= |s|
    ensures res == HornerAt(s, start, limit)
  {
    res := Pos62(CharAt(s, start));
    var i := 1;
    while i < limit
      invariant 1 <= i && (i <= limit || limit == 0)
      invariant res == Horner(CharAt(s, start), if limit > 1 then s[start + 1..start + i] else "")
    {
      HornerSnoc(CharAt(s, start), s[start + 1..start + i], s[start + i]);
      assert s[start + 1..start + i + 1] == s[start + 1..start + i] + [s[start + i]];
      res := NextDigit(res, s[start + i]);
      i := i + 1;
    }
  }

  /** rebuild */
  method RebuildFrom(s: string) returns (u: Uuid)
    ensures u == Rebuild(s)
  {
    var idx := FindDash(s, 0);
    if idx == |s| {
      return Uuid(ZERO, ZERO);
    }
    if FindDash(s, idx + 1) == |s| {
      var ab := Rebase62(s, 0, idx);
      var cd := Rebase62(s, idx + 1, |s| - (idx + 1));
      u := Uuid(FromNat(ab), FromNat(cd));
    } else {
      u := RebuildHex(s);
    }
  }
}
