/** str, the hexadecimal form of a uuid, and the order of the strings it prints. */
module UuidText {
  import opened HexWords
  import opened UuidFields
  import opened Bytes

  // ---------------------------------------------------------------- hexadecimal digits

  function HexChar(d: nibble): char {
    NibbleRange(d, d, 0);
    if d as nat < 10 then ('0' as int + d as nat) as char else ('a' as int + d as nat - 10) as char
  }

  function HexDigit(c: char): Option<nibble> {
    if '0' <= c <= '9' then Some((c as int - '0' as int) as bv4)
    else if 'a' <= c <= 'f' then Some((c as int - 'a' as int + 10) as bv4)
    else if 'A' <= c <= 'F' then Some((c as int - 'A' as int + 10) as bv4)
    else None
  }

  lemma HexCharFacts(d: nibble, e: nibble)
    ensures HexDigit(HexChar(d)) == Some(d) && ('0' <= HexChar(d) <= '9' || 'a' <= HexChar(d) <= 'f')
    ensures d < e <==> HexChar(d) < HexChar(e)
    ensures d == e <==> HexChar(d) == HexChar(e)
  {
    NibbleRange(d, e, 0);
    NibbleRange(e, d, 0);
  }

  function Chars(s: seq<nibble>): (t: string)
    ensures |t| == |s| && forall i :: 0 <= i < |s| ==> t[i] == HexChar(s[i])
  {
    seq(|s|, i requires 0 <= i < |s| => HexChar(s[i]))
  }

  /** The digits of a number as a stream prints them: no leading zeros, at least one digit. */
  function Strip(s: seq<nibble>): (t: seq<nibble>)
    ensures |t| <= |s|
  {
    if |s| > 1 && s[0] == 0 then Strip(s[1..]) else s
  }

  /** setw(width) << x with fill character '0'. */
  function Setw(x: Word, width: nat): string {
    var digits := Strip(x);
    Chars(Rep(0, if |digits| < width then width - |digits| else 0) + digits)
  }

  lemma {:induction false} StripForm(s: seq<nibble>)
    requires s != []
    ensures |Strip(s)| > 0 && s == Rep(0, |s| - |Strip(s)|) + Strip(s)
    ensures |Strip(s)| == 1 || Strip(s)[0] != 0
  {
    if |s| == 1 || s[0] != 0 {
    } else {
      StripForm(s[1..]);
      assert s == [0] + s[1..];
    }
  }

  lemma PadForm(s: seq<nibble>, t: seq<nibble>, width: nat)
    requires |t| <= width <= |s| && s == Rep(0, |s| - |t|) + t
    ensures Rep(0, width - |t|) + t == s[|s| - width..]
  {
  }

  lemma StripShort(s: seq<nibble>, t: seq<nibble>, width: nat)
    requires 1 <= width <= |s| && |t| <= |s| && s == Rep(0, |s| - |t|) + t
    requires |t| > 0 && (|t| == 1 || t[0] != 0)
    requires forall i :: 0 <= i < |s| - width ==> s[i] == 0
    ensures |t| <= width
  {
    assert t[0] == s[|s| - |t|];
  }

  lemma SetwIs(x: Word, width: nat, digits: seq<nibble>)
    requires 1 <= width <= DIGITS && |digits| == width && x == Low(digits)
    ensures Setw(x, width) == Chars(digits)
  {
    var t := Strip(x);
    StripForm(x);
    StripShort(x, t, width);
    PadForm(x, t, width);
    assert x[DIGITS - width..] == digits;
  }

  // ---------------------------------------------------------------- str

  function Str(u: Uuid): string {
    var a, b := Shr(u.ab, 8), And(u.ab, Low(Rep(0xf, 8)));
    var c, d := Shr(u.cd, 8), And(u.cd, Low(Rep(0xf, 8)));
    Setw(a, 8) + "-" + Setw(Shr(b, 4), 4) + "-" + Setw(And(b, Low(Rep(0xf, 4))), 4) + "-"
    + Setw(Shr(c, 4), 4) + "-" + Setw(And(c, Low(Rep(0xf, 4))), 4) + Setw(d, 8)
  }

  lemma SplitWord(x: Word)
    ensures Shr(x, 8) == Low(x[..8]) && And(x, Low(Rep(0xf, 8))) == Low(x[8..])
    ensures Shr(Low(x[8..]), 4) == Low(x[8..12]) && And(Low(x[8..]), Low(Rep(0xf, 4))) == Low(x[12..])
    ensures Shr(Low(x[..8]), 4) == Low(x[..4]) && And(Low(x[..8]), Low(Rep(0xf, 4))) == Low(x[4..8])
  {
    KeepLow(x, 8);
    KeepLow(Low(x[8..]), 4);
    KeepLow(Low(x[..8]), 4);
  }

  /** The hexadecimal form, digit by digit: 8-4-4-4-12, always 36 characters. */
  lemma StrIs(u: Uuid)
    ensures Str(u) == Chars(u.ab[..8]) + "-" + Chars(u.ab[8..12]) + "-" + Chars(u.ab[12..]) + "-"
                      + Chars(u.cd[..4]) + "-" + Chars(u.cd[4..8]) + Chars(u.cd[8..])
    ensures |Str(u)| == 36
  {
    SplitWord(u.ab);
    SplitWord(u.cd);
    SetwIs(Low(u.ab[..8]), 8, u.ab[..8]);
    SetwIs(Low(u.ab[8..12]), 4, u.ab[8..12]);
    SetwIs(Low(u.ab[12..]), 4, u.ab[12..]);
    SetwIs(Low(u.cd[..4]), 4, u.cd[..4]);
    SetwIs(Low(u.cd[4..8]), 4, u.cd[4..8]);
    SetwIs(Low(u.cd[8..]), 8, u.cd[8..]);
  }

  lemma StrDashes(u: Uuid, i: nat)
    requires i < 36
    ensures |Str(u)| == 36
    ensures Str(u)[i] == '-' <==> i == 8 || i == 13 || i == 18 || i == 23
    ensures Str(u)[i] != '-' ==> '0' <= Str(u)[i] <= '9' || 'a' <= Str(u)[i] <= 'f'
  {
    StrIs(u);
    forall d: nibble ensures HexChar(d) != '-' && ('0' <= HexChar(d) <= '9' || 'a' <= HexChar(d) <= 'f') {
      HexCharFacts(d, d);
    }
  }

  // ---------------------------------------------------------------- order of the hexadecimal form

  predicate StringLess(s: string, t: string) {
    if s == [] then t != []
    else t != [] && (s[0] < t[0] || (s[0] == t[0] && StringLess(s[1..], t[1..])))
  }

  /** operator<, on the numbers the two words stand for. */
  ghost predicate Less(u: Uuid, v: Uuid) {
    Value(u.ab) < Value(v.ab) || (Value(u.ab) == Value(v.ab) && Value(u.cd) < Value(v.cd))
  }

  lemma {:induction false} CharsOrder(x: seq<nibble>, y: seq<nibble>, s: string, t: string)
    requires |x| == |y|
    ensures StringLess(Chars(x) + s, Chars(y) + t) <==> LexLess(x, y) || (x == y && StringLess(s, t))
  {
    if x == [] {
      assert Chars(x) + s == s && Chars(y) + t == t;
    } else {
      CharsOrder(x[1..], y[1..], s, t);
      HexCharFacts(x[0], y[0]);
      assert (Chars(x) + s)[1..] == Chars(x[1..]) + s && (Chars(y) + t)[1..] == Chars(y[1..]) + t;
      assert x == [x[0]] + x[1..] && y == [y[0]] + y[1..];
    }
  }

  lemma {:induction false} LexConcat(x: seq<nibble>, y: seq<nibble>, x': seq<nibble>, y': seq<nibble>)
    requires |x| == |y|
    ensures LexLess(x + x', y + y') <==> LexLess(x, y) || (x == y && LexLess(x', y'))
  {
    if x == [] {
      assert x + x' == x' && y + y' == y';
    } else {
      LexConcat(x[1..], y[1..], x', y');
      assert (x + x')[1..] == x[1..] + x' && (y + y')[1..] == y[1..] + y';
      assert x == [x[0]] + x[1..] && y == [y[0]] + y[1..];
    }
  }

  lemma DashOrder(s: string, t: string)
    ensures StringLess("-" + s, "-" + t) <==> StringLess(s, t)
  {
    assert ("-" + s)[1..] == s && ("-" + t)[1..] == t;
  }

  lemma PieceOrder(x: seq<nibble>, y: seq<nibble>, s: string, t: string)
    requires |x| == |y|
    ensures StringLess(Chars(x) + ("-" + s), Chars(y) + ("-" + t)) <==> LexLess(x, y) || (x == y && StringLess(s, t))
  {
    CharsOrder(x, y, "-" + s, "-" + t);
    DashOrder(s, t);
  }

  lemma WordOrder(x: Word, y: Word)
    ensures LexLess(x, y) <==>
            || LexLess(x[..8], y[..8])
            || (x[..8] == y[..8] && (|| LexLess(x[8..12], y[8..12])
                                     || (x[8..12] == y[8..12] && LexLess(x[12..], y[12..]))))
    ensures x == y <==> x[..8] == y[..8] && x[8..12] == y[8..12] && x[12..] == y[12..]
  {
    assert x == x[..8] + x[8..] && x[8..] == x[8..12] + x[12..];
    assert y == y[..8] + y[8..] && y[8..] == y[8..12] + y[12..];
    LexConcat(x[..8], y[..8], x[8..], y[8..]);
    LexConcat(x[8..12], y[8..12], x[12..], y[12..]);
  }

  function LowerText(u: Uuid): string {
    Chars(u.cd[..4]) + ("-" + Chars(u.cd[4..]))
  }

  function UpperText(u: Uuid, rest: string): string {
    Chars(u.ab[..8]) + ("-" + (Chars(u.ab[8..12]) + ("-" + (Chars(u.ab[12..]) + ("-" + rest)))))
  }

  lemma LowerOrder(u: Uuid, v: Uuid)
    ensures StringLess(LowerText(u), LowerText(v)) <==> LexLess(u.cd, v.cd)
  {
    PieceOrder(u.cd[..4], v.cd[..4], Chars(u.cd[4..]), Chars(v.cd[4..]));
    CharsOrder(u.cd[4..], v.cd[4..], "", "");
    assert Chars(u.cd[4..]) + "" == Chars(u.cd[4..]) && Chars(v.cd[4..]) + "" == Chars(v.cd[4..]);
    LexConcat(u.cd[..4], v.cd[..4], u.cd[4..], v.cd[4..]);
    assert u.cd == u.cd[..4] + u.cd[4..] && v.cd == v.cd[..4] + v.cd[4..];
  }

  lemma UpperOrder(u: Uuid, v: Uuid, s: string, t: string)
    ensures StringLess(UpperText(u, s), UpperText(v, t)) <==> LexLess(u.ab, v.ab) || (u.ab == v.ab && StringLess(s, t))
  {
    PieceOrder(u.ab[12..], v.ab[12..], s, t);
    var s3, t3 := Chars(u.ab[12..]) + ("-" + s), Chars(v.ab[12..]) + ("-" + t);
    PieceOrder(u.ab[8..12], v.ab[8..12], s3, t3);
    var s2, t2 := Chars(u.ab[8..12]) + ("-" + s3), Chars(v.ab[8..12]) + ("-" + t3);
    PieceOrder(u.ab[..8], v.ab[..8], s2, t2);
    WordOrder(u.ab, v.ab);
  }

  lemma Regroup(a: string, b: string, c: string, d: string, e: string, f: string)
    ensures a + "-" + b + "-" + c + "-" + d + "-" + e + f
            == a + ("-" + (b + ("-" + (c + ("-" + (d + ("-" + (e + f))))))))
  {
  }

  lemma StrPieces(u: Uuid)
    ensures Str(u) == UpperText(u, LowerText(u))
  {
    StrIs(u);
    assert Chars(u.cd[4..]) == Chars(u.cd[4..8]) + Chars(u.cd[8..]);
    Regroup(Chars(u.ab[..8]), Chars(u.ab[8..12]), Chars(u.ab[12..]), Chars(u.cd[..4]), Chars(u.cd[4..8]), Chars(u.cd[8..]));
  }

  /** Byte-wise order of the printed form is operator<, as section 3 of RFC 4122 compares uuids. */
  lemma StrOrder(u: Uuid, v: Uuid)
    ensures StringLess(Str(u), Str(v)) <==> Less(u, v)
  {
    StrPieces(u);
    StrPieces(v);
    LowerOrder(u, v);
    UpperOrder(u, v, LowerText(u), LowerText(v));
    LexIsNumeric(u.ab, v.ab);
    LexIsNumeric(u.cd, v.cd);
  }
}
