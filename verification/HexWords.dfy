/** Unsigned 64-bit words, written as sixteen hexadecimal digits, most significant first.  Every
    shift in sole.h is by a multiple of four bits, so shifts move whole digits, and the bitwise
    operators work digit by digit. */
module HexWords {
  type nibble = bv4
  const DIGITS := 16
  const TWO_64 := 0x1_0000_0000_0000_0000
  type u64 = n: nat | n < TWO_64
  type Word = w: seq<nibble> | |w| == DIGITS witness Rep(0, DIGITS)

  function Rep(d: nibble, n: nat): (s: seq<nibble>)
    ensures |s| == n && forall i :: 0 <= i < n ==> s[i] == d
  {
    seq(n, _ => d)
  }

  function And(x: Word, y: Word): Word {
    seq(DIGITS, i requires 0 <= i < DIGITS => x[i] & y[i])
  }

  function Or(x: Word, y: Word): Word {
    seq(DIGITS, i requires 0 <= i < DIGITS => x[i] | y[i])
  }

  /** x << 4k, losing what leaves the word. */
  function Shl(x: Word, k: nat): Word
    requires k <= DIGITS
  {
    x[k..] + Rep(0, k)
  }

  /** x >> 4k */
  function Shr(x: Word, k: nat): Word
    requires k <= DIGITS
  {
    Rep(0, k) + x[..DIGITS - k]
  }

  // ---------------------------------------------------------------- words and numbers

  function Pow16(k: nat): (p: nat)
    ensures p > 0
  {
    if k == 0 then 1 else 16 * Pow16(k - 1)
  }

  function Value(s: seq<nibble>): nat {
    if s == [] then 0 else 16 * Value(s[..|s| - 1]) + s[|s| - 1] as nat
  }

  /** n in as many digits as like has, keeping the low ones. */
  function Fixed(n: nat, like: seq<nibble>): (s: seq<nibble>)
    ensures |s| == |like|
  {
    if like == [] then [] else Fixed(n / 16, like[1..]) + [(n % 16) as bv4]
  }

  const ZERO: Word := Rep(0, DIGITS)

  function FromNat(n: nat): Word {
    Fixed(n, ZERO)
  }

  lemma NibbleRange(d: nibble, e: nibble, n: nat)
    requires n < 16
    ensures (d as nat) < 16 && (d as nat) as bv4 == d && (n as bv4) as nat == n
    ensures d < e <==> (d as nat) < (e as nat)
    ensures d == e <==> (d as nat) == (e as nat)
  {
  }

  lemma {:induction false} ValueBound(s: seq<nibble>)
    ensures Value(s) < Pow16(|s|)
  {
    if s == [] {
    } else {
      ValueBound(s[..|s| - 1]);
      NibbleRange(s[|s| - 1], 0, 0);
    }
  }

  lemma {:induction false} ValueFixed(n: nat, like: seq<nibble>)
    requires n < Pow16(|like|)
    ensures Value(Fixed(n, like)) == n
  {
    if like == [] {
    } else {
      ValueFixed(n / 16, like[1..]);
      NibbleRange(0, 0, n % 16);
      assert Fixed(n, like)[..|like| - 1] == Fixed(n / 16, like[1..]);
    }
  }

  lemma WordRange()
    ensures Pow16(DIGITS) == TWO_64 && Pow16(15) == 0x1000_0000_0000_0000
  {
    assert Pow16(4) == 0x1_0000;
    assert Pow16(8) == 0x1_0000_0000;
    assert Pow16(12) == 0x1_0000_0000_0000;
  }

  // ---------------------------------------------------------------- order

  /** Lexicographic order of digit strings. */
  predicate LexLess(x: seq<nibble>, y: seq<nibble>) {
    if x == [] then y != []
    else y != [] && (x[0] < y[0] || (x[0] == y[0] && LexLess(x[1..], y[1..])))
  }

  lemma {:induction false} LexSnoc(x: seq<nibble>, y: seq<nibble>, d: nibble, e: nibble)
    requires |x| == |y|
    ensures LexLess(x + [d], y + [e]) <==> LexLess(x, y) || (x == y && d < e)
  {
    if x == [] {
      assert (x + [d])[1..] == [] && (y + [e])[1..] == [];
    } else {
      LexSnoc(x[1..], y[1..], d, e);
      assert (x + [d])[1..] == x[1..] + [d] && (y + [e])[1..] == y[1..] + [e];
      assert x == y <==> x[0] == y[0] && x[1..] == y[1..] by {
        assert x == [x[0]] + x[1..] && y == [y[0]] + y[1..];
      }
      assert !(x[0] < x[0]);
    }
  }

  /** For digit strings of one length, lexicographic order is numeric order. */
  lemma {:induction false} LexIsNumeric(x: seq<nibble>, y: seq<nibble>)
    requires |x| == |y|
    ensures LexLess(x, y) <==> Value(x) < Value(y)
    ensures Value(x) == Value(y) ==> x == y
  {
    if x == [] {
    } else {
      var xs, xd := x[..|x| - 1], x[|x| - 1];
      var ys, yd := y[..|y| - 1], y[|y| - 1];
      LexIsNumeric(xs, ys);
      LexSnoc(xs, ys, xd, yd);
      NibbleRange(xd, yd, 0);
      NibbleRange(yd, xd, 0);
      assert x == xs + [xd] && y == ys + [yd];
    }
  }

  /** Words and the numbers below 2^64 are the same thing. */
  lemma WordsAreNumbers(w: Word, n: nat)
    requires n < TWO_64
    ensures Value(w) < TWO_64 && Value(FromNat(n)) == n && FromNat(Value(w)) == w
  {
    WordRange();
    ValueBound(w);
    ValueFixed(n, ZERO);
    ValueFixed(Value(w), ZERO);
    LexIsNumeric(FromNat(Value(w)), w);
  }

  // ---------------------------------------------------------------- shifts and numbers

  /** What a digit is worth k places up. */
  function Place(d: nat, k: nat): nat {
    if k == 0 then d else 16 * Place(d, k - 1)
  }

  lemma {:induction false} PlaceIsProduct(d: nat, k: nat)
    ensures Place(d, k) == d * Pow16(k)
  {
    if k == 0 {
    } else {
      PlaceIsProduct(d, k - 1);
      assert d * (16 * Pow16(k - 1)) == 16 * (d * Pow16(k - 1));
    }
  }

  lemma {:induction false} LeadingDigit(d: nibble, s: seq<nibble>)
    ensures Value([d] + s) == Place(d as nat, |s|) + Value(s)
  {
    var t := [d] + s;
    if s == [] {
      assert t[..0] == [];
    } else {
      LeadingDigit(d, s[..|s| - 1]);
      assert t[..|t| - 1] == [d] + s[..|s| - 1];
    }
  }

  lemma TrailingDigit(s: seq<nibble>, d: nibble)
    ensures Value(s + [d]) == 16 * Value(s) + d as nat
  {
    assert (s + [d])[..|s|] == s;
  }

  lemma ShrOne(x: Word)
    ensures Value(Shr(x, 1)) == Value(x) / 16
  {
    var init, last := x[..DIGITS - 1], x[DIGITS - 1];
    assert Shr(x, 1) == [0] + init && x == init + [last];
    LeadingDigit(0, init);
    PlaceIsProduct(0, |init|);
    TrailingDigit(init, last);
    NibbleRange(last, 0, 0);
  }

  lemma ShlOne(x: Word)
    ensures Value(Shl(x, 1)) == 16 * Value(x) % TWO_64
  {
    var d, rest := x[0], x[1..];
    assert Shl(x, 1) == rest + [0] && x == [d] + rest;
    LeadingDigit(d, rest);
    TrailingDigit(rest, 0);
    PlaceIsProduct(d as nat, DIGITS);
    WordRange();
    ValueBound(Shl(x, 1));
    WrapsTo(d as nat, 16 * Value(x), Value(Shl(x, 1)));
  }

  lemma WrapsTo(q: nat, n: nat, r: nat)
    requires n == q * TWO_64 + r && r < TWO_64
    ensures n % TWO_64 == r
  {
  }

  lemma ShiftsCompose(x: Word, k: nat)
    requires k < DIGITS
    ensures Shr(x, k + 1) == Shr(Shr(x, k), 1) && Shl(x, k + 1) == Shl(Shl(x, k), 1)
  {
  }

  lemma Regroup(p: nat, a: nat, b: nat, q: nat, r: nat)
    requires b < p && a == 16 * q + r && r < 16
    ensures p * a + b == (16 * p) * q + (p * r + b) && p * r + b < 16 * p
  {
    calc {
      p * a;
      p * (16 * q + r);
      p * (16 * q) + p * r;
      (16 * p) * q + p * r;
    }
    assert p * r <= p * 15;
  }

  lemma Quotient(n: nat, m: nat, q: nat, r: nat)
    requires m > 0 && n == m * q + r && r < m
    ensures n / m == q
  {
    var k := n / m;
    assert m * k + n % m == m * q + r;
    if q > k {
      assert m * (q - k) == m * q - m * k;
      AtLeast(m, q - k);
    } else if q < k {
      assert m * (k - q) == m * k - m * q;
      AtLeast(m, k - q);
    }
  }

  lemma AtLeast(m: nat, d: nat)
    requires d >= 1
    ensures m * d >= m
  {
  }

  lemma DivideTwice(n: nat, p: nat)
    requires p > 0
    ensures n / p / 16 == n / (16 * p)
  {
    var a, b := n / p, n % p;
    assert n == p * a + b;
    Regroup(p, a, b, a / 16, a % 16);
    Quotient(n, 16 * p, a / 16, p * (a % 16) + b);
  }

  lemma MultiplyTwice(n: nat, p: nat)
    ensures 16 * (p * n % TWO_64) % TWO_64 == (16 * p) * n % TWO_64
  {
    WrapBySixteen(p * n);
    assert (16 * p) * n == 16 * (p * n);
  }

  lemma WrapBySixteen(m: nat)
    ensures 16 * (m % TWO_64) % TWO_64 == 16 * m % TWO_64
  {
    var q, r := m / TWO_64, 16 * (m % TWO_64);
    assert m == q * TWO_64 + m % TWO_64;
    WrapsTo(16 * q + r / TWO_64, 16 * m, r % TWO_64);
  }

  /** Moving the digits k places down is division by 16^k. */
  lemma {:induction false} ShrDivides(x: Word, k: nat)
    requires k <= DIGITS
    ensures Value(Shr(x, k)) == Value(x) / Pow16(k)
  {
    if k == 0 {
      assert Shr(x, 0) == x;
    } else {
      ShrDivides(x, k - 1);
      ShiftsCompose(x, k - 1);
      ShrOne(Shr(x, k - 1));
      DivideTwice(Value(x), Pow16(k - 1));
    }
  }

  /** Moving them k places up is multiplication by 16^k, modulo 2^64. */
  lemma {:induction false} ShlMultiplies(x: Word, k: nat)
    requires k <= DIGITS
    ensures Value(Shl(x, k)) == Pow16(k) * Value(x) % TWO_64
  {
    if k == 0 {
      assert Shl(x, 0) == x;
      WordsAreNumbers(x, 0);
    } else {
      ShlMultiplies(x, k - 1);
      ShiftsCompose(x, k - 1);
      ShlOne(Shl(x, k - 1));
      MultiplyTwice(Value(x), Pow16(k - 1));
    }
  }
}
