/** The fields of a uuid: packed as uuid0, uuid1 and uuid4 do it, unpacked as uuid::pretty does it. */
module UuidFields {
  import opened HexWords

  datatype Uuid = Uuid(ab: Word, cd: Word)

  /** A mask: the digits given, at the low end of a word of zeros. */
  function Low(digits: seq<nibble>): Word
    requires |digits| <= DIGITS
  {
    Rep(0, DIGITS - |digits|) + digits
  }

  function Not(x: Word): Word {
    seq(DIGITS, i requires 0 <= i < DIGITS => !x[i])
  }

  /** A node: any 48-bit value. */
  type Mac = w: Word | w[..4] == Rep(0, 4) witness Rep(0, DIGITS)

  // ---------------------------------------------------------------- packing

  /** The upper word of uuid0 and uuid1: the three time fields and the version. */
  function TimeUpper(t: Word, version: nibble): Word {
    var timeLow := And(t, Low(Rep(0xf, 8)));
    var timeMid := And(Shr(t, 8), Low(Rep(0xf, 4)));
    var timeHiVersion := And(Shr(t, 12), Low(Rep(0xf, 3)));
    var upper := Or(Or(Shl(timeLow, 8), Shl(timeMid, 4)), timeHiVersion);
    Or(And(upper, Not(Low([0xf, 0, 0, 0]))), Shl(Low([version]), 3))
  }

  /** uuid0: t is the time, pid the process. */
  function Uuid0(t: Word, pid: Word, mac: Mac): Uuid {
    var pid16 := And(pid, Low(Rep(0xf, 4)));
    var pidLow, pidHi := And(pid16, Low(Rep(0xf, 2))), And(Shr(pid16, 2), Low(Rep(0xf, 2)));
    Uuid(TimeUpper(t, 0), Or(Shl(Or(Shl(pidHi, 2), pidLow), 12), mac))
  }

  /** uuid1: t is the time with the Gregorian offset, from which the clock sequence is also drawn. */
  function Uuid1(t: Word, mac: Mac): Uuid {
    var clockSeq := And(t, Low([3, 0xf, 0xf, 0xf]));
    var low, hiVariant := And(clockSeq, Low(Rep(0xf, 2))), And(Shr(clockSeq, 2), Low([3, 0xf]));
    var lower := Or(Shl(Or(Shl(hiVariant, 2), low), 12), mac);
    Uuid(TimeUpper(t, 1), WithVariant(lower))
  }

  function WithVariant(lower: Word): Word {
    Or(And(lower, Not(Shl(Low([0xc, 0, 0, 0]), 12))), Shl(Low([8, 0, 0, 0]), 12))
  }

  /** uuid4: two random words with the version and the variant written over them. */
  function Uuid4(r: Word, s: Word): Uuid {
    Uuid(Or(And(r, Rep(0xf, 12) + [0, 0xf, 0xf, 0xf]), Low([4, 0, 0, 0])),
         Or(And(s, [3] + Rep(0xf, 15)), [8] + Rep(0, 15)))
  }

  // ---------------------------------------------------------------- unpacking

  function Version(u: Uuid): nibble {
    var b := And(u.ab, Low(Rep(0xf, 8)));
    Shr(And(b, Low([0xf, 0, 0, 0])), 3)[DIGITS - 1]
  }

  /** The 60-bit timestamp, before the Gregorian offset is taken off. */
  function Timestamp(u: Uuid): Word {
    var a, b := Shr(u.ab, 8), And(u.ab, Low(Rep(0xf, 8)));
    Or(Or(Shl(And(b, Low(Rep(0xf, 3))), 12), Shl(Shr(b, 4), 8)), a)
  }

  /** The node, printed as (c & 0xFFFF) in four digits and then d in eight. */
  function Node(u: Uuid): Word {
    var c, d := Shr(u.cd, 8), And(u.cd, Low(Rep(0xf, 8)));
    Low(And(c, Low(Rep(0xf, 4)))[DIGITS - 4..] + d[DIGITS - 8..])
  }

  function Pid(u: Uuid): Word {
    Shr(Shr(u.cd, 8), 4)
  }

  function ClockSeq(u: Uuid): Word {
    And(Shr(Shr(u.cd, 8), 4), Low([3, 0xf, 0xf, 0xf]))
  }

  // ---------------------------------------------------------------- what packing leaves

  lemma KeepLow(x: Word, k: nat)
    requires k <= DIGITS
    ensures And(x, Low(Rep(0xf, k))) == Rep(0, DIGITS - k) + x[DIGITS - k..]
  {
  }

  /** Two words whose digits do not overlap, side by side. */
  lemma OrPieces(x: Word, y: Word, k: nat)
    requires k <= DIGITS && x[k..] == Rep(0, DIGITS - k) && y[..k] == Rep(0, k)
    ensures Or(x, y) == x[..k] + y[k..]
  {
    assert forall i :: k <= i < DIGITS ==> x[i] == x[k..][i - k] == 0;
    assert forall i :: 0 <= i < k ==> y[i] == y[..k][i] == 0;
  }

  /** Digit by digit, the upper word reads: time low, time mid, version, time high. */
  lemma TimeUpperDigits(t: Word, version: nibble)
    ensures TimeUpper(t, version) == t[8..] + t[4..8] + [version] + t[1..4]
  {
    var low, mid, hi := t[8..] + Rep(0, 8), Rep(0, 8) + t[4..8] + Rep(0, 4), Rep(0, 13) + t[1..4];
    KeepLow(t, 8);
    assert Shl(And(t, Low(Rep(0xf, 8))), 8) == low;
    KeepLow(Shr(t, 8), 4);
    assert Shl(And(Shr(t, 8), Low(Rep(0xf, 4))), 4) == mid;
    KeepLow(Shr(t, 12), 3);
    assert And(Shr(t, 12), Low(Rep(0xf, 3))) == hi;
    OrPieces(low, mid, 8);
    OrPieces(Or(low, mid), hi, 12);
    WriteVersion(Or(Or(low, mid), hi), version);
  }

  lemma WriteVersion(x: Word, version: nibble)
    requires x[12] == 0
    ensures Or(And(x, Not(Low([0xf, 0, 0, 0]))), Shl(Low([version]), 3)) == x[..12] + [version] + x[13..]
  {
    assert !(0xf as nibble) == 0 && !(0 as nibble) == 0xf;
  }

  /** The lower word of uuid0: the process in four digits, then the node. */
  lemma Uuid0Lower(t: Word, pid: Word, mac: Mac)
    ensures Uuid0(t, pid, mac).cd == pid[12..] + mac[4..]
  {
    var pid16 := And(pid, Low(Rep(0xf, 4)));
    KeepLow(pid, 4);
    assert pid16 == Rep(0, 12) + pid[12..];
    KeepLow(pid16, 2);
    assert And(pid16, Low(Rep(0xf, 2))) == Low(pid[14..]);
    KeepLow(Shr(pid16, 2), 2);
    assert And(Shr(pid16, 2), Low(Rep(0xf, 2))) == Low(pid[12..14]);
    PutTogether(pid[12..14], pid[14..], mac);
  }

  lemma PutTogether(hi: seq<nibble>, low: seq<nibble>, mac: Mac)
    requires |hi| == 2 && |low| == 2
    ensures Or(Shl(Or(Shl(Low(hi), 2), Low(low)), 12), mac) == hi + low + mac[4..]
  {
    assert Shl(Low(hi), 2) == Rep(0, 12) + hi + Rep(0, 2);
    OrPieces(Shl(Low(hi), 2), Low(low), 14);
    assert Or(Shl(Low(hi), 2), Low(low)) == Low(hi + low);
    assert Shl(Low(hi + low), 12) == hi + low + Rep(0, 12);
    OrPieces(hi + low + Rep(0, 12), mac, 4);
  }

  /** The lower word of uuid1: variant bits 10 and the low fourteen time bits, then the node. */
  lemma Uuid1Lower(t: Word, mac: Mac)
    ensures Uuid1(t, mac).cd == [8 | (t[12] & 3)] + t[13..] + mac[4..]
  {
    var clockSeq := And(t, Low([3, 0xf, 0xf, 0xf]));
    assert clockSeq == Rep(0, 12) + [t[12] & 3] + t[13..];
    KeepLow(clockSeq, 2);
    assert And(clockSeq, Low(Rep(0xf, 2))) == Low(t[14..]);
    assert And(Shr(clockSeq, 2), Low([3, 0xf])) == Low([t[12] & 3, t[13]]);
    PutTogether([t[12] & 3, t[13]], t[14..], mac);
    var lower := [t[12] & 3, t[13]] + t[14..] + mac[4..];
    WriteVariant(lower);
    assert (t[12] & 3) & 3 == t[12] & 3;
  }

  lemma WriteVariant(x: Word)
    ensures WithVariant(x) == [8 | (x[0] & 3)] + x[1..]
  {
    var mask := Not(Shl(Low([0xc, 0, 0, 0]), 12));
    assert Shl(Low([0xc, 0, 0, 0]), 12) == [0xc] + Rep(0, 15);
    assert mask == [3] + Rep(0xf, 15);
    assert Shl(Low([8, 0, 0, 0]), 12) == [8] + Rep(0, 15);
    assert (x[0] & 3) | 8 == 8 | (x[0] & 3);
  }

  // ---------------------------------------------------------------- what unpacking finds

  lemma UnpackUpper(u: Uuid)
    ensures Version(u) == u.ab[12]
    ensures Timestamp(u) == [0] + u.ab[13..] + u.ab[8..12] + u.ab[..8]
  {
    var b := And(u.ab, Low(Rep(0xf, 8)));
    KeepLow(u.ab, 8);
    assert b == Rep(0, 8) + u.ab[8..];
    assert And(b, Low([0xf, 0, 0, 0])) == Rep(0, 12) + [u.ab[12]] + Rep(0, 3);
    KeepLow(b, 3);
    var hi, mid, low := [0] + u.ab[13..] + Rep(0, 12), Rep(0, 4) + u.ab[8..12] + Rep(0, 8), Rep(0, 8) + u.ab[..8];
    assert Shl(And(b, Low(Rep(0xf, 3))), 12) == hi;
    assert Shl(Shr(b, 4), 8) == mid;
    OrPieces(hi, mid, 4);
    OrPieces(Or(hi, mid), low, 8);
  }

  lemma UnpackLower(u: Uuid)
    ensures Node(u) == Low(u.cd[4..]) && Pid(u) == Low(u.cd[..4]) && ClockSeq(u) == Low([u.cd[0] & 3] + u.cd[1..4])
  {
    var c := Shr(u.cd, 8);
    KeepLow(c, 4);
    assert And(c, Low(Rep(0xf, 4)))[DIGITS - 4..] == u.cd[4..8];
    KeepLow(u.cd, 8);
    assert And(u.cd, Low(Rep(0xf, 8)))[DIGITS - 8..] == u.cd[8..];
    assert u.cd[4..8] + u.cd[8..] == u.cd[4..];
    assert Shr(c, 4) == Low(u.cd[..4]);
    assert And(Low(u.cd[..4]), Low([3, 0xf, 0xf, 0xf])) == Low([u.cd[0] & 3] + u.cd[1..4]);
  }

  lemma TimeRoundTrip(t: Word, version: nibble, u: Uuid)
    requires u.ab == TimeUpper(t, version)
    ensures Version(u) == version && Timestamp(u) == [0] + t[1..] && (Timestamp(u) == t <==> t[0] == 0)
  {
    TimeUpperDigits(t, version);
    UnpackUpper(u);
    assert t[1..4] + t[4..8] + t[8..] == t[1..];
    assert t == [t[0]] + t[1..];
  }

  lemma NodeRoundTrip(four: seq<nibble>, mac: Mac, u: Uuid)
    requires |four| == 4 && u.cd == four + mac[4..]
    ensures Node(u) == mac && Pid(u) == Low(four) && ClockSeq(u) == Low([four[0] & 3] + four[1..])
  {
    UnpackLower(u);
    assert mac == mac[..4] + mac[4..];
  }

  /** uuid0 and pretty agree: the process and the node come back, and so does every 60-bit time. */
  lemma Uuid0RoundTrip(t: Word, pid: Word, mac: Mac)
    ensures var u := Uuid0(t, pid, mac);
            Version(u) == 0 && Node(u) == mac && Pid(u) == Low(pid[12..])
            && Timestamp(u) == [0] + t[1..] && (Timestamp(u) == t <==> t[0] == 0)
  {
    var u := Uuid0(t, pid, mac);
    TimeRoundTrip(t, 0, u);
    Uuid0Lower(t, pid, mac);
    NodeRoundTrip(pid[12..], mac, u);
  }

  /** uuid1 and pretty agree, and the version and variant are those of section 4.1 of RFC 4122. */
  lemma Uuid1RoundTrip(t: Word, mac: Mac)
    ensures var u := Uuid1(t, mac);
            Version(u) == 1 && u.cd[0] & 0xc == 8 && Node(u) == mac
            && ClockSeq(u) == Low([t[12] & 3] + t[13..])
            && Timestamp(u) == [0] + t[1..] && (Timestamp(u) == t <==> t[0] == 0)
  {
    var u := Uuid1(t, mac);
    TimeRoundTrip(t, 1, u);
    Uuid1Lower(t, mac);
    NodeRoundTrip([8 | (t[12] & 3)] + t[13..], mac, u);
    assert (8 | (t[12] & 3)) & 3 == t[12] & 3;
  }

  /** Two uuid0 values of one process and node are the same exactly when their times agree in the
      low sixty bits. */
  lemma Uuid0Collides(t: Word, t': Word, pid: Word, mac: Mac)
    ensures Uuid0(t, pid, mac) == Uuid0(t', pid, mac) <==> t[1..] == t'[1..]
  {
    Uuid0RoundTrip(t, pid, mac);
    Uuid0RoundTrip(t', pid, mac);
    Uuid0Lower(t, pid, mac);
    Uuid0Lower(t', pid, mac);
    TimeUpperDigits(t, 0);
    TimeUpperDigits(t', 0);
    assert t[8..] == t[1..][7..] && t[4..8] == t[1..][3..7] && t[1..4] == t[1..][..3];
    assert t'[8..] == t'[1..][7..] && t'[4..8] == t'[1..][3..7] && t'[1..4] == t'[1..][..3];
    assert ([0] + t[1..])[1..] == t[1..] && ([0] + t'[1..])[1..] == t'[1..];
  }

  /** uuid4 fixes the version and the variant and keeps every other random bit. */
  lemma Uuid4Fields(r: Word, s: Word)
    ensures var u := Uuid4(r, s);
            Version(u) == 4 && u.cd[0] & 0xc == 8
            && u.ab == r[..12] + [4] + r[13..] && u.cd == [8 | (s[0] & 3)] + s[1..]
  {
    var u := Uuid4(r, s);
    UnpackUpper(u);
    assert (s[0] & 3) | 8 == 8 | (s[0] & 3);
  }
}
