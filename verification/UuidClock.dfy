/** get_time and the time-based generators of one thread. */
module UuidClock {
  import opened HexWords
  import opened UuidFields

  const GREGORIAN := 0x01b2_1dd2_1381_4000
  const TWO_60 := 0x1000_0000_0000_0000

  // ---------------------------------------------------------------- the clock

  /** The thread's next time, given the last one handed out and what the clock reads. */
  function Tick(last: u64, reading: u64): u64 {
    if last >= reading then (last + 1) % TWO_64 else reading
  }

  lemma TickAdvances(last: u64, reading: u64)
    ensures Tick(last, reading) > last <==> last != TWO_64 - 1
  {
  }

  /** A clock that has moved on is taken at its word; otherwise time goes on by one unit. */
  lemma TickFollowsClock(last: u64, reading: u64)
    ensures reading > last ==> Tick(last, reading) == reading
    ensures reading <= last < TWO_64 - 1 ==> Tick(last, reading) == last + 1
  {
  }

  function Ticks(last: u64, readings: seq<u64>): (ts: seq<u64>)
    ensures |ts| == |readings|
    decreases |readings|
  {
    if readings == [] then [] else
      var t := Tick(last, readings[0]);
      [t] + Ticks(t, readings[1..])
  }

  /** Each time is the tick after the one before it. */
  lemma {:induction false} TickAt(last: u64, readings: seq<u64>, i: nat)
    requires i < |readings|
    ensures Ticks(last, readings)[i] == Tick(if i == 0 then last else Ticks(last, readings)[i - 1], readings[i])
    decreases |readings|
  {
    if i == 0 {
    } else {
      TickAt(Tick(last, readings[0]), readings[1..], i - 1);
    }
  }

  /** However the clock stalls or jumps back, every time handed out is above all earlier ones, as long
      as the counter stays clear of its 64-bit wrap. */
  lemma {:induction false} TicksIncrease(last: u64, readings: seq<u64>, i: nat, j: nat)
    requires last != TWO_64 - 1 && forall k :: 0 <= k < |readings| ==> Ticks(last, readings)[k] != TWO_64 - 1
    requires i <= j < |readings|
    ensures last < Ticks(last, readings)[i]
    ensures i < j ==> Ticks(last, readings)[i] < Ticks(last, readings)[j]
    decreases j
  {
    var ts := Ticks(last, readings);
    TickAt(last, readings, j);
    TickAdvances(if j == 0 then last else ts[j - 1], readings[j]);
    if j == 0 {
    } else {
      TicksIncrease(last, readings, if i < j then i else j - 1, j - 1);
    }
  }

  // ---------------------------------------------------------------- the generators

  datatype Request = V0(mac: Mac, pid: Word) | V1(mac: Mac)

  function Offset(r: Request): u64 {
    if r.V0? then 0 else GREGORIAN
  }

  /** What uuid0 or uuid1 makes of the time t. */
  function Make(r: Request, t: Word): Uuid {
    match r
    case V0(mac, pid) => Uuid0(t, pid, mac)
    case V1(mac) => Uuid1(t, mac)
  }

  /** An id tells which generator made it and for which 60-bit time. */
  lemma MadeSays(r: Request, t: Word)
    requires t[0] == 0
    ensures var u := Make(r, t);
            Version(u) == (if r.V0? then 0 else 1) && Timestamp(u) == t && Node(u) == r.mac
  {
    match r {
      case V0(mac, pid) => Uuid0RoundTrip(t, pid, mac);
      case V1(mac) => Uuid1RoundTrip(t, mac);
    }
  }

  lemma MadeDiffer(r: Request, t: Word, r': Request, t': Word)
    requires t[0] == 0 && t'[0] == 0
    requires r.V0? == r'.V0? ==> t != t'
    ensures Make(r, t) != Make(r', t')
  {
    MadeSays(r, t);
    MadeSays(r', t');
  }

  lemma {:induction false} TopDigit(s: seq<nibble>)
    requires s != [] && Value(s) < Pow16(|s| - 1)
    ensures s[0] == 0
  {
    NibbleRange(s[0], 0, 0);
    if |s| == 1 {
    } else {
      TopDigit(s[..|s| - 1]);
    }
  }

  lemma TimeWordOf(n: nat)
    requires n < TWO_60
    ensures Value(FromNat(n)) == n && FromNat(n)[0] == 0
  {
    WordRange();
    WordsAreNumbers(ZERO, n);
    TopDigit(FromNat(n));
  }

  lemma TimesDiffer(r: Request, m: nat, r': Request, n: nat)
    requires m < TWO_60 && n < TWO_60
    requires r.V0? == r'.V0? ==> m != n
    ensures Make(r, FromNat(m % TWO_64)) != Make(r', FromNat(n % TWO_64))
  {
    TimeWordOf(m);
    TimeWordOf(n);
    assert m % TWO_64 == m && n % TWO_64 == n;
    MadeDiffer(r, FromNat(m), r', FromNat(n));
  }

  /** The timestamp of the i-th id. */
  function Stamp(last: u64, readings: seq<u64>, rs: seq<Request>, i: nat): nat
    requires i < |readings| == |rs|
  {
    Ticks(last, readings)[i] + Offset(rs[i])
  }

  /** The i-th id a thread generates. */
  function Id(last: u64, readings: seq<u64>, rs: seq<Request>, i: nat): Uuid
    requires i < |readings| == |rs|
  {
    Make(rs[i], FromNat(Stamp(last, readings, rs, i) % TWO_64))
  }

  /** Every timestamp fits the sixty bits the format has for it. */
  ghost predicate InRange(last: u64, readings: seq<u64>, rs: seq<Request>) {
    && last < TWO_60 && |readings| == |rs|
    && forall i :: 0 <= i < |rs| ==> Stamp(last, readings, rs, i) < TWO_60
  }

  lemma StampsDiffer(last: u64, readings: seq<u64>, rs: seq<Request>, i: nat, j: nat)
    requires InRange(last, readings, rs) && i < j < |rs|
    ensures Stamp(last, readings, rs, i) < TWO_60 && Stamp(last, readings, rs, j) < TWO_60
    ensures rs[i].V0? == rs[j].V0? ==> Stamp(last, readings, rs, i) < Stamp(last, readings, rs, j)
  {
    assert forall k :: 0 <= k < |rs| ==> Stamp(last, readings, rs, k) < TWO_60;
    assert forall k :: 0 <= k < |rs| ==> Ticks(last, readings)[k] <= Stamp(last, readings, rs, k);
    TicksIncrease(last, readings, i, j);
  }

  /** Ids generated by one thread never repeat, whatever the clock reads and whichever generator each
      call uses, as long as their timestamps fit in sixty bits. */
  lemma IdsNeverRepeat(last: u64, readings: seq<u64>, rs: seq<Request>, i: nat, j: nat)
    requires InRange(last, readings, rs) && i < j < |rs|
    ensures Id(last, readings, rs, i) != Id(last, readings, rs, j)
  {
    StampsDiffer(last, readings, rs, i, j);
    TimesDiffer(rs[i], Stamp(last, readings, rs, i), rs[j], Stamp(last, readings, rs, j));
  }

  datatype Timespec = Timespec(sec: nat, nsec: nat)

  /** A clock reading in units of 100ns. */
  function Reading(tp: Timespec): u64 {
    (tp.sec * 10000000 % TWO_64 + tp.nsec / 100) % TWO_64
  }

  lemma ReadingIs(tp: Timespec)
    requires tp.sec * 10000000 + tp.nsec / 100 < TWO_64
    ensures Reading(tp) == tp.sec * 10000000 + tp.nsec / 100
  {
  }

  /** The Gregorian calendar began 141427 days before the Unix epoch. */
  lemma GregorianIs()
    ensures GREGORIAN == 141427 * 24 * 60 * 60 * 10000000
  {
  }

  /** The time pretty prints: without the Gregorian offset that a version 1 id carries. */
  function PrettyTime(u: Uuid): int {
    (Value(Timestamp(u)) - if Version(u) == 1 then GREGORIAN else 0) % TWO_64
  }

  /** pretty gets back the time that get_time handed out, whichever generator was used. */
  lemma PrettyTimeIsTick(r: Request, tick: u64)
    requires tick + Offset(r) < TWO_60
    ensures PrettyTime(Make(r, FromNat(tick + Offset(r)))) == tick
  {
    TimeWordOf(tick + Offset(r));
    MadeSays(r, FromNat(tick + Offset(r)));
  }

  function Readings(tps: seq<Timespec>): seq<u64> {
    seq(|tps|, i requires 0 <= i < |tps| => Reading(tps[i]))
  }

  /** The thread-local clock. */
  class Clock {
    var last: u64

    constructor ()
      ensures last == 0
    {
      last := 0;
    }

    /** get_time, in 64-bit arithmetic. */
    method GetTime(tp: Timespec, offset: u64) returns (t: u64)
      modifies this
      ensures last == Tick(old(last), Reading(tp)) && t == (last + offset) % TWO_64
      ensures last > old(last) <==> old(last) != TWO_64 - 1
      ensures var now := tp.sec * 10000000 + tp.nsec / 100;
              now < TWO_64 ==> last == if now > old(last) then now else (old(last) + 1) % TWO_64
    {
      var uuidTime := tp.sec * 10000000 % TWO_64;
      uuidTime := (uuidTime + tp.nsec / 100) % TWO_64;
      if last >= uuidTime {
        last := (last + 1) % TWO_64;
        uuidTime := last;
      } else {
        last := uuidTime;
      }
      t := (uuidTime + offset) % TWO_64;
    }

    /** The times that any number of calls to uuid0 and uuid1, in any order, work with. */
    method GetTimes(tps: seq<Timespec>, rs: seq<Request>) returns (ts: seq<u64>)
      requires |tps| == |rs|
      modifies this
      ensures |ts| == |rs| && forall k :: 0 <= k < |ts| ==> ts[k] == Stamp(old(last), Readings(tps), rs, k) % TWO_64
    {
      ts := [];
      ghost var readings := Readings(tps);
      ghost var start := last;
      for i := 0 to |rs|
        invariant |ts| == i
        invariant last == if i == 0 then start else Ticks(start, readings)[i - 1]
        invariant forall k :: 0 <= k < i ==> ts[k] == Stamp(start, readings, rs, k) % TWO_64
      {
        TickAt(start, readings, i);
        var t := GetTime(tps[i], Offset(rs[i]));
        ts := ts + [t];
      }
    }
  }
}
