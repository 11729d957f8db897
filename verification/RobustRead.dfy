/** rio_readn, rio_read, rio_readnb and rio_readlineb over a descriptor that delivers its stream in
    arbitrary pieces. */
module RobustRead {
  import opened Bytes

  const RIO_BUFSIZE := 8192
  const NEWLINE: byte := 10
  const INT_MAX := 0x7fff_ffff

  /** What one read(2) call does.  A script lists the calls that do not simply fill the request; once
      it is used up the kernel delivers all it is asked for. */
  datatype ReadEvent = Deliver(count: pos) | Interrupt | Error

  predicate ErrorFree(script: seq<ReadEvent>) {
    Error !in script
  }

  /** A readable descriptor: the stream it carries and how far the kernel has handed it out. */
  class Source {
    ghost const stream: seq<byte>
    ghost var consumed: nat
    ghost var errors: nat        // read(2) calls that failed for another reason than a signal
    var pending: seq<byte>
    var script: seq<ReadEvent>

    ghost predicate Valid()
      reads this
    {
      consumed <= |stream| && pending == stream[consumed..]
    }

    constructor (stream: seq<byte>, script: seq<ReadEvent>)
      ensures Valid() && this.stream == stream && consumed == 0 && errors == 0 && this.script == script
    {
      this.stream := stream;
      consumed, errors := 0, 0;
      pending := stream;
      this.script := script;
    }

    /** read(2) */
    method Read(n: pos) returns (ret: int, interrupted: bool, data: seq<byte>)
      requires Valid()
      modifies this
      ensures Valid() && script == old(script)[if old(script) == [] then 0 else 1..]
      ensures ret < 0 ==> ret == -1 && old(script) != [] && consumed == old(consumed) && data == []
                          && old(script)[0] == if interrupted then Interrupt else Error
      ensures errors == old(errors) + if ret < 0 && !interrupted then 1 else 0
      ensures ret >= 0 ==> |data| == ret <= n && consumed == old(consumed) + ret
                           && data == stream[old(consumed)..consumed]
                           && (ret == 0 <==> old(consumed) == |stream|)
      ensures consumed <= |stream|
    {
      interrupted := false;
      data := [];
      var most := n;
      if script != [] {
        var event := script[0];
        script := script[1..];
        match event
        case Interrupt => return -1, true, [];
        case Error =>
          errors := errors + 1;
          return -1, false, [];
        case Deliver(k) => most := Min(k, n);
      }
      var count := Min(most, |pending|);
      data := pending[..count];
      pending := pending[count..];
      consumed := consumed + count;
      ret := count;
    }
  }

  /** rio_readn, unbuffered. */
  method ReadN(src: Source, usr: array<byte>, n: nat) returns (ret: int)
    requires src.Valid() && n <= usr.Length
    modifies src, usr
    ensures src.Valid() && -1 <= ret <= n
    ensures ret >= 0 ==> ret == Min(n, |src.stream| - old(src.consumed))
                         && src.consumed == old(src.consumed) + ret
                         && usr[..ret] == src.stream[old(src.consumed)..src.consumed]
                         && usr[ret..] == old(usr[ret..])
    ensures ret < 0 ==> old(src.consumed) <= src.consumed <= |src.stream|
    ensures src.errors == old(src.errors) + if ret < 0 then 1 else 0
    ensures ErrorFree(old(src.script)) ==> ret >= 0 && ErrorFree(src.script)
  {
    var nleft := n;
    while nleft > 0
      invariant 0 <= nleft <= n && src.Valid()
      invariant src.consumed == old(src.consumed) + (n - nleft)
      invariant forall k :: 0 <= k < n - nleft ==> usr[k] == src.stream[old(src.consumed) + k]
      invariant forall k :: n - nleft <= k < usr.Length ==> usr[k] == old(usr[k])
      invariant ErrorFree(old(src.script)) ==> ErrorFree(src.script)
      invariant src.errors == old(src.errors)
      decreases nleft + |src.script|
    {
      var at := n - nleft;
      var nread, interrupted, data := src.Read(nleft);
      if nread < 0 {
        if interrupted {
          nread := 0;
        } else {
          return -1;
        }
      } else if nread == 0 {
        break;
      }
      forall k | 0 <= k < |data| {
        usr[at + k] := data[k];
      }
      nleft := nleft - nread;
    }
    ret := n - nleft;
  }

  /** rio_t.  handed is how much of the stream rio_read has copied out to callers. */
  class Rio {
    const src: Source
    const buf: array<byte>
    var cnt: int
    var ptr: nat
    ghost var handed: nat

    /** The bytes read from the descriptor but not yet copied out. */
    ghost function Unread(): seq<byte>
      requires cnt > 0 ==> ptr + cnt <= buf.Length
      reads this, buf
    {
      if cnt > 0 then buf[ptr..ptr + cnt] else []
    }

    ghost predicate Valid()
      reads this, src, buf
    {
      && src.Valid()
      && buf.Length == RIO_BUFSIZE
      && (cnt > 0 ==> ptr + cnt <= buf.Length)
      && handed <= src.consumed
      && Unread() == src.stream[handed..src.consumed]
    }

    /** What is left of the stream for callers. */
    ghost function Left(): seq<byte>
      requires Valid()
      reads this, src, buf
    {
      src.stream[handed..]
    }

    /** rio_readinitb */
    constructor (src: Source)
      requires src.Valid()
      ensures Valid() && this.src == src && fresh(buf) && handed == src.consumed
    {
      this.src := src;
      cnt := 0;
      ptr := 0;
      buf := new byte[RIO_BUFSIZE];
      handed := src.consumed;
    }

    /** The refill loop at the head of rio_read: false means error. */
    method Refill() returns (ok: bool)
      requires Valid()
      modifies this`cnt, this`ptr, src, buf
      ensures Valid() && handed == old(handed)
      ensures ok ==> (cnt > 0 <==> handed < |src.stream|) && 0 <= cnt
      ensures ErrorFree(old(src.script)) ==> ok && ErrorFree(src.script)
      ensures src.errors == old(src.errors) + if ok then 0 else 1
    {
      while cnt <= 0
        invariant Valid() && src.errors == old(src.errors)
        invariant ErrorFree(old(src.script)) ==> ErrorFree(src.script)
        decreases cnt <= 0, |src.script|
      {
        var ret, interrupted, data := src.Read(RIO_BUFSIZE);
        cnt := ret;
        if ret < 0 {
          if !interrupted {
            return false;
          }
        } else if ret == 0 {
          return true;
        } else {
          forall k | 0 <= k < |data| {
            buf[k] := data[k];
          }
          ptr := 0;
          assert buf[..cnt] == data;
        }
      }
      ok := true;
    }

    /** rio_read: copies up to n bytes to usr[at..]. */
    method Read(usr: array<byte>, at: nat, n: pos) returns (ret: int)
      requires Valid() && usr != buf && at + n <= usr.Length
      modifies this, src, buf, usr
      ensures Valid()
      ensures ret < 0 ==> ret == -1 && handed == old(handed) && usr[..] == old(usr[..])
      ensures ret >= 0 ==> ret <= n && handed == old(handed) + ret && (ret == 0 <==> old(handed) == |src.stream|)
      ensures ret >= 0 ==> handed <= |src.stream|
                           && forall k :: at <= k < at + ret ==> usr[k] == src.stream[old(handed) + k - at]
      ensures forall k :: 0 <= k < usr.Length && !(at <= k < at + ret) ==> usr[k] == old(usr[k])
      ensures ErrorFree(old(src.script)) ==> ret >= 0 && ErrorFree(src.script)
      ensures src.errors == old(src.errors) + if ret < 0 then 1 else 0
    {
      var ok := Refill();
      if !ok {
        return -1;
      }
      if cnt == 0 {
        return 0;
      }
      ret := Take(usr, at, n);
    }

    /** The copy at the end of rio_read. */
    method Take(usr: array<byte>, at: nat, n: pos) returns (count: nat)
      requires Valid() && usr != buf && at + n <= usr.Length && cnt > 0
      modifies this, usr
      ensures Valid() && 0 < count <= n && handed == old(handed) + count <= |src.stream|
      ensures forall k :: at <= k < at + count ==> usr[k] == src.stream[old(handed) + k - at]
      ensures forall k :: 0 <= k < usr.Length && !(at <= k < at + count) ==> usr[k] == old(usr[k])
    {
      count := n;
      if cnt < n {
        count := cnt;
      }
      ghost var unread := Unread();
      assert forall k :: ptr <= k < ptr + cnt ==> buf[k] == unread[k - ptr];
      forall k | 0 <= k < count {
        usr[at + k] := buf[ptr + k];
      }
      ptr := ptr + count;
      cnt := cnt - count;
      handed := handed + count;
      assert Unread() == unread[count..];
    }

    /** rio_readnb: the next n bytes of the stream, or what is left of it. */
    method ReadNB(usr: array<byte>, n: nat) returns (ret: int)
      requires Valid() && usr != buf && n <= usr.Length
      modifies this, src, buf, usr
      ensures Valid() && -1 <= ret <= n
      ensures ret >= 0 ==> ret == Min(n, |old(Left())|) && handed == old(handed) + ret
      ensures ret >= 0 ==> usr[..ret] == old(Left())[..ret] && usr[ret..] == old(usr[ret..])
      ensures ret < 0 ==> old(handed) <= handed
      ensures ErrorFree(old(src.script)) ==> ret >= 0 && ErrorFree(src.script)
      ensures src.errors == old(src.errors) + if ret < 0 then 1 else 0
    {
      var nleft := n;
      while nleft > 0
        invariant 0 <= nleft <= n && Valid()
        invariant handed == old(handed) + (n - nleft)
        invariant forall k :: 0 <= k < n - nleft ==> usr[k] == src.stream[old(handed) + k]
        invariant forall k :: n - nleft <= k < usr.Length ==> usr[k] == old(usr[k])
        invariant ErrorFree(old(src.script)) ==> ErrorFree(src.script)
        invariant src.errors == old(src.errors)
      {
        var at := n - nleft;
        var nread := Read(usr, at, nleft);
        if nread < 0 {
          return -1;
        } else if nread == 0 {
          break;
        }
        nleft := nleft - nread;
      }
      ret := n - nleft;
    }

    /** rio_read for a single byte, stored at usr[at] when there is one. */
    method ReadByte(usr: array<byte>, at: nat) returns (rc: int, c: byte)
      requires Valid() && usr != buf && at < usr.Length
      modifies this, src, buf, usr
      ensures Valid() && -1 <= rc <= 1 && handed == old(handed) + if rc == 1 then 1 else 0
      ensures rc >= 0 ==> (rc == 0 <==> handed == old(handed) == |src.stream|)
      ensures rc == 1 ==> c == usr[at] == src.stream[old(handed)]
      ensures forall k :: 0 <= k < usr.Length && (k != at || rc != 1) ==> usr[k] == old(usr[k])
      ensures ErrorFree(old(src.script)) ==> rc >= 0 && ErrorFree(src.script)
      ensures src.errors == old(src.errors) + if rc < 0 then 1 else 0
    {
      var cell := new byte[1];
      rc := Read(cell, 0, 1);
      c := cell[0];
      if rc == 1 {
        usr[at] := c;
      }
    }

    /** The loop of rio_readlineb: n - 1 bytes stored, rc the last result of rio_read. */
    method FillLine(usr: array<byte>, maxlen: nat) returns (n: nat, rc: int)
      requires Valid() && usr != buf && 1 <= maxlen <= usr.Length && maxlen <= INT_MAX
      modifies this, src, buf, usr
      ensures Valid() && 1 <= n <= maxlen && handed == old(handed) + (n - 1)
      ensures rc >= 0 ==> n - 1 == LineLength(old(Left()), maxlen - 1)
      ensures rc == 0 ==> handed == |src.stream| && maxlen > 1
      ensures n == 1 < maxlen && rc >= 0 ==> rc == 0
      ensures forall k :: 0 <= k < n - 1 ==> usr[k] == src.stream[old(handed) + k]
      ensures forall k :: n - 1 <= k < usr.Length ==> usr[k] == old(usr[k])
      ensures ErrorFree(old(src.script)) ==> rc >= 0 && ErrorFree(src.script)
      ensures src.errors == old(src.errors) + if rc < 0 then 1 else 0
    {
      n, rc := 1, 1;
      var newline := false;
      while n < maxlen && !newline && rc == 1
        invariant 1 <= n <= maxlen && Valid() && -1 <= rc <= 1
        invariant handed == old(handed) + (n - 1)
        invariant newline ==> n > 1 && rc == 1 && src.stream[handed - 1] == NEWLINE
        invariant forall k :: old(handed) <= k < handed && src.stream[k] == NEWLINE ==> newline && k == handed - 1
        invariant rc == 0 ==> handed == |src.stream| && maxlen > 1
        invariant forall k :: 0 <= k < n - 1 ==> usr[k] == src.stream[old(handed) + k]
        invariant forall k :: n - 1 <= k < usr.Length ==> usr[k] == old(usr[k])
        invariant ErrorFree(old(src.script)) ==> rc >= 0 && ErrorFree(src.script)
        invariant src.errors == old(src.errors) + if rc < 0 then 1 else 0
        decreases maxlen - n, rc
      {
        var c;
        rc, c := ReadByte(usr, n - 1);
        if rc == 1 {
          newline := c == NEWLINE;
          n := n + 1;
        }
      }
      if rc >= 0 {
        LineReached(src.stream, old(handed), handed, maxlen - 1);
      }
    }

    /** rio_readlineb: the next line, cut at maxlen - 1 bytes, with a NUL after it.  At the end of the
        stream it returns 0 and leaves the caller's buffer alone. */
    method ReadLineB(usr: array<byte>, maxlen: nat) returns (ret: int)
      requires Valid() && usr != buf && 1 <= maxlen <= usr.Length && maxlen <= INT_MAX
      modifies this, src, buf, usr
      ensures Valid() && -1 <= ret < maxlen
      ensures ret >= 0 ==> ret == LineLength(old(Left()), maxlen - 1) && handed == old(handed) + ret
      ensures ret >= 0 ==> usr[..ret] == old(Left())[..ret]
      ensures ret >= 0 ==> usr[ret] == if maxlen > 1 && old(Left()) == [] then old(usr[0]) else 0
      ensures ret >= 0 ==> usr[ret + 1..] == old(usr[ret + 1..])
      ensures ret < 0 ==> old(handed) <= handed
      ensures ErrorFree(old(src.script)) ==> ret >= 0 && ErrorFree(src.script)
      ensures src.errors == old(src.errors) + if ret < 0 then 1 else 0
    {
      var n, rc := FillLine(usr, maxlen);
      if rc < 0 {
        return -1;
      }
      if rc == 0 && n == 1 {
        return 0;
      }
      usr[n - 1] := 0;
      ret := n - 1;
    }

    method Perform(call: Call) returns (ok: bool, result: seq<byte>)
      requires Valid()
      modifies this, src, buf
      ensures Valid()
      ensures ok ==> result == ResultOf(old(Left()), call) && handed == old(handed) + |result|
      ensures ErrorFree(old(src.script)) ==> ok && ErrorFree(src.script)
      ensures src.errors == old(src.errors) + if ok then 0 else 1
    {
      var usr := new byte[call.size];
      var ret;
      match call {
        case Bytes(n) => ret := ReadNB(usr, n);
        case Line(maxlen) => ret := ReadLineB(usr, maxlen);
      }
      if ret < 0 {
        return false, [];
      }
      ok, result := true, usr[..ret];
    }

    /** Any mix of calls, one after the other. */
    method PerformEach(calls: seq<Call>) returns (ok: bool, results: seq<seq<byte>>)
      requires Valid()
      modifies this, src, buf
      ensures Valid()
      ensures ok ==> results == ResultsOf(old(Left()), calls) && handed == old(handed) + |Flatten(results)|
      ensures ErrorFree(old(src.script)) ==> ok
      ensures src.errors == old(src.errors) + if ok then 0 else 1
      decreases |calls|
    {
      if calls == [] {
        return true, [];
      }
      ghost var left := Left();
      var result;
      ok, result := Perform(calls[0]);
      if !ok {
        return false, [];
      }
      assert Left() == left[|result|..];
      var rest;
      ok, rest := PerformEach(calls[1..]);
      FlattenCons(result, rest);
      results := [result] + rest;
    }

    /** Any mix of calls: unless one fails, they deliver what ResultsOf says, whatever the pieces the
        descriptor handed out, and what was delivered followed by what is still unread in the buffer is
        what was consumed from the descriptor. */
    method PerformAll(calls: seq<Call>) returns (ok: bool, results: seq<seq<byte>>)
      requires Valid()
      modifies this, src, buf
      ensures Valid()
      ensures ok ==> results == ResultsOf(old(Left()), calls)
      ensures ok ==> handed == old(handed) + |Flatten(results)|
      ensures ok ==> src.stream[old(handed)..src.consumed] == Flatten(results) + Unread()
      ensures ErrorFree(old(src.script)) ==> ok
      ensures src.errors == old(src.errors) + if ok then 0 else 1
    {
      ok, results := PerformEach(calls);
      ResultsArePrefix(old(Left()), calls);
      if ok {
        Conserved(src.stream, old(handed), handed, src.consumed, Flatten(results));
      }
    }
  }

  /** On error-free schedules, however different, rio_readn and rio_readnb on a fresh buffer read the
      same bytes: the first n of the stream, or all of it. */
  method ReadBothWays(stream: seq<byte>, n: nat, script: seq<ReadEvent>, script': seq<ReadEvent>)
    returns (unbuffered: Option<seq<byte>>, buffered: Option<seq<byte>>)
    ensures unbuffered.Some? ==> unbuffered.value == stream[..Min(n, |stream|)]
    ensures buffered.Some? ==> buffered.value == stream[..Min(n, |stream|)]
    ensures ErrorFree(script) ==> unbuffered.Some?
    ensures ErrorFree(script') ==> buffered.Some?
  {
    var usr := new byte[n];
    var src := new Source(stream, script);
    var ret := ReadN(src, usr, n);
    unbuffered := if ret < 0 then None else Some(usr[..ret]);
    src := new Source(stream, script');
    var rio := new Rio(src);
    assert rio.Left() == stream;
    ret := rio.ReadNB(usr, n);
    buffered := if ret < 0 then None else Some(usr[..ret]);
  }

  // ---------------------------------------------------------------- what the calls deliver

  /** How long the next line of s is when cap bytes fit: up to and including the first newline. */
  function LineLength(s: seq<byte>, cap: nat): (k: nat)
    ensures k <= cap && k <= |s|
  {
    if cap == 0 || s == [] then 0
    else if s[0] == NEWLINE then 1
    else 1 + LineLength(s[1..], cap - 1)
  }

  /** LineLength is the one length that holds no newline before its last byte and stops only at a
      newline, at the cap or at the end. */
  lemma {:induction false} LineLengthIsTheLine(s: seq<byte>, cap: nat, k: nat)
    requires k <= cap && k <= |s|
    ensures k == LineLength(s, cap) <==>
            && (forall i :: 0 <= i < k - 1 ==> s[i] != NEWLINE)
            && (k == cap || k == |s| || (k > 0 && s[k - 1] == NEWLINE))
  {
    if cap == 0 || s == [] || s[0] == NEWLINE || k == 0 {
    } else {
      LineLengthIsTheLine(s[1..], cap - 1, k - 1);
      assert forall i :: 0 <= i < k - 1 ==> s[i + 1] == s[1..][i];
      assert (forall i :: 0 <= i < k - 1 ==> s[i] != NEWLINE)
        <==> (forall i :: 0 <= i < k - 2 ==> s[1..][i] != NEWLINE) by {
        if forall i :: 0 <= i < k - 2 ==> s[1..][i] != NEWLINE {
          forall i | 0 <= i < k - 1 ensures s[i] != NEWLINE {
            if i > 0 { assert s[i] == s[1..][i - 1]; }
          }
        }
      }
    }
  }

  lemma LineReached(stream: seq<byte>, start: nat, end: nat, cap: nat)
    requires start <= end <= |stream| && end - start <= cap
    requires forall k :: start <= k < end - 1 ==> stream[k] != NEWLINE
    requires end - start == cap || end == |stream| || (end > start && stream[end - 1] == NEWLINE)
    ensures end - start == LineLength(stream[start..], cap)
  {
    LineLengthIsTheLine(stream[start..], cap, end - start);
  }

  datatype RawCall = Bytes(size: nat) | Line(size: nat)
  type Call = c: RawCall | c.Line? ==> 1 <= c.size <= INT_MAX witness Bytes(0)

  function ResultOf(s: seq<byte>, call: Call): (r: seq<byte>)
    ensures r <= s
  {
    match call
    case Bytes(n) => s[..Min(n, |s|)]
    case Line(maxlen) => s[..LineLength(s, maxlen - 1)]
  }

  function ResultsOf(s: seq<byte>, calls: seq<Call>): seq<seq<byte>>
    decreases |calls|
  {
    if calls == [] then [] else
      var r := ResultOf(s, calls[0]);
      [r] + ResultsOf(s[|r|..], calls[1..])
  }

  lemma Conserved(stream: seq<byte>, start: nat, mid: nat, end: nat, delivered: seq<byte>)
    requires start <= mid <= end <= |stream| && mid == start + |delivered| && delivered <= stream[start..]
    ensures stream[start..end] == delivered + stream[mid..end]
  {
    assert delivered == stream[start..][..|delivered|] == stream[start..mid];
  }

  /** No byte is lost, repeated or reordered: the results laid end to end are a prefix of the stream. */
  lemma {:induction false} ResultsArePrefix(s: seq<byte>, calls: seq<Call>)
    ensures Flatten(ResultsOf(s, calls)) <= s
    decreases |calls|
  {
    if calls == [] {
    } else {
      var r := ResultOf(s, calls[0]);
      var rest := ResultsOf(s[|r|..], calls[1..]);
      ResultsArePrefix(s[|r|..], calls[1..]);
      FlattenCons(r, rest);
      assert s == r + s[|r|..];
    }
  }
}
