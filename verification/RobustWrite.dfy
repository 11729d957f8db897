/** rio_writen: write a whole buffer although the kernel takes it piecemeal. */
module RobustWrite {
  import opened Bytes

  /** What one write(2) call does: it takes some bytes, or it takes none and errno says whether
      a signal was the reason.  A script lists the calls that are not plain full writes; once it
      is used up the kernel takes whatever it is given. */
  datatype WriteResult = Took(count: pos) | Refused(interrupted: bool)

  /** How many bytes of an n-byte request end up in the descriptor. */
  function Accepted(n: nat, script: seq<WriteResult>): (taken: nat)
    ensures taken <= n
    decreases |script|
  {
    if n == 0 then 0
    else if script == [] then n
    else match script[0]
      case Took(k) => var m: nat := Min(k, n); m + Accepted(n - m, script[1..])
      case Refused(interrupted) => if interrupted then Accepted(n, script[1..]) else 0
  }

  /** What the calls of a script take together if they are asked for enough. */
  function TookSum(script: seq<WriteResult>): nat {
    if script == [] then 0
    else TookSum(script[1..]) + if script[0].Took? then script[0].count else 0
  }

  /** The first call that fails for another reason than a signal. */
  ghost predicate FirstFailure(script: seq<WriteResult>, k: int) {
    0 <= k < |script| && script[k] == Refused(false) && Refused(false) !in script[..k]
  }

  /** Short counts and signals never lose anything: without a failure the whole request goes out. */
  lemma {:induction false} AcceptedWhole(n: nat, script: seq<WriteResult>)
    requires Refused(false) !in script
    ensures Accepted(n, script) == n
    decreases |script|
  {
    if n == 0 || script == [] {
    } else {
      assert script[0] in script;
      AcceptedWhole(n - if script[0].Took? then Min(script[0].count, n) else 0, script[1..]);
    }
  }

  /** With a failure, what the calls before it took goes out. */
  lemma {:induction false} AcceptedUntil(n: nat, script: seq<WriteResult>, k: nat)
    requires FirstFailure(script, k)
    ensures Accepted(n, script) == Min(n, TookSum(script[..k]))
    decreases |script|
  {
    if n == 0 {
    } else if k == 0 {
      assert script[..0] == [];
    } else {
      assert script[0] == script[..k][0] && script[0] in script[..k];
      assert script[1..][..k - 1] == script[..k][1..];
      AcceptedUntil(n - if script[0].Took? then Min(script[0].count, n) else 0, script[1..], k - 1);
    }
  }

  /** log is what the descriptor has taken before the call, log' what it has taken after it. */
  method Writen(log: seq<byte>, buf: seq<byte>, script: seq<WriteResult>) returns (ret: int, log': seq<byte>)
    ensures log' == log + buf[..Accepted(|buf|, script)]
    ensures ret == if Accepted(|buf|, script) == |buf| then |buf| else -1
    ensures ret == |buf| <==> log' == log + buf
    ensures Refused(false) !in script ==> ret == |buf|
    ensures forall k :: FirstFailure(script, k) ==> log' == log + buf[..Min(|buf|, TookSum(script[..k]))]
  {
    forall k | FirstFailure(script, k) ensures Accepted(|buf|, script) == Min(|buf|, TookSum(script[..k])) {
      AcceptedUntil(|buf|, script, k);
    }
    if Refused(false) !in script {
      AcceptedWhole(|buf|, script);
    }
    log' := log;
    var nleft := |buf|;
    var rest := script;
    while nleft > 0
      invariant 0 <= nleft <= |buf|
      invariant log' == log + buf[..|buf| - nleft]
      invariant Accepted(|buf|, script) == |buf| - nleft + Accepted(nleft, rest)
      decreases |rest|, nleft
    {
      var nwritten := nleft;
      if rest != [] {
        match rest[0]
        case Took(k) =>
          nwritten := Min(k, nleft);
        case Refused(interrupted) =>
          if interrupted {
            nwritten := 0;
          } else {
            ret := -1;
            assert |log'| < |log + buf|;
            return;
          }
      }
      rest := if rest == [] then rest else rest[1..];
      var at := |buf| - nleft;
      assert buf[..at] + buf[at..at + nwritten] == buf[..at + nwritten];
      log' := log' + buf[at..at + nwritten];
      nleft := nleft - nwritten;
    }
    ret := |buf|;
  }
}
