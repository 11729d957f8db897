/** mount_container and umount_container over an arbitrary mount table and one stack of mounts. */
module Mounts {

  /** A table entry; an overlay is mounted only if its target exists on the host, others always. */
  datatype Entry = Entry(target: string, overlay: bool)

  predicate Present(e: Entry, host: set<string>) {
    e.target in host
  }

  predicate Mounted(e: Entry, host: set<string>) {
    !e.overlay || Present(e, host)
  }

  // ---------------------------------------------------------------- the stack of mounts

  /** umount2: takes off the latest mount on t; fails, changing nothing, when there is none. */
  function Umount(stack: seq<string>, t: string): seq<string> {
    if stack == [] then []
    else if stack[|stack| - 1] == t then stack[..|stack| - 1]
    else Umount(stack[..|stack| - 1], t) + [stack[|stack| - 1]]
  }

  function UmountAll(stack: seq<string>, ts: seq<string>): seq<string>
    decreases |ts|
  {
    if ts == [] then stack else UmountAll(Umount(stack, ts[0]), ts[1..])
  }

  /** Every unmount in turn finds its target on top. */
  ghost predicate LastInFirstOut(stack: seq<string>, ts: seq<string>) {
    ts == [] || (stack != [] && stack[|stack| - 1] == ts[0] && LastInFirstOut(stack[..|stack| - 1], ts[1..]))
  }

  function Reverse(ts: seq<string>): seq<string> {
    if ts == [] then [] else Reverse(ts[1..]) + [ts[0]]
  }

  // ---------------------------------------------------------------- what the two loops do

  function MountedTargets(table: seq<Entry>, host: set<string>): seq<string> {
    if table == [] then [] else
      MountedTargets(table[..|table| - 1], host)
      + if Mounted(table[|table| - 1], host) then [table[|table| - 1].target] else []
  }

  /** The targets mounted, in order: the first entry comes twice. */
  function MountOps(table: seq<Entry>, host: set<string>): seq<string>
    requires table != []
  {
    (if Mounted(table[0], host) then [table[0].target] else []) + MountedTargets(table, host)
  }

  function PresentTargets(table: seq<Entry>, host: set<string>): (r: seq<string>)
    ensures r != [] <==> exists i :: 0 <= i < |table| && Present(table[i], host)
  {
    if table == [] then [] else
      (if Present(table[0], host) then [table[0].target] else []) + PresentTargets(table[1..], host)
  }

  /** The targets unmounted, in order: those present, backwards, and the last of them once more.  When
      none is present the last call gets what the buffer happens to hold. */
  function UmountOps(table: seq<Entry>, host: set<string>, junk: string): seq<string> {
    var ts := PresentTargets(table, host);
    Reverse(ts) + [if ts == [] then junk else ts[0]]
  }

  class MountPoint {
    var stack: seq<string>

    /** mount_container, all mounts succeeding: the pointer lags one entry behind the index. */
    method MountContainer(table: seq<Entry>, host: set<string>)
      requires table != []
      modifies this
      ensures stack == old(stack) + MountOps(table, host)
    {
      var i, current := 0, 0;
      while current < |table|
        invariant 0 <= current <= |table| && (current == i - 1 || i == current == 0)
        invariant stack == old(stack) + (if i == 0 then []
                    else (if Mounted(table[0], host) then [table[0].target] else []) + MountedTargets(table[..current], host))
        decreases |table| - i
      {
        var entry := table[current];
        assert i > 0 ==> table[..current + 1][..current] == table[..current];
        if entry.overlay {
          if entry.target in host {
            stack := stack + [entry.target];
          }
        } else {
          stack := stack + [entry.target];
        }
        current := i;
        i := i + 1;
      }
      assert table[..|table|] == table;
    }

    /** umount_container: backwards over the entries that are present, then the last one again. */
    method UmountContainer(table: seq<Entry>, host: set<string>, junk: string)
      modifies this
      ensures stack == UmountAll(old(stack), UmountOps(table, host, junk))
    {
      var i := 0;
      while i < |table|
        invariant 0 <= i <= |table|
      {
        i := i + 1;
      }
      var line := junk;
      ghost var ops: seq<string> := [];
      assert table[|table|..] == [];
      while i > 0
        invariant 0 <= i <= |table|
        invariant ops == Reverse(PresentTargets(table[i..], host))
        invariant stack == UmountAll(old(stack), ops)
        invariant var ts := PresentTargets(table[i..], host); line == if ts == [] then junk else ts[0]
      {
        i := i - 1;
        PresentStep(table, i, host);
        if table[i].target in host {
          line := table[i].target;
          UmountAllSnoc(old(stack), ops, line);
          stack := Umount(stack, line);
          ops := ops + [line];
        }
      }
      assert table[0..] == table;
      UmountAllSnoc(old(stack), ops, line);
      stack := Umount(stack, line);
    }
  }

  lemma PresentStep(table: seq<Entry>, i: nat, host: set<string>)
    requires i < |table|
    ensures var rest := PresentTargets(table[i + 1..], host);
            if table[i].target in host
            then PresentTargets(table[i..], host) == [table[i].target] + rest
                 && Reverse(PresentTargets(table[i..], host)) == Reverse(rest) + [table[i].target]
            else PresentTargets(table[i..], host) == rest
  {
    var rest := PresentTargets(table[i + 1..], host);
    assert table[i..][1..] == table[i + 1..];
    assert ([table[i].target] + rest)[1..] == rest;
  }

  lemma {:induction false} UmountAllSnoc(stack: seq<string>, ts: seq<string>, t: string)
    ensures UmountAll(stack, ts + [t]) == Umount(UmountAll(stack, ts), t)
    decreases |ts|
  {
    if ts == [] {
      assert (ts + [t])[1..] == [];
    } else {
      UmountAllSnoc(Umount(stack, ts[0]), ts[1..], t);
      assert (ts + [t])[1..] == ts[1..] + [t];
    }
  }

  // ---------------------------------------------------------------- balance

  lemma {:induction false} ReverseSnoc(ts: seq<string>, t: string)
    ensures Reverse(ts + [t]) == [t] + Reverse(ts)
  {
    if ts == [] {
      assert ts + [t] == [t] && [t][1..] == [];
    } else {
      ReverseSnoc(ts[1..], t);
      assert (ts + [t])[1..] == ts[1..] + [t];
    }
  }

  /** Unmounting in exactly the reverse order is last in, first out and restores the stack. */
  lemma {:induction false} ReverseRestores(stack: seq<string>, ts: seq<string>)
    ensures UmountAll(stack + ts, Reverse(ts)) == stack && LastInFirstOut(stack + ts, Reverse(ts))
    decreases |ts|
  {
    if ts == [] {
      assert stack + ts == stack;
    } else {
      var init, last := ts[..|ts| - 1], ts[|ts| - 1];
      ReverseSnoc(init, last);
      assert ts == init + [last];
      assert (stack + ts)[..|stack + ts| - 1] == stack + init;
      ReverseRestores(stack, init);
      assert ([last] + Reverse(init))[1..] == Reverse(init);
    }
  }

  /** Every entry that is mounted without looking is present, and so is the first entry. */
  ghost predicate Complete(table: seq<Entry>, host: set<string>)
    requires table != []
  {
    Present(table[0], host) && forall i :: 0 <= i < |table| && !table[i].overlay ==> Present(table[i], host)
  }

  lemma {:induction false} PresentSnoc(table: seq<Entry>, e: Entry, host: set<string>)
    ensures PresentTargets(table + [e], host)
            == PresentTargets(table, host) + if Present(e, host) then [e.target] else []
  {
    if table == [] {
      assert (table + [e])[1..] == [];
    } else {
      PresentSnoc(table[1..], e, host);
      assert (table + [e])[1..] == table[1..] + [e];
    }
  }

  function Targets(table: seq<Entry>): (ts: seq<string>)
    ensures |ts| == |table| && forall i :: 0 <= i < |table| ==> ts[i] == table[i].target
  {
    seq(|table|, i requires 0 <= i < |table| => table[i].target)
  }

  lemma {:induction false} AllPresent(table: seq<Entry>, host: set<string>)
    requires forall i :: 0 <= i < |table| ==> table[i].target in host
    ensures PresentTargets(table, host) == Targets(table) && MountedTargets(table, host) == Targets(table)
  {
    if table == [] {
    } else {
      var init, last := table[..|table| - 1], table[|table| - 1];
      AllPresent(init, host);
      PresentSnoc(init, last, host);
      assert table == init + [last];
      assert Targets(table) == Targets(init) + [last.target];
    }
  }

  /** When all targets exist, t0, t0, t1, ..., tk are mounted and tk, ..., t1, t0, t0 unmounted. */
  lemma FullTable(table: seq<Entry>, host: set<string>, junk: string)
    requires table != [] && forall i :: 0 <= i < |table| ==> table[i].target in host
    ensures MountOps(table, host) == [table[0].target] + Targets(table)
    ensures UmountOps(table, host, junk) == Reverse(Targets(table)) + [table[0].target]
  {
    AllPresent(table, host);
  }

  lemma {:induction false} ReverseAt(ts: seq<string>, i: nat)
    requires i < |ts|
    ensures |Reverse(ts)| == |ts| && Reverse(ts)[i] == ts[|ts| - 1 - i]
  {
    if |ts| == 1 {
    } else {
      ReverseAt(ts[1..], if i < |ts| - 1 then i else 0);
    }
  }

  /** Otherwise each entry is decided by itself: an entry mounts its target if it is no overlay or the
      target exists, and unmounts it if the target exists. */
  lemma {:induction false} EntryByEntry(table: seq<Entry>, e: Entry, host: set<string>)
    ensures MountedTargets(table + [e], host)
            == MountedTargets(table, host) + if !e.overlay || e.target in host then [e.target] else []
    ensures PresentTargets(table + [e], host)
            == PresentTargets(table, host) + if e.target in host then [e.target] else []
    ensures MountedTargets([], host) == [] == PresentTargets([], host)
  {
    assert (table + [e])[..|table|] == table;
    PresentSnoc(table, e, host);
  }

  lemma {:induction false} MountedIsPresent(table: seq<Entry>, host: set<string>)
    requires forall i :: 0 <= i < |table| && !table[i].overlay ==> Present(table[i], host)
    ensures MountedTargets(table, host) == PresentTargets(table, host)
  {
    if table == [] {
    } else {
      var init, last := table[..|table| - 1], table[|table| - 1];
      MountedIsPresent(init, host);
      PresentSnoc(init, last, host);
      assert table == init + [last];
    }
  }

  /** With a complete table the unmounts are exactly the mounts in reverse, so nested targets come off
      before their parents and the earlier mounts are back. */
  lemma CompleteIsBalanced(stack: seq<string>, table: seq<Entry>, host: set<string>, junk: string)
    requires table != [] && Complete(table, host)
    ensures UmountOps(table, host, junk) == Reverse(MountOps(table, host))
    ensures UmountAll(stack + MountOps(table, host), UmountOps(table, host, junk)) == stack
    ensures LastInFirstOut(stack + MountOps(table, host), UmountOps(table, host, junk))
  {
    var ts := PresentTargets(table, host);
    MountedIsPresent(table, host);
    assert ts[0] == table[0].target;
    assert ([ts[0]] + ts)[1..] == ts;
    ReverseRestores(stack, MountOps(table, host));
  }

  lemma {:induction false} UmountKeeps(stack: seq<string>, ts: seq<string>, t: string)
    requires t !in ts && t in stack
    ensures t in UmountAll(stack, ts)
    decreases |ts|
  {
    if ts == [] {
    } else {
      UmountKeepsOne(stack, ts[0], t);
      UmountKeeps(Umount(stack, ts[0]), ts[1..], t);
    }
  }

  lemma {:induction false} UmountKeepsOne(stack: seq<string>, u: string, t: string)
    requires t != u && t in stack
    ensures t in Umount(stack, u)
  {
    var init, last := stack[..|stack| - 1], stack[|stack| - 1];
    assert stack == init + [last];
    if last == u || last == t {
    } else {
      UmountKeepsOne(init, u, t);
    }
  }

  lemma {:induction false} MountedContains(table: seq<Entry>, host: set<string>, i: nat)
    requires i < |table| && Mounted(table[i], host)
    ensures table[i].target in MountedTargets(table, host)
  {
    if i == |table| - 1 {
    } else {
      MountedContains(table[..|table| - 1], host, i);
    }
  }

  lemma {:induction false} ReverseMembers(ts: seq<string>, t: string)
    ensures t in Reverse(ts) <==> t in ts
  {
    if ts == [] {
    } else {
      ReverseMembers(ts[1..], t);
      assert ts == [ts[0]] + ts[1..];
    }
  }

  lemma {:induction false} PresentMembers(table: seq<Entry>, host: set<string>, t: string)
    requires t in PresentTargets(table, host)
    ensures t in host
  {
    if table == [] || (Present(table[0], host) && t == table[0].target) {
    } else {
      PresentMembers(table[1..], host, t);
    }
  }

  /** A mount that nothing unmounts: an entry mounted without looking, whose target does not exist. */
  lemma LeftMounted(table: seq<Entry>, host: set<string>, i: nat)
    requires i < |table| && !table[i].overlay && !Present(table[i], host)
    ensures UmountAll(MountOps(table, host), UmountOps(table, host, table[i].target + "/")) != []
  {
    var t, ts := table[i].target, PresentTargets(table, host);
    MountedContains(table, host, i);
    ReverseMembers(ts, t);
    if t in ts {
      PresentMembers(table, host, t);
    }
    UmountKeeps(MountOps(table, host), UmountOps(table, host, t + "/"), t);
  }

  /** An unmount too many: the first entry is absent, so it was not mounted twice. */
  lemma OverUnmounted(table: seq<Entry>, host: set<string>, junk: string)
    requires table != [] && !Present(table[0], host)
    requires forall i :: 0 <= i < |table| && !table[i].overlay ==> Present(table[i], host)
    ensures var ts := PresentTargets(table, host);
            var stack := [if ts == [] then junk else ts[0]];
            UmountAll(stack + MountOps(table, host), UmountOps(table, host, junk)) != stack
  {
    var ts := PresentTargets(table, host);
    var last := if ts == [] then junk else ts[0];
    MountedIsPresent(table, host);
    assert MountOps(table, host) == ts;
    ReverseRestores([last], ts);
    UmountAllSnoc([last] + ts, Reverse(ts), last);
  }

  /** A stack and a buffer that show it, when the table is incomplete. */
  lemma IncompleteIsUnbalanced(table: seq<Entry>, host: set<string>) returns (stack: seq<string>, junk: string)
    requires table != [] && !Complete(table, host)
    ensures UmountAll(stack + MountOps(table, host), UmountOps(table, host, junk)) != stack
  {
    if i :| 0 <= i < |table| && !table[i].overlay && !Present(table[i], host) {
      stack, junk := [], table[i].target + "/";
      LeftMounted(table, host, i);
      assert [] + MountOps(table, host) == MountOps(table, host);
    } else {
      junk := "";
      var ts := PresentTargets(table, host);
      stack := [if ts == [] then junk else ts[0]];
      OverUnmounted(table, host, junk);
    }
  }

  /** Mounting and unmounting restores every earlier stack, whatever the buffer held, exactly when the
      table is complete. */
  lemma BalancedIffComplete(table: seq<Entry>, host: set<string>)
    requires table != []
    ensures (forall stack, junk :: UmountAll(stack + MountOps(table, host), UmountOps(table, host, junk)) == stack)
            <==> Complete(table, host)
  {
    if Complete(table, host) {
      forall stack, junk ensures UmountAll(stack + MountOps(table, host), UmountOps(table, host, junk)) == stack {
        CompleteIsBalanced(stack, table, host, junk);
      }
    } else {
      var stack, junk := IncompleteIsUnbalanced(table, host);
    }
  }
}
