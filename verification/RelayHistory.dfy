/** What clients and the master have been sent after any run of the relay loop. */
module RelayHistory {
  import opened Bytes
  import opened RobustWrite
  import opened Relay

  // ---------------------------------------------------------------- output: master to clients

  /** All master bytes from a session's joining pass onward. */
  function Since(w: World, k: nat): seq<byte>
    requires k < |w.sessions| && w.sessions[k].joined <= |w.output|
  {
    Flatten(w.output[w.sessions[k].joined..])
  }

  function Due(cfg: Config, w: World, k: nat): seq<byte>
    requires k < |w.sessions| && w.sessions[k].joined <= |w.output| && w.sessions[k].greeted <= |cfg.header|
  {
    cfg.header[..w.sessions[k].greeted] + Since(w, k)
  }

  ghost predicate SessionInRange(cfg: Config, w: World, k: nat)
    requires k < |w.sessions|
  {
    w.sessions[k].joined <= |w.output| && w.sessions[k].greeted <= |cfg.header|
  }

  /** Every session was sent a prefix of what is due to it, and every session still in the pool was
      sent exactly that. */
  ghost predicate Delivered(cfg: Config, s: State) {
    && (forall k :: 0 <= k < |s.os.sessions| ==>
          SessionInRange(cfg, s.os, k) && s.os.sessions[k].sent <= Due(cfg, s.os, k))
    && (forall fd :: fd in s.os.conn && s.os.conn[fd] < |s.os.sessions| ==>
          s.os.sessions[s.os.conn[fd]].sent == Due(cfg, s.os, s.os.conn[fd]))
  }

  /** Session k is not carried by any slot from i on. */
  ghost predicate NotFrom(s: State, i: nat, k: nat) {
    forall j :: i <= j < |s.clients| && s.clients[j] in s.os.conn ==> s.os.conn[s.clients[j]] != k
  }

  lemma DeliverFrame(cfg: Config, s: State, i: nat, bytes: Chunk, env: Env)
    requires Consistent(cfg, s) && i < |s.clients| && env.Events?
    ensures var m := Deliver(cfg, s, i, bytes, env);
            && m.over == s.over && m.os == s.os.(conn := m.os.conn, sessions := m.os.sessions)
            && |m.os.sessions| == |s.os.sessions|
            && m.os.conn.Keys <= s.os.conn.Keys && forall fd :: fd in m.os.conn ==> m.os.conn[fd] == s.os.conn[fd]
  {
  }

  lemma {:induction false} BroadcastFrame(cfg: Config, s: State, i: nat, bytes: Chunk, env: Env)
    requires Consistent(cfg, s) && i <= |s.clients| && env.Events?
    ensures var t := BroadcastFrom(cfg, s, i, bytes, env);
            && t.over == s.over && t.os == s.os.(conn := t.os.conn, sessions := t.os.sessions)
            && |t.os.sessions| == |s.os.sessions|
            && t.os.conn.Keys <= s.os.conn.Keys && forall fd :: fd in t.os.conn ==> t.os.conn[fd] == s.os.conn[fd]
    decreases |s.clients| - i
  {
    if i == |s.clients| {
    } else {
      DeliverFrame(cfg, s, i, bytes, env);
      BroadcastFrame(cfg, Deliver(cfg, s, i, bytes, env), i + 1, bytes, env);
    }
  }

  /** A slot survives a broadcast exactly when its own write succeeded. */
  lemma {:induction false} BroadcastSlot(cfg: Config, s: State, i: nat, bytes: Chunk, env: Env, j: nat)
    requires Consistent(cfg, s) && i <= |s.clients| && j < |s.clients| && env.Events?
    ensures BroadcastFrom(cfg, s, i, bytes, env).clients[j]
            == if j < i || (s.clients[j] > 0 && Accepted(|bytes|, env.clientWrite(s.clients[j])) == |bytes|)
               then s.clients[j] else -1
    decreases |s.clients| - i
  {
    if i == |s.clients| {
    } else {
      DeliverSlot(cfg, s, i, bytes, env, j);
      BroadcastSlot(cfg, Deliver(cfg, s, i, bytes, env), i + 1, bytes, env, j);
    }
  }

  lemma DeliverSlot(cfg: Config, s: State, i: nat, bytes: Chunk, env: Env, j: nat)
    requires Consistent(cfg, s) && i < |s.clients| && j < |s.clients| && env.Events?
    ensures Deliver(cfg, s, i, bytes, env).clients[j]
            == if i == j && (s.clients[j] <= 0 || Accepted(|bytes|, env.clientWrite(s.clients[j])) < |bytes|)
               then -1 else s.clients[j]
  {
    var fd := s.clients[i];
    if fd > 0 {
      var taken := Accepted(|bytes|, env.clientWrite(fd));
      assert Deliver(cfg, s, i, bytes, env).clients == if taken == |bytes| then s.clients else s.clients[i := -1];
    }
  }

  lemma DeliverSkips(cfg: Config, s: State, i: nat, bytes: Chunk, env: Env, k: nat)
    requires Consistent(cfg, s) && i < |s.clients| && env.Events? && k < |s.os.sessions| && NotFrom(s, i, k)
    ensures var m := Deliver(cfg, s, i, bytes, env);
            |m.os.sessions| == |s.os.sessions| && NotFrom(m, i + 1, k) && m.os.sessions[k] == s.os.sessions[k]
  {
    DeliverFrame(cfg, s, i, bytes, env);
  }

  lemma {:induction false} BroadcastSkips(cfg: Config, s: State, i: nat, bytes: Chunk, env: Env, k: nat)
    requires Consistent(cfg, s) && i <= |s.clients| && env.Events? && k < |s.os.sessions|
    requires NotFrom(s, i, k)
    ensures |BroadcastFrom(cfg, s, i, bytes, env).os.sessions| == |s.os.sessions|
    ensures BroadcastFrom(cfg, s, i, bytes, env).os.sessions[k] == s.os.sessions[k]
    decreases |s.clients| - i
  {
    BroadcastFrame(cfg, s, i, bytes, env);
    if i == |s.clients| {
    } else {
      var m := Deliver(cfg, s, i, bytes, env);
      DeliverFrame(cfg, s, i, bytes, env);
      DeliverSkips(cfg, s, i, bytes, env, k);
      BroadcastSkips(cfg, m, i + 1, bytes, env, k);
    }
  }

  /** The session carried by slot j takes the bytes its own descriptor takes, once. */
  lemma {:induction false} BroadcastReaches(cfg: Config, s: State, i: nat, bytes: Chunk, env: Env, j: nat)
    requires Consistent(cfg, s) && i <= j < |s.clients| && env.Events? && s.clients[j] > 0
    ensures var k := s.os.conn[s.clients[j]];
            k < |s.os.sessions| == |BroadcastFrom(cfg, s, i, bytes, env).os.sessions|
    ensures var k := s.os.conn[s.clients[j]];
            BroadcastFrom(cfg, s, i, bytes, env).os.sessions[k]
            == s.os.sessions[k].(sent := s.os.sessions[k].sent + bytes[..Accepted(|bytes|, env.clientWrite(s.clients[j]))])
    decreases |s.clients| - i
  {
    BroadcastFrame(cfg, s, i, bytes, env);
    var m := Deliver(cfg, s, i, bytes, env);
    if i == j {
      DeliverReaches(cfg, s, i, bytes, env);
      BroadcastSkips(cfg, m, i + 1, bytes, env, s.os.conn[s.clients[j]]);
    } else {
      DeliverPasses(cfg, s, i, bytes, env, j);
      BroadcastReaches(cfg, m, i + 1, bytes, env, j);
    }
  }

  lemma DeliverReaches(cfg: Config, s: State, i: nat, bytes: Chunk, env: Env)
    requires Consistent(cfg, s) && i < |s.clients| && env.Events? && s.clients[i] > 0
    ensures var k := s.os.conn[s.clients[i]];
            var m := Deliver(cfg, s, i, bytes, env);
            && k < |s.os.sessions| == |m.os.sessions| && NotFrom(m, i + 1, k)
            && m.os.sessions[k]
               == s.os.sessions[k].(sent := s.os.sessions[k].sent + bytes[..Accepted(|bytes|, env.clientWrite(s.clients[i]))])
  {
  }

  lemma DeliverPasses(cfg: Config, s: State, i: nat, bytes: Chunk, env: Env, j: nat)
    requires Consistent(cfg, s) && i < j < |s.clients| && env.Events? && s.clients[j] > 0
    ensures var fd := s.clients[j];
            var m := Deliver(cfg, s, i, bytes, env);
            && m.clients[j] == fd && fd in m.os.conn && m.os.conn[fd] == s.os.conn[fd] < |s.os.sessions| == |m.os.sessions|
            && m.os.sessions[m.os.conn[fd]] == s.os.sessions[m.os.conn[fd]]
  {
  }

  lemma DueGrows(cfg: Config, w: World, w': World, bytes: Chunk, k: nat)
    requires k < |w.sessions| && SessionInRange(cfg, w, k)
    requires w'.output == w.output + [bytes]
    requires k < |w'.sessions| && w'.sessions[k] == w.sessions[k].(sent := w'.sessions[k].sent)
    ensures Due(cfg, w', k) == Due(cfg, w, k) + bytes
  {
    var from := w.sessions[k].joined;
    assert w'.output[from..] == w.output[from..] + [bytes];
    FlattenSnoc(w.output[from..], bytes);
  }

  lemma SlotOf(cfg: Config, s: State, fd: int) returns (j: nat)
    requires Consistent(cfg, s) && fd in s.os.conn
    ensures j < |s.clients| && s.clients[j] == fd && fd > 0
  {
    j :| 0 <= j < |s.clients| && s.clients[j] == fd;
  }

  lemma BroadcastSession(cfg: Config, s: State, bytes: Chunk, env: Env, k: nat) returns (n: nat)
    requires Consistent(cfg, s) && env.Events? && k < |s.os.sessions|
    ensures n <= |bytes| && (n == 0 || exists fd :: fd in s.os.conn && s.os.conn[fd] == k)
    ensures var t := BroadcastFrom(cfg, s, 0, bytes, env);
            && |t.os.sessions| == |s.os.sessions|
            && t.os.sessions[k] == s.os.sessions[k].(sent := s.os.sessions[k].sent + bytes[..n])
  {
    if fd :| fd in s.os.conn && s.os.conn[fd] == k {
      var j := SlotOf(cfg, s, fd);
      BroadcastReaches(cfg, s, 0, bytes, env, j);
      n := Accepted(|bytes|, env.clientWrite(fd));
    } else {
      BroadcastSkips(cfg, s, 0, bytes, env, k);
      n := 0;
      assert s.os.sessions[k].sent + bytes[..0] == s.os.sessions[k].sent;
    }
  }

  /** s with one more chunk read from the master. */
  function Heard(s: State, bytes: Chunk): State {
    s.(os := s.os.(output := s.os.output + [bytes]))
  }

  lemma BroadcastDue(cfg: Config, s: State, bytes: Chunk, env: Env, k: nat)
    requires Consistent(cfg, s) && env.Events? && Delivered(cfg, s) && k < |s.os.sessions|
    ensures var t := BroadcastFrom(cfg, Heard(s, bytes), 0, bytes, env);
            && |t.os.sessions| == |s.os.sessions| && SessionInRange(cfg, t.os, k)
            && t.os.sessions[k].sent <= Due(cfg, t.os, k)
  {
    var t := BroadcastFrom(cfg, Heard(s, bytes), 0, bytes, env);
    BroadcastFrame(cfg, Heard(s, bytes), 0, bytes, env);
    var n := BroadcastSession(cfg, Heard(s, bytes), bytes, env, k);
    DueGrows(cfg, s.os, t.os, bytes, k);
    PrefixGrows(s.os.sessions[k].sent, Due(cfg, s.os, k), bytes, n);
  }

  lemma PrefixGrows(sent: seq<byte>, due: seq<byte>, bytes: seq<byte>, n: nat)
    requires sent <= due && n <= |bytes| && (n == 0 || sent == due)
    ensures sent + bytes[..n] <= due + bytes
  {
  }

  lemma BroadcastDueLive(cfg: Config, s: State, bytes: Chunk, env: Env, fd: int)
    requires Consistent(cfg, s) && env.Events? && Delivered(cfg, s)
    requires fd in BroadcastFrom(cfg, Heard(s, bytes), 0, bytes, env).os.conn
    ensures var t := BroadcastFrom(cfg, Heard(s, bytes), 0, bytes, env);
            && SessionInRange(cfg, t.os, t.os.conn[fd])
            && t.os.sessions[t.os.conn[fd]].sent == Due(cfg, t.os, t.os.conn[fd])
  {
    var t := BroadcastFrom(cfg, Heard(s, bytes), 0, bytes, env);
    BroadcastFrame(cfg, Heard(s, bytes), 0, bytes, env);
    var j := SlotOf(cfg, t, fd);
    BroadcastSlot(cfg, Heard(s, bytes), 0, bytes, env, j);
    BroadcastReaches(cfg, Heard(s, bytes), 0, bytes, env, j);
    DueGrows(cfg, s.os, t.os, bytes, t.os.conn[fd]);
  }

  lemma BroadcastKeepsDelivered(cfg: Config, s: State, bytes: Chunk, env: Env)
    requires Consistent(cfg, s) && env.Events? && Delivered(cfg, s)
    ensures Delivered(cfg, BroadcastFrom(cfg, Heard(s, bytes), 0, bytes, env))
  {
    var t := BroadcastFrom(cfg, Heard(s, bytes), 0, bytes, env);
    BroadcastFrame(cfg, Heard(s, bytes), 0, bytes, env);
    forall k: nat | k < |t.os.sessions|
      ensures SessionInRange(cfg, t.os, k) && t.os.sessions[k].sent <= Due(cfg, t.os, k)
    {
      BroadcastDue(cfg, s, bytes, env, k);
    }
    forall fd | fd in t.os.conn ensures t.os.sessions[t.os.conn[fd]].sent == Due(cfg, t.os, t.os.conn[fd]) {
      BroadcastDueLive(cfg, s, bytes, env, fd);
    }
  }

  lemma JoinKeepsDelivered(cfg: Config, s: State, fd: int, script: seq<WriteResult>)
    requires Consistent(cfg, s) && ClientFd(cfg, fd) && fd !in s.os.conn && Delivered(cfg, s)
    ensures Delivered(cfg, Join(cfg, s, fd, script))
  {
    var t := Join(cfg, s, fd, script);
    var k := |s.os.sessions|;
    assert t.os.output[t.os.sessions[k].joined..] == [];
    forall h: nat | h < |t.os.sessions|
      ensures SessionInRange(cfg, t.os, h)
      ensures t.os.sessions[h].sent <= Due(cfg, t.os, h)
      ensures h == k ==> t.os.sessions[h].sent == Due(cfg, t.os, h)
    {
      if h < k {
        assert t.os.sessions[h] == s.os.sessions[h] && SessionInRange(cfg, s.os, h);
        assert Due(cfg, t.os, h) == Due(cfg, s.os, h);
      }
    }
    forall gd | gd in t.os.conn ensures t.os.sessions[t.os.conn[gd]].sent == Due(cfg, t.os, t.os.conn[gd]) {
      if gd != fd {
        var h := s.os.conn[gd];
        assert t.os.sessions[h] == s.os.sessions[h] && Due(cfg, t.os, h) == Due(cfg, s.os, h);
      }
    }
  }

  lemma SameDelivered(cfg: Config, s: State, m: State)
    requires Delivered(cfg, s) && m.os.sessions == s.os.sessions && m.os.output == s.os.output
    requires forall fd :: fd in m.os.conn ==> fd in s.os.conn && m.os.conn[fd] == s.os.conn[fd]
    ensures Delivered(cfg, m)
  {
    assert forall k :: 0 <= k < |s.os.sessions| && SessionInRange(cfg, s.os, k) ==> Due(cfg, m.os, k) == Due(cfg, s.os, k);
  }

  lemma VisitOneDelivered(cfg: Config, s: State, i: nat, env: Env, ready: set<int>)
    requires Consistent(cfg, s) && i < |s.clients| && env.Events? && Delivered(cfg, s) && !s.over
    ensures Delivered(cfg, Visit(cfg, s, i, env, ready))
  {
    VisitEffect(cfg, s, i, env, ready);
    SameDelivered(cfg, s, Visit(cfg, s, i, env, ready));
  }

  lemma {:induction false} VisitKeepsDelivered(cfg: Config, s: State, i: nat, env: Env, ready: set<int>)
    requires Consistent(cfg, s) && i <= |s.clients| && env.Events? && Delivered(cfg, s)
    ensures Delivered(cfg, VisitFrom(cfg, s, i, env, ready))
    decreases |s.clients| - i
  {
    if s.over || i == |s.clients| {
    } else {
      VisitOneDelivered(cfg, s, i, env, ready);
      VisitKeepsDelivered(cfg, Visit(cfg, s, i, env, ready), i + 1, env, ready);
    }
  }

  lemma PassKeepsDelivered(cfg: Config, s: State, env: Env)
    requires Consistent(cfg, s) && EnvOk(cfg, s, env) && Delivered(cfg, s)
    ensures Delivered(cfg, Pass(cfg, s, env))
  {
    if !s.over && env.Events? {
      if cfg.listenfd in env.readable && env.accepted.Some? {
        JoinKeepsDelivered(cfg, s, env.accepted.value, env.greeting);
      }
      var a := Admit(cfg, s, env);
      VisitKeepsDelivered(cfg, a, 0, env, env.readable * Watched(cfg, s));
      var v := VisitFrom(cfg, a, 0, env, env.readable * Watched(cfg, s));
      if !v.over && cfg.masterfd in env.readable && env.masterRead.Data? {
        BroadcastKeepsDelivered(cfg, v, env.masterRead.bytes, env);
      }
    }
  }

  lemma {:induction false} RunKeepsDelivered(cfg: Config, s: State, envs: seq<Env>)
    requires Consistent(cfg, s) && EnvsOk(cfg, s, envs) && Delivered(cfg, s)
    ensures Delivered(cfg, Run(cfg, s, envs))
    decreases |envs|
  {
    if envs == [] {
    } else {
      PassKeepsDelivered(cfg, s, envs[0]);
      RunKeepsDelivered(cfg, Pass(cfg, s, envs[0]), envs[1..]);
    }
  }

  /** Broadcast history: after any run of passes from the initial pool, a client still in the pool has
      been sent the header bytes its descriptor took and then every chunk read from the master since
      it joined, each once and in order; if the header write succeeded, that is the whole header. */
  lemma BroadcastHistory(cfg: Config, envs: seq<Env>, fd: int)
    requires EnvsOk(cfg, Initial(cfg), envs)
    requires fd in Run(cfg, Initial(cfg), envs).os.conn
    ensures var w := Run(cfg, Initial(cfg), envs).os;
            var h := w.sessions[w.conn[fd]];
            && h.joined <= |w.output| && h.greeted <= |cfg.header|
            && h.sent == cfg.header[..h.greeted] + Flatten(w.output[h.joined..])
            && (h.greeted == |cfg.header| ==> h.sent == cfg.header + Flatten(w.output[h.joined..]))
  {
    RunKeepsDelivered(cfg, Initial(cfg), envs);
    assert cfg.header[..|cfg.header|] == cfg.header;
  }

  /** A client that has left was sent a prefix of the same bytes: nothing out of order, nothing twice. */
  lemma DepartedHistory(cfg: Config, envs: seq<Env>, k: nat)
    requires EnvsOk(cfg, Initial(cfg), envs)
    requires k < |Run(cfg, Initial(cfg), envs).os.sessions|
    ensures var w := Run(cfg, Initial(cfg), envs).os;
            var h := w.sessions[k];
            && h.joined <= |w.output| && h.greeted <= |cfg.header|
            && h.sent <= cfg.header[..h.greeted] + Flatten(w.output[h.joined..])
  {
    RunKeepsDelivered(cfg, Initial(cfg), envs);
  }

  // ---------------------------------------------------------------- input: clients to master

  function Tagged(seen: seq<Read>): seq<(nat, byte)> {
    if seen == [] then [] else
      var last := seen[|seen| - 1];
      Tagged(seen[..|seen| - 1]) + Tag(last.session, last.bytes)
  }

  /** Everything read from session k, in order. */
  function From(seen: seq<Read>, k: nat): seq<byte> {
    if seen == [] then [] else
      var last := seen[|seen| - 1];
      From(seen[..|seen| - 1], k) + if last.session == k then last.bytes else []
  }

  /** The bytes of a tagged log that came from session k. */
  function Only(log: seq<(nat, byte)>, k: nat): seq<byte> {
    if log == [] then [] else
      var last := log[|log| - 1];
      Only(log[..|log| - 1], k) + if last.0 == k then [last.1] else []
  }

  lemma {:induction false} OnlyConcat(a: seq<(nat, byte)>, b: seq<(nat, byte)>, k: nat)
    ensures Only(a + b, k) == Only(a, k) + Only(b, k)
  {
    if b == [] {
      assert a + b == a;
    } else {
      var init := b[..|b| - 1];
      OnlyConcat(a, init, k);
      assert (a + b)[..|a + b| - 1] == a + init;
    }
  }

  lemma {:induction false} OnlyTag(session: nat, bytes: seq<byte>, k: nat)
    ensures Only(Tag(session, bytes), k) == if session == k then bytes else []
  {
    if bytes == [] {
    } else {
      var init := bytes[..|bytes| - 1];
      OnlyTag(session, init, k);
      assert Tag(session, bytes)[..|bytes| - 1] == Tag(session, init);
      assert init + [bytes[|bytes| - 1]] == bytes;
    }
  }

  lemma {:induction false} OnlyTagged(seen: seq<Read>, k: nat)
    ensures Only(Tagged(seen), k) == From(seen, k)
  {
    if seen == [] {
    } else {
      var init, last := seen[..|seen| - 1], seen[|seen| - 1];
      OnlyTagged(init, k);
      OnlyConcat(Tagged(init), Tag(last.session, last.bytes), k);
      OnlyTag(last.session, last.bytes, k);
    }
  }

  /** The master took exactly what was read, except that a run that has ended may have cut short
      the very last chunk. */
  ghost predicate Typed(s: State) {
    || s.os.typed == Tagged(s.os.input)
    || (&& s.over && s.os.input != []
        && var init, last := s.os.input[..|s.os.input| - 1], s.os.input[|s.os.input| - 1];
           exists n :: 0 <= n < |last.bytes| && s.os.typed == Tagged(init) + Tag(last.session, last.bytes[..n]))
  }

  lemma ForwardKeepsTyped(cfg: Config, s: State, fd: int, bytes: Chunk, script: seq<WriteResult>)
    requires Consistent(cfg, s) && fd in s.os.conn && !s.over && Typed(s)
    ensures Typed(Forward(cfg, s, fd, bytes, script))
  {
    var t := Forward(cfg, s, fd, bytes, script);
    assert t.os.input[..|t.os.input| - 1] == s.os.input;
    assert bytes[..|bytes|] == bytes;
  }

  lemma {:induction false} VisitKeepsTyped(cfg: Config, s: State, i: nat, env: Env, ready: set<int>)
    requires Consistent(cfg, s) && i <= |s.clients| && env.Events? && Typed(s)
    ensures Typed(VisitFrom(cfg, s, i, env, ready))
    decreases |s.clients| - i
  {
    if s.over || i == |s.clients| {
    } else {
      var fd := s.clients[i];
      if fd > 0 && fd in ready && env.clientRead(fd).Data? {
        ForwardKeepsTyped(cfg, s, fd, env.clientRead(fd).bytes, env.masterWrite(fd));
      }
      VisitKeepsTyped(cfg, Visit(cfg, s, i, env, ready), i + 1, env, ready);
    }
  }

  lemma {:induction false} RunKeepsTyped(cfg: Config, s: State, envs: seq<Env>)
    requires Consistent(cfg, s) && EnvsOk(cfg, s, envs) && Typed(s)
    ensures Typed(Run(cfg, s, envs))
    decreases |envs|
  {
    if envs == [] {
    } else {
      PassKeepsTyped(cfg, s, envs[0]);
      RunKeepsTyped(cfg, Pass(cfg, s, envs[0]), envs[1..]);
    }
  }

  lemma PassKeepsTyped(cfg: Config, s: State, env: Env)
    requires Consistent(cfg, s) && EnvOk(cfg, s, env) && Typed(s)
    ensures Typed(Pass(cfg, s, env))
  {
    if !s.over && env.Events? {
      var a := Admit(cfg, s, env);
      VisitKeepsTyped(cfg, a, 0, env, env.readable * Watched(cfg, s));
      var v := VisitFrom(cfg, a, 0, env, env.readable * Watched(cfg, s));
      if !v.over && cfg.masterfd in env.readable && env.masterRead.Data? {
        var b := env.masterRead.bytes;
        BroadcastFrame(cfg, Heard(v, b), 0, b, env);
      }
    }
  }

  lemma TypedOnly(s: State, k: nat)
    requires Typed(s)
    ensures var seen := s.os.input;
            || Only(s.os.typed, k) == From(seen, k)
            || (&& s.over && seen != [] && seen[|seen| - 1].session == k
                && From(seen[..|seen| - 1], k) <= Only(s.os.typed, k) < From(seen, k))
  {
    var seen := s.os.input;
    OnlyTagged(seen, k);
    if s.os.typed != Tagged(seen) {
      var init, last := seen[..|seen| - 1], seen[|seen| - 1];
      var n :| 0 <= n < |last.bytes| && s.os.typed == Tagged(init) + Tag(last.session, last.bytes[..n]);
      OnlyCut(seen, n, k);
    }
  }

  /** What is left of session k when the last chunk is cut after n bytes. */
  lemma OnlyCut(seen: seq<Read>, n: nat, k: nat)
    requires seen != [] && n < |seen[|seen| - 1].bytes|
    ensures var init, last := seen[..|seen| - 1], seen[|seen| - 1];
            var typed := Tagged(init) + Tag(last.session, last.bytes[..n]);
            if last.session == k then From(init, k) <= Only(typed, k) < From(seen, k)
            else Only(typed, k) == From(seen, k)
  {
    var init, last := seen[..|seen| - 1], seen[|seen| - 1];
    var cut := last.bytes[..n];
    OnlyTagged(init, k);
    OnlyConcat(Tagged(init), Tag(last.session, cut), k);
    OnlyTag(last.session, cut, k);
  }

  /** Input ordering: in every run, what the master took from a session is what was read from that
      session, in order; only the chunk that ended the run may be cut short. */
  lemma InputOrder(cfg: Config, envs: seq<Env>, k: nat)
    requires EnvsOk(cfg, Initial(cfg), envs)
    ensures var t := Run(cfg, Initial(cfg), envs);
            var seen := t.os.input;
            || Only(t.os.typed, k) == From(seen, k)
            || (&& t.over && seen != [] && seen[|seen| - 1].session == k
                && From(seen[..|seen| - 1], k) <= Only(t.os.typed, k) < From(seen, k))
  {
    RunKeepsTyped(cfg, Initial(cfg), envs);
    TypedOnly(Run(cfg, Initial(cfg), envs), k);
  }

  // ---------------------------------------------------------------- one pass, client by client

  function ReadAt(fd: int, conn: map<int, nat>, env: Env, ready: set<int>): seq<Read>
    requires env.Events?
  {
    if fd > 0 && fd in conn && fd in ready && env.clientRead(fd).Data?
    then [Read(conn[fd], env.clientRead(fd).bytes)] else []
  }

  /** The reads a full visit performs: one for every ready client with data, in slot order. */
  function ReadsOf(clients: seq<int>, conn: map<int, nat>, env: Env, ready: set<int>): seq<Read>
    requires env.Events?
  {
    if clients == [] then []
    else ReadsOf(clients[..|clients| - 1], conn, env, ready) + ReadAt(clients[|clients| - 1], conn, env, ready)
  }

  /** A ready client whose bytes the master does not take completely. */
  ghost predicate Fails(fd: int, env: Env, ready: set<int>)
    requires env.Events?
  {
    && fd > 0 && fd in ready && env.clientRead(fd).Data?
    && var bytes := env.clientRead(fd).bytes; Accepted(|bytes|, env.masterWrite(fd)) < |bytes|
  }

  ghost function FirstFailing(clients: seq<int>, env: Env, ready: set<int>): (j: nat)
    requires env.Events?
    ensures j <= |clients| && (j < |clients| ==> Fails(clients[j], env, ready))
    ensures forall k :: 0 <= k < j ==> !Fails(clients[k], env, ready)
  {
    if clients == [] || Fails(clients[0], env, ready) then 0 else 1 + FirstFailing(clients[1..], env, ready)
  }

  lemma {:induction false} ReadsOfSame(c: seq<int>, d: seq<int>, conn: map<int, nat>, dconn: map<int, nat>,
                                       env: Env, ready: set<int>, dready: set<int>)
    requires env.Events? && |c| == |d|
    requires forall i :: 0 <= i < |c| ==> ReadAt(c[i], conn, env, ready) == ReadAt(d[i], dconn, env, dready)
    ensures ReadsOf(c, conn, env, ready) == ReadsOf(d, dconn, env, dready)
  {
    if c == [] {
    } else {
      ReadsOfSame(c[..|c| - 1], d[..|d| - 1], conn, dconn, env, ready, dready);
    }
  }

  /** A client accepted in this pass is not served in this pass. */
  lemma AdmitSlot(cfg: Config, s: State, env: Env, i: nat)
    requires Consistent(cfg, s) && EnvOk(cfg, s, env) && env.Events? && i < |s.clients|
    ensures var a := Admit(cfg, s, env);
            var ready := env.readable * Watched(cfg, s);
            && ReadAt(a.clients[i], a.os.conn, env, ready) == ReadAt(s.clients[i], s.os.conn, env, env.readable)
            && (Fails(a.clients[i], env, ready) <==> Fails(s.clients[i], env, env.readable))
  {
  }

  lemma AdmitReads(cfg: Config, s: State, env: Env, end: nat)
    requires Consistent(cfg, s) && EnvOk(cfg, s, env) && env.Events? && end <= |s.clients|
    ensures var a := Admit(cfg, s, env);
            ReadsOf(a.clients[..end], a.os.conn, env, env.readable * Watched(cfg, s))
            == ReadsOf(s.clients[..end], s.os.conn, env, env.readable)
  {
    var a := Admit(cfg, s, env);
    var ready := env.readable * Watched(cfg, s);
    forall i | 0 <= i < end
      ensures ReadAt(a.clients[..end][i], a.os.conn, env, ready) == ReadAt(s.clients[..end][i], s.os.conn, env, env.readable)
    {
      AdmitSlot(cfg, s, env, i);
    }
    ReadsOfSame(a.clients[..end], s.clients[..end], a.os.conn, s.os.conn, env, ready, env.readable);
  }

  lemma VisitEffect(cfg: Config, s: State, i: nat, env: Env, ready: set<int>)
    requires Consistent(cfg, s) && i < |s.clients| && env.Events? && !s.over
    ensures var m := Visit(cfg, s, i, env, ready);
            && m.os.input == s.os.input + ReadAt(s.clients[i], s.os.conn, env, ready)
            && m.os.sessions == s.os.sessions && m.os.output == s.os.output
            && m.clients[i + 1..] == s.clients[i + 1..]
            && (m.os.conn == s.os.conn || (m.os.conn == s.os.conn - {s.clients[i]} && s.clients[i] !in s.clients[i + 1..]))
  {
    assert s.os.input + [] == s.os.input;
  }

  /** What the master takes when slot i is visited, and whether that ends the run. */
  lemma VisitTypes(cfg: Config, s: State, i: nat, env: Env, ready: set<int>)
    requires Consistent(cfg, s) && i < |s.clients| && env.Events? && !s.over
    ensures var m := Visit(cfg, s, i, env, ready);
            var fd := s.clients[i];
            && (m.over <==> Fails(fd, env, ready))
            && (!m.over ==> m.os.typed == s.os.typed + Tagged(ReadAt(fd, s.os.conn, env, ready)))
            && (m.over ==> && fd in s.os.conn && var bytes := env.clientRead(fd).bytes;
                           m.os.typed == s.os.typed + Tag(s.os.conn[fd], bytes[..Accepted(|bytes|, env.masterWrite(fd))]))
  {
    var fd := s.clients[i];
    if fd > 0 && fd in ready && env.clientRead(fd).Data? {
      var r := Read(s.os.conn[fd], env.clientRead(fd).bytes);
      assert [r][..0] == [];
      assert Tagged([r]) == Tag(r.session, r.bytes);
      assert r.bytes[..|r.bytes|] == r.bytes;
    } else {
      assert s.os.typed + [] == s.os.typed;
    }
  }

  /** The visit has served the slots before end, and left the others as they were. */
  ghost predicate Served(s: State, m: State, end: nat, env: Env, ready: set<int>)
    requires env.Events? && end <= |s.clients|
  {
    var served := ReadsOf(s.clients[..end], s.os.conn, env, ready);
    && !m.over && |m.clients| == |s.clients| && m.clients[end..] == s.clients[end..]
    && (forall j :: end <= j < |s.clients| ==> SameConn(s.clients[j], s.os.conn, m.os.conn))
    && m.os.input == s.os.input + served && m.os.typed == s.os.typed + Tagged(served)
    && m.os.sessions == s.os.sessions && m.os.output == s.os.output
  }

  ghost predicate SameConn(fd: int, conn: map<int, nat>, conn': map<int, nat>) {
    (fd in conn <==> fd in conn') && (fd in conn ==> conn[fd] == conn'[fd])
  }

  lemma {:induction false} TaggedConcat(a: seq<Read>, b: seq<Read>)
    ensures Tagged(a + b) == Tagged(a) + Tagged(b)
  {
    if b == [] {
      assert a + b == a;
    } else {
      var init := b[..|b| - 1];
      TaggedConcat(a, init);
      assert (a + b)[..|a + b| - 1] == a + init;
      Append(Tagged(a), Tagged(init), Tag(b[|b| - 1].session, b[|b| - 1].bytes));
    }
  }

  /** As long as no write to the master fails, a visit reads every ready client with data, in slot
      order, and the master takes all of it. */
  lemma {:induction false} VisitServes(cfg: Config, s: State, env: Env, ready: set<int>, end: nat) returns (m: State)
    requires Consistent(cfg, s) && env.Events? && !s.over && end <= |s.clients|
    requires forall j :: 0 <= j < end ==> !Fails(s.clients[j], env, ready)
    ensures Consistent(cfg, m) && Served(s, m, end, env, ready)
    ensures VisitFrom(cfg, s, 0, env, ready) == VisitFrom(cfg, m, end, env, ready)
  {
    if end == 0 {
      m := s;
      assert s.clients[..0] == [];
      assert s.os.input + [] == s.os.input && s.os.typed + [] == s.os.typed;
    } else {
      var before := VisitServes(cfg, s, env, ready, end - 1);
      m := Visit(cfg, before, end - 1, env, ready);
      assert before.clients[end - 1] == before.clients[end - 1..][0] == s.clients[end - 1];
      VisitEffect(cfg, before, end - 1, env, ready);
      VisitTypes(cfg, before, end - 1, env, ready);
      ServedNext(s, before, m, end - 1, env, ready);
    }
  }

  lemma Append<T>(a: seq<T>, b: seq<T>, c: seq<T>)
    ensures (a + b) + c == a + (b + c)
  {
  }

  lemma ServedLogs(s: State, i: nat, env: Env, ready: set<int>)
    requires env.Events? && i < |s.clients|
    ensures var served, here := ReadsOf(s.clients[..i], s.os.conn, env, ready), ReadAt(s.clients[i], s.os.conn, env, ready);
            var all := ReadsOf(s.clients[..i + 1], s.os.conn, env, ready);
            && s.os.input + all == (s.os.input + served) + here
            && s.os.typed + Tagged(all) == (s.os.typed + Tagged(served)) + Tagged(here)
  {
    var served, here := ReadsOf(s.clients[..i], s.os.conn, env, ready), ReadAt(s.clients[i], s.os.conn, env, ready);
    assert s.clients[..i + 1][..i] == s.clients[..i];
    TaggedConcat(served, here);
    Append(s.os.input, served, here);
    Append(s.os.typed, Tagged(served), Tagged(here));
  }

  lemma ServedNext(s: State, before: State, m: State, i: nat, env: Env, ready: set<int>)
    requires env.Events? && i < |s.clients| && Served(s, before, i, env, ready) && before.clients[i] == s.clients[i]
    requires !m.over && |m.clients| == |s.clients| && m.clients[i + 1..] == before.clients[i + 1..]
    requires m.os.sessions == before.os.sessions && m.os.output == before.os.output
    requires m.os.conn == before.os.conn || (m.os.conn == before.os.conn - {s.clients[i]} && s.clients[i] !in before.clients[i + 1..])
    requires m.os.input == before.os.input + ReadAt(s.clients[i], before.os.conn, env, ready)
    requires m.os.typed == before.os.typed + Tagged(ReadAt(s.clients[i], before.os.conn, env, ready))
    ensures Served(s, m, i + 1, env, ready)
  {
    assert SameConn(s.clients[i], s.os.conn, before.os.conn);
    ServedLogs(s, i, env, ready);
    assert before.clients[i + 1..] == before.clients[i..][1..] == s.clients[i..][1..] == s.clients[i + 1..];
    forall j | i + 1 <= j < |s.clients| ensures SameConn(s.clients[j], s.os.conn, m.os.conn) {
      assert SameConn(s.clients[j], s.os.conn, before.os.conn);
      assert s.clients[j] == s.clients[i + 1..][j - i - 1];
    }
  }

  /** The client whose bytes the master does not take ends the visit there. */
  lemma VisitStops(cfg: Config, s: State, env: Env, ready: set<int>, j: nat)
    requires Consistent(cfg, s) && env.Events? && !s.over && j < |s.clients|
    requires Fails(s.clients[j], env, ready) && forall i :: 0 <= i < j ==> !Fails(s.clients[i], env, ready)
    ensures var t := VisitFrom(cfg, s, 0, env, ready);
            var served := ReadsOf(s.clients[..j], s.os.conn, env, ready);
            var fd := s.clients[j];
            var bytes := env.clientRead(fd).bytes;
            && t.over && fd in s.os.conn
            && t.os.input == s.os.input + served + [Read(s.os.conn[fd], bytes)]
            && t.os.typed == s.os.typed + Tagged(served) + Tag(s.os.conn[fd], bytes[..Accepted(|bytes|, env.masterWrite(fd))])
            && t.os.sessions == s.os.sessions && t.os.output == s.os.output
  {
    var m := VisitServes(cfg, s, env, ready, j);
    assert m.clients[j] == m.clients[j..][0] == s.clients[j];
    assert SameConn(s.clients[j], s.os.conn, m.os.conn);
    VisitEffect(cfg, m, j, env, ready);
    VisitTypes(cfg, m, j, env, ready);
  }

  lemma {:induction false} VisitSlot(cfg: Config, s: State, i: nat, env: Env, ready: set<int>, j: nat)
    requires Consistent(cfg, s) && i <= |s.clients| && j < |s.clients| && env.Events?
    requires !VisitFrom(cfg, s, i, env, ready).over
    ensures VisitFrom(cfg, s, i, env, ready).clients[j]
            == if i <= j && s.clients[j] > 0 && s.clients[j] in ready && env.clientRead(s.clients[j]) == NoData(false)
               then -1 else s.clients[j]
    decreases |s.clients| - i
  {
    if i == |s.clients| {
    } else {
      VisitOneSlot(cfg, s, i, env, ready, j);
      VisitSlot(cfg, Visit(cfg, s, i, env, ready), i + 1, env, ready, j);
    }
  }

  lemma VisitOneSlot(cfg: Config, s: State, i: nat, env: Env, ready: set<int>, j: nat)
    requires Consistent(cfg, s) && i < |s.clients| && j < |s.clients| && env.Events? && !s.over
    ensures Visit(cfg, s, i, env, ready).clients[j]
            == if i == j && s.clients[j] > 0 && s.clients[j] in ready && env.clientRead(s.clients[j]) == NoData(false)
               then -1 else s.clients[j]
  {
  }

  /** The chunk a pass reads from the master, if any. */
  ghost function MasterChunk(cfg: Config, env: Env): seq<Chunk>
    requires env.Events?
  {
    if cfg.masterfd in env.readable && env.masterRead.Data? then [env.masterRead.bytes] else []
  }

  /** No client's bytes are left untaken in this pass. */
  ghost predicate NoneFails(s: State, env: Env)
    requires env.Events?
  {
    forall j :: 0 <= j < |s.clients| ==> !Fails(s.clients[j], env, env.readable)
  }

  lemma AdmitFails(cfg: Config, s: State, env: Env)
    requires Consistent(cfg, s) && EnvOk(cfg, s, env) && env.Events?
    ensures var a := Admit(cfg, s, env);
            |a.clients| == |s.clients| && forall j :: 0 <= j < |s.clients| ==>
              (Fails(a.clients[j], env, env.readable * Watched(cfg, s)) <==> Fails(s.clients[j], env, env.readable))
  {
    forall j | 0 <= j < |s.clients|
      ensures Fails(Admit(cfg, s, env).clients[j], env, env.readable * Watched(cfg, s)) <==> Fails(s.clients[j], env, env.readable)
    {
      AdmitSlot(cfg, s, env, j);
    }
  }

  /** The pass up to its last client. */
  ghost function AfterClients(cfg: Config, s: State, env: Env): (t: State)
    requires Consistent(cfg, s) && EnvOk(cfg, s, env) && env.Events?
    ensures Consistent(cfg, t)
  {
    VisitFrom(cfg, Admit(cfg, s, env), 0, env, env.readable * Watched(cfg, s))
  }

  lemma ClientsServed(cfg: Config, s: State, env: Env)
    requires Consistent(cfg, s) && EnvOk(cfg, s, env) && env.Events? && !s.over && NoneFails(s, env)
    ensures var v := AfterClients(cfg, s, env);
            var served := ReadsOf(s.clients, s.os.conn, env, env.readable);
            && !v.over && v.os.input == s.os.input + served && v.os.typed == s.os.typed + Tagged(served)
            && v.os.output == s.os.output && v.os.sessions == Admit(cfg, s, env).os.sessions
  {
    AdmitFails(cfg, s, env);
    AdmitKeeps(cfg, s, env);
    VisitServesAll(cfg, Admit(cfg, s, env), env, env.readable * Watched(cfg, s));
  }

  lemma AdmitKeeps(cfg: Config, s: State, env: Env)
    requires Consistent(cfg, s) && EnvOk(cfg, s, env) && env.Events?
    ensures var a := Admit(cfg, s, env);
            && a.os.input == s.os.input && a.os.typed == s.os.typed && a.os.output == s.os.output && a.over == s.over
            && ReadsOf(a.clients, a.os.conn, env, env.readable * Watched(cfg, s)) == ReadsOf(s.clients, s.os.conn, env, env.readable)
  {
    var a := Admit(cfg, s, env);
    AdmitReads(cfg, s, env, |s.clients|);
    assert a.clients[..|s.clients|] == a.clients && s.clients[..|s.clients|] == s.clients;
  }

  lemma VisitServesAll(cfg: Config, s: State, env: Env, ready: set<int>)
    requires Consistent(cfg, s) && env.Events? && !s.over
    requires forall j :: 0 <= j < |s.clients| ==> !Fails(s.clients[j], env, ready)
    ensures var v := VisitFrom(cfg, s, 0, env, ready);
            var served := ReadsOf(s.clients, s.os.conn, env, ready);
            && !v.over && v.os.input == s.os.input + served && v.os.typed == s.os.typed + Tagged(served)
            && v.os.output == s.os.output && v.os.sessions == s.os.sessions
  {
    var v := VisitServes(cfg, s, env, ready, |s.clients|);
    assert s.clients[..|s.clients|] == s.clients;
  }

  lemma MasterServed(cfg: Config, s: State, env: Env)
    requires Consistent(cfg, s) && env.Events? && !s.over
    ensures var t := ServeMaster(cfg, s, env);
            && t.os.input == s.os.input && t.os.typed == s.os.typed && |t.os.sessions| == |s.os.sessions|
            && t.os.output == s.os.output + MasterChunk(cfg, env)
            && (t.over <==> cfg.masterfd in env.readable && env.masterRead == NoData(false))
  {
    if MasterChunk(cfg, env) != [] {
      var b := env.masterRead.bytes;
      BroadcastFrame(cfg, Heard(s, b), 0, b, env);
    }
  }

  /** A pass in which the master takes everything reads every ready client once, in slot order, reads
      the master if it is ready, and opens a session exactly when a client was accepted. */
  lemma PassServesAll(cfg: Config, s: State, env: Env)
    requires Consistent(cfg, s) && EnvOk(cfg, s, env) && env.Events? && !s.over && NoneFails(s, env)
    ensures var w := Pass(cfg, s, env).os;
            var served := ReadsOf(s.clients, s.os.conn, env, env.readable);
            && w.input == s.os.input + served && w.typed == s.os.typed + Tagged(served)
            && w.output == s.os.output + MasterChunk(cfg, env)
            && |w.sessions| == |s.os.sessions| + (if cfg.listenfd in env.readable && env.accepted.Some? then 1 else 0)
    ensures Pass(cfg, s, env).over <==> cfg.masterfd in env.readable && env.masterRead == NoData(false)
  {
    ClientsServed(cfg, s, env);
    MasterServed(cfg, AfterClients(cfg, s, env), env);
  }

  /** A pass in which the master does not take all of a client's bytes ends there: the clients before
      that one were served, of its own bytes the master has what it took, and nobody else was read. */
  lemma PassStops(cfg: Config, s: State, env: Env, j: nat)
    requires Consistent(cfg, s) && EnvOk(cfg, s, env) && env.Events? && !s.over && j < |s.clients|
    requires Fails(s.clients[j], env, env.readable) && forall i :: 0 <= i < j ==> !Fails(s.clients[i], env, env.readable)
    ensures var w := Pass(cfg, s, env).os;
            var served := ReadsOf(s.clients[..j], s.os.conn, env, env.readable);
            var fd := s.clients[j];
            var bytes := env.clientRead(fd).bytes;
            && Pass(cfg, s, env).over && fd in s.os.conn
            && w.input == s.os.input + served + [Read(s.os.conn[fd], bytes)]
            && w.typed == s.os.typed + Tagged(served) + Tag(s.os.conn[fd], bytes[..Accepted(|bytes|, env.masterWrite(fd))])
            && w.output == s.os.output
  {
    var ready := env.readable * Watched(cfg, s);
    var a := Admit(cfg, s, env);
    AdmitFails(cfg, s, env);
    AdmitReads(cfg, s, env, j);
    assert a.clients[j] == s.clients[j] && a.os.conn[s.clients[j]] == s.os.conn[s.clients[j]];
    VisitStops(cfg, a, env, ready, j);
  }

  /** A pass ends the run exactly when the master does not take all of some ready client's bytes, or
      when reading the master gives nothing and no signal was the reason; a pass in which select(2) was
      interrupted changes nothing. */
  lemma PassEnds(cfg: Config, s: State, env: Env)
    requires Consistent(cfg, s) && EnvOk(cfg, s, env) && !s.over
    ensures env.Interrupted? ==> Pass(cfg, s, env) == s
    ensures env.Events? ==>
              (Pass(cfg, s, env).over <==>
                 || (exists j :: 0 <= j < |s.clients| && Fails(s.clients[j], env, env.readable))
                 || (cfg.masterfd in env.readable && env.masterRead == NoData(false)))
  {
    if env.Events? {
      var j := FirstFailing(s.clients, env, env.readable);
      if j < |s.clients| {
        PassStops(cfg, s, env, j);
      } else {
        PassServesAll(cfg, s, env);
      }
    }
  }

  /** A pass in which the master takes everything removes a client exactly for its own failed read or
      its own failed write, and otherwise leaves it where it is. */
  lemma ClientFate(cfg: Config, s: State, env: Env, j: nat)
    requires Consistent(cfg, s) && EnvOk(cfg, s, env) && env.Events? && !s.over && NoneFails(s, env)
    requires j < |s.clients| && s.clients[j] > 0
    ensures var fd := s.clients[j];
            Pass(cfg, s, env).clients[j] ==
            if || (fd in env.readable && env.clientRead(fd) == NoData(false))
               || (exists b :: b in MasterChunk(cfg, env) && Accepted(|b|, env.clientWrite(fd)) < |b|)
            then -1 else fd
  {
    ClientsServed(cfg, s, env);
    assert Admit(cfg, s, env).clients[j] == s.clients[j];
    VisitSlot(cfg, Admit(cfg, s, env), 0, env, env.readable * Watched(cfg, s), j);
    MasterSlot(cfg, AfterClients(cfg, s, env), env, j);
  }

  lemma MasterSlot(cfg: Config, s: State, env: Env, j: nat)
    requires Consistent(cfg, s) && env.Events? && !s.over && j < |s.clients|
    ensures ServeMaster(cfg, s, env).clients[j]
            == if s.clients[j] > 0 && exists b :: b in MasterChunk(cfg, env) && Accepted(|b|, env.clientWrite(s.clients[j])) < |b|
               then -1 else s.clients[j]
  {
    if MasterChunk(cfg, env) != [] {
      var b := env.masterRead.bytes;
      assert MasterChunk(cfg, env) == [b] && b in MasterChunk(cfg, env);
      BroadcastFrame(cfg, Heard(s, b), 0, b, env);
      BroadcastSlot(cfg, Heard(s, b), 0, b, env, j);
    }
  }

  // ---------------------------------------------------------------- sessions over time

  lemma {:induction false} VisitFrame(cfg: Config, s: State, i: nat, env: Env, ready: set<int>)
    requires Consistent(cfg, s) && i <= |s.clients| && env.Events?
    ensures var t := VisitFrom(cfg, s, i, env, ready); t.os.sessions == s.os.sessions && t.os.output == s.os.output
    decreases |s.clients| - i
  {
    if s.over || i == |s.clients| {
    } else {
      VisitEffect(cfg, s, i, env, ready);
      VisitFrame(cfg, Visit(cfg, s, i, env, ready), i + 1, env, ready);
    }
  }

  /** A later record of the same session: its start is fixed, and it has only been sent more. */
  ghost predicate Continues(h: Session, h': Session) {
    h'.joined == h.joined && h'.greeted == h.greeted && h.sent <= h'.sent
  }

  lemma MasterContinues(cfg: Config, s: State, env: Env, k: nat)
    requires Consistent(cfg, s) && env.Events? && k < |s.os.sessions|
    ensures var t := ServeMaster(cfg, s, env);
            |t.os.sessions| == |s.os.sessions| && Continues(s.os.sessions[k], t.os.sessions[k])
  {
    if !s.over && cfg.masterfd in env.readable && env.masterRead.Data? {
      var n := BroadcastSession(cfg, Heard(s, env.masterRead.bytes), env.masterRead.bytes, env, k);
    }
  }

  /** No pass, not even the one that ends the run, takes back anything from a session. */
  lemma PassContinues(cfg: Config, s: State, env: Env, k: nat)
    requires Consistent(cfg, s) && EnvOk(cfg, s, env) && k < |s.os.sessions|
    ensures k < |Pass(cfg, s, env).os.sessions| && Continues(s.os.sessions[k], Pass(cfg, s, env).os.sessions[k])
  {
    if !s.over && env.Events? {
      var a := Admit(cfg, s, env);
      var ready := env.readable * Watched(cfg, s);
      assert a.os.sessions[k] == s.os.sessions[k];
      VisitFrame(cfg, a, 0, env, ready);
      MasterContinues(cfg, VisitFrom(cfg, a, 0, env, ready), env, k);
    }
  }

  lemma {:induction false} RunContinues(cfg: Config, s: State, envs: seq<Env>, k: nat)
    requires Consistent(cfg, s) && EnvsOk(cfg, s, envs) && k < |s.os.sessions|
    ensures k < |Run(cfg, s, envs).os.sessions| && Continues(s.os.sessions[k], Run(cfg, s, envs).os.sessions[k])
    decreases |envs|
  {
    if envs == [] {
    } else {
      PassContinues(cfg, s, envs[0], k);
      RunContinues(cfg, Pass(cfg, s, envs[0]), envs[1..], k);
    }
  }

  /** An accepted client takes the first free slot and opens the next session; nothing else changes. */
  lemma AcceptedTakesFirst(cfg: Config, s: State, env: Env, i: nat)
    requires Consistent(cfg, s) && EnvOk(cfg, s, env) && env.Events? && cfg.listenfd in env.readable && env.accepted.Some?
    requires i < |s.clients| && s.clients[i] == -1 && forall j :: 0 <= j < i ==> s.clients[j] != -1
    ensures var a := Admit(cfg, s, env);
            var fd := env.accepted.value;
            && a.clients == s.clients[i := fd] && a.os.conn == s.os.conn[fd := |s.os.sessions|]
            && |a.os.sessions| == |s.os.sessions| + 1 && a.os.sessions[..|s.os.sessions|] == s.os.sessions
            && a.os.input == s.os.input && a.os.typed == s.os.typed && a.os.output == s.os.output && a.over == s.over
  {
    SlotAvailable(cfg, s);
    assert FirstFree(s.clients) == i;
  }

  /** A session starts when a client is accepted, with as much of the header as its descriptor takes,
      and is due every chunk read from that pass on. */
  lemma PassGreets(cfg: Config, s: State, env: Env)
    requires Consistent(cfg, s) && EnvOk(cfg, s, env) && env.Events? && !s.over
    requires cfg.listenfd in env.readable && env.accepted.Some?
    ensures var k := |s.os.sessions|;
            var w := Pass(cfg, s, env).os;
            && |w.sessions| == k + 1
            && w.sessions[k].joined == |s.os.output|
            && w.sessions[k].greeted == Accepted(|cfg.header|, env.greeting)
            && cfg.header[..w.sessions[k].greeted] <= w.sessions[k].sent
  {
    var k := |s.os.sessions|;
    var a := Admit(cfg, s, env);
    var ready := env.readable * Watched(cfg, s);
    VisitFrame(cfg, a, 0, env, ready);
    MasterContinues(cfg, VisitFrom(cfg, a, 0, env, ready), env, k);
  }
}
