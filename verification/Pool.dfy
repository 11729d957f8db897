/** The pool of pty_exec_util.cpp: a slot array, a read set, high-water marks and a count of ready
    descriptors, proved to do exactly what module Relay describes without any of them. */
module Pool {
  import opened RobustWrite
  import opened Relay

  /** Visiting slots that are free or not ready changes nothing. */
  lemma {:induction false} VisitIdle(cfg: Config, s: State, i: nat, env: Env, ready: set<int>)
    requires Consistent(cfg, s) && i <= |s.clients| && env.Events?
    requires forall j :: i <= j < |s.clients| ==> s.clients[j] <= 0 || s.clients[j] !in ready
    ensures VisitFrom(cfg, s, i, env, ready) == s
    decreases |s.clients| - i
  {
    if s.over || i == |s.clients| {
    } else {
      VisitIdle(cfg, s, i + 1, env, ready);
    }
  }

  lemma {:induction false} BroadcastIdle(cfg: Config, s: State, i: nat, bytes: Chunk, env: Env)
    requires Consistent(cfg, s) && i <= |s.clients| && env.Events?
    requires forall j :: i <= j < |s.clients| ==> s.clients[j] <= 0
    ensures BroadcastFrom(cfg, s, i, bytes, env) == s
    decreases |s.clients| - i
  {
    if i == |s.clients| {
    } else {
      BroadcastIdle(cfg, s, i + 1, bytes, env);
    }
  }

  /** The ready client descriptors in slots from i on. */
  ghost function Unserved(clients: seq<int>, i: nat, ready: set<int>): set<int> {
    set j | i <= j < |clients| && clients[j] > 0 && clients[j] in ready :: clients[j]
  }

  /** The state of the serving loop before slot i: pending holds every ready client still to be
      served, nready is at least its size, and target is what serving all of them comes to. */
  ghost predicate Serving(cfg: Config, s: State, i: nat, env: Env, ready: set<int>, pending: set<int>, nready: int, target: State) {
    && Consistent(cfg, s) && i <= |s.clients| && env.Events?
    && Unserved(s.clients, i, ready) <= pending && |pending| <= nready
    && VisitFrom(cfg, s, i, env, ready) == target
  }

  lemma ServingStarts(cfg: Config, s: State, env: Env, ready: set<int>, nready: int)
    requires Consistent(cfg, s) && env.Events? && nready >= |ready - {cfg.listenfd}|
    ensures Serving(cfg, s, 0, env, ready, ready - {cfg.listenfd}, nready, VisitFrom(cfg, s, 0, env, ready))
  {
  }

  lemma ServingStep(cfg: Config, s: State, i: nat, env: Env, ready: set<int>, pending: set<int>, nready: int, target: State)
    requires Serving(cfg, s, i, env, ready, pending, nready, target) && i < |s.clients| && !s.over
    ensures var t := Visit(cfg, s, i, env, ready);
            var served := if s.clients[i] > 0 && s.clients[i] in ready then 1 else 0;
            && (t.over ==> target == t)
            && (!t.over ==> Serving(cfg, t, i + 1, env, ready, pending - {s.clients[i]}, nready - served, target))
  {
    var t := Visit(cfg, s, i, env, ready);
    assert forall j :: i < j < |s.clients| ==> t.clients[j] == s.clients[j];
    if s.clients[i] > 0 && s.clients[i] in ready {
      assert s.clients[i] in Unserved(s.clients, i, ready);
    }
    if s.clients[i] !in pending {
      assert pending - {s.clients[i]} == pending;
    }
  }

  /** Both ways out of the serving loop leave no ready client behind. */
  lemma ServingEnds(cfg: Config, s: State, i: nat, env: Env, ready: set<int>, pending: set<int>, nready: int, target: State, maxi: int)
    requires Serving(cfg, s, i, env, ready, pending, nready, target)
    requires i > maxi || nready <= 0
    requires forall j :: maxi < j < |s.clients| ==> j < 0 || s.clients[j] == -1
    ensures target == s
  {
    UnservedMembers(s.clients, i, ready);
    if nready <= 0 {
      assert pending == {};
    }
    VisitIdle(cfg, s, i, env, ready);
  }

  lemma UnservedMembers(clients: seq<int>, i: nat, ready: set<int>)
    ensures forall j :: i <= j < |clients| && clients[j] > 0 && clients[j] in ready ==> clients[j] in Unserved(clients, i, ready)
  {
  }

  /** What the bookkeeping means: the read set is the listener, the master and the occupied slots,
      no member is above maxfd, and no slot above maxi is occupied. */
  ghost predicate Sound(cfg: Config, s: State, readSet: set<int>, maxfd: int, maxi: int) {
    && Descriptors(cfg)
    && Consistent(cfg, s)
    && readSet == Watched(cfg, s)
    && (forall fd :: fd in readSet ==> fd <= maxfd)
    && -1 <= maxi < FD_SETSIZE
    && (forall i :: maxi < i < |s.clients| ==> i < 0 || s.clients[i] == -1)
  }

  class ConnectionPool {
    const cfg: Config
    const clientfd: array<int>
    var masterfd: int
    var maxfd: int
    var maxi: int
    var nready: int
    var readSet: set<int>
    var readySet: set<int>
    var os: World              // what the system calls have done so far

    /** The pool with its bookkeeping forgotten. */
    ghost function View(over: bool): State
      reads this, clientfd
    {
      State(clientfd[..], os, over)
    }

    ghost predicate Valid()
      reads this, clientfd
    {
      masterfd == cfg.masterfd && Sound(cfg, View(false), readSet, maxfd, maxi)
    }

    /** init_pool.  maxfd is taken from the listener alone, so the pool is sound from the start, and
        select(2) sees the master, exactly when the master's descriptor is the smaller one. */
    constructor (cfg: Config)
      requires Descriptors(cfg)
      ensures Valid() <==> cfg.masterfd < cfg.listenfd
      ensures fresh(clientfd) && this.cfg == cfg && View(false) == Initial(cfg)
    {
      this.cfg := cfg;
      clientfd := new int[FD_SETSIZE];
      maxi := -1;
      nready, readySet := 0, {};
      os := NOTHING_YET;
      maxfd := cfg.listenfd;
      readSet := {cfg.listenfd, cfg.masterfd};
      masterfd := cfg.masterfd;
      new;
      for i := 0 to FD_SETSIZE
        invariant forall j :: 0 <= j < i ==> clientfd[j] == -1
        invariant os == NOTHING_YET && readSet == {cfg.listenfd, cfg.masterfd}
        invariant maxi == -1 && maxfd == cfg.listenfd && masterfd == cfg.masterfd
      {
        clientfd[i] := -1;
      }
      assert clientfd[..] == Initial(cfg).clients;
    }

    /** add_client: found says whether a slot was found; it always is. */
    method AddClient(connfd: int) returns (found: bool)
      requires Valid() && ClientFd(cfg, connfd) && connfd !in os.conn
      modifies this`nready, this`readSet, this`maxfd, this`maxi, clientfd
      ensures found
      ensures nready == old(nready) - 1
      ensures FirstFree(old(clientfd[..])) < clientfd.Length
      ensures clientfd[..] == old(clientfd[..])[FirstFree(old(clientfd[..])) := connfd]
      ensures readSet == old(readSet) + {connfd}
      ensures forall fd :: fd in readSet ==> fd <= maxfd
      ensures -1 <= maxi < FD_SETSIZE
      ensures forall i :: maxi < i < clientfd.Length ==> clientfd[i] == -1
    {
      SlotAvailable(cfg, View(false));
      nready := nready - 1;
      found := true;
      var i := 0;
      while i < FD_SETSIZE
        invariant 0 <= i <= FD_SETSIZE && found
        invariant clientfd[..] == old(clientfd[..]) && readSet == old(readSet)
        invariant maxi == old(maxi) && maxfd == old(maxfd) && nready == old(nready) - 1
        invariant forall j :: 0 <= j < i ==> clientfd[j] >= 0
      {
        if clientfd[i] < 0 {
          assert i == FirstFree(clientfd[..]);
          clientfd[i] := connfd;
          readSet := readSet + {connfd};
          if connfd > maxfd {
            maxfd := connfd;
          }
          if i > maxi {
            maxi := i;
          }
          break;
        }
        i := i + 1;
      }
      if i == FD_SETSIZE {
        found := false;
      }
    }

    /** close, FD_CLR and the freed slot. */
    method CloseClient(i: nat)
      requires Valid() && i < clientfd.Length && clientfd[i] > 0
      modifies this`readSet, this`os, clientfd
      ensures Valid() && View(false) == Drop(cfg, old(View(false)), i)
    {
      ghost var after := Drop(cfg, View(false), i);
      var connfd := clientfd[i];
      os := os.(conn := os.conn - {connfd});
      readSet := readSet - {connfd};
      clientfd[i] := -1;
      assert clientfd[..] == after.clients;
    }

    /** One turn of the first loop of check_clients_and_master. */
    method ServeClient(i: nat, env: Env) returns (stop: bool)
      requires Valid() && i < clientfd.Length && env.Events?
      modifies this`nready, this`readSet, this`os, clientfd
      ensures Valid() && View(stop) == Visit(cfg, old(View(false)), i, env, readySet)
      ensures nready == old(nready) - if old(clientfd[i]) > 0 && old(clientfd[i]) in readySet then 1 else 0
      ensures forall j :: 0 <= j < clientfd.Length && j != i ==> clientfd[j] == old(clientfd[j])
    {
      stop := false;
      var connfd := clientfd[i];
      if connfd > 0 && connfd in readySet {
        nready := nready - 1;
        match env.clientRead(connfd)
        case NoData(interrupted) =>
          if !interrupted {
            CloseClient(i);
          }
        case Data(buf) =>
          var session := os.conn[connfd];
          var ret, taken := Writen([], buf, env.masterWrite(connfd));
          os := os.(input := os.input + [Read(session, buf)], typed := os.typed + Tag(session, taken));
          stop := ret <= 0;
      }
    }

    /** One turn of the broadcast loop. */
    method SendClient(i: nat, buf: Chunk, env: Env)
      requires Valid() && i < clientfd.Length && env.Events?
      modifies this`readSet, this`os, clientfd
      ensures Valid() && View(false) == Deliver(cfg, old(View(false)), i, buf, env)
    {
      var connfd := clientfd[i];
      if connfd > 0 {
        var k := os.conn[connfd];
        var session := os.sessions[k];
        var ret, sent := Writen(session.sent, buf, env.clientWrite(connfd));
        os := os.(sessions := os.sessions[k := session.(sent := sent)]);
        if ret != |buf| {
          CloseClient(i);
        }
      }
    }

    /** The broadcast loop. */
    method Broadcast(buf: Chunk, env: Env)
      requires Valid() && env.Events?
      modifies this`readSet, this`os, clientfd
      ensures Valid() && View(false) == BroadcastFrom(cfg, old(View(false)), 0, buf, env)
    {
      ghost var start := View(false);
      var i := 0;
      while i <= maxi
        invariant 0 <= i <= maxi + 1 && Valid()
        invariant BroadcastFrom(cfg, start, 0, buf, env) == BroadcastFrom(cfg, View(false), i, buf, env)
      {
        SendClient(i, buf, env);
        i := i + 1;
      }
      BroadcastIdle(cfg, View(false), i, buf, env);
    }

    /** The first loop of check_clients_and_master.  It stops early once nready reaches zero; that
        never skips a ready client, because nready never falls below the number of ready
        descriptors, other than the listener, that are still to be served. */
    method ServeClients(env: Env) returns (stop: bool)
      requires Valid() && env.Events?
      requires nready >= |readySet - {cfg.listenfd}|
      modifies this`nready, this`readSet, this`os, clientfd
      ensures Valid() && View(stop) == VisitFrom(cfg, old(View(false)), 0, env, readySet)
    {
      ghost var target := VisitFrom(cfg, View(false), 0, env, readySet);
      ghost var pending := readySet - {cfg.listenfd};
      ServingStarts(cfg, View(false), env, readySet, nready);
      stop := false;
      var i := 0;
      while i <= maxi && nready > 0
        invariant 0 <= i <= maxi + 1 && Valid() && !stop
        invariant Serving(cfg, View(false), i, env, readySet, pending, nready, target)
        decreases maxi - i
      {
        ServingStep(cfg, View(false), i, env, readySet, pending, nready, target);
        pending := pending - {clientfd[i]};
        stop := ServeClient(i, env);
        if stop {
          return;
        }
        i := i + 1;
      }
      ServingEnds(cfg, View(false), i, env, readySet, pending, nready, target, maxi);
    }

    method CheckClientsAndMaster(env: Env) returns (ret: int)
      requires Valid() && env.Events?
      requires nready >= |readySet - {cfg.listenfd}|
      requires masterfd in readySet <==> masterfd in env.readable
      modifies this`nready, this`readSet, this`os, clientfd
      ensures Valid() && (ret == 0 || ret == 1)
      ensures View(ret == 1) == ServeMaster(cfg, VisitFrom(cfg, old(View(false)), 0, env, readySet), env)
    {
      var stop := ServeClients(env);
      if stop {
        return 1;
      }
      if masterfd != -1 && masterfd in readySet {
        nready := nready - 1;
        match env.masterRead
        case NoData(interrupted) =>
          if !interrupted {
            return 1;
          }
        case Data(buf) =>
          os := os.(output := os.output + [buf]);
          Broadcast(buf, env);
      }
      return 0;
    }

    /** accept, add_client and the header. */
    method AcceptClient(connfd: int, script: seq<WriteResult>)
      requires Valid() && ClientFd(cfg, connfd) && connfd !in os.conn
      modifies this`nready, this`readSet, this`maxfd, this`maxi, this`os, clientfd
      ensures Valid() && View(false) == Join(cfg, old(View(false)), connfd, script)
      ensures nready == old(nready) - 1
    {
      ghost var after := Join(cfg, View(false), connfd, script);
      var found := AddClient(connfd);
      var ret, sent := Writen([], cfg.header, script);
      assert sent == cfg.header[..Accepted(|cfg.header|, script)];
      os := os.(conn := os.conn[connfd := |os.sessions|],
                sessions := os.sessions + [Session(|os.output|, |sent|, sent)]);
      assert View(false) == after;
    }

    /** A select(2) that succeeds: it looks at the descriptors up to maxfd, which are all of them. */
    method Select(env: Env)
      requires Valid() && env.Events?
      modifies this`readySet, this`nready
      ensures Valid() && readySet == env.readable * Watched(cfg, View(false)) && nready == |readySet|
    {
      readySet := set fd | fd in readSet && fd <= maxfd && fd in env.readable;
      nready := |readySet|;
    }

    /** One turn of the select loop; true means the loop ends. */
    method Pass(env: Env) returns (over: bool)
      requires Valid() && EnvOk(cfg, View(false), env)
      modifies this, clientfd
      ensures Valid() && View(over) == Relay.Pass(cfg, old(View(false)), env)
    {
      readySet := readSet;
      if env.Interrupted? {
        nready := -1;
        return false;
      }
      Select(env);
      assert |readySet - {cfg.listenfd}| == |readySet| - if cfg.listenfd in readySet then 1 else 0;
      if cfg.listenfd in readySet && env.accepted.Some? {
        AcceptClient(env.accepted.value, env.greeting);
      }
      assert View(false) == Admit(cfg, old(View(false)), env);
      var ret := CheckClientsAndMaster(env);
      over := ret == 1;
    }

    /** The select loop over any number of passes. */
    method Serve(envs: seq<Env>) returns (over: bool)
      requires Valid() && EnvsOk(cfg, View(false), envs)
      modifies this, clientfd
      ensures Valid() && View(over) == Run(cfg, old(View(false)), envs)
    {
      over := false;
      var n := 0;
      while n < |envs| && !over
        invariant 0 <= n <= |envs| && Valid()
        invariant EnvsOk(cfg, View(over), envs[n..])
        invariant Run(cfg, View(over), envs[n..]) == Run(cfg, old(View(false)), envs)
      {
        assert envs[n..][0] == envs[n] && envs[n..][1..] == envs[n + 1..];
        over := Pass(envs[n]);
        n := n + 1;
      }
      RunOver(cfg, View(over), envs[n..]);
    }
  }

  /** A loop that has ended stays ended. */
  lemma {:induction false} RunOver(cfg: Config, s: State, envs: seq<Env>)
    requires Consistent(cfg, s) && EnvsOk(cfg, s, envs) && (s.over || envs == [])
    ensures Run(cfg, s, envs) == s
    decreases |envs|
  {
    if envs == [] {
    } else {
      RunOver(cfg, s, envs[1..]);
    }
  }
}
