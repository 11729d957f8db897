/** What the select loop of pty_run_container is meant to do, pass by pass, with none of the
    pool's bookkeeping (no read set, no high-water marks, no count of ready descriptors). */
module Relay {
  import opened Bytes
  import opened RobustWrite

  const FD_SETSIZE := 1024
  const BUF_SIZE := 4096

  /** The bytes of one successful read(2) into a BUF_SIZE buffer. */
  type Chunk = s: seq<byte> | 0 < |s| <= BUF_SIZE witness [0]

  /** One read(2): data, or nothing (end of file or error) with errno being EINTR or not. */
  datatype ReadResult = Data(bytes: Chunk) | NoData(interrupted: bool)

  datatype Read = Read(session: nat, bytes: Chunk)

  /** A session begins when accept(2) succeeds: how many master chunks had been read by then, how
      many header bytes its descriptor took, and everything its descriptor has taken. */
  datatype Session = Session(joined: nat, greeted: nat, sent: seq<byte>)

  /** Everything the system calls of the loop have done so far. */
  datatype World = World(
    conn: map<int, nat>,          // open client descriptors and the session each one carries
    sessions: seq<Session>,
    output: seq<Chunk>,           // chunks read from the master
    input: seq<Read>,             // chunks read from clients
    typed: seq<(nat, byte)>)      // bytes the master took, with the session each came from

  datatype Config = Config(listenfd: int, masterfd: int, header: seq<byte>)

  datatype State = State(clients: seq<int>, os: World, over: bool)

  /** One return from select(2) and what every later call of that pass will do. */
  datatype Env =
    | Interrupted
    | Events(readable: set<int>,
             accepted: Option<int>,
             greeting: seq<WriteResult>,
             clientRead: int -> ReadResult,
             masterWrite: int -> seq<WriteResult>,
             masterRead: ReadResult,
             clientWrite: int -> seq<WriteResult>)

  ghost predicate Descriptors(cfg: Config) {
    0 < cfg.masterfd < FD_SETSIZE && 0 < cfg.listenfd < FD_SETSIZE && cfg.masterfd != cfg.listenfd
  }

  ghost predicate ClientFd(cfg: Config, fd: int) {
    0 < fd < FD_SETSIZE && fd != cfg.listenfd && fd != cfg.masterfd
  }

  /** The slots and the open client descriptors are the same thing, without repetition. */
  ghost predicate Consistent(cfg: Config, s: State) {
    && |s.clients| == FD_SETSIZE
    && (forall i :: 0 <= i < |s.clients| && s.clients[i] != -1 ==>
          ClientFd(cfg, s.clients[i]) && s.clients[i] in s.os.conn)
    && (forall i, j :: 0 <= i < j < |s.clients| && s.clients[i] != -1 ==> s.clients[i] != s.clients[j])
    && (forall fd :: fd in s.os.conn ==> fd in s.clients && fd != -1 && s.os.conn[fd] < |s.os.sessions|)
    && (forall fd, gd :: fd in s.os.conn && gd in s.os.conn && fd != gd ==> s.os.conn[fd] != s.os.conn[gd])
  }

  /** The kernel never hands out a descriptor that is still open. */
  ghost predicate EnvOk(cfg: Config, s: State, env: Env) {
    env.Events? && env.accepted.Some? ==> ClientFd(cfg, env.accepted.value) && env.accepted.value !in s.os.conn
  }

  // ---------------------------------------------------------------- joining

  function FirstFree(clients: seq<int>): (i: nat)
    ensures i <= |clients|
    ensures i < |clients| ==> clients[i] < 0
    ensures forall j :: 0 <= j < i ==> clients[j] >= 0
  {
    if clients == [] || clients[0] < 0 then 0 else 1 + FirstFree(clients[1..])
  }

  ghost function Elements(s: seq<int>): set<int> {
    set x | x in s
  }

  lemma {:induction false} DistinctSize(s: seq<int>)
    requires forall i, j :: 0 <= i < j < |s| ==> s[i] != s[j]
    ensures |Elements(s)| == |s|
  {
    if s == [] {
    } else {
      var init, last := s[..|s| - 1], s[|s| - 1];
      DistinctSize(init);
      assert last !in init;
      assert Elements(s) == Elements(init) + {last};
    }
  }

  lemma {:induction false} PositivesBelow(n: nat, xs: set<int>)
    requires n > 0 && forall x :: x in xs ==> 0 < x < n
    ensures |xs| < n
    decreases n
  {
    if n > 1 {
      PositivesBelow(n - 1, xs - {n - 1});
    } else {
      assert forall x :: x in xs ==> 0 < x < 1;
      assert forall x :: x !in xs;
      assert xs == {};
    }
  }

  /** Pigeonhole: distinct descriptors in 1..FD_SETSIZE-1 cannot fill FD_SETSIZE slots. */
  lemma SlotAvailable(cfg: Config, s: State)
    requires Consistent(cfg, s)
    ensures FirstFree(s.clients) < |s.clients|
  {
    if forall i :: 0 <= i < |s.clients| ==> s.clients[i] >= 0 {
      DistinctSize(s.clients);
      PositivesBelow(FD_SETSIZE, Elements(s.clients));
    }
  }

  function Join(cfg: Config, s: State, fd: int, script: seq<WriteResult>): (t: State)
    requires Consistent(cfg, s) && ClientFd(cfg, fd) && fd !in s.os.conn
    ensures Consistent(cfg, t)
  {
    SlotAvailable(cfg, s);
    var greeted := Accepted(|cfg.header|, script);
    var session := Session(|s.os.output|, greeted, cfg.header[..greeted]);
    var t := State(s.clients[FirstFree(s.clients) := fd],
                   s.os.(conn := s.os.conn[fd := |s.os.sessions|], sessions := s.os.sessions + [session]),
                   s.over);
    assert t.clients[FirstFree(s.clients)] == fd;
    assert forall gd :: gd in s.clients && gd != -1 ==> gd in t.clients by {
      forall gd | gd in s.clients && gd != -1 ensures gd in t.clients {
        var i :| 0 <= i < |s.clients| && s.clients[i] == gd;
        assert gd > 0 && t.clients[i] == gd;
      }
    }
    t
  }

  function Admit(cfg: Config, s: State, env: Env): (t: State)
    requires Consistent(cfg, s) && EnvOk(cfg, s, env) && env.Events?
    ensures Consistent(cfg, t)
  {
    if cfg.listenfd in env.readable && env.accepted.Some?
    then Join(cfg, s, env.accepted.value, env.greeting)
    else s
  }

  // ---------------------------------------------------------------- clients to master

  function Drop(cfg: Config, s: State, i: nat): (t: State)
    requires Consistent(cfg, s) && i < |s.clients| && s.clients[i] > 0
    ensures Consistent(cfg, t)
  {
    var fd := s.clients[i];
    var t := s.(clients := s.clients[i := -1], os := s.os.(conn := s.os.conn - {fd}));
    assert forall gd :: gd in t.os.conn ==> gd in t.clients by {
      forall gd | gd in t.os.conn ensures gd in t.clients {
        var j :| 0 <= j < |s.clients| && s.clients[j] == gd;
        assert t.clients[j] == gd;
      }
    }
    t
  }

  function Tag(session: nat, bytes: seq<byte>): (r: seq<(nat, byte)>)
    ensures |r| == |bytes|
  {
    seq(|bytes|, i requires 0 <= i < |bytes| => (session, bytes[i]))
  }

  function Forward(cfg: Config, s: State, fd: int, bytes: Chunk, script: seq<WriteResult>): (t: State)
    requires Consistent(cfg, s) && fd in s.os.conn
    ensures Consistent(cfg, t)
  {
    var taken := Accepted(|bytes|, script);
    var session := s.os.conn[fd];
    s.(os := s.os.(input := s.os.input + [Read(session, bytes)],
                   typed := s.os.typed + Tag(session, bytes[..taken])),
       over := taken < |bytes|)
  }

  function Visit(cfg: Config, s: State, i: nat, env: Env, ready: set<int>): (t: State)
    requires Consistent(cfg, s) && i < |s.clients| && env.Events? && !s.over
    ensures Consistent(cfg, t)
  {
    var fd := s.clients[i];
    if fd > 0 && fd in ready then
      match env.clientRead(fd)
      case NoData(interrupted) => if interrupted then s else Drop(cfg, s, i)
      case Data(bytes) => Forward(cfg, s, fd, bytes, env.masterWrite(fd))
    else s
  }

  function VisitFrom(cfg: Config, s: State, i: nat, env: Env, ready: set<int>): (t: State)
    requires Consistent(cfg, s) && i <= |s.clients| && env.Events?
    ensures Consistent(cfg, t)
    decreases |s.clients| - i
  {
    if s.over || i == |s.clients| then s else VisitFrom(cfg, Visit(cfg, s, i, env, ready), i + 1, env, ready)
  }

  // ---------------------------------------------------------------- master to clients

  function Deliver(cfg: Config, s: State, i: nat, bytes: Chunk, env: Env): (t: State)
    requires Consistent(cfg, s) && i < |s.clients| && env.Events?
    ensures Consistent(cfg, t)
  {
    var fd := s.clients[i];
    if fd > 0 then
      var taken := Accepted(|bytes|, env.clientWrite(fd));
      var k := s.os.conn[fd];
      var session := s.os.sessions[k];
      var t := s.(os := s.os.(sessions := s.os.sessions[k := session.(sent := session.sent + bytes[..taken])]));
      if taken == |bytes| then t else Drop(cfg, t, i)
    else s
  }

  function BroadcastFrom(cfg: Config, s: State, i: nat, bytes: Chunk, env: Env): (t: State)
    requires Consistent(cfg, s) && i <= |s.clients| && env.Events?
    ensures Consistent(cfg, t)
    decreases |s.clients| - i
  {
    if i == |s.clients| then s else BroadcastFrom(cfg, Deliver(cfg, s, i, bytes, env), i + 1, bytes, env)
  }

  function ServeMaster(cfg: Config, s: State, env: Env): (t: State)
    requires Consistent(cfg, s) && env.Events?
    ensures Consistent(cfg, t)
  {
    if s.over || cfg.masterfd !in env.readable then s
    else match env.masterRead
      case NoData(interrupted) => s.(over := !interrupted)
      case Data(bytes) =>
        BroadcastFrom(cfg, s.(os := s.os.(output := s.os.output + [bytes])), 0, bytes, env)
  }

  // ---------------------------------------------------------------- passes and runs

  ghost function Watched(cfg: Config, s: State): set<int> {
    {cfg.listenfd, cfg.masterfd} + s.os.conn.Keys
  }

  ghost function Pass(cfg: Config, s: State, env: Env): (t: State)
    requires Consistent(cfg, s) && EnvOk(cfg, s, env)
    ensures Consistent(cfg, t)
  {
    if s.over || env.Interrupted? then s
    else ServeMaster(cfg, VisitFrom(cfg, Admit(cfg, s, env), 0, env, env.readable * Watched(cfg, s)), env)
  }

  ghost predicate EnvsOk(cfg: Config, s: State, envs: seq<Env>)
    requires Consistent(cfg, s)
    decreases |envs|
  {
    envs == [] || (EnvOk(cfg, s, envs[0]) && EnvsOk(cfg, Pass(cfg, s, envs[0]), envs[1..]))
  }

  ghost function Run(cfg: Config, s: State, envs: seq<Env>): (t: State)
    requires Consistent(cfg, s) && EnvsOk(cfg, s, envs)
    ensures Consistent(cfg, t)
    decreases |envs|
  {
    if envs == [] then s else Run(cfg, Pass(cfg, s, envs[0]), envs[1..])
  }

  const NOTHING_YET := World(map[], [], [], [], [])

  function Initial(cfg: Config): (s: State)
    ensures Consistent(cfg, s)
  {
    State(seq(FD_SETSIZE, _ => -1), NOTHING_YET, false)
  }
}
