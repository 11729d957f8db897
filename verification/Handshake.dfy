/** The start handshake: the forking parent, the container server it forks, and everybody else who
    rewrites the registry meanwhile, one step at a time, in any order. */
module Handshake {
  import opened Bytes
  import opened Registry
  import Lifecycle
  import Semaphore

  /** Which command is starting the container. */
  datatype Launch = ByRun(name: Option<string>, command: string, volumes: set<string>) | ByStart

  datatype ParentPc = Begin | Created | Zeroed | Initialised | Waiting | Passed

  /** The server between the fork and the end of the relay loop, in program order. */
  datatype ServerPc = NotForked | Forked | Cloned | Told | Socket | Bound | Listening | Pooled | Serving | Ended | Finished | Dead

  datatype State = State(
    parent: ParentPc,
    server: ServerPc,
    sem: nat,
    pid: int,                   // what ptyClone returned
    registry: seq<Record>,
    registered: bool,           // the start callback has written the registry
    bound: bool,
    listening: bool,
    pooled: bool)               // init_pool has run

  datatype Event =
    | ParentStep
    | ServerStep(pid: int, now: int, look: Look)
    | ServerDies                     // err_exit or a crash, at any point
    | Others(registry: seq<Record>)  // another process rewrites the registry

  /** The registry write of the start callback. */
  function Registered(rs: seq<Record>, id: string, launch: Launch, pid: int, now: int): seq<Record> {
    match launch
    case ByRun(name, command, volumes) => rs + [Lifecycle.NewRecord(name, id, pid, command, volumes, now)]
    case ByStart =>
      var i := IdIndex(rs, id);
      if i < |rs| then UpdateOf(rs, Lifecycle.StartOf(rs[i], pid, now)) else rs
  }

  function ParentDoes(s: State): State {
    match s.parent
    case Begin => s.(parent := Created)
    case Created => s.(parent := Zeroed, sem := 0)
    case Zeroed => (match Semaphore.SemOp(s.sem, 1) case Some(v) => s.(parent := Initialised, sem := v) case None => s)
    case Initialised => s.(parent := Waiting, server := Forked)
    case Waiting => (match Semaphore.SemOp(s.sem, 0) case Some(v) => s.(parent := Passed, sem := v) case None => s)
    case Passed => s
  }

  function ServerDoes(s: State, id: string, launch: Launch, pid: int, now: int, look: Look): State {
    match s.server
    case NotForked => s
    case Forked => s.(server := Cloned, pid := pid)
    case Cloned => s.(server := Told, registry := Registered(s.registry, id, launch, s.pid, now), registered := true)
    case Told => s.(server := Socket)
    case Socket => s.(server := Bound, bound := true)
    case Bound => s.(server := Listening, listening := true)
    case Listening => s.(server := Pooled, pooled := true)
    case Pooled => s.(server := Serving, sem := 0)
    case Serving => s.(server := Ended)
    case Ended =>
      if FirstMatch(s.registry, id) < |s.registry|
      then s.(server := Finished, registry := StopRecord(s.registry, id, look, now)) else s.(server := Dead)
    case Finished => s
    case Dead => s
  }

  function Step(s: State, id: string, launch: Launch, e: Event): State {
    match e
    case ParentStep => ParentDoes(s)
    case ServerStep(pid, now, look) => ServerDoes(s, id, launch, pid, now, look)
    case ServerDies => if s.server == NotForked || s.server == Finished then s else s.(server := Dead)
    case Others(registry) => s.(registry := registry)
  }

  /** The other processes leave this container's record alone. */
  ghost predicate LeavesAlone(rs: seq<Record>, t: seq<Record>, id: string) {
    var i, j := IdIndex(rs, id), IdIndex(t, id);
    if i < |rs| then j < |t| && t[j] == rs[i] else j == |t|
  }

  ghost predicate Fair(s: State, id: string, e: Event) {
    && (e.Others? ==> LeavesAlone(s.registry, e.registry, id))
    && (e.ServerStep? ==> e.pid > 0)
  }

  ghost predicate AllFair(s: State, id: string, launch: Launch, es: seq<Event>)
    decreases |es|
  {
    es == [] || (Fair(s, id, es[0]) && AllFair(Step(s, id, launch, es[0]), id, launch, es[1..]))
  }

  ghost function Run(s: State, id: string, launch: Launch, es: seq<Event>): State
    requires AllFair(s, id, launch, es)
    decreases |es|
  {
    if es == [] then s else Run(Step(s, id, launch, es[0]), id, launch, es[1..])
  }

  /** Before the callback: a new container has no record, a stopped one has its record. */
  ghost predicate Expected(rs: seq<Record>, id: string, launch: Launch) {
    if launch.ByRun? then IdIndex(rs, id) == |rs| else IdIndex(rs, id) < |rs|
  }

  ghost predicate ShownRunning(rs: seq<Record>, id: string, pid: int) {
    var i := IdIndex(rs, id);
    i < |rs| && rs[i].status == Running && rs[i].pid == pid
  }

  ghost predicate UpAndListening(s: State) {
    s.registered && s.bound && s.listening && s.pooled
  }

  function Rank(pc: ServerPc): nat {
    match pc
    case NotForked => 0 case Forked => 1 case Cloned => 2 case Told => 3 case Socket => 4 case Bound => 5
    case Listening => 6 case Pooled => 7 case Serving => 8 case Ended => 9 case Finished => 10 case Dead => 0
  }

  /** How far parent and server have got, and what the semaphore says about it. */
  ghost predicate Sequenced(s: State) {
    && (s.parent.Begin? || s.parent.Created? || s.parent.Zeroed? || s.parent.Initialised? ==>
          s.server == NotForked)
    && (s.parent.Initialised? ==> s.sem == 1)
    && (s.parent.Zeroed? ==> s.sem == 0)
    && (s.parent.Waiting? ==> s.sem == 1 || UpAndListening(s))
    && (s.parent.Passed? ==> UpAndListening(s))
    && (Rank(s.server) >= 3 ==> s.registered)
    && (Rank(s.server) >= 5 ==> s.bound)
    && (Rank(s.server) >= 6 ==> s.listening)
    && (Rank(s.server) >= 7 ==> s.pooled)
    && (Rank(s.server) >= 8 ==> s.sem == 0)
    && (0 < Rank(s.server) < 8 ==> s.sem == 1)
    && (s.server == NotForked || s.server == Forked || s.server == Cloned ==> !s.registered)
  }

  ghost predicate Recorded(s: State, id: string, launch: Launch) {
    && (!s.registered ==> Expected(s.registry, id, launch))
    && (s.registered && s.server != Finished ==> ShownRunning(s.registry, id, s.pid))
  }

  ghost predicate Inv(s: State, id: string, launch: Launch) {
    Sequenced(s) && Recorded(s, id, launch)
  }

  lemma AppendIndex(rs: seq<Record>, r: Record)
    requires IdIndex(rs, r.id) == |rs|
    ensures IdIndex(rs + [r], r.id) == |rs|
  {
    assert forall j :: 0 <= j < |rs| ==> (rs + [r])[j] == rs[j];
    assert (rs + [r])[|rs|] == r;
  }

  lemma CallbackRegisters(rs: seq<Record>, id: string, launch: Launch, pid: int, now: int)
    requires Expected(rs, id, launch)
    ensures ShownRunning(Registered(rs, id, launch, pid, now), id, pid)
    ensures launch.ByRun? ==>
              Registered(rs, id, launch, pid, now)
              == rs + [Record(id, if launch.name.Some? then launch.name.value else "", pid, launch.command, launch.volumes,
                              now, now, 0, Running, 1)]
    ensures launch.ByStart? ==>
              var i := IdIndex(rs, id);
              Registered(rs, id, launch, pid, now)
              == rs[i := Record(id, rs[i].name, pid, rs[i].command, rs[i].volumes, rs[i].created, now, 0, Running, 1)]
  {
    match launch {
      case ByRun(name, command, volumes) =>
        AppendIndex(rs, Lifecycle.NewRecord(name, id, pid, command, volumes, now));
      case ByStart =>
        var i := IdIndex(rs, id);
        var t := UpdateOf(rs, Lifecycle.StartOf(rs[i], pid, now));
        assert IdIndex(rs, rs[i].id) == i && t[i].id == id;
        assert forall j :: 0 <= j < i ==> t[j] == rs[j] && t[j].id != id;
    }
  }

  lemma StepKeepsInv(s: State, id: string, launch: Launch, e: Event)
    requires Inv(s, id, launch) && Fair(s, id, e)
    ensures Inv(Step(s, id, launch, e), id, launch)
  {
    match e {
      case ParentStep => ParentSequenced(s);
      case ServerStep(pid, now, look) => ServerKeepsInv(s, id, launch, pid, now, look);
      case ServerDies =>
      case Others(registry) =>
    }
  }

  lemma ParentSequenced(s: State)
    requires Sequenced(s)
    ensures Sequenced(ParentDoes(s))
  {
  }

  lemma ServerKeepsInv(s: State, id: string, launch: Launch, pid: int, now: int, look: Look)
    requires Inv(s, id, launch)
    ensures Inv(ServerDoes(s, id, launch, pid, now, look), id, launch)
  {
    ServerSequenced(s, id, launch, pid, now, look);
    if s.server.Cloned? {
      CallbackRegisters(s.registry, id, launch, s.pid, now);
    }
  }

  lemma ServerSequenced(s: State, id: string, launch: Launch, pid: int, now: int, look: Look)
    requires Sequenced(s)
    ensures Sequenced(ServerDoes(s, id, launch, pid, now, look))
  {
  }

  lemma {:induction false} RunKeepsInv(s: State, id: string, launch: Launch, es: seq<Event>)
    requires Inv(s, id, launch) && AllFair(s, id, launch, es)
    ensures Inv(Run(s, id, launch, es), id, launch)
    decreases |es|
  {
    if es == [] {
    } else {
      StepKeepsInv(s, id, launch, es[0]);
      RunKeepsInv(Step(s, id, launch, es[0]), id, launch, es[1..]);
    }
  }

  function Initially(rs: seq<Record>, garbage: nat): State {
    State(Begin, NotForked, garbage, 0, rs, false, false, false, false)
  }

  // ---------------------------------------------------------------- which process is recorded

  /** The process that the server's first step after the fork clones.  The fork is the parent's fourth
      step; parentSteps is how many it has made already. */
  function ClonedPid(es: seq<Event>, parentSteps: nat): Option<int> {
    if es == [] then None
    else match es[0]
      case ParentStep => ClonedPid(es[1..], parentSteps + 1)
      case ServerStep(pid, _, _) => if parentSteps >= 4 then Some(pid) else ClonedPid(es[1..], parentSteps)
      case _ => ClonedPid(es[1..], parentSteps)
  }

  function Stage(pc: ParentPc): nat {
    match pc
    case Begin => 0 case Created => 1 case Zeroed => 2 case Initialised => 3 case Waiting => 4 case Passed => 4
  }

  ghost predicate BeforeClone(s: State) {
    s.server == NotForked || s.server == Forked
  }

  /** The parent has made so many steps, and has forked with the fourth. */
  ghost predicate InStep(s: State, parentSteps: nat) {
    Stage(s.parent) == Min(parentSteps, 4) && (s.server == NotForked <==> Stage(s.parent) < 4)
  }

  lemma StepPid(s: State, id: string, launch: Launch, e: Event, parentSteps: nat)
    requires Sequenced(s) && InStep(s, parentSteps)
    ensures var t := Step(s, id, launch, e);
            && InStep(t, parentSteps + if e.ParentStep? then 1 else 0)
            && (!BeforeClone(s) ==> !BeforeClone(t) && t.pid == s.pid)
            && (s.server == Dead ==> t.server == Dead && t.registered == s.registered)
            && (BeforeClone(s) && e.ServerStep? && parentSteps >= 4 ==> !BeforeClone(t) && t.pid == e.pid)
            && (BeforeClone(s) && !(e.ServerStep? && parentSteps >= 4) ==> BeforeClone(t) || (t.server == Dead && !t.registered))
  {
  }

  /** The process recorded is the one that was cloned, for the rest of the run. */
  lemma {:induction false} RunKeepsPid(s: State, id: string, launch: Launch, es: seq<Event>, parentSteps: nat)
    requires Inv(s, id, launch) && AllFair(s, id, launch, es) && InStep(s, parentSteps)
    ensures var t := Run(s, id, launch, es);
            && (!BeforeClone(s) ==> t.pid == s.pid)
            && (s.server == Dead ==> t.registered == s.registered)
            && (BeforeClone(s) && t.registered ==> ClonedPid(es, parentSteps) == Some(t.pid))
    decreases |es|
  {
    if es == [] {
    } else {
      StepKeepsInv(s, id, launch, es[0]);
      StepPid(s, id, launch, es[0], parentSteps);
      RunKeepsPid(Step(s, id, launch, es[0]), id, launch, es[1..], parentSteps + if es[0].ParentStep? then 1 else 0);
    }
  }

  /** In every interleaving, even one in which the server dies somewhere: when the parent gets past
      zero(synchSem), the socket is bound and listening, the pool is initialised, and the container has
      been recorded as RUNNING with the process id that the server's clone returned; until the server's
      own orderly stop the registry still shows that. */
  lemma ParentWaitsForServer(rs: seq<Record>, garbage: nat, id: string, launch: Launch, es: seq<Event>)
    requires Expected(rs, id, launch) && AllFair(Initially(rs, garbage), id, launch, es)
    ensures var s := Run(Initially(rs, garbage), id, launch, es);
            s.parent == Passed ==> && s.bound && s.listening && s.pooled && s.registered
                                   && ClonedPid(es, 0).Some?
                                   && (s.server != Finished ==> ShownRunning(s.registry, id, ClonedPid(es, 0).value))
  {
    RunKeepsInv(Initially(rs, garbage), id, launch, es);
    RunKeepsPid(Initially(rs, garbage), id, launch, es, 0);
  }

  // ---------------------------------------------------------------- and the parent does get past

  /** In every interleaving, a waiting parent's next step passes once the server serves and not before,
      unless the server has died. */
  lemma ParentGetsPast(rs: seq<Record>, garbage: nat, id: string, launch: Launch, es: seq<Event>)
    requires Expected(rs, id, launch) && AllFair(Initially(rs, garbage), id, launch, es)
    ensures var s := Run(Initially(rs, garbage), id, launch, es);
            s.parent == Waiting && s.server != Dead ==>
              (Step(s, id, launch, ParentStep).parent == Passed
               <==> s.server == Serving || s.server == Ended || s.server == Finished)
  {
    RunKeepsInv(Initially(rs, garbage), id, launch, es);
  }

  /** Left to itself, a forked server is serving after seven steps. */
  lemma {:induction false} ServerGetsThere(s: State, id: string, launch: Launch, es: seq<Event>)
    requires 1 <= Rank(s.server) <= 8 && |es| == 8 - Rank(s.server)
    requires forall k :: 0 <= k < |es| ==> es[k].ServerStep? && es[k].pid > 0
    ensures AllFair(s, id, launch, es)
    ensures Run(s, id, launch, es).server == Serving && Run(s, id, launch, es).parent == s.parent
    decreases |es|
  {
    if es == [] {
    } else {
      ServerGetsThere(Step(s, id, launch, es[0]), id, launch, es[1..]);
    }
  }

  lemma {:induction false} RunConcat(s: State, id: string, launch: Launch, a: seq<Event>, b: seq<Event>)
    requires AllFair(s, id, launch, a) && AllFair(Run(s, id, launch, a), id, launch, b)
    ensures AllFair(s, id, launch, a + b)
    ensures Run(s, id, launch, a + b) == Run(Run(s, id, launch, a), id, launch, b)
    decreases |a|
  {
    if a == [] {
      assert a + b == b;
    } else {
      assert (a + b)[1..] == a[1..] + b;
      RunConcat(Step(s, id, launch, a[0]), id, launch, a[1..], b);
    }
  }

  /** The parent's first four steps: create, zero and raise the semaphore, fork. */
  lemma ParentForks(rs: seq<Record>, garbage: nat, id: string, launch: Launch)
    ensures var four := [ParentStep, ParentStep, ParentStep, ParentStep];
            && AllFair(Initially(rs, garbage), id, launch, four)
            && var s := Run(Initially(rs, garbage), id, launch, four);
               s.parent == Waiting && s.server == Forked
  {
    var s0 := Initially(rs, garbage);
    var s1 := Step(s0, id, launch, ParentStep);
    var s2 := Step(s1, id, launch, ParentStep);
    var s3 := Step(s2, id, launch, ParentStep);
    OneMore(s3, id, launch, []);
    OneMore(s2, id, launch, [ParentStep]);
    OneMore(s1, id, launch, [ParentStep, ParentStep]);
    OneMore(s0, id, launch, [ParentStep, ParentStep, ParentStep]);
  }

  lemma OneMore(s: State, id: string, launch: Launch, es: seq<Event>)
    requires AllFair(Step(s, id, launch, ParentStep), id, launch, es)
    ensures AllFair(s, id, launch, [ParentStep] + es)
    ensures Run(s, id, launch, [ParentStep] + es) == Run(Step(s, id, launch, ParentStep), id, launch, es)
  {
    assert ([ParentStep] + es)[1..] == es;
  }

  /** So the straight run ends the wait: four steps of the parent, seven of the server, one of the
      parent. */
  lemma StraightRunPasses(rs: seq<Record>, garbage: nat, id: string, launch: Launch, es: seq<Event>)
    requires Expected(rs, id, launch) && |es| == 7 && forall k :: 0 <= k < |es| ==> es[k].ServerStep? && es[k].pid > 0
    ensures var all := [ParentStep, ParentStep, ParentStep, ParentStep] + es + [ParentStep];
            && AllFair(Initially(rs, garbage), id, launch, all)
            && Run(Initially(rs, garbage), id, launch, all).parent == Passed
  {
    var s := Initially(rs, garbage);
    var four := [ParentStep, ParentStep, ParentStep, ParentStep];
    ParentForks(rs, garbage, id, launch);
    ServerGetsThere(Run(s, id, launch, four), id, launch, es);
    RunConcat(s, id, launch, four, es);
    ParentGetsPast(rs, garbage, id, launch, four + es);
    var t := Run(s, id, launch, four + es);
    OneMore(t, id, launch, []);
    assert [ParentStep] + [] == [ParentStep];
    RunConcat(s, id, launch, four + es, [ParentStep]);
  }

  /** A server that ends in order leaves its container recorded as stopped, when no earlier container is
      named after its id. */
  lemma ServerRecordsEnd(s: State, id: string, launch: Launch, pid: int, now: int, look: Look)
    requires s.server == Ended && Lifecycle.Distinct(s.registry)
    requires IdIndex(s.registry, id) < |s.registry| && FirstMatch(s.registry, id) == IdIndex(s.registry, id)
    ensures var t := Step(s, id, launch, ServerStep(pid, now, look));
            var i := IdIndex(s.registry, id);
            && t.server == Finished && |t.registry| == |s.registry|
            && t.registry[i].status == Stopped && t.registry[i].pid == 0 && t.registry[i].stopped == now
            && forall j :: 0 <= j < |t.registry| && j != i ==> t.registry[j] == s.registry[j]
  {
    Lifecycle.StopAt(s.registry, id, look, now);
  }
}
