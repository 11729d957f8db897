/** The commands, the container server and the supervisor, as steps on the registry. */
module Lifecycle {
  import opened Bytes
  import opened Registry

  /** The orderly stop of a server whose container ends while somebody waits for it. */
  datatype Exit = Exit(look: Look, now: int)

  /** One step and what the system answers during it.  Every lookup has a look of its own, so that
      processes may die and be killed between two of them.  pid is the process a start creates,
      removed whether the container's files could be removed, exit whether the server of a container
      that rm kills records its end before rm goes on. */
  datatype Step =
    | Run(name: Option<string>, id: string, pid: int, command: string, volumes: set<string>, now: int)
    | Start(key: string, pid: int, look: Look, now: int)
    | ServerStop(key: string, look: Look, now: int)
    | Query(key: string, look: Look)
    | Remove(key: string, force: bool, removed: bool, look: Look, again: Look, exit: Option<Exit>, last: Look)
    | Restart(id: string, pid: int, alive: set<int>, stop: Exit, look: Look, now: int)

  // ---------------------------------------------------------------- what each step does

  /** The name that is stored: empty when none was given. */
  function Stored(name: Option<string>): string {
    if name.Some? then name.value else ""
  }

  function NewRecord(name: Option<string>, id: string, pid: int, command: string, volumes: set<string>, now: int): Record {
    Record(id, Stored(name), pid, command, volumes, now, now, 0, Running, 1)
  }

  predicate Refused(rs: seq<Record>, name: Option<string>) {
    name.Some? && exists i :: 0 <= i < |rs| && rs[i].name == name.value
  }

  /** A container that runs again: the new process, no stop time, stopped abnormally until it says
      otherwise. */
  function StartOf(r: Record, pid: int, now: int): (t: Record)
    ensures t == Record(r.id, r.name, pid, r.command, r.volumes, r.created, now, 0, Running, 1)
  {
    Pack(r).(pid := pid, started := now, status := Running, abnormal := 1)
  }

  function StartStep(rs: seq<Record>, key: string, pid: int, look: Look, now: int): (t: seq<Record>)
    ensures SameIds(rs, t)
  {
    var looked := Reconciled(rs, key, look);
    var i := FirstMatch(rs, key);
    if i == |rs| || looked[i].status == Running then looked
    else UpdateOf(looked, StartOf(looked[i], pid, now))
  }

  /** ContainerService::stop: a lookup, the signals, and what the server of the container does if it
      ends during the wait. */
  function KillStep(rs: seq<Record>, key: string, look: Look, exit: Option<Exit>): (t: seq<Record>)
    ensures SameIds(rs, t)
  {
    var looked := Reconciled(rs, key, look);
    var i := FirstMatch(rs, key);
    if i == |rs| || looked[i].status != Running || exit.None? then looked
    else
      assert Matches(looked[i], looked[i].id);
      StopRecord(looked, looked[i].id, exit.value.look, exit.value.now)
  }

  /** rm deletes only what its first lookup shows stopped, unless forced, and only after the files. */
  predicate GoesThrough(r: Record, force: bool, removed: bool, look: Look) {
    removed && (force || Reconcile(r, look).status == Stopped)
  }

  /** rm up to its last lookup. */
  function RemovePrepared(rs: seq<Record>, key: string, force: bool, look: Look, again: Look, exit: Option<Exit>): (t: seq<Record>)
    ensures SameIds(rs, t)
  {
    var looked := Reconciled(rs, key, look);
    var i := FirstMatch(rs, key);
    if i < |rs| && looked[i].status == Running && force then KillStep(looked, key, again, exit) else looked
  }

  function RemoveStep(rs: seq<Record>, step: Step): seq<Record>
    requires step.Remove?
  {
    var t := RemovePrepared(rs, step.key, step.force, step.look, step.again, step.exit);
    var i := FirstMatch(rs, step.key);
    if i == |rs| || !GoesThrough(rs[i], step.force, step.removed, step.look) then t
    else
      assert Matches(t[i], rs[i].id);
      DeleteRecord(t, rs[i].id, step.last)
  }

  function RestartStep(rs: seq<Record>, step: Step): (t: seq<Record>)
    requires step.Restart? && IdIndex(rs, step.id) < |rs|
    ensures SameIds(rs, t)
  {
    var r := rs[IdIndex(rs, step.id)];
    assert Matches(r, step.id);
    if r.status != Running || r.pid in step.alive then rs
    else StartStep(StopRecord(rs, step.id, step.stop.look, step.stop.now), step.id, step.pid, step.look, step.now)
  }

  function Apply(rs: seq<Record>, step: Step): seq<Record>
    requires step.ServerStop? ==> FirstMatch(rs, step.key) < |rs|
    requires step.Restart? ==> IdIndex(rs, step.id) < |rs|
  {
    match step
    case Run(name, id, pid, command, volumes, now) =>
      if Refused(rs, name) then rs else rs + [NewRecord(name, id, pid, command, volumes, now)]
    case Start(key, pid, look, now) => StartStep(rs, key, pid, look, now)
    case ServerStop(key, look, now) => StopRecord(rs, key, look, now)
    case Query(key, look) => Reconciled(rs, key, look)
    case Remove(_, _, _, _, _, _, _) => RemoveStep(rs, step)
    case Restart(_, _, _, _, _, _) => RestartStep(rs, step)
  }

  /** New ids are fresh, processes have non-zero ids, and the server and the supervisor work on a
      container that is there. */
  ghost predicate Possible(rs: seq<Record>, step: Step) {
    match step
    case Run(_, id, pid, _, _, _) => pid != 0 && forall i :: 0 <= i < |rs| ==> rs[i].id != id
    case Start(_, pid, _, _) => pid != 0
    case ServerStop(key, _, _) => FirstMatch(rs, key) < |rs|
    case Restart(id, pid, _, _, _, _) => pid != 0 && IdIndex(rs, id) < |rs|
    case _ => true
  }

  ghost predicate AllPossible(rs: seq<Record>, steps: seq<Step>)
    decreases |steps|
  {
    steps == [] || (Possible(rs, steps[0]) && AllPossible(Apply(rs, steps[0]), steps[1..]))
  }

  ghost function ApplyAll(rs: seq<Record>, steps: seq<Step>): seq<Record>
    requires AllPossible(rs, steps)
    decreases |steps|
  {
    if steps == [] then rs else ApplyAll(Apply(rs, steps[0]), steps[1..])
  }

  // ---------------------------------------------------------------- what a registry keeps

  /** RUNNING means a process id and abnormal_stoped.  What is rewritten loses its times: a running
      container has no stop time, one that was stopped in order has no start time. */
  ghost predicate Sound(r: Record) {
    && (r.status == Running <==> r.pid != 0)
    && (r.status == Running ==> r.abnormal == 1 && r.stopped == 0)
    && (r.abnormal == 0 ==> r.started == 0)
  }

  ghost predicate Distinct(rs: seq<Record>) {
    forall i, j :: 0 <= i < j < |rs| ==> rs[i].id != rs[j].id && (rs[i].name != "" ==> rs[i].name != rs[j].name)
  }

  ghost predicate Inv(rs: seq<Record>) {
    Distinct(rs) && forall i :: 0 <= i < |rs| ==> Sound(rs[i])
  }

  /** What no step ever changes about a container. */
  ghost predicate SameContainer(a: Record, b: Record) {
    a.id == b.id && a.name == b.name && a.command == b.command && a.volumes == b.volumes && a.created == b.created
  }

  /** The same containers in the same order, none of them made unsound. */
  ghost predicate Evolves(rs: seq<Record>, t: seq<Record>) {
    |t| == |rs| && forall j :: 0 <= j < |rs| ==> SameContainer(rs[j], t[j]) && (Sound(rs[j]) ==> Sound(t[j]))
  }

  function Cut<T>(s: seq<T>, k: nat): (t: seq<T>)
    requires k < |s|
    ensures |t| == |s| - 1
    ensures forall j :: 0 <= j < |t| ==> t[j] == s[if j < k then j else j + 1]
  {
    s[..k] + s[k + 1..]
  }

  lemma EvolvesKeeps(rs: seq<Record>, t: seq<Record>, key: string)
    requires Evolves(rs, t)
    ensures FirstMatch(t, key) == FirstMatch(rs, key) && IdIndex(t, key) == IdIndex(rs, key)
    ensures (Distinct(rs) ==> Distinct(t)) && (Inv(rs) ==> Inv(t))
  {
    assert forall j :: 0 <= j < |rs| ==> Matches(t[j], key) == Matches(rs[j], key);
  }

  lemma EvolvesOn(rs: seq<Record>, t: seq<Record>, u: seq<Record>)
    requires Evolves(rs, t) && Evolves(t, u)
    ensures Evolves(rs, u)
  {
    forall j | 0 <= j < |rs| ensures SameContainer(rs[j], u[j]) && (Sound(rs[j]) ==> Sound(u[j])) {
      assert SameContainer(rs[j], t[j]) && SameContainer(t[j], u[j]);
    }
  }

  lemma CutKeeps(rs: seq<Record>, k: nat)
    requires k < |rs|
    ensures (Distinct(rs) ==> Distinct(Cut(rs, k))) && (Inv(rs) ==> Inv(Cut(rs, k)))
  {
  }

  // ---------------------------------------------------------------- where each operation writes

  lemma LookupAt(rs: seq<Record>, key: string, look: Look)
    ensures Evolves(rs, Reconciled(rs, key, look))
  {
  }

  lemma UpdateAt(rs: seq<Record>, i: nat, r: Record)
    requires Distinct(rs) && i < |rs| && r.id == rs[i].id
    ensures UpdateOf(rs, r) == rs[i := r]
  {
    assert IdIndex(rs, r.id) == i;
  }

  lemma ReplaceAt(rs: seq<Record>, i: nat, between: Record, r: Record)
    requires i < |rs|
    ensures rs[i := between][i := r] == rs[i := r]
    ensures SameContainer(rs[i], r) && (Sound(rs[i]) ==> Sound(r)) ==> Evolves(rs, rs[i := r])
  {
  }

  /** An orderly stop rewrites the first record that matches, and nothing else. */
  lemma StopAt(rs: seq<Record>, key: string, look: Look, now: int)
    requires Distinct(rs) && FirstMatch(rs, key) < |rs|
    ensures var i := FirstMatch(rs, key);
            var t := StopRecord(rs, key, look, now);
            t == rs[i := StopOf(rs[i], now)] && Evolves(rs, t)
  {
    var i := FirstMatch(rs, key);
    var looked := Reconciled(rs, key, look);
    LookupAt(rs, key, look);
    EvolvesKeeps(rs, looked, key);
    UpdateAt(looked, i, StopOf(rs[i], now));
    ReplaceAt(rs, i, Reconcile(rs[i], look), StopOf(rs[i], now));
  }

  /** A start rewrites the first record that matches unless it is running, and nothing else. */
  lemma StartAt(rs: seq<Record>, key: string, pid: int, look: Look, now: int)
    requires Distinct(rs)
    ensures var i := FirstMatch(rs, key);
            var t := StartStep(rs, key, pid, look, now);
            && (i == |rs| ==> t == rs)
            && (i < |rs| ==> t == rs[i := if rs[i].status == Running && rs[i].pid in look.alive then rs[i]
                                          else StartOf(rs[i], pid, now)])
            && (pid != 0 ==> Evolves(rs, t))
  {
    var i := FirstMatch(rs, key);
    var looked := Reconciled(rs, key, look);
    LookupAt(rs, key, look);
    EvolvesKeeps(rs, looked, key);
    if i < |rs| && looked[i].status != Running {
      UpdateAt(looked, i, StartOf(rs[i], pid, now));
      ReplaceAt(rs, i, Reconcile(rs[i], look), StartOf(rs[i], pid, now));
    }
  }

  /** A restart rewrites the first record that the id matches if the container's process is gone. */
  lemma RestartAt(rs: seq<Record>, step: Step)
    requires Distinct(rs) && step.Restart? && IdIndex(rs, step.id) < |rs|
    ensures var r := rs[IdIndex(rs, step.id)];
            var f := FirstMatch(rs, step.id);
            var t := RestartStep(rs, step);
            && f < |rs|
            && t == (if r.status == Running && r.pid !in step.alive then rs[f := StartOf(rs[f], step.pid, step.now)] else rs)
            && (step.pid != 0 ==> Evolves(rs, t))
  {
    assert Matches(rs[IdIndex(rs, step.id)], step.id);
    var f := FirstMatch(rs, step.id);
    var m := StopRecord(rs, step.id, step.stop.look, step.stop.now);
    StopAt(rs, step.id, step.stop.look, step.stop.now);
    EvolvesKeeps(rs, m, step.id);
    StartAt(m, step.id, step.pid, step.look, step.now);
    ReplaceAt(rs, f, m[f], StartOf(rs[f], step.pid, step.now));
  }

  /** ContainerService::stop leaves a stopped container alone and marks one whose process is gone.  When
      it kills one and the server records the end, the record that the container's id finds becomes the
      stopped one. */
  lemma KillAt(rs: seq<Record>, key: string, look: Look, exit: Option<Exit>)
    requires Distinct(rs) && FirstMatch(rs, key) < |rs|
    ensures var i := FirstMatch(rs, key);
            var k := FirstMatch(rs, rs[i].id);
            var t := KillStep(rs, key, look, exit);
            && k <= i && Evolves(rs, t)
            && (forall j :: 0 <= j < |rs| && j != i && j != k ==> t[j] == rs[j])
            && (rs[i].status == Stopped ==> t == rs)
            && (rs[i].status == Running && rs[i].pid in look.alive ==>
                  t == if exit.Some? then rs[k := StopOf(rs[k], exit.value.now)] else rs)
            && (rs[i].status == Running && rs[i].pid !in look.alive ==>
                  t == rs[i := rs[i].(status := Stopped, pid := 0, stopped := look.now)])
  {
    var i := FirstMatch(rs, key);
    var looked := Reconciled(rs, key, look);
    LookupAt(rs, key, look);
    LookupMarks(rs, key, look);
    EvolvesKeeps(rs, looked, rs[i].id);
    assert Matches(rs[i], rs[i].id);
    if looked[i].status == Running && exit.Some? {
      StopAt(looked, rs[i].id, exit.value.look, exit.value.now);
      EvolvesOn(rs, looked, KillStep(rs, key, look, exit));
    }
  }

  lemma PreparedAt(rs: seq<Record>, key: string, force: bool, look: Look, again: Look, exit: Option<Exit>)
    requires Distinct(rs) && FirstMatch(rs, key) < |rs|
    ensures var i := FirstMatch(rs, key);
            var k := FirstMatch(rs, rs[i].id);
            var t := RemovePrepared(rs, key, force, look, again, exit);
            && k <= i && Evolves(rs, t)
            && forall j :: 0 <= j < |rs| && j != i && j != k ==> t[j] == rs[j]
  {
    var i := FirstMatch(rs, key);
    var looked := Reconciled(rs, key, look);
    LookupAt(rs, key, look);
    EvolvesKeeps(rs, looked, key);
    EvolvesKeeps(rs, looked, rs[i].id);
    assert Matches(rs[i], rs[i].id);
    if looked[i].status == Running && force {
      KillAt(looked, key, again, exit);
      EvolvesOn(rs, looked, KillStep(looked, key, again, exit));
    }
  }

  lemma {:induction false} WithoutNone(rs: seq<Record>, id: string)
    requires forall i :: 0 <= i < |rs| ==> rs[i].id != id
    ensures Without(rs, id) == rs
  {
    if rs == [] {
    } else {
      WithoutNone(rs[1..], id);
    }
  }

  /** With distinct ids, removing an id removes its one record and keeps the order of the rest. */
  lemma {:induction false} WithoutOne(rs: seq<Record>, i: nat)
    requires Distinct(rs) && i < |rs|
    ensures Without(rs, rs[i].id) == Cut(rs, i)
  {
    if i == 0 {
      WithoutNone(rs[1..], rs[0].id);
    } else {
      WithoutOne(rs[1..], i - 1);
      assert rs[1..][i - 1] == rs[i];
      assert Cut(rs, i) == [rs[0]] + Cut(rs[1..], i - 1);
    }
  }

  lemma DeleteAt(rs: seq<Record>, key: string, look: Look)
    requires Distinct(rs) && FirstMatch(rs, key) < |rs|
    ensures DeleteRecord(rs, key, look) == Cut(rs, FirstMatch(rs, key))
  {
    var i := FirstMatch(rs, key);
    var looked := Reconciled(rs, key, look);
    LookupAt(rs, key, look);
    EvolvesKeeps(rs, looked, key);
    WithoutOne(looked, i);
    assert Cut(looked, i) == Cut(rs, i);
  }

  /** rm that goes through takes out one record: the one that the id of the first record found finds. */
  lemma RemoveAt(rs: seq<Record>, step: Step)
    requires Distinct(rs) && step.Remove? && FirstMatch(rs, step.key) < |rs|
    ensures var i := FirstMatch(rs, step.key);
            var k := FirstMatch(rs, rs[i].id);
            var u := RemovePrepared(rs, step.key, step.force, step.look, step.again, step.exit);
            && k <= i && |u| == |rs|
            && RemoveStep(rs, step)
               == if step.removed && (step.force || rs[i].status == Stopped || rs[i].pid !in step.look.alive)
                  then Cut(u, k) else u
  {
    var i := FirstMatch(rs, step.key);
    var u := RemovePrepared(rs, step.key, step.force, step.look, step.again, step.exit);
    PreparedAt(rs, step.key, step.force, step.look, step.again, step.exit);
    EvolvesKeeps(rs, u, rs[i].id);
    DeleteAt(u, rs[i].id, step.last);
  }

  /** What rm leaves when the files cannot be removed: what its lookups and, with force on a live
      container, ContainerService::stop left. */
  lemma RemoveKeeps(rs: seq<Record>, step: Step)
    requires step.Remove? && !step.removed && FirstMatch(rs, step.key) < |rs|
    ensures var r := rs[FirstMatch(rs, step.key)];
            RemoveStep(rs, step) == if step.force && r.status == Running && r.pid in step.look.alive
                                    then KillStep(rs, step.key, step.again, step.exit)
                                    else Reconciled(rs, step.key, step.look)
  {
    LookupMarks(rs, step.key, step.look);
  }

  /** Without force, rm leaves a running container whose process is alive, and everything else. */
  lemma RemoveRefuses(rs: seq<Record>, step: Step)
    requires step.Remove? && !step.force && FirstMatch(rs, step.key) < |rs|
    requires var r := rs[FirstMatch(rs, step.key)]; r.status == Running && r.pid in step.look.alive
    ensures RemoveStep(rs, step) == rs
  {
    LookupMarks(rs, step.key, step.look);
  }

  /** A query marks a running container whose process is gone, and does nothing else. */
  lemma QueryMarks(rs: seq<Record>, key: string, look: Look)
    ensures var i := FirstMatch(rs, key);
            Apply(rs, Query(key, look))
            == if i < |rs| && rs[i].status == Running && rs[i].pid !in look.alive
               then rs[i := rs[i].(status := Stopped, pid := 0, stopped := look.now)] else rs
  {
    LookupMarks(rs, key, look);
  }

  /** run refuses a name that some container bears; otherwise it appends the container that was asked for,
      as running, with the same creation and start time. */
  lemma RunStores(rs: seq<Record>, step: Step)
    requires step.Run?
    ensures Apply(rs, step)
            == if step.name.Some? && exists i :: 0 <= i < |rs| && rs[i].name == step.name.value then rs
               else rs + [Record(step.id, if step.name.Some? then step.name.value else "", step.pid, step.command,
                                 step.volumes, step.now, step.now, 0, Running, 1)]
  {
  }

  // ---------------------------------------------------------------- every step and every history

  /** A step that is no run keeps the containers and their order, or takes one of them out. */
  lemma StepShape(rs: seq<Record>, step: Step) returns (u: seq<Record>)
    requires Distinct(rs) && Possible(rs, step) && !step.Run?
    ensures Evolves(rs, u)
    ensures Apply(rs, step) == u || (step.Remove? && exists k :: 0 <= k < |u| && Apply(rs, step) == Cut(u, k))
  {
    u := Apply(rs, step);
    match step {
      case Start(key, pid, look, now) => StartAt(rs, key, pid, look, now);
      case ServerStop(key, look, now) => StopAt(rs, key, look, now);
      case Query(key, look) => LookupAt(rs, key, look);
      case Remove(key, force, removed, look, again, exit, last) =>
        if FirstMatch(rs, key) < |rs| {
          u := RemovePrepared(rs, key, force, look, again, exit);
          PreparedAt(rs, key, force, look, again, exit);
          RemoveAt(rs, step);
        }
      case Restart(id, pid, alive, stop, look, now) => RestartAt(rs, step);
    }
  }

  lemma StepKeepsInv(rs: seq<Record>, step: Step)
    requires Inv(rs) && Possible(rs, step)
    ensures Inv(Apply(rs, step))
  {
    if !step.Run? {
      var u := StepShape(rs, step);
      EvolvesKeeps(rs, u, "");
      if Apply(rs, step) != u {
        var k :| 0 <= k < |u| && Apply(rs, step) == Cut(u, k);
        CutKeeps(u, k);
      }
    }
  }

  /** Every history of commands, server exits and supervisor restarts keeps ids unique, names unique,
      RUNNING meaning a process id and abnormal_stoped, and start and stop times lost on rewriting. */
  lemma {:induction false} HistoryKeepsInv(rs: seq<Record>, steps: seq<Step>)
    requires Inv(rs) && AllPossible(rs, steps)
    ensures Inv(ApplyAll(rs, steps))
    decreases |steps|
  {
    if steps == [] {
    } else {
      StepKeepsInv(rs, steps[0]);
      HistoryKeepsInv(Apply(rs, steps[0]), steps[1..]);
    }
  }

  // ---------------------------------------------------------------- the commands themselves

  /** hoststack run: the name check and the insert in the start callback. */
  method RunContainer(store: Store, name: Option<string>, id: string, pid: int, command: string, volumes: set<string>, now: int)
    modifies store
    ensures store.records == Apply(old(store.records), Run(name, id, pid, command, volumes, now))
  {
    if name.Some? {
      var found := store.GetByName(name.value);
      if found.Some? {
        return;
      }
    }
    store.Insert(Record(id, if name.Some? then name.value else "", pid, command, volumes, now, now, 0, Running, 1));
  }

  /** hoststack start: lookup, refusal, and the update in the start callback. */
  method StartContainer(store: Store, key: string, pid: int, look: Look, now: int)
    modifies store
    ensures store.records == Apply(old(store.records), Start(key, pid, look, now))
  {
    var info := store.GetByIdOrName(key, look);
    if info.None? || info.value.status == Running {
      return;
    }
    store.Update(info.value.(pid := pid, started := now, status := Running, abnormal := 1));
  }

  /** ContainerService::stop, with the orderly stop that the killed container's server may perform. */
  method StopContainer(store: Store, key: string, look: Look, exit: Option<Exit>)
    modifies store
    ensures store.records == KillStep(old(store.records), key, look, exit)
  {
    var info := store.GetByIdOrName(key, look);
    if info.None? || info.value.status != Running {
      return;
    }
    assert Matches(store.records[FirstMatch(old(store.records), key)], info.value.id);
    if exit.Some? {
      store.ChangeStatusToStop(info.value.id, exit.value.look, exit.value.now);
    }
  }

  /** hoststack rm */
  method RemoveContainer(store: Store, key: string, force: bool, removed: bool, look: Look, again: Look, exit: Option<Exit>, last: Look)
    modifies store
    ensures store.records == Apply(old(store.records), Remove(key, force, removed, look, again, exit, last))
  {
    var info := store.GetByIdOrName(key, look);
    if info.None? {
      return;
    }
    if info.value.status == Running {
      if force {
        StopContainer(store, key, again, exit);
      } else {
        return;
      }
    }
    ghost var rs, u := old(store.records), store.records;
    assert u == RemovePrepared(rs, key, force, look, again, exit);
    if !removed {
      return;
    }
    assert Matches(u[FirstMatch(rs, key)], info.value.id);
    store.DeleteById(info.value.id, last);
  }

  /** The supervisor's recheck of one container. */
  method CheckAndRestart(store: Store, id: string, pid: int, alive: set<int>, stop: Exit, look: Look, now: int)
    requires IdIndex(store.records, id) < |store.records|
    modifies store
    ensures store.records == Apply(old(store.records), Restart(id, pid, alive, stop, look, now))
  {
    var info := store.GetById(id);
    if info.value.status == Running {
      if info.value.pid !in alive {
        assert Matches(store.records[IdIndex(store.records, id)], id);
        store.ChangeStatusToStop(info.value.id, stop.look, stop.now);
        StartContainer(store, info.value.id, pid, look, now);
      }
    }
  }
}
