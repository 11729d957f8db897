/** Whole histories of the registry: what keeps every container reachable, whom each step touches, and
    what becomes of the times. */
module LifecycleHistory {
  import opened Bytes
  import opened Registry
  import opened Lifecycle
  import opened Naming

  // ---------------------------------------------------------------- fresh ids are never shadowed

  ghost predicate NoIdShadowed(rs: seq<Record>) {
    forall i, j :: 0 <= j < i < |rs| ==> rs[j].name != rs[i].id
  }

  /** The id a run generates is nobody's name yet. */
  ghost predicate FreshId(rs: seq<Record>, step: Step) {
    step.Run? && !Refused(rs, step.name) ==> forall i :: 0 <= i < |rs| ==> rs[i].name != step.id
  }

  ghost predicate AllFresh(rs: seq<Record>, steps: seq<Step>)
    requires AllPossible(rs, steps)
    decreases |steps|
  {
    steps == [] || (FreshId(rs, steps[0]) && AllFresh(Apply(rs, steps[0]), steps[1..]))
  }

  lemma StepKeepsUnshadowed(rs: seq<Record>, step: Step)
    requires Distinct(rs) && Possible(rs, step) && NoIdShadowed(rs)
    ensures NoIdShadowed(Apply(rs, step)) <==> FreshId(rs, step)
  {
    var t := Apply(rs, step);
    if step.Run? {
      assert !Refused(rs, step.name) ==> t[|rs|].id == step.id && forall i :: 0 <= i < |rs| ==> t[i] == rs[i];
    } else {
      var u := StepShape(rs, step);
      assert NoIdShadowed(u) by {
        assert forall i :: 0 <= i < |rs| ==> SameContainer(rs[i], u[i]);
      }
    }
  }

  lemma {:induction false} FreshHistory(rs: seq<Record>, steps: seq<Step>)
    requires Inv(rs) && NoIdShadowed(rs) && AllPossible(rs, steps) && AllFresh(rs, steps)
    ensures Inv(ApplyAll(rs, steps)) && NoIdShadowed(ApplyAll(rs, steps))
    decreases |steps|
  {
    if steps == [] {
    } else {
      StepKeepsInv(rs, steps[0]);
      StepKeepsUnshadowed(rs, steps[0]);
      FreshHistory(Apply(rs, steps[0]), steps[1..]);
    }
  }

  /** After any history in which generated ids are nobody's name: an id always reaches its container,
      and rm by name goes wrong in one case only, a name that is an earlier container's id. */
  lemma ReachableRemove(steps: seq<Step>, i: nat, step: Step)
    requires AllPossible([], steps) && AllFresh([], steps) && i < |ApplyAll([], steps)|
    requires var r := ApplyAll([], steps)[i];
             step.Remove? && (step.key == r.id || step.key == r.name != "")
    ensures var rs := ApplyAll([], steps);
            var t := Apply(rs, step);
            && (Gone(t, rs[i].id) <==> && step.removed
                                       && (step.force || rs[i].status == Stopped || rs[i].pid !in step.look.alive)
                                       && (step.key == rs[i].id || !NameShadowed(rs, i)))
            && (Gone(t, rs[i].id) ==> t == Cut(rs, i))
  {
    FreshHistory([], steps);
    UnshadowedRemove(ApplyAll([], steps), i, step);
  }

  lemma UnshadowedRemove(rs: seq<Record>, i: nat, step: Step)
    requires Inv(rs) && NoIdShadowed(rs) && i < |rs|
    requires step.Remove? && (step.key == rs[i].id || step.key == rs[i].name != "")
    ensures var t := Apply(rs, step);
            && (Gone(t, rs[i].id) <==> && step.removed
                                       && (step.force || rs[i].status == Stopped || rs[i].pid !in step.look.alive)
                                       && (step.key == rs[i].id || !NameShadowed(rs, i)))
            && (Gone(t, rs[i].id) ==> t == Cut(rs, i))
  {
    assert !IdShadowed(rs, i);
    if step.key == rs[i].id {
      RemoveById(rs, i, step);
    } else {
      RemoveByName(rs, i, step);
    }
  }

  /** After any such history a server's orderly stop reaches its own container and no other. */
  lemma ReachableStop(steps: seq<Step>, i: nat, look: Look, now: int)
    requires AllPossible([], steps) && AllFresh([], steps) && i < |ApplyAll([], steps)|
    ensures var rs := ApplyAll([], steps);
            var stop := ServerStop(rs[i].id, look, now);
            Possible(rs, stop) && Apply(rs, stop) == rs[i := StopOf(rs[i], now)]
  {
    FreshHistory([], steps);
    UnshadowedStop(ApplyAll([], steps), i, look, now);
  }

  /** So does the supervisor's restart. */
  lemma ReachableRestart(steps: seq<Step>, i: nat, restart: Step)
    requires AllPossible([], steps) && AllFresh([], steps) && i < |ApplyAll([], steps)|
    requires restart.Restart? && restart.id == ApplyAll([], steps)[i].id
    ensures var rs := ApplyAll([], steps);
            && IdIndex(rs, restart.id) == i
            && Apply(rs, restart) == rs[i := if rs[i].status == Running && rs[i].pid !in restart.alive
                                             then StartOf(rs[i], restart.pid, restart.now) else rs[i]]
  {
    FreshHistory([], steps);
    UnshadowedRestart(ApplyAll([], steps), i, restart);
  }

  lemma UnshadowedStop(rs: seq<Record>, i: nat, look: Look, now: int)
    requires Inv(rs) && NoIdShadowed(rs) && i < |rs|
    ensures Possible(rs, ServerStop(rs[i].id, look, now))
    ensures StopRecord(rs, rs[i].id, look, now) == rs[i := StopOf(rs[i], now)]
  {
    assert !IdShadowed(rs, i);
    StopById(rs, i, look, now);
  }

  lemma UnshadowedRestart(rs: seq<Record>, i: nat, restart: Step)
    requires Inv(rs) && NoIdShadowed(rs) && i < |rs| && restart.Restart? && restart.id == rs[i].id
    ensures IdIndex(rs, restart.id) == i
    ensures RestartStep(rs, restart) == rs[i := if rs[i].status == Running && rs[i].pid !in restart.alive
                                                then StartOf(rs[i], restart.pid, restart.now) else rs[i]]
  {
    assert !IdShadowed(rs, i);
    RestartById(rs, i, restart);
    assert rs[i := rs[i]] == rs;
  }

  // ---------------------------------------------------------------- no name is another's id

  /** No container's name is another container's id. */
  ghost predicate NoCross(rs: seq<Record>) {
    forall i, j :: 0 <= i < |rs| && 0 <= j < |rs| && i != j ==> rs[i].name != rs[j].id
  }

  /** Then, and only then, a key other than the empty one matches one container at most. */
  lemma OneMatch(rs: seq<Record>)
    requires Distinct(rs) && forall i :: 0 <= i < |rs| ==> rs[i].id != ""
    ensures NoCross(rs) <==>
            forall key, i, j :: key != "" && 0 <= i < j < |rs| ==> !(Matches(rs[i], key) && Matches(rs[j], key))
  {
    if forall key, i, j :: key != "" && 0 <= i < j < |rs| ==> !(Matches(rs[i], key) && Matches(rs[j], key)) {
      forall i, j | 0 <= i < |rs| && 0 <= j < |rs| && i != j ensures rs[i].name != rs[j].id {
        assert Matches(rs[i], rs[i].name) && Matches(rs[j], rs[j].id);
      }
    }
  }

  /** A run whose name is nobody's id and whose id is nobody's name. */
  ghost predicate Clear(rs: seq<Record>, step: Step) {
    step.Run? && !Refused(rs, step.name) ==>
      forall i :: 0 <= i < |rs| ==> rs[i].name != step.id && rs[i].id != Stored(step.name)
  }

  /** Only such a run can be to blame when a name becomes another's id. */
  lemma StepKeepsNoCross(rs: seq<Record>, step: Step)
    requires Distinct(rs) && Possible(rs, step) && NoCross(rs)
    ensures NoCross(Apply(rs, step)) <==> Clear(rs, step)
  {
    if step.Run? {
      if !Refused(rs, step.name) {
        AppendNoCross(rs, NewRecord(step.name, step.id, step.pid, step.command, step.volumes, step.now));
      }
    } else {
      var u := StepShape(rs, step);
      EvolvesNoCross(rs, u);
      if Apply(rs, step) != u {
        var k :| 0 <= k < |u| && Apply(rs, step) == Cut(u, k);
        CutNoCross(u, k);
      }
    }
  }

  lemma AppendNoCross(rs: seq<Record>, r: Record)
    requires NoCross(rs)
    ensures NoCross(rs + [r]) <==> forall i :: 0 <= i < |rs| ==> rs[i].name != r.id && rs[i].id != r.name
  {
    var t, n := rs + [r], |rs|;
    assert t[n] == r && forall i :: 0 <= i < n ==> t[i] == rs[i];
    assert NoCross(t) ==> forall i :: 0 <= i < n ==> t[i].name != t[n].id && t[n].name != t[i].id;
  }

  lemma EvolvesNoCross(rs: seq<Record>, t: seq<Record>)
    requires NoCross(rs) && Evolves(rs, t)
    ensures NoCross(t)
  {
    assert forall i :: 0 <= i < |rs| ==> SameContainer(rs[i], t[i]);
  }

  lemma CutNoCross(rs: seq<Record>, k: nat)
    requires NoCross(rs) && k < |rs|
    ensures NoCross(Cut(rs, k))
  {
  }

  ghost predicate AllClear(rs: seq<Record>, steps: seq<Step>)
    requires AllPossible(rs, steps)
    decreases |steps|
  {
    steps == [] || (Clear(rs, steps[0]) && AllClear(Apply(rs, steps[0]), steps[1..]))
  }

  /** No name is another's id at any point of the history. */
  ghost predicate NeverCross(rs: seq<Record>, steps: seq<Step>)
    requires AllPossible(rs, steps)
    decreases |steps|
  {
    NoCross(rs) && (steps == [] || NeverCross(Apply(rs, steps[0]), steps[1..]))
  }

  lemma {:induction false} NeverCrossIffClear(rs: seq<Record>, steps: seq<Step>)
    requires Inv(rs) && NoCross(rs) && AllPossible(rs, steps)
    ensures NeverCross(rs, steps) <==> AllClear(rs, steps)
    decreases |steps|
  {
    if steps == [] {
    } else {
      var t := Apply(rs, steps[0]);
      StepKeepsInv(rs, steps[0]);
      StepKeepsNoCross(rs, steps[0]);
      if NoCross(t) {
        NeverCrossIffClear(t, steps[1..]);
      }
    }
  }

  // ---------------------------------------------------------------- whom a step touches

  /** The record a step is about. */
  function Own(rs: seq<Record>, step: Step): nat {
    match step
    case Run(_, _, _, _, _, _) => |rs|
    case Restart(id, _, _, _, _, _) => IdIndex(rs, id)
    case _ => FirstMatch(rs, step.key)
  }

  /** Only record i differs, and it is still the same container. */
  ghost predicate OnlyAt(rs: seq<Record>, t: seq<Record>, i: nat) {
    Evolves(rs, t) && forall j :: 0 <= j < |rs| && j != i ==> t[j] == rs[j]
  }

  /** A step changes its own record only, appends one, or takes its own one out. */
  ghost predicate TouchesOwn(rs: seq<Record>, step: Step, t: seq<Record>) {
    var i := Own(rs, step);
    || OnlyAt(rs, t, i)
    || (step.Run? && t == rs + [NewRecord(step.name, step.id, step.pid, step.command, step.volumes, step.now)])
    || (step.Remove? && i < |rs| && t == Cut(rs, i))
  }

  /** While no name is another container's id, every step touches its own record only and keeps the
      order of the rest. */
  lemma StepTouchesOwn(rs: seq<Record>, step: Step)
    requires Distinct(rs) && NoCross(rs) && Possible(rs, step)
    ensures TouchesOwn(rs, step, Apply(rs, step))
  {
    match step {
      case Run(name, id, pid, command, volumes, now) =>
      case Start(key, pid, look, now) => StartAt(rs, key, pid, look, now);
      case ServerStop(key, look, now) => StopAt(rs, key, look, now);
      case Query(key, look) => LookupAt(rs, key, look);
      case Remove(_, _, _, _, _, _, _) => RemoveTouchesOwn(rs, step);
      case Restart(id, pid, alive, stop, look, now) =>
        RestartAt(rs, step);
        IdFinds(rs, IdIndex(rs, id));
    }
  }

  lemma RemoveTouchesOwn(rs: seq<Record>, step: Step)
    requires Distinct(rs) && NoCross(rs) && step.Remove?
    ensures TouchesOwn(rs, step, RemoveStep(rs, step))
  {
    var i := FirstMatch(rs, step.key);
    if i < |rs| {
      PreparedAt(rs, step.key, step.force, step.look, step.again, step.exit);
      RemoveAt(rs, step);
      IdFinds(rs, i);
      RemoveReaches(rs, i, step);
    }
  }

  /** The step is asked to act on this container. */
  ghost predicate Names(step: Step, r: Record) {
    match step
    case Run(_, _, _, _, _, _) => false
    case Restart(id, _, _, _, _, _) => r.id == id
    case _ => Matches(r, step.key)
  }

  ghost predicate NoneNames(steps: seq<Step>, r: Record) {
    forall k :: 0 <= k < |steps| ==> !Names(steps[k], r)
  }

  ghost predicate NoRemoveNames(steps: seq<Step>, r: Record) {
    forall k :: 0 <= k < |steps| && steps[k].Remove? ==> !Names(steps[k], r)
  }

  lemma NamesRest(steps: seq<Step>, r: Record, r': Record)
    requires SameContainer(r, r') && steps != []
    ensures NoneNames(steps, r) ==> !Names(steps[0], r) && NoneNames(steps[1..], r')
    ensures NoRemoveNames(steps, r) ==> NoRemoveNames(steps[1..], r')
  {
  }

  /** Where record i is after a step that does not remove it. */
  ghost function Place(rs: seq<Record>, step: Step, i: nat): nat
    requires Possible(rs, step)
  {
    if |Apply(rs, step)| < |rs| && Own(rs, step) < i then i - 1 else i
  }

  ghost function PlaceAfter(rs: seq<Record>, steps: seq<Step>, i: nat): nat
    requires AllPossible(rs, steps)
    decreases |steps|
  {
    if steps == [] then i else PlaceAfter(Apply(rs, steps[0]), steps[1..], Place(rs, steps[0], i))
  }

  /** A step keeps a container unless it is an rm that names it, and keeps its record to the letter
      unless the step names it. */
  lemma StepSpares(rs: seq<Record>, step: Step, i: nat)
    requires Distinct(rs) && NoCross(rs) && Possible(rs, step) && i < |rs|
    requires step.Remove? ==> !Names(step, rs[i])
    ensures var t, j := Apply(rs, step), Place(rs, step, i);
            && j < |t| && SameContainer(rs[i], t[j])
            && (!Names(step, rs[i]) ==> t[j] == rs[i])
    ensures |Apply(rs, step)| < |rs| ==> Own(rs, step) != i
  {
    StepTouchesOwn(rs, step);
    OwnIsNamed(rs, step, i);
    TouchedSpares(rs, Apply(rs, step), Own(rs, step), step.Remove?, i, Names(step, rs[i]));
  }

  lemma TouchedSpares(rs: seq<Record>, t: seq<Record>, own: nat, removes: bool, i: nat, named: bool)
    requires i < |rs| && (own == i ==> named && !removes)
    requires OnlyAt(rs, t, own) || (|t| == |rs| + 1 && t[..|rs|] == rs) || (removes && own < |rs| && t == Cut(rs, own))
    ensures var j := if |t| < |rs| && own < i then i - 1 else i;
            && j < |t| && SameContainer(rs[i], t[j])
            && (!named ==> t[j] == rs[i])
    ensures |t| < |rs| ==> own != i
  {
    if OnlyAt(rs, t, own) {
      assert SameContainer(rs[i], t[i]);
    } else if |t| == |rs| + 1 {
      assert t[..|rs|][i] == t[i];
    }
  }

  lemma OwnIsNamed(rs: seq<Record>, step: Step, i: nat)
    requires i < |rs|
    ensures Own(rs, step) == i ==> Names(step, rs[i])
  {
  }

  lemma ClearStep(rs: seq<Record>, step: Step)
    requires Inv(rs) && NoCross(rs) && Possible(rs, step) && Clear(rs, step)
    ensures Inv(Apply(rs, step)) && NoCross(Apply(rs, step))
  {
    StepKeepsInv(rs, step);
    StepKeepsNoCross(rs, step);
  }

  /** Over every history in which no name becomes another's id, a container is there as long as no rm
      names it, and its record is untouched as long as no step names it. */
  lemma {:induction false} HistorySpares(rs: seq<Record>, steps: seq<Step>, i: nat)
    requires Inv(rs) && NoCross(rs) && AllPossible(rs, steps) && AllClear(rs, steps) && i < |rs|
    requires NoRemoveNames(steps, rs[i])
    ensures var t, j := ApplyAll(rs, steps), PlaceAfter(rs, steps, i);
            && j < |t| && SameContainer(rs[i], t[j])
            && (NoneNames(steps, rs[i]) ==> t[j] == rs[i])
    decreases |steps|
  {
    if steps == [] {
    } else {
      var t, k := Apply(rs, steps[0]), Place(rs, steps[0], i);
      ClearStep(rs, steps[0]);
      StepSpares(rs, steps[0], i);
      NamesRest(steps, rs[i], t[k]);
      HistorySpares(t, steps[1..], k);
    }
  }

  /** And the containers that are left stay in the order in which they were. */
  lemma {:induction false} HistoryKeepsOrder(rs: seq<Record>, steps: seq<Step>, i: nat, i': nat)
    requires Inv(rs) && NoCross(rs) && AllPossible(rs, steps) && AllClear(rs, steps) && i < i' < |rs|
    requires NoRemoveNames(steps, rs[i]) && NoRemoveNames(steps, rs[i'])
    ensures PlaceAfter(rs, steps, i) < PlaceAfter(rs, steps, i')
    decreases |steps|
  {
    if steps == [] {
    } else {
      var t, k, k' := Apply(rs, steps[0]), Place(rs, steps[0], i), Place(rs, steps[0], i');
      ClearStep(rs, steps[0]);
      StepSpares(rs, steps[0], i);
      StepSpares(rs, steps[0], i');
      NamesRest(steps, rs[i], t[k]);
      NamesRest(steps, rs[i'], t[k']);
      HistoryKeepsOrder(t, steps[1..], k, k');
    }
  }

  // ---------------------------------------------------------------- start and stop times

  /** An orderly stop keeps the start time of the record it rewrites only if there was none. */
  lemma StopForgetsStart(rs: seq<Record>, key: string, look: Look, now: int)
    requires Distinct(rs) && FirstMatch(rs, key) < |rs|
    ensures var i := FirstMatch(rs, key);
            StopRecord(rs, key, look, now)[i].started == rs[i].started <==> rs[i].started == 0
  {
    StopAt(rs, key, look, now);
  }

  /** A start keeps the stop time of the record it finds only if there was none or it refuses. */
  lemma StartForgetsStop(rs: seq<Record>, key: string, pid: int, look: Look, now: int)
    requires Distinct(rs) && FirstMatch(rs, key) < |rs|
    ensures var i := FirstMatch(rs, key);
            StartStep(rs, key, pid, look, now)[i].stopped == rs[i].stopped
            <==> rs[i].stopped == 0 || (rs[i].status == Running && rs[i].pid in look.alive)
  {
    StartAt(rs, key, pid, look, now);
  }

  /** After every history: a running container has no stop time, one stopped in order no start time. */
  lemma TimesForgotten(steps: seq<Step>, i: nat)
    requires AllPossible([], steps) && i < |ApplyAll([], steps)|
    ensures var r := ApplyAll([], steps)[i];
            && (r.status == Running ==> r.stopped == 0)
            && (r.abnormal == 0 ==> r.started == 0)
  {
    HistoryKeepsInv([], steps);
  }

  lemma StopOne(r: Record, look: Look, now: int)
    ensures FirstMatch([r], r.id) == 0 && Apply([r], ServerStop(r.id, look, now)) == [StopOf(r, now)]
  {
    assert Matches([r][0], r.id);
    assert !IdShadowed([r], 0);
    StopById([r], 0, look, now);
  }

  /** Started at 100 and stopped at 200: the start time is gone. */
  lemma StartTimeLost(id: string, look: Look)
    ensures var steps := [Run(None, id, 7, "sh", {}, 100), ServerStop(id, look, 200)];
            && AllPossible([], steps)
            && ApplyAll([], steps) == [Record(id, "", 0, "sh", {}, 100, 0, 200, Stopped, 0)]
  {
    var run, stop := Run(None, id, 7, "sh", {}, 100), ServerStop(id, look, 200);
    var first := NewRecord(None, id, 7, "sh", {}, 100);
    assert Apply([], run) == [first];
    StopOne(first, look, 200);
    TwoSteps([], run, stop);
  }

  /** Started again at 300: so is the stop time. */
  lemma StopTimeLost(id: string, look: Look)
    ensures Apply([Record(id, "", 0, "sh", {}, 100, 0, 200, Stopped, 0)], Start(id, 8, look, 300))
            == [Record(id, "", 8, "sh", {}, 100, 300, 0, Running, 1)]
  {
    var rs := [Record(id, "", 0, "sh", {}, 100, 0, 200, Stopped, 0)];
    assert !IdShadowed(rs, 0);
    StartById(rs, 0, 8, look, 300);
  }
}
