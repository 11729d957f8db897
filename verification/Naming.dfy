/** Which container a name or an id reaches.  Names are checked against names only, while lookups take
    the first record whose name or id fits, so a command can reach a container other than the one
    its caller named. */
module Naming {
  import opened Bytes
  import opened Registry
  import opened Lifecycle

  // ---------------------------------------------------------------- lookups

  /** An earlier container's id is this one's name. */
  ghost predicate NameShadowed(rs: seq<Record>, i: nat)
    requires i < |rs|
  {
    exists j :: 0 <= j < i && rs[j].id == rs[i].name
  }

  /** An earlier container's name is this one's id. */
  ghost predicate IdShadowed(rs: seq<Record>, i: nat)
    requires i < |rs|
  {
    exists j :: 0 <= j < i && rs[j].name == rs[i].id
  }

  /** A container's name finds it exactly when no earlier container has that name for its id. */
  lemma NameFinds(rs: seq<Record>, i: nat)
    requires Distinct(rs) && i < |rs| && rs[i].name != ""
    ensures FirstMatch(rs, rs[i].name) <= i
    ensures FirstMatch(rs, rs[i].name) == i <==> !NameShadowed(rs, i)
  {
    assert Matches(rs[i], rs[i].name);
  }

  /** A container's id finds it exactly when no earlier container has that id for its name. */
  lemma IdFinds(rs: seq<Record>, i: nat)
    requires Distinct(rs) && i < |rs|
    ensures IdIndex(rs, rs[i].id) == i && FirstMatch(rs, rs[i].id) <= i
    ensures FirstMatch(rs, rs[i].id) == i <==> !IdShadowed(rs, i)
  {
    assert Matches(rs[i], rs[i].id);
  }

  // ---------------------------------------------------------------- stop and restart, by id

  /** A server's orderly stop reaches its own container exactly when the id is not shadowed. */
  lemma StopById(rs: seq<Record>, i: nat, look: Look, now: int)
    requires Distinct(rs) && i < |rs|
    ensures FirstMatch(rs, rs[i].id) < |rs|
    ensures var t := StopRecord(rs, rs[i].id, look, now);
            && (!IdShadowed(rs, i) ==> t == rs[i := StopOf(rs[i], now)])
            && (IdShadowed(rs, i) ==> t[i] == rs[i])
            && (rs[i].status == Running ==> (t[i].status == Stopped <==> !IdShadowed(rs, i)))
  {
    IdFinds(rs, i);
    StopAt(rs, rs[i].id, look, now);
  }

  /** So does the supervisor's restart of a container whose process is gone. */
  lemma RestartById(rs: seq<Record>, i: nat, step: Step)
    requires Distinct(rs) && i < |rs| && step.Restart? && step.id == rs[i].id
    ensures IdIndex(rs, step.id) == i
    ensures var t := RestartStep(rs, step);
            && (rs[i].status == Stopped || rs[i].pid in step.alive ==> t == rs)
            && (rs[i].status == Running && rs[i].pid !in step.alive && !IdShadowed(rs, i) ==>
                  t == rs[i := StartOf(rs[i], step.pid, step.now)])
            && (IdShadowed(rs, i) ==> t[i] == rs[i])
  {
    IdFinds(rs, i);
    RestartAt(rs, step);
  }

  // ---------------------------------------------------------------- start, by name and by id

  /** What start makes of a container that its key reaches, and that it leaves it alone otherwise. */
  lemma StartReaches(rs: seq<Record>, i: nat, key: string, pid: int, look: Look, now: int)
    requires Distinct(rs) && i < |rs| && Matches(rs[i], key)
    ensures var t := StartStep(rs, key, pid, look, now);
            && (FirstMatch(rs, key) == i ==>
                  t == rs[i := if rs[i].status == Running && rs[i].pid in look.alive then rs[i] else StartOf(rs[i], pid, now)])
            && (FirstMatch(rs, key) != i ==> t[i] == rs[i])
  {
    StartAt(rs, key, pid, look, now);
  }

  /** start NAME starts the stopped container of that name exactly when the name is not shadowed. */
  lemma StartByName(rs: seq<Record>, i: nat, pid: int, look: Look, now: int)
    requires Distinct(rs) && i < |rs| && rs[i].name != ""
    ensures var t := StartStep(rs, rs[i].name, pid, look, now);
            && (!NameShadowed(rs, i) && (rs[i].status == Stopped || rs[i].pid !in look.alive) ==>
                  t == rs[i := StartOf(rs[i], pid, now)])
            && (!NameShadowed(rs, i) && rs[i].status == Running && rs[i].pid in look.alive ==> t == rs)
            && (NameShadowed(rs, i) ==> t[i] == rs[i])
            && (rs[i].status == Stopped ==> (t[i].status == Running <==> !NameShadowed(rs, i)))
  {
    NameFinds(rs, i);
    StartReaches(rs, i, rs[i].name, pid, look, now);
  }

  /** start ID starts the stopped container of that id exactly when the id is not shadowed. */
  lemma StartById(rs: seq<Record>, i: nat, pid: int, look: Look, now: int)
    requires Distinct(rs) && i < |rs|
    ensures var t := StartStep(rs, rs[i].id, pid, look, now);
            && (!IdShadowed(rs, i) && (rs[i].status == Stopped || rs[i].pid !in look.alive) ==>
                  t == rs[i := StartOf(rs[i], pid, now)])
            && (!IdShadowed(rs, i) && rs[i].status == Running && rs[i].pid in look.alive ==> t == rs)
            && (IdShadowed(rs, i) ==> t[i] == rs[i])
            && (rs[i].status == Stopped ==> (t[i].status == Running <==> !IdShadowed(rs, i)))
  {
    IdFinds(rs, i);
    StartReaches(rs, i, rs[i].id, pid, look, now);
  }

  // ---------------------------------------------------------------- rm, by name and by id

  ghost predicate Gone(t: seq<Record>, id: string) {
    forall j :: 0 <= j < |t| ==> t[j].id != id
  }

  /** rm looks up twice, by its key and then by the id it found; both must lead to the container. */
  lemma RemoveReaches(rs: seq<Record>, i: nat, step: Step)
    requires Distinct(rs) && i < |rs| && step.Remove? && Matches(rs[i], step.key)
    ensures var t := RemoveStep(rs, step);
            && (Gone(t, rs[i].id) <==> && step.removed
                                       && (step.force || rs[i].status == Stopped || rs[i].pid !in step.look.alive)
                                       && FirstMatch(rs, step.key) == i && !IdShadowed(rs, i))
            && (Gone(t, rs[i].id) ==> t == Cut(rs, i))
  {
    var f := FirstMatch(rs, step.key);
    var k := FirstMatch(rs, rs[f].id);
    var u := RemovePrepared(rs, step.key, step.force, step.look, step.again, step.exit);
    RemoveAt(rs, step);
    PreparedAt(rs, step.key, step.force, step.look, step.again, step.exit);
    IdFinds(rs, i);
    if step.removed && (step.force || rs[f].status == Stopped || rs[f].pid !in step.look.alive) {
      CutReaches(rs, u, i, k);
      if k == i {
        assert f == i;
      }
    } else {
      assert u[i].id == rs[i].id;
    }
  }

  lemma CutReaches(rs: seq<Record>, u: seq<Record>, i: nat, k: nat)
    requires Distinct(rs) && Evolves(rs, u) && k <= i < |rs|
    ensures Gone(Cut(u, k), rs[i].id) <==> k == i
    ensures k == i && (forall j :: 0 <= j < |rs| && j != i ==> u[j] == rs[j]) ==> Cut(u, k) == Cut(rs, i)
  {
    var t := Cut(u, k);
    if k == i {
      forall j | 0 <= j < |t| ensures t[j].id != rs[i].id {
        var from := if j < k then j else j + 1;
        assert t[j] == u[from] && SameContainer(rs[from], u[from]);
      }
    } else {
      assert t[i - 1] == u[i] && SameContainer(rs[i], u[i]);
    }
  }

  /** rm NAME removes the container of that name exactly when it goes through and neither that name nor
      that container's id is shadowed. */
  lemma RemoveByName(rs: seq<Record>, i: nat, step: Step)
    requires Distinct(rs) && i < |rs| && step.Remove? && step.key == rs[i].name != ""
    ensures var t := RemoveStep(rs, step);
            && (Gone(t, rs[i].id) <==> && step.removed
                                       && (step.force || rs[i].status == Stopped || rs[i].pid !in step.look.alive)
                                       && !NameShadowed(rs, i) && !IdShadowed(rs, i))
            && (Gone(t, rs[i].id) ==> t == Cut(rs, i))
  {
    NameFinds(rs, i);
    RemoveReaches(rs, i, step);
  }

  /** rm ID removes the container of that id exactly when it goes through and the id is not shadowed. */
  lemma RemoveById(rs: seq<Record>, i: nat, step: Step)
    requires Distinct(rs) && i < |rs| && step.Remove? && step.key == rs[i].id
    ensures var t := RemoveStep(rs, step);
            && (Gone(t, rs[i].id) <==> && step.removed
                                       && (step.force || rs[i].status == Stopped || rs[i].pid !in step.look.alive)
                                       && !IdShadowed(rs, i))
            && (Gone(t, rs[i].id) ==> t == Cut(rs, i))
  {
    IdFinds(rs, i);
    RemoveReaches(rs, i, step);
  }

  // ---------------------------------------------------------------- reaching the wrong container

  lemma TwoSteps(rs: seq<Record>, a: Step, b: Step)
    requires Possible(rs, a) && Possible(Apply(rs, a), b)
    ensures AllPossible(rs, [a, b]) && ApplyAll(rs, [a, b]) == Apply(Apply(rs, a), b)
  {
    var steps := [a, b];
    var t := Apply(Apply(rs, a), b);
    assert steps[1..] == [b] && [b][1..] == [];
    assert AllPossible(t, []) && ApplyAll(t, []) == t;
    assert AllPossible(Apply(rs, a), [b]) && ApplyAll(Apply(rs, a), [b]) == t;
  }

  /** A container web gets id x, then a second one with id y is named x, whatever the ids. */
  function NamedAfterId(x: string, y: string): seq<Step> {
    [Run(Some("web"), x, 7, "sh", {}, 100), Run(Some(x), y, 8, "top", {}, 101)]
  }

  function Web(x: string): Record {
    NewRecord(Some("web"), x, 7, "sh", {}, 100)
  }

  function Second(x: string, y: string): Record {
    NewRecord(Some(x), y, 8, "top", {}, 101)
  }

  lemma NamedAfterIdRuns(x: string, y: string)
    requires x != y && x != "web"
    ensures AllPossible([], NamedAfterId(x, y)) && ApplyAll([], NamedAfterId(x, y)) == [Web(x), Second(x, y)]
  {
    var steps := NamedAfterId(x, y);
    assert Apply([], steps[0]) == [Web(x)];
    assert !Refused([Web(x)], Some(x));
    TwoSteps([], steps[0], steps[1]);
  }

  lemma RemoveFirst(a: Record, b: Record, step: Step)
    requires Distinct([a, b]) && step.Remove? && step.key == a.id && step.force && step.removed
    ensures RemoveStep([a, b], step) == [b]
  {
    assert !IdShadowed([a, b], 0);
    RemoveById([a, b], 0, step);
    assert Cut([a, b], 0) == [b];
  }

  /** rm -f x, meant for the container named x, deletes web instead. */
  lemma RemoveWrongContainer(x: string, y: string, look: Look, again: Look, exit: Option<Exit>, last: Look)
    requires x != y && x != "web"
    ensures AllPossible([], NamedAfterId(x, y))
    ensures Apply(ApplyAll([], NamedAfterId(x, y)), Remove(x, true, true, look, again, exit, last)) == [Second(x, y)]
  {
    NamedAfterIdRuns(x, y);
    RemoveFirst(Web(x), Second(x, y), Remove(x, true, true, look, again, exit, last));
  }

  /** When both have died, start x, meant for the container named x, starts web instead. */
  lemma StartWrongContainer(x: string, y: string, now: int)
    requires x != y && x != "web"
    ensures AllPossible([], NamedAfterId(x, y))
    ensures Apply(ApplyAll([], NamedAfterId(x, y)), Start(x, 9, Look({}, now), now)) == [StartOf(Web(x), 9, now), Second(x, y)]
  {
    NamedAfterIdRuns(x, y);
    var rs := [Web(x), Second(x, y)];
    assert !IdShadowed(rs, 0);
    StartById(rs, 0, 9, Look({}, now), now);
  }
}
