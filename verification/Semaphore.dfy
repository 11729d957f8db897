/** SemUtil: any number of processes racing to create, initialise and use one System V semaphore,
    one system call at a time, in any order. */
module Semaphore {
  import opened Bytes

  const SEMVMX := 32767
  const MAX_TRIES := 10

  /** sem_op is a short: what the unsigned argument of get becomes when it is copied there. */
  function Short(value: nat): (op: int)
    ensures -0x8000 <= op <= SEMVMX
    ensures (op - value) % 0x1_0000 == 0
    ensures op == value <==> value <= SEMVMX
  {
    var low := value % 0x1_0000;
    if low <= SEMVMX then low else low - 0x1_0000
  }

  /** semop(2) on one semaphore: None means that the call does not complete. */
  function SemOp(val: nat, op: int): Option<nat> {
    if op == 0 then (if val == 0 then Some(val) else None)
    else if 0 <= val + op <= SEMVMX then Some(val + op)
    else None
  }

  /** Where a process is in SemUtil::get. */
  datatype Pc =
    | Idle
    | Created         // IPC_CREAT | IPC_EXCL succeeded, SETVAL is next
    | Zeroed          // SETVAL done, the first semop is next
    | Exists          // EEXIST, the second semget is next
    | Polling(tries: nat)
    | Ready           // get has returned
    | Failed          // err_exit

  /** sem_val and whether sem_otime has been set. */
  datatype Sem = Sem(val: nat, otime: bool)

  datatype State = State(
    sem: Option<Sem>,
    pcs: seq<Pc>,
    creators: seq<nat>,       // processes whose exclusive semget succeeded
    setvals: nat,             // SETVAL calls made
    incs: nat,                // increments and decrements completed after get
    decs: nat)

  /** What a process does next; garbage is the value an uninitialised semaphore happens to hold. */
  datatype Action = Get(garbage: nat) | Inc | Dec | Zero

  function Start(n: nat): State {
    State(None, seq(n, _ => Idle), [], 0, 0, 0)
  }

  /** The next system call of process p inside get; value is the argument p passed. */
  function GetStep(s: State, p: nat, value: nat, garbage: nat): State
    requires p < |s.pcs|
  {
    match s.pcs[p]
    case Idle =>
      if s.sem.None?
      then s.(sem := Some(Sem(garbage, false)), pcs := s.pcs[p := Created], creators := s.creators + [p])
      else s.(pcs := s.pcs[p := Exists])
    case Created =>
      if s.sem.None? then s.(pcs := s.pcs[p := Failed])
      else s.(sem := Some(s.sem.value.(val := 0)), pcs := s.pcs[p := Zeroed], setvals := s.setvals + 1)
    case Zeroed =>
      if s.sem.None? then s.(pcs := s.pcs[p := Failed])
      else (match SemOp(s.sem.value.val, Short(value))
            case Some(v) => s.(sem := Some(Sem(v, true)), pcs := s.pcs[p := Ready])
            case None => if Short(value) <= 0 then s else s.(pcs := s.pcs[p := Failed]))
    case Exists =>
      s.(pcs := s.pcs[p := if s.sem.None? then Failed else Polling(0)])
    case Polling(tries) =>
      if s.sem.Some? && s.sem.value.otime then s.(pcs := s.pcs[p := Ready])
      else s.(pcs := s.pcs[p := if tries + 1 < MAX_TRIES then Polling(tries + 1) else Failed])
    case Ready => s
    case Failed => s
  }

  /** inc, dec and zero, by a process whose get has returned; a call that blocks changes nothing. */
  function UseStep(s: State, p: nat, op: int): State
    requires p < |s.pcs| && -1 <= op <= 1
  {
    if !s.pcs[p].Ready? || s.sem.None? then s
    else match SemOp(s.sem.value.val, op)
      case None => s
      case Some(v) => s.(sem := Some(Sem(v, true)),
                         incs := s.incs + (if op == 1 then 1 else 0),
                         decs := s.decs + (if op == -1 then 1 else 0))
  }

  function Step(s: State, values: seq<nat>, p: nat, a: Action): (t: State)
    requires p < |s.pcs| == |values|
    ensures |t.pcs| == |s.pcs|
  {
    match a
    case Get(garbage) => GetStep(s, p, values[p], garbage)
    case Inc => UseStep(s, p, 1)
    case Dec => UseStep(s, p, -1)
    case Zero => UseStep(s, p, 0)
  }

  /** Any interleaving. */
  function Run(s: State, values: seq<nat>, steps: seq<(nat, Action)>): (t: State)
    requires |s.pcs| == |values| && forall i :: 0 <= i < |steps| ==> steps[i].0 < |values|
    ensures |t.pcs| == |s.pcs|
    decreases |steps|
  {
    if steps == [] then s else Run(Step(s, values, steps[0].0, steps[0].1), values, steps[1..])
  }

  /** Before there is a semaphore nobody has got anywhere. */
  ghost predicate Untouched(s: State) {
    s.creators == [] && s.setvals == s.incs == s.decs == 0 && forall p :: 0 <= p < |s.pcs| ==> s.pcs[p] == Idle
  }

  /** Only the creator is ever inside the initialisation, and until it has finished nobody is past it. */
  ghost predicate Guarded(s: State, values: seq<nat>)
    requires s.sem.Some? && |s.pcs| == |values|
  {
    && |s.creators| == 1 && s.creators[0] < |s.pcs|
    && var c := s.creators[0];
       && (forall p :: 0 <= p < |s.pcs| && p != c ==> !s.pcs[p].Created? && !s.pcs[p].Zeroed?)
       && (s.pcs[c].Created? || s.pcs[c].Zeroed? || s.pcs[c].Ready?)
       && s.setvals == (if s.pcs[c].Created? then 0 else 1)
       && (s.sem.value.otime <==> s.pcs[c].Ready?)
       && (!s.pcs[c].Ready? ==> s.incs == s.decs == 0 && forall p :: 0 <= p < |s.pcs| ==> s.pcs[p] != Ready)
       && (s.pcs[c].Zeroed? ==> s.sem.value.val == 0)
       && (s.pcs[c].Ready? ==> s.sem.value.val <= SEMVMX && Short(values[c]) >= 0 && s.sem.value.val == Short(values[c]) + s.incs - s.decs)
  }

  ghost predicate Inv(s: State, values: seq<nat>) {
    |s.pcs| == |values| && if s.sem.None? then Untouched(s) else Guarded(s, values)
  }

  lemma StepKeepsInv(s: State, values: seq<nat>, p: nat, a: Action)
    requires Inv(s, values) && p < |values|
    ensures Inv(Step(s, values, p, a), values)
  {
    match a {
      case Get(garbage) => GetKeepsInv(s, values, p, garbage);
      case Inc => UseKeepsInv(s, values, p, 1);
      case Dec => UseKeepsInv(s, values, p, -1);
      case Zero => UseKeepsInv(s, values, p, 0);
    }
  }

  lemma GetKeepsInv(s: State, values: seq<nat>, p: nat, garbage: nat)
    requires Inv(s, values) && p < |values|
    ensures Inv(GetStep(s, p, values[p], garbage), values)
  {
  }

  lemma UseKeepsInv(s: State, values: seq<nat>, p: nat, op: int)
    requires Inv(s, values) && p < |values| && -1 <= op <= 1
    ensures Inv(UseStep(s, p, op), values)
  {
  }

  lemma {:induction false} RunKeepsInv(s: State, values: seq<nat>, steps: seq<(nat, Action)>)
    requires Inv(s, values) && forall i :: 0 <= i < |steps| ==> steps[i].0 < |values|
    ensures Inv(Run(s, values, steps), values)
    decreases |steps|
  {
    if steps == [] {
    } else {
      StepKeepsInv(s, values, steps[0].0, steps[0].1);
      RunKeepsInv(Step(s, values, steps[0].0, steps[0].1), values, steps[1..]);
    }
  }

  /** In every interleaving of any number of processes: once there is a semaphore, exactly one process
      created it; get returns to nobody before the creator's SETVAL and first semop; SETVAL happens at
      most once; and from then on the value is the creator's argument, as a short, plus the increments
      minus the decrements. */
  lemma InitialisedOnce(values: seq<nat>, steps: seq<(nat, Action)>, p: nat)
    requires p < |values| && forall i :: 0 <= i < |steps| ==> steps[i].0 < |values|
    ensures var s := Run(Start(|values|), values, steps);
            && (s.pcs[p] != Idle ==> s.sem.Some? && |s.creators| == 1)
            && s.setvals <= 1
            && (s.pcs[p] == Ready ==>
                  && s.setvals == 1 && s.sem.value.otime
                  && s.creators[0] < |values| && s.pcs[s.creators[0]] == Ready
                  && s.sem.value.val == Short(values[s.creators[0]]) + s.incs - s.decs)
  {
    RunKeepsInv(Start(|values|), values, steps);
  }

  /** A creator whose argument is negative as a short never gets past its first semop, and so get
      returns to nobody. */
  lemma NegativeBlocksAll(values: seq<nat>, steps: seq<(nat, Action)>, p: nat)
    requires p < |values| && forall i :: 0 <= i < |steps| ==> steps[i].0 < |values|
    ensures var s := Run(Start(|values|), values, steps);
            s.creators != [] && s.creators[0] < |values| && Short(values[s.creators[0]]) < 0 ==> s.pcs[p] != Ready
  {
    RunKeepsInv(Start(|values|), values, steps);
  }

  /** The creator's SETVAL, whenever it comes, erases nobody's operation: none has happened. */
  lemma {:induction false} SetvalErasesNothing(values: seq<nat>, steps: seq<(nat, Action)>, p: nat)
    requires p < |values| && forall i :: 0 <= i < |steps| ==> steps[i].0 < |values|
    requires Run(Start(|values|), values, steps).pcs[p] == Created
    ensures var s := Run(Start(|values|), values, steps);
            && s.creators == [p] && s.setvals == s.incs == s.decs == 0
            && forall q :: 0 <= q < |values| ==> s.pcs[q] != Ready
  {
    RunKeepsInv(Start(|values|), values, steps);
  }

  /** A process gives up only after its last look at a semaphore whose creator had not finished. */
  lemma FailsOnlyUninitialised(values: seq<nat>, steps: seq<(nat, Action)>, p: nat, a: Action)
    requires p < |values| && forall i :: 0 <= i < |steps| ==> steps[i].0 < |values|
    ensures var s := Run(Start(|values|), values, steps);
            var t := Step(s, values, p, a);
            t.pcs[p] == Failed && s.pcs[p] != Failed ==>
              && s.pcs[p] == Polling(9)
              && |s.creators| == 1 && s.creators[0] < |values| && s.pcs[s.creators[0]] != Ready
  {
    var s := Run(Start(|values|), values, steps);
    RunKeepsInv(Start(|values|), values, steps);
    PollingBounded(Start(|values|), values, steps, p);
  }

  lemma {:induction false} PollingBounded(s: State, values: seq<nat>, steps: seq<(nat, Action)>, p: nat)
    requires |s.pcs| == |values| && p < |values| && forall i :: 0 <= i < |steps| ==> steps[i].0 < |values|
    requires s.pcs[p].Polling? ==> s.pcs[p].tries < MAX_TRIES
    ensures var t := Run(s, values, steps); t.pcs[p].Polling? ==> t.pcs[p].tries < MAX_TRIES
    decreases |steps|
  {
    if steps == [] {
    } else {
      PollingBounded(Step(s, values, steps[0].0, steps[0].1), values, steps[1..], p);
    }
  }

  // ---------------------------------------------------------------- what each call does

  /** In every interleaving, a process whose get has returned raises the value by one, or lowers it by
      one, or waits for zero; an increment past the maximum and a decrement below zero do not complete,
      and nobody else's calls do anything. */
  lemma {:induction false} UseEffects(values: seq<nat>, steps: seq<(nat, Action)>, p: nat)
    requires p < |values| && forall i :: 0 <= i < |steps| ==> steps[i].0 < |values|
    ensures var s := Run(Start(|values|), values, steps);
            && (s.pcs[p] != Ready ==> forall a: Action :: !a.Get? ==> Step(s, values, p, a) == s)
            && (s.pcs[p] == Ready ==>
                  && s.sem.Some?
                  && var v := s.sem.value.val;
                     && Step(s, values, p, Inc) == (if v < 32767 then s.(sem := Some(Sem(v + 1, true)), incs := s.incs + 1) else s)
                     && Step(s, values, p, Dec) == (if v > 0 then s.(sem := Some(Sem(v - 1, true)), decs := s.decs + 1) else s)
                     && Step(s, values, p, Zero) == s)
  {
    RunKeepsInv(Start(|values|), values, steps);
  }

  /** zero(semId) completes exactly when the value is zero. */
  lemma ZeroWaits(val: nat)
    ensures SemOp(val, 0) == if val == 0 then Some(0) else None
  {
  }

  /** Three calls of one process, alone. */
  function ThreeGets(s: State, values: seq<nat>, p: nat, garbage: nat): (t: State)
    requires p < |s.pcs| == |values|
    ensures |t.pcs| == |s.pcs|
  {
    var a := Get(garbage);
    Step(Step(Step(s, values, p, a), values, p, a), values, p, a)
  }

  /** Once the semaphore is initialised, whoever comes later gets it with three calls: the exclusive
      semget that fails, the plain one, and one look at sem_otime; a process that is polling already
      needs only the last. */
  lemma {:induction false} LateComerReturns(values: seq<nat>, steps: seq<(nat, Action)>, p: nat, garbage: nat)
    requires p < |values| && forall i :: 0 <= i < |steps| ==> steps[i].0 < |values|
    ensures var s := Run(Start(|values|), values, steps);
            s.sem.Some? && s.sem.value.otime ==>
              && (s.pcs[p] == Idle ==> ThreeGets(s, values, p, garbage).pcs[p] == Ready)
              && (s.pcs[p].Polling? ==> Step(s, values, p, Get(garbage)).pcs[p] == Ready)
  {
  }

  /** Whoever comes first gets it with three calls too, and leaves it at its own value, unless that is
      negative as a short: then it is still there. */
  lemma FirstComerReturns(values: seq<nat>, p: nat, garbage: nat)
    requires p < |values|
    ensures var t := ThreeGets(Start(|values|), values, p, garbage);
            && t.creators == [p]
            && (Short(values[p]) >= 0 ==> t.pcs[p] == Ready && t.sem == Some(Sem(Short(values[p]), true)))
            && (Short(values[p]) < 0 ==> t.pcs[p] == Zeroed && t.sem == Some(Sem(0, false)))
  {
    assert Start(|values|).pcs[p] == Idle;
  }
}
