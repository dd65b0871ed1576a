/**
 Recursive mutexes of freertos/source/queue.c: xQueueTakeMutexRecursive and
 xQueueGiveMutexRecursive read the holder and read and write the call count
 outside any critical section, each a step of its own, with
 xQueueGenericReceive and xQueueGenericSend as the only protected steps. The
 model interleaves tasks at that grain.
 */
module RecursiveMutex {

  type Task = nat

  // UBaseType_t
  const WORD: nat := 0x1_0000_0000

  datatype Holder = Nobody | HeldBy(task: Task)

  /** uxMessagesWaiting, pxMutexHolder and u.uxRecursiveCallCount */
  datatype Mutex = Mutex(waiting: nat, holder: Holder, count: nat)

  /** Where a task stands between two steps of a call. */
  datatype Phase =
    | Outside
    | Acquiring                // taking, not the holder: in xQueueGenericReceive
    | ToRaise                  // taking: the holder seen or the mutex received, the count still to be read
    | Raising(loaded: nat)     // the count read
    | ToLower                  // giving: the holder seen, the count still to be read
    | Lowering(loaded: nat)    // the count read
    | Lowered                  // the count written back, still to be tested
    | Returning                // in xQueueGenericSend

  /** `depth` is each task's successful takes less its successful gives. */
  datatype State = State(mutex: Mutex, phase: map<Task, Phase>, depth: map<Task, nat>)

  function PhaseOf(s: State, t: Task): Phase {
    if t in s.phase then s.phase[t] else Outside
  }

  function DepthOf(s: State, t: Task): nat {
    if t in s.depth then s.depth[t] else 0
  }

  /** uxRecursiveCallCount++ and -- on a value read, in 32 bits */
  function Raised(count: nat): nat {
    if count + 1 == WORD then 0 else count + 1
  }

  function LoweredCount(count: nat): nat {
    if count == 0 then WORD - 1 else count - 1
  }

  datatype Action =
    | Take(t: Task)                 // read the holder
    | Receive(t: Task)              // the successful critical section of xQueueGenericReceive
    | FailToReceive(t: Task)        // timed out
    | LoadToRaise(t: Task)          // read the count
    | StoreRaised(t: Task)          // write it back one higher
    | Give(t: Task)                 // read the holder
    | LoadToLower(t: Task)
    | StoreLowered(t: Task)
    | Test(t: Task)                 // read the count: has it unwound to zero?
    | Send(t: Task)                 // the critical section of xQueueGenericSend

  predicate Enabled(s: State, a: Action) {
    match a
    case Take(t) => PhaseOf(s, t).Outside?
    case Receive(t) => PhaseOf(s, t).Acquiring? && s.mutex.waiting > 0
    case FailToReceive(t) => PhaseOf(s, t).Acquiring?
    case LoadToRaise(t) => PhaseOf(s, t).ToRaise?
    case StoreRaised(t) => PhaseOf(s, t).Raising?
    case Give(t) => PhaseOf(s, t).Outside?
    case LoadToLower(t) => PhaseOf(s, t).ToLower?
    case StoreLowered(t) => PhaseOf(s, t).Lowering?
    case Test(t) => PhaseOf(s, t).Lowered?
    case Send(t) => PhaseOf(s, t).Returning?
  }

  /** A usage rule: nobody calls take with `limit` takes outstanding. */
  predicate WithinLimit(s: State, a: Action, limit: nat) {
    a.Take? ==> DepthOf(s, a.t) < limit
  }

  function At(s: State, t: Task, p: Phase): State {
    s.(phase := s.phase[t := p])
  }

  function WithDepth(s: State, t: Task, d: nat): State {
    s.(depth := s.depth[t := d])
  }

  function WithCount(s: State, count: nat): State {
    s.(mutex := s.mutex.(count := count))
  }

  function Step(s: State, a: Action): State
    requires Enabled(s, a)
  {
    var m := s.mutex;
    match a
    case Take(t) => At(s, t, if m.holder == HeldBy(t) then ToRaise else Acquiring)
    case Receive(t) => At(s.(mutex := m.(waiting := m.waiting - 1, holder := HeldBy(t))), t, ToRaise)
    case FailToReceive(t) => At(s, t, Outside)
    case LoadToRaise(t) => At(s, t, Raising(m.count))
    case StoreRaised(t) => WithDepth(At(WithCount(s, Raised(PhaseOf(s, t).loaded)), t, Outside), t, DepthOf(s, t) + 1)
    case Give(t) => At(s, t, if m.holder == HeldBy(t) then ToLower else Outside)
    case LoadToLower(t) => At(s, t, Lowering(m.count))
    case StoreLowered(t) =>
      WithDepth(At(WithCount(s, LoweredCount(PhaseOf(s, t).loaded)), t, Lowered), t,
                if DepthOf(s, t) > 0 then DepthOf(s, t) - 1 else 0)
    case Test(t) => At(s, t, if m.count == 0 then Returning else Outside)
    case Send(t) =>
      if m.waiting < 1 then At(s.(mutex := m.(waiting := m.waiting + 1, holder := Nobody)), t, Outside)
      else At(s, t, Outside)
  }

  // ------------------------------------------------------------------
  // The invariant
  // ------------------------------------------------------------------

  /** The count that stands for a number of takes. */
  function Counted(depth: nat): (c: nat)
    requires depth <= WORD
    ensures c == depth % WORD
  {
    if depth == WORD then 0 else depth
  }

  /** Phases only the holder can be in. */
  predicate Owns(p: Phase) {
    !p.Outside? && !p.Acquiring?
  }

  /** What the holder's phase says of its takes and of the count. */
  ghost predicate HolderConsistent(p: Phase, depth: nat, count: nat, limit: nat) {
    match p
    case Outside => depth > 0
    case Acquiring => false
    case ToRaise => depth < limit
    case Raising(loaded) => depth < limit && loaded == count
    case ToLower => depth > 0
    case Lowering(loaded) => depth > 0 && loaded == count
    case Lowered => depth < limit
    case Returning => depth == 0
  }

  /** The holder's part of the invariant */
  ghost predicate HolderInv(s: State, limit: nat, t: Task)
    requires limit <= WORD
  {
    && DepthOf(s, t) <= limit && s.mutex.count == Counted(DepthOf(s, t))
    && HolderConsistent(PhaseOf(s, t), DepthOf(s, t), s.mutex.count, limit)
  }

  ghost predicate Inv(s: State, limit: nat)
    requires limit <= WORD
  {
    && s.mutex.waiting == (if s.mutex.holder.Nobody? then 1 else 0)
    && (forall t :: s.mutex.holder != HeldBy(t) ==> !Owns(PhaseOf(s, t)) && DepthOf(s, t) == 0)
    && (forall t :: PhaseOf(s, t).Acquiring? ==> limit > 0)
    && match s.mutex.holder
       case Nobody => s.mutex.count == 0
       case HeldBy(t) => HolderInv(s, limit, t)
  }

  /** A step of a task that is not the holder and does not become it */
  lemma StrangerKeepsInv(s: State, n: State, t: Task, p: Phase, limit: nat)
    requires limit <= WORD && Inv(s, limit) && s.mutex.holder != HeldBy(t)
    requires n == At(s, t, p) && !Owns(p) && (p.Acquiring? ==> limit > 0)
    ensures Inv(n, limit)
  {
    assert forall u :: PhaseOf(n, u) == (if u == t then p else PhaseOf(s, u)) && DepthOf(n, u) == DepthOf(s, u);
  }

  /** A step of the holder that keeps its hold */
  lemma HolderKeepsInv(s: State, n: State, t: Task, limit: nat)
    requires limit <= WORD && Inv(s, limit) && s.mutex.holder == n.mutex.holder == HeldBy(t)
    requires n.mutex.waiting == s.mutex.waiting && HolderInv(n, limit, t)
    requires forall u :: u != t ==> PhaseOf(n, u) == PhaseOf(s, u) && DepthOf(n, u) == DepthOf(s, u)
    ensures Inv(n, limit)
  {
  }

  lemma TakingKeepsInv(s: State, a: Action, limit: nat)
    requires limit <= WORD && Inv(s, limit) && Enabled(s, a) && WithinLimit(s, a, limit)
    requires a.Take? || a.FailToReceive? || a.LoadToRaise? || a.StoreRaised?
    ensures Inv(Step(s, a), limit)
  {
    var n := Step(s, a);
    if s.mutex.holder == HeldBy(a.t) {
      HolderKeepsInv(s, n, a.t, limit);
    } else {
      StrangerKeepsInv(s, n, a.t, PhaseOf(n, a.t), limit);
    }
  }

  lemma GivingKeepsInv(s: State, a: Action, limit: nat)
    requires limit <= WORD && Inv(s, limit) && Enabled(s, a)
    requires a.Give? || a.LoadToLower? || a.StoreLowered? || a.Test?
    ensures Inv(Step(s, a), limit)
  {
    var n := Step(s, a);
    if s.mutex.holder == HeldBy(a.t) {
      HolderKeepsInv(s, n, a.t, limit);
    } else {
      StrangerKeepsInv(s, n, a.t, PhaseOf(n, a.t), limit);
    }
  }

  lemma PassingKeepsInv(s: State, a: Action, limit: nat)
    requires limit <= WORD && Inv(s, limit) && Enabled(s, a) && (a.Receive? || a.Send?)
    ensures Inv(Step(s, a), limit)
  {
    var n := Step(s, a);
    assert forall u :: u != a.t ==> PhaseOf(n, u) == PhaseOf(s, u) && DepthOf(n, u) == DepthOf(s, u);
  }

  /** Up to 2^32 takes, every read and write of every task keeps the invariant. */
  lemma StepKeepsInv(s: State, a: Action, limit: nat)
    requires limit <= WORD && Inv(s, limit) && Enabled(s, a) && WithinLimit(s, a, limit)
    ensures Inv(Step(s, a), limit)
  {
    match a
    case Take(_) => TakingKeepsInv(s, a, limit);
    case FailToReceive(_) => TakingKeepsInv(s, a, limit);
    case LoadToRaise(_) => TakingKeepsInv(s, a, limit);
    case StoreRaised(_) => TakingKeepsInv(s, a, limit);
    case Give(_) => GivingKeepsInv(s, a, limit);
    case LoadToLower(_) => GivingKeepsInv(s, a, limit);
    case StoreLowered(_) => GivingKeepsInv(s, a, limit);
    case Test(_) => GivingKeepsInv(s, a, limit);
    case Receive(_) => PassingKeepsInv(s, a, limit);
    case Send(_) => PassingKeepsInv(s, a, limit);
  }

  /** xQueueCreateMutex: prvInitialiseMutex gives the mutex once. */
  function Created(): State {
    State(Mutex(1, Nobody, 0), map[], map[])
  }

  ghost predicate Possible(s: State, actions: seq<Action>, limit: nat)
    decreases actions
  {
    actions == [] ||
    (Enabled(s, actions[0]) && WithinLimit(s, actions[0], limit) && Possible(Step(s, actions[0]), actions[1..], limit))
  }

  ghost function After(s: State, actions: seq<Action>, limit: nat): State
    requires Possible(s, actions, limit)
    decreases actions
  {
    if actions == [] then s else After(Step(s, actions[0]), actions[1..], limit)
  }

  lemma {:induction false} RunKeepsInv(s: State, actions: seq<Action>, limit: nat)
    requires limit <= WORD && Inv(s, limit) && Possible(s, actions, limit)
    ensures Inv(After(s, actions, limit), limit)
    decreases actions
  {
    if actions != [] {
      StepKeepsInv(s, actions[0], limit);
      RunKeepsInv(Step(s, actions[0]), actions[1..], limit);
    }
  }

  /** Two tasks have takes they have not given back. */
  ghost predicate Shared(s: State, t: Task, u: Task) {
    t != u && DepthOf(s, t) > 0 && DepthOf(s, u) > 0
  }

  /** In every interleaving at most one task has takes it has not given back. */
  lemma Exclusion(actions: seq<Action>, limit: nat, t: Task, u: Task)
    requires limit <= WORD && Possible(Created(), actions, limit)
    ensures !Shared(After(Created(), actions, limit), t, u)
  {
    RunKeepsInv(Created(), actions, limit);
  }

  /** No task is part of the way through a change to the mutex. */
  ghost predicate AtRest(s: State) {
    forall t :: !Owns(PhaseOf(s, t))
  }

  /**
   Between calls the three ways of asking whether the mutex is free agree, as
   long as the holder has fewer than 2^32 takes outstanding; at 2^32 the count
   is 0 although the mutex is held.
   */
  lemma BetweenCalls(actions: seq<Action>, limit: nat)
    requires limit <= WORD && Possible(Created(), actions, limit)
    requires AtRest(After(Created(), actions, limit))
    ensures var s := After(Created(), actions, limit);
            && (s.mutex.waiting == 1 <==> s.mutex.holder.Nobody?)
            && (s.mutex.holder.Nobody? ==> s.mutex.count == 0)
            && (s.mutex.holder.HeldBy? ==>
                  var d := DepthOf(s, s.mutex.holder.task);
                  && 0 < d <= limit && s.mutex.count == d % WORD
                  && (s.mutex.count == 0 <==> d == WORD))
  {
    RunKeepsInv(Created(), actions, limit);
    var s := After(Created(), actions, limit);
    assert s.mutex.holder.HeldBy? ==> !Owns(PhaseOf(s, s.mutex.holder.task));
  }

  // ------------------------------------------------------------------
  // Calls not interrupted
  // ------------------------------------------------------------------

  /** The count raised, by the holder or after receiving. */
  function RaisedOnce(s: State, t: Task): State
    requires PhaseOf(s, t).ToRaise?
  {
    Step(Step(s, LoadToRaise(t)), StoreRaised(t))
  }

  /** xQueueTakeMutexRecursive with nobody in between and no time to wait */
  function TakeCall(s: State, t: Task): State
    requires PhaseOf(s, t).Outside?
  {
    var entered := Step(s, Take(t));
    if s.mutex.holder == HeldBy(t) then RaisedOnce(entered, t)
    else if s.mutex.waiting > 0 then RaisedOnce(Step(entered, Receive(t)), t)
    else Step(entered, FailToReceive(t))
  }

  /** xQueueGiveMutexRecursive with nobody in between */
  function GiveCall(s: State, t: Task): State
    requires PhaseOf(s, t).Outside?
  {
    var entered := Step(s, Give(t));
    if s.mutex.holder != HeldBy(t) then entered
    else
      var tested := Step(Step(Step(entered, LoadToLower(t)), StoreLowered(t)), Test(t));
      if PhaseOf(tested, t).Returning? then Step(tested, Send(t)) else tested
  }

  /** What the two calls amount to: the mutex they leave, and the caller's takes. */
  function TakenMutex(m: Mutex, t: Task): Mutex {
    if m.holder == HeldBy(t) then m.(count := Raised(m.count))
    else if m.waiting > 0 then Mutex(m.waiting - 1, HeldBy(t), Raised(m.count))
    else m
  }

  function GivenMutex(m: Mutex, t: Task): Mutex {
    if m.holder != HeldBy(t) then m
    else
      var count := LoweredCount(m.count);
      if count == 0 && m.waiting < 1 then Mutex(m.waiting + 1, Nobody, count) else m.(count := count)
  }

  lemma TakeCallIs(s: State, t: Task)
    requires PhaseOf(s, t).Outside?
    ensures var n := TakeCall(s, t);
            && n.mutex == TakenMutex(s.mutex, t) && PhaseOf(n, t).Outside?
            && DepthOf(n, t) == DepthOf(s, t) + (if n.mutex.holder == HeldBy(t) then 1 else 0)
            && forall u :: u != t ==> PhaseOf(n, u) == PhaseOf(s, u) && DepthOf(n, u) == DepthOf(s, u)
  {
  }

  lemma GiveCallIs(s: State, t: Task)
    requires PhaseOf(s, t).Outside? && (s.mutex.holder == HeldBy(t) ==> DepthOf(s, t) > 0)
    ensures var n := GiveCall(s, t);
            && n.mutex == GivenMutex(s.mutex, t) && PhaseOf(n, t).Outside?
            && DepthOf(n, t) == DepthOf(s, t) - (if s.mutex.holder == HeldBy(t) then 1 else 0)
            && forall u :: u != t ==> PhaseOf(n, u) == PhaseOf(s, u) && DepthOf(n, u) == DepthOf(s, u)
  {
    if s.mutex.holder == HeldBy(t) {
      var lowering := Step(Step(s, Give(t)), LoadToLower(t));
      var lowered := Step(lowering, StoreLowered(t));
      assert lowered.mutex == s.mutex.(count := LoweredCount(s.mutex.count));
      assert DepthOf(lowered, t) == DepthOf(s, t) - 1;
      assert PhaseOf(Step(lowered, Test(t)), t) == if lowered.mutex.count == 0 then Returning else Outside;
    }
  }

  /** A mutex between calls, its holder below 2^32 takes */
  ghost predicate Consistent(m: Mutex) {
    if m.holder.Nobody? then m.waiting == 1 && m.count == 0 else m.waiting == 0 && 0 < m.count < WORD
  }

  /** A give undoes the take before it, and a stranger can neither take nor give. */
  lemma GiveUndoesTake(m: Mutex, t: Task)
    requires Consistent(m) && m.count + 1 < WORD
    ensures Consistent(TakenMutex(m, t))
    ensures m.holder == HeldBy(t) || m.holder.Nobody? ==>
              TakenMutex(m, t).holder == HeldBy(t) && GivenMutex(TakenMutex(m, t), t) == m
    ensures m.holder.HeldBy? && m.holder.task != t ==> TakenMutex(m, t) == m && GivenMutex(m, t) == m
  {
  }

  // ------------------------------------------------------------------
  // Past the usage rule: the count wraps
  // ------------------------------------------------------------------

  /** `k` takes in a row by task `t`, with no limit on their number. */
  ghost function TakenTimes(s: State, t: Task, k: nat): (n: State)
    requires PhaseOf(s, t).Outside?
    ensures PhaseOf(n, t).Outside?
  {
    if k == 0 then s else TakeCallIs(TakenTimes(s, t, k - 1), t); TakeCall(TakenTimes(s, t, k - 1), t)
  }

  lemma RaisedRemainder(k: nat)
    ensures Raised(k % WORD) == (k + 1) % WORD
  {
    var q, r := k / WORD, k % WORD;
    if r + 1 == WORD {
      assert k + 1 == WORD * (q + 1);
    } else {
      assert k + 1 == WORD * q + (r + 1);
    }
  }

  lemma {:induction false} CountWraps(s: State, t: Task, k: nat)
    requires PhaseOf(s, t).Outside? && s.mutex == Mutex(1, Nobody, 0) && DepthOf(s, t) == 0 && k > 0
    ensures var n := TakenTimes(s, t, k);
            n.mutex == Mutex(0, HeldBy(t), k % WORD) && DepthOf(n, t) == k
    ensures forall u :: u != t ==>
              PhaseOf(TakenTimes(s, t, k), u) == PhaseOf(s, u) && DepthOf(TakenTimes(s, t, k), u) == DepthOf(s, u)
  {
    hide TakeCall, PhaseOf, DepthOf;
    TakeCallIs(TakenTimes(s, t, k - 1), t);
    if k > 1 {
      CountWraps(s, t, k - 1);
      RaisedRemainder(k - 1);
    }
  }

  /** After `k` takes a give hands the mutex back exactly when the wrapped count says one, so at 1, 2^32 + 1, ... */
  lemma GiveReturnsMutexIff(s: State, t: Task, k: nat)
    requires PhaseOf(s, t).Outside? && s.mutex == Mutex(1, Nobody, 0) && DepthOf(s, t) == 0 && k > 0
    ensures var n := GiveCall(TakenTimes(s, t, k), t);
            (n.mutex.holder.Nobody? <==> k % WORD == 1) && DepthOf(n, t) == k - 1
  {
    hide TakeCall, GiveCall;
    CountWraps(s, t, k);
    GiveCallIs(TakenTimes(s, t, k), t);
  }

  /** What a run comes to */
  datatype Outcome = Stuck | Reached(state: State)

  ghost function Result(s: State, run: seq<Action>, limit: nat): Outcome {
    if Possible(s, run, limit) then Reached(After(s, run, limit)) else Stuck
  }

  lemma Prepend(s: State, a: Action, rest: seq<Action>, limit: nat)
    requires Enabled(s, a) && WithinLimit(s, a, limit)
    ensures Result(s, [a] + rest, limit) == Result(Step(s, a), rest, limit)
  {
    assert ([a] + rest)[1..] == rest;
  }

  /** A take the holder can make, or that finds the mutex free, in front of a run */
  lemma TakeInFront(s: State, t: Task, rest: seq<Action>, limit: nat) returns (run: seq<Action>)
    requires PhaseOf(s, t).Outside? && (s.mutex.holder == HeldBy(t) || s.mutex.waiting > 0) && DepthOf(s, t) < limit
    ensures Result(s, run, limit) == Result(TakeCall(s, t), rest, limit)
  {
    hide Result;
    var entered := Step(s, Take(t));
    var toRaise := if s.mutex.holder == HeldBy(t) then entered else Step(entered, Receive(t));
    var raising := Step(toRaise, LoadToRaise(t));
    Prepend(raising, StoreRaised(t), rest, limit);
    run := [StoreRaised(t)] + rest;
    Prepend(toRaise, LoadToRaise(t), run, limit);
    run := [LoadToRaise(t)] + run;
    if s.mutex.holder != HeldBy(t) {
      Prepend(entered, Receive(t), run, limit);
      run := [Receive(t)] + run;
    }
    Prepend(s, Take(t), run, limit);
    run := [Take(t)] + run;
  }

  /** A give that hands the mutex back, in front of a run */
  lemma GiveInFront(s: State, t: Task, rest: seq<Action>, limit: nat) returns (run: seq<Action>)
    requires PhaseOf(s, t).Outside? && s.mutex.holder == HeldBy(t) && s.mutex.count == 1
    ensures Result(s, run, limit) == Result(GiveCall(s, t), rest, limit)
  {
    hide Result;
    var toLower := Step(s, Give(t));
    var lowering := Step(toLower, LoadToLower(t));
    var lowered := Step(lowering, StoreLowered(t));
    var returning := Step(lowered, Test(t));
    Prepend(returning, Send(t), rest, limit);
    run := [Send(t)] + rest;
    Prepend(lowered, Test(t), run, limit);
    run := [Test(t)] + run;
    Prepend(lowering, StoreLowered(t), run, limit);
    run := [StoreLowered(t)] + run;
    Prepend(toLower, LoadToLower(t), run, limit);
    run := [LoadToLower(t)] + run;
    Prepend(s, Give(t), run, limit);
    run := [Give(t)] + run;
  }

  lemma NotTaken(s: State, t: Task)
    requires PhaseOf(s, t).Outside?
    ensures TakenTimes(s, t, 0) == s
  {
  }

  lemma TakenOnceMore(s: State, t: Task, k: nat)
    requires PhaseOf(s, t).Outside? && s.mutex == Mutex(1, Nobody, 0) && DepthOf(s, t) == 0
    ensures var n := TakenTimes(s, t, k);
            && TakenTimes(s, t, k + 1) == TakeCall(n, t)
            && (n.mutex.holder == HeldBy(t) || n.mutex.waiting > 0) && DepthOf(n, t) == k
  {
    hide TakeCall;
    if k > 0 {
      CountWraps(s, t, k);
    }
  }

  lemma {:induction false} TakesInFront(s: State, t: Task, k: nat, rest: seq<Action>, limit: nat)
    returns (run: seq<Action>)
    requires PhaseOf(s, t).Outside? && s.mutex == Mutex(1, Nobody, 0) && DepthOf(s, t) == 0 && k <= limit
    ensures Result(s, run, limit) == Result(TakenTimes(s, t, k), rest, limit)
    decreases k
  {
    hide Result, TakeCall, TakenTimes, PhaseOf, DepthOf;
    run := rest;
    NotTaken(s, t);
    if k > 0 {
      TakenOnceMore(s, t, k - 1);
      run := TakeInFront(TakenTimes(s, t, k - 1), t, rest, limit);
      run := TakesInFront(s, t, k - 1, run, limit);
    }
  }

  /** With 2^32 + 1 takes allowed exclusion is lost: task 0 takes that often and gives once, and task 1 takes. */
  lemma SharedPastLimit(limit: nat) returns (run: seq<Action>)
    requires limit > WORD
    ensures Result(Created(), run, limit).Reached? && Shared(Result(Created(), run, limit).state, 0, 1)
  {
    hide Result, TakeCall, GiveCall;
    var taken := TakenTimes(Created(), 0, WORD + 1);
    CountWraps(Created(), 0, WORD + 1);
    GiveCallIs(taken, 0);
    var given := GiveCall(taken, 0);
    TakeCallIs(given, 1);
    var last := TakeCall(given, 1);
    EmptyRun(last, limit);
    run := TakeInFront(given, 1, [], limit);
    run := GiveInFront(taken, 0, run, limit);
    run := TakesInFront(Created(), 0, WORD + 1, run, limit);
  }

  lemma EmptyRun(s: State, limit: nat)
    ensures Result(s, [], limit) == Reached(s)
  {
  }

  ghost predicate Exclusive(limit: nat) {
    forall run, t, u :: Possible(Created(), run, limit) ==> !Shared(After(Created(), run, limit), t, u)
  }

  /** The exact limit: no interleaving lets two tasks hold the mutex if and only if no task may exceed 2^32 takes. */
  lemma ExclusiveIff(limit: nat)
    ensures Exclusive(limit) <==> limit <= WORD
  {
    if limit <= WORD {
      forall run, t, u | Possible(Created(), run, limit)
        ensures !Shared(After(Created(), run, limit), t, u)
      {
        Exclusion(run, limit, t, u);
      }
    } else {
      var run := SharedPastLimit(limit);
    }
  }

  // ------------------------------------------------------------------
  // The code
  // ------------------------------------------------------------------

  class MutexControl {
    var messagesWaiting: nat
    var holder: Holder
    var recursiveCallCount: nat

    ghost function View(): Mutex
      reads this
    {
      Mutex(messagesWaiting, holder, recursiveCallCount)
    }

    /** xQueueCreateMutex with prvInitialiseMutex */
    constructor ()
      ensures View() == Created().mutex && Consistent(View())
    {
      messagesWaiting, holder, recursiveCallCount := 1, Nobody, 0;
    }

    method TakeRecursive(task: Task) returns (taken: bool)
      modifies this
      ensures View() == TakenMutex(old(View()), task)
      ensures taken <==> holder == HeldBy(task)
    {
      if holder == HeldBy(task) {
        recursiveCallCount := Raised(recursiveCallCount);
        taken := true;
      } else {
        taken := messagesWaiting > 0;
        if taken {
          messagesWaiting := messagesWaiting - 1;
          holder := HeldBy(task);
          recursiveCallCount := Raised(recursiveCallCount);
        }
      }
    }

    method GiveRecursive(task: Task) returns (given: bool)
      modifies this
      ensures View() == GivenMutex(old(View()), task)
      ensures given <==> old(holder) == HeldBy(task)
    {
      given := holder == HeldBy(task);
      if given {
        recursiveCallCount := LoweredCount(recursiveCallCount);
        if recursiveCallCount == 0 {
          if messagesWaiting < 1 {
            messagesWaiting := messagesWaiting + 1;
            holder := Nobody;
          }
        }
      }
    }
  }
}
