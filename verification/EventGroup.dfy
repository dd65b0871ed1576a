/**
 Event groups: freertos/source/event_groups.c with 32-bit ticks.

 A word of event bits is the set of the positions of its one bits, so `|`,
 `&` and `& ~` are `+`, `*` and `-`. The waiting list is the sequence of the
 blocked tasks with the item value each was given, control bits included.
 */
module EventGroup {

  type Task = nat
  type Bits = set<nat>

  const CLEAR_EVENTS_ON_EXIT: Bits := {24}
  const UNBLOCKED_DUE_TO_BIT_SET: Bits := {25}
  const WAIT_FOR_ALL: Bits := {26}
  // taskEVENT_LIST_ITEM_VALUE_IN_USE, set by vTaskPlaceOnUnorderedEventList
  const IN_USE: Bits := {31}
  // eventEVENT_BITS_CONTROL_BYTES
  const CONTROL: Bits := {24, 25, 26, 27, 28, 29, 30, 31}

  datatype Waiter = Waiter(task: Task, value: Bits)

  datatype Group = Group(bits: Bits, waiting: seq<Waiter>)

  /** The bits a caller may name: none of the kernel's own. */
  predicate UserBits(b: Bits) {
    b !! CONTROL
  }

  /** prvTestWaitCondition */
  predicate WaitCondition(current: Bits, waitFor: Bits, all: bool) {
    if all then current * waitFor == waitFor else current * waitFor != {}
  }

  /** The item value stored for a task that blocks. */
  function ItemValue(waitFor: Bits, clearOnExit: bool, all: bool): Bits {
    waitFor + (if clearOnExit then CLEAR_EVENTS_ON_EXIT else {}) + (if all then WAIT_FOR_ALL else {}) + IN_USE
  }

  function WaitedFor(value: Bits): Bits {
    value - CONTROL
  }

  predicate ClearsOnExit(value: Bits) {
    value * CONTROL * CLEAR_EVENTS_ON_EXIT != {}
  }

  predicate ForAll(value: Bits) {
    value * CONTROL * WAIT_FOR_ALL != {}
  }

  /** xMatchFound in xEventGroupSetBits */
  predicate Matches(value: Bits, bits: Bits) {
    if !ForAll(value) then WaitedFor(value) * bits != {} else WaitedFor(value) * bits == WaitedFor(value)
  }

  /** What was packed into the item value comes out of it. */
  lemma ItemValueUnpacks(waitFor: Bits, clearOnExit: bool, all: bool, bits: Bits)
    requires UserBits(waitFor)
    ensures var v := ItemValue(waitFor, clearOnExit, all);
            && WaitedFor(v) == waitFor && ClearsOnExit(v) == clearOnExit && ForAll(v) == all
            && (Matches(v, bits) <==> WaitCondition(bits, waitFor, all))
  {
    var v := ItemValue(waitFor, clearOnExit, all);
    assert WaitedFor(v) == waitFor;
    assert v * CONTROL == v - waitFor;
    assert clearOnExit ==> 24 in v * CONTROL * CLEAR_EVENTS_ON_EXIT;
    assert all ==> 26 in v * CONTROL * WAIT_FOR_ALL;
    assert waitFor * bits == bits * waitFor;
  }

  // ------------------------------------------------------------------
  // Setting bits
  // ------------------------------------------------------------------

  /** The waiters left blocked. */
  function Remaining(ws: seq<Waiter>, bits: Bits): seq<Waiter> {
    if ws == [] then []
    else if Matches(ws[0].value, bits) then Remaining(ws[1..], bits)
    else [ws[0]] + Remaining(ws[1..], bits)
  }

  /** The waiters unblocked, each with the value it wakes up to. */
  function Released(ws: seq<Waiter>, bits: Bits): seq<Waiter> {
    if ws == [] then []
    else if Matches(ws[0].value, bits) then
      [Waiter(ws[0].task, bits + UNBLOCKED_DUE_TO_BIT_SET + IN_USE)] + Released(ws[1..], bits)
    else Released(ws[1..], bits)
  }

  /** uxBitsToClear at the end of the walk. */
  function Cleared(ws: seq<Waiter>, bits: Bits): Bits {
    if ws == [] then {}
    else (if Matches(ws[0].value, bits) && ClearsOnExit(ws[0].value) then WaitedFor(ws[0].value) else {})
         + Cleared(ws[1..], bits)
  }

  /** xEventGroupSetBits */
  function SetBits(g: Group, toSet: Bits): Group {
    var now := g.bits + toSet;
    Group(now - Cleared(g.waiting, now), Remaining(g.waiting, now))
  }

  lemma NobodyLeft(bits: Bits)
    ensures Remaining([], bits) == [] && Released([], bits) == [] && Cleared([], bits) == {}
  {
  }

  /** The first waiter of a list either stays or is released. */
  lemma OneWaiter(ws: seq<Waiter>, bits: Bits)
    requires ws != []
    ensures var w, rest := ws[0], ws[1..];
            if Matches(w.value, bits) then
              && Remaining(ws, bits) == Remaining(rest, bits)
              && Released(ws, bits) == [Waiter(w.task, bits + UNBLOCKED_DUE_TO_BIT_SET + IN_USE)] + Released(rest, bits)
              && Cleared(ws, bits) == (if ClearsOnExit(w.value) then WaitedFor(w.value) else {}) + Cleared(rest, bits)
            else
              && Remaining(ws, bits) == [w] + Remaining(rest, bits)
              && Released(ws, bits) == Released(rest, bits) && Cleared(ws, bits) == Cleared(rest, bits)
  {
  }

  /** The tests the code makes on an item value */
  lemma ItemTested(value: Bits, bits: Bits)
    ensures Matches(value, bits) <==>
              if value * CONTROL * WAIT_FOR_ALL == {} then (value - CONTROL) * bits != {}
              else (value - CONTROL) * bits == value - CONTROL
    ensures ClearsOnExit(value) <==> value * CONTROL * CLEAR_EVENTS_ON_EXIT != {}
  {
  }

  lemma {:induction false} RemainingExactly(ws: seq<Waiter>, bits: Bits, w: Waiter)
    ensures w in Remaining(ws, bits) <==> w in ws && !Matches(w.value, bits)
  {
    if ws != [] {
      RemainingExactly(ws[1..], bits, w);
      assert w in ws <==> w == ws[0] || w in ws[1..];
    }
  }

  lemma {:induction false} ReleasedExactly(ws: seq<Waiter>, bits: Bits, w: Waiter)
    ensures w in Released(ws, bits) <==>
              w.value == bits + UNBLOCKED_DUE_TO_BIT_SET + IN_USE
              && exists i :: 0 <= i < |ws| && ws[i].task == w.task && Matches(ws[i].value, bits)
  {
    if ws != [] {
      ReleasedExactly(ws[1..], bits, w);
      assert forall i :: 1 <= i < |ws| ==> ws[i] == ws[1..][i - 1];
      assert forall i :: 0 <= i < |ws[1..]| ==> ws[1..][i] == ws[i + 1];
    }
  }

  lemma {:induction false} ClearedExactly(ws: seq<Waiter>, bits: Bits, b: nat)
    ensures b in Cleared(ws, bits) <==>
              exists i :: 0 <= i < |ws| && Matches(ws[i].value, bits) && ClearsOnExit(ws[i].value)
                          && b in WaitedFor(ws[i].value)
  {
    if ws != [] {
      ClearedExactly(ws[1..], bits, b);
      assert forall i :: 1 <= i < |ws| ==> ws[i] == ws[1..][i - 1];
      assert forall i :: 0 <= i < |ws[1..]| ==> ws[1..][i] == ws[i + 1];
    }
  }

  /** A bit survives a set unless some waiter it released had asked for that bit to be cleared. */
  lemma BitsAfterSet(g: Group, toSet: Bits, b: nat)
    ensures b in SetBits(g, toSet).bits <==>
              && (b in g.bits || b in toSet)
              && !exists i :: 0 <= i < |g.waiting| && Matches(g.waiting[i].value, g.bits + toSet)
                   && ClearsOnExit(g.waiting[i].value) && b in WaitedFor(g.waiting[i].value)
  {
    ClearedExactly(g.waiting, g.bits + toSet, b);
  }

  /** Nobody is lost or made up: each waiter is either released or left. */
  lemma {:induction false} EachWaiterOnce(ws: seq<Waiter>, bits: Bits)
    ensures |Remaining(ws, bits)| + |Released(ws, bits)| == |ws|
  {
    if ws != [] {
      EachWaiterOnce(ws[1..], bits);
    }
  }

  /** The bits left after a set do not depend on the order of the waiting list. */
  lemma SetBitsIgnoresOrder(g: Group, h: Group, toSet: Bits)
    requires g.bits == h.bits && (forall w :: w in g.waiting <==> w in h.waiting)
    ensures SetBits(g, toSet).bits == SetBits(h, toSet).bits
    ensures forall w :: w in SetBits(g, toSet).waiting <==> w in SetBits(h, toSet).waiting
  {
    var now := g.bits + toSet;
    forall b: nat
      ensures b in Cleared(g.waiting, now) <==> b in Cleared(h.waiting, now)
    {
      ClearedExactly(g.waiting, now, b);
      ClearedExactly(h.waiting, now, b);
      assert forall i :: 0 <= i < |g.waiting| ==> g.waiting[i] in h.waiting;
      assert forall i :: 0 <= i < |h.waiting| ==> h.waiting[i] in g.waiting;
    }
    assert Cleared(g.waiting, now) == Cleared(h.waiting, now);
    forall w: Waiter
      ensures w in Remaining(g.waiting, now) <==> w in Remaining(h.waiting, now)
    {
      RemainingExactly(g.waiting, now, w);
      RemainingExactly(h.waiting, now, w);
    }
  }

  // ------------------------------------------------------------------
  // The other operations
  // ------------------------------------------------------------------

  /** What a call does at once: return a value, or leave the caller blocked. */
  datatype Outcome = Returns(value: Bits) | Blocks

  function ClearBits(g: Group, toClear: Bits): Group {
    g.(bits := g.bits - toClear)
  }

  function Join(g: Group, w: Waiter): Group {
    g.(waiting := g.waiting + [w])
  }

  /** xEventGroupWaitBits up to xTaskResumeAll */
  function WaitBits(g: Group, t: Task, waitFor: Bits, clearOnExit: bool, all: bool, patient: bool): (Group, Outcome) {
    if WaitCondition(g.bits, waitFor, all) then
      (if clearOnExit then ClearBits(g, waitFor) else g, Returns(g.bits))
    else if !patient then (g, Returns(g.bits))
    else (Join(g, Waiter(t, ItemValue(waitFor, clearOnExit, all))), Blocks)
  }

  /** xEventGroupSync up to xTaskResumeAll */
  function Sync(g: Group, t: Task, toSet: Bits, waitFor: Bits, patient: bool): (Group, Outcome) {
    var set' := SetBits(g, toSet);
    var all := g.bits + toSet;
    if all * waitFor == waitFor then (ClearBits(set', waitFor), Returns(all))
    else if patient then (Join(set', Waiter(t, ItemValue(waitFor, true, true))), Blocks)
    else (set', Returns(set'.bits))
  }

  /** The critical section of a waiter whose time ran out. */
  function TimedOut(g: Group, waitFor: Bits, clearOnExit: bool, all: bool): (Group, Bits) {
    (if WaitCondition(g.bits, waitFor, all) && clearOnExit then ClearBits(g, waitFor) else g, g.bits - CONTROL)
  }

  // ------------------------------------------------------------------
  // Nobody sleeps with its condition satisfied
  // ------------------------------------------------------------------

  ghost predicate Settled(g: Group) {
    forall i :: 0 <= i < |g.waiting| ==>
      WaitedFor(g.waiting[i].value) != {} && !Matches(g.waiting[i].value, g.bits)
  }

  lemma FewerBitsSettled(g: Group, bits: Bits)
    requires Settled(g) && bits <= g.bits
    ensures Settled(g.(bits := bits))
  {
    forall i | 0 <= i < |g.waiting|
      ensures !Matches(g.waiting[i].value, bits)
    {
      var v := g.waiting[i].value;
      if !ForAll(v) {
        assert WaitedFor(v) * bits <= WaitedFor(v) * g.bits;
      } else {
        assert WaitedFor(v) * bits <= WaitedFor(v) * g.bits <= WaitedFor(v);
      }
    }
  }

  /** Settled but for the tests on `bits`. */
  ghost predicate Waits(g: Group) {
    forall i :: 0 <= i < |g.waiting| ==> WaitedFor(g.waiting[i].value) != {}
  }

  lemma SetBitsSettles(g: Group, toSet: Bits)
    requires Waits(g)
    ensures Settled(SetBits(g, toSet)) && SetBits(g, toSet).bits <= g.bits + toSet
  {
    var now := g.bits + toSet;
    var left := Group(now, Remaining(g.waiting, now));
    forall i | 0 <= i < |left.waiting|
      ensures WaitedFor(left.waiting[i].value) != {} && !Matches(left.waiting[i].value, now)
    {
      RemainingExactly(g.waiting, now, left.waiting[i]);
    }
    FewerBitsSettled(left, now - Cleared(g.waiting, now));
  }

  lemma JoinSettled(g: Group, w: Waiter)
    requires Settled(g) && WaitedFor(w.value) != {} && !Matches(w.value, g.bits)
    ensures Settled(Join(g, w))
  {
  }

  datatype Action =
    | DoSet(toSet: Bits)
    | DoClear(toClear: Bits)
    | DoWait(t: Task, waitFor: Bits, clearOnExit: bool, all: bool, patient: bool)
    | DoSync(t: Task, toSet: Bits, waitFor: Bits, patient: bool)
    | Expire(place: nat)                                           // the tick takes a waiter off the list
    | DoTimedOut(waitFor: Bits, clearOnExit: bool, all: bool)

  /** The configASSERTs of each call. */
  predicate Enabled(g: Group, a: Action) {
    match a
    case DoSet(b) => UserBits(b)
    case DoClear(b) => UserBits(b)
    case DoWait(_, w, _, _, _) => UserBits(w) && w != {}
    case DoSync(_, b, w, _) => UserBits(b) && UserBits(w) && w != {}
    case Expire(p) => p < |g.waiting|
    case DoTimedOut(w, _, _) => UserBits(w) && w != {}
  }

  function Step(g: Group, a: Action): Group
    requires Enabled(g, a)
  {
    match a
    case DoSet(b) => SetBits(g, b)
    case DoClear(b) => ClearBits(g, b)
    case DoWait(t, w, c, all, patient) => WaitBits(g, t, w, c, all, patient).0
    case DoSync(t, b, w, patient) => Sync(g, t, b, w, patient).0
    case Expire(p) => g.(waiting := g.waiting[..p] + g.waiting[p + 1..])
    case DoTimedOut(w, c, all) => TimedOut(g, w, c, all).0
  }

  lemma StepSettled(g: Group, a: Action)
    requires Settled(g) && Enabled(g, a)
    ensures Settled(Step(g, a))
  {
    match a
    case DoSet(b) => SetBitsSettles(g, b);
    case DoClear(b) => FewerBitsSettled(g, g.bits - b);
    case DoWait(t, w, c, all, patient) =>
      FewerBitsSettled(g, g.bits - w);
      ItemValueUnpacks(w, c, all, g.bits);
      if patient && !WaitCondition(g.bits, w, all) {
        JoinSettled(g, Waiter(t, ItemValue(w, c, all)));
      }
    case DoSync(t, b, w, patient) => SyncSettled(g, t, b, w, patient);
    case Expire(p) =>
    case DoTimedOut(w, c, all) => FewerBitsSettled(g, g.bits - w);
  }

  lemma SyncSettled(g: Group, t: Task, b: Bits, w: Bits, patient: bool)
    requires Settled(g) && UserBits(w) && w != {}
    ensures Settled(Sync(g, t, b, w, patient).0)
  {
    var after := SetBits(g, b);
    SetBitsSettles(g, b);
    FewerBitsSettled(after, after.bits - w);
    if (g.bits + b) * w != w && patient {
      ItemValueUnpacks(w, true, true, after.bits);
      assert after.bits * w <= (g.bits + b) * w <= w;
      JoinSettled(after, Waiter(t, ItemValue(w, true, true)));
    }
  }

  ghost predicate Possible(g: Group, actions: seq<Action>)
    decreases actions
  {
    actions == [] || (Enabled(g, actions[0]) && Possible(Step(g, actions[0]), actions[1..]))
  }

  ghost function After(g: Group, actions: seq<Action>): Group
    requires Possible(g, actions)
    decreases actions
  {
    if actions == [] then g else After(Step(g, actions[0]), actions[1..])
  }

  /** Over every run from a new group, no task stays blocked with its condition satisfied. */
  lemma {:induction false} NobodySleepsSatisfied(g: Group, actions: seq<Action>)
    requires Settled(g) && Possible(g, actions)
    ensures Settled(After(g, actions))
    decreases actions
  {
    if actions != [] {
      StepSettled(g, actions[0]);
      NobodySleepsSatisfied(Step(g, actions[0]), actions[1..]);
    }
  }

  // ------------------------------------------------------------------
  // Callers, from call to return
  // ------------------------------------------------------------------

  /** What a call waits for */
  datatype Ask = Ask(waitFor: Bits, clearOnExit: bool, all: bool)

  datatype Caller =
    | Away
    | Listed(ask: Ask)
    | Woken(ask: Ask, item: Bits)                               // taken off the list by a set, not yet running
    | Late(ask: Ask)                                            // taken off the list by the tick
    | Back(ask: Ask, patient: bool, onTime: bool, value: Bits)  // `onTime` unless its time ran out

  datatype System = System(group: Group, callers: map<Task, Caller>)

  datatype Call =
    | CallWait(t: Task, ask: Ask, patient: bool)
    | CallSync(t: Task, toSet: Bits, waitFor: Bits, patient: bool)
    | CallSet(toSet: Bits)
    | CallClear(toClear: Bits)
    | Tick(t: Task)
    | Resume(t: Task)

  function CallerIn(callers: map<Task, Caller>, t: Task): Caller {
    if t in callers then callers[t] else Away
  }

  function CallerOf(s: System, t: Task): Caller {
    CallerIn(s.callers, t)
  }

  predicate Proper(ask: Ask) {
    UserBits(ask.waitFor) && ask.waitFor != {}
  }

  function ItemOf(ask: Ask): Bits {
    ItemValue(ask.waitFor, ask.clearOnExit, ask.all)
  }

  predicate Satisfies(bits: Bits, ask: Ask) {
    WaitCondition(bits, ask.waitFor, ask.all)
  }

  /** The condition in plain words: every bit asked for, or some bit asked for, is set. */
  lemma SatisfiesMeans(bits: Bits, ask: Ask)
    ensures ask.all ==> (Satisfies(bits, ask) <==> forall b :: b in ask.waitFor ==> b in bits)
    ensures !ask.all ==> (Satisfies(bits, ask) <==> exists b :: b in ask.waitFor && b in bits)
  {
    if ask.all {
      assert bits * ask.waitFor == ask.waitFor <==> ask.waitFor <= bits;
    } else if b :| b in ask.waitFor && b in bits {
      assert b in bits * ask.waitFor;
    }
  }

  predicate MayCall(c: Caller) {
    c.Away? || c.Back?
  }

  predicate CallEnabled(s: System, a: Call) {
    match a
    case CallWait(t, ask, _) => MayCall(CallerOf(s, t)) && Proper(ask)
    case CallSync(t, b, w, _) => MayCall(CallerOf(s, t)) && UserBits(b) && Proper(Ask(w, true, true))
    case CallSet(b) => UserBits(b)
    case CallClear(b) => UserBits(b)
    case Tick(t) => CallerOf(s, t).Listed?
    case Resume(t) => CallerOf(s, t).Woken? || CallerOf(s, t).Late?
  }

  /** Each released task is handed its new item value. */
  function WithWoken(callers: map<Task, Caller>, released: seq<Waiter>): map<Task, Caller>
    decreases released
  {
    if released == [] then callers
    else
      var w := released[0];
      var c := CallerIn(callers, w.task);
      WithWoken(if c.Listed? then callers[w.task := Woken(c.ask, w.value)] else callers, released[1..])
  }

  /** uxListRemove on the item of a task */
  function WithoutTask(ws: seq<Waiter>, t: Task): seq<Waiter> {
    if ws == [] then [] else if ws[0].task == t then ws[1..] else [ws[0]] + WithoutTask(ws[1..], t)
  }

  function AfterSet(s: System, toSet: Bits): System {
    System(SetBits(s.group, toSet), WithWoken(s.callers, Released(s.group.waiting, s.group.bits + toSet)))
  }

  function Answered(s: System, t: Task, ask: Ask, patient: bool, g: Group, r: Outcome): System {
    System(g, s.callers[t := match r
                             case Returns(v) => Back(ask, patient, true, v)
                             case Blocks => Listed(ask)])
  }

  function CallStep(s: System, a: Call): System
    requires CallEnabled(s, a)
  {
    match a
    case CallWait(t, ask, patient) =>
      var (g, r) := WaitBits(s.group, t, ask.waitFor, ask.clearOnExit, ask.all, patient);
      Answered(s, t, ask, patient, g, r)
    case CallSync(t, b, w, patient) =>
      var (g, r) := Sync(s.group, t, b, w, patient);
      Answered(AfterSet(s, b), t, Ask(w, true, true), patient, g, r)
    case CallSet(b) => AfterSet(s, b)
    case CallClear(b) => s.(group := ClearBits(s.group, b))
    case Tick(t) =>
      System(s.group.(waiting := WithoutTask(s.group.waiting, t)), s.callers[t := Late(CallerOf(s, t).ask)])
    case Resume(t) =>
      match CallerOf(s, t)
      case Woken(ask, item) => s.(callers := s.callers[t := Back(ask, true, true, item - CONTROL)])
      case Late(ask) =>
        var (g, v) := TimedOut(s.group, ask.waitFor, ask.clearOnExit, ask.all);
        System(g, s.callers[t := Back(ask, true, false, v)])
      case _ => s
  }

  ghost predicate OneEach(ws: seq<Waiter>) {
    forall i, j :: 0 <= i < j < |ws| ==> ws[i].task != ws[j].task
  }

  /** Blocked callers and items on the list are the same, one to one, each item as its call asked. */
  ghost predicate ListMatches(s: System) {
    && OneEach(s.group.waiting)
    && (forall w :: w in s.group.waiting ==>
          CallerOf(s, w.task).Listed? && w.value == ItemOf(CallerOf(s, w.task).ask))
    && (forall t :: CallerOf(s, t).Listed? ==> Waiter(t, ItemOf(CallerOf(s, t).ask)) in s.group.waiting)
  }

  /** What a caller off the list has been told is right. */
  ghost predicate Right(c: Caller) {
    match c
    case Away => true
    case Listed(ask) => Proper(ask)
    case Woken(ask, item) => Proper(ask) && UNBLOCKED_DUE_TO_BIT_SET <= item && Satisfies(item - CONTROL, ask)
    case Late(ask) => Proper(ask)
    case Back(ask, patient, onTime, value) => patient && onTime ==> Satisfies(value, ask)
  }

  ghost predicate CallsInv(s: System) {
    && UserBits(s.group.bits)
    && ListMatches(s)
    && forall t :: Right(CallerOf(s, t))
  }

  /** A waiter of task `t` */
  ghost predicate Names(ws: seq<Waiter>, t: Task) {
    exists i :: 0 <= i < |ws| && ws[i].task == t
  }

  /** A waiter of task `t` whose condition holds */
  ghost predicate NamesMatch(ws: seq<Waiter>, bits: Bits, t: Task) {
    exists i :: 0 <= i < |ws| && ws[i].task == t && Matches(ws[i].value, bits)
  }

  lemma {:induction false} WokenExactly(callers: map<Task, Caller>, released: seq<Waiter>, value: Bits, t: Task)
    requires forall i :: 0 <= i < |released| ==> released[i].value == value
    ensures CallerIn(WithWoken(callers, released), t) ==
              if CallerIn(callers, t).Listed? && Names(released, t)
              then Woken(CallerIn(callers, t).ask, value) else CallerIn(callers, t)
    decreases released
  {
    if released != [] {
      var w := released[0];
      var c := CallerIn(callers, w.task);
      var next := if c.Listed? then callers[w.task := Woken(c.ask, w.value)] else callers;
      WokenExactly(next, released[1..], value, t);
      assert forall i :: 1 <= i < |released| ==> released[i] == released[1..][i - 1];
      assert forall i :: 0 <= i < |released[1..]| ==> released[1..][i] == released[i + 1];
    }
  }

  lemma {:induction false} RemainingOneEach(ws: seq<Waiter>, bits: Bits)
    requires OneEach(ws)
    ensures OneEach(Remaining(ws, bits))
  {
    if ws != [] {
      RemainingOneEach(ws[1..], bits);
      forall w | w in Remaining(ws[1..], bits)
        ensures w.task != ws[0].task
      {
        RemainingExactly(ws[1..], bits, w);
        var j :| 0 <= j < |ws[1..]| && ws[1..][j] == w;
        assert ws[j + 1] == w;
      }
    }
  }

  /** Who is released: the listed tasks whose condition holds, all with the one value */
  lemma ReleasedTasks(ws: seq<Waiter>, bits: Bits, t: Task)
    ensures Names(Released(ws, bits), t) <==> NamesMatch(ws, bits, t)
    ensures forall i :: 0 <= i < |Released(ws, bits)| ==>
              Released(ws, bits)[i].value == bits + UNBLOCKED_DUE_TO_BIT_SET + IN_USE
  {
    var value := bits + UNBLOCKED_DUE_TO_BIT_SET + IN_USE;
    ReleasedExactly(ws, bits, Waiter(t, value));
    forall i | 0 <= i < |Released(ws, bits)|
      ensures Released(ws, bits)[i].value == value
    {
      ReleasedExactly(ws, bits, Released(ws, bits)[i]);
    }
    if i :| 0 <= i < |Released(ws, bits)| && Released(ws, bits)[i].task == t {
      assert Released(ws, bits)[i] == Waiter(t, value);
    }
    if i :| 0 <= i < |ws| && ws[i].task == t && Matches(ws[i].value, bits) {
      var j :| 0 <= j < |Released(ws, bits)| && Released(ws, bits)[j] == Waiter(t, value);
    }
  }

  /** A set wakes exactly the blocked callers whose condition holds, and tells them the bits. */
  lemma SetWakes(s: System, toSet: Bits, t: Task)
    requires CallsInv(s) && UserBits(toSet)
    ensures var now, c := s.group.bits + toSet, CallerOf(s, t);
            CallerOf(AfterSet(s, toSet), t) ==
              if c.Listed? && Satisfies(now, c.ask)
              then Woken(c.ask, now + UNBLOCKED_DUE_TO_BIT_SET + IN_USE) else c
  {
    hide Matches, Satisfies, Released, Right, ListMatches, Names, NamesMatch;
    var now := s.group.bits + toSet;
    ReleasedTasks(s.group.waiting, now, t);
    WokenExactly(s.callers, Released(s.group.waiting, now), now + UNBLOCKED_DUE_TO_BIT_SET + IN_USE, t);
    if CallerOf(s, t).Listed? {
      MatchesIfListed(s, now, t);
    }
  }

  /** The item of a blocked caller matches when its condition holds. */
  lemma MatchesIfListed(s: System, now: Bits, t: Task)
    requires CallsInv(s) && CallerOf(s, t).Listed?
    ensures NamesMatch(s.group.waiting, now, t) <==> Satisfies(now, CallerOf(s, t).ask)
  {
    var ask := CallerOf(s, t).ask;
    assert Right(CallerOf(s, t));
    ItemValueUnpacks(ask.waitFor, ask.clearOnExit, ask.all, now);
    hide Matches, Satisfies, Right;
    var w := Waiter(t, ItemOf(ask));
    var i :| 0 <= i < |s.group.waiting| && s.group.waiting[i] == w;
    assert forall j :: 0 <= j < |s.group.waiting| && s.group.waiting[j].task == t ==>
        s.group.waiting[j] in s.group.waiting && s.group.waiting[j].value == w.value;
  }

  lemma SetKeepsCalls(s: System, toSet: Bits)
    requires CallsInv(s) && UserBits(toSet)
    ensures CallsInv(AfterSet(s, toSet))
    ensures forall t :: MayCall(CallerOf(s, t)) ==> CallerOf(AfterSet(s, toSet), t) == CallerOf(s, t)
  {
    var n, now := AfterSet(s, toSet), s.group.bits + toSet;
    RemainingOneEach(s.group.waiting, now);
    forall t
      ensures Right(CallerOf(n, t))
      ensures MayCall(CallerOf(s, t)) ==> CallerOf(n, t) == CallerOf(s, t)
      ensures CallerOf(n, t).Listed? ==> Waiter(t, ItemOf(CallerOf(n, t).ask)) in n.group.waiting
    {
      SetWakes(s, toSet, t);
      assert Right(CallerOf(s, t));
      assert now + UNBLOCKED_DUE_TO_BIT_SET + IN_USE - CONTROL == now;
      if CallerOf(n, t).Listed? {
        var ask := CallerOf(s, t).ask;
        ItemValueUnpacks(ask.waitFor, ask.clearOnExit, ask.all, now);
        RemainingExactly(s.group.waiting, now, Waiter(t, ItemOf(ask)));
      }
    }
    forall w | w in n.group.waiting
      ensures CallerOf(n, w.task).Listed? && w.value == ItemOf(CallerOf(n, w.task).ask)
    {
      RemainingExactly(s.group.waiting, now, w);
      SetWakes(s, toSet, w.task);
      var ask := CallerOf(s, w.task).ask;
      assert Right(CallerOf(s, w.task));
      ItemValueUnpacks(ask.waitFor, ask.clearOnExit, ask.all, now);
    }
  }

  /** A call that is answered leaves the list as it was; one that blocks is on it at the end. */
  lemma AnswerKeepsCalls(s: System, t: Task, ask: Ask, patient: bool, bits: Bits, r: Outcome)
    requires CallsInv(s) && MayCall(CallerOf(s, t)) && Proper(ask) && UserBits(bits)
    requires r.Returns? && patient ==> Satisfies(r.value, ask)
    ensures var g := Group(bits, s.group.waiting + if r.Blocks? then [Waiter(t, ItemOf(ask))] else []);
            CallsInv(Answered(s, t, ask, patient, g, r))
  {
    var g := Group(bits, s.group.waiting + if r.Blocks? then [Waiter(t, ItemOf(ask))] else []);
    var n := Answered(s, t, ask, patient, g, r);
    AnswerKeepsList(s, t, ask, patient, g, r);
    hide ListMatches, Proper, Satisfies;
    forall u
      ensures Right(CallerOf(n, u))
    {
      assert Right(CallerOf(s, u));
    }
  }

  lemma AnswerKeepsList(s: System, t: Task, ask: Ask, patient: bool, g: Group, r: Outcome)
    requires ListMatches(s) && MayCall(CallerOf(s, t))
    requires g.waiting == s.group.waiting + if r.Blocks? then [Waiter(t, ItemOf(ask))] else []
    ensures ListMatches(Answered(s, t, ask, patient, g, r))
  {
    hide ItemOf;
    var n := Answered(s, t, ask, patient, g, r);
    assert forall u :: u != t ==> CallerOf(n, u) == CallerOf(s, u);
    assert forall w :: w in s.group.waiting ==> w.task != t;
    assert forall w :: w in g.waiting ==> w in s.group.waiting || (r.Blocks? && w == Waiter(t, ItemOf(ask)));
    assert r.Blocks? ==> g.waiting[|s.group.waiting|] == Waiter(t, ItemOf(ask));
    forall u | CallerOf(n, u).Listed?
      ensures Waiter(u, ItemOf(CallerOf(n, u).ask)) in g.waiting
    {
      if u != t {
        var i :| 0 <= i < |s.group.waiting| && s.group.waiting[i] == Waiter(u, ItemOf(CallerOf(s, u).ask));
        assert g.waiting[i] == s.group.waiting[i];
      }
    }
  }

  lemma {:induction false} WithoutTaskIs(ws: seq<Waiter>, t: Task)
    requires OneEach(ws)
    ensures OneEach(WithoutTask(ws, t)) && forall w :: w in WithoutTask(ws, t) <==> w in ws && w.task != t
  {
    if ws != [] {
      WithoutTaskIs(ws[1..], t);
      assert ws == [ws[0]] + ws[1..];
      assert forall w :: w in ws[1..] ==> w.task != ws[0].task;
    }
  }

  lemma TickKeepsCalls(s: System, t: Task)
    requires CallsInv(s) && CallEnabled(s, Tick(t))
    ensures CallsInv(CallStep(s, Tick(t)))
  {
    var n := CallStep(s, Tick(t));
    WithoutTaskIs(s.group.waiting, t);
    assert Right(CallerOf(s, t));
    assert forall u :: u != t ==> CallerOf(n, u) == CallerOf(s, u);
    forall u
      ensures Right(CallerOf(n, u))
    {
      assert Right(CallerOf(s, u));
    }
  }

  lemma ResumeKeepsCalls(s: System, t: Task)
    requires CallsInv(s) && CallEnabled(s, Resume(t))
    ensures CallsInv(CallStep(s, Resume(t)))
  {
    var n := CallStep(s, Resume(t));
    assert Right(CallerOf(s, t));
    assert forall u :: u != t ==> CallerOf(n, u) == CallerOf(s, u);
    forall u
      ensures Right(CallerOf(n, u))
    {
      assert Right(CallerOf(s, u));
    }
  }

  lemma WaitKeepsCalls(s: System, t: Task, ask: Ask, patient: bool)
    requires CallsInv(s) && CallEnabled(s, CallWait(t, ask, patient))
    ensures CallsInv(CallStep(s, CallWait(t, ask, patient)))
  {
    var (g, r) := WaitBits(s.group, t, ask.waitFor, ask.clearOnExit, ask.all, patient);
    AnswerKeepsCalls(s, t, ask, patient, g.bits, r);
    assert s.group.waiting + [] == s.group.waiting;
  }

  lemma SyncKeepsCalls(s: System, t: Task, b: Bits, w: Bits, patient: bool)
    requires CallsInv(s) && CallEnabled(s, CallSync(t, b, w, patient))
    ensures CallsInv(CallStep(s, CallSync(t, b, w, patient)))
  {
    var (g, r) := Sync(s.group, t, b, w, patient);
    SetKeepsCalls(s, b);
    AnswerKeepsCalls(AfterSet(s, b), t, Ask(w, true, true), patient, g.bits, r);
    assert SetBits(s.group, b).waiting + [] == SetBits(s.group, b).waiting;
  }

  lemma ClearKeepsCalls(s: System, b: Bits)
    requires CallsInv(s) && UserBits(b)
    ensures CallsInv(CallStep(s, CallClear(b)))
  {
    var n := CallStep(s, CallClear(b));
    assert forall u :: CallerOf(n, u) == CallerOf(s, u);
  }

  lemma CallKeepsInv(s: System, a: Call)
    requires CallsInv(s) && CallEnabled(s, a)
    ensures CallsInv(CallStep(s, a))
  {
    match a
    case CallWait(t, ask, patient) => WaitKeepsCalls(s, t, ask, patient);
    case CallSync(t, b, w, patient) => SyncKeepsCalls(s, t, b, w, patient);
    case CallSet(b) => SetKeepsCalls(s, b);
    case CallClear(b) => ClearKeepsCalls(s, b);
    case Tick(t) => TickKeepsCalls(s, t);
    case Resume(t) => ResumeKeepsCalls(s, t);
  }

  ghost predicate CallsPossible(s: System, calls: seq<Call>)
    decreases calls
  {
    calls == [] || (CallEnabled(s, calls[0]) && CallsPossible(CallStep(s, calls[0]), calls[1..]))
  }

  ghost function AfterCalls(s: System, calls: seq<Call>): System
    requires CallsPossible(s, calls)
    decreases calls
  {
    if calls == [] then s else AfterCalls(CallStep(s, calls[0]), calls[1..])
  }

  lemma {:induction false} CallsKeepInv(s: System, calls: seq<Call>)
    requires CallsInv(s) && CallsPossible(s, calls)
    ensures CallsInv(AfterCalls(s, calls))
    decreases calls
  {
    if calls != [] {
      CallKeepsInv(s, calls[0]);
      CallsKeepInv(CallStep(s, calls[0]), calls[1..]);
    }
  }

  /**
   In every run from a new group, a caller with time to wait that has returned
   before its time ran out was given bits that satisfy what it asked for; and
   the tasks on the list are exactly the callers that are blocked, each once,
   with what it asked for.
   */
  lemma ReturnsSatisfied(calls: seq<Call>, t: Task)
    requires CallsPossible(System(Group({}, []), map[]), calls)
    ensures var s := AfterCalls(System(Group({}, []), map[]), calls);
            && (var c := CallerOf(s, t); c.Back? && c.patient && c.onTime ==> Satisfies(c.value, c.ask))
            && ListMatches(s)
  {
    CallsKeepInv(System(Group({}, []), map[]), calls);
    assert Right(CallerOf(AfterCalls(System(Group({}, []), map[]), calls), t));
  }

  // ------------------------------------------------------------------
  // The code
  // ------------------------------------------------------------------

  class EventGroupControl {
    var eventBits: Bits
    var tasksWaiting: seq<Waiter>

    ghost function View(): Group
      reads this
    {
      Group(eventBits, tasksWaiting)
    }

    constructor ()
      ensures View() == Group({}, []) && Settled(View())
    {
      eventBits, tasksWaiting := {}, [];
    }

    /** xEventGroupSetBits; `place` walks the list while matched items leave it. */
    method Set(toSet: Bits) returns (released: seq<Waiter>)
      modifies this
      ensures View() == SetBits(old(View()), toSet)
      ensures released == Released(old(tasksWaiting), old(eventBits) + toSet)
    {
      hide Remaining, Released, Cleared, Matches, ClearsOnExit;
      var toClear: Bits := {};
      var place := 0;
      released := [];
      eventBits := eventBits + toSet;
      while place < |tasksWaiting|
        invariant place <= |tasksWaiting| && eventBits == old(eventBits) + toSet
        invariant tasksWaiting[..place] + Remaining(tasksWaiting[place..], eventBits)
               == Remaining(old(tasksWaiting), eventBits)
        invariant released + Released(tasksWaiting[place..], eventBits) == Released(old(tasksWaiting), eventBits)
        invariant toClear + Cleared(tasksWaiting[place..], eventBits) == Cleared(old(tasksWaiting), eventBits)
        decreases |tasksWaiting| - place
      {
        var item := tasksWaiting[place];
        OneWaiter(tasksWaiting[place..], eventBits);
        assert tasksWaiting[place..][1..] == tasksWaiting[place + 1..];
        var matchFound := false;
        var control := item.value * CONTROL;
        var waitedFor := item.value - CONTROL;
        if control * WAIT_FOR_ALL == {} {
          if waitedFor * eventBits != {} {
            matchFound := true;
          }
        } else if waitedFor * eventBits == waitedFor {
          matchFound := true;
        }
        ItemTested(item.value, eventBits);
        if matchFound {
          if control * CLEAR_EVENTS_ON_EXIT != {} {
            toClear := toClear + waitedFor;
          }
          released := released + [Waiter(item.task, eventBits + UNBLOCKED_DUE_TO_BIT_SET + IN_USE)];
          ghost var before := tasksWaiting;
          tasksWaiting := tasksWaiting[..place] + tasksWaiting[place + 1..];
          assert tasksWaiting[place..] == before[place + 1..] && tasksWaiting[..place] == before[..place];
        } else {
          assert tasksWaiting[..place + 1] == tasksWaiting[..place] + [item];
          place := place + 1;
        }
      }
      NobodyLeft(eventBits);
      assert tasksWaiting[..place] + [] == tasksWaiting && tasksWaiting[place..] == [] && toClear + {} == toClear;
      eventBits := eventBits - toClear;
    }

    /** xEventGroupClearBits */
    method Clear(toClear: Bits) returns (was: Bits)
      modifies this`eventBits
      ensures View() == ClearBits(old(View()), toClear) && was == old(eventBits)
      ensures eventBits == old(eventBits) - toClear && tasksWaiting == old(tasksWaiting)
    {
      was := eventBits;
      eventBits := eventBits - toClear;
    }

    /** xEventGroupWaitBits up to xTaskResumeAll */
    method Wait(task: Task, waitFor: Bits, clearOnExit: bool, all: bool, patient: bool) returns (r: Outcome)
      modifies this
      ensures (View(), r) == WaitBits(old(View()), task, waitFor, clearOnExit, all, patient)
      ensures var met := Satisfies(old(eventBits), Ask(waitFor, clearOnExit, all));
              && (r.Blocks? <==> !met && patient)
              && (r.Returns? ==> r.value == old(eventBits) && tasksWaiting == old(tasksWaiting))
              && eventBits == if met && clearOnExit then old(eventBits) - waitFor else old(eventBits)
      ensures r.Blocks? ==>
                && |tasksWaiting| == |old(tasksWaiting)| + 1 && tasksWaiting[..|old(tasksWaiting)|] == old(tasksWaiting)
                && var w := tasksWaiting[|old(tasksWaiting)|];
                   w.task == task && (UserBits(waitFor) ==>
                     && WaitedFor(w.value) == waitFor && ClearsOnExit(w.value) == clearOnExit && ForAll(w.value) == all)
    {
      var current := eventBits;
      if UserBits(waitFor) {
        ItemValueUnpacks(waitFor, clearOnExit, all, current);
      }
      if WaitCondition(current, waitFor, all) {
        r := Returns(current);
        if clearOnExit {
          eventBits := eventBits - waitFor;
        }
      } else if !patient {
        r := Returns(current);
      } else {
        var control: Bits := {};
        if clearOnExit {
          control := control + CLEAR_EVENTS_ON_EXIT;
        }
        if all {
          control := control + WAIT_FOR_ALL;
        }
        assert waitFor + control + IN_USE == ItemValue(waitFor, clearOnExit, all);
        tasksWaiting := tasksWaiting + [Waiter(task, waitFor + control + IN_USE)];
        r := Blocks;
      }
    }

    /** xEventGroupSync up to xTaskResumeAll */
    method Synchronise(task: Task, toSet: Bits, waitFor: Bits, patient: bool)
      returns (r: Outcome, released: seq<Waiter>)
      modifies this
      ensures (View(), r) == Sync(old(View()), task, toSet, waitFor, patient)
      ensures released == Released(old(tasksWaiting), old(eventBits) + toSet)
      ensures var met, g := waitFor <= old(eventBits) + toSet, SetBits(old(View()), toSet);
              && (r.Blocks? <==> !met && patient)
              && (met ==> r == Returns(old(eventBits) + toSet))
              && (!met && !patient ==> r == Returns(g.bits))
              && eventBits == (if met then g.bits - waitFor else g.bits)
              && (r.Returns? ==> tasksWaiting == g.waiting)
              && (r.Blocks? ==> tasksWaiting == g.waiting + [Waiter(task, ItemValue(waitFor, true, true))])
    {
      var original := eventBits;
      released := Set(toSet);
      assert (original + toSet) * waitFor == waitFor <==> waitFor <= original + toSet;
      if (original + toSet) * waitFor == waitFor {
        r := Returns(original + toSet);
        eventBits := eventBits - waitFor;
      } else if patient {
        assert waitFor + CLEAR_EVENTS_ON_EXIT + WAIT_FOR_ALL + IN_USE == ItemValue(waitFor, true, true);
        tasksWaiting := tasksWaiting + [Waiter(task, waitFor + CLEAR_EVENTS_ON_EXIT + WAIT_FOR_ALL + IN_USE)];
        r := Blocks;
      } else {
        r := Returns(eventBits);
      }
    }

    /**
     The end of xEventGroupWaitBits and, with both flags set, of xEventGroupSync
     for a task that blocked; `item` is what uxTaskResetEventItemValue gives.
     */
    method AfterBlocking(item: Bits, waitFor: Bits, clearOnExit: bool, all: bool) returns (r: Bits)
      modifies this`eventBits
      ensures UNBLOCKED_DUE_TO_BIT_SET <= item ==> View() == old(View()) && r == item - CONTROL
      ensures !(UNBLOCKED_DUE_TO_BIT_SET <= item) ==> (View(), r) == TimedOut(old(View()), waitFor, clearOnExit, all)
      ensures !(UNBLOCKED_DUE_TO_BIT_SET <= item) ==>
                && r == old(eventBits) - CONTROL && tasksWaiting == old(tasksWaiting)
                && eventBits == if Satisfies(old(eventBits), Ask(waitFor, clearOnExit, all)) && clearOnExit
                                then old(eventBits) - waitFor else old(eventBits)
    {
      r := item;
      assert 25 in item <==> 25 in item * UNBLOCKED_DUE_TO_BIT_SET;
      if r * UNBLOCKED_DUE_TO_BIT_SET == {} {
        r := eventBits;
        if WaitCondition(r, waitFor, all) {
          if clearOnExit {
            eventBits := eventBits - waitFor;
          }
        }
      } else {
        assert 25 in item;
      }
      r := r - CONTROL;
    }
  }
}
