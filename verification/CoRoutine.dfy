/**
 The co-routine scheduler of freertos/source/croutine.c.

 Co-routines are numbered in order of creation. Each has a generic item, which
 is in a ready list or one of the two delay lists, and an event item, which may
 be in an event list or in the pending ready list; `home` and `eventHome` are
 the pvContainer pointers of the two. The delay lists are lists 1 and 2 and
 `flipped` says which of them pxDelayedCoRoutineList points to.

 `wraps` and `due` exist for the timing property: `wraps` counts the overflows
 of the tick count, so that Now is the number of all ticks ever taken, and `due`
 is the value of Now a delay asked for.
 */
module CoRoutine {
  import opened KernelList

  type Id = nat

  // TickType_t
  const TICKS: nat := 0x1_0000_0000

  datatype Home = ReadyList | Delay1 | Delay2

  datatype EventHome = NoList | EventList(list: nat) | PendingList

  datatype State = State(
    priority: seq<nat>,
    home: seq<Home>,
    eventHome: seq<EventHome>,
    wake: seq<nat>,             // the generic item's value while delayed
    due: seq<nat>,
    ready: seq<Ring<Id>>,       // pxReadyCoRoutineLists
    delay1: seq<Id>,
    delay2: seq<Id>,
    flipped: bool,
    pending: seq<Id>,           // xPendingReadyCoRoutineList
    events: seq<seq<Id>>,
    tick: nat,                  // xCoRoutineTickCount
    wraps: nat,
    top: nat,                   // uxTopCoRoutineReadyPriority
    current: Id)                // pxCurrentCoRoutine

  // ------------------------------------------------------------------
  // Lists of numbers
  // ------------------------------------------------------------------

  function IndexOf(list: seq<Id>, c: Id): (k: nat)
    requires c in list
    ensures k < |list| && list[k] == c
  {
    if list[0] == c then 0 else 1 + IndexOf(list[1..], c)
  }

  /** uxListRemove on a list that is never walked */
  function Without(list: seq<Id>, c: Id): seq<Id> {
    if c in list then list[..IndexOf(list, c)] + list[IndexOf(list, c) + 1..] else list
  }

  ghost predicate Within(list: seq<Id>, n: nat) {
    forall i :: 0 <= i < |list| ==> list[i] < n
  }

  function Keys(list: seq<Id>, key: seq<nat>): (ks: seq<nat>)
    requires Within(list, |key|)
    ensures |ks| == |list| && forall i :: 0 <= i < |list| ==> ks[i] == key[list[i]]
  {
    seq(|list|, i requires 0 <= i < |list| => key[list[i]])
  }

  /** vListInsert of `c`, items ordered by `key` */
  function InsertBy(list: seq<Id>, key: seq<nat>, c: Id): seq<Id>
    requires c < |key| && Within(list, |key|)
  {
    var p := InsertPosition(Keys(list, key), key[c]);
    list[..p] + [c] + list[p..]
  }

  ghost predicate SortedBy(list: seq<Id>, key: seq<nat>) {
    && Within(list, |key|)
    && forall i, j :: 0 <= i < j < |list| ==> key[list[i]] <= key[list[j]]
  }

  ghost predicate NoRepeats(list: seq<Id>) {
    forall i, j :: 0 <= i < j < |list| ==> list[i] != list[j]
  }

  lemma InsertByWorks(list: seq<Id>, key: seq<nat>, c: Id)
    requires c < |key| && SortedBy(list, key)
    ensures SortedBy(InsertBy(list, key, c), key)
    ensures forall x :: x in InsertBy(list, key, c) <==> x == c || x in list
    ensures c !in list && NoRepeats(list) ==> NoRepeats(InsertBy(list, key, c))
  {
    var ks, p, n := Keys(list, key), InsertPosition(Keys(list, key), key[c]), InsertBy(list, key, c);
    assert forall i :: 0 <= i < p ==> key[list[i]] == ks[i] <= key[c];
    assert p < |list| ==> key[c] < ks[p] == key[list[p]];
    SplicedMembers(list, p, c);
    SplicedSorted(list, key, p, c, n);
    if c !in list && NoRepeats(list) {
      SplicedApart(list, p, c, n);
    }
  }

  lemma SplicedSorted(list: seq<Id>, key: seq<nat>, p: nat, c: Id, n: seq<Id>)
    requires c < |key| && SortedBy(list, key) && p <= |list| && n == list[..p] + [c] + list[p..]
    requires (forall i :: 0 <= i < p ==> key[list[i]] <= key[c]) && (p < |list| ==> key[c] < key[list[p]])
    ensures SortedBy(n, key)
  {
    assert forall i :: 0 <= i < |n| ==> n[i] == if i < p then list[i] else if i == p then c else list[i - 1];
  }

  lemma SplicedApart(list: seq<Id>, p: nat, c: Id, n: seq<Id>)
    requires p <= |list| && n == list[..p] + [c] + list[p..] && c !in list && NoRepeats(list)
    ensures NoRepeats(n)
  {
    assert forall i :: 0 <= i < |n| ==> n[i] == if i < p then list[i] else if i == p then c else list[i - 1];
  }

  lemma SplicedMembers(list: seq<Id>, p: nat, c: Id)
    requires p <= |list|
    ensures forall x :: x in list[..p] + [c] + list[p..] <==> x == c || x in list
  {
    assert list == list[..p] + list[p..];
  }

  lemma WithoutWorks(list: seq<Id>, key: seq<nat>, c: Id)
    requires SortedBy(list, key) && NoRepeats(list)
    ensures SortedBy(Without(list, c), key) && NoRepeats(Without(list, c))
    ensures forall x :: x in Without(list, c) <==> x in list && x != c
  {
    if c in list {
      DropWorks(list, key, IndexOf(list, c));
    }
  }

  lemma DropWorks(list: seq<Id>, key: seq<nat>, k: nat)
    requires SortedBy(list, key) && NoRepeats(list) && k < |list|
    ensures var n := list[..k] + list[k + 1..];
            SortedBy(n, key) && NoRepeats(n) && forall x :: x in n <==> x in list && x != list[k]
  {
    var n := list[..k] + list[k + 1..];
    forall i, j | 0 <= i < j < |n|
      ensures n[i] < |key| && n[j] < |key| && key[n[i]] <= key[n[j]] && n[i] != n[j]
    {
      assert n[i] == if i < k then list[i] else list[i + 1];
      assert n[j] == if j < k then list[j] else list[j + 1];
    }
    assert forall i :: 0 <= i < |n| ==> n[i] == if i < k then list[i] else list[i + 1];
    DroppedMembers(list, k);
  }

  lemma DroppedMembers(list: seq<Id>, k: nat)
    requires k < |list| && NoRepeats(list)
    ensures forall x :: x in list[..k] + list[k + 1..] <==> x in list && x != list[k]
  {
    assert list == list[..k] + [list[k]] + list[k + 1..];
  }

  // ------------------------------------------------------------------
  // Steps
  // ------------------------------------------------------------------

  function Now(s: State): nat {
    s.wraps * TICKS + s.tick
  }

  /** xCoRoutineTickCount + xTicksToDelay */
  function WakeTime(tick: nat, d: nat): (w: nat)
    requires tick < TICKS && d < TICKS
    ensures w == (tick + d) % TICKS
  {
    if tick + d < TICKS then tick + d else tick + d - TICKS
  }

  function Delayed(s: State): seq<Id> {
    if s.flipped then s.delay2 else s.delay1
  }

  /** pvContainer of a generic item in pxDelayedCoRoutineList, or in the overflow list */
  function DelayHome(s: State, overflow: bool): Home {
    if s.flipped != overflow then Delay2 else Delay1
  }

  /** The event item's value: event lists are in priority order. */
  function EventKey(s: State): (ks: seq<nat>)
    requires forall c :: 0 <= c < |s.priority| ==> s.priority[c] < |s.ready|
    ensures |ks| == |s.priority| && forall c :: 0 <= c < |ks| ==> ks[c] == |s.ready| - s.priority[c]
  {
    seq(|s.priority|, c requires 0 <= c < |s.priority| => |s.ready| - s.priority[c])
  }

  /** prvAddCoRoutineToReadyQueue */
  ghost function AddReady(s: State, c: Id): State
    requires c < |s.priority| && c < |s.home| && s.priority[c] < |s.ready| && s.ready[s.priority[c]].Valid()
  {
    var p := s.priority[c];
    s.(home := s.home[c := ReadyList],
       ready := s.ready[p := s.ready[p].InsertEnd(c)],
       top := if p > s.top then p else s.top)
  }

  /** uxListRemove on the generic item of a delayed co-routine */
  ghost function OffDelay(s: State, c: Id): State
    requires c < |s.home|
  {
    match s.home[c]
    case ReadyList => s
    case Delay1 => s.(delay1 := Without(s.delay1, c))
    case Delay2 => s.(delay2 := Without(s.delay2, c))
  }

  /** uxListRemove on the event item, if it is in a list */
  ghost function OffEvents(s: State, c: Id): State
    requires c < |s.eventHome|
  {
    match s.eventHome[c]
    case NoList => s
    case PendingList => s.(pending := Without(s.pending, c), eventHome := s.eventHome[c := NoList])
    case EventList(k) =>
      if k < |s.events| then s.(events := s.events[k := Without(s.events[k], c)], eventHome := s.eventHome[c := NoList])
      else s
  }

  datatype MaybeEvent = NoEvent | OnEvent(list: nat)

  datatype Action =
    | Create(priority: nat)                // xCoRoutineCreate
    | Delay(ticks: nat, event: MaybeEvent) // vCoRoutineAddToDelayedList
    | Event(list: nat)                     // xCoRoutineRemoveFromEventList
    | ReadyPending                         // one round of prvCheckPendingReadyList
    | Advance                              // prvCheckDelayedList: count a tick, swap the lists on wrap
    | Expire                               // prvCheckDelayedList: take one item that is due
    | Pick                                 // vCoRoutineSchedule: choose what to run

  /** Nothing at the head of the delay list is due, so its inner loop has ended. */
  ghost predicate CaughtUp(s: State)
    requires Inv(s)
  {
    Delayed(s) == [] || s.tick < s.wake[Delayed(s)[0]]
  }

  ghost predicate Enabled(s: State, a: Action)
    requires Inv(s)
  {
    match a
    case Create(_) => true
    case Delay(d, event) =>
      && s.current < |s.priority| && s.home[s.current].ReadyList?
      && 0 < d < TICKS && (event.OnEvent? ==> event.list < |s.events|)
    case Event(k) => k < |s.events| && s.events[k] != []
    case ReadyPending => s.pending != []
    case Advance => CaughtUp(s)
    case Expire => !CaughtUp(s)
    case Pick => s.priority != []
  }

  /** A new control block of priority `p`, in the ready list. */
  ghost function NewBlock(s: State, p: nat): State
    requires p < |s.ready| && s.ready[p].Valid()
  {
    var c := |s.priority|;
    State(s.priority + [p], s.home + [ReadyList], s.eventHome + [NoList], s.wake + [0], s.due + [0],
          s.ready[p := s.ready[p].InsertEnd(c)], s.delay1, s.delay2, s.flipped, s.pending, s.events, s.tick, s.wraps,
          if p > s.top then p else s.top, if c == 0 then 0 else s.current)
  }

  ghost function Created(s: State, priority: nat): State
    requires Inv(s)
  {
    NewBlock(s, if priority < |s.ready| then priority else |s.ready| - 1)
  }

  /** uxListRemove on the generic item of a ready co-routine */
  ghost function OffReady(s: State, c: Id): State
    requires Sized(s) && ReadyRings(s) && c < |s.priority| && s.home[c].ReadyList?
  {
    var p := s.priority[c];
    s.(ready := s.ready[p := s.ready[p].RemoveAt(IndexOf(s.ready[p].items, c))])
  }

  ghost function WithDelay1(s: State, c: Id, wake: seq<nat>, due: nat, list: seq<Id>): State
    requires c < |s.due| && c < |s.home|
  {
    s.(wake := wake, due := s.due[c := due], home := s.home[c := Delay1], delay1 := list)
  }

  ghost function WithDelay2(s: State, c: Id, wake: seq<nat>, due: nat, list: seq<Id>): State
    requires c < |s.due| && c < |s.home|
  {
    s.(wake := wake, due := s.due[c := due], home := s.home[c := Delay2], delay2 := list)
  }

  /** The generic item set to its wake time and put in the delay list that covers it. */
  ghost function OntoDelay(s: State, c: Id, d: nat): State
    requires c < |s.wake| && c < |s.due| && c < |s.home| && Within(s.delay1, |s.wake|) && Within(s.delay2, |s.wake|)
    requires s.tick < TICKS && d < TICKS
  {
    var w := WakeTime(s.tick, d);
    var wake := s.wake[c := w];
    if DelayHome(s, w < s.tick).Delay1? then WithDelay1(s, c, wake, Now(s) + d, InsertBy(s.delay1, wake, c))
    else WithDelay2(s, c, wake, Now(s) + d, InsertBy(s.delay2, wake, c))
  }

  ghost function OntoEvent(s: State, c: Id, event: MaybeEvent): State
    requires c < |s.priority| && c < |s.eventHome|
    requires forall x :: 0 <= x < |s.priority| ==> s.priority[x] < |s.ready|
    requires event.OnEvent? ==> event.list < |s.events| && Within(s.events[event.list], |s.priority|)
  {
    match event
    case NoEvent => s
    case OnEvent(k) =>
      s.(events := s.events[k := InsertBy(s.events[k], EventKey(s), c)], eventHome := s.eventHome[c := EventList(k)])
  }

  /** The highest priority up to `top` with a ready co-routine, or 0. */
  ghost function HighestReady(ready: seq<Ring<Id>>, top: nat): (p: nat)
    requires top < |ready|
    ensures p <= top && (ready[p].items != [] || p == 0)
    ensures forall q :: p < q <= top ==> ready[q].items == []
  {
    if ready[top].items != [] || top == 0 then top else HighestReady(ready, top - 1)
  }

  ghost function Picked(s: State): State
    requires Inv(s)
  {
    var p := HighestReady(s.ready, s.top);
    if s.ready[p].items == [] then s.(top := p)
    else
      var ring := s.ready[p].Next();
      s.(top := p, ready := s.ready[p := ring], current := ring.items[ring.index - 1])
  }

  ghost function EventMoved(s: State, k: nat): State
    requires k < |s.events| && s.events[k] != [] && s.events[k][0] < |s.eventHome|
  {
    var c := s.events[k][0];
    s.(events := s.events[k := s.events[k][1..]],
       pending := s.pending + [c],
       eventHome := s.eventHome[c := PendingList])
  }

  /** The event item at the head of the pending list taken off it */
  ghost function OffPending(s: State): State
    requires s.pending != [] && s.pending[0] < |s.eventHome|
  {
    s.(pending := s.pending[1..], eventHome := s.eventHome[s.pending[0] := NoList])
  }

  ghost function Readied(s: State): State
    requires Inv(s) && s.pending != []
  {
    assert s.pending[0] in s.pending;
    AddReady(OffDelay(OffPending(s), s.pending[0]), s.pending[0])
  }

  ghost function Advanced(s: State): State {
    if s.tick + 1 == TICKS then s.(tick := 0, wraps := s.wraps + 1, flipped := !s.flipped)
    else s.(tick := s.tick + 1)
  }

  ghost function Expired(s: State, c: Id): State
    requires Inv(s) && c < |s.priority|
  {
    AddReady(OffEvents(OffDelay(s, c), c), c)
  }

  ghost function DelayedFor(s: State, d: nat, event: MaybeEvent): State
    requires Inv(s) && s.current < |s.priority| && s.home[s.current].ReadyList?
    requires d < TICKS && (event.OnEvent? ==> event.list < |s.events|)
  {
    OntoEvent(OntoDelay(OffReady(s, s.current), s.current, d), s.current, event)
  }

  ghost function Step(s: State, a: Action): State
    requires Inv(s) && Enabled(s, a)
  {
    match a
    case Create(priority) => Created(s, priority)
    case Delay(d, event) => DelayedFor(s, d, event)
    case Event(k) => EventMoved(s, k)
    case ReadyPending => Readied(s)
    case Advance => Advanced(s)
    case Expire => Expired(s, Delayed(s)[0])
    case Pick => Picked(s)
  }

  // ------------------------------------------------------------------
  // The invariant
  // ------------------------------------------------------------------

  ghost predicate Sized(s: State) {
    var n := |s.priority|;
    && |s.home| == |s.eventHome| == |s.wake| == |s.due| == n
    && (forall c :: 0 <= c < n ==> s.priority[c] < |s.ready| && s.wake[c] < TICKS)
    && s.top < |s.ready| && s.tick < TICKS && (n == 0 || s.current < n)
  }

  ghost predicate Proper(list: seq<Id>, n: nat) {
    Within(list, n) && NoRepeats(list)
  }

  /** Each ready list holds exactly the ready co-routines of its priority. */
  ghost predicate ReadyRings(s: State)
    requires Sized(s)
  {
    && (forall p :: 0 <= p < |s.ready| ==> s.ready[p].Valid() && Proper(s.ready[p].items, |s.priority|))
    && (forall p, c :: 0 <= p < |s.ready| && 0 <= c < |s.priority| ==>
          (c in s.ready[p].items <==> s.home[c].ReadyList? && s.priority[c] == p))
  }

  /** Each delay list holds exactly the co-routines whose item says so, in order of wake time. */
  ghost predicate DelayLists(s: State)
    requires Sized(s)
  {
    && SortedBy(s.delay1, s.wake) && NoRepeats(s.delay1)
    && SortedBy(s.delay2, s.wake) && NoRepeats(s.delay2)
    && (forall c :: 0 <= c < |s.priority| ==> (c in s.delay1 <==> s.home[c].Delay1?))
    && (forall c :: 0 <= c < |s.priority| ==> (c in s.delay2 <==> s.home[c].Delay2?))
  }

  ghost predicate EventLists(s: State)
    requires Sized(s)
  {
    && Proper(s.pending, |s.priority|)
    && (forall c :: 0 <= c < |s.priority| ==> (c in s.pending <==> s.eventHome[c].PendingList?))
    && (forall k :: 0 <= k < |s.events| ==> SortedBy(s.events[k], EventKey(s)) && NoRepeats(s.events[k]))
    && (forall k, c :: 0 <= k < |s.events| && 0 <= c < |s.priority| ==>
          (c in s.events[k] <==> s.eventHome[c] == EventList(k)))
    && (forall c :: 0 <= c < |s.priority| && s.eventHome[c].EventList? ==> s.eventHome[c].list < |s.events|)
  }

  /** An event item in any list means the generic item is in a delay list. */
  ghost predicate EventsDelayed(s: State)
    requires Sized(s)
  {
    forall c :: 0 <= c < |s.priority| && !s.eventHome[c].NoList? ==> !s.home[c].ReadyList?
  }

  ghost predicate TopCovers(s: State) {
    forall p :: 0 <= p < |s.ready| && s.ready[p].items != [] ==> p <= s.top
  }

  /** Wake times and the moments they stand for. */
  ghost predicate Timed(s: State)
    requires Sized(s)
  {
    && (forall c :: 0 <= c < |s.priority| && s.home[c] == DelayHome(s, false) ==>
          Now(s) <= s.due[c] == s.wraps * TICKS + s.wake[c])
    && (forall c :: 0 <= c < |s.priority| && s.home[c] == DelayHome(s, true) ==>
          s.due[c] == (s.wraps + 1) * TICKS + s.wake[c])
  }

  /** Compared with `true` so that a proof which only passes it on does not take it apart. */
  ghost predicate Inv(s: State) {
    Consistent(s) == true
  }

  ghost predicate Consistent(s: State) {
    && Sized(s) && ReadyRings(s) && DelayLists(s) && EventLists(s)
    && EventsDelayed(s) && TopCovers(s) && Timed(s)
  }

  // ------------------------------------------------------------------
  // Moves between lists
  // ------------------------------------------------------------------

  lemma RingInsertEnd(r: Ring<Id>, n: nat, c: Id)
    requires r.Valid() && Proper(r.items, n) && c !in r.items && c < n
    ensures var m := r.InsertEnd(c);
            m.Valid() && Proper(m.items, n) && m.items != [] && forall x :: x in m.items <==> x == c || x in r.items
  {
    var p, m := r.EndPlace(), r.InsertEnd(c);
    assert forall i :: 0 <= i < |m.items| ==>
      m.items[i] == if i < p then r.items[i] else if i == p then c else r.items[i - 1];
    SplicedMembers(r.items, p, c);
  }

  lemma RingRemove(r: Ring<Id>, n: nat, c: Id)
    requires r.Valid() && Proper(r.items, n) && c in r.items
    ensures var m := r.RemoveAt(IndexOf(r.items, c));
            m.Valid() && Proper(m.items, n) && forall x :: x in m.items <==> x in r.items && x != c
  {
    var k := IndexOf(r.items, c);
    var m := r.RemoveAt(k);
    assert forall i :: 0 <= i < |m.items| ==> m.items[i] == if i < k then r.items[i] else r.items[i + 1];
    DroppedMembers(r.items, k);
  }

  lemma AddReadyWorks(s: State, c: Id)
    requires Sized(s) && ReadyRings(s) && TopCovers(s) && c < |s.priority| && !s.home[c].ReadyList?
    ensures var n := AddReady(s, c);
            Sized(n) && ReadyRings(n) && TopCovers(n) && n.ready[s.priority[c]].items != []
  {
    RingInsertEnd(s.ready[s.priority[c]], |s.priority|, c);
  }

  lemma OffReadyWorks(s: State, c: Id, h: Home)
    requires Sized(s) && ReadyRings(s) && TopCovers(s) && c < |s.priority| && s.home[c].ReadyList? && !h.ReadyList?
    ensures var n := OffReady(s, c).(home := s.home[c := h]);
            Sized(n) && ReadyRings(n) && TopCovers(n)
  {
    RingRemove(s.ready[s.priority[c]], |s.priority|, c);
  }

  lemma OffDelayWorks(s: State, c: Id)
    requires Sized(s) && DelayLists(s) && c < |s.priority|
    ensures var n := OffDelay(s, c).(home := s.home[c := ReadyList]);
            Sized(n) && DelayLists(n)
  {
    if s.home[c].Delay1? {
      WithoutWorks(s.delay1, s.wake, c);
    } else if s.home[c].Delay2? {
      WithoutWorks(s.delay2, s.wake, c);
    }
  }

  /** Rewriting the wake time of a co-routine on neither list disturbs neither. */
  lemma OtherKeys(list: seq<Id>, key: seq<nat>, c: Id, w: nat)
    requires SortedBy(list, key) && c < |key| && c !in list
    ensures SortedBy(list, key[c := w])
  {
    assert forall i :: 0 <= i < |list| ==> list[i] != c;
  }

  lemma OntoDelayWorks(s: State, c: Id, d: nat)
    requires Sized(s) && DelayLists(s) && c < |s.priority| && s.home[c].ReadyList? && d < TICKS
    ensures Sized(OntoDelay(s, c, d)) && DelayLists(OntoDelay(s, c, d))
  {
    var w := WakeTime(s.tick, d);
    if DelayHome(s, w < s.tick).Delay1? {
      OntoDelay1Works(s, c, w, Now(s) + d);
    } else {
      OntoDelay2Works(s, c, w, Now(s) + d);
    }
  }

  lemma OntoDelay1Works(s: State, c: Id, w: nat, due: nat)
    requires Sized(s) && DelayLists(s) && c < |s.priority| && s.home[c].ReadyList? && w < TICKS
    ensures var wake := s.wake[c := w];
            var n := WithDelay1(s, c, wake, due, InsertBy(s.delay1, wake, c));
            Sized(n) && DelayLists(n)
  {
    var wake := s.wake[c := w];
    OtherKeys(s.delay1, s.wake, c, w);
    OtherKeys(s.delay2, s.wake, c, w);
    InsertByWorks(s.delay1, wake, c);
    JoinedDelay1(s, c, wake, due, InsertBy(s.delay1, wake, c));
  }

  lemma OntoDelay2Works(s: State, c: Id, w: nat, due: nat)
    requires Sized(s) && DelayLists(s) && c < |s.priority| && s.home[c].ReadyList? && w < TICKS
    ensures var wake := s.wake[c := w];
            var n := WithDelay2(s, c, wake, due, InsertBy(s.delay2, wake, c));
            Sized(n) && DelayLists(n)
  {
    var wake := s.wake[c := w];
    OtherKeys(s.delay1, s.wake, c, w);
    OtherKeys(s.delay2, s.wake, c, w);
    InsertByWorks(s.delay2, wake, c);
    JoinedDelay2(s, c, wake, due, InsertBy(s.delay2, wake, c));
  }

  lemma JoinedDelay1(s: State, c: Id, wake: seq<nat>, due: nat, list: seq<Id>)
    requires Sized(s) && DelayLists(s) && c < |s.priority| && s.home[c].ReadyList?
    requires |wake| == |s.wake| && forall x :: 0 <= x < |wake| ==> wake[x] < TICKS
    requires SortedBy(list, wake) && NoRepeats(list) && (forall x :: x in list <==> x == c || x in s.delay1)
    requires SortedBy(s.delay2, wake)
    ensures Sized(WithDelay1(s, c, wake, due, list)) && DelayLists(WithDelay1(s, c, wake, due, list))
  {
  }

  lemma JoinedDelay2(s: State, c: Id, wake: seq<nat>, due: nat, list: seq<Id>)
    requires Sized(s) && DelayLists(s) && c < |s.priority| && s.home[c].ReadyList?
    requires |wake| == |s.wake| && forall x :: 0 <= x < |wake| ==> wake[x] < TICKS
    requires SortedBy(list, wake) && NoRepeats(list) && (forall x :: x in list <==> x == c || x in s.delay2)
    requires SortedBy(s.delay1, wake)
    ensures Sized(WithDelay2(s, c, wake, due, list)) && DelayLists(WithDelay2(s, c, wake, due, list))
  {
  }

  lemma OffEventsWorks(s: State, c: Id)
    requires Sized(s) && EventLists(s) && c < |s.priority|
    ensures var n := OffEvents(s, c);
            Sized(n) && EventLists(n) && n.eventHome == s.eventHome[c := NoList]
  {
    match s.eventHome[c]
    case NoList =>
    case PendingList =>
      assert SortedBy(s.pending, seq(|s.priority|, _ => 0));
      WithoutWorks(s.pending, seq(|s.priority|, _ => 0), c);
    case EventList(k) =>
      WithoutWorks(s.events[k], EventKey(s), c);
  }

  lemma HeadOff(list: seq<Id>)
    requires list != [] && NoRepeats(list)
    ensures NoRepeats(list[1..]) && forall x :: x in list[1..] <==> x in list && x != list[0]
  {
    DroppedMembers(list, 0);
    assert list[..0] + list[1..] == list[1..];
  }

  lemma OffPendingWorks(s: State)
    requires Sized(s) && EventLists(s) && s.pending != []
    ensures Sized(OffPending(s)) && EventLists(OffPending(s))
  {
    HeadOff(s.pending);
    var c, n := s.pending[0], OffPending(s);
    assert c in s.pending;
    HeadOffPending(s, n, c);
  }

  lemma HeadOffPending(s: State, n: State, c: Id)
    requires Sized(s) && EventLists(s) && Sized(n) && c < |s.priority| && c in s.pending
    requires n.priority == s.priority && |n.ready| == |s.ready| && n.events == s.events
    requires n.eventHome == s.eventHome[c := NoList]
    requires Proper(n.pending, |s.priority|) && forall x :: x in n.pending <==> x in s.pending && x != c
    ensures EventLists(n)
  {
    assert EventKey(n) == EventKey(s);
    assert s.eventHome[c].PendingList?;
  }

  lemma EventMovedWorks(s: State, k: nat)
    requires Sized(s) && EventLists(s) && k < |s.events| && s.events[k] != []
    ensures Sized(EventMoved(s, k)) && EventLists(EventMoved(s, k))
  {
    var c := s.events[k][0];
    HeadOff(s.events[k]);
    assert c in s.events[k] && c !in s.pending;
    MovedToPending(s, k, EventMoved(s, k), c, s.events[k][1..]);
  }

  lemma MovedToPending(s: State, k: nat, n: State, c: Id, rest: seq<Id>)
    requires Sized(s) && EventLists(s) && k < |s.events| && Sized(n)
    requires c < |s.priority| && s.eventHome[c] == EventList(k)
    requires n.priority == s.priority && |n.ready| == |s.ready| && n.events == s.events[k := rest]
    requires n.pending == s.pending + [c] && n.eventHome == s.eventHome[c := PendingList] && c !in s.pending
    requires SortedBy(rest, EventKey(s)) && NoRepeats(rest) && forall x :: x in rest <==> x in s.events[k] && x != c
    ensures EventLists(n)
  {
    assert EventKey(n) == EventKey(s);
    assert Proper(n.pending, |n.priority|);
  }

  lemma OntoEventWorks(s: State, c: Id, event: MaybeEvent)
    requires Sized(s) && EventLists(s) && c < |s.priority| && s.eventHome[c].NoList?
    requires event.OnEvent? ==> event.list < |s.events|
    ensures Sized(OntoEvent(s, c, event)) && EventLists(OntoEvent(s, c, event))
  {
    if event.OnEvent? {
      InsertByWorks(s.events[event.list], EventKey(s), c);
    }
  }

  // ------------------------------------------------------------------
  // Every step keeps the invariant
  // ------------------------------------------------------------------

  lemma EventKeepsInv(s: State, k: nat)
    requires Inv(s) && k < |s.events| && s.events[k] != []
    ensures Inv(EventMoved(s, k))
  {
    EventMovedWorks(s, k);
    assert s.events[k][0] in s.events[k];
  }

  lemma SameDelays(a: State, b: State)
    requires Sized(a) && Sized(b) && DelayLists(a) && a.priority == b.priority
    requires a.delay1 == b.delay1 && a.delay2 == b.delay2 && a.home == b.home && a.wake == b.wake
    ensures DelayLists(b)
  {
  }

  lemma SameEvents(a: State, b: State)
    requires Sized(a) && Sized(b) && EventLists(a) && a.priority == b.priority && |a.ready| == |b.ready|
    requires a.pending == b.pending && a.events == b.events && a.eventHome == b.eventHome
    ensures EventLists(b)
  {
    assert EventKey(a) == EventKey(b);
  }

  lemma SameReady(a: State, b: State)
    requires Sized(a) && Sized(b) && ReadyRings(a) && TopCovers(a) && a.priority == b.priority
    requires a.ready == b.ready && a.home == b.home && a.top == b.top
    ensures ReadyRings(b) && TopCovers(b)
  {
  }

  /** A delayed co-routine made ready, its event item in no list. */
  lemma BecomesReady(s: State, n: State, c: Id)
    requires Inv(s) && c < |s.priority| && !s.home[c].ReadyList?
    requires n.priority == s.priority && n.home == s.home[c := ReadyList] && n.wake == s.wake && n.due == s.due
    requires n.tick == s.tick && n.wraps == s.wraps && n.flipped == s.flipped && n.eventHome == s.eventHome[c := NoList]
    requires Sized(n) && ReadyRings(n) && TopCovers(n) && DelayLists(n) && EventLists(n)
    ensures Inv(n)
  {
  }

  lemma ReadyPendingKeepsInv(s: State)
    requires Inv(s) && s.pending != []
    ensures Inv(Readied(s)) && Readied(s).home[s.pending[0]].ReadyList?
  {
    var c := s.pending[0];
    assert c in s.pending;
    var t := OffPending(s);
    OffPendingWorks(s);
    SameDelays(s, t);
    SameReady(s, t);
    MadeReady(t, c);
    var n := Readied(s);
    SameEvents(t, n);
    BecomesReady(s, n, c);
  }

  /** The generic item moved from its delay list to its ready list. */
  lemma MadeReady(t: State, c: Id)
    requires Sized(t) && ReadyRings(t) && TopCovers(t) && DelayLists(t) && c < |t.priority| && !t.home[c].ReadyList?
    ensures var n := AddReady(OffDelay(t, c), c);
            Sized(n) && ReadyRings(n) && TopCovers(n) && DelayLists(n) && n.home == t.home[c := ReadyList]
  {
    var u := OffDelay(t, c);
    OffDelayWorks(t, c);
    SameReady(t, u);
    AddReadyWorks(u, c);
    SameDelays(u.(home := t.home[c := ReadyList]), AddReady(u, c));
  }

  lemma RemovalsCommute(s: State, c: Id)
    requires c < |s.home| && c < |s.eventHome|
    ensures OffEvents(OffDelay(s, c), c) == OffDelay(OffEvents(s, c), c)
  {
    hide Without;
    match s.home[c]
    case ReadyList =>
    case Delay1 =>
    case Delay2 =>
  }

  lemma ExpireKeepsInv(s: State, c: Id)
    requires Inv(s) && c < |s.priority| && !s.home[c].ReadyList?
    ensures Inv(Expired(s, c)) && Expired(s, c).home[c].ReadyList?
  {
    hide Without, TopCovers, Timed, EventsDelayed;
    var t := OffEvents(s, c);
    OffEventsWorks(s, c);
    SameDelays(s, t);
    SameReady(s, t);
    RemovalsCommute(s, c);
    MadeReady(t, c);
    var n := Expired(s, c);
    SameEvents(t, n);
    BecomesReady(s, n, c);
  }

  /** When the tick count wraps, the list about to become the overflow list is empty. */
  lemma EmptyAtWrap(s: State)
    requires Inv(s) && CaughtUp(s) && s.tick + 1 == TICKS
    ensures Delayed(s) == [] && forall c :: 0 <= c < |s.priority| ==> s.home[c] != DelayHome(s, false)
  {
    LaterThanTick(s);
  }

  lemma AdvanceKeepsInv(s: State)
    requires Inv(s) && CaughtUp(s)
    ensures Inv(Advanced(s)) && Now(Advanced(s)) == Now(s) + 1
  {
    var n := Advanced(s);
    hide ReadyRings, DelayLists, EventLists;
    LaterThanTick(s);
    SameReady(s, n);
    SameDelays(s, n);
    SameEvents(s, n);
    if s.tick + 1 == TICKS {
      EmptyAtWrap(s);
    }
    AdvancedTimed(s, n);
  }

  lemma AdvancedTimed(s: State, n: State)
    requires Sized(s) && Sized(n) && Timed(s) && n == Advanced(s)
    requires forall c :: 0 <= c < |s.priority| && s.home[c] == DelayHome(s, false) ==> s.tick < s.wake[c]
    ensures Timed(n)
  {
    if s.tick + 1 == TICKS {
      assert forall c :: 0 <= c < |s.priority| ==> s.home[c] != DelayHome(s, false);
    }
  }

  /** Caught up, everything in the current list wakes later: the list is sorted. */
  lemma LaterThanTick(s: State)
    requires Inv(s) && CaughtUp(s)
    ensures forall c :: 0 <= c < |s.priority| && s.home[c] == DelayHome(s, false) ==> s.tick < s.wake[c]
  {
    forall c | 0 <= c < |s.priority| && s.home[c] == DelayHome(s, false)
      ensures s.tick < s.wake[c]
    {
      assert c in Delayed(s);
      var i :| 0 <= i < |Delayed(s)| && Delayed(s)[i] == c;
    }
  }

  lemma OntoDelayFields(s: State, c: Id, d: nat)
    requires Sized(s) && DelayLists(s) && c < |s.priority| && d < TICKS
    ensures var n, w := OntoDelay(s, c, d), WakeTime(s.tick, d);
            && n.home == s.home[c := DelayHome(s, w < s.tick)] && n.wake == s.wake[c := w]
            && n.due == s.due[c := Now(s) + d]
            && n == s.(home := n.home, wake := n.wake, due := n.due, delay1 := n.delay1, delay2 := n.delay2)
  {
  }

  /** The wake time and list chosen stand for the moment `d` ticks from now. */
  lemma DelayTimed(s: State, n: State, c: Id, d: nat)
    requires Sized(s) && Timed(s) && c < |s.priority| && s.home[c].ReadyList? && 0 < d < TICKS
    requires var w := WakeTime(s.tick, d);
             && n.home == s.home[c := DelayHome(s, w < s.tick)] && n.wake == s.wake[c := w]
             && n.due == s.due[c := Now(s) + d]
    requires Sized(n) && n.priority == s.priority && n.tick == s.tick && n.wraps == s.wraps && n.flipped == s.flipped
    ensures Timed(n) && n.due[c] == Now(s) + d
  {
  }

  lemma DelayAloneLists(s: State, t: State, d: nat)
    requires Inv(s) && s.current < |s.priority| && s.home[s.current].ReadyList? && 0 < d < TICKS
    requires t == OffReady(s, s.current)
    ensures var n := OntoDelay(t, s.current, d);
            Sized(n) && DelayLists(n) && EventLists(n)
  {
    SameDelays(s, t);
    OntoDelayFields(t, s.current, d);
    OntoDelayWorks(t, s.current, d);
    SameEvents(s, OntoDelay(t, s.current, d));
  }

  lemma DelayAloneReady(s: State, t: State, d: nat)
    requires Inv(s) && s.current < |s.priority| && s.home[s.current].ReadyList? && 0 < d < TICKS
    requires t == OffReady(s, s.current)
    ensures var n := OntoDelay(t, s.current, d);
            && Sized(n) && ReadyRings(n) && TopCovers(n)
  {
    SameDelays(s, t);
    OntoDelayFields(t, s.current, d);
    OntoDelayWorks(t, s.current, d);
    var n := OntoDelay(t, s.current, d);
    OffReadyWorks(s, s.current, n.home[s.current]);
    SameReady(t.(home := n.home), n);
  }

  /** The generic item moved from its ready list to a delay list. */
  lemma DelayAlone(s: State, d: nat)
    requires Inv(s) && s.current < |s.priority| && s.home[s.current].ReadyList? && 0 < d < TICKS
    ensures var n := OntoDelay(OffReady(s, s.current), s.current, d);
            && Inv(n) && n.due[s.current] == Now(s) + d && Now(n) == Now(s)
            && n.home == s.home[s.current := n.home[s.current]] && !n.home[s.current].ReadyList?
            && n.events == s.events && n.eventHome == s.eventHome
  {
    hide ReadyRings, EventLists, TopCovers, Timed, OntoDelay;
    var t := OffReady(s, s.current);
    SameDelays(s, t);
    DelayAloneLists(s, t, d);
    DelayAloneReady(s, t, d);
    OntoDelayFields(t, s.current, d);
    DelayTimed(s, OntoDelay(t, s.current, d), s.current, d);
  }

  lemma DelayKeepsInv(s: State, d: nat, event: MaybeEvent)
    requires Inv(s) && Enabled(s, Delay(d, event))
    ensures var n := DelayedFor(s, d, event);
            Inv(n) && n.due[s.current] == Now(s) + d && !n.home[s.current].ReadyList? && Now(n) == Now(s)
  {
    var c := s.current;
    DelayAlone(s, d);
    var n := OntoDelay(OffReady(s, c), c, d);
    OntoEventWorks(n, c, event);
    AfterOntoEvent(n, c, event);
  }

  lemma DelayMoves(s: State, d: nat, event: MaybeEvent)
    requires Inv(s) && Enabled(s, Delay(d, event))
    ensures var n, w := DelayedFor(s, d, event), WakeTime(s.tick, d);
            && n.priority == s.priority && |n.eventHome| == |s.eventHome| && n.tick == s.tick && n.flipped == s.flipped
            && n.home == s.home[s.current := DelayHome(s, w < s.tick)] && n.wake == s.wake[s.current := w]
            && n.due == s.due[s.current := Now(s) + d]
            && forall c :: 0 <= c < |s.priority| && c != s.current ==> n.eventHome[c] == s.eventHome[c]
  {
    hide Consistent, OffReady, OntoDelay, OntoEvent, WakeTime;
    TakenOff(s);
    EventFrame(OffReady(s, s.current), s.current, d, event);
  }

  /** Its lists are in order, as one fact. */
  ghost predicate ReadyToMove(t: State) {
    (Sized(t) && DelayLists(t) && EventLists(t)) == true
  }

  lemma TakenOff(s: State)
    requires Inv(s) && s.current < |s.priority| && s.home[s.current].ReadyList?
    ensures Sized(s) && ReadyRings(s)
    ensures var t := OffReady(s, s.current);
            ReadyToMove(t) && t == s.(ready := t.ready)
  {
    SameDelays(s, OffReady(s, s.current));
    SameEvents(s, OffReady(s, s.current));
  }

  lemma EventFrame(t: State, c: Id, d: nat, event: MaybeEvent)
    requires ReadyToMove(t) && c < |t.priority| && d < TICKS
    requires event.OnEvent? ==> event.list < |t.events|
    ensures var m := OntoDelay(t, c, d);
            var n, w := OntoEvent(m, c, event), WakeTime(t.tick, d);
            && n.priority == t.priority && |n.eventHome| == |t.eventHome| && n.tick == t.tick && n.flipped == t.flipped
            && c < |t.home| && n.home == t.home[c := DelayHome(t, w < t.tick)]
            && c < |t.wake| && n.wake == t.wake[c := w]
            && c < |t.due| && n.due == t.due[c := Now(t) + d]
            && forall x :: 0 <= x < |t.priority| && x != c ==> n.eventHome[x] == t.eventHome[x]
  {
    hide InsertBy, WakeTime;
    OntoDelayFields(t, c, d);
  }

  lemma AfterOntoEvent(n: State, c: Id, event: MaybeEvent)
    requires Inv(n) && c < |n.priority| && !n.home[c].ReadyList? && (event.OnEvent? ==> event.list < |n.events|)
    requires Sized(OntoEvent(n, c, event)) && EventLists(OntoEvent(n, c, event))
    ensures Inv(OntoEvent(n, c, event))
  {
    hide ReadyRings, DelayLists, TopCovers, Timed;
    var m := OntoEvent(n, c, event);
    hide EventLists, InsertBy;
    SameDelays(n, m);
    SameReady(n, m);
    SameTimes(n, m);
  }

  lemma SameTimes(a: State, b: State)
    requires Sized(a) && Sized(b) && Timed(a) && a.priority == b.priority && a.home == b.home && a.wake == b.wake
    requires a.due == b.due && a.tick == b.tick && a.wraps == b.wraps && a.flipped == b.flipped
    ensures Timed(b)
  {
  }

  lemma PickKeepsInv(s: State)
    requires Inv(s) && s.priority != []
    ensures Inv(Picked(s))
  {
    var p, n := HighestReady(s.ready, s.top), Picked(s);
    PickedReady(s, p, n);
    SameDelays(s, n);
    SameEvents(s, n);
  }

  lemma PickedReady(s: State, p: nat, n: State)
    requires Inv(s) && s.priority != [] && p == HighestReady(s.ready, s.top) && n == Picked(s)
    ensures Sized(n) && ReadyRings(n) && TopCovers(n)
  {
    if s.ready[p].items != [] {
      var ring := s.ready[p].Next();
      assert ring.items[ring.index - 1] in s.ready[p].items;
    }
  }

  lemma CreateKeepsInv(s: State, priority: nat)
    requires Inv(s)
    ensures Inv(Created(s, priority))
  {
    hide ReadyRings, DelayLists, EventLists, EventsDelayed, TopCovers, Timed;
    var p := if priority < |s.ready| then priority else |s.ready| - 1;
    RingAt(s, p);
    NewBlockKeepsInv(s, Created(s, priority), p);
  }

  lemma NewBlockKeepsInv(s: State, n: State, p: nat)
    requires Inv(s) && p < |s.ready| && s.ready[p].Valid() && n == NewBlock(s, p)
    ensures Inv(n)
  {
    hide ReadyRings, DelayLists, EventLists, EventsDelayed, TopCovers, Timed;
    NewBlockSized(s, n, p);
    NewBlockReady(s, n, p);
    NewBlockDelays(s, n, p);
    NewBlockEvents(s, n, p);
  }

  lemma NewBlockSized(s: State, n: State, p: nat)
    requires Sized(s) && p < |s.ready| && s.ready[p].Valid() && n == NewBlock(s, p)
    ensures Sized(n)
  {
    assert forall x :: 0 <= x < |n.priority| ==> n.priority[x] == if x < |s.priority| then s.priority[x] else p;
  }

  lemma NewBlockReady(s: State, n: State, p: nat)
    requires Sized(s) && ReadyRings(s) && TopCovers(s) && p < |s.ready| && n == NewBlock(s, p) && Sized(n)
    ensures ReadyRings(n) && TopCovers(n)
  {
    RingInsertEnd(s.ready[p], |s.priority| + 1, |s.priority|);
    assert forall q :: 0 <= q < |n.ready| && q != p ==> n.ready[q] == s.ready[q];
    assert forall x :: 0 <= x < |s.priority| ==> n.priority[x] == s.priority[x] && n.home[x] == s.home[x];
  }

  /** A new co-routine is in no delay list. */
  lemma NewBlockDelays(s: State, n: State, p: nat)
    requires Sized(s) && DelayLists(s) && Timed(s)
    requires p < |s.ready| && s.ready[p].Valid() && n == NewBlock(s, p) && Sized(n)
    ensures DelayLists(n) && Timed(n)
  {
  }

  /** It waits for no event. */
  lemma NewBlockEvents(s: State, n: State, p: nat)
    requires Sized(s) && EventLists(s) && EventsDelayed(s)
    requires p < |s.ready| && s.ready[p].Valid() && n == NewBlock(s, p) && Sized(n)
    ensures EventLists(n) && EventsDelayed(n)
  {
    assert forall k :: 0 <= k < |s.events| ==> SortedBy(s.events[k], EventKey(n)) by {
      assert forall x :: 0 <= x < |s.priority| ==> EventKey(n)[x] == EventKey(s)[x];
    }
  }

  lemma StepKeepsInv(s: State, a: Action)
    requires Inv(s) && Enabled(s, a)
    ensures Inv(Step(s, a))
  {
    match a
    case Create(priority) => CreateKeepsInv(s, priority);
    case Delay(d, event) => DelayKeepsInv(s, d, event);
    case Event(k) => EventKeepsInv(s, k);
    case ReadyPending => ReadyPendingKeepsInv(s);
    case Advance => AdvanceKeepsInv(s);
    case Expire =>
      assert Delayed(s)[0] in Delayed(s);
      ExpireKeepsInv(s, Delayed(s)[0]);
    case Pick => PickKeepsInv(s);
  }

  // ------------------------------------------------------------------
  // Whole runs
  // ------------------------------------------------------------------

  /** After prvInitialiseCoRoutineLists: every list empty, no co-routine yet. */
  ghost function Initial(priorities: nat, eventLists: nat): State
    requires priorities > 0
  {
    State([], [], [], [], [], EmptyRings(priorities), [], [], false, [], EmptyLists(eventLists), 0, 0, 0, 0)
  }

  function EmptyRings(n: nat): (rs: seq<Ring<Id>>)
    ensures |rs| == n && forall p :: 0 <= p < n ==> rs[p] == Ring([], 0)
  {
    seq(n, _ => Ring([], 0))
  }

  function EmptyLists(n: nat): (ls: seq<seq<Id>>)
    ensures |ls| == n && forall k :: 0 <= k < n ==> ls[k] == []
  {
    seq(n, _ => [])
  }

  /** With every list empty and no co-routine yet, the invariant holds and nothing is due. */
  lemma EmptyWorks(s: State)
    requires Sized(s) && s.priority == [] && s.delay1 == [] && s.delay2 == [] && s.pending == []
    requires forall p :: 0 <= p < |s.ready| ==> s.ready[p] == Ring([], 0)
    requires forall k :: 0 <= k < |s.events| ==> s.events[k] == []
    ensures Inv(s) && CaughtUp(s)
  {
    hide Timed, DelayLists, EventLists, ReadyRings, EventsDelayed, TopCovers;
    InitialReady(s);
    InitialEvents(s);
    InitialDelays(s);
  }

  lemma InitialDelays(s: State)
    requires Sized(s) && s.priority == [] && s.delay1 == [] && s.delay2 == []
    ensures DelayLists(s) && EventsDelayed(s) && Timed(s)
  {
    hide Now, DelayHome;
  }

  lemma InitialReady(s: State)
    requires Sized(s) && s.priority == [] && forall p :: 0 <= p < |s.ready| ==> s.ready[p] == Ring([], 0)
    ensures ReadyRings(s) && TopCovers(s)
  {
  }

  lemma InitialEvents(s: State)
    requires Sized(s) && s.priority == [] && s.pending == [] && forall k :: 0 <= k < |s.events| ==> s.events[k] == []
    ensures EventLists(s)
  {
  }

  lemma Bounds(s: State)
    requires Inv(s)
    ensures |s.home| == |s.eventHome| == |s.wake| == |s.due| == |s.priority|
    ensures s.tick < TICKS && s.top < |s.ready| && (s.priority != [] ==> s.current < |s.priority|)
    ensures s.pending != [] ==> s.pending[0] < |s.priority|
    ensures Delayed(s) != [] ==> Delayed(s)[0] < |s.priority| && s.eventHome[Delayed(s)[0]].EventList? ==>
              s.eventHome[Delayed(s)[0]].list < |s.events|
    ensures Delayed(s) != [] ==> Delayed(s)[0] < |s.priority|
  {
    if s.pending != [] {
      assert s.pending[0] in s.pending;
    }
    if Delayed(s) != [] {
      assert Delayed(s)[0] in Delayed(s);
    }
  }

  lemma RingOf(s: State, c: Id)
    requires Inv(s) && c < |s.priority|
    ensures s.priority[c] < |s.ready| && s.ready[s.priority[c]].Valid()
  {
  }

  /** From a state that keeps the invariant, `a` is possible and leads to `n`. */
  ghost predicate Leads(s: State, a: Action, n: State) {
    Inv(s) ==> Enabled(s, a) && n == Step(s, a)
  }

  ghost predicate StepByStep(states: seq<State>, run: seq<Action>)
    requires |states| == |run| + 1
  {
    forall i :: 0 <= i < |run| ==> Leads(states[i], run[i], states[i + 1])
  }

  /** The states a run of actions goes through; any interleaving is allowed. */
  ghost predicate Trace(states: seq<State>, run: seq<Action>) {
    |states| == |run| + 1 && Inv(states[0]) && StepByStep(states, run)
  }

  lemma {:induction false} TraceKeepsInv(states: seq<State>, run: seq<Action>, i: nat)
    requires Trace(states, run) && i <= |run|
    ensures Inv(states[i])
    decreases i
  {
    if i > 0 {
      TraceKeepsInv(states, run, i - 1);
      assert Leads(states[i - 1], run[i - 1], states[i]);
      StepKeepsInv(states[i - 1], run[i - 1]);
    }
  }

  /** How many ticks the actions from place `i` up to place `j` of a run count. */
  function Ticks(run: seq<Action>, i: nat, j: nat): nat
    requires i <= j <= |run|
    decreases j
  {
    if i == j then 0 else Ticks(run, i, j - 1) + if run[j - 1].Advance? then 1 else 0
  }

  lemma ExpiredClock(s: State)
    requires Inv(s) && !CaughtUp(s)
    ensures Now(Step(s, Expire)) == Now(s)
  {
    assert Delayed(s)[0] in Delayed(s);
  }

  lemma ReadiedClock(s: State)
    requires Inv(s) && s.pending != []
    ensures Now(Readied(s)) == Now(s)
  {
  }

  lemma StepCountsTicks(s: State, a: Action)
    requires Inv(s) && Enabled(s, a)
    ensures Now(Step(s, a)) == Now(s) + if a.Advance? then 1 else 0
  {
    hide Consistent, DelayedFor, Expired, OffDelay, OffEvents, HighestReady;
    match a
    case Delay(d, event) => DelayKeepsInv(s, d, event);
    case Advance => AdvanceKeepsInv(s);
    case Expire => ExpiredClock(s);
    case ReadyPending => ReadiedClock(s);
    case Create(_) => case Event(_) => case Pick =>
  }

  lemma {:induction false} NowCountsTicks(states: seq<State>, run: seq<Action>, i: nat, j: nat)
    requires Trace(states, run) && i <= j <= |run|
    ensures Now(states[j]) == Now(states[i]) + Ticks(run, i, j)
    decreases j
  {
    if i < j {
      NowCountsTicks(states, run, i, j - 1);
      TraceKeepsInv(states, run, j - 1);
      assert Leads(states[j - 1], run[j - 1], states[j]);
      StepCountsTicks(states[j - 1], run[j - 1]);
    }
  }

  /** The generic item of `c` is in exactly one list. */
  ghost predicate OneHome(s: State, c: Id)
    requires c < |s.priority| && s.priority[c] < |s.ready|
  {
    && (forall p :: 0 <= p < |s.ready| && p != s.priority[c] ==> c !in s.ready[p].items)
    && (c in s.ready[s.priority[c]].items <==> c !in s.delay1 && c !in s.delay2)
    && !(c in s.delay1 && c in s.delay2)
  }

  /** Its event item is in one list at most, and only while the generic item is in a delay list. */
  ghost predicate OneEventHome(s: State, c: Id) {
    && (c in s.pending ==> c in s.delay1 || c in s.delay2)
    && (forall k :: 0 <= k < |s.events| && c in s.events[k] ==> c !in s.pending && (c in s.delay1 || c in s.delay2))
    && (forall k, l :: 0 <= k < |s.events| && 0 <= l < |s.events| && c in s.events[k] && c in s.events[l] ==> k == l)
  }

  lemma HomesAreExact(states: seq<State>, run: seq<Action>, i: nat, c: Id)
    requires Trace(states, run) && i <= |run| && c < |states[i].priority|
    ensures states[i].priority[c] < |states[i].ready| && OneHome(states[i], c) && OneEventHome(states[i], c)
  {
    TraceKeepsInv(states, run, i);
    GenericHome(states[i], c);
    EventItemHome(states[i], c);
  }

  lemma GenericHome(s: State, c: Id)
    requires Sized(s) && ReadyRings(s) && DelayLists(s) && c < |s.priority|
    ensures OneHome(s, c)
  {
  }

  lemma EventItemHome(s: State, c: Id)
    requires Sized(s) && DelayLists(s) && EventLists(s) && EventsDelayed(s) && c < |s.priority|
    ensures OneEventHome(s, c)
  {
    assert !s.home[c].ReadyList? ==> c in s.delay1 || c in s.delay2;
  }

  // ------------------------------------------------------------------
  // Exact delays
  // ------------------------------------------------------------------

  /** `c` sits in a delay list, to be readied at moment `due`; `quiet` when no event can end the delay. */
  ghost predicate Waiting(s: State, c: Id, due: nat, quiet: bool) {
    && Sized(s) && c < |s.priority| && !s.home[c].ReadyList? && s.due[c] == due
    && (quiet ==> s.eventHome[c].NoList?)
  }

  /** The step that takes `c` off its delay list. */
  ghost predicate Ends(s: State, a: Action, c: Id)
    requires Inv(s) && Enabled(s, a)
  {
    || (a.Expire? && Delayed(s)[0] == c)
    || (a.ReadyPending? && s.pending[0] == c)
  }

  lemma ReadyLeavesOthers(s: State, n: State, x: Id, c: Id)
    requires Inv(s) && Inv(n) && x < |s.priority| && n.priority == s.priority
    requires n.home == s.home[x := ReadyList] && n.due == s.due && n.eventHome == s.eventHome[x := NoList]
    ensures forall due, quiet :: x != c && Waiting(s, c, due, quiet) ==> Waiting(n, c, due, quiet)
    ensures x == c ==> n.home[c].ReadyList?
  {
  }

  lemma EndsNow(s: State, c: Id)
    requires Inv(s) && !CaughtUp(s) && Delayed(s)[0] == c
    ensures c < |s.priority| && s.due[c] == Now(s)
  {
    assert c in Delayed(s);
    assert s.home[c] == DelayHome(s, false);
  }

  lemma HeldByCreate(s: State, priority: nat, c: Id, due: nat, quiet: bool)
    requires Inv(s) && Waiting(s, c, due, quiet) && Inv(Created(s, priority))
    ensures Waiting(Created(s, priority), c, due, quiet)
  {
  }

  lemma HeldByDelay(s: State, d: nat, event: MaybeEvent, c: Id, due: nat, quiet: bool)
    requires Inv(s) && Enabled(s, Delay(d, event)) && Waiting(s, c, due, quiet) && Inv(DelayedFor(s, d, event))
    ensures Waiting(DelayedFor(s, d, event), c, due, quiet)
  {
    DelayMoves(s, d, event);
  }

  lemma HeldByEvent(s: State, k: nat, c: Id, due: nat, quiet: bool)
    requires Inv(s) && k < |s.events| && s.events[k] != [] && Waiting(s, c, due, quiet)
    ensures Waiting(EventMoved(s, k), c, due, quiet)
  {
    EventKeepsInv(s, k);
    assert s.events[k][0] in s.events[k];
  }

  lemma HeldByReady(s: State, c: Id, due: nat, quiet: bool)
    requires Inv(s) && s.pending != [] && Waiting(s, c, due, quiet)
    ensures s.pending[0] != c ==> Waiting(Readied(s), c, due, quiet)
    ensures s.pending[0] == c ==> c < |Readied(s).home| && Readied(s).home[c].ReadyList? && !quiet && Now(s) <= due
  {
    ReadyPendingKeepsInv(s);
    assert s.pending[0] in s.pending;
    ReadyLeavesOthers(s, Readied(s), s.pending[0], c);
    DueAhead(s, c);
  }

  lemma HeldByExpire(s: State, c: Id, due: nat, quiet: bool)
    requires Inv(s) && !CaughtUp(s) && Waiting(s, c, due, quiet)
    ensures Delayed(s)[0] < |s.priority|
    ensures Delayed(s)[0] != c ==> Waiting(Expired(s, Delayed(s)[0]), c, due, quiet)
    ensures Delayed(s)[0] == c ==> c < |Expired(s, c).home| && Expired(s, c).home[c].ReadyList? && Now(s) == due
  {
    var x := Delayed(s)[0];
    EndsNow(s, x);
    ExpireKeepsInv(s, x);
    OffEventsWorks(s, x);
    RemovalsCommute(s, x);
    ReadyLeavesOthers(s, Expired(s, x), x, c);
  }

  lemma HeldByAdvance(s: State, c: Id, due: nat, quiet: bool)
    requires Inv(s) && CaughtUp(s) && Waiting(s, c, due, quiet)
    ensures Waiting(Advanced(s), c, due, quiet)
  {
  }

  lemma HeldByPick(s: State, c: Id, due: nat, quiet: bool)
    requires Inv(s) && Inv(Picked(s)) && Waiting(s, c, due, quiet)
    ensures Waiting(Picked(s), c, due, quiet)
  {
  }

  /** Nothing but its own expiry or an event of its own ends a delay, and the expiry comes on time. */
  lemma DelayHeld(s: State, a: Action, c: Id, due: nat, quiet: bool)
    requires Inv(s) && Enabled(s, a) && Waiting(s, c, due, quiet)
    ensures !Ends(s, a, c) ==> Waiting(Step(s, a), c, due, quiet)
    ensures Ends(s, a, c) ==> c < |Step(s, a).home| && Step(s, a).home[c].ReadyList?
    ensures Ends(s, a, c) ==> if a.Expire? then Now(s) == due else !quiet && Now(s) <= due
  {
    hide Consistent;
    match a
    case Create(priority) =>
      CreateKeepsInv(s, priority);
      HeldByCreate(s, priority, c, due, quiet);
    case Delay(d, event) =>
      DelayKeepsInv(s, d, event);
      HeldByDelay(s, d, event, c, due, quiet);
    case Event(k) => HeldByEvent(s, k, c, due, quiet);
    case ReadyPending => HeldByReady(s, c, due, quiet);
    case Expire => HeldByExpire(s, c, due, quiet);
    case Advance => HeldByAdvance(s, c, due, quiet);
    case Pick =>
      PickKeepsInv(s);
      HeldByPick(s, c, due, quiet);
  }

  lemma DueAhead(s: State, c: Id)
    requires Inv(s) && c < |s.priority| && !s.home[c].ReadyList?
    ensures Now(s) <= s.due[c] && (CaughtUp(s) ==> Now(s) < s.due[c])
  {
    if CaughtUp(s) {
      LaterThanTick(s);
    }
  }

  /** How long after place `i` of a run the delay lasts. */
  lemma {:induction false} DelayLasts(states: seq<State>, run: seq<Action>, i: nat, c: Id, due: nat, quiet: bool)
    returns (j: nat)
    requires Trace(states, run) && i <= |run| && Waiting(states[i], c, due, quiet)
    ensures i <= j <= |run| && forall k {:trigger states[k]} :: i <= k <= j ==> Waiting(states[k], c, due, quiet)
    ensures j < |run| ==> EndsHere(states[j], run[j], c)
    decreases |run| - i
  {
    hide Waiting, Ends;
    TraceKeepsInv(states, run, i);
    if i == |run| {
      j := i;
    } else {
      assert Leads(states[i], run[i], states[i + 1]);
      if Ends(states[i], run[i], c) {
        j := i;
      } else {
        DelayHeld(states[i], run[i], c, due, quiet);
        j := DelayLasts(states, run, i + 1, c, due, quiet);
      }
    }
  }

  ghost predicate EndsHere(s: State, a: Action, c: Id) {
    Inv(s) && Enabled(s, a) && Ends(s, a, c)
  }

  /**
   `a` readies `c`: its time being up, exactly `d` ticks having passed, or by
   an event it was waiting for.
   */
  ghost predicate Readies(s: State, a: Action, n: State, c: Id, ticks: nat, d: nat, quiet: bool) {
    && c < |n.home| && n.home[c].ReadyList?
    && ((a.Expire? && ticks == d) || (a.ReadyPending? && !quiet && s.pending != [] && s.pending[0] == c))
  }

  /**
   Exact delays, tick wraps included. Let the running co-routine ask at place
   `i` of a run for a delay of `d` ticks. It is off the ready lists up to some
   place `j`, at most `d` ticks later. If the run goes on, the action there
   readies it: because its time is up, and then exactly `d` ticks have passed,
   or because an event it waited for came. If the run ends while it still
   waits, its time is not up: once the delay list is caught up fewer than `d`
   ticks have passed.
   */
  lemma ExactDelay(states: seq<State>, run: seq<Action>, i: nat, c: Id) returns (j: nat)
    requires Trace(states, run) && i < |run| && run[i].Delay? && c == states[i].current
    ensures i < j <= |run| && Ticks(run, i + 1, j) <= run[i].ticks
    ensures forall k {:trigger states[k]} :: i < k <= j ==>
              c < |states[k].home| && !states[k].home[c].ReadyList?
    ensures j < |run| ==>
              Readies(states[j], run[j], states[j + 1], c, Ticks(run, i + 1, j), run[i].ticks, run[i].event.NoEvent?)
    ensures j == |run| && Inv(states[j]) && CaughtUp(states[j]) ==>
              Ticks(run, i + 1, j) < run[i].ticks
  {
    var d, quiet := run[i].ticks, run[i].event.NoEvent?;
    TraceKeepsInv(states, run, i);
    assert Leads(states[i], run[i], states[i + 1]);
    StartsWaiting(states[i], d, run[i].event);
    var due := Now(states[i + 1]) + d;
    j := DelayLasts(states, run, i + 1, c, due, quiet);
    NowCountsTicks(states, run, i + 1, j);
    TraceKeepsInv(states, run, j);
    assert Waiting(states[j], c, due, quiet);
    DueAhead(states[j], c);
    if j < |run| {
      assert Leads(states[j], run[j], states[j + 1]);
      EndsOnTime(states[j], run[j], c, Ticks(run, i + 1, j), due, d, quiet);
    }
  }

  lemma StartsWaiting(s: State, d: nat, event: MaybeEvent)
    requires Inv(s) && Enabled(s, Delay(d, event))
    ensures var n := Step(s, Delay(d, event));
            Waiting(n, s.current, Now(s) + d, event.NoEvent?) && Now(n) == Now(s)
  {
    DelayKeepsInv(s, d, event);
    DelayAlone(s, d);
  }

  lemma EndsOnTime(s: State, a: Action, c: Id, ticks: nat, due: nat, d: nat, quiet: bool)
    requires Inv(s) && Enabled(s, a) && Waiting(s, c, due, quiet) && Ends(s, a, c)
    requires due - d == Now(s) - ticks
    ensures Readies(s, a, Step(s, a), c, ticks, d, quiet)
  {
    DelayHeld(s, a, c, due, quiet);
  }

  // ------------------------------------------------------------------
  // Waiting for an event
  // ------------------------------------------------------------------

  /** A delay with an event puts the caller in that event's list, the others there keeping their order. */
  lemma DelayJoins(s: State, d: nat, event: MaybeEvent) returns (p: nat)
    requires Inv(s) && Enabled(s, Delay(d, event))
    ensures var n := Step(s, Delay(d, event)); n.pending == s.pending && Inv(n)
    ensures event.NoEvent? ==>
              Step(s, Delay(d, event)).events == s.events && Step(s, Delay(d, event)).eventHome == s.eventHome
    ensures event.OnEvent? ==>
              var n, k, c := Step(s, Delay(d, event)), event.list, s.current;
              && p <= |s.events[k]| && n.events == s.events[k := s.events[k][..p] + [c] + s.events[k][p..]]
              && c < |s.eventHome| && n.eventHome == s.eventHome[c := EventList(k)]
  {
    hide Consistent;
    var c := s.current;
    DelayKeepsInv(s, d, event);
    DelayAlone(s, d);
    TakenOff(s);
    var m := OntoDelay(OffReady(s, c), c, d);
    MovedFrame(s, OffReady(s, c), m, c, d);
    p := 0;
    if event.OnEvent? {
      EventsFit(m, c, event.list);
      p := InsertPosition(Keys(m.events[event.list], EventKey(m)), EventKey(m)[c]);
    }
  }

  lemma MovedFrame(s: State, t: State, m: State, c: Id, d: nat)
    requires Sized(s) && ReadyRings(s) && c < |s.priority| && s.home[c].ReadyList? && t == OffReady(s, c)
    requires ReadyToMove(t) && d < TICKS && m == OntoDelay(t, c, d)
    ensures m.pending == s.pending && m.priority == s.priority
  {
    OntoDelayFields(t, c, d);
  }

  lemma EventsFit(s: State, c: Id, k: nat)
    requires Inv(s) && c < |s.priority| && k < |s.events|
    ensures c < |s.eventHome| && (forall x :: 0 <= x < |s.priority| ==> s.priority[x] < |s.ready|)
    ensures Within(s.events[k], |s.priority|)
  {
    assert SortedBy(s.events[k], EventKey(s));
  }

  /** `c` is delayed, and waits in event list `k`. */
  ghost predicate Expects(s: State, c: Id, k: nat) {
    && Sized(s) && c < |s.priority| && !s.home[c].ReadyList? && s.eventHome[c] == EventList(k)
    && k < |s.events| && c in s.events[k]
  }

  /** The event's own step, with `c` at the head of its list */
  ghost predicate Calls(s: State, a: Action, c: Id, k: nat) {
    a == Event(k) && k < |s.events| && s.events[k] != [] && s.events[k][0] == c
  }

  /** `c` is delayed, its event has come, and it is to be readied. */
  ghost predicate Called(s: State, c: Id) {
    Sized(s) && c < |s.priority| && !s.home[c].ReadyList? && s.eventHome[c].PendingList? && c in s.pending
  }

  ghost predicate TimeIsUp(s: State, a: Action, c: Id) {
    Inv(s) && !CaughtUp(s) && a.Expire? && Delayed(s)[0] == c
  }

  lemma ExpectsIf(s: State, n: State, c: Id, k: nat)
    requires Expects(s, c, k) && Inv(n) && |s.priority| <= |n.priority| && |n.events| == |s.events|
    requires n.home[c] == s.home[c] && n.eventHome[c] == s.eventHome[c]
    ensures Expects(n, c, k)
  {
  }

  lemma CalledIf(s: State, n: State, c: Id)
    requires Called(s, c) && Inv(n) && |s.priority| <= |n.priority|
    requires n.home[c] == s.home[c] && n.eventHome[c] == s.eventHome[c]
    ensures Called(n, c)
  {
  }

  /** What a step leaves of a delayed co-routine other than the one it is about */
  ghost predicate Untouched(s: State, n: State, c: Id) {
    && c < |s.priority| <= |n.priority| && |n.events| == |s.events|
    && c < |s.home| && c < |n.home| && n.home[c] == s.home[c]
    && c < |s.eventHome| && c < |n.eventHome| && n.eventHome[c] == s.eventHome[c]
  }

  /** The co-routine an action is about, if it is delayed */
  ghost predicate About(s: State, a: Action, c: Id)
    requires Inv(s) && Enabled(s, a)
  {
    match a
    case Event(k) => s.events[k][0] == c
    case ReadyPending => s.pending[0] == c
    case Expire => Delayed(s)[0] == c
    case _ => false
  }

  lemma OthersUntouched(s: State, a: Action, c: Id)
    requires Inv(s) && Enabled(s, a) && c < |s.priority| && c < |s.home| && !s.home[c].ReadyList? && !About(s, a, c)
    ensures Inv(Step(s, a)) && Untouched(s, Step(s, a), c)
  {
    hide Consistent, DelayedFor, Readied, Expired, NewBlock, HighestReady;
    Bounds(s);
    StepKeepsInv(s, a);
    match a
    case Create(wanted) => CreatedAsAsked(s, wanted);
    case Delay(d, event) =>
      DelayMoves(s, d, event);
      var p := DelayJoins(s, d, event);
      SizesMatch(Step(s, a));
    case Event(k) => EventHead(s, k);
    case ReadyPending => ReadiedOthers(s, c);
    case Expire => ExpiredOthers(s, c);
    case Advance =>
    case Pick =>
  }

  lemma SizesMatch(s: State)
    requires Inv(s)
    ensures |s.home| == |s.eventHome| == |s.priority|
  {
  }

  lemma ReadiedOthers(s: State, c: Id)
    requires Inv(s) && s.pending != [] && c < |s.priority| && s.pending[0] != c
    ensures Untouched(s, Readied(s), c) && Readied(s).pending == s.pending[1..]
  {
    assert s.pending[0] in s.pending;
  }

  lemma ExpiredOthers(s: State, c: Id)
    requires Inv(s) && !CaughtUp(s) && c < |s.priority| && Delayed(s)[0] != c
    ensures Delayed(s)[0] < |s.priority| && Untouched(s, Expired(s, Delayed(s)[0]), c)
  {
    var x := Delayed(s)[0];
    assert x in Delayed(s);
    OffEventsWorks(s, x);
  }

  /** It stays in the event's list until the event comes to it or its time is up. */
  lemma ExpectsHeld(s: State, a: Action, c: Id, k: nat)
    requires Inv(s) && Enabled(s, a) && Expects(s, c, k)
    ensures Inv(Step(s, a))
    ensures Expects(Step(s, a), c, k) || Calls(s, a, c, k) || TimeIsUp(s, a, c)
    ensures Calls(s, a, c, k) ==> Called(Step(s, a), c) && Step(s, a).pending == s.pending + [c]
  {
    StepKeepsInv(s, a);
    if !About(s, a, c) {
      OthersUntouched(s, a, c);
      ExpectsIf(s, Step(s, a), c, k);
    } else {
      AboutExpecting(s, a, c, k);
    }
  }

  lemma AboutExpecting(s: State, a: Action, c: Id, k: nat)
    requires Inv(s) && Enabled(s, a) && Expects(s, c, k) && About(s, a, c)
    ensures Calls(s, a, c, k) || TimeIsUp(s, a, c)
    ensures Calls(s, a, c, k) ==> Called(Step(s, a), c) && Step(s, a).pending == s.pending + [c]
  {
    if a.Event? {
      HeadCalled(s, a.list, c, k);
    }
  }

  lemma HeadCalled(s: State, l: nat, c: Id, k: nat)
    requires Inv(s) && l < |s.events| && s.events[l] != [] && s.events[l][0] == c && Expects(s, c, k)
    ensures l == k && Called(EventMoved(s, l), c)
  {
    assert c in s.events[l];
    EventKeepsInv(s, l);
  }

  /** Once its event has come it is readied by its turn in the pending list, or by its time before that. */
  lemma CalledHeld(s: State, a: Action, c: Id)
    requires Inv(s) && Enabled(s, a) && Called(s, c)
    ensures Inv(Step(s, a))
    ensures Called(Step(s, a), c) || (a.ReadyPending? && s.pending[0] == c) || TimeIsUp(s, a, c)
    ensures !Called(Step(s, a), c) ==> c < |Step(s, a).home| && Step(s, a).home[c].ReadyList?
  {
    StepKeepsInv(s, a);
    if !About(s, a, c) {
      OthersUntouched(s, a, c);
      CalledIf(s, Step(s, a), c);
    } else {
      if a.ReadyPending? {
        ReadyPendingKeepsInv(s);
      } else if a.Expire? {
        ExpireKeepsInv(s, c);
      }
    }
  }

  /** The place in a run up to which it waits in the event's list */
  lemma {:induction false} ExpectsLasts(
    states: seq<State>, run: seq<Action>, i: nat, c: Id, k: nat, due: nat) returns (j: nat)
    requires Trace(states, run) && i <= |run| && Expects(states[i], c, k) && Waiting(states[i], c, due, false)
    ensures i <= j <= |run| && forall l {:trigger states[l]} :: i <= l <= j ==> Expects(states[l], c, k)
    ensures Waiting(states[j], c, due, false)
    ensures j < |run| && Calls(states[j], run[j], c, k) ==> Called(states[j + 1], c)
    ensures j < |run| ==> Calls(states[j], run[j], c, k) || TimeIsUp(states[j], run[j], c)
    decreases |run| - i
  {
    hide Expects, Waiting, Calls, TimeIsUp, Called;
    TraceKeepsInv(states, run, i);
    if i == |run| {
      j := i;
    } else {
      assert Leads(states[i], run[i], states[i + 1]);
      ExpectsHeld(states[i], run[i], c, k);
      if Calls(states[i], run[i], c, k) || TimeIsUp(states[i], run[i], c) {
        j := i;
      } else {
        StillWaiting(states[i], run[i], c, k, due);
        j := ExpectsLasts(states, run, i + 1, c, k, due);
      }
    }
  }

  lemma StillWaiting(s: State, a: Action, c: Id, k: nat, due: nat)
    requires Inv(s) && Enabled(s, a) && Waiting(s, c, due, false) && Expects(Step(s, a), c, k)
    ensures Waiting(Step(s, a), c, due, false)
  {
    DelayHeld(s, a, c, due, false);
  }

  /**
   Waiting for an event. Let the running co-routine ask at place `i` of a run
   for a delay with event list `k`. It is in that list up to some place `j`.
   If the run goes on, the action there is the event, with it at the head of
   the list, which puts it at the end of the pending list; or its time is up,
   and exactly as many ticks have passed as it asked for.
   */
  lemma EventEndsDelay(states: seq<State>, run: seq<Action>, i: nat, c: Id) returns (j: nat)
    requires Trace(states, run) && i < |run| && run[i].Delay? && run[i].event.OnEvent? && c == states[i].current
    ensures i < j <= |run|
    ensures forall l {:trigger states[l]} :: i < l <= j ==> Expects(states[l], c, run[i].event.list)
    ensures j < |run| ==>
              if Calls(states[j], run[j], c, run[i].event.list) then Called(states[j + 1], c)
              else TimeIsUp(states[j], run[j], c) && Ticks(run, i + 1, j) == run[i].ticks
  {
    hide Expects, Waiting, Calls, TimeIsUp, Called, Consistent;
    var d, k := run[i].ticks, run[i].event.list;
    TraceKeepsInv(states, run, i);
    assert Leads(states[i], run[i], states[i + 1]);
    JoinedExpects(states[i], d, k);
    StartsWaiting(states[i], d, run[i].event);
    var due := Now(states[i + 1]) + d;
    j := ExpectsLasts(states, run, i + 1, c, k, due);
    TraceKeepsInv(states, run, j);
    NowCountsTicks(states, run, i + 1, j);
    if j < |run| && !Calls(states[j], run[j], c, k) {
      UpNow(states[j], run[j], c, due);
    }
  }

  lemma UpNow(s: State, a: Action, c: Id, due: nat)
    requires TimeIsUp(s, a, c) && Waiting(s, c, due, false)
    ensures Now(s) == due
  {
    EndsNow(s, c);
  }

  lemma JoinedExpects(s: State, d: nat, k: nat)
    requires Inv(s) && Enabled(s, Delay(d, OnEvent(k)))
    ensures Expects(Step(s, Delay(d, OnEvent(k))), s.current, k)
  {
    var p := DelayJoins(s, d, OnEvent(k));
    DelayKeepsInv(s, d, OnEvent(k));
    DelayMoves(s, d, OnEvent(k));
    var n := Step(s, Delay(d, OnEvent(k)));
    assert n.events[k][p] == s.current;
  }

  /** The next drain of the pending list readies every co-routine whose event has come, before its time. */
  lemma {:induction false} DrainReadies(s: State, c: Id)
    requires Inv(s) && Called(s, c)
    ensures c < |Drained(s).home| && Drained(s).home[c].ReadyList?
    ensures c < |s.due| && Now(s) <= s.due[c] && (CaughtUp(s) ==> Now(s) < s.due[c])
    decreases |s.pending|
  {
    hide Consistent;
    DueAheadOf(s, c);
    ReadyPendingKeepsInv(s);
    CalledHeld(s, ReadyPending, c);
    if Called(Readied(s), c) {
      DrainShrinks(s);
      DrainReadies(Readied(s), c);
    } else {
      DrainShrinks(s);
      StaysReady(Readied(s), c);
    }
  }

  lemma DueAheadOf(s: State, c: Id)
    requires Inv(s) && Called(s, c)
    ensures c < |s.due| && Now(s) <= s.due[c] && (CaughtUp(s) ==> Now(s) < s.due[c])
  {
    DueAhead(s, c);
  }

  lemma DrainShrinks(s: State)
    requires Inv(s) && s.pending != []
    ensures Readied(s).pending == s.pending[1..]
  {
    assert s.pending[0] in s.pending;
  }

  lemma {:induction false} StaysReady(s: State, c: Id)
    requires Inv(s) && c < |s.home| && s.home[c].ReadyList?
    ensures c < |Drained(s).home| && Drained(s).home[c].ReadyList?
    decreases |s.pending|
  {
    if s.pending != [] {
      ReadyPendingKeepsInv(s);
      DrainShrinks(s);
      assert s.pending[0] in s.pending;
      StaysReady(Readied(s), c);
    }
  }

  // ------------------------------------------------------------------
  // Scheduling
  // ------------------------------------------------------------------

  /** vCoRoutineSchedule runs a ready co-routine of the highest priority that has one, whenever there is one. */
  lemma PicksHighest(s: State)
    requires Inv(s) && s.priority != []
    ensures var n := Picked(s);
            && n.current < |s.priority|
            && (forall c :: 0 <= c < |s.priority| && s.home[c].ReadyList? ==>
                  s.home[n.current].ReadyList? && s.priority[c] <= s.priority[n.current])
            && ((forall c :: 0 <= c < |s.priority| ==> !s.home[c].ReadyList?) ==>
                  n.current == s.current && n.ready == s.ready)
  {
    var p, n := HighestReady(s.ready, s.top), Picked(s);
    forall c | 0 <= c < |s.priority| && s.home[c].ReadyList?
      ensures s.priority[c] <= p && s.ready[p].items != []
    {
      assert c in s.ready[s.priority[c]].items;
    }
    if s.ready[p].items != [] {
      var ring := s.ready[p].Next();
      assert ring.items[ring.index - 1] in s.ready[p].items;
      assert n.current in s.ready[p].items;
    }
  }

  /** Among those it takes them in turn: `k` picks in a row end on the k-th of the walk. */
  lemma {:induction false} PicksInTurn(states: seq<State>, run: seq<Action>, k: nat, p: nat)
    requires Trace(states, run) && 0 < k <= |run| && forall i :: 0 <= i < k ==> run[i] == Pick
    requires p < |states[0].ready| && states[0].top < |states[0].ready|
    requires p == HighestReady(states[0].ready, states[0].top)
    requires k <= |states[0].ready[p].items| && states[0].ready[p].Valid()
    ensures states[k].current == states[0].ready[p].Walk()[k - 1]
    decreases k
  {
    var s, n := states[0], states[1];
    assert Leads(s, run[0], n);
    PickKeepsInv(s);
    WalkAfterNext(s.ready[p]);
    if k > 1 {
      SamePick(s, n, p);
      LeadsOn(states, run);
      PicksInTurn(states[1..], run[1..], k - 1, p);
    }
  }

  lemma LeadsOn(states: seq<State>, run: seq<Action>)
    requires Trace(states, run) && run != []
    ensures Trace(states[1..], run[1..])
  {
    TraceKeepsInv(states, run, 1);
    forall i | 0 <= i < |run[1..]|
      ensures Leads(states[1..][i], run[1..][i], states[1..][i + 1])
    {
      assert Leads(states[i + 1], run[i + 1], states[i + 2]);
    }
  }

  lemma SamePick(s: State, n: State, p: nat)
    requires Inv(s) && n == Picked(s) && Inv(n) && p == HighestReady(s.ready, s.top) && s.ready[p].items != []
    ensures HighestReady(n.ready, n.top) == p && n.ready[p] == s.ready[p].Next()
  {
  }

  /**
   A co-routine made ready is met last of those of its priority, save for the
   one chosen last, and every other ready list stays as it was.
   */
  lemma ReadyGoesLast(s: State, c: Id)
    requires c < |s.priority| && c < |s.home| && s.priority[c] < |s.ready| && s.ready[s.priority[c]].Valid()
    ensures var p, n := s.priority[c], AddReady(s, c);
            && |n.ready| == |s.ready| && (forall q :: 0 <= q < |s.ready| && q != p ==> n.ready[q] == s.ready[q])
            && n.ready[p].Valid() && n.home == s.home[c := ReadyList] && p <= n.top && s.top <= n.top
            && var w := s.ready[p].Walk();
               && (s.ready[p].index == 0 ==> n.ready[p].Walk() == w + [c])
               && (s.ready[p].index > 0 ==> n.ready[p].Walk() == w[..|w| - 1] + [c, w[|w| - 1]])
  {
    WalkAfterInsertEnd(s.ready[s.priority[c]], c);
  }

  /** A new co-routine has the priority asked for, or the highest there is, and is ready with it. */
  lemma CreatedAsAsked(s: State, wanted: nat)
    requires Inv(s)
    ensures var n, c, p := Created(s, wanted), |s.priority|, if wanted < |s.ready| then wanted else |s.ready| - 1;
            && n.priority == s.priority + [p] && n.home == s.home + [ReadyList] && n.eventHome == s.eventHome + [NoList]
            && Inv(n) && c in n.ready[p].items && (c > 0 ==> n.current == s.current)
            && n.pending == s.pending && n.events == s.events && n.delay1 == s.delay1 && n.delay2 == s.delay2
  {
    CreateKeepsInv(s, wanted);
    var n, c, p := Created(s, wanted), |s.priority|, if wanted < |s.ready| then wanted else |s.ready| - 1;
    assert n.priority[c] == p && n.home[c].ReadyList?;
  }

  /** An event wakes, of the co-routines waiting for it, one of the highest priority. */
  lemma EventWakesHighest(s: State, k: nat)
    requires Inv(s) && k < |s.events| && s.events[k] != []
    ensures var n, c := EventMoved(s, k), s.events[k][0];
            && c < |s.priority| && c in n.pending && c !in n.events[k]
            && forall x :: 0 <= x < |s.priority| && s.eventHome[x] == EventList(k) ==> s.priority[x] <= s.priority[c]
  {
    HeadOff(s.events[k]);
    var c, ks := s.events[k][0], EventKey(s);
    assert c in s.events[k];
    forall x | 0 <= x < |s.priority| && s.eventHome[x] == EventList(k)
      ensures s.priority[x] <= s.priority[c]
    {
      assert x in s.events[k];
      var i :| 0 <= i < |s.events[k]| && s.events[k][i] == x;
      assert ks[c] <= ks[x];
    }
  }

  // ------------------------------------------------------------------
  // What one call of the scheduler amounts to
  // ------------------------------------------------------------------

  /** All rounds of prvCheckPendingReadyList */
  ghost function Drained(s: State): (n: State)
    requires Inv(s)
    ensures Inv(n) && n.pending == []
    decreases |s.pending|
  {
    if s.pending == [] then s else ReadyPendingKeepsInv(s); Drained(Readied(s))
  }

  lemma ExpireShrinks(s: State)
    requires Inv(s) && !CaughtUp(s)
    ensures Delayed(s)[0] < |s.priority| && Inv(Expired(s, Delayed(s)[0]))
    ensures |Delayed(Expired(s, Delayed(s)[0]))| < |Delayed(s)|
  {
    var c := Delayed(s)[0];
    EndsNow(s, c);
    ExpireKeepsInv(s, c);
  }

  /** Every item that is due, taken in turn */
  ghost function Settled(s: State): (n: State)
    requires Inv(s)
    ensures Inv(n) && CaughtUp(n)
    decreases |Delayed(s)|
  {
    if CaughtUp(s) then s else ExpireShrinks(s); Settled(Expired(s, Delayed(s)[0]))
  }

  /** prvCheckDelayedList when `k` ticks have passed */
  ghost function Passed(s: State, k: nat): (n: State)
    requires Inv(s) && CaughtUp(s)
    ensures Inv(n) && CaughtUp(n)
    decreases k
  {
    if k == 0 then s else AdvanceKeepsInv(s); Passed(Settled(Advanced(s)), k - 1)
  }

  lemma {:induction false} TicksInFront(a: Action, run: seq<Action>, j: nat)
    requires j <= |run|
    ensures Ticks([a] + run, 0, j + 1) == (if a.Advance? then 1 else 0) + Ticks(run, 0, j)
    decreases j
  {
    if j > 0 {
      TicksInFront(a, run, j - 1);
      assert ([a] + run)[j] == run[j - 1];
    }
  }

  /** One action put in front of a run. */
  lemma InFront(s: State, a: Action, states: seq<State>, run: seq<Action>)
    requires Trace(states, run) && Inv(s) && Enabled(s, a) && states[0] == Step(s, a)
    ensures Trace([s] + states, [a] + run)
    ensures Ticks([a] + run, 0, |run| + 1) == (if a.Advance? then 1 else 0) + Ticks(run, 0, |run|)
  {
    hide Consistent, Step, Enabled;
    var ss, r := [s] + states, [a] + run;
    TicksInFront(a, run, |run|);
    forall i | 0 <= i < |r|
      ensures Leads(ss[i], r[i], ss[i + 1])
    {
      if i > 0 {
        assert Leads(states[i - 1], run[i - 1], states[i]);
      }
    }
  }

  lemma {:induction false} SettleInFront(s: State, states: seq<State>, run: seq<Action>)
    returns (ss: seq<State>, r: seq<Action>)
    requires Trace(states, run) && Inv(s) && states[0] == Settled(s)
    ensures Trace(ss, r) && ss[0] == s && ss[|r|] == states[|run|] && Ticks(r, 0, |r|) == Ticks(run, 0, |run|)
    decreases |Delayed(s)|
  {
    hide Consistent, StepByStep, CaughtUp, Expired;
    if CaughtUp(s) {
      ss, r := states, run;
    } else {
      ExpireShrinks(s);
      ss, r := SettleInFront(Expired(s, Delayed(s)[0]), states, run);
      InFront(s, Expire, ss, r);
      ss, r := [s] + ss, [Expire] + r;
    }
  }

  lemma NoSteps(s: State)
    requires Inv(s)
    ensures Trace([s], [])
  {
  }

  /**
   A call of prvCheckDelayedList is a run of single steps that counts each
   tick passed, so what holds of all runs holds of it.
   */
  lemma {:induction false} PassedIsRun(s: State, k: nat) returns (states: seq<State>, run: seq<Action>)
    requires Inv(s) && CaughtUp(s)
    ensures Trace(states, run) && states[0] == s && states[|run|] == Passed(s, k) && Ticks(run, 0, |run|) == k
    decreases k
  {
    hide Consistent, CaughtUp, StepByStep;
    if k == 0 {
      NoSteps(s);
      states, run := [s], [];
    } else {
      AdvanceKeepsInv(s);
      var a := Advanced(s);
      states, run := PassedIsRun(Settled(a), k - 1);
      states, run := SettleInFront(a, states, run);
      InFront(s, Advance, states, run);
      states, run := [s] + states, [Advance] + run;
    }
  }

  lemma {:induction false} SettledKeepsTime(s: State)
    requires Inv(s)
    ensures Settled(s).tick == s.tick && Settled(s).wraps == s.wraps && |Settled(s).priority| == |s.priority|
    decreases |Delayed(s)|
  {
    hide Consistent, CaughtUp;
    if !CaughtUp(s) {
      ExpireShrinks(s);
      ExpiredKeepsTime(s, Delayed(s)[0]);
      SettledKeepsTime(Expired(s, Delayed(s)[0]));
    }
  }

  lemma ExpiredKeepsTime(s: State, c: Id)
    requires Inv(s) && c < |s.priority|
    ensures var n := Expired(s, c);
            n.tick == s.tick && n.wraps == s.wraps && n.priority == s.priority
  {
    hide Without;
  }

  lemma {:induction false} PassedKeepsTime(s: State, k: nat)
    requires Inv(s) && CaughtUp(s)
    ensures Now(Passed(s, k)) == Now(s) + k && |Passed(s, k).priority| == |s.priority|
    decreases k
  {
    hide Consistent, CaughtUp;
    if k > 0 {
      AdvanceKeepsInv(s);
      SettledKeepsTime(Advanced(s));
      PassedKeepsTime(Settled(Advanced(s)), k - 1);
    }
  }

  lemma {:induction false} DrainedKeepsTime(s: State)
    requires Inv(s)
    ensures Drained(s).tick == s.tick && |Drained(s).priority| == |s.priority|
    ensures CaughtUp(s) ==> CaughtUp(Drained(s))
    decreases |s.pending|
  {
    if s.pending != [] {
      ReadyPendingKeepsInv(s);
      ReadiedCaughtUp(s);
      DrainedKeepsTime(Readied(s));
    }
  }

  lemma CaughtUpIf(s: State)
    requires Inv(s)
    requires forall c :: 0 <= c < |s.priority| && s.home[c] == DelayHome(s, false) ==> s.tick < s.wake[c]
    ensures CaughtUp(s)
  {
    if Delayed(s) != [] {
      assert Delayed(s)[0] in Delayed(s);
    }
  }

  lemma ReadiedCaughtUp(s: State)
    requires Inv(s) && s.pending != [] && Inv(Readied(s))
    ensures CaughtUp(s) ==> CaughtUp(Readied(s))
  {
    if CaughtUp(s) {
      LaterThanTick(s);
      CaughtUpIf(Readied(s));
    }
  }

  lemma DelayCaughtUp(s: State, d: nat, event: MaybeEvent)
    requires Inv(s) && Enabled(s, Delay(d, event)) && CaughtUp(s) && Inv(DelayedFor(s, d, event))
    ensures CaughtUp(DelayedFor(s, d, event))
  {
    LaterThanTick(s);
    DelayMoves(s, d, event);
    CaughtUpIf(DelayedFor(s, d, event));
  }

  lemma PickedCaughtUp(s: State)
    requires Inv(s) && CaughtUp(s) && Inv(Picked(s))
    ensures CaughtUp(Picked(s))
  {
  }

  lemma RingAt(s: State, p: nat)
    requires Inv(s) && p < |s.ready|
    ensures s.ready[p].Valid()
  {
  }

  lemma EventHead(s: State, k: nat)
    requires Inv(s) && k < |s.events| && s.events[k] != []
    ensures s.events[k][0] < |s.priority|
    ensures Inv(EventMoved(s, k)) && CaughtUp(s) ==> CaughtUp(EventMoved(s, k))
  {
    assert s.events[k][0] in s.events[k];
  }

  lemma MovesFit(s: State, d: nat, event: MaybeEvent)
    requires Inv(s) && Enabled(s, Delay(d, event))
    ensures Sized(s) && ReadyRings(s) && s.home[s.current].ReadyList?
    ensures Within(s.delay1, |s.wake|) && Within(s.delay2, |s.wake|)
    ensures event.OnEvent? ==> Within(s.events[event.list], |s.priority|)
  {
    if event.OnEvent? {
      assert SortedBy(s.events[event.list], EventKey(s));
    }
  }

  lemma CreatedCaughtUp(s: State, priority: nat)
    requires Inv(s) && CaughtUp(s) && Inv(Created(s, priority))
    ensures CaughtUp(Created(s, priority))
  {
    LaterThanTick(s);
    CaughtUpIf(Created(s, priority));
  }

  /** xTaskGetTickCount() - xLastTickCount */
  function Elapsed(now: nat, last: nat): (k: nat)
    requires now < TICKS && last < TICKS
    ensures k == (now - last) % TICKS
  {
    if now >= last then now - last else now - last + TICKS
  }

  lemma CatchesUp(s: State, n: State, now: nat)
    requires s.tick < TICKS && now < TICKS && n.tick < TICKS && Now(n) == Now(s) + Elapsed(now, s.tick)
    ensures n.tick == now
  {
  }

  // ------------------------------------------------------------------
  // The scheduler
  // ------------------------------------------------------------------

  class Scheduler {
    var priority: seq<nat>
    var home: seq<Home>
    var eventHome: seq<EventHome>
    var wake: seq<nat>
    var ready: seq<Ring<Id>>
    var delay1: seq<Id>
    var delay2: seq<Id>
    var flipped: bool
    var pending: seq<Id>
    var events: seq<seq<Id>>
    var tick: nat
    var lastTick: nat      // xLastTickCount
    var passedTicks: nat   // xPassedTicks
    var top: nat
    var current: Id
    ghost var due: seq<nat>
    ghost var wraps: nat

    ghost function View(): State
      reads this
    {
      State(priority, home, eventHome, wake, due, ready, delay1, delay2, flipped, pending, events,
            tick, wraps, top, current)
    }

    ghost predicate Valid()
      reads this
    {
      Inv(View()) && CaughtUp(View()) && lastTick == tick
    }

    constructor (priorities: nat, eventLists: nat)
      requires priorities > 0
      ensures Valid() && View() == Initial(priorities, eventLists)
    {
      hide Consistent, CaughtUp;
      EmptyWorks(Initial(priorities, eventLists));
      priority, home, eventHome, wake, due := [], [], [], [], [];
      ready := EmptyRings(priorities);
      delay1, delay2, flipped, pending := [], [], false, [];
      events := EmptyLists(eventLists);
      tick, lastTick, passedTicks, wraps, top, current := 0, 0, 0, 0, 0, 0;
    }

    /** prvAddCoRoutineToReadyQueue */
    method AddToReadyQueue(c: Id)
      requires c < |priority| && c < |home| && priority[c] < |ready| && ready[priority[c]].Valid()
      modifies this`home, this`ready, this`top
      ensures View() == old(AddReady(View(), c))
    {
      if priority[c] > top {
        top := priority[c];
      }
      ready := ready[priority[c] := ready[priority[c]].InsertEnd(c)];
      home := home[c := ReadyList];
    }

    /** uxListRemove of the generic item from the delay list it is in */
    method RemoveDelayed(c: Id)
      requires c < |home|
      modifies this`delay1, this`delay2
      ensures View() == old(OffDelay(View(), c))
    {
      match home[c]
      case ReadyList =>
      case Delay1 => delay1 := Without(delay1, c);
      case Delay2 => delay2 := Without(delay2, c);
    }

    /** uxListRemove of the event item when pvContainer is not NULL */
    method RemoveEvent(c: Id)
      requires c < |eventHome| && (eventHome[c].EventList? ==> eventHome[c].list < |events|)
      modifies this`pending, this`events, this`eventHome
      ensures View() == old(OffEvents(View(), c))
    {
      match eventHome[c]
      case NoList =>
      case PendingList =>
        pending := Without(pending, c);
        eventHome := eventHome[c := NoList];
      case EventList(k) =>
        events := events[k := Without(events[k], c)];
        eventHome := eventHome[c := NoList];
    }

    method CheckPendingReadyList()
      requires Inv(View())
      modifies this`pending, this`eventHome, this`delay1, this`delay2, this`home, this`ready, this`top
      ensures View() == old(Drained(View()))
    {
      hide Consistent;
      while pending != []
        invariant Inv(View()) && Drained(View()) == old(Drained(View()))
        decreases |pending|
      {
        ghost var s := View();
        ReadyPendingKeepsInv(s);
        ReadyHead();
      }
    }

    /** One round of prvCheckPendingReadyList */
    method ReadyHead()
      requires Inv(View()) && pending != []
      modifies this`pending, this`eventHome, this`delay1, this`delay2, this`home, this`ready, this`top
      ensures View() == old(Readied(View()))
    {
      hide Consistent;
      ghost var s := View();
      Bounds(s);
      var c := pending[0];
      RingOf(s, c);
      pending := pending[1..];
      eventHome := eventHome[c := NoList];
      RemoveDelayed(c);
      AddToReadyQueue(c);
    }

    /** The inner loop of prvCheckDelayedList */
    method ReadyExpired()
      requires Inv(View())
      modifies this`pending, this`events, this`eventHome, this`delay1, this`delay2, this`home, this`ready, this`top
      ensures View() == old(Settled(View()))
    {
      hide Consistent;
      var more := true;
      while more && (if flipped then delay2 else delay1) != []
        invariant Inv(View()) && Settled(View()) == old(Settled(View()))
        invariant !more ==> CaughtUp(View())
        decreases more, |Delayed(View())|
      {
        var c := (if flipped then delay2 else delay1)[0];
        ghost var s := View();
        Bounds(s);
        if tick < wake[c] {
          more := false;
        } else {
          ExpireShrinks(s);
          ReadyDelayed(c);
        }
      }
    }

    /** What prvCheckDelayedList does with an item that is due */
    method ReadyDelayed(c: Id)
      requires Inv(View()) && Delayed(View()) != [] && c == Delayed(View())[0] && c < |priority|
      modifies this`pending, this`events, this`eventHome, this`delay1, this`delay2, this`home, this`ready, this`top
      ensures View() == old(Expired(View(), c))
    {
      hide Consistent;
      Bounds(View());
      RingOf(View(), c);
      RemoveDelayed(c);
      RemoveEvent(c);
      AddToReadyQueue(c);
    }

    method CheckDelayedList(tickCount: nat)
      requires Valid() && tickCount < TICKS
      modifies this
      ensures Valid() && lastTick == tickCount
      ensures View() == old(Passed(View(), Elapsed(tickCount, lastTick)))
    {
      hide Consistent, CaughtUp, Now, Elapsed;
      ghost var s := View();
      Bounds(s);
      passedTicks := Elapsed(tickCount, lastTick);
      PassedKeepsTime(s, passedTicks);
      PassTicks();
      Bounds(View());
      CatchesUp(s, View(), tickCount);
      lastTick := tick;
    }

    /** The outer loop of prvCheckDelayedList */
    method PassTicks()
      requires Inv(View()) && CaughtUp(View())
      modifies this`tick, this`wraps, this`passedTicks, this`flipped
      modifies this`pending, this`events, this`eventHome, this`delay1, this`delay2, this`home, this`ready, this`top
      ensures Inv(View()) && CaughtUp(View()) && View() == Passed(old(View()), old(passedTicks))
    {
      hide Consistent, CaughtUp;
      while passedTicks > 0
        invariant Inv(View()) && CaughtUp(View())
        invariant Passed(View(), passedTicks) == Passed(old(View()), old(passedTicks))
      {
        PassTick();
      }
    }

    /** The body of the outer loop of prvCheckDelayedList */
    method PassTick()
      requires Inv(View()) && CaughtUp(View()) && passedTicks > 0
      modifies this`tick, this`wraps, this`passedTicks, this`flipped
      modifies this`pending, this`events, this`eventHome, this`delay1, this`delay2, this`home, this`ready, this`top
      ensures Inv(old(Advanced(View()))) && View() == Settled(old(Advanced(View())))
      ensures passedTicks == old(passedTicks) - 1
    {
      hide Consistent, CaughtUp;
      Bounds(View());
      AdvanceKeepsInv(View());
      CountTick();
      ReadyExpired();
    }

    /** xCoRoutineTickCount++ with the swap of the two lists when it wraps */
    method CountTick()
      requires tick < TICKS && passedTicks > 0
      modifies this`tick, this`wraps, this`passedTicks, this`flipped
      ensures View() == old(Advanced(View())) && passedTicks == old(passedTicks) - 1
    {
      tick := tick + 1;
      if tick == TICKS {
        tick, wraps := 0, wraps + 1;
      }
      passedTicks := passedTicks - 1;
      if tick == 0 {
        flipped := !flipped;
      }
    }

    /** vCoRoutineSchedule, up to the call of the co-routine chosen */
    method Schedule(tickCount: nat)
      requires Valid() && priority != [] && tickCount < TICKS
      modifies this
      ensures Valid() && lastTick == tickCount && priority != []
      ensures old(lastTick) < TICKS && CaughtUp(Drained(old(View())))
      ensures View() == Picked(Passed(Drained(old(View())), Elapsed(tickCount, old(lastTick))))
    {
      hide Consistent;
      ghost var s := View();
      Bounds(s);
      DrainedKeepsTime(s);
      CheckPendingReadyList();
      PassedKeepsTime(View(), Elapsed(tickCount, lastTick));
      CheckDelayedList(tickCount);
      PickKeepsInv(View());
      PickedCaughtUp(View());
      PickNext();
    }

    /** The search down the ready lists, and the step along the list found */
    method PickNext()
      requires Inv(View()) && priority != []
      modifies this`top, this`ready, this`current
      ensures View() == old(Picked(View()))
    {
      hide Consistent;
      ghost var s := View();
      Bounds(s);
      while ready[top].items == []
        invariant top < |ready| && HighestReady(ready, top) == HighestReady(s.ready, s.top)
        invariant ready == s.ready && current == s.current
        decreases top
      {
        if top == 0 {
          return;
        }
        top := top - 1;
      }
      RingAt(s, top);
      var ring := ready[top].Next();
      ready := ready[top := ring];
      current := ring.items[ring.index - 1];
    }

    /** xCoRoutineCreate, the control block allocated */
    method Create(wanted: nat)
      requires Valid()
      modifies this
      ensures Valid() && View() == Step(old(View()), Action.Create(wanted))
      ensures priority == old(priority) + [if wanted < |old(ready)| then wanted else |old(ready)| - 1]
      ensures home == old(home) + [ReadyList] && eventHome == old(eventHome) + [NoList]
    {
      hide Consistent;
      ghost var s := View();
      Bounds(s);
      CreateKeepsInv(s, wanted);
      CreatedAsAsked(s, wanted);
      CreatedCaughtUp(s, wanted);
      var p := wanted;
      if p >= |ready| {
        p := |ready| - 1;
      }
      RingAt(s, p);
      AddControlBlock(p);
    }

    method AddControlBlock(p: nat)
      requires |home| == |priority| && p < |ready| && ready[p].Valid()
      modifies this`priority, this`home, this`eventHome, this`wake, this`due, this`ready, this`top, this`current
      ensures View() == old(NewBlock(View(), p))
    {
      var c := |priority|;
      InitialiseBlock(p);
      if c == 0 {
        current := c;
      }
      assert home[c := ReadyList] == home;
      AddToReadyQueue(c);
    }

    method InitialiseBlock(p: nat)
      modifies this`priority, this`home, this`eventHome, this`wake, this`due
      ensures priority == old(priority) + [p] && home == old(home) + [ReadyList]
      ensures eventHome == old(eventHome) + [NoList] && wake == old(wake) + [0] && due == old(due) + [0]
    {
      priority, home, eventHome := priority + [p], home + [ReadyList], eventHome + [NoList];
      wake, due := wake + [0], due + [0];
    }

    /** xCoRoutineRemoveFromEventList; an interrupt may call it while prvCheckDelayedList is still catching up. */
    method RemoveFromEventList(k: nat) returns (preempts: bool)
      requires Inv(View()) && Enabled(View(), Event(k))
      modifies this`events, this`pending, this`eventHome
      ensures Inv(View()) && View() == Step(old(View()), Event(k)) && (old(Valid()) ==> Valid())
      ensures var c := old(events[k][0]);
              && c < |priority| && current < |priority| && preempts == (priority[c] >= priority[current])
              && pending == old(pending) + [c] && events == old(events)[k := old(events[k])[1..]]
    {
      hide Consistent;
      ghost var s := View();
      EventKeepsInv(s, k);
      EventHead(s, k);
      Bounds(s);
      var c := events[k][0];
      events := events[k := events[k][1..]];
      pending := pending + [c];
      eventHome := eventHome[c := PendingList];
      preempts := priority[c] >= priority[current];
    }

    method AddToDelayedList(d: nat, event: MaybeEvent)
      requires Valid() && Enabled(View(), Delay(d, event))
      modifies this
      ensures Valid() && View() == Step(old(View()), Delay(d, event))
      ensures event.NoEvent? ==> events == old(events) && eventHome == old(eventHome)
      ensures event.OnEvent? ==>
                && |events| == |old(events)| && event.list < |events| && current < |eventHome|
                && (forall k :: 0 <= k < |events| && k != event.list ==> events[k] == old(events)[k])
                && (exists p :: 0 <= p <= |old(events)[event.list]| && events[event.list]
                      == old(events)[event.list][..p] + [current] + old(events)[event.list][p..])
                && eventHome == old(eventHome)[current := EventList(event.list)]
    {
      hide Consistent;
      ghost var s := View();
      DelayKeepsInv(s, d, event);
      ghost var p := DelayJoins(s, d, event);
      DelayCaughtUp(s, d, event);
      MoveToDelayed(d, event);
    }

    method MoveToDelayed(d: nat, event: MaybeEvent)
      requires Inv(View()) && Enabled(View(), Delay(d, event))
      modifies this`ready, this`wake, this`due, this`home, this`delay1, this`delay2, this`events, this`eventHome
      ensures View() == old(DelayedFor(View(), d, event))
    {
      hide Consistent;
      var c := current;
      MovesFit(View(), d, event);
      RemoveReady(c);
      SetWakeTime(c, d);
      PlaceOnEventList(c, event);
    }

    /** uxListRemove of the generic item from its ready list */
    method RemoveReady(c: Id)
      requires Sized(View()) && ReadyRings(View()) && c < |priority| && home[c].ReadyList?
      modifies this`ready
      ensures View() == old(OffReady(View(), c))
    {
      var p := priority[c];
      ready := ready[p := ready[p].RemoveAt(IndexOf(ready[p].items, c))];
    }

    method SetWakeTime(c: Id, d: nat)
      requires c < |wake| && c < |due| && c < |home| && Within(delay1, |wake|) && Within(delay2, |wake|)
      requires tick < TICKS && d < TICKS
      modifies this`wake, this`due, this`home, this`delay1, this`delay2
      ensures View() == old(OntoDelay(View(), c, d))
    {
      hide InsertBy, Now;
      ghost var s := View();
      var timeToWake := WakeTime(tick, d);
      wake := wake[c := timeToWake];
      due := due[c := Now(s) + d];
      if timeToWake < tick {
        if flipped {
          delay1, home := InsertBy(delay1, wake, c), home[c := Delay1];
        } else {
          delay2, home := InsertBy(delay2, wake, c), home[c := Delay2];
        }
      } else {
        if flipped {
          delay2, home := InsertBy(delay2, wake, c), home[c := Delay2];
        } else {
          delay1, home := InsertBy(delay1, wake, c), home[c := Delay1];
        }
      }
    }

    method PlaceOnEventList(c: Id, event: MaybeEvent)
      requires c < |priority| && c < |eventHome| && forall x :: 0 <= x < |priority| ==> priority[x] < |ready|
      requires event.OnEvent? ==> event.list < |events| && Within(events[event.list], |priority|)
      modifies this`events, this`eventHome
      ensures View() == old(OntoEvent(View(), c, event))
    {
      if event.OnEvent? {
        var levels := |ready|;
        var values := seq(|priority|, x requires 0 <= x < |priority| reads this => levels - priority[x]);
        assert values == EventKey(View());
        events := events[event.list := InsertBy(events[event.list], values, c)];
        eventHome := eventHome[c := EventList(event.list)];
      }
    }
  }
}
