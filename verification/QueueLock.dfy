/**
 The lock-count protocol of freertos/source/queue.c: tasks that block on a
 queue, interrupts that use it meanwhile, and the promise that nobody is left
 asleep while there is something to do.

 A queue is its counters and its two event lists. Event lists hold tasks in
 priority order, which this protocol does not depend on: a task may join
 anywhere, and the head is the one removed (vTaskPlaceOnEventList and
 xTaskRemoveFromEventList are steps here, not code).
 */
module QueueLock {
  import opened LockCount

  type Task = nat

  datatype Queue = Queue(
    waiting: nat,           // uxMessagesWaiting
    length: nat,            // uxLength
    rxLock: int,            // cRxLock
    txLock: int,            // cTxLock
    toSend: seq<Task>,      // xTasksWaitingToSend
    toReceive: seq<Task>)   // xTasksWaitingToReceive

  // ------------------------------------------------------------------
  // The critical sections, as functions
  // ------------------------------------------------------------------

  function Least(a: int, b: int): int {
    if a < b then a else b
  }

  /** How many tasks a list gives up when one, or `n`, may be woken. */
  function Heads(list: seq<Task>, n: int): (k: nat)
    ensures k <= |list|
  {
    if n <= 0 then 0 else Least(n, |list|)
  }

  predicate HasRoom(q: Queue, overwrite: bool) {
    q.waiting < q.length || overwrite
  }

  /** uxMessagesWaiting after an item has gone in */
  function OneMore(q: Queue, overwrite: bool): nat {
    if overwrite && q.waiting > 0 then q.waiting else q.waiting + 1
  }

  /** xQueueGenericSend with room: add, and wake a task waiting to receive. */
  function Sent(q: Queue, overwrite: bool): Queue {
    q.(waiting := OneMore(q, overwrite), toReceive := q.toReceive[Heads(q.toReceive, 1)..])
  }

  /** xQueueGenericReceive with an item: take it, and wake a task waiting to send. */
  function Received(q: Queue): Queue
    requires q.waiting > 0
  {
    q.(waiting := q.waiting - 1, toSend := q.toSend[Heads(q.toSend, 1)..])
  }

  /** The same when only peeking: the item stays for another task waiting to receive. */
  function Peeked(q: Queue): Queue {
    q.(toReceive := q.toReceive[Heads(q.toReceive, 1)..])
  }

  /** xQueueGenericSendFromISR and xQueueGiveFromISR with room */
  function SentFromIsr(q: Queue, overwrite: bool): Queue {
    if q.txLock == UNLOCKED then Sent(q, overwrite)
    else q.(waiting := OneMore(q, overwrite), txLock := Incremented(q.txLock))
  }

  /** xQueueReceiveFromISR with an item */
  function ReceivedFromIsr(q: Queue): Queue
    requires q.waiting > 0
  {
    if q.rxLock == UNLOCKED then Received(q)
    else q.(waiting := q.waiting - 1, rxLock := Incremented(q.rxLock))
  }

  /** prvLockQueue */
  function Locked(q: Queue): Queue {
    q.(rxLock := if q.rxLock == UNLOCKED then 0 else q.rxLock,
       txLock := if q.txLock == UNLOCKED then 0 else q.txLock)
  }

  /** The first critical section of prvUnlockQueue: one waiter for each item sent meanwhile. */
  function TxUnlocked(q: Queue): Queue {
    q.(toReceive := q.toReceive[Heads(q.toReceive, q.txLock)..], txLock := UNLOCKED)
  }

  /** The second critical section of prvUnlockQueue. */
  function RxUnlocked(q: Queue): Queue {
    q.(toSend := q.toSend[Heads(q.toSend, q.rxLock)..], rxLock := UNLOCKED)
  }

  // ------------------------------------------------------------------
  // Tasks
  // ------------------------------------------------------------------

  datatype Op = Receive | Peek | Send | Overwrite

  predicate Receives(op: Op) {
    op.Receive? || op.Peek?
  }

  /** What a task does once it has unlocked the queue and resumed the scheduler. */
  datatype Next = Sleep | Retry | GiveUp

  /** Where a task stands in the for(;;) loop of xQueueGenericSend or xQueueGenericReceive. */
  datatype Phase =
    | Idle
    | Trying(op: Op)                    // at the first critical section
    | Refused(op: Op)                   // found the queue empty or full, will block
    | Holding(op: Op)                   // scheduler suspended, queue locked
    | Placing(op: Op)                   // found it empty or full again, under the lock
    | UnlockingTx(op: Op, next: Next)
    | UnlockingRx(op: Op, next: Next)
    | Asleep(op: Op)                    // on an event list, or just taken off it
    | Expired(op: Op)                   // a receiver whose time is up, before its last look

  datatype Scheduler = Running | SuspendedBy(task: Task)

  datatype System = System(
    q: Queue,
    phase: map<Task, Phase>,
    scheduler: Scheduler,
    wokenToReceive: set<Task>,   // taken off toReceive by an event, not yet back at Trying's section
    wokenToSend: set<Task>)

  function PhaseOf(s: System, t: Task): Phase {
    if t in s.phase then s.phase[t] else Idle
  }

  predicate Holds(p: Phase) {
    p.Holding? || p.Placing? || p.UnlockingTx? || p.UnlockingRx?
  }

  /** Phases in which a task may be on an event list. */
  predicate MayBeListed(p: Phase) {
    p.Asleep? || ((p.UnlockingTx? || p.UnlockingRx?) && p.next.Sleep?)
  }

  datatype Action =
    | Call(t: Task, op: Op)
    | Attempt(t: Task, patient: bool)   // the first critical section
    | Suspend(t: Task)                  // vTaskSuspendAll, prvLockQueue
    | Recheck(t: Task, expired: bool)   // xTaskCheckForTimeOut, prvIsQueueEmpty or prvIsQueueFull
    | Place(t: Task, at: nat)           // vTaskPlaceOnEventList
    | UnlockTx(t: Task)
    | UnlockRx(t: Task)                 // and xTaskResumeAll
    | LastLook(t: Task)                 // prvIsQueueEmpty after a receiver's time is up
    | Wake(t: Task)                     // a task off its event list runs again
    | TimeOut(t: Task)                  // the tick takes a task off its event list
    | IsrSend(overwrite: bool)
    | IsrReceive

  predicate Blocked(q: Queue, op: Op) {
    if Receives(op) then q.waiting == 0 else q.waiting == q.length
  }

  predicate CanProceed(q: Queue, op: Op) {
    if Receives(op) then q.waiting > 0 else HasRoom(q, op.Overwrite?)
  }

  predicate Enabled(s: System, a: Action) {
    match a
    case Call(t, op) => PhaseOf(s, t).Idle? && s.scheduler.Running? && (op.Overwrite? ==> s.q.length == 1)
    case Attempt(t, _) => PhaseOf(s, t).Trying? && s.scheduler.Running?
    case Suspend(t) => PhaseOf(s, t).Refused? && s.scheduler.Running?
    case Recheck(t, _) => PhaseOf(s, t).Holding?
    case Place(t, at) =>
      PhaseOf(s, t).Placing? && at <= |if Receives(PhaseOf(s, t).op) then s.q.toReceive else s.q.toSend|
    case UnlockTx(t) => PhaseOf(s, t).UnlockingTx?
    case UnlockRx(t) => PhaseOf(s, t).UnlockingRx?
    case LastLook(t) => PhaseOf(s, t).Expired? && s.scheduler.Running?
    case Wake(t) => PhaseOf(s, t).Asleep? && s.scheduler.Running? && t !in s.q.toReceive && t !in s.q.toSend
    case TimeOut(t) => t in s.q.toReceive || t in s.q.toSend
    case IsrSend(overwrite) => HasRoom(s.q, overwrite) && (overwrite ==> s.q.length == 1)
    case IsrReceive => s.q.waiting > 0
  }

  /** A usage rule: at most `limit` sends and at most `limit` receives by interrupts during one lock. */
  predicate WithinLimit(s: System, a: Action, limit: nat) {
    match a
    case IsrSend(_) => Within(s.q.txLock, limit)
    case IsrReceive => Within(s.q.rxLock, limit)
    case _ => true
  }

  function Elements(list: seq<Task>): set<Task> {
    set x | x in list
  }

  function Without(list: seq<Task>, t: Task): (r: seq<Task>)
    ensures forall x :: x in r <==> x in list && x != t
    ensures t !in list ==> r == list
  {
    if list == [] then []
    else if list[0] == t then Without(list[1..], t)
    else [list[0]] + Without(list[1..], t)
  }

  /** The tasks an operation takes off the front of a list. */
  function Taken(before: seq<Task>, after: seq<Task>): set<Task> {
    if |after| <= |before| then Elements(before[..|before| - |after|]) else {}
  }

  /** The system after a change of queue that may have woken tasks. */
  function WithQueue(s: System, q: Queue): System {
    s.(q := q,
       wokenToReceive := s.wokenToReceive + Taken(s.q.toReceive, q.toReceive),
       wokenToSend := s.wokenToSend + Taken(s.q.toSend, q.toSend))
  }

  function WithPhase(s: System, t: Task, p: Phase): System {
    s.(phase := s.phase[t := p])
  }

  /** A task at its first critical section has retried. */
  function Retried(s: System, t: Task): System {
    s.(wokenToReceive := s.wokenToReceive - {t}, wokenToSend := s.wokenToSend - {t})
  }

  function Attempted(s: System, t: Task, op: Op, patient: bool): System {
    var r := Retried(s, t);
    if CanProceed(s.q, op) then
      WithPhase(WithQueue(r, match op
        case Receive => if s.q.waiting > 0 then Received(s.q) else s.q
        case Peek => Peeked(s.q)
        case Send => Sent(s.q, false)
        case Overwrite => Sent(s.q, true)), t, Idle)
    else WithPhase(r, t, if patient then Refused(op) else Idle)
  }

  function Placed(s: System, t: Task, op: Op, at: nat): System
    requires at <= |if Receives(op) then s.q.toReceive else s.q.toSend|
  {
    var q := s.q;
    var q' := if Receives(op) then q.(toReceive := q.toReceive[..at] + [t] + q.toReceive[at..])
              else q.(toSend := q.toSend[..at] + [t] + q.toSend[at..]);
    WithPhase(s.(q := q'), t, UnlockingTx(op, Sleep))
  }

  /** Where a task stands once its second unlocking section is over */
  function AfterUnlock(op: Op, next: Next): Phase {
    match next
    case Sleep => Asleep(op)
    case Retry => Trying(op)
    case GiveUp => if Receives(op) then Expired(op) else Idle
  }

  function Step(s: System, a: Action): System
    requires Enabled(s, a)
  {
    match a
    case Call(t, op) => WithPhase(s, t, Trying(op))
    case Attempt(t, patient) => Attempted(s, t, PhaseOf(s, t).op, patient)
    case Suspend(t) => WithPhase(s.(q := Locked(s.q), scheduler := SuspendedBy(t)), t, Holding(PhaseOf(s, t).op))
    case Recheck(t, expired) =>
      var op := PhaseOf(s, t).op;
      WithPhase(s, t, if expired then UnlockingTx(op, GiveUp)
                      else if Blocked(s.q, op) then Placing(op)
                      else UnlockingTx(op, Retry))
    case Place(t, at) => Placed(s, t, PhaseOf(s, t).op, at)
    case UnlockTx(t) =>
      WithPhase(WithQueue(s, TxUnlocked(s.q)), t, UnlockingRx(PhaseOf(s, t).op, PhaseOf(s, t).next))
    case UnlockRx(t) =>
      var op := PhaseOf(s, t).op;
      WithPhase(WithQueue(s, RxUnlocked(s.q)), t, AfterUnlock(op, PhaseOf(s, t).next)).(scheduler := Running)
    case LastLook(t) => WithPhase(s, t, if s.q.waiting == 0 then Idle else Trying(PhaseOf(s, t).op))
    case Wake(t) => WithPhase(s, t, Trying(PhaseOf(s, t).op))
    case TimeOut(t) =>
      s.(q := s.q.(toReceive := Without(s.q.toReceive, t), toSend := Without(s.q.toSend, t)))
    case IsrSend(overwrite) => WithQueue(s, SentFromIsr(s.q, overwrite))
    case IsrReceive => WithQueue(s, ReceivedFromIsr(s.q))
  }

  // ------------------------------------------------------------------
  // The invariant
  // ------------------------------------------------------------------

  /** A list with sleepers, those woken but not yet back, the lock count, and what they wait for. */
  ghost predicate Covered(list: seq<Task>, woken: set<Task>, lock: int, stock: int) {
    list != [] ==> stock <= |woken| + Positive(lock)
  }

  ghost predicate Distinct(list: seq<Task>) {
    forall i, j :: 0 <= i < j < |list| ==> list[i] != list[j]
  }

  /** Who may be on a list and who may be among its woken tasks. */
  ghost predicate Members(s: System, list: seq<Task>, woken: set<Task>, receivers: bool) {
    && Distinct(list)
    && (forall t :: t in list ==>
          t !in woken && MayBeListed(PhaseOf(s, t)) && Receives(PhaseOf(s, t).op) == receivers)
    && (forall t :: t in woken ==>
          (MayBeListed(PhaseOf(s, t)) || PhaseOf(s, t).Trying?) && Receives(PhaseOf(s, t).op) == receivers)
  }

  ghost predicate LocksMatch(s: System) {
    && (forall t :: Holds(PhaseOf(s, t)) <==> s.scheduler == SuspendedBy(t))
    && match s.scheduler
       case Running => s.q.txLock == UNLOCKED && s.q.rxLock == UNLOCKED
       case SuspendedBy(t) =>
         && 0 <= s.q.rxLock <= INT8_MAX
         && if PhaseOf(s, t).UnlockingRx? then s.q.txLock == UNLOCKED else 0 <= s.q.txLock <= INT8_MAX
  }

  /** A task about to join a list saw nothing to wait for; only counted interrupts came since. */
  ghost predicate PlacingSafe(s: System) {
    forall t :: PhaseOf(s, t).Placing? ==>
      if Receives(PhaseOf(s, t).op) then s.q.waiting <= s.q.txLock
      else s.q.length - s.q.waiting <= s.q.rxLock
  }

  /** Only a queue of one item may be overwritten. */
  ghost predicate OpsAllowed(s: System) {
    forall t :: !PhaseOf(s, t).Idle? && PhaseOf(s, t).op.Overwrite? ==> s.q.length == 1
  }

  /** Compared with `true` so that a proof which only passes it on does not take it apart. */
  ghost predicate Inv(s: System) {
    Consistent(s) == true
  }

  ghost predicate Consistent(s: System) {
    && OpsAllowed(s)
    && 0 < s.q.length && s.q.waiting <= s.q.length
    && LocksMatch(s)
    && Members(s, s.q.toReceive, s.wokenToReceive, true)
    && Members(s, s.q.toSend, s.wokenToSend, false)
    && PlacingSafe(s)
    && Covered(s.q.toReceive, s.wokenToReceive, s.q.txLock, s.q.waiting)
    && Covered(s.q.toSend, s.wokenToSend, s.q.rxLock, s.q.length - s.q.waiting)
  }

  // ------------------------------------------------------------------
  // Waking from the front of a list
  // ------------------------------------------------------------------

  lemma {:induction false} ElementsSize(list: seq<Task>)
    requires Distinct(list)
    ensures |Elements(list)| == |list|
  {
    if list == [] {
      assert Elements(list) == {};
    } else {
      ElementsSize(list[1..]);
      assert Elements(list) == {list[0]} + Elements(list[1..]);
    }
  }

  /** Moving the first `k` sleepers to the woken loses and repeats nobody. */
  lemma TakeHeads(list: seq<Task>, woken: set<Task>, k: nat)
    requires Distinct(list) && k <= |list| && (forall t :: t in list ==> t !in woken)
    ensures var rest, more := list[k..], woken + Taken(list, list[k..]);
            && Distinct(rest) && |more| == |woken| + k
            && (forall t :: t in rest ==> t in list && t !in more)
            && (forall t :: t in more <==> t in woken || t in list[..k])
  {
    var rest, taken := list[k..], Elements(list[..k]);
    assert Taken(list, rest) == taken;
    ElementsSize(list[..k]);
    assert woken !! taken;
    forall t | t in rest
      ensures t !in taken
    {
      var j :| 0 <= j < |rest| && rest[j] == t;
      assert list[k + j] == t;
    }
  }

  /** One waiter woken pays for one more item. */
  lemma OneWokenCovers(list: seq<Task>, woken: set<Task>, lock: int, stock: int, more: int)
    requires Distinct(list) && (forall t :: t in list ==> t !in woken)
    requires Covered(list, woken, lock, stock) && more <= stock + 1
    ensures var rest := list[Heads(list, 1)..];
            Covered(rest, woken + Taken(list, rest), lock, more)
  {
    TakeHeads(list, woken, Heads(list, 1));
  }

  /** Unlocking pays the whole count. */
  lemma UnlockCovers(list: seq<Task>, woken: set<Task>, lock: int, stock: int)
    requires Distinct(list) && (forall t :: t in list ==> t !in woken)
    requires Covered(list, woken, lock, stock)
    ensures var rest := list[Heads(list, lock)..];
            Covered(rest, woken + Taken(list, rest), UNLOCKED, stock)
  {
    TakeHeads(list, woken, Heads(list, lock));
  }

  lemma NoneTaken(list: seq<Task>)
    ensures Taken(list, list) == {}
  {
    assert list[..0] == [];
  }

  // ------------------------------------------------------------------
  // Every step keeps the invariant
  // ------------------------------------------------------------------

  /** Waking from the front keeps the membership rules. */
  lemma WakeKeepsMembers(s: System, list: seq<Task>, woken: set<Task>, receivers: bool, k: nat)
    requires Members(s, list, woken, receivers) && k <= |list|
    ensures Members(s, list[k..], woken + Taken(list, list[k..]), receivers)
  {
    TakeHeads(list, woken, k);
  }

  /** An operation that only wakes from the front keeps the membership rules of both lists. */
  lemma WithQueueKeepsMembers(s: System, q: Queue, k: nat, m: nat)
    requires Members(s, s.q.toReceive, s.wokenToReceive, true) && Members(s, s.q.toSend, s.wokenToSend, false)
    requires k <= |s.q.toReceive| && q.toReceive == s.q.toReceive[k..]
    requires m <= |s.q.toSend| && q.toSend == s.q.toSend[m..]
    ensures var n := WithQueue(s, q);
            && Members(n, n.q.toReceive, n.wokenToReceive, true) && Members(n, n.q.toSend, n.wokenToSend, false)
  {
    WakeKeepsMembers(s, s.q.toReceive, s.wokenToReceive, true, k);
    WakeKeepsMembers(s, s.q.toSend, s.wokenToSend, false, m);
    var n := WithQueue(s, q);
    assert forall t :: PhaseOf(n, t) == PhaseOf(s, t);
  }

  /** A task on no list and among no woken may take any phase. */
  lemma StrangerKeepsMembers(s: System, t: Task, p: Phase)
    requires Members(s, s.q.toReceive, s.wokenToReceive, true) && Members(s, s.q.toSend, s.wokenToSend, false)
    requires t !in s.q.toReceive && t !in s.q.toSend && t !in s.wokenToReceive && t !in s.wokenToSend
    ensures var n := WithPhase(s, t, p);
            && Members(n, n.q.toReceive, n.wokenToReceive, true) && Members(n, n.q.toSend, n.wokenToSend, false)
  {
    var n := WithPhase(s, t, p);
    assert forall u :: PhaseOf(n, u) == if u == t then p else PhaseOf(s, u);
  }

  /** Interrupts change no phase; at most one lock count goes up, with the item count it stands for. */
  lemma IsrKeepsRest(s: System, q: Queue)
    requires OpsAllowed(s) && LocksMatch(s) && PlacingSafe(s) && q.length == s.q.length
    requires q.txLock == s.q.txLock || (0 <= s.q.txLock < INT8_MAX && q.txLock == s.q.txLock + 1)
    requires q.rxLock == s.q.rxLock || (0 <= s.q.rxLock < INT8_MAX && q.rxLock == s.q.rxLock + 1)
    requires s.scheduler.SuspendedBy? && PhaseOf(s, s.scheduler.task).Placing? ==>
               q.waiting - q.txLock <= s.q.waiting - s.q.txLock && s.q.waiting + s.q.rxLock <= q.waiting + q.rxLock
    ensures var n := WithQueue(s, q);
            OpsAllowed(n) && LocksMatch(n) && PlacingSafe(n)
  {
    var n := WithQueue(s, q);
    assert forall t :: PhaseOf(n, t) == PhaseOf(s, t);
  }

  lemma IsrSendKeepsInv(s: System, overwrite: bool)
    requires Inv(s) && Enabled(s, IsrSend(overwrite)) && s.q.txLock < INT8_MAX
    ensures Inv(Step(s, IsrSend(overwrite)))
  {
    hide Members, Covered, OpsAllowed, LocksMatch, PlacingSafe, Taken, Incremented;
    var q := SentFromIsr(s.q, overwrite);
    IsrSendCovers(s, overwrite);
    IsrSendKeepsRest(s, q, overwrite);
    WithQueueKeepsMembers(s, q, if s.q.txLock == UNLOCKED then Heads(s.q.toReceive, 1) else 0, 0);
  }

  lemma IsrSendKeepsRest(s: System, q: Queue, overwrite: bool)
    requires OpsAllowed(s) && LocksMatch(s) && PlacingSafe(s) && Enabled(s, IsrSend(overwrite))
    requires s.q.txLock < INT8_MAX && q == SentFromIsr(s.q, overwrite)
    ensures var n := WithQueue(s, q);
            OpsAllowed(n) && LocksMatch(n) && PlacingSafe(n)
  {
    IsrKeepsRest(s, q);
  }

  lemma IsrSendCovers(s: System, overwrite: bool)
    requires LocksMatch(s) && Enabled(s, IsrSend(overwrite)) && s.q.txLock < INT8_MAX
    requires Members(s, s.q.toReceive, s.wokenToReceive, true)
    requires Covered(s.q.toReceive, s.wokenToReceive, s.q.txLock, s.q.waiting)
    requires Covered(s.q.toSend, s.wokenToSend, s.q.rxLock, s.q.length - s.q.waiting)
    ensures var n := WithQueue(s, SentFromIsr(s.q, overwrite));
            && Covered(n.q.toReceive, n.wokenToReceive, n.q.txLock, n.q.waiting)
            && Covered(n.q.toSend, n.wokenToSend, n.q.rxLock, n.q.length - n.q.waiting)
  {
    NoneTaken(s.q.toSend);
    NoneTaken(s.q.toReceive);
    OneWokenCovers(s.q.toReceive, s.wokenToReceive, s.q.txLock, s.q.waiting, SentFromIsr(s.q, overwrite).waiting);
  }

  lemma IsrReceiveKeepsInv(s: System)
    requires Inv(s) && Enabled(s, IsrReceive) && s.q.rxLock < INT8_MAX
    ensures Inv(Step(s, IsrReceive))
  {
    hide Members, Covered, OpsAllowed, LocksMatch, PlacingSafe;
    var q := ReceivedFromIsr(s.q);
    IsrReceiveCovers(s);
    IsrReceiveKeepsRest(s, q);
    WithQueueKeepsMembers(s, q, 0, if s.q.rxLock == UNLOCKED then Heads(s.q.toSend, 1) else 0);
  }

  lemma IsrReceiveKeepsRest(s: System, q: Queue)
    requires OpsAllowed(s) && LocksMatch(s) && PlacingSafe(s) && Enabled(s, IsrReceive)
    requires s.q.rxLock < INT8_MAX && q == ReceivedFromIsr(s.q)
    ensures var n := WithQueue(s, q);
            OpsAllowed(n) && LocksMatch(n) && PlacingSafe(n)
  {
    IsrKeepsRest(s, q);
  }

  lemma IsrReceiveCovers(s: System)
    requires Inv(s) && Enabled(s, IsrReceive) && s.q.rxLock < INT8_MAX
    ensures var n := WithQueue(s, ReceivedFromIsr(s.q));
            && Covered(n.q.toReceive, n.wokenToReceive, n.q.txLock, n.q.waiting)
            && Covered(n.q.toSend, n.wokenToSend, n.q.rxLock, n.q.length - n.q.waiting)
  {
    var q := ReceivedFromIsr(s.q);
    NoneTaken(s.q.toSend);
    NoneTaken(s.q.toReceive);
    OneWokenCovers(s.q.toSend, s.wokenToSend, s.q.rxLock, s.q.length - s.q.waiting, q.length - q.waiting);
  }

  /** A task at its first critical section leaves the woken; the bounds allow for its absence. */
  ghost predicate RetriedInv(s: System, t: Task, op: Op) {
    && 0 < s.q.length && s.q.waiting <= s.q.length
    && LocksMatch(s) && s.scheduler.Running? && PhaseOf(s, t) == Trying(op)
    && Members(s, s.q.toReceive, s.wokenToReceive, true)
    && Members(s, s.q.toSend, s.wokenToSend, false)
    && t !in s.wokenToReceive && t !in s.wokenToSend
    && Covered(s.q.toReceive, s.wokenToReceive, 0, s.q.waiting - if Receives(op) then 1 else 0)
    && Covered(s.q.toSend, s.wokenToSend, 0, s.q.length - s.q.waiting - if Receives(op) then 0 else 1)
  }

  lemma RemoveOne(woken: set<Task>, t: Task)
    ensures |woken - {t}| >= |woken| - 1
    ensures t !in woken ==> woken - {t} == woken
  {
    if t in woken {
      assert woken == (woken - {t}) + {t};
    }
  }

  lemma RetriedHolds(s: System, t: Task)
    requires Inv(s) && PhaseOf(s, t).Trying? && s.scheduler.Running?
    ensures RetriedInv(Retried(s, t), t, PhaseOf(s, t).op)
    ensures OpsAllowed(Retried(s, t)) && t !in s.q.toReceive && t !in s.q.toSend
    ensures !CanProceed(s.q, PhaseOf(s, t).op) ==>
              var r := Retried(s, t);
              && Covered(r.q.toReceive, r.wokenToReceive, 0, r.q.waiting)
              && Covered(r.q.toSend, r.wokenToSend, 0, r.q.length - r.q.waiting)
  {
    RemoveOne(s.wokenToReceive, t);
    RemoveOne(s.wokenToSend, t);
    var n := Retried(s, t);
    assert forall u :: PhaseOf(n, u) == PhaseOf(s, u);
  }

  /** While the scheduler runs, a task may move between phases that do not hold the queue. */
  lemma QuietPhase(s: System, t: Task, p: Phase)
    requires OpsAllowed(s) && LocksMatch(s) && s.scheduler.Running? && !Holds(p)
    requires !p.Idle? && p.op.Overwrite? ==> s.q.length == 1
    ensures var n := WithPhase(s, t, p);
            OpsAllowed(n) && LocksMatch(n) && PlacingSafe(n)
  {
    var n := WithPhase(s, t, p);
    assert forall u :: PhaseOf(n, u) == if u == t then p else PhaseOf(s, u);
  }

  lemma QuietQueue(s: System, q: Queue)
    requires OpsAllowed(s) && LocksMatch(s) && s.scheduler.Running?
    requires q.length == s.q.length && q.rxLock == q.txLock == UNLOCKED
    ensures var n := WithQueue(s, q);
            OpsAllowed(n) && LocksMatch(n)
  {
    var n := WithQueue(s, q);
    assert forall u :: PhaseOf(n, u) == PhaseOf(s, u);
  }

  /** Leaving the call after waking from the fronts, with both bounds made good. */
  lemma LeaveKeepsInv(r: System, t: Task, op: Op, q: Queue, k: nat, m: nat)
    requires RetriedInv(r, t, op) && t !in r.q.toReceive && t !in r.q.toSend && OpsAllowed(r)
    requires q.length == r.q.length && q.rxLock == q.txLock == UNLOCKED && q.waiting <= q.length
    requires k <= |r.q.toReceive| && q.toReceive == r.q.toReceive[k..]
    requires m <= |r.q.toSend| && q.toSend == r.q.toSend[m..]
    requires var n := WithQueue(r, q);
             && Covered(q.toReceive, n.wokenToReceive, 0, q.waiting)
             && Covered(q.toSend, n.wokenToSend, 0, q.length - q.waiting)
    ensures Inv(WithPhase(WithQueue(r, q), t, Idle))
  {
    var n := WithQueue(r, q);
    QuietQueue(r, q);
    QuietPhase(n, t, Idle);
    WithQueueKeepsMembers(r, q, k, m);
    NotTaken(r.q.toReceive, k, t);
    NotTaken(r.q.toSend, m, t);
    StrangerKeepsMembers(n, t, Idle);
  }

  lemma NotTaken(list: seq<Task>, k: nat, t: Task)
    requires k <= |list| && t !in list
    ensures t !in list[k..] && t !in Taken(list, list[k..])
  {
  }

  lemma ReceiveSucceeds(r: System, t: Task)
    requires RetriedInv(r, t, Receive) && OpsAllowed(r) && t !in r.q.toReceive && t !in r.q.toSend && r.q.waiting > 0
    ensures Inv(WithPhase(WithQueue(r, Received(r.q)), t, Idle))
  {
    NoneTaken(r.q.toReceive);
    OneWokenCovers(r.q.toSend, r.wokenToSend, 0, r.q.length - r.q.waiting, r.q.length - r.q.waiting + 1);
    LeaveKeepsInv(r, t, Receive, Received(r.q), 0, Heads(r.q.toSend, 1));
  }

  lemma PeekSucceeds(r: System, t: Task)
    requires RetriedInv(r, t, Peek) && OpsAllowed(r) && t !in r.q.toReceive && t !in r.q.toSend
    ensures Inv(WithPhase(WithQueue(r, Peeked(r.q)), t, Idle))
  {
    NoneTaken(r.q.toSend);
    OneWokenCovers(r.q.toReceive, r.wokenToReceive, 0, r.q.waiting - 1, r.q.waiting);
    LeaveKeepsInv(r, t, Peek, Peeked(r.q), Heads(r.q.toReceive, 1), 0);
  }

  lemma SendSucceeds(r: System, t: Task, overwrite: bool)
    requires var op := if overwrite then Overwrite else Send; RetriedInv(r, t, op)
    requires OpsAllowed(r) && t !in r.q.toReceive && t !in r.q.toSend
    requires HasRoom(r.q, overwrite) && (overwrite ==> r.q.length == 1)
    ensures Inv(WithPhase(WithQueue(r, Sent(r.q, overwrite)), t, Idle))
  {
    NoneTaken(r.q.toSend);
    OneWokenCovers(r.q.toReceive, r.wokenToReceive, 0, r.q.waiting, OneMore(r.q, overwrite));
    LeaveKeepsInv(r, t, if overwrite then Overwrite else Send, Sent(r.q, overwrite), Heads(r.q.toReceive, 1), 0);
  }

  lemma AttemptKeepsInv(s: System, t: Task, patient: bool)
    requires Inv(s) && Enabled(s, Attempt(t, patient))
    ensures Inv(Step(s, Attempt(t, patient)))
  {
    var op, r := PhaseOf(s, t).op, Retried(s, t);
    RetriedHolds(s, t);
    if CanProceed(s.q, op) {
      match op {
        case Receive => ReceiveSucceeds(r, t);
        case Peek => PeekSucceeds(r, t);
        case Send => SendSucceeds(r, t, false);
        case Overwrite => SendSucceeds(r, t, true);
      }
    } else {
      RefusedKeepsInv(r, t, op, if patient then Refused(op) else Idle);
    }
  }

  lemma RefusedKeepsInv(r: System, t: Task, op: Op, p: Phase)
    requires RetriedInv(r, t, op) && OpsAllowed(r) && !CanProceed(r.q, op) && (p == Refused(op) || p == Idle)
    requires t !in r.q.toReceive && t !in r.q.toSend
    requires Covered(r.q.toReceive, r.wokenToReceive, 0, r.q.waiting)
    requires Covered(r.q.toSend, r.wokenToSend, 0, r.q.length - r.q.waiting)
    ensures Inv(WithPhase(r, t, p))
  {
    StrangerKeepsMembers(r, t, p);
    QuietPhase(r, t, p);
  }

  /** A step that only moves a task between quiet phases. */
  lemma QuietKeepsInv(s: System, t: Task, p: Phase)
    requires Inv(s) && s.scheduler.Running? && !Holds(p) && !MayBeListed(p)
    requires !p.Idle? && p.op.Overwrite? ==> s.q.length == 1
    requires !MayBeListed(PhaseOf(s, t)) && !PhaseOf(s, t).Trying?
    ensures Inv(WithPhase(s, t, p))
  {
    StrangerKeepsMembers(s, t, p);
    QuietPhase(s, t, p);
  }

  lemma WakeKeepsInv(s: System, t: Task)
    requires Inv(s) && Enabled(s, Wake(t))
    ensures Inv(Step(s, Wake(t)))
  {
    var p := Trying(PhaseOf(s, t).op);
    var n := WithPhase(s, t, p);
    QuietPhase(s, t, p);
    assert forall u :: PhaseOf(n, u) == if u == t then p else PhaseOf(s, u);
  }

  lemma {:induction false} WithoutDistinct(list: seq<Task>, t: Task)
    requires Distinct(list)
    ensures Distinct(Without(list, t))
  {
    if list != [] {
      WithoutDistinct(list[1..], t);
      assert forall j :: 0 < j < |list| ==> list[j] != list[0];
      assert list[0] !in Without(list[1..], t);
    }
  }

  lemma TimeOutKeepsInv(s: System, t: Task)
    requires Inv(s) && Enabled(s, TimeOut(t))
    ensures Inv(Step(s, TimeOut(t)))
  {
    hide Members, Covered, OpsAllowed, LocksMatch, PlacingSafe;
    var n := Step(s, TimeOut(t));
    TimeOutKeepsList(s, t, s.q.toReceive, s.wokenToReceive, true, s.q.txLock, s.q.waiting);
    TimeOutKeepsList(s, t, s.q.toSend, s.wokenToSend, false, s.q.rxLock, s.q.length - s.q.waiting);
    SamePhases(s, n);
  }

  lemma TimeOutKeepsList(
    s: System, t: Task, list: seq<Task>, woken: set<Task>, receivers: bool, lock: int, stock: int)
    requires Members(s, list, woken, receivers) && Covered(list, woken, lock, stock)
    requires t in s.q.toReceive || t in s.q.toSend
    ensures Members(Step(s, TimeOut(t)), Without(list, t), woken, receivers)
    ensures Covered(Without(list, t), woken, lock, stock)
  {
    WithoutDistinct(list, t);
    assert forall u :: PhaseOf(Step(s, TimeOut(t)), u) == PhaseOf(s, u);
    assert Without(list, t) != [] ==> Without(list, t)[0] in list;
  }

  /** Nobody has moved, and neither the counters nor the scheduler have. */
  lemma SamePhases(s: System, n: System)
    requires OpsAllowed(s) && LocksMatch(s) && PlacingSafe(s)
    requires n.phase == s.phase && n.scheduler == s.scheduler && n.q.waiting == s.q.waiting
    requires n.q.length == s.q.length && n.q.txLock == s.q.txLock && n.q.rxLock == s.q.rxLock
    ensures OpsAllowed(n) && LocksMatch(n) && PlacingSafe(n)
  {
    assert forall u :: PhaseOf(n, u) == PhaseOf(s, u);
  }

  lemma SuspendKeepsInv(s: System, t: Task)
    requires Inv(s) && Enabled(s, Suspend(t))
    ensures Inv(Step(s, Suspend(t)))
  {
    var p := Holding(PhaseOf(s, t).op);
    var n := Step(s, Suspend(t));
    StrangerKeepsMembers(s, t, p);
    assert forall u :: PhaseOf(n, u) == if u == t then p else PhaseOf(s, u);
  }

  lemma RecheckKeepsInv(s: System, t: Task, expired: bool)
    requires Inv(s) && Enabled(s, Recheck(t, expired))
    ensures Inv(Step(s, Recheck(t, expired)))
  {
    var n := Step(s, Recheck(t, expired));
    var p := PhaseOf(n, t);
    StrangerKeepsMembers(s, t, p);
    assert forall u :: PhaseOf(n, u) == if u == t then p else PhaseOf(s, u);
  }

  lemma InsertDistinct(list: seq<Task>, at: nat, t: Task)
    requires Distinct(list) && at <= |list| && t !in list
    ensures var n := list[..at] + [t] + list[at..];
            Distinct(n) && n != [] && forall x :: x in n <==> x == t || x in list
  {
    var n := list[..at] + [t] + list[at..];
    assert forall i :: 0 <= i < |n| ==> n[i] == if i < at then list[i] else if i == at then t else list[i - 1];
    assert n[at] == t;
    forall x | x in list
      ensures x in n
    {
      var j :| 0 <= j < |list| && list[j] == x;
      assert n[if j < at then j else j + 1] == x;
    }
  }

  lemma PlaceKeepsInv(s: System, t: Task, at: nat)
    requires Inv(s) && Enabled(s, Place(t, at))
    ensures Inv(Step(s, Place(t, at)))
  {
    hide Members, OpsAllowed, LocksMatch, PlacingSafe;
    PlaceKeepsMembers(s, t, at);
    PlaceKeepsRest(s, t, at);
    PlaceCovers(s, t, at);
  }

  lemma PlaceKeepsMembers(s: System, t: Task, at: nat)
    requires Members(s, s.q.toReceive, s.wokenToReceive, true) && Members(s, s.q.toSend, s.wokenToSend, false)
    requires Enabled(s, Place(t, at))
    ensures var n := Step(s, Place(t, at));
            && Members(n, n.q.toReceive, n.wokenToReceive, true) && Members(n, n.q.toSend, n.wokenToSend, false)
  {
    var op := PhaseOf(s, t).op;
    var n, p := Step(s, Place(t, at)), UnlockingTx(op, Sleep);
    assert forall u :: PhaseOf(n, u) == if u == t then p else PhaseOf(s, u);
    assert t !in s.q.toReceive && t !in s.q.toSend && t !in s.wokenToReceive && t !in s.wokenToSend;
    InsertDistinct(if Receives(op) then s.q.toReceive else s.q.toSend, at, t);
  }

  lemma PlaceKeepsRest(s: System, t: Task, at: nat)
    requires OpsAllowed(s) && LocksMatch(s) && PlacingSafe(s) && Enabled(s, Place(t, at))
    ensures var n := Step(s, Place(t, at));
            OpsAllowed(n) && LocksMatch(n) && PlacingSafe(n)
  {
    var n, p := Step(s, Place(t, at)), UnlockingTx(PhaseOf(s, t).op, Sleep);
    assert forall u :: PhaseOf(n, u) == if u == t then p else PhaseOf(s, u);
  }

  lemma PlaceCovers(s: System, t: Task, at: nat)
    requires LocksMatch(s) && PlacingSafe(s) && Enabled(s, Place(t, at))
    requires Covered(s.q.toReceive, s.wokenToReceive, s.q.txLock, s.q.waiting)
    requires Covered(s.q.toSend, s.wokenToSend, s.q.rxLock, s.q.length - s.q.waiting)
    ensures var n := Step(s, Place(t, at));
            && Covered(n.q.toReceive, n.wokenToReceive, n.q.txLock, n.q.waiting)
            && Covered(n.q.toSend, n.wokenToSend, n.q.rxLock, n.q.length - n.q.waiting)
  {
  }

  /** A task that holds the queue moves on without leaving the phases it may be listed in. */
  lemma HolderKeepsMembers(s: System, t: Task, p: Phase)
    requires Members(s, s.q.toReceive, s.wokenToReceive, true) && Members(s, s.q.toSend, s.wokenToSend, false)
    requires Holds(PhaseOf(s, t)) && !p.Idle? && p.op == PhaseOf(s, t).op
    requires MayBeListed(PhaseOf(s, t)) ==> MayBeListed(p)
    ensures var n := WithPhase(s, t, p);
            && Members(n, n.q.toReceive, n.wokenToReceive, true) && Members(n, n.q.toSend, n.wokenToSend, false)
  {
    var n := WithPhase(s, t, p);
    assert forall u :: PhaseOf(n, u) == if u == t then p else PhaseOf(s, u);
  }

  lemma UnlockTxKeepsInv(s: System, t: Task)
    requires Inv(s) && Enabled(s, UnlockTx(t))
    ensures Inv(Step(s, UnlockTx(t)))
  {
    var q, p := TxUnlocked(s.q), UnlockingRx(PhaseOf(s, t).op, PhaseOf(s, t).next);
    var m := WithQueue(s, q);
    NoneTaken(s.q.toSend);
    UnlockCovers(s.q.toReceive, s.wokenToReceive, s.q.txLock, s.q.waiting);
    WithQueueKeepsMembers(s, q, Heads(s.q.toReceive, s.q.txLock), 0);
    assert PhaseOf(m, t) == PhaseOf(s, t);
    HolderKeepsMembers(m, t, p);
    HolderMovesOn(s, WithPhase(m, t, p), t, p);
  }

  /** The rest of the invariant once the holder is at its second unlocking section or done. */
  lemma HolderMovesOn(s: System, n: System, t: Task, p: Phase)
    requires OpsAllowed(s) && LocksMatch(s) && Holds(PhaseOf(s, t))
    requires !p.Idle? ==> p.op == PhaseOf(s, t).op
    requires n.phase == s.phase[t := p] && n.q.length == s.q.length && n.q.txLock == UNLOCKED
    requires if p.UnlockingRx? then n.scheduler == s.scheduler && n.q.rxLock == s.q.rxLock
             else !Holds(p) && n.scheduler.Running? && n.q.rxLock == UNLOCKED
    ensures OpsAllowed(n) && LocksMatch(n) && PlacingSafe(n)
  {
    assert forall u :: PhaseOf(n, u) == if u == t then p else PhaseOf(s, u);
  }

  lemma UnlockedKeepsMembers(m: System, t: Task, p: Phase)
    requires Members(m, m.q.toReceive, m.wokenToReceive, true) && Members(m, m.q.toSend, m.wokenToSend, false)
    requires PhaseOf(m, t).UnlockingRx? && p == AfterUnlock(PhaseOf(m, t).op, PhaseOf(m, t).next)
    requires p.Idle? ==> t !in m.q.toReceive && t !in m.q.toSend && t !in m.wokenToReceive && t !in m.wokenToSend
    ensures var n := WithPhase(m, t, p).(scheduler := Running);
            && Members(n, n.q.toReceive, n.wokenToReceive, true) && Members(n, n.q.toSend, n.wokenToSend, false)
  {
    if p.Idle? {
      StrangerKeepsMembers(m, t, p);
    } else {
      HolderKeepsMembers(m, t, p);
    }
    SameMembers(WithPhase(m, t, p), WithPhase(m, t, p).(scheduler := Running));
  }

  /** A task in no listed phase is on no list, and among no woken. */
  lemma Unlisted(m: System, t: Task)
    requires Members(m, m.q.toReceive, m.wokenToReceive, true) && Members(m, m.q.toSend, m.wokenToSend, false)
    requires PhaseOf(m, t).UnlockingRx? && PhaseOf(m, t).next.GiveUp?
    ensures t !in m.q.toReceive && t !in m.q.toSend && t !in m.wokenToReceive && t !in m.wokenToSend
  {
  }

  lemma UnlockRxKeepsMembers(s: System, t: Task)
    requires Inv(s) && Enabled(s, UnlockRx(t))
    ensures var n := Step(s, UnlockRx(t));
            && Members(n, n.q.toReceive, n.wokenToReceive, true) && Members(n, n.q.toSend, n.wokenToSend, false)
  {
    var m, p := WithQueue(s, RxUnlocked(s.q)), AfterUnlock(PhaseOf(s, t).op, PhaseOf(s, t).next);
    NoneTaken(s.q.toReceive);
    WithQueueKeepsMembers(s, RxUnlocked(s.q), 0, Heads(s.q.toSend, s.q.rxLock));
    assert PhaseOf(m, t) == PhaseOf(s, t);
    if p.Idle? {
      Unlisted(m, t);
    }
    UnlockedKeepsMembers(m, t, p);
    assert Step(s, UnlockRx(t)) == WithPhase(m, t, p).(scheduler := Running);
  }

  lemma UnlockRxKeepsInv(s: System, t: Task)
    requires Inv(s) && Enabled(s, UnlockRx(t))
    ensures Inv(Step(s, UnlockRx(t)))
  {
    hide Members, Covered;
    var n := Step(s, UnlockRx(t));
    var p := PhaseOf(n, t);
    assert n == WithPhase(WithQueue(s, RxUnlocked(s.q)), t, p).(scheduler := Running);
    UnlockRxKeepsMembers(s, t);
    HolderMovesOn(s, n, t, p);
    UnlockRxCovers(s, n);
  }

  lemma UnlockRxCovers(s: System, n: System)
    requires Members(s, s.q.toReceive, s.wokenToReceive, true) && Members(s, s.q.toSend, s.wokenToSend, false)
    requires Covered(s.q.toReceive, s.wokenToReceive, s.q.txLock, s.q.waiting)
    requires Covered(s.q.toSend, s.wokenToSend, s.q.rxLock, s.q.length - s.q.waiting)
    requires n.q == RxUnlocked(s.q) && n.wokenToReceive == s.wokenToReceive + Taken(s.q.toReceive, n.q.toReceive)
    requires n.wokenToSend == s.wokenToSend + Taken(s.q.toSend, n.q.toSend)
    ensures Covered(n.q.toReceive, n.wokenToReceive, n.q.txLock, n.q.waiting)
    ensures Covered(n.q.toSend, n.wokenToSend, UNLOCKED, n.q.length - n.q.waiting)
  {
    NoneTaken(s.q.toReceive);
    UnlockCovers(s.q.toSend, s.wokenToSend, s.q.rxLock, s.q.length - s.q.waiting);
  }

  lemma SameMembers(m: System, n: System)
    requires n == m.(scheduler := Running)
    ensures Members(m, m.q.toReceive, m.wokenToReceive, true) ==> Members(n, n.q.toReceive, n.wokenToReceive, true)
    ensures Members(m, m.q.toSend, m.wokenToSend, false) ==> Members(n, n.q.toSend, n.wokenToSend, false)
  {
    assert forall u :: PhaseOf(n, u) == PhaseOf(m, u);
  }

  /** Up to 127 operations by interrupts in one lock, every step keeps the invariant. */
  lemma StepKeepsInv(s: System, a: Action, limit: nat)
    requires limit <= INT8_MAX && Inv(s) && Enabled(s, a) && WithinLimit(s, a, limit)
    ensures Inv(Step(s, a))
  {
    match a
    case Call(t, op) => QuietKeepsInv(s, t, Trying(op));
    case Attempt(t, patient) => AttemptKeepsInv(s, t, patient);
    case Suspend(t) => SuspendKeepsInv(s, t);
    case Recheck(t, expired) => RecheckKeepsInv(s, t, expired);
    case Place(t, at) => PlaceKeepsInv(s, t, at);
    case UnlockTx(t) => UnlockTxKeepsInv(s, t);
    case UnlockRx(t) => UnlockRxKeepsInv(s, t);
    case LastLook(t) => QuietKeepsInv(s, t, PhaseOf(Step(s, a), t));
    case Wake(t) => WakeKeepsInv(s, t);
    case TimeOut(t) => TimeOutKeepsInv(s, t);
    case IsrSend(overwrite) => IsrSendKeepsInv(s, overwrite);
    case IsrReceive => IsrReceiveKeepsInv(s);
  }

  // ------------------------------------------------------------------
  // Whole runs
  // ------------------------------------------------------------------

  /** xQueueGenericReset on a new queue, or a counting semaphore created with `waiting` items */
  function Created(length: nat, waiting: nat): System
    requires 0 < length && waiting <= length
  {
    System(Queue(waiting, length, UNLOCKED, UNLOCKED, [], []), map[], Running, {}, {})
  }

  /** A run in which interrupts keep to `limit` */
  ghost predicate Possible(s: System, actions: seq<Action>, limit: nat)
    decreases actions
  {
    actions == [] ||
    (Enabled(s, actions[0]) && WithinLimit(s, actions[0], limit) && Possible(Step(s, actions[0]), actions[1..], limit))
  }

  ghost function After(s: System, actions: seq<Action>, limit: nat): System
    requires Possible(s, actions, limit)
    decreases actions
  {
    if actions == [] then s else After(Step(s, actions[0]), actions[1..], limit)
  }

  lemma {:induction false} RunKeepsInv(s: System, actions: seq<Action>, limit: nat)
    requires limit <= INT8_MAX && Inv(s) && Possible(s, actions, limit)
    ensures Inv(After(s, actions, limit))
    decreases actions
  {
    if actions != [] {
      StepKeepsInv(s, actions[0], limit);
      RunKeepsInv(Step(s, actions[0]), actions[1..], limit);
    }
  }

  /** Sleeping receivers mean that the items are all spoken for by woken tasks and counted sends. */
  ghost predicate ReceiversAttended(s: System) {
    s.q.toReceive != [] ==> s.q.waiting <= |s.wokenToReceive| + Positive(s.q.txLock)
  }

  /** Sleeping senders mean the same of the free places. */
  ghost predicate SendersAttended(s: System) {
    s.q.toSend != [] ==> s.q.length - s.q.waiting <= |s.wokenToSend| + Positive(s.q.rxLock)
  }

  /** No lost wake-up, however tasks and interrupts interleave. */
  lemma NoLostWakeUp(length: nat, waiting: nat, actions: seq<Action>, limit: nat)
    requires 0 < length && waiting <= length && limit <= INT8_MAX
    requires Possible(Created(length, waiting), actions, limit)
    ensures var s := After(Created(length, waiting), actions, limit);
            ReceiversAttended(s) && SendersAttended(s)
  {
    RunKeepsInv(Created(length, waiting), actions, limit);
  }

  /** The scheduler runs, and nobody woken is still to retry. */
  ghost predicate AtRest(s: System) {
    s.scheduler.Running? && s.wokenToReceive == {} && s.wokenToSend == {}
  }

  /** At rest nobody sleeps on a queue with something for them, so not both kinds at once. */
  lemma AtRestNobodySleepsInVain(length: nat, waiting: nat, actions: seq<Action>, limit: nat)
    requires 0 < length && waiting <= length && limit <= INT8_MAX
    requires Possible(Created(length, waiting), actions, limit)
    requires AtRest(After(Created(length, waiting), actions, limit))
    ensures var s := After(Created(length, waiting), actions, limit);
            && (s.q.toReceive != [] ==> s.q.waiting == 0)
            && (s.q.toSend != [] ==> s.q.waiting == s.q.length)
            && (s.q.toReceive == [] || s.q.toSend == [])
  {
    RunKeepsInv(Created(length, waiting), actions, limit);
  }

  // ------------------------------------------------------------------
  // What the calls do
  // ------------------------------------------------------------------

  /** A list without its first task, if it has one */
  ghost predicate HeadGone(before: seq<Task>, after: seq<Task>) {
    if before == [] then after == [] else after == before[1..]
  }

  /** A peek takes no item and wakes no sender; it wakes one receiver for the item it leaves. */
  lemma PeekTakesNothing(s: System, t: Task, patient: bool)
    requires Enabled(s, Attempt(t, patient)) && PhaseOf(s, t).op.Peek?
    ensures var n := Step(s, Attempt(t, patient));
            && n.q.waiting == s.q.waiting && n.q.length == s.q.length
            && n.q.rxLock == s.q.rxLock && n.q.txLock == s.q.txLock && n.q.toSend == s.q.toSend
            && (s.q.waiting > 0 ==> HeadGone(s.q.toReceive, n.q.toReceive) && PhaseOf(n, t).Idle?)
            && (s.q.waiting == 0 ==>
                  n.q == s.q && PhaseOf(n, t) == if patient then Refused(PhaseOf(s, t).op) else Idle)
  {
  }

  /** A receive takes one item and wakes one sender. */
  lemma ReceiveTakesOne(s: System, t: Task, patient: bool)
    requires Enabled(s, Attempt(t, patient)) && PhaseOf(s, t).op.Receive?
    ensures var n := Step(s, Attempt(t, patient));
            && n.q.length == s.q.length && n.q.rxLock == s.q.rxLock && n.q.txLock == s.q.txLock
            && n.q.toReceive == s.q.toReceive
            && (s.q.waiting > 0 ==>
                  n.q.waiting == s.q.waiting - 1 && HeadGone(s.q.toSend, n.q.toSend) && PhaseOf(n, t).Idle?)
            && (s.q.waiting == 0 ==>
                  n.q == s.q && PhaseOf(n, t) == if patient then Refused(PhaseOf(s, t).op) else Idle)
  {
  }

  /** A send adds one item, or replaces the one there when overwriting, and wakes one receiver. */
  lemma SendAddsOne(s: System, t: Task, patient: bool)
    requires Enabled(s, Attempt(t, patient)) && !Receives(PhaseOf(s, t).op)
    ensures var n, overwrite := Step(s, Attempt(t, patient)), PhaseOf(s, t).op.Overwrite?;
            && n.q.length == s.q.length && n.q.rxLock == s.q.rxLock && n.q.txLock == s.q.txLock
            && n.q.toSend == s.q.toSend
            && (s.q.waiting < s.q.length || overwrite ==>
                  && n.q.waiting == (if overwrite && s.q.waiting > 0 then s.q.waiting else s.q.waiting + 1)
                  && HeadGone(s.q.toReceive, n.q.toReceive) && PhaseOf(n, t).Idle?)
            && (s.q.waiting >= s.q.length && !overwrite ==>
                  n.q == s.q && PhaseOf(n, t) == if patient then Refused(PhaseOf(s, t).op) else Idle)
  {
  }

  /** The tick takes its task off its list and leaves everybody else where they are. */
  lemma TimeOutTakesOne(s: System, t: Task)
    requires Enabled(s, TimeOut(t))
    ensures var n := Step(s, TimeOut(t));
            && (forall u :: u in n.q.toReceive <==> u in s.q.toReceive && u != t)
            && (forall u :: u in n.q.toSend <==> u in s.q.toSend && u != t)
            && n == s.(q := s.q.(toReceive := n.q.toReceive, toSend := n.q.toSend))
  {
  }

  /** How many items a call's critical section puts in, or takes out */
  function CallGain(q: Queue, op: Op): int {
    match op
    case Receive => if q.waiting > 0 then -1 else 0
    case Peek => 0
    case Send => if q.waiting < q.length then 1 else 0
    case Overwrite => if q.waiting == 0 then 1 else 0
  }

  /** And an action */
  function Gain(s: System, a: Action): int {
    match a
    case Attempt(t, _) => if PhaseOf(s, t).Idle? then 0 else CallGain(s.q, PhaseOf(s, t).op)
    case IsrSend(overwrite) => if overwrite && s.q.waiting > 0 then 0 else 1
    case IsrReceive => -1
    case _ => 0
  }

  ghost function Gains(s: System, actions: seq<Action>, limit: nat): int
    requires Possible(s, actions, limit)
    decreases actions
  {
    if actions == [] then 0 else Gain(s, actions[0]) + Gains(Step(s, actions[0]), actions[1..], limit)
  }

  lemma StepGains(s: System, a: Action)
    requires Enabled(s, a)
    ensures Step(s, a).q.waiting == s.q.waiting + Gain(s, a) && Step(s, a).q.length == s.q.length
  {
    match a
    case Attempt(t, patient) =>
      if PhaseOf(s, t).op.Receive? {
        ReceiveTakesOne(s, t, patient);
      } else if PhaseOf(s, t).op.Peek? {
        PeekTakesNothing(s, t, patient);
      } else {
        SendAddsOne(s, t, patient);
      }
    case _ =>
  }

  /** In every run the items are those there at first, and those put in less those taken out. */
  lemma {:induction false} ItemsAddUp(s: System, actions: seq<Action>, limit: nat)
    requires Possible(s, actions, limit)
    ensures After(s, actions, limit).q.waiting == s.q.waiting + Gains(s, actions, limit)
    decreases actions
  {
    if actions != [] {
      StepGains(s, actions[0]);
      ItemsAddUp(Step(s, actions[0]), actions[1..], limit);
    }
  }

  /** In the middle of a call of kind `op`, its time not up */
  predicate Underway(p: Phase, op: Op) {
    && !p.Idle? && p.op == op && !p.Expired?
    && (p.UnlockingTx? || p.UnlockingRx? ==> !p.next.GiveUp?)
  }

  /** The call has time to wait, and the time does not run out. */
  predicate HasTime(a: Action, t: Task) {
    a != Recheck(t, true) && a != Attempt(t, false)
  }

  ghost predicate Achieves(s: System, a: Action, t: Task, op: Op) {
    a.Attempt? && a.t == t && CanProceed(s.q, op)
  }

  /** A call with time left ends in nothing but success. */
  lemma CallGoesOn(s: System, a: Action, t: Task, op: Op)
    requires Enabled(s, a) && HasTime(a, t) && Underway(PhaseOf(s, t), op)
    ensures Achieves(s, a, t, op) || Underway(PhaseOf(Step(s, a), t), op)
  {
  }

  /** Somewhere in the run the call succeeds. */
  ghost predicate Served(s: System, actions: seq<Action>, limit: nat, t: Task, op: Op)
    requires Possible(s, actions, limit)
    decreases actions
  {
    && actions != []
    && (Achieves(s, actions[0], t, op) || Served(Step(s, actions[0]), actions[1..], limit, t, op))
  }

  /** In every run, a call that has time is still under way or has found an item, or room. */
  lemma {:induction false} PatientCallSucceeds(s: System, actions: seq<Action>, limit: nat, t: Task, op: Op)
    requires Possible(s, actions, limit) && Underway(PhaseOf(s, t), op)
    requires forall i :: 0 <= i < |actions| ==> HasTime(actions[i], t)
    ensures Underway(PhaseOf(After(s, actions, limit), t), op) || Served(s, actions, limit, t, op)
    decreases actions
  {
    if actions != [] {
      CallGoesOn(s, actions[0], t, op);
      if !Achieves(s, actions[0], t, op) {
        PatientCallSucceeds(Step(s, actions[0]), actions[1..], limit, t, op);
      }
    }
  }

  /** The unlock and the resumption of the scheduler, by the task that holds the queue */
  function Resumed(s: System, t: Task): System
    requires PhaseOf(s, t).UnlockingTx?
  {
    var m := Step(s, UnlockTx(t));
    assert PhaseOf(m, t) == UnlockingRx(PhaseOf(s, t).op, PhaseOf(s, t).next);
    Step(m, UnlockRx(t))
  }

  /** With the queue locked the call looks again, and tries again if it can go on now. */
  lemma RetriesIfItCan(s: System, t: Task)
    requires PhaseOf(s, t).Holding? && !Blocked(s.q, PhaseOf(s, t).op)
    ensures var n := Step(s, Recheck(t, false));
            n.q == s.q && PhaseOf(n, t).UnlockingTx? && PhaseOf(Resumed(n, t), t) == Trying(PhaseOf(s, t).op)
  {
  }

  /** If it cannot it joins its list and sleeps. */
  lemma SleepsIfItCannot(s: System, t: Task, at: nat)
    requires PhaseOf(s, t).Holding? && Blocked(s.q, PhaseOf(s, t).op)
    requires at <= |if Receives(PhaseOf(s, t).op) then s.q.toReceive else s.q.toSend|
    ensures var op, n := PhaseOf(s, t).op, Step(s, Recheck(t, false));
            && Enabled(n, Place(t, at))
            && var m := Step(n, Place(t, at));
               && (if Receives(op) then t in m.q.toReceive else t in m.q.toSend)
               && PhaseOf(m, t) == UnlockingTx(op, Sleep)
  {
    var n := Step(s, Recheck(t, false));
    assert PhaseOf(n, t) == Placing(PhaseOf(s, t).op) && n.q == s.q;
    var m := Step(n, Place(t, at));
    assert (if Receives(PhaseOf(s, t).op) then m.q.toReceive else m.q.toSend)[at] == t;
  }

  lemma SleepsAfterPlacing(s: System, t: Task)
    requires PhaseOf(s, t).UnlockingTx? && PhaseOf(s, t).next.Sleep?
    ensures PhaseOf(Resumed(s, t), t) == Asleep(PhaseOf(s, t).op)
  {
  }

  /** It gives up only when its time is up; a receiver then has a last look. */
  lemma GivesUpInTheEnd(s: System, t: Task)
    requires PhaseOf(s, t).Holding?
    ensures var op, n := PhaseOf(s, t).op, Step(s, Recheck(t, true));
            && n.q == s.q && PhaseOf(n, t).UnlockingTx?
            && PhaseOf(Resumed(n, t), t) == if Receives(op) then Expired(op) else Idle
  {
  }

  lemma LooksLast(s: System, t: Task)
    requires Enabled(s, LastLook(t))
    ensures PhaseOf(Step(s, LastLook(t)), t) == if s.q.waiting > 0 then Trying(PhaseOf(s, t).op) else Idle
    ensures Step(s, LastLook(t)).q == s.q
  {
  }

  // ------------------------------------------------------------------
  // One lock, and any operations by interrupts meanwhile
  // ------------------------------------------------------------------

  datatype Use = PutIn(overwrite: bool) | TakeOut

  /** Whether the code's own test lets the operation through */
  predicate Succeeds(q: Queue, u: Use) {
    match u
    case PutIn(overwrite) => HasRoom(q, overwrite)
    case TakeOut => q.waiting > 0
  }

  function Used(q: Queue, u: Use): Queue {
    if !Succeeds(q, u) then q
    else
      match u
      case PutIn(overwrite) => SentFromIsr(q, overwrite)
      case TakeOut => ReceivedFromIsr(q)
  }

  function UsedBy(q: Queue, us: seq<Use>): Queue
    decreases |us|
  {
    if us == [] then q else Used(UsedBy(q, us[..|us| - 1]), us[|us| - 1])
  }

  /** The sends among them that had room */
  function Puts(q: Queue, us: seq<Use>): nat
    decreases |us|
  {
    if us == [] then 0
    else
      var front, u := us[..|us| - 1], us[|us| - 1];
      Puts(q, front) + if u.PutIn? && Succeeds(UsedBy(q, front), u) then 1 else 0
  }

  /** The receives among them that had an item */
  function Takes(q: Queue, us: seq<Use>): nat
    decreases |us|
  {
    if us == [] then 0
    else
      var front, u := us[..|us| - 1], us[|us| - 1];
      Takes(q, front) + if u.TakeOut? && Succeeds(UsedBy(q, front), u) then 1 else 0
  }

  /** How many of `k` operations find the queue unlocked and wake a task themselves. */
  function Direct(k: nat): (n: nat)
    ensures n == k - Counted(k)
  {
    if k < 255 then 0 else k - 255
  }

  /** The send count and the sleeping receivers depend on nothing but the number of sends. */
  lemma {:induction false} CountAfterIsrs(q: Queue, us: seq<Use>)
    requires q.txLock == 0
    ensures var n, k := UsedBy(q, us), Puts(q, us);
            && n.txLock == CountAfter(k) && n.toReceive == q.toReceive[Heads(q.toReceive, Direct(k))..]
            && n.length == q.length && n.waiting <= q.waiting + k
    decreases |us|
  {
    if us != [] {
      hide CountAfter, Heads, Direct, Used;
      var front := us[..|us| - 1];
      CountAfterIsrs(q, front);
      PutCounts(UsedBy(q, front), us[|us| - 1], q.toReceive, Puts(q, front));
    } else {
      assert q.toReceive[0..] == q.toReceive;
    }
  }

  /** The receive count and the sleeping senders depend on nothing but the number of receives. */
  lemma {:induction false} CountAfterIsrReceives(q: Queue, us: seq<Use>)
    requires q.rxLock == 0
    ensures var n, k := UsedBy(q, us), Takes(q, us);
            && n.rxLock == CountAfter(k) && n.toSend == q.toSend[Heads(q.toSend, Direct(k))..]
            && n.length == q.length && q.waiting <= n.waiting + k
    decreases |us|
  {
    if us != [] {
      hide CountAfter, Heads, Direct, Used;
      var front := us[..|us| - 1];
      CountAfterIsrReceives(q, front);
      TakeCounts(UsedBy(q, front), us[|us| - 1], q.toSend, Takes(q, front));
    } else {
      assert q.toSend[0..] == q.toSend;
    }
  }

  /** One more operation after `k` sends, `list` having slept at first */
  lemma PutCounts(q: Queue, u: Use, list: seq<Task>, k: nat)
    requires q.txLock == CountAfter(k) && q.toReceive == list[Heads(list, Direct(k))..]
    ensures var n, more := Used(q, u), k + if u.PutIn? && Succeeds(q, u) then 1 else 0;
            && n.txLock == CountAfter(more) && n.toReceive == list[Heads(list, Direct(more))..]
            && n.length == q.length && n.waiting <= q.waiting + more - k
  {
    hide CountAfter, Heads, Direct;
    CountOneMore(k);
    DirectOneMore(k);
    OneHeadMore(list, Direct(k));
  }

  lemma TakeCounts(q: Queue, u: Use, list: seq<Task>, k: nat)
    requires q.rxLock == CountAfter(k) && q.toSend == list[Heads(list, Direct(k))..]
    ensures var n, more := Used(q, u), k + if u.TakeOut? && Succeeds(q, u) then 1 else 0;
            && n.rxLock == CountAfter(more) && n.toSend == list[Heads(list, Direct(more))..]
            && n.length == q.length && q.waiting <= n.waiting + more - k
  {
    hide CountAfter, Heads, Direct;
    CountOneMore(k);
    DirectOneMore(k);
    OneHeadMore(list, Direct(k));
  }

  lemma DirectOneMore(k: nat)
    ensures Direct(k + 1) == Direct(k) + if CountAfter(k) == UNLOCKED then 1 else 0
  {
  }

  /** Waking one after `n` is waking `n + 1`. */
  lemma OneHeadMore(list: seq<Task>, n: nat)
    ensures var rest := list[Heads(list, n)..];
            rest[Heads(rest, 1)..] == list[Heads(list, n + 1)..]
  {
  }

  /** How many of `n` sleepers `k` operations by interrupts wake, themselves or through the unlock after them */
  function Woken(k: nat, n: nat): (w: nat)
    ensures w <= n && w <= k
  {
    if k <= INT8_MAX then Least(k, n) else Least(Direct(k), n)
  }

  lemma CountWakes(list: seq<Task>, k: nat)
    ensures var rest := list[Heads(list, Direct(k))..];
            rest[Heads(rest, CountAfter(k))..] == list[Woken(k, |list|)..]
  {
  }

  /** Exactly how many receivers wake: one for each send up to 127, none up to 255, then one for each past that. */
  lemma SendsWake(q: Queue, us: seq<Use>)
    requires q.txLock == 0
    ensures TxUnlocked(UsedBy(q, us)).toReceive == q.toReceive[Woken(Puts(q, us), |q.toReceive|)..]
  {
    CountAfterIsrs(q, us);
    CountWakes(q.toReceive, Puts(q, us));
  }

  lemma ReceivesWake(q: Queue, us: seq<Use>)
    requires q.rxLock == 0
    ensures RxUnlocked(UsedBy(q, us)).toSend == q.toSend[Woken(Takes(q, us), |q.toSend|)..]
  {
    CountAfterIsrReceives(q, us);
    CountWakes(q.toSend, Takes(q, us));
  }

  /** Sleepers are left on a list although there is more for them than those awake can claim. */
  ghost predicate LeftAsleep(list: seq<Task>, stock: int, awake: int) {
    list != [] && stock > awake
  }

  lemma LostIff(list: seq<Task>, k: nat, stock: int, awake: nat, left: int)
    requires (list != [] ==> stock <= awake) && left <= stock + k
    ensures LeftAsleep(list[Woken(k, |list|)..], left, awake + Woken(k, |list|)) <==>
              k > INT8_MAX && Direct(k) < |list| && left > awake + Direct(k)
  {
  }

  /**
   Exactly when a lock leaves receivers asleep beside unclaimed items, whatever
   interrupts send, overwrite and receive during it and `awake` tasks having
   been on their way to the items there before: more than 127 sends, more
   sleepers than sends past the 255th, and at the end more items than those
   sends and the tasks on their way account for. Never up to 127.
   */
  lemma ReceiversLostIff(q: Queue, us: seq<Use>, awake: nat)
    requires q.txLock == 0 && (q.toReceive != [] ==> q.waiting <= awake)
    ensures var n, k := TxUnlocked(UsedBy(q, us)), Puts(q, us);
            LeftAsleep(n.toReceive, n.waiting, awake + Woken(k, |q.toReceive|)) <==>
              k > INT8_MAX && Direct(k) < |q.toReceive| && UsedBy(q, us).waiting > awake + Direct(k)
  {
    hide CountAfter, UsedBy, Puts, Woken, Direct;
    CountAfterIsrs(q, us);
    SendsWake(q, us);
    LostIff(q.toReceive, Puts(q, us), q.waiting, awake, UsedBy(q, us).waiting);
  }

  /** What a receive by an interrupt, and the second section of the unlock, look at */
  ghost predicate SameReceiveSide(p: Queue, q: Queue) {
    p.waiting == q.waiting && p.length == q.length && p.rxLock == q.rxLock && p.toSend == q.toSend
  }

  lemma {:induction false} UsedAlike(p: Queue, q: Queue, us: seq<Use>)
    requires SameReceiveSide(p, q)
    ensures SameReceiveSide(UsedBy(p, us), UsedBy(q, us))
    decreases |us|
  {
    if us != [] {
      UsedAlike(p, q, us[..|us| - 1]);
    }
  }

  lemma {:induction false} UsedInTurn(q: Queue, us: seq<Use>, vs: seq<Use>)
    ensures UsedBy(UsedBy(q, us), vs) == UsedBy(q, us + vs)
    decreases |vs|
  {
    if vs != [] {
      var front := vs[..|vs| - 1];
      UsedInTurn(q, us, front);
      assert (us + vs)[..|us + vs| - 1] == us + front;
    } else {
      assert us + vs == us;
    }
  }

  /**
   The same of senders and free places; the interrupts of `vs` come between the
   two sections of the unlock.
   */
  lemma SendersLostIff(q: Queue, us: seq<Use>, vs: seq<Use>, awake: nat)
    requires q.rxLock == 0 && (q.toSend != [] ==> q.length - q.waiting <= awake)
    ensures var n, k := RxUnlocked(UsedBy(TxUnlocked(UsedBy(q, us)), vs)), Takes(q, us + vs);
            LeftAsleep(n.toSend, n.length - n.waiting, awake + Woken(k, |q.toSend|)) <==>
              k > INT8_MAX && Direct(k) < |q.toSend| && q.length - UsedBy(q, us + vs).waiting > awake + Direct(k)
  {
    hide CountAfter, UsedBy, Takes, Woken, Direct;
    UsedAlike(TxUnlocked(UsedBy(q, us)), UsedBy(q, us), vs);
    UsedInTurn(q, us, vs);
    CountAfterIsrReceives(q, us + vs);
    ReceivesWake(q, us + vs);
    LostIff(q.toSend, Takes(q, us + vs), q.length - q.waiting, awake, q.length - UsedBy(q, us + vs).waiting);
  }

  // ------------------------------------------------------------------
  // The exact limit
  // ------------------------------------------------------------------

  /** Task 0 falls asleep on an empty queue and has not unlocked it; `m` interrupts have sent, and `m` received. */
  ghost function FallingAsleep(length: nat, m: int): System
    requires 0 < length
  {
    Created(length, 0).(q := Queue(0, length, m, m, [], [0]),
                        phase := map[0 := UnlockingTx(Receive, Sleep)],
                        scheduler := SuspendedBy(0))
  }

  /** Task 0 falls asleep on a full queue, and the same. */
  ghost function FallingAsleepToSend(length: nat, m: int): System
    requires 0 < length
  {
    Created(length, length).(q := Queue(length, length, m, m, [0], []),
                             phase := map[0 := UnlockingTx(Send, Sleep)],
                             scheduler := SuspendedBy(0))
  }

  lemma SendAndReceive(length: nat, m: int)
    requires 0 < length && 0 <= m < INT8_MAX
    ensures var s := FallingAsleep(length, m);
            && Enabled(s, IsrSend(false)) && Enabled(Step(s, IsrSend(false)), IsrReceive)
            && Step(s, IsrSend(false)).q.rxLock == m
            && Step(Step(s, IsrSend(false)), IsrReceive) == FallingAsleep(length, m + 1)
  {
    NoneTaken([]);
    NoneTaken([0]);
  }

  /** Sends and receives by turns, in front of any further run */
  lemma {:induction false} ByTurns(length: nat, m: int, rest: seq<Action>, limit: nat) returns (actions: seq<Action>)
    requires 0 < length && 0 <= m <= INT8_MAX < limit && Possible(FallingAsleep(length, INT8_MAX), rest, limit)
    ensures Possible(FallingAsleep(length, m), actions, limit)
    ensures After(FallingAsleep(length, m), actions, limit) == After(FallingAsleep(length, INT8_MAX), rest, limit)
    decreases INT8_MAX - m
  {
    actions := rest;
    if m < INT8_MAX {
      var s := FallingAsleep(length, m);
      SendAndReceive(length, m);
      actions := ByTurns(length, m + 1, rest, limit);
      actions := Prepend(Step(s, IsrSend(false)), IsrReceive, actions, limit);
      actions := Prepend(s, IsrSend(false), actions, limit);
    }
  }

  /**
   On a queue of any length, with 128 sends allowed in one lock: interrupts
   send and receive by turns, the 128th send is not taken back, and the sleeper
   is forgotten beside the item.
   */
  lemma WrappedCountLosesWakeUp(length: nat, limit: nat) returns (actions: seq<Action>)
    requires 0 < length && limit > INT8_MAX
    ensures Possible(Created(length, 0), actions, limit)
    ensures var s := After(Created(length, 0), actions, limit);
            AtRest(s) && s.q.toReceive != [] && s.q.waiting == 1 && s.q.txLock == UNLOCKED
  {
    var s0 := FallingAsleep(length, INT8_MAX);
    var s1 := Step(s0, IsrSend(false));
    var s2 := Step(s1, UnlockTx(0));
    UnlockedAfterWrap(length);
    actions := Prepend(s2, UnlockRx(0), [], limit);
    actions := Prepend(s1, UnlockTx(0), actions, limit);
    actions := Prepend(s0, IsrSend(false), actions, limit);
    actions := ByTurns(length, 0, actions, limit);
    actions := FallsAsleep(length, actions, limit);
  }

  lemma UnlockedAfterWrap(length: nat)
    requires 0 < length
    ensures var s0 := FallingAsleep(length, INT8_MAX);
            && Enabled(s0, IsrSend(false)) && Enabled(Step(s0, IsrSend(false)), UnlockTx(0))
            && var s2 := Step(Step(s0, IsrSend(false)), UnlockTx(0));
               && Enabled(s2, UnlockRx(0))
               && var s := Step(s2, UnlockRx(0));
                  AtRest(s) && s.q.toReceive != [] && s.q.waiting == 1 && s.q.txLock == UNLOCKED
  {
    NoneTaken([0]);
    NoneTaken([]);
  }

  /** The five steps to FallingAsleep, in front of any further run. */
  lemma FallsAsleep(length: nat, rest: seq<Action>, limit: nat) returns (actions: seq<Action>)
    requires 0 < length && Possible(FallingAsleep(length, 0), rest, limit)
    ensures Possible(Created(length, 0), actions, limit)
    ensures After(Created(length, 0), actions, limit) == After(FallingAsleep(length, 0), rest, limit)
  {
    var s0 := Created(length, 0);
    var s1 := Step(s0, Call(0, Receive));
    var s2 := Step(s1, Attempt(0, true));
    var s3 := Step(s2, Suspend(0));
    var s4 := Step(s3, Recheck(0, false));
    assert Step(s4, Place(0, 0)) == FallingAsleep(length, 0);
    actions := Prepend(s4, Place(0, 0), rest, limit);
    actions := Prepend(s3, Recheck(0, false), actions, limit);
    actions := Prepend(s2, Suspend(0), actions, limit);
    actions := Prepend(s1, Attempt(0, true), actions, limit);
    actions := Prepend(s0, Call(0, Receive), actions, limit);
  }

  lemma ReceiveAndSend(length: nat, m: int)
    requires 0 < length && 0 <= m < INT8_MAX
    ensures var s := FallingAsleepToSend(length, m);
            && Enabled(s, IsrReceive) && Enabled(Step(s, IsrReceive), IsrSend(false))
            && Step(s, IsrReceive).q.txLock == m
            && Step(Step(s, IsrReceive), IsrSend(false)) == FallingAsleepToSend(length, m + 1)
  {
    NoneTaken([]);
    NoneTaken([0]);
  }

  lemma {:induction false} ByTurnsToSend(length: nat, m: int, rest: seq<Action>, limit: nat)
    returns (actions: seq<Action>)
    requires 0 < length && 0 <= m <= INT8_MAX < limit && Possible(FallingAsleepToSend(length, INT8_MAX), rest, limit)
    ensures Possible(FallingAsleepToSend(length, m), actions, limit)
    ensures After(FallingAsleepToSend(length, m), actions, limit)
            == After(FallingAsleepToSend(length, INT8_MAX), rest, limit)
    decreases INT8_MAX - m
  {
    actions := rest;
    if m < INT8_MAX {
      var s := FallingAsleepToSend(length, m);
      ReceiveAndSend(length, m);
      actions := ByTurnsToSend(length, m + 1, rest, limit);
      actions := Prepend(Step(s, IsrReceive), IsrSend(false), actions, limit);
      actions := Prepend(s, IsrReceive, actions, limit);
    }
  }

  /** The same for a sender, with 128 receives. */
  lemma WrappedCountLosesSender(length: nat, limit: nat) returns (actions: seq<Action>)
    requires 0 < length && limit > INT8_MAX
    ensures Possible(Created(length, length), actions, limit)
    ensures var s := After(Created(length, length), actions, limit);
            AtRest(s) && s.q.toSend != [] && s.q.waiting == s.q.length - 1 && s.q.rxLock == UNLOCKED
  {
    var s0 := FallingAsleepToSend(length, INT8_MAX);
    var s1 := Step(s0, IsrReceive);
    var s2 := Step(s1, UnlockTx(0));
    UnlockedAfterRxWrap(length);
    actions := Prepend(s2, UnlockRx(0), [], limit);
    actions := Prepend(s1, UnlockTx(0), actions, limit);
    actions := Prepend(s0, IsrReceive, actions, limit);
    actions := ByTurnsToSend(length, 0, actions, limit);
    actions := FallsAsleepToSend(length, actions, limit);
  }

  lemma UnlockedAfterRxWrap(length: nat)
    requires 0 < length
    ensures var s0 := FallingAsleepToSend(length, INT8_MAX);
            && Enabled(s0, IsrReceive) && Enabled(Step(s0, IsrReceive), UnlockTx(0))
            && var s2 := Step(Step(s0, IsrReceive), UnlockTx(0));
               && Enabled(s2, UnlockRx(0))
               && var s := Step(s2, UnlockRx(0));
                  AtRest(s) && s.q.toSend != [] && s.q.waiting == s.q.length - 1 && s.q.rxLock == UNLOCKED
  {
    NoneTaken([0]);
    NoneTaken([]);
  }

  lemma FallsAsleepToSend(length: nat, rest: seq<Action>, limit: nat) returns (actions: seq<Action>)
    requires 0 < length && Possible(FallingAsleepToSend(length, 0), rest, limit)
    ensures Possible(Created(length, length), actions, limit)
    ensures After(Created(length, length), actions, limit) == After(FallingAsleepToSend(length, 0), rest, limit)
  {
    var s0 := Created(length, length);
    var s1 := Step(s0, Call(0, Send));
    var s2 := Step(s1, Attempt(0, true));
    var s3 := Step(s2, Suspend(0));
    var s4 := Step(s3, Recheck(0, false));
    assert Step(s4, Place(0, 0)) == FallingAsleepToSend(length, 0);
    actions := Prepend(s4, Place(0, 0), rest, limit);
    actions := Prepend(s3, Recheck(0, false), actions, limit);
    actions := Prepend(s2, Suspend(0), actions, limit);
    actions := Prepend(s1, Attempt(0, true), actions, limit);
    actions := Prepend(s0, Call(0, Send), actions, limit);
  }

  lemma Prepend(s: System, a: Action, rest: seq<Action>, limit: nat) returns (actions: seq<Action>)
    requires Enabled(s, a) && WithinLimit(s, a, limit) && Possible(Step(s, a), rest, limit)
    ensures actions == [a] + rest && Possible(s, actions, limit)
    ensures After(s, actions, limit) == After(Step(s, a), rest, limit)
  {
    actions := [a] + rest;
    assert actions[1..] == rest;
  }

  ghost predicate NeverLosesReceivers(length: nat, limit: nat)
    requires 0 < length
  {
    forall waiting: nat, actions :: waiting <= length && Possible(Created(length, waiting), actions, limit) ==>
      ReceiversAttended(After(Created(length, waiting), actions, limit))
  }

  ghost predicate NeverLosesSenders(length: nat, limit: nat)
    requires 0 < length
  {
    forall waiting: nat, actions :: waiting <= length && Possible(Created(length, waiting), actions, limit) ==>
      SendersAttended(After(Created(length, waiting), actions, limit))
  }

  /**
   The exact limit, for a queue of any length: no run loses a receiver's
   wake-up, or a sender's, if and only if no lock sees more than 127 sends or
   more than 127 receives by interrupts.
   */
  lemma NoLossIff(length: nat, limit: nat)
    requires 0 < length
    ensures NeverLosesReceivers(length, limit) <==> limit <= INT8_MAX
    ensures NeverLosesSenders(length, limit) <==> limit <= INT8_MAX
  {
    if limit <= INT8_MAX {
      forall waiting: nat, actions | waiting <= length && Possible(Created(length, waiting), actions, limit)
        ensures ReceiversAttended(After(Created(length, waiting), actions, limit))
        ensures SendersAttended(After(Created(length, waiting), actions, limit))
      {
        NoLostWakeUp(length, waiting, actions, limit);
      }
    } else {
      var lost := WrappedCountLosesWakeUp(length, limit);
      assert !ReceiversAttended(After(Created(length, 0), lost, limit));
      var lostSender := WrappedCountLosesSender(length, limit);
      assert !SendersAttended(After(Created(length, length), lostSender, limit));
    }
  }

  lemma Remainder(list: seq<Task>, woken: seq<Task>, rest: seq<Task>)
    requires woken + rest == list
    ensures rest == list[|woken|..]
  {
  }

  // ------------------------------------------------------------------
  // The code of the critical sections
  // ------------------------------------------------------------------

  /** The members of Queue_t the protocol works on. Woken tasks are handed back, head first. */
  class QueueControl {
    var messagesWaiting: nat
    const length: nat
    var rxLock: int
    var txLock: int
    var waitingToSend: seq<Task>
    var waitingToReceive: seq<Task>

    ghost function View(): Queue
      reads this
    {
      Queue(messagesWaiting, length, rxLock, txLock, waitingToSend, waitingToReceive)
    }

    constructor (length: nat)
      ensures View() == Queue(0, length, UNLOCKED, UNLOCKED, [], [])
    {
      this.length := length;
      messagesWaiting, rxLock, txLock := 0, UNLOCKED, UNLOCKED;
      waitingToSend, waitingToReceive := [], [];
    }

    /** prvLockQueue */
    method Lock()
      modifies this
      ensures View() == Locked(old(View()))
      ensures rxLock == (if old(rxLock) == UNLOCKED then 0 else old(rxLock))
      ensures txLock == (if old(txLock) == UNLOCKED then 0 else old(txLock))
    {
      if rxLock == UNLOCKED {
        rxLock := 0;
      }
      if txLock == UNLOCKED {
        txLock := 0;
      }
    }

    /** xTaskRemoveFromEventList on xTasksWaitingToReceive */
    method RemoveReceiver() returns (task: Task)
      requires waitingToReceive != []
      modifies this`waitingToReceive
      ensures [task] + waitingToReceive == old(waitingToReceive)
    {
      task := waitingToReceive[0];
      waitingToReceive := waitingToReceive[1..];
    }

    /** xTaskRemoveFromEventList on xTasksWaitingToSend */
    method RemoveSender() returns (task: Task)
      requires waitingToSend != []
      modifies this`waitingToSend
      ensures [task] + waitingToSend == old(waitingToSend)
    {
      task := waitingToSend[0];
      waitingToSend := waitingToSend[1..];
    }

    /** prvUnlockQueue, first critical section */
    method UnlockTransmit() returns (woken: seq<Task>)
      modifies this
      ensures View() == TxUnlocked(old(View())) && txLock == UNLOCKED && messagesWaiting == old(messagesWaiting)
      ensures woken + waitingToReceive == old(waitingToReceive)
      ensures |woken| == Positive(old(txLock)) || (|woken| < Positive(old(txLock)) && waitingToReceive == [])
    {
      var count := txLock;
      woken := [];
      while count > 0
        invariant woken + waitingToReceive == old(waitingToReceive)
        invariant |woken| + Positive(count) == Positive(txLock)
        invariant View() == old(View()).(toReceive := waitingToReceive)
      {
        if waitingToReceive != [] {
          var task := RemoveReceiver();
          woken := woken + [task];
        } else {
          break;
        }
        count := count - 1;
      }
      txLock := UNLOCKED;
      Remainder(old(waitingToReceive), woken, waitingToReceive);
    }

    /** prvUnlockQueue, second critical section */
    method UnlockReceive() returns (woken: seq<Task>)
      modifies this
      ensures View() == RxUnlocked(old(View())) && rxLock == UNLOCKED && messagesWaiting == old(messagesWaiting)
      ensures woken + waitingToSend == old(waitingToSend)
      ensures |woken| == Positive(old(rxLock)) || (|woken| < Positive(old(rxLock)) && waitingToSend == [])
    {
      var count := rxLock;
      woken := [];
      while count > 0
        invariant woken + waitingToSend == old(waitingToSend)
        invariant |woken| + Positive(count) == Positive(rxLock)
        invariant View() == old(View()).(toSend := waitingToSend)
      {
        if waitingToSend != [] {
          var task := RemoveSender();
          woken := woken + [task];
          count := count - 1;
        } else {
          break;
        }
      }
      rxLock := UNLOCKED;
      Remainder(old(waitingToSend), woken, waitingToSend);
    }

    /** The first critical section of xQueueGenericSend, queue outside any set */
    method TrySend(overwrite: bool) returns (sent: bool, woken: seq<Task>)
      modifies this
      ensures sent == (old(messagesWaiting) < length || overwrite)
      ensures View() == if sent then Sent(old(View()), overwrite) else old(View())
      ensures woken + waitingToReceive == old(waitingToReceive)
      ensures |woken| == (if sent && old(waitingToReceive) != [] then 1 else 0)
      ensures messagesWaiting
              == old(messagesWaiting) + if sent && !(overwrite && old(messagesWaiting) > 0) then 1 else 0
      ensures waitingToSend == old(waitingToSend) && rxLock == old(rxLock) && txLock == old(txLock)
    {
      sent, woken := messagesWaiting < length || overwrite, [];
      if sent {
        CountIn(overwrite);
        if waitingToReceive != [] {
          var task := RemoveReceiver();
          woken := [task];
        }
      }
    }

    /** What prvCopyDataToQueue does to the count */
    method CountIn(overwrite: bool)
      modifies this`messagesWaiting
      ensures messagesWaiting == OneMore(old(View()), overwrite)
    {
      var waiting := messagesWaiting;
      if overwrite && waiting > 0 {
        waiting := waiting - 1;
      }
      messagesWaiting := waiting + 1;
    }

    /** The first critical section of xQueueGenericReceive */
    method TryReceive(justPeeking: bool) returns (received: bool, woken: seq<Task>)
      modifies this
      ensures received == (old(messagesWaiting) > 0)
      ensures View() == if !received then old(View())
                        else if justPeeking then Peeked(old(View())) else Received(old(View()))
      ensures messagesWaiting == old(messagesWaiting) - if received && !justPeeking then 1 else 0
      ensures justPeeking ==>
                && woken + waitingToReceive == old(waitingToReceive) && waitingToSend == old(waitingToSend)
                && |woken| == if received && old(waitingToReceive) != [] then 1 else 0
      ensures !justPeeking ==>
                && woken + waitingToSend == old(waitingToSend) && waitingToReceive == old(waitingToReceive)
                && |woken| == if received && old(waitingToSend) != [] then 1 else 0
      ensures rxLock == old(rxLock) && txLock == old(txLock)
    {
      received, woken := messagesWaiting > 0, [];
      if received {
        if !justPeeking {
          messagesWaiting := messagesWaiting - 1;
          if waitingToSend != [] {
            var task := RemoveSender();
            woken := [task];
          }
        } else if waitingToReceive != [] {
          var task := RemoveReceiver();
          woken := [task];
        }
      }
    }

    /** xQueueGenericSendFromISR, queue outside any set */
    method SendFromIsr(overwrite: bool) returns (sent: bool, woken: seq<Task>)
      modifies this
      ensures sent == (old(messagesWaiting) < length || overwrite)
      ensures View() == if sent then SentFromIsr(old(View()), overwrite) else old(View())
      ensures woken + waitingToReceive == old(waitingToReceive)
      ensures |woken| == (if sent && old(txLock) == UNLOCKED && old(waitingToReceive) != [] then 1 else 0)
      ensures messagesWaiting
              == old(messagesWaiting) + if sent && !(overwrite && old(messagesWaiting) > 0) then 1 else 0
      ensures txLock == (if sent && old(txLock) != UNLOCKED then Incremented(old(txLock)) else old(txLock))
      ensures waitingToSend == old(waitingToSend) && rxLock == old(rxLock)
    {
      sent, woken := messagesWaiting < length || overwrite, [];
      if sent {
        var lock := txLock;
        CountIn(overwrite);
        if lock == UNLOCKED {
          if waitingToReceive != [] {
            var task := RemoveReceiver();
            woken := [task];
          }
        } else {
          txLock := Incremented(lock);
        }
      }
    }

    /** xQueueReceiveFromISR */
    method ReceiveFromIsr() returns (received: bool, woken: seq<Task>)
      modifies this
      ensures received == (old(messagesWaiting) > 0)
      ensures View() == if received then ReceivedFromIsr(old(View())) else old(View())
      ensures woken + waitingToSend == old(waitingToSend)
      ensures |woken| == (if received && old(rxLock) == UNLOCKED && old(waitingToSend) != [] then 1 else 0)
      ensures messagesWaiting == old(messagesWaiting) - if received then 1 else 0
      ensures rxLock == (if received && old(rxLock) != UNLOCKED then Incremented(old(rxLock)) else old(rxLock))
      ensures waitingToReceive == old(waitingToReceive) && txLock == old(txLock)
    {
      received, woken := messagesWaiting > 0, [];
      if received {
        var lock := rxLock;
        messagesWaiting := messagesWaiting - 1;
        if lock == UNLOCKED {
          if waitingToSend != [] {
            var task := RemoveSender();
            woken := [task];
          }
        } else {
          rxLock := Incremented(lock);
        }
      }
    }
  }
}
