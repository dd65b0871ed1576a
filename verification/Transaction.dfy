/**
 Confirmable message transactions: external/wakaama/transaction.c, for the
 retransmission rules of section 4.2 of RFC 7252.

 A transaction is a record, and the context holds the list of them in order of
 message ID. `log` counts what has happened to each message ID. The fields
 `firstSent`, `sends`, `denied` and `rescheduled` of a transaction exist for
 the timing property.
 */
module Transaction {
  import opened Bytes

  const COAP_RESPONSE_TIMEOUT: nat := 2
  const COAP_MAX_RETRANSMIT: nat := 4

  datatype Txn = Txn(
    mID: nat,
    peer: nat,
    response: bool,              // the message's code is above COAP_DELETE
    token: Option<seq<byte>>,
    callback: bool,              // one is registered
    responseTimeout: nat,
    serialised: bool,            // the buffer has been made
    acked: bool,                 // ack_received
    counter: nat,                // retrans_counter
    time: int,                   // retrans_time
    firstSent: int,
    sends: nat,
    denied: nat,                 // answers 4.01 since the first transmission
    rescheduled: bool)           // an acknowledgement has moved retrans_time

  datatype Entry = Started(mID: nat) | Sent(mID: nat) | Called(mID: nat) | Removed(mID: nat)

  datatype Context = Context(list: seq<Txn>, log: multiset<Entry>)

  datatype Kind = CON | NON | ACK | RST

  /** coap_packet_t as received; an absent token has length 0 */
  datatype Message = Message(from: nat, kind: Kind, mid: nat, token: seq<byte>, unauthorized: bool)

  /** What the serialiser does with a message: a size of 0 at once, or a length of 0 in the end */
  datatype Serialising = Serialised | NoSize | Failed

  function Pow2(k: nat): (p: nat)
    ensures p > 0
  {
    if k == 0 then 1 else 2 * Pow2(k - 1)
  }

  // ------------------------------------------------------------------
  // One transaction
  // ------------------------------------------------------------------

  /** What transaction_send does with a transaction */
  datatype Verdict =
    | Stays          // 0
    | Unsized        // COAP_500, the transaction left in the list
    | Unserialised   // COAP_500, the transaction removed, its callback not called
    | Ends           // -1, the callback called without a message, the transaction removed

  datatype Sending = Sending(txn: Txn, sent: bool, verdict: Verdict)

  /** At the first transmission: when the next is due */
  function Begun(t: Txn, clock: int): Txn {
    t.(time := clock + COAP_RESPONSE_TIMEOUT, counter := 1, firstSent := clock, denied := 0, rescheduled := false)
  }

  function Transmit(t: Txn, clock: int): Sending {
    if t.acked then Sending(t, false, Ends)
    else
      var noClock := t.counter == 0 && clock < 0;
      var u := if t.counter == 0 && clock >= 0
               then Begun(t, clock) else t;
      var timeout := if t.counter == 0 then 0 else COAP_RESPONSE_TIMEOUT * Pow2(t.counter - 1);
      if COAP_MAX_RETRANSMIT + 1 >= u.counter then
        Sending(u.(time := u.time + timeout, counter := u.counter + 1, sends := u.sends + 1), true,
                if noClock then Ends else Stays)
      else Sending(u, false, Ends)
  }

  /** transaction_send up to the changes it makes to the list */
  function Send(t: Txn, clock: int, ser: Serialising): Sending {
    if !t.serialised && ser.NoSize? then Sending(t, false, Unsized)
    else if !t.serialised && ser.Failed? then Sending(t, false, Unserialised)
    else Transmit(t.(serialised := true), clock)
  }

  /** prv_checkFinished */
  predicate Finished(t: Txn, m: Message) {
    if t.response || t.token.None? then t.acked else t.token.value == m.token
  }

  /** What a received message does to a transaction */
  datatype Reaction = Ignores | Delayed(txn: Txn) | Answered(txn: Txn)

  /** The message acknowledges or resets the transaction, or over TCP comes from its peer. */
  predicate Acknowledges(t: Txn, m: Message, tcp: bool) {
    !t.acked && (((m.kind.ACK? || m.kind.RST?) && t.mID == m.mid) || (m.kind.CON? && tcp))
  }

  /** Acknowledged but not finished: the time to wait for the response */
  function Rescheduled(t: Txn, clock: int): Txn {
    var base := if clock >= 0 then clock else t.time;
    var wait := if t.responseTimeout > 0 then t.responseTimeout else COAP_RESPONSE_TIMEOUT * t.counter;
    t.(time := base + wait, rescheduled := true)
  }

  /** One round of the loop of transaction_handleResponse */
  function React(t: Txn, m: Message, tcp: bool, clock: int): Reaction {
    if m.from != t.peer then Ignores
    else
      var found := Acknowledges(t, m, tcp);
      var reset := found && m.kind.RST?;
      var u := if found then t.(acked := true) else t;
      if reset || Finished(u, m) then
        if !reset && m.unauthorized && COAP_MAX_RETRANSMIT > u.counter
        then Delayed(u.(acked := false, time := u.time + COAP_RESPONSE_TIMEOUT, denied := u.denied + 1))
        else Answered(u)
      else if found then Delayed(Rescheduled(u, clock))
      else Ignores
  }

  // ------------------------------------------------------------------
  // The list
  // ------------------------------------------------------------------

  ghost predicate Sorted(list: seq<Txn>) {
    forall i, j :: 0 <= i < j < |list| ==> list[i].mID < list[j].mID
  }

  ghost predicate InList(list: seq<Txn>, id: nat) {
    exists i :: 0 <= i < |list| && list[i].mID == id
  }

  /** Behind the items whose ID is less, the first item apart */
  function PlaceBehind(list: seq<Txn>, id: nat): (p: nat)
    ensures p <= |list|
  {
    if list == [] || list[0].mID >= id then 0 else 1 + PlaceBehind(list[1..], id)
  }

  /** lwm2m_list_add */
  function ListAdd(list: seq<Txn>, t: Txn): seq<Txn> {
    if list == [] || list[0].mID > t.mID then [t] + list
    else
      var p := 1 + PlaceBehind(list[1..], t.mID);
      list[..p] + [t] + list[p..]
  }

  /** lwm2m_list_remove */
  function ListRemove(list: seq<Txn>, id: nat): seq<Txn> {
    if list == [] then []
    else if list[0].mID == id then list[1..]
    else
      var p := 1 + PlaceBehind(list[1..], id);
      if p < |list| && list[p].mID == id then list[..p] + list[p + 1..] else list
  }

  // ------------------------------------------------------------------
  // The context
  // ------------------------------------------------------------------

  datatype Action =
    | Start(txn: Txn)                                  // a new transaction put in the list
    | SendAt(i: nat, clock: int, ser: Serialising)     // transaction_send
    | Receive(message: Message, clock: int)            // transaction_handleResponse

  predicate Fresh(t: Txn) {
    !t.serialised && !t.acked && t.counter == 0 && t.sends == 0
  }

  ghost predicate Enabled(c: Context, a: Action) {
    match a
    case Start(t) => Fresh(t) && !InList(c.list, t.mID)
    case SendAt(i, _, _) => i < |c.list|
    case Receive(_, _) => true
  }

  /** transaction_remove, after the callback if there is one to call */
  function Removing(c: Context, t: Txn, call: bool): Context {
    Context(ListRemove(c.list, t.mID),
            c.log + (if call && t.callback then multiset{Called(t.mID)} else multiset{}) + multiset{Removed(t.mID)})
  }

  function AfterSend(c: Context, i: nat, r: Sending): Context
    requires i < |c.list|
  {
    var kept := Context(c.list[i := r.txn], c.log + if r.sent then multiset{Sent(r.txn.mID)} else multiset{});
    match r.verdict
    case Stays => kept
    case Unsized => kept
    case Unserialised => Removing(kept, r.txn, false)
    case Ends => Removing(kept, r.txn, true)
  }

  /** The first transaction from place `i` on that a message concerns */
  function Concerned(list: seq<Txn>, m: Message, tcp: bool, clock: int, i: nat): (k: nat)
    requires i <= |list|
    ensures i <= k <= |list| && forall j :: i <= j < k ==> React(list[j], m, tcp, clock).Ignores?
    ensures k < |list| ==> !React(list[k], m, tcp, clock).Ignores?
    decreases |list| - i
  {
    if i == |list| || !React(list[i], m, tcp, clock).Ignores? then i else Concerned(list, m, tcp, clock, i + 1)
  }

  function AfterReceive(c: Context, m: Message, tcp: bool, clock: int): Context {
    var k := Concerned(c.list, m, tcp, clock, 0);
    if k == |c.list| then c
    else
      match React(c.list[k], m, tcp, clock)
      case Ignores => c
      case Delayed(t) => c.(list := c.list[k := t])
      case Answered(t) => Removing(c.(list := c.list[k := t]), t, true)
  }

  function Step(c: Context, a: Action, tcp: bool): Context
    requires a.SendAt? ==> a.i < |c.list|
  {
    match a
    case Start(t) => Context(ListAdd(c.list, t), c.log + multiset{Started(t.mID)})
    case SendAt(i, clock, ser) => AfterSend(c, i, Send(c.list[i], clock, ser))
    case Receive(m, clock) => AfterReceive(c, m, tcp, clock)
  }

  // ------------------------------------------------------------------
  // What every step keeps
  // ------------------------------------------------------------------

  /**
   The back-off: after the k-th transmission the next is due 2^k - 1 timeouts
   after the first. Acknowledged, a transaction only waits for its token.
   */
  ghost predicate OnSchedule(t: Txn) {
    && t.counter <= COAP_MAX_RETRANSMIT + 2
    && t.sends == (if t.counter == 0 then 0 else t.counter - 1)
    && t.counter != 1
    && (t.acked ==> !t.response && t.token.Some?)
    && (t.counter > 0 && !t.rescheduled ==>
          t.time == t.firstSent + (Pow2(t.sends) - 1) * COAP_RESPONSE_TIMEOUT + t.denied * COAP_RESPONSE_TIMEOUT)
  }

  /** Every transaction started has been removed once or is in the list; a callback is called at most on removal. */
  ghost predicate Accounted(c: Context, id: nat) {
    && c.log[Started(id)] == c.log[Removed(id)] + (if InList(c.list, id) then 1 else 0)
    && c.log[Called(id)] <= c.log[Removed(id)]
  }

  ghost predicate AllOnSchedule(list: seq<Txn>) {
    forall i :: 0 <= i < |list| ==> OnSchedule(list[i])
  }

  ghost predicate Inv(c: Context) {
    Sorted(c.list) && AllOnSchedule(c.list) && forall id :: Accounted(c, id)
  }

  lemma {:induction false} PlaceBehindIs(list: seq<Txn>, id: nat)
    requires Sorted(list)
    ensures var p := PlaceBehind(list, id);
            && (forall i :: 0 <= i < p ==> list[i].mID < id)
            && (forall i :: p <= i < |list| ==> list[i].mID >= id)
  {
    if list != [] && list[0].mID < id {
      PlaceBehindIs(list[1..], id);
    }
  }

  /** In a list in order the removal takes out exactly the transaction with the ID. */
  lemma RemoveIs(list: seq<Txn>, i: nat)
    requires Sorted(list) && i < |list|
    ensures ListRemove(list, list[i].mID) == list[..i] + list[i + 1..]
  {
    if i > 0 {
      PlaceBehindIs(list[1..], list[i].mID);
      var p := 1 + PlaceBehind(list[1..], list[i].mID);
      assert list[1..][i - 1] == list[i];
    }
  }

  lemma RemovedList(list: seq<Txn>, i: nat)
    requires Sorted(list) && i < |list|
    ensures var n := list[..i] + list[i + 1..];
            && Sorted(n) && (forall id :: InList(n, id) <==> InList(list, id) && id != list[i].mID)
            && (forall j :: 0 <= j < |n| ==> n[j] == list[if j < i then j else j + 1])
  {
    var n := list[..i] + list[i + 1..];
    assert forall j :: 0 <= j < |n| ==> n[j] == list[if j < i then j else j + 1];
    forall id | InList(list, id) && id != list[i].mID
      ensures InList(n, id)
    {
      var j :| 0 <= j < |list| && list[j].mID == id;
      assert n[if j < i then j else j - 1].mID == id;
    }
  }

  lemma UpdatedList(list: seq<Txn>, i: nat, t: Txn)
    requires Sorted(list) && i < |list| && t.mID == list[i].mID
    ensures Sorted(list[i := t]) && forall id :: InList(list[i := t], id) <==> InList(list, id)
  {
    var n := list[i := t];
    assert forall j :: 0 <= j < |list| ==> n[j].mID == list[j].mID;
    forall id | InList(list, id)
      ensures InList(n, id)
    {
      var j :| 0 <= j < |list| && list[j].mID == id;
      assert n[j].mID == id;
    }
  }

  lemma AddIs(list: seq<Txn>, t: Txn) returns (p: nat)
    requires Sorted(list) && !InList(list, t.mID)
    ensures p <= |list| && ListAdd(list, t) == list[..p] + [t] + list[p..]
    ensures (forall i :: 0 <= i < p ==> list[i].mID < t.mID) && (forall i :: p <= i < |list| ==> t.mID < list[i].mID)
  {
    if list == [] || list[0].mID > t.mID {
      p := 0;
    } else {
      p := 1 + PlaceBehind(list[1..], t.mID);
      PlaceBehindIs(list[1..], t.mID);
      assert forall i :: 0 < i < |list| ==> list[i] == list[1..][i - 1];
    }
  }

  lemma AddedList(list: seq<Txn>, t: Txn)
    requires Sorted(list) && !InList(list, t.mID)
    ensures var n := ListAdd(list, t);
            && Sorted(n) && (forall id :: InList(n, id) <==> InList(list, id) || id == t.mID)
            && (forall j :: 0 <= j < |n| ==> n[j] == t || n[j] in list)
  {
    var p := AddIs(list, t);
    InsertedList(list, t, p, ListAdd(list, t));
  }

  lemma InsertedList(list: seq<Txn>, t: Txn, p: nat, n: seq<Txn>)
    requires Sorted(list) && p <= |list| && n == list[..p] + [t] + list[p..]
    requires (forall i :: 0 <= i < p ==> list[i].mID < t.mID) && (forall i :: p <= i < |list| ==> t.mID < list[i].mID)
    ensures Sorted(n) && (forall id :: InList(n, id) <==> InList(list, id) || id == t.mID)
    ensures forall j :: 0 <= j < |n| ==> n[j] == t || n[j] in list
  {
    assert forall j :: 0 <= j < |n| ==> n[j] == if j < p then list[j] else if j == p then t else list[j - 1];
    forall id
      ensures InList(n, id) <==> InList(list, id) || id == t.mID
    {
      if InList(list, id) {
        var j :| 0 <= j < |list| && list[j].mID == id;
        assert n[if j < p then j else j + 1].mID == id;
      } else if id == t.mID {
        assert n[p].mID == id;
      }
    }
  }

  /** A transmission keeps the schedule of a transaction that stays. */
  lemma SendKeepsSchedule(t: Txn, clock: int, ser: Serialising)
    requires OnSchedule(t)
    ensures var r := Send(t, clock, ser);
            && r.txn.mID == t.mID && r.txn.callback == t.callback
            && (r.verdict.Stays? || r.verdict.Unsized? ==> OnSchedule(r.txn))
  {
    if t.counter > 0 {
      assert Pow2(t.sends + 1) == 2 * Pow2(t.sends);
    } else {
      assert Pow2(1) == 2 * Pow2(0) == 2;
    }
  }

  lemma ReactKeepsNames(t: Txn, m: Message, tcp: bool, clock: int)
    ensures var r := React(t, m, tcp, clock);
            r.Delayed? || r.Answered? ==> r.txn.mID == t.mID && r.txn.callback == t.callback
  {
    hide Finished, Acknowledges;
  }

  lemma ReactKeepsSchedule(t: Txn, m: Message, tcp: bool, clock: int)
    requires OnSchedule(t)
    ensures var r := React(t, m, tcp, clock);
            && (r.Delayed? ==> OnSchedule(r.txn))
            && (r.Delayed? || r.Answered? ==> r.txn.mID == t.mID && r.txn.callback == t.callback)
  {
    hide Pow2;
    ReactKeepsNames(t, m, tcp, clock);
  }

  /** Nothing started, removed or called between the two. */
  ghost predicate SameEnds(a: multiset<Entry>, b: multiset<Entry>) {
    && (forall id :: b[Started(id)] == a[Started(id)] && b[Removed(id)] == a[Removed(id)])
    && (forall id :: b[Called(id)] == a[Called(id)])
  }

  /**
   Over UDP a message concerns a transaction exactly when its peer acknowledges
   or resets it, or answers with its token.
   */
  lemma ConcernsIff(t: Txn, m: Message, clock: int)
    requires OnSchedule(t)
    ensures !React(t, m, false, clock).Ignores? <==>
              && m.from == t.peer
              && ((!t.acked && (m.kind.ACK? || m.kind.RST?) && m.mid == t.mID)
                  || (!t.response && t.token == Some(m.token)))
  {
  }

  lemma RemovingKeepsInv(c: Context, d: Context, i: nat, t: Txn, call: bool)
    requires Inv(c) && i < |c.list| && t.mID == c.list[i].mID && d.list == c.list[i := t]
    requires SameEnds(c.log, d.log)
    ensures Inv(Removing(d, t, call))
  {
    var n := Removing(d, t, call);
    UpdatedList(c.list, i, t);
    RemoveIs(d.list, i);
    RemovedList(d.list, i);
    assert AllOnSchedule(n.list);
    forall id
      ensures Accounted(n, id)
    {
      assert Accounted(c, id);
      assert InList(d.list, t.mID);
    }
  }

  lemma KeepingKeepsInv(c: Context, d: Context, i: nat, t: Txn)
    requires Inv(c) && i < |c.list| && t.mID == c.list[i].mID && OnSchedule(t) && d.list == c.list[i := t]
    requires SameEnds(c.log, d.log)
    ensures Inv(d)
  {
    UpdatedList(c.list, i, t);
    forall id
      ensures Accounted(d, id)
    {
      assert Accounted(c, id);
    }
  }

  lemma SendKeepsInv(c: Context, i: nat, clock: int, ser: Serialising)
    requires Inv(c) && i < |c.list|
    ensures Inv(AfterSend(c, i, Send(c.list[i], clock, ser)))
  {
    var r := Send(c.list[i], clock, ser);
    SendKeepsSchedule(c.list[i], clock, ser);
    var kept := Context(c.list[i := r.txn], c.log + if r.sent then multiset{Sent(r.txn.mID)} else multiset{});
    match r.verdict
    case Stays => KeepingKeepsInv(c, kept, i, r.txn);
    case Unsized => KeepingKeepsInv(c, kept, i, r.txn);
    case Unserialised => RemovingKeepsInv(c, kept, i, r.txn, false);
    case Ends => RemovingKeepsInv(c, kept, i, r.txn, true);
  }

  lemma ReceiveKeepsInv(c: Context, m: Message, tcp: bool, clock: int)
    requires Inv(c)
    ensures Inv(AfterReceive(c, m, tcp, clock))
  {
    var k := Concerned(c.list, m, tcp, clock, 0);
    if k < |c.list| {
      ReactKeepsSchedule(c.list[k], m, tcp, clock);
      match React(c.list[k], m, tcp, clock)
      case Delayed(t) => KeepingKeepsInv(c, c.(list := c.list[k := t]), k, t);
      case Answered(t) => RemovingKeepsInv(c, c.(list := c.list[k := t]), k, t, true);
    }
  }

  lemma StartKeepsInv(c: Context, t: Txn)
    requires Inv(c) && Fresh(t) && !InList(c.list, t.mID)
    ensures Inv(Context(ListAdd(c.list, t), c.log + multiset{Started(t.mID)}))
  {
    var n := Context(ListAdd(c.list, t), c.log + multiset{Started(t.mID)});
    AddedList(c.list, t);
    forall i | 0 <= i < |n.list|
      ensures OnSchedule(n.list[i])
    {
      if n.list[i] != t {
        assert n.list[i] in c.list;
      }
    }
    forall id
      ensures Accounted(n, id)
    {
      assert Accounted(c, id);
    }
  }

  lemma StepKeepsInv(c: Context, a: Action, tcp: bool)
    requires Inv(c) && Enabled(c, a)
    ensures Inv(Step(c, a, tcp))
  {
    match a
    case Start(t) => StartKeepsInv(c, t);
    case SendAt(i, clock, ser) => SendKeepsInv(c, i, clock, ser);
    case Receive(m, clock) => ReceiveKeepsInv(c, m, tcp, clock);
  }

  // ------------------------------------------------------------------
  // Whole runs
  // ------------------------------------------------------------------

  ghost predicate StepByStep(states: seq<Context>, run: seq<Action>, tcp: bool)
    requires |states| == |run| + 1
  {
    forall i :: 0 <= i < |run| ==> Enabled(states[i], run[i]) && states[i + 1] == Step(states[i], run[i], tcp)
  }

  ghost predicate Trace(states: seq<Context>, run: seq<Action>, tcp: bool) {
    |states| == |run| + 1 && states[0] == Context([], multiset{}) && StepByStep(states, run, tcp)
  }

  lemma {:induction false} TraceKeepsInv(states: seq<Context>, run: seq<Action>, tcp: bool, i: nat)
    requires Trace(states, run, tcp) && i <= |run|
    ensures Inv(states[i])
    decreases i
  {
    if i > 0 {
      TraceKeepsInv(states, run, tcp, i - 1);
      StepKeepsInv(states[i - 1], run[i - 1], tcp);
    }
  }

  /**
   Back-off in closed form. In every run, a transaction sent `k` times is due
   again 2^k - 1 timeouts after the first time, if no acknowledgement has moved
   it, and a timeout later for every 4.01; it is never sent more than
   COAP_MAX_RETRANSMIT + 1 times.
   */
  lemma BackOff(states: seq<Context>, run: seq<Action>, tcp: bool, i: nat, j: nat)
    requires Trace(states, run, tcp) && i <= |run| && j < |states[i].list|
    ensures var t := states[i].list[j];
            && t.sends <= COAP_MAX_RETRANSMIT + 1
            && (t.sends > 0 && !t.rescheduled ==>
                  t.time == t.firstSent + (Pow2(t.sends) - 1) * COAP_RESPONSE_TIMEOUT
                            + t.denied * COAP_RESPONSE_TIMEOUT)
  {
    TraceKeepsInv(states, run, tcp, i);
    assert OnSchedule(states[i].list[j]);
  }

  /** A transaction nobody acknowledges is given up 31 timeouts after it was first sent, not before. */
  lemma GivenUpLate(t: Txn, clock: int, ser: Serialising, now: int)
    requires OnSchedule(t) && t.counter > 0 && !t.acked && !t.rescheduled && t.time <= now
    requires t.serialised
    ensures Send(t, clock, ser).verdict.Ends? <==> t.sends == COAP_MAX_RETRANSMIT + 1
    ensures Send(t, clock, ser).verdict.Ends? ==>
              && !Send(t, clock, ser).sent
              && now >= t.firstSent + 31 * COAP_RESPONSE_TIMEOUT + t.denied * COAP_RESPONSE_TIMEOUT
  {
    assert Pow2(5) == 32 by {
      assert Pow2(2) == 4;
      assert Pow2(4) == 16;
    }
  }

  /** The usage the exactly-once promise rests on: callbacks registered, serialisation successful. */
  predicate WellUsed(run: seq<Action>) {
    forall i :: 0 <= i < |run| ==> (run[i].Start? ==> run[i].txn.callback) && (run[i].SendAt? ==> !run[i].ser.Failed?)
  }

  ghost predicate AllHaveCallbacks(list: seq<Txn>) {
    forall i :: 0 <= i < |list| ==> list[i].callback
  }

  ghost predicate CalledIffRemoved(c: Context) {
    AllHaveCallbacks(c.list) && forall id :: c.log[Called(id)] == c.log[Removed(id)]
  }

  lemma StartCalls(c: Context, t: Txn, n: Context)
    requires Inv(c) && Fresh(t) && !InList(c.list, t.mID) && t.callback && CalledIffRemoved(c)
    requires n == Context(ListAdd(c.list, t), c.log + multiset{Started(t.mID)})
    ensures CalledIffRemoved(n)
  {
    AddedList(c.list, t);
    forall i | 0 <= i < |n.list|
      ensures n.list[i].callback
    {
      if n.list[i] != t {
        assert n.list[i] in c.list;
      }
    }
  }

  lemma SendCalls(c: Context, i: nat, r: Sending)
    requires Inv(c) && CalledIffRemoved(c) && i < |c.list| && r.txn.mID == c.list[i].mID
    requires r.txn.callback == c.list[i].callback && !r.verdict.Unserialised?
    ensures CalledIffRemoved(AfterSend(c, i, r))
  {
    RemovalCalls(c, i, r.txn);
  }

  lemma ReceiveCalls(c: Context, m: Message, tcp: bool, clock: int)
    requires Inv(c) && CalledIffRemoved(c)
    ensures CalledIffRemoved(AfterReceive(c, m, tcp, clock))
  {
    var k := Concerned(c.list, m, tcp, clock, 0);
    if k < |c.list| {
      hide React;
      ReactKeepsSchedule(c.list[k], m, tcp, clock);
      match React(c.list[k], m, tcp, clock)
      case Delayed(t) => RemovalCalls(c, k, t);
      case Answered(t) => RemovalCalls(c, k, t);
    }
  }

  lemma StepCalls(c: Context, a: Action, tcp: bool)
    requires Inv(c) && Enabled(c, a) && CalledIffRemoved(c)
    requires (a.Start? ==> a.txn.callback) && (a.SendAt? ==> !a.ser.Failed?)
    ensures CalledIffRemoved(Step(c, a, tcp))
  {
    hide Inv, AfterSend, AfterReceive;
    match a
    case Start(t) => StartCalls(c, t, Step(c, a, tcp));
    case SendAt(i, clock, ser) => SendOutcome(c, i, clock, ser);
    case Receive(m, clock) => ReceiveCalls(c, m, tcp, clock);
  }

  lemma SendOutcome(c: Context, i: nat, clock: int, ser: Serialising)
    requires Inv(c) && CalledIffRemoved(c) && i < |c.list| && !ser.Failed?
    ensures CalledIffRemoved(AfterSend(c, i, Send(c.list[i], clock, ser)))
  {
    SendKeepsSchedule(c.list[i], clock, ser);
    SendCalls(c, i, Send(c.list[i], clock, ser));
  }

  lemma RemovalCalls(c: Context, i: nat, t: Txn)
    requires Inv(c) && i < |c.list| && AllHaveCallbacks(c.list) && t.mID == c.list[i].mID && t.callback
    ensures AllHaveCallbacks(c.list[i := t]) && AllHaveCallbacks(ListRemove(c.list[i := t], t.mID))
  {
    UpdatedList(c.list, i, t);
    RemoveIs(c.list[i := t], i);
    RemovedList(c.list[i := t], i);
  }

  lemma {:induction false} TraceCalls(states: seq<Context>, run: seq<Action>, tcp: bool, i: nat)
    requires Trace(states, run, tcp) && WellUsed(run) && i <= |run|
    ensures CalledIffRemoved(states[i])
    decreases i
  {
    if i > 0 {
      TraceCalls(states, run, tcp, i - 1);
      TraceKeepsInv(states, run, tcp, i - 1);
      StepCalls(states[i - 1], run[i - 1], tcp);
    }
  }

  /**
   Exactly once: at every moment the callback of a transaction started once
   has been called once if it has left the list, and not at all while it is
   there.
   */
  lemma ExactlyOnce(states: seq<Context>, run: seq<Action>, tcp: bool, i: nat, id: nat)
    requires Trace(states, run, tcp) && WellUsed(run) && i <= |run|
    requires states[i].log[Started(id)] == 1
    ensures states[i].log[Called(id)] == if InList(states[i].list, id) then 0 else 1
    ensures states[i].log[Called(id)] == states[i].log[Removed(id)]
  {
    TraceCalls(states, run, tcp, i);
    TraceKeepsInv(states, run, tcp, i);
    assert Accounted(states[i], id);
  }

  /** Every transmission uses up one of the tries, and nothing a peer says gives one back. */
  lemma TriesRunOut(t: Txn, clock: int, ser: Serialising, m: Message, tcp: bool)
    requires OnSchedule(t)
    ensures Send(t, clock, ser).verdict.Stays? ==>
              t.counter < Send(t, clock, ser).txn.counter <= COAP_MAX_RETRANSMIT + 2
    ensures React(t, m, tcp, clock).Delayed? ==> React(t, m, tcp, clock).txn.counter == t.counter
    ensures t.serialised && t.counter == COAP_MAX_RETRANSMIT + 2 ==> Send(t, clock, ser).verdict.Ends?
  {
  }

  /** IDs in order, repeated ones allowed */
  ghost predicate InOrder(list: seq<Txn>) {
    forall i, j :: 0 <= i < j < |list| ==> list[i].mID <= list[j].mID
  }

  /** Where the first transaction with an ID stands */
  function FirstPlace(list: seq<Txn>, id: nat): (p: nat)
    ensures p <= |list| && forall j :: 0 <= j < p ==> list[j].mID != id
    ensures p < |list| ==> list[p].mID == id
  {
    if list == [] || list[0].mID == id then 0 else 1 + FirstPlace(list[1..], id)
  }

  lemma AddKeepsOrder(list: seq<Txn>, t: Txn)
    requires InOrder(list)
    ensures InOrder(ListAdd(list, t))
  {
    if list != [] && list[0].mID <= t.mID {
      PlaceInOrder(list[1..], t.mID);
      assert forall j :: 1 <= j < |list| ==> list[1..][j - 1] == list[j];
      SpliceKeepsOrder(list, 1 + PlaceBehind(list[1..], t.mID), t);
    }
  }

  lemma SpliceKeepsOrder(list: seq<Txn>, p: nat, t: Txn)
    requires InOrder(list) && p <= |list|
    requires (forall j :: 0 <= j < p ==> list[j].mID <= t.mID) && (forall j :: p <= j < |list| ==> list[j].mID >= t.mID)
    ensures InOrder(list[..p] + [t] + list[p..])
  {
    var n := list[..p] + [t] + list[p..];
    assert forall j :: 0 <= j < |n| ==> n[j] == if j < p then list[j] else if j == p then t else list[j - 1];
  }

  lemma {:induction false} PlaceInOrder(list: seq<Txn>, id: nat)
    requires InOrder(list)
    ensures var p := PlaceBehind(list, id);
            && (forall j :: 0 <= j < p ==> list[j].mID < id) && (forall j :: p <= j < |list| ==> list[j].mID >= id)
  {
    if list != [] && list[0].mID < id {
      PlaceInOrder(list[1..], id);
    }
  }

  /**
   With message IDs that may repeat, a removal takes out the transaction meant,
   at place `i`, exactly when no earlier one has its ID; else it takes out the
   first that has.
   */
  lemma RemovesTheOneMeantIff(list: seq<Txn>, i: nat)
    requires InOrder(list) && i < |list|
    ensures var f := FirstPlace(list, list[i].mID);
            && f <= i && ListRemove(list, list[i].mID) == list[..f] + list[f + 1..]
            && (f == i <==> forall j :: 0 <= j < i ==> list[j].mID != list[i].mID)
  {
    hide FirstPlace, PlaceBehind;
    FirstIsBehind(list, list[i].mID, i);
    RemoveAtBehind(list, list[i].mID, i);
  }

  lemma RemoveAtBehind(list: seq<Txn>, id: nat, i: nat)
    requires InOrder(list) && i < |list| && list[i].mID == id
    ensures var f := PlaceBehind(list, id);
            f <= i && ListRemove(list, id) == list[..f] + list[f + 1..]
  {
    hide FirstPlace, InOrder;
    FirstIsBehind(list, id, i);
    HeadBelow(list, i);
  }

  lemma HeadBelow(list: seq<Txn>, i: nat)
    requires InOrder(list) && i < |list|
    ensures list[0].mID <= list[i].mID
  {
  }

  lemma {:induction false} FirstIsBehind(list: seq<Txn>, id: nat, i: nat)
    requires InOrder(list) && i < |list| && list[i].mID == id
    ensures FirstPlace(list, id) == PlaceBehind(list, id) <= i
  {
    if list[0].mID != id {
      assert list[0].mID <= list[i].mID && list[1..][i - 1] == list[i];
      FirstIsBehind(list[1..], id, i - 1);
    }
  }

  /** The least example: of two transactions with one ID the removal of the second takes out the first. */
  lemma TwinRemoved(a: Txn, b: Txn)
    requires a.mID == b.mID
    ensures ListRemove(ListAdd([a], b), b.mID) == [b] && ListRemove([a, b], b.mID) == [b]
  {
    assert ListAdd([a], b) == [a, b];
  }

  // ------------------------------------------------------------------
  // How often a message is sent
  // ------------------------------------------------------------------

  const MAX_SENDS: nat := COAP_MAX_RETRANSMIT + 1

  ghost predicate SendsBounded(c: Context) {
    && (forall i :: 0 <= i < |c.list| ==>
          c.log[Sent(c.list[i].mID)] <= MAX_SENDS * c.log[Removed(c.list[i].mID)] + c.list[i].sends)
    && (forall id :: !InList(c.list, id) ==> c.log[Sent(id)] <= MAX_SENDS * c.log[Removed(id)])
  }

  lemma RemovingBounds(c: Context, i: nat, t: Txn, call: bool)
    requires Sorted(c.list) && SendsBounded(c) && i < |c.list| && c.list[i] == t && t.sends <= MAX_SENDS
    ensures SendsBounded(Removing(c, t, call))
  {
    var n := Removing(c, t, call);
    RemoveIs(c.list, i);
    RemovedList(c.list, i);
    assert n.log[Removed(t.mID)] == c.log[Removed(t.mID)] + 1;
    LoggedRemoval(c, n, i);
  }

  lemma LoggedRemoval(c: Context, n: Context, i: nat)
    requires SendsBounded(c) && i < |c.list| && c.list[i].sends <= MAX_SENDS
    requires n.list == c.list[..i] + c.list[i + 1..]
    requires forall id :: InList(n.list, id) <==> InList(c.list, id) && id != c.list[i].mID
    requires forall id :: n.log[Sent(id)] == c.log[Sent(id)]
    requires forall id :: n.log[Removed(id)] == c.log[Removed(id)] + if id == c.list[i].mID then 1 else 0
    ensures SendsBounded(n)
  {
    forall j | 0 <= j < |n.list|
      ensures n.log[Sent(n.list[j].mID)] <= MAX_SENDS * n.log[Removed(n.list[j].mID)] + n.list[j].sends
    {
      assert n.list[j] == c.list[if j < i then j else j + 1];
    }
  }

  lemma UpdateBounds(c: Context, i: nat, t: Txn, sent: bool, n: Context)
    requires Sorted(c.list) && SendsBounded(c) && i < |c.list| && t.mID == c.list[i].mID
    requires t.sends >= c.list[i].sends + if sent then 1 else 0
    requires n == Context(c.list[i := t], c.log + if sent then multiset{Sent(t.mID)} else multiset{})
    ensures Sorted(n.list) && SendsBounded(n)
  {
    UpdatedList(c.list, i, t);
    forall id
      ensures n.log[Sent(id)] == c.log[Sent(id)] + (if sent && id == t.mID then 1 else 0)
      ensures n.log[Removed(id)] == c.log[Removed(id)]
    {
    }
    forall j | 0 <= j < |n.list|
      ensures n.log[Sent(n.list[j].mID)] <= MAX_SENDS * n.log[Removed(n.list[j].mID)] + n.list[j].sends
    {
      assert n.list[j] == if j == i then t else c.list[j];
      assert j != i ==> c.list[j].mID != t.mID;
    }
    assert InList(c.list, t.mID);
  }

  lemma StartBounds(c: Context, t: Txn, n: Context)
    requires Sorted(c.list) && SendsBounded(c) && !InList(c.list, t.mID)
    requires n == Context(ListAdd(c.list, t), c.log + multiset{Started(t.mID)})
    ensures SendsBounded(n)
  {
    AddedList(c.list, t);
    forall j | 0 <= j < |n.list|
      ensures n.log[Sent(n.list[j].mID)] <= MAX_SENDS * n.log[Removed(n.list[j].mID)] + n.list[j].sends
    {
      if n.list[j] != t {
        assert n.list[j] in c.list;
      }
    }
  }

  lemma SendCounts(t: Txn, clock: int, ser: Serialising)
    requires OnSchedule(t)
    ensures var r := Send(t, clock, ser);
            r.txn.mID == t.mID && r.txn.sends == t.sends + (if r.sent then 1 else 0) && r.txn.sends <= MAX_SENDS
  {
  }

  lemma SendBounds(c: Context, i: nat, r: Sending)
    requires Inv(c) && SendsBounded(c) && i < |c.list| && r.txn.mID == c.list[i].mID
    requires r.txn.sends == c.list[i].sends + (if r.sent then 1 else 0) && r.txn.sends <= MAX_SENDS
    ensures SendsBounded(AfterSend(c, i, r))
  {
    hide SendsBounded;
    var kept := Context(c.list[i := r.txn], c.log + if r.sent then multiset{Sent(r.txn.mID)} else multiset{});
    UpdateBounds(c, i, r.txn, r.sent, kept);
    if r.verdict.Unserialised? || r.verdict.Ends? {
      RemovingBounds(kept, i, r.txn, r.verdict.Ends?);
    }
  }

  lemma ReceiveBounds(c: Context, m: Message, tcp: bool, clock: int)
    requires Inv(c) && SendsBounded(c)
    ensures SendsBounded(AfterReceive(c, m, tcp, clock))
  {
    var k := Concerned(c.list, m, tcp, clock, 0);
    if k < |c.list| {
      hide React, SendsBounded;
      var r := React(c.list[k], m, tcp, clock);
      ReactKeepsSends(c.list[k], m, tcp, clock);
      if !r.Ignores? {
        assert OnSchedule(c.list[k]);
        ReceivedBounds(c, k, r);
      }
    }
  }

  lemma ReactKeepsSends(t: Txn, m: Message, tcp: bool, clock: int)
    ensures var r := React(t, m, tcp, clock); !r.Ignores? ==> r.txn.mID == t.mID && r.txn.sends == t.sends
  {
    hide Finished, Acknowledges;
  }

  lemma ReceivedBounds(c: Context, k: nat, r: Reaction)
    requires Inv(c) && SendsBounded(c) && k < |c.list| && !r.Ignores?
    requires r.txn.mID == c.list[k].mID && r.txn.sends == c.list[k].sends <= MAX_SENDS
    ensures SendsBounded(c.(list := c.list[k := r.txn]))
    ensures SendsBounded(Removing(c.(list := c.list[k := r.txn]), r.txn, true))
  {
    hide SendsBounded;
    var kept := c.(list := c.list[k := r.txn]);
    assert c.log + multiset{} == c.log;
    UpdateBounds(c, k, r.txn, false, kept);
    RemovingBounds(kept, k, r.txn, true);
  }

  lemma StepBounds(c: Context, a: Action, tcp: bool)
    requires Inv(c) && Enabled(c, a) && SendsBounded(c)
    ensures SendsBounded(Step(c, a, tcp))
  {
    match a
    case Start(t) => StartBounds(c, t, Step(c, a, tcp));
    case SendAt(i, clock, ser) =>
      SendCounts(c.list[i], clock, ser);
      SendBounds(c, i, Send(c.list[i], clock, ser));
    case Receive(m, clock) => ReceiveBounds(c, m, tcp, clock);
  }

  lemma {:induction false} TraceBounds(states: seq<Context>, run: seq<Action>, tcp: bool, i: nat)
    requires Trace(states, run, tcp) && i <= |run|
    ensures SendsBounded(states[i])
    decreases i
  {
    if i > 0 {
      TraceBounds(states, run, tcp, i - 1);
      TraceKeepsInv(states, run, tcp, i - 1);
      StepBounds(states[i - 1], run[i - 1], tcp);
    }
  }

  /**
   In any run a message is sent at most COAP_MAX_RETRANSMIT + 1 times for each
   time it was started, 4.01 answers or not.
   */
  lemma SentAtMost(states: seq<Context>, run: seq<Action>, tcp: bool, i: nat, id: nat)
    requires Trace(states, run, tcp) && i <= |run|
    ensures states[i].log[Sent(id)] <= MAX_SENDS * states[i].log[Started(id)]
  {
    TraceKeepsInv(states, run, tcp, i);
    TraceBounds(states, run, tcp, i);
    assert Accounted(states[i], id);
    if InList(states[i].list, id) {
      var j :| 0 <= j < |states[i].list| && states[i].list[j].mID == id;
      assert OnSchedule(states[i].list[j]);
    }
  }

  // ------------------------------------------------------------------
  // One call of transaction_step
  // ------------------------------------------------------------------

  /** How long until a transaction is due, at least 1 */
  function Interval(time: int, now: int): (i: int)
    ensures i >= 1
  {
    if time > now then time - now else 1
  }

  function Shorter(timeout: int, interval: int): int {
    if timeout > interval then interval else timeout
  }

  lemma SendShortens(c: Context, i: nat, clock: int, s: Serialising)
    requires Inv(c) && i < |c.list|
    ensures var r := Send(c.list[i], clock, s);
            var n := AfterSend(c, i, r);
            && Inv(n)
            && (r.verdict.Stays? || r.verdict.Unsized? ==> n.list == c.list[i := r.txn])
            && (r.verdict.Unserialised? || r.verdict.Ends? ==> n.list == c.list[..i] + c.list[i + 1..])
  {
    var r := Send(c.list[i], clock, s);
    SendKeepsInv(c, i, clock, s);
    SendKeepsSchedule(c.list[i], clock, s);
    UpdatedList(c.list, i, r.txn);
    RemoveIs(c.list[i := r.txn], i);
    assert c.list[i := r.txn][..i] + c.list[i := r.txn][i + 1..] == c.list[..i] + c.list[i + 1..];
  }

  /** The loop of transaction_step from place `i` on: the context and the timeout it leaves */
  ghost function StepFrom(c: Context, i: nat, now: int, clock: int, ser: map<nat, Serialising>, timeout: int)
    : (Context, int)
    requires Inv(c) && i <= |c.list|
    decreases |c.list| - i
  {
    if i == |c.list| then (c, timeout)
    else if c.list[i].time <= now then
      var r := Send(c.list[i], clock, Outcome(ser, c.list[i].mID));
      var n := AfterSend(c, i, r);
      SendShortens(c, i, clock, Outcome(ser, c.list[i].mID));
      match r.verdict
      case Stays => StepFrom(n, i + 1, now, clock, ser, Shorter(timeout, Interval(r.txn.time, now)))
      case Unsized => StepFrom(n, i + 1, now, clock, ser, 1)
      case _ => StepFrom(n, i, now, clock, ser, 1)
    else StepFrom(c, i + 1, now, clock, ser, Shorter(timeout, Interval(c.list[i].time, now)))
  }

  function Outcome(ser: map<nat, Serialising>, id: nat): Serialising {
    if id in ser then ser[id] else Serialised
  }

  ghost predicate WakesFor(list: seq<Txn>, n: nat, now: int, timeout: int)
    requires n <= |list|
  {
    forall j :: 0 <= j < n ==> timeout <= Interval(list[j].time, now)
  }

  lemma KeptWakes(list: seq<Txn>, i: nat, t: Txn, now: int, timeout: int)
    requires i < |list| && WakesFor(list, i, now, timeout)
    ensures WakesFor(list[i := t], i + 1, now, Shorter(timeout, Interval(t.time, now)))
  {
  }

  lemma OneWakesForAll(list: seq<Txn>, n: nat, now: int)
    requires n <= |list|
    ensures WakesFor(list, n, now, 1)
  {
  }

  /** The timeout a step leaves is past no transaction still in the list. */
  lemma {:induction false} StepWakes(c: Context, i: nat, now: int, clock: int, ser: map<nat, Serialising>, timeout: int)
    requires Inv(c) && i <= |c.list| && WakesFor(c.list, i, now, timeout)
    ensures var (n, left) := StepFrom(c, i, now, clock, ser, timeout);
            Inv(n) && (left <= timeout || left <= 1) && WakesFor(n.list, |n.list|, now, left)
    decreases |c.list| - i, 1
  {
    if i < |c.list| {
      hide Inv, Send, AfterSend, WakesFor, Interval;
      if c.list[i].time <= now {
        SendWakes(c, i, now, clock, ser, timeout);
      } else {
        assert c.list[i := c.list[i]] == c.list;
        KeptWakes(c.list, i, c.list[i], now, timeout);
        StepWakes(c, i + 1, now, clock, ser, Shorter(timeout, Interval(c.list[i].time, now)));
      }
    }
  }

  lemma {:induction false} SendWakes(c: Context, i: nat, now: int, clock: int, ser: map<nat, Serialising>, timeout: int)
    requires Inv(c) && i < |c.list| && WakesFor(c.list, i, now, timeout) && c.list[i].time <= now
    ensures var (n, left) := StepFrom(c, i, now, clock, ser, timeout);
            Inv(n) && (left <= timeout || left <= 1) && WakesFor(n.list, |n.list|, now, left)
    decreases |c.list| - i, 0
  {
    hide Inv, Send, AfterSend, WakesFor;
    var r := Send(c.list[i], clock, Outcome(ser, c.list[i].mID));
    var n := AfterSend(c, i, r);
    SendShortens(c, i, clock, Outcome(ser, c.list[i].mID));
    match r.verdict
    case Stays =>
      KeptWakes(c.list, i, r.txn, now, timeout);
      StepWakes(n, i + 1, now, clock, ser, Shorter(timeout, Interval(r.txn.time, now)));
    case Unsized =>
      OneWakesForAll(n.list, i + 1, now);
      StepWakes(n, i + 1, now, clock, ser, 1);
    case _ =>
      OneWakesForAll(n.list, i, now);
      StepWakes(n, i, now, clock, ser, 1);
  }

  /** What is left of a transaction after a step: its record, or nothing */
  function Dealt(t: Txn, now: int, clock: int, ser: map<nat, Serialising>): seq<Txn> {
    var r := Send(t, clock, Outcome(ser, t.mID));
    if t.time > now then [t]
    else if r.verdict.Stays? || r.verdict.Unsized? then [r.txn]
    else []
  }

  /** What the end of one transmission, callback or removal adds to the log */
  function Entries(sent: bool, called: bool, removed: bool, id: nat): (l: multiset<Entry>)
    ensures forall x: nat :: l[Sent(x)] == (if sent && x == id then 1 else 0)
    ensures forall x: nat :: l[Called(x)] == (if called && x == id then 1 else 0)
    ensures forall x: nat :: l[Removed(x)] == (if removed && x == id then 1 else 0)
  {
    (if sent then multiset{Sent(id)} else multiset{})
    + (if called then multiset{Called(id)} else multiset{})
    + (if removed then multiset{Removed(id)} else multiset{})
  }

  /** What a step adds to the log for it */
  function DealtLog(t: Txn, now: int, clock: int, ser: map<nat, Serialising>): multiset<Entry> {
    var r := Send(t, clock, Outcome(ser, t.mID));
    if t.time > now then multiset{}
    else
      Entries(r.sent, r.verdict.Ends? && r.txn.callback, r.verdict.Ends? || r.verdict.Unserialised?, r.txn.mID)
  }

  function AllDealt(list: seq<Txn>, now: int, clock: int, ser: map<nat, Serialising>): seq<Txn> {
    if list == [] then [] else Dealt(list[0], now, clock, ser) + AllDealt(list[1..], now, clock, ser)
  }

  function AllLogged(list: seq<Txn>, now: int, clock: int, ser: map<nat, Serialising>): multiset<Entry> {
    if list == [] then multiset{}
    else DealtLog(list[0], now, clock, ser) + AllLogged(list[1..], now, clock, ser)
  }

  /** A step deals with every transaction of the list before it, once, and keeps their order. */
  lemma {:induction false} StepDealsWithAll(
    c: Context, i: nat, now: int, clock: int, ser: map<nat, Serialising>, timeout: int)
    requires Inv(c) && i <= |c.list|
    ensures StepFrom(c, i, now, clock, ser, timeout).0
            == Context(c.list[..i] + AllDealt(c.list[i..], now, clock, ser),
                       c.log + AllLogged(c.list[i..], now, clock, ser))
    decreases |c.list| - i, 1
  {
    hide Inv, Send, AfterSend, Dealt, DealtLog, AllDealt, AllLogged;
    if i == |c.list| {
      NothingToDeal(c, now, clock, ser);
    } else if c.list[i].time <= now {
      SendDeals(c, i, now, clock, ser, timeout);
    } else {
      AllFrom(c.list, i, now, clock, ser);
      NotDue(c.list[i], now, clock, ser);
      StepDealsWithAll(c, i + 1, now, clock, ser, Shorter(timeout, Interval(c.list[i].time, now)));
      PassedOver(c, i, AllDealt(c.list[i + 1..], now, clock, ser), AllLogged(c.list[i + 1..], now, clock, ser));
    }
  }

  lemma NothingToDeal(c: Context, now: int, clock: int, ser: map<nat, Serialising>)
    ensures var n := |c.list|;
            c == Context(c.list[..n] + AllDealt(c.list[n..], now, clock, ser),
                         c.log + AllLogged(c.list[n..], now, clock, ser))
  {
    assert c.list[..|c.list|] + [] == c.list && c.log + multiset{} == c.log;
  }

  lemma PassedOver(c: Context, i: nat, rest: seq<Txn>, log: multiset<Entry>)
    requires i < |c.list|
    ensures Context(c.list[..i + 1] + rest, c.log + log)
            == Context(c.list[..i] + ([c.list[i]] + rest), c.log + (multiset{} + log))
  {
    assert c.list[..i + 1] + rest == c.list[..i] + ([c.list[i]] + rest);
  }

  lemma NotDue(t: Txn, now: int, clock: int, ser: map<nat, Serialising>)
    requires t.time > now
    ensures Dealt(t, now, clock, ser) == [t] && DealtLog(t, now, clock, ser) == multiset{}
  {
  }

  lemma {:induction false} SendDeals(
    c: Context, i: nat, now: int, clock: int, ser: map<nat, Serialising>, timeout: int)
    requires Inv(c) && i < |c.list| && c.list[i].time <= now
    ensures StepFrom(c, i, now, clock, ser, timeout).0
            == Context(c.list[..i] + AllDealt(c.list[i..], now, clock, ser),
                       c.log + AllLogged(c.list[i..], now, clock, ser))
    decreases |c.list| - i, 0
  {
    hide Inv, Send, AfterSend, Dealt, DealtLog, AllDealt, AllLogged;
    var s := Outcome(ser, c.list[i].mID);
    var r := Send(c.list[i], clock, s);
    var n := AfterSend(c, i, r);
    SendShortens(c, i, clock, s);
    OneDealt(c, i, now, clock, ser);
    AllFrom(c.list, i, now, clock, ser);
    if r.verdict.Stays? || r.verdict.Unsized? {
      var left := if r.verdict.Stays? then Shorter(timeout, Interval(r.txn.time, now)) else 1;
      assert n.list[i + 1..] == c.list[i + 1..] && n.list[..i + 1] == c.list[..i] + [r.txn];
      StepDealsWithAll(n, i + 1, now, clock, ser, left);
    } else {
      assert n.list[i..] == c.list[i + 1..] && n.list[..i] == c.list[..i];
      StepDealsWithAll(n, i, now, clock, ser, 1);
    }
  }

  lemma AllFrom(list: seq<Txn>, i: nat, now: int, clock: int, ser: map<nat, Serialising>)
    requires i < |list|
    ensures AllDealt(list[i..], now, clock, ser)
            == Dealt(list[i], now, clock, ser) + AllDealt(list[i + 1..], now, clock, ser)
    ensures AllLogged(list[i..], now, clock, ser)
            == DealtLog(list[i], now, clock, ser) + AllLogged(list[i + 1..], now, clock, ser)
  {
    hide Dealt, DealtLog;
    assert list[i..][1..] == list[i + 1..];
  }

  lemma OneDealt(c: Context, i: nat, now: int, clock: int, ser: map<nat, Serialising>)
    requires Inv(c) && i < |c.list| && c.list[i].time <= now
    ensures var r := Send(c.list[i], clock, Outcome(ser, c.list[i].mID));
            && AfterSend(c, i, r).log == c.log + DealtLog(c.list[i], now, clock, ser)
            && Dealt(c.list[i], now, clock, ser) == if r.verdict.Stays? || r.verdict.Unsized? then [r.txn] else []
  {
    hide Inv, Send;
  }

  /** The sending rules, field by field */
  lemma SendingRules(t: Txn, clock: int, ser: Serialising)
    ensures var r := Send(t, clock, ser);
            && r.txn.mID == t.mID && r.txn.callback == t.callback && r.txn.token == t.token && r.txn.peer == t.peer
            && r.txn.acked == t.acked && r.txn.responseTimeout == t.responseTimeout
    ensures !t.serialised && !ser.Serialised? ==>
              Send(t, clock, ser) == Sending(t, false, if ser.NoSize? then Unsized else Unserialised)
    ensures t.serialised || ser.Serialised? ==>
              var r := Send(t, clock, ser);
              && (r.sent <==> !t.acked && t.counter <= COAP_MAX_RETRANSMIT + 1)
              && r.verdict == (if t.acked || t.counter > COAP_MAX_RETRANSMIT + 1 || (t.counter == 0 && clock < 0)
                               then Ends else Stays)
              && r.txn.sends == t.sends + (if r.sent then 1 else 0)
              && (r.sent && t.counter > 0 ==>
                    && r.txn.counter == t.counter + 1
                    && r.txn.time == t.time + COAP_RESPONSE_TIMEOUT * Pow2(t.counter - 1))
              && (r.sent && t.counter == 0 && clock >= 0 ==>
                    r.txn.counter == 2 && r.txn.firstSent == clock && r.txn.time == clock + COAP_RESPONSE_TIMEOUT)
  {
  }

  lemma {:induction false} NoneDealt(list: seq<Txn>, now: int, clock: int, ser: map<nat, Serialising>, id: nat)
    requires forall j :: 0 <= j < |list| ==> list[j].mID != id
    ensures !InList(AllDealt(list, now, clock, ser), id)
    ensures var l := AllLogged(list, now, clock, ser); l[Sent(id)] == l[Called(id)] == l[Removed(id)] == 0
  {
    hide Dealt, DealtLog;
    if list != [] {
      DealtNames(list[0], now, clock, ser, id);
      NoneDealt(list[1..], now, clock, ser, id);
      NotInBoth(Dealt(list[0], now, clock, ser), AllDealt(list[1..], now, clock, ser), id);
    }
  }

  lemma DealtNames(t: Txn, now: int, clock: int, ser: map<nat, Serialising>, id: nat)
    requires t.mID != id
    ensures forall u :: u in Dealt(t, now, clock, ser) ==> u.mID != id
    ensures var l := DealtLog(t, now, clock, ser); l[Sent(id)] == l[Called(id)] == l[Removed(id)] == 0
  {
    hide Send, Entries;
    NamesKept(t, clock, Outcome(ser, t.mID));
  }

  lemma NamesKept(t: Txn, clock: int, ser: Serialising)
    ensures Send(t, clock, ser).txn.mID == t.mID && Send(t, clock, ser).txn.callback == t.callback
  {
  }

  lemma DealtSelf(t: Txn, now: int, clock: int, ser: map<nat, Serialising>)
    ensures |Dealt(t, now, clock, ser)| <= 1
    ensures forall u :: u in Dealt(t, now, clock, ser) ==> u.mID == t.mID
  {
    hide Send;
    NamesKept(t, clock, Outcome(ser, t.mID));
  }

  lemma {:induction false} ItsShare(list: seq<Txn>, i: nat, now: int, clock: int, ser: map<nat, Serialising>)
    requires Sorted(list) && i < |list|
    ensures var t, all, l := list[i], AllDealt(list, now, clock, ser), AllLogged(list, now, clock, ser);
            var mine, log := Dealt(t, now, clock, ser), DealtLog(t, now, clock, ser);
            && (mine != [] ==> mine[0] in all) && (mine == [] ==> !InList(all, t.mID))
            && l[Sent(t.mID)] == log[Sent(t.mID)] && l[Called(t.mID)] == log[Called(t.mID)]
            && l[Removed(t.mID)] == log[Removed(t.mID)]
  {
    hide Dealt, DealtLog;
    var t, first, rest := list[i], Dealt(list[0], now, clock, ser), AllDealt(list[1..], now, clock, ser);
    if i == 0 {
      DealtSelf(t, now, clock, ser);
      LaterIDs(list, t.mID);
      NoneDealt(list[1..], now, clock, ser, t.mID);
      NotInBoth(first, rest, t.mID);
    } else {
      assert list[1..][i - 1] == t && list[0].mID != t.mID;
      DealtNames(list[0], now, clock, ser, t.mID);
      ItsShare(list[1..], i - 1, now, clock, ser);
      NotInBoth(first, rest, t.mID);
    }
  }

  lemma LaterIDs(list: seq<Txn>, id: nat)
    requires Sorted(list) && list != [] && id == list[0].mID
    ensures forall j :: 0 <= j < |list[1..]| ==> list[1..][j].mID != id
  {
  }

  lemma NotInBoth(a: seq<Txn>, b: seq<Txn>, id: nat)
    ensures (forall x :: x in a ==> x.mID != id) && !InList(b, id) ==> !InList(a + b, id)
    ensures a == [] ==> a + b == b
    ensures forall x :: x in a || x in b ==> x in a + b
  {
  }

  /**
   What one call does to a transaction: if it is not due it is as it was; if it
   is due it is passed once to the sending rules, and is sent once and still in
   the list, or could not be sized and is as it was, or is off the list.
   */
  lemma EachDueOnce(c: Context, i: nat, now: int, clock: int, ser: map<nat, Serialising>, timeout: int)
    requires Inv(c) && i < |c.list|
    ensures var n, t := StepFrom(c, 0, now, clock, ser, timeout).0, c.list[i];
            var r, id := Send(t, clock, Outcome(ser, t.mID)), t.mID;
            && Sorted(n.list)
            && (t.time > now || r.verdict.Unsized? ==>
                  && t in n.list && n.log[Sent(id)] == c.log[Sent(id)] && n.log[Removed(id)] == c.log[Removed(id)])
            && (t.time <= now && r.verdict.Stays? ==>
                  && r.txn in n.list && r.txn.mID == id && r.txn.sends == t.sends + 1
                  && n.log[Sent(id)] == c.log[Sent(id)] + 1 && n.log[Removed(id)] == c.log[Removed(id)])
            && (t.time <= now && (r.verdict.Ends? || r.verdict.Unserialised?) ==>
                  && !InList(n.list, id) && n.log[Removed(id)] == c.log[Removed(id)] + 1
                  && n.log[Called(id)] == c.log[Called(id)] + (if r.verdict.Ends? && t.callback then 1 else 0)
                  && n.log[Sent(id)] == c.log[Sent(id)] + if r.sent then 1 else 0)
  {
    hide Send, StepFrom, AllDealt, AllLogged, Dealt, DealtLog, WakesFor;
    StepDealsWithAll(c, 0, now, clock, ser, timeout);
    assert c.list[..0] + AllDealt(c.list, now, clock, ser) == AllDealt(c.list, now, clock, ser);
    assert c.list[0..] == c.list;
    ItsShare(c.list, i, now, clock, ser);
    StepKeepsList(c, now, clock, ser, timeout);
    DealtCases(c.list[i], now, clock, ser);
  }

  lemma StepKeepsList(c: Context, now: int, clock: int, ser: map<nat, Serialising>, timeout: int)
    requires Inv(c)
    ensures Inv(StepFrom(c, 0, now, clock, ser, timeout).0)
  {
    StepWakes(c, 0, now, clock, ser, timeout);
  }

  lemma DealtCases(t: Txn, now: int, clock: int, ser: map<nat, Serialising>)
    ensures var r, id, mine, log := Send(t, clock, Outcome(ser, t.mID)), t.mID, Dealt(t, now, clock, ser),
                                    DealtLog(t, now, clock, ser);
            && (t.time > now || r.verdict.Unsized? ==>
                  mine == [t] && log[Sent(id)] == log[Called(id)] == log[Removed(id)] == 0)
            && (t.time <= now && r.verdict.Stays? ==>
                  && mine == [r.txn] && r.txn.mID == id && r.txn.sends == t.sends + 1
                  && log[Sent(id)] == 1 && log[Called(id)] == log[Removed(id)] == 0)
            && (t.time <= now && (r.verdict.Ends? || r.verdict.Unserialised?) ==>
                  && mine == [] && log[Removed(id)] == 1
                  && log[Called(id)] == (if r.verdict.Ends? && t.callback then 1 else 0)
                  && log[Sent(id)] == if r.sent then 1 else 0)
  {
    hide Send, Entries;
    SendingRules(t, clock, Outcome(ser, t.mID));
  }

  /** What a message from its peer does to a transaction, field by field */
  lemma Reactions(t: Txn, m: Message, tcp: bool, clock: int)
    ensures var acks := !t.acked && (((m.kind.ACK? || m.kind.RST?) && m.mid == t.mID) || (m.kind.CON? && tcp));
            var answers := if t.response || t.token.None? then t.acked || acks else t.token.value == m.token;
            var reset := acks && m.kind.RST?;
            && (m.from != t.peer || (!acks && !answers) ==> React(t, m, tcp, clock).Ignores?)
            && (m.from == t.peer && (reset || (answers && !(m.unauthorized && t.counter < COAP_MAX_RETRANSMIT))) ==>
                  React(t, m, tcp, clock) == Answered(t.(acked := t.acked || acks)))
            && (m.from == t.peer && !reset && answers && m.unauthorized && t.counter < COAP_MAX_RETRANSMIT ==>
                  React(t, m, tcp, clock)
                  == Delayed(t.(acked := false, time := t.time + COAP_RESPONSE_TIMEOUT, denied := t.denied + 1)))
            && (m.from == t.peer && !reset && !answers && acks ==>
                  && React(t, m, tcp, clock).Delayed?
                  && var u := React(t, m, tcp, clock).txn;
                     u == t.(acked := true, rescheduled := true, time := u.time))
  {
  }

  /**
   What a message does to the list: the first transaction it concerns is
   updated, or called and taken out; the others stay, in order.
   */
  lemma ReceiveDeals(c: Context, m: Message, tcp: bool, clock: int)
    requires Inv(c)
    ensures var k, n := Concerned(c.list, m, tcp, clock, 0), AfterReceive(c, m, tcp, clock);
            && (k == |c.list| ==> n == c)
            && (k < |c.list| && React(c.list[k], m, tcp, clock).Delayed? ==>
                  n.list == c.list[k := React(c.list[k], m, tcp, clock).txn] && n.log == c.log)
            && (k < |c.list| && React(c.list[k], m, tcp, clock).Answered? ==>
                  && n.list == c.list[..k] + c.list[k + 1..]
                  && n.log == c.log + Entries(false, c.list[k].callback, true, c.list[k].mID))
  {
    hide React, Entries;
    var k := Concerned(c.list, m, tcp, clock, 0);
    if k < |c.list| && React(c.list[k], m, tcp, clock).Answered? {
      var t := React(c.list[k], m, tcp, clock).txn;
      ReactKeepsNames(c.list[k], m, tcp, clock);
      UpdatedList(c.list, k, t);
      RemoveIs(c.list[k := t], k);
      assert c.list[k := t][..k] + c.list[k := t][k + 1..] == c.list[..k] + c.list[k + 1..];
      CalledAndRemoved(c.log, t.callback, t.mID);
    }
  }

  lemma CalledAndRemoved(log: multiset<Entry>, called: bool, id: nat)
    ensures log + (if called then multiset{Called(id)} else multiset{}) + multiset{Removed(id)}
            == log + Entries(false, called, true, id)
  {
  }

  /**
   An acknowledged request waits for its response, separately sent, as long as
   asked, or 2 seconds for each try and one more; then it is given up, and it
   is never sent again.
   */
  lemma SeparateResponse(t: Txn, m: Message, tcp: bool, clock: int, now: int, later: int, ser: map<nat, Serialising>)
    requires Acknowledges(t, m, tcp) && m.from == t.peer && !m.kind.RST? && !Finished(t.(acked := true), m)
    requires t.serialised && clock >= 0
    ensures var r := React(t, m, tcp, clock);
            && r.Delayed? && r.txn.acked
            && r.txn.time == clock + (if t.responseTimeout > 0 then t.responseTimeout else 2 * t.counter)
            && (now < r.txn.time ==> Dealt(r.txn, now, later, ser) == [r.txn])
            && (now >= r.txn.time ==>
                  && Dealt(r.txn, now, later, ser) == []
                  && DealtLog(r.txn, now, later, ser)[Sent(t.mID)] == 0
                  && DealtLog(r.txn, now, later, ser)[Removed(t.mID)] == 1)
  {
  }

  // ------------------------------------------------------------------
  // The context object
  // ------------------------------------------------------------------

  class Client {
    const tcp: bool
    var transactionList: seq<Txn>
    ghost var log: multiset<Entry>

    ghost function View(): Context
      reads this
    {
      Context(transactionList, log)
    }

    constructor (tcp: bool)
      ensures View() == Context([], multiset{}) && this.tcp == tcp
    {
      this.tcp, transactionList, log := tcp, [], multiset{};
    }

    /** lwm2m_list_remove on the list of transactions */
    method ListRm(id: nat)
      modifies this`transactionList
      ensures transactionList == ListRemove(old(transactionList), id)
    {
      var list := transactionList;
      if list == [] {
        return;
      }
      if list[0].mID == id {
        transactionList := list[1..];
        return;
      }
      var p := 1;
      while p < |list| && list[p].mID < id
        invariant 1 <= p <= |list| && 1 + PlaceBehind(list[1..], id) == p + PlaceBehind(list[p..], id)
      {
        assert list[p..][1..] == list[p + 1..];
        p := p + 1;
      }
      if p < |list| && list[p].mID == id {
        transactionList := list[..p] + list[p + 1..];
      }
    }

    /** The callback, if one is to be called, and transaction_remove */
    method Remove(t: Txn, call: bool)
      modifies this
      ensures View() == old(Removing(View(), t, call))
    {
      if call && t.callback {
        log := log + multiset{Called(t.mID)};
      }
      ListRm(t.mID);
      log := log + multiset{Removed(t.mID)};
    }

    /** The part of transaction_send after serialising: whether to transmit, and when to come back */
    method Attempt(t: Txn, clock: int) returns (u: Txn, sent: bool, ended: bool)
      ensures Sending(u, sent, if ended then Ends else Stays) == Transmit(t, clock)
    {
      u, sent := t, false;
      var maxRetriesReached := false;
      if !u.acked {
        var timeout := 0;
        if u.counter == 0 {
          if clock >= 0 {
            u := u.(time := clock + COAP_RESPONSE_TIMEOUT, counter := 1,
                    firstSent := clock, denied := 0, rescheduled := false);
          } else {
            maxRetriesReached := true;
          }
        } else {
          timeout := COAP_RESPONSE_TIMEOUT * Pow2(u.counter - 1);
        }
        if COAP_MAX_RETRANSMIT + 1 >= u.counter {
          u := u.(time := u.time + timeout, counter := u.counter + 1, sends := u.sends + 1);
          sent := true;
        } else {
          maxRetriesReached := true;
        }
      }
      ended := u.acked || maxRetriesReached;
    }

    /** transaction_send on the transaction at place `i` */
    method SendTransaction(i: nat, clock: int, ser: Serialising) returns (code: int)
      requires i < |transactionList|
      modifies this
      ensures View() == old(AfterSend(View(), i, Send(transactionList[i], clock, ser)))
      ensures code == match old(Send(transactionList[i], clock, ser)).verdict
                      case Stays => 0 case Unsized => 160 case Unserialised => 160 case Ends => -1
    {
      hide Transmit, ListRemove;
      var t := transactionList[i];
      assert transactionList[i := t] == transactionList && log + multiset{} == log;
      if !t.serialised {
        if ser.NoSize? {
          return 160;
        }
        if ser.Failed? {
          Remove(t, false);
          return 160;
        }
      }
      var u, sent, ended := Attempt(t.(serialised := true), clock);
      transactionList := transactionList[i := u];
      log := log + if sent then multiset{Sent(u.mID)} else multiset{};
      if ended {
        Remove(u, true);
        return -1;
      }
      return 0;
    }

    method Acknowledge(t: Txn, m: Message) returns (found: bool)
      ensures found == Acknowledges(t, m, tcp)
    {
      found := false;
      if !t.acked {
        if m.kind.ACK? || m.kind.RST? {
          if t.mID == m.mid {
            found := true;
          }
        } else if m.kind.CON? && tcp {
          found := true;
        }
      }
    }

    method Reschedule(t: Txn, clock: int) returns (u: Txn)
      ensures u == Rescheduled(t, clock)
    {
      var time := t.time;
      if clock >= 0 {
        time := clock;
      }
      if t.responseTimeout > 0 {
        time := time + t.responseTimeout;
      } else {
        time := time + COAP_RESPONSE_TIMEOUT * t.counter;
      }
      u := t.(time := time, rescheduled := true);
    }

    /** What transaction_handleResponse finds a message to mean for a transaction, its record updated */
    method Consider(was: Txn, m: Message, clock: int) returns (r: Reaction)
      ensures r == React(was, m, tcp, clock)
    {
      hide Finished, Acknowledges, Rescheduled;
      r := Ignores;
      if m.from == was.peer {
        var t := was;
        var found := Acknowledge(was, m);
        var reset := found && m.kind.RST?;
        if found {
          t := t.(acked := true);
        }
        if reset || Finished(t, m) {
          if !reset && m.unauthorized && COAP_MAX_RETRANSMIT > t.counter {
            r := Delayed(t.(acked := false, time := t.time + COAP_RESPONSE_TIMEOUT, denied := t.denied + 1));
          } else {
            r := Answered(t);
          }
        } else if found {
          t := Reschedule(t, clock);
          r := Delayed(t);
        }
      }
    }

    /** transaction_handleResponse */
    method HandleResponse(m: Message, clock: int) returns (found: bool)
      modifies this
      ensures View() == AfterReceive(old(View()), m, tcp, clock)
      ensures found == (Concerned(old(transactionList), m, tcp, clock, 0) < old(|transactionList|))
    {
      hide React, ListRemove;
      var i := 0;
      while i < |transactionList|
        invariant i <= |transactionList| && View() == old(View())
        invariant Concerned(transactionList, m, tcp, clock, 0) == Concerned(transactionList, m, tcp, clock, i)
      {
        var r := Consider(transactionList[i], m, clock);
        match r
        case Ignores => i := i + 1;
        case Delayed(t) =>
          transactionList := transactionList[i := t];
          return true;
        case Answered(t) =>
          transactionList := transactionList[i := t];
          Remove(t, true);
          return true;
      }
      return false;
    }

    /** transaction_step; `ser` says how serialising goes for each message ID */
    method Step(now: int, timeout: int, clock: int, ser: map<nat, Serialising>) returns (left: int)
      requires Inv(View())
      modifies this
      ensures (View(), left) == StepFrom(old(View()), 0, now, clock, ser, timeout)
      ensures Inv(View()) && (left <= timeout || left <= 1)
      ensures forall j :: 0 <= j < |transactionList| ==> left <= Interval(transactionList[j].time, now)
      ensures transactionList == AllDealt(old(transactionList), now, clock, ser)
      ensures log == old(log) + AllLogged(old(transactionList), now, clock, ser)
    {
      ghost var start := View();
      StepDealsWithAll(start, 0, now, clock, ser, timeout);
      assert start.list[..0] + AllDealt(start.list[0..], now, clock, ser) == AllDealt(start.list, now, clock, ser);
      assert start.list[0..] == start.list;
      StepWakes(start, 0, now, clock, ser, timeout);
      left := timeout;
      var i: nat := 0;
      while i < |transactionList|
        invariant i <= |transactionList| && Inv(View())
        invariant StepFrom(View(), i, now, clock, ser, left) == StepFrom(start, 0, now, clock, ser, timeout)
        decreases |transactionList| - i
      {
        i, left := StepOne(i, now, left, clock, ser);
      }
    }

    /** One round of the loop of transaction_step */
    method StepOne(i: nat, now: int, timeout: int, clock: int, ser: map<nat, Serialising>)
      returns (next: nat, left: int)
      requires Inv(View()) && i < |transactionList|
      modifies this
      ensures Inv(View()) && next <= |transactionList| && |transactionList| - next < old(|transactionList|) - i
      ensures StepFrom(View(), next, now, clock, ser, left) == StepFrom(old(View()), i, now, clock, ser, timeout)
    {
      var t := transactionList[i];
      var code := 0;
      ghost var s := Outcome(ser, t.mID);
      SendShortens(View(), i, clock, s);
      var before := |transactionList|;
      if t.time <= now {
        code := SendTransaction(i, clock, Outcome(ser, t.mID));
      }
      next := i + 1;
      if code == 0 {
        left := Shorter(timeout, Interval(transactionList[i].time, now));
      } else {
        left := 1;
        if |transactionList| < before {
          next := i;
        }
      }
    }
  }
}
