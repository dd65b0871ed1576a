/**
 Queue sets (configUSE_QUEUE_SETS) of freertos/source/queue.c: a queue of
 queue handles, sent one handle for every item its members take in.

 A handle is the member's place in `members`. The last four fields of a member
 are what has become of its items, kept for the proofs: `selected` handles were
 taken from the set and their items are still to be read; `counted` sends by
 interrupts were taken in by the lock count since it last stood at 0; `missed`
 items were counted and never announced; `dropped` notifications found the set
 full.
 */
module QueueSet {
  import opened Bytes
  import opened LockCount

  datatype Member = Member(
    waiting: nat,
    length: nat,
    txLock: int,
    selected: nat,
    counted: nat,
    missed: int,
    dropped: nat)

  datatype State = State(members: seq<Member>, handles: seq<nat>, capacity: nat)

  // ------------------------------------------------------------------
  // Steps
  // ------------------------------------------------------------------

  function Update(s: State, i: nat, m: Member): State
    requires i < |s.members|
  {
    s.(members := s.members[i := m])
  }

  /** prvNotifyQueueSetContainer */
  function Notified(s: State, i: nat, toFront: bool): State
    requires i < |s.members|
  {
    if |s.handles| < s.capacity then
      s.(handles := if toFront then [i] + s.handles else s.handles + [i])
    else Update(s, i, s.members[i].(dropped := s.members[i].dropped + 1))
  }

  /** `n` notifications in a row, as prvUnlockQueue sends them. */
  function NotifiedTimes(s: State, i: nat, n: nat): (r: State)
    requires i < |s.members|
    ensures |r.members| == |s.members|
    decreases n
  {
    if n == 0 then s else NotifiedTimes(Notified(s, i, false), i, n - 1)
  }

  datatype Action =
    | Send(i: nat, toFront: bool)      // xQueueGenericSend: the copy and the notification
    | IsrSend(i: nat, toFront: bool)   // xQueueGenericSendFromISR, xQueueGiveFromISR
    | Lock(i: nat)                     // prvLockQueue on a member
    | Unlock(i: nat)                   // prvUnlockQueue on a member
    | Select                           // xQueueSelectFromSet
    | Read(i: nat)                     // receiving from a member that was selected

  /** The code's own tests, and reading only what was selected. */
  predicate Enabled(s: State, a: Action) {
    match a
    case Send(i, _) => i < |s.members| && s.members[i].waiting < s.members[i].length
    case IsrSend(i, _) => i < |s.members| && s.members[i].waiting < s.members[i].length
    case Lock(i) => i < |s.members|
    case Unlock(i) => i < |s.members|
    case Select => s.handles != []
    case Read(i) => i < |s.members| && s.members[i].selected > 0 && s.members[i].waiting > 0
  }

  /** A usage rule: at most `limit` interrupts send to a member during one lock. */
  predicate WithinLimit(s: State, a: Action, limit: nat)
    requires Enabled(s, a)
  {
    a.IsrSend? ==> Within(s.members[a.i].txLock, limit)
  }

  /** The item is in, its handle is not yet. */
  function CountedIn(s: State, i: nat): State
    requires i < |s.members|
  {
    Update(s, i, s.members[i].(waiting := s.members[i].waiting + 1))
  }

  /** prvLockQueue; what a count that reads as unlocked had taken in is forgotten. */
  function LockedMember(m: Member): Member {
    if m.txLock == UNLOCKED then m.(txLock := 0, counted := 0, missed := m.missed + m.counted) else m
  }

  /** prvUnlockQueue, once it has announced what the count shows */
  function UnlockedMember(m: Member): Member {
    m.(txLock := UNLOCKED, counted := 0, missed := m.missed + m.counted - Positive(m.txLock))
  }

  function Step(s: State, a: Action): State
    requires Enabled(s, a) && HandlesKnown(s)
  {
    match a
    case Send(i, toFront) => Notified(CountedIn(s, i), i, toFront)
    case IsrSend(i, toFront) =>
      var m := s.members[i];
      if m.txLock == UNLOCKED then Notified(CountedIn(s, i), i, toFront)
      else Update(s, i, m.(waiting := m.waiting + 1, txLock := Incremented(m.txLock), counted := m.counted + 1))
    case Lock(i) => Update(s, i, LockedMember(s.members[i]))
    case Unlock(i) =>
      var n := NotifiedTimes(s, i, Positive(s.members[i].txLock));
      Update(n, i, UnlockedMember(n.members[i]))
    case Select =>
      var h := s.handles[0];
      Update(s.(handles := s.handles[1..]), h, s.members[h].(selected := s.members[h].selected + 1))
    case Read(i) =>
      Update(s, i, s.members[i].(waiting := s.members[i].waiting - 1, selected := s.members[i].selected - 1))
  }

  // ------------------------------------------------------------------
  // Counting
  // ------------------------------------------------------------------

  predicate HandlesKnown(s: State) {
    forall k :: 0 <= k < |s.handles| ==> s.handles[k] < |s.members|
  }

  function Copies(handles: seq<nat>, i: nat): nat {
    multiset(handles)[i]
  }

  function TotalCopies(handles: seq<nat>, n: nat): nat {
    if n == 0 then 0 else TotalCopies(handles, n - 1) + Copies(handles, n - 1)
  }

  function TotalLength(ms: seq<Member>): nat {
    if ms == [] then 0 else TotalLength(ms[..|ms| - 1]) + ms[|ms| - 1].length
  }

  lemma {:induction false} OneMoreHandle(rest: seq<nat>, h: nat, n: nat)
    ensures TotalCopies([h] + rest, n) == TotalCopies(rest, n) + if h < n then 1 else 0
  {
    if n > 0 {
      OneMoreHandle(rest, h, n - 1);
      assert multiset([h] + rest) == multiset{h} + multiset(rest);
    }
  }

  /** Every handle in the set is a copy of some member's. */
  lemma {:induction false} CopiesAddUp(handles: seq<nat>, n: nat)
    requires forall k :: 0 <= k < |handles| ==> handles[k] < n
    ensures TotalCopies(handles, n) == |handles|
  {
    if handles == [] {
      NoCopies(n);
    } else {
      assert handles == [handles[0]] + handles[1..];
      CopiesAddUp(handles[1..], n);
      OneMoreHandle(handles[1..], handles[0], n);
    }
  }

  lemma {:induction false} NoCopies(n: nat)
    ensures TotalCopies([], n) == 0
  {
    if n > 0 {
      NoCopies(n - 1);
    }
  }

  /** If no member has more copies than places, the set holds at most all their places, less any shortfall. */
  lemma {:induction false} CopiesWithinLength(handles: seq<nat>, ms: seq<Member>, i: nat)
    requires forall k :: 0 <= k < |ms| ==> Copies(handles, k) <= ms[k].length
    requires i < |ms| ==> Copies(handles, i) < ms[i].length
    ensures TotalCopies(handles, |ms|) + (if i < |ms| then 1 else 0) <= TotalLength(ms)
  {
    if ms != [] {
      var init := ms[..|ms| - 1];
      assert forall k :: 0 <= k < |init| ==> init[k] == ms[k];
      CopiesWithinLength(handles, init, i);
    }
  }

  /** And if every member has as many copies as places, it holds all their places. */
  lemma {:induction false} CopiesFillLength(handles: seq<nat>, ms: seq<Member>)
    requires forall k :: 0 <= k < |ms| ==> Copies(handles, k) == ms[k].length
    ensures TotalCopies(handles, |ms|) == TotalLength(ms)
  {
    if ms != [] {
      var init := ms[..|ms| - 1];
      assert forall k :: 0 <= k < |init| ==> init[k] == ms[k];
      CopiesFillLength(handles, init);
    }
  }

  lemma {:induction false} SameLengths(ms: seq<Member>, ns: seq<Member>)
    requires |ms| == |ns| && forall k :: 0 <= k < |ms| ==> ms[k].length == ns[k].length
    ensures TotalLength(ms) == TotalLength(ns)
  {
    if ms != [] {
      SameLengths(ms[..|ms| - 1], ns[..|ns| - 1]);
    }
  }

  // ------------------------------------------------------------------
  // Conservation
  // ------------------------------------------------------------------

  /** The count shows what it has taken in, as far as 8 bits go. */
  predicate CountsRight(m: Member) {
    m.counted <= 255 && m.missed >= 0 && (m.txLock == CountAfter(m.counted) || (m.txLock == UNLOCKED && m.counted == 0))
  }

  /** Copies in the set, sends still counted, items selected but unread, missed and dropped ones are all the items. */
  ghost predicate Balanced(handles: seq<nat>, i: nat, m: Member) {
    && CountsRight(m)
    && Copies(handles, i) + m.counted + m.selected + m.missed + m.dropped == m.waiting <= m.length
  }

  ghost predicate Conserved(s: State) {
    HandlesKnown(s) && forall i :: 0 <= i < |s.members| ==> Balanced(s.handles, i, s.members[i])
  }

  /** What a step leaves as it is */
  ghost predicate SameShape(s: State, n: State) {
    && n.capacity == s.capacity && |n.members| == |s.members|
    && forall k :: 0 <= k < |s.members| ==> n.members[k].length == s.members[k].length
  }

  /** `n` notifications: `d` of them dropped, and only for want of room. */
  lemma {:induction false} NotifiedTimesIs(s: State, i: nat, n: nat) returns (d: nat)
    requires i < |s.members| && HandlesKnown(s)
    ensures d <= n && (d > 0 ==> |NotifiedTimes(s, i, n).handles| >= s.capacity)
    ensures |NotifiedTimes(s, i, n).handles| == |s.handles| + n - d
    ensures var r := NotifiedTimes(s, i, n);
            && r.members == s.members[i := s.members[i].(dropped := s.members[i].dropped + d)]
            && r.capacity == s.capacity && HandlesKnown(r)
            && (|s.handles| <= s.capacity ==> |r.handles| <= r.capacity)
            && forall k: nat :: Copies(r.handles, k) == Copies(s.handles, k) + if k == i then n - d else 0
    decreases n
  {
    d := 0;
    if n > 0 {
      d := NotifiedTimesIs(Notified(s, i, false), i, n - 1);
      NotifiedIs(s, i, false);
      d := d + if |s.handles| < s.capacity then 0 else 1;
      MoreHandles(Notified(s, i, false), i, n - 1);
    }
  }

  lemma NotifiedIs(s: State, i: nat, toFront: bool)
    requires i < |s.members| && HandlesKnown(s)
    ensures var r, d := Notified(s, i, toFront), if |s.handles| < s.capacity then 0 else 1;
            && r.members == s.members[i := s.members[i].(dropped := s.members[i].dropped + d)]
            && r.capacity == s.capacity && HandlesKnown(r) && |r.handles| == |s.handles| + 1 - d
            && forall k: nat :: Copies(r.handles, k) == Copies(s.handles, k) + if k == i then 1 - d else 0
  {
    assert multiset([i] + s.handles) == multiset{i} + multiset(s.handles);
    assert multiset(s.handles + [i]) == multiset{i} + multiset(s.handles);
  }

  lemma {:induction false} MoreHandles(s: State, i: nat, n: nat)
    requires i < |s.members|
    ensures |NotifiedTimes(s, i, n).handles| >= |s.handles|
    decreases n
  {
    if n > 0 {
      MoreHandles(Notified(s, i, false), i, n - 1);
    }
  }

  /** A change to one member and its copies that keeps it balanced keeps all so. */
  lemma OneMemberChanges(s: State, n: State, i: nat, m: Member)
    requires Conserved(s) && i < |s.members| && n.members == s.members[i := m] && HandlesKnown(n)
    requires Balanced(n.handles, i, m)
    requires forall k: nat :: k != i ==> Copies(n.handles, k) == Copies(s.handles, k)
    ensures Conserved(n)
  {
    forall k | 0 <= k < |n.members|
      ensures Balanced(n.handles, k, n.members[k])
    {
      assert Balanced(s.handles, k, s.members[k]);
    }
  }

  lemma SendConserves(s: State, i: nat, toFront: bool)
    requires Conserved(s) && Enabled(s, Send(i, toFront))
    ensures Conserved(Step(s, Send(i, toFront))) && SameShape(s, Step(s, Send(i, toFront)))
  {
    var n := Step(s, Send(i, toFront));
    assert Balanced(s.handles, i, s.members[i]);
    NotifiedIs(CountedIn(s, i), i, toFront);
    OneMemberChanges(s, n, i, n.members[i]);
  }

  lemma IsrSendConserves(s: State, i: nat, toFront: bool)
    requires Conserved(s) && Enabled(s, IsrSend(i, toFront))
    ensures Conserved(Step(s, IsrSend(i, toFront))) && SameShape(s, Step(s, IsrSend(i, toFront)))
  {
    var m := s.members[i];
    assert Balanced(s.handles, i, m);
    if m.txLock == UNLOCKED {
      SendConserves(s, i, toFront);
    } else {
      var n := Step(s, IsrSend(i, toFront));
      CountOneMore(m.counted);
      OneMemberChanges(s, n, i, n.members[i]);
    }
  }

  lemma UnlockConserves(s: State, i: nat)
    requires Conserved(s) && i < |s.members|
    ensures Conserved(Step(s, Unlock(i))) && SameShape(s, Step(s, Unlock(i)))
  {
    var n := Step(s, Unlock(i));
    assert Balanced(s.handles, i, s.members[i]);
    var d := NotifiedTimesIs(s, i, Positive(s.members[i].txLock));
    OneMemberChanges(s, n, i, n.members[i]);
  }

  lemma LockConserves(s: State, i: nat)
    requires Conserved(s) && i < |s.members|
    ensures Conserved(Step(s, Lock(i))) && SameShape(s, Step(s, Lock(i)))
  {
    assert Balanced(s.handles, i, s.members[i]);
    OneMemberChanges(s, Step(s, Lock(i)), i, LockedMember(s.members[i]));
  }

  lemma ReadConserves(s: State, i: nat)
    requires Conserved(s) && Enabled(s, Read(i))
    ensures Conserved(Step(s, Read(i))) && SameShape(s, Step(s, Read(i)))
  {
    assert Balanced(s.handles, i, s.members[i]);
    OneMemberChanges(s, Step(s, Read(i)), i, Step(s, Read(i)).members[i]);
  }

  /** A selected handle names a member with an unread item. */
  lemma SelectConserves(s: State)
    requires Conserved(s) && s.handles != []
    ensures Conserved(Step(s, Select)) && SameShape(s, Step(s, Select))
    ensures Step(s, Select).members[s.handles[0]].waiting > 0
  {
    var h, n := s.handles[0], Step(s, Select);
    TakingOneCopy(s.handles);
    assert Balanced(s.handles, h, s.members[h]);
    OneMemberChanges(s, n, h, n.members[h]);
  }

  lemma TakingOneCopy(handles: seq<nat>)
    requires handles != []
    ensures forall k: nat :: Copies(handles, k) == Copies(handles[1..], k) + if k == handles[0] then 1 else 0
    ensures forall k :: 0 <= k < |handles| - 1 ==> handles[1..][k] == handles[k + 1]
  {
    assert handles == [handles[0]] + handles[1..];
    assert multiset(handles) == multiset{handles[0]} + multiset(handles[1..]);
  }

  /** Every operation, the 8-bit count wrapping or not, keeps account of every item. */
  lemma StepConserves(s: State, a: Action)
    requires Conserved(s) && Enabled(s, a)
    ensures Conserved(Step(s, a)) && SameShape(s, Step(s, a))
  {
    match a
    case Send(i, toFront) => SendConserves(s, i, toFront);
    case IsrSend(i, toFront) => IsrSendConserves(s, i, toFront);
    case Lock(i) => LockConserves(s, i);
    case Unlock(i) => UnlockConserves(s, i);
    case Select => SelectConserves(s);
    case Read(i) => ReadConserves(s, i);
  }

  // ------------------------------------------------------------------
  // Room for every notification
  // ------------------------------------------------------------------

  ghost predicate BigEnough(s: State) {
    TotalLength(s.members) <= s.capacity
  }

  ghost predicate NoneDropped(s: State) {
    forall i :: 0 <= i < |s.members| ==> s.members[i].dropped == 0
  }

  lemma StaysBigEnough(s: State, n: State)
    requires BigEnough(s) && SameShape(s, n)
    ensures BigEnough(n)
  {
    SameLengths(s.members, n.members);
  }

  /** A notification is dropped only if the set is full afterwards, too. */
  lemma DropsWhenFull(s: State, a: Action, i: nat)
    requires HandlesKnown(s) && Enabled(s, a) && i < |s.members| == |Step(s, a).members|
    ensures Step(s, a).members[i].dropped > s.members[i].dropped ==> |Step(s, a).handles| >= s.capacity
  {
    match a
    case Unlock(j) =>
      var d := NotifiedTimesIs(s, j, Positive(s.members[j].txLock));
    case Send(_, _) => case IsrSend(_, _) => case Lock(_) => case Select => case Read(_) =>
  }

  /** A big enough set that is full has dropped nothing: its members have no more items to announce. */
  lemma FullWithoutDrops(s: State, i: nat)
    requires Conserved(s) && BigEnough(s) && |s.handles| >= s.capacity && i < |s.members|
    ensures s.members[i].dropped == 0
  {
    forall k | 0 <= k < |s.members|
      ensures Copies(s.handles, k) <= s.members[k].length
    {
      assert Balanced(s.handles, k, s.members[k]);
    }
    assert Balanced(s.handles, i, s.members[i]);
    CopiesAddUp(s.handles, |s.members|);
    if s.members[i].dropped > 0 {
      CopiesWithinLength(s.handles, s.members, i);
    }
  }

  lemma StepDropsNothing(s: State, a: Action)
    requires Conserved(s) && BigEnough(s) && NoneDropped(s) && Enabled(s, a)
    ensures Conserved(Step(s, a)) && BigEnough(Step(s, a)) && NoneDropped(Step(s, a))
  {
    var n := Step(s, a);
    StepConserves(s, a);
    StaysBigEnough(s, n);
    forall i | 0 <= i < |n.members|
      ensures n.members[i].dropped == 0
    {
      DropsWhenFull(s, a, i);
      if n.members[i].dropped > 0 {
        FullWithoutDrops(n, i);
      }
    }
  }

  // ------------------------------------------------------------------
  // Whole runs
  // ------------------------------------------------------------------

  /** Members are added to a set while they are empty (xQueueAddToSet). */
  ghost predicate Initial(s: State) {
    s.handles == [] && forall i :: 0 <= i < |s.members| ==> s.members[i] == Unused(s.members[i].length)
  }

  function Unused(length: nat): Member {
    Member(0, length, UNLOCKED, 0, 0, 0, 0)
  }

  /** A run in which at most `limit` interrupts send to a member during one lock */
  ghost predicate Possible(s: State, actions: seq<Action>, limit: nat)
    decreases actions
  {
    actions == [] ||
    (HandlesKnown(s) && Enabled(s, actions[0]) && WithinLimit(s, actions[0], limit)
     && Possible(Step(s, actions[0]), actions[1..], limit))
  }

  ghost function After(s: State, actions: seq<Action>, limit: nat): State
    requires Possible(s, actions, limit)
    decreases actions
  {
    if actions == [] then s else After(Step(s, actions[0]), actions[1..], limit)
  }

  /** In every run, whatever the length of the set and of the locks, no item is unaccounted for. */
  lemma {:induction false} RunConserves(s: State, actions: seq<Action>, limit: nat)
    requires Conserved(s) && Possible(s, actions, limit)
    ensures Conserved(After(s, actions, limit)) && SameShape(s, After(s, actions, limit))
    decreases actions
  {
    if actions != [] {
      StepConserves(s, actions[0]);
      RunConserves(Step(s, actions[0]), actions[1..], limit);
    }
  }

  lemma {:induction false} RunDropsNothing(s: State, actions: seq<Action>, limit: nat)
    requires Conserved(s) && BigEnough(s) && NoneDropped(s) && Possible(s, actions, limit)
    ensures NoneDropped(After(s, actions, limit))
    decreases actions
  {
    if actions != [] {
      StepDropsNothing(s, actions[0]);
      RunDropsNothing(Step(s, actions[0]), actions[1..], limit);
    }
  }

  /** A set as long as its members together has room for every notification. */
  lemma BigSetNeverDrops(s: State, actions: seq<Action>, limit: nat)
    requires Initial(s) && BigEnough(s) && Possible(s, actions, limit)
    ensures NoneDropped(After(s, actions, limit))
  {
    RunDropsNothing(s, actions, limit);
  }

  /** A shorter set can be made to drop: fill every member without selecting. */
  lemma SmallSetCanDrop(s: State, limit: nat) returns (actions: seq<Action>)
    requires Initial(s) && !BigEnough(s)
    ensures Possible(s, actions, limit) && !NoneDropped(After(s, actions, limit))
  {
    actions := FillFrom(s, 0, limit);
  }

  /** The length a set needs: no run ever drops a notification exactly when it is that long. */
  lemma NeverDropsIffBigEnough(s: State, limit: nat)
    requires Initial(s)
    ensures (forall actions :: Possible(s, actions, limit) ==> NoneDropped(After(s, actions, limit))) <==> BigEnough(s)
  {
    if BigEnough(s) {
      forall actions | Possible(s, actions, limit)
        ensures NoneDropped(After(s, actions, limit))
      {
        BigSetNeverDrops(s, actions, limit);
      }
    } else {
      var actions := SmallSetCanDrop(s, limit);
    }
  }

  /** The members before `i` full, and nothing done but sending */
  ghost predicate Filling(s: State, i: nat) {
    && i <= |s.members| && Conserved(s) && |s.handles| <= s.capacity
    && (forall k :: 0 <= k < i ==> s.members[k].waiting == s.members[k].length)
    && forall k :: 0 <= k < |s.members| ==>
         var m := s.members[k]; m.txLock == UNLOCKED && m.counted == 0 && m.selected == 0 && m.missed == 0
  }

  lemma {:induction false} FillFrom(s: State, i: nat, limit: nat) returns (actions: seq<Action>)
    requires Filling(s, i) && !BigEnough(s)
    ensures Possible(s, actions, limit) && !NoneDropped(After(s, actions, limit))
    decreases |s.members| - i, if i < |s.members| then s.members[i].length - s.members[i].waiting else 0
  {
    if i == |s.members| {
      FilledHasDropped(s);
      actions := [];
    } else {
      assert Balanced(s.handles, i, s.members[i]);
      if s.members[i].waiting == s.members[i].length {
        actions := FillFrom(s, i + 1, limit);
      } else {
        FillOne(s, i);
        hide Filling, BigEnough, Conserved, Notified;
        var rest := FillFrom(Step(s, Send(i, false)), i, limit);
        actions := [Send(i, false)] + rest;
        assert actions[1..] == rest;
      }
    }
  }

  lemma FillOne(s: State, i: nat)
    requires Filling(s, i) && !BigEnough(s) && Enabled(s, Send(i, false))
    ensures var n := Step(s, Send(i, false));
            && Filling(n, i) && !BigEnough(n) && |n.members| == |s.members|
            && n.members[i].length == s.members[i].length && n.members[i].waiting == s.members[i].waiting + 1
  {
    var n := Step(s, Send(i, false));
    SendConserves(s, i, false);
    SameLengths(s.members, n.members);
    NotifiedIs(CountedIn(s, i), i, false);
  }

  lemma FilledHasDropped(s: State)
    requires Filling(s, |s.members|) && !BigEnough(s)
    ensures !NoneDropped(s)
  {
    if NoneDropped(s) {
      forall k | 0 <= k < |s.members|
        ensures Copies(s.handles, k) == s.members[k].length
      {
        assert Balanced(s.handles, k, s.members[k]);
      }
      CopiesFillLength(s.handles, s.members);
      CopiesAddUp(s.handles, |s.members|);
    }
  }

  // ------------------------------------------------------------------
  // First in, first out
  // ------------------------------------------------------------------

  /** How many notifications an action sends */
  function Notifications(s: State, a: Action): nat
    requires Enabled(s, a)
  {
    match a
    case Send(_, _) => 1
    case IsrSend(i, _) => if s.members[i].txLock == UNLOCKED then 1 else 0
    case Unlock(i) => Positive(s.members[i].txLock)
    case _ => 0
  }

  /** The handles an action announces: those of its notifications there is room for */
  function Announced(s: State, a: Action): seq<nat>
    requires Enabled(s, a)
  {
    var room := if |s.handles| <= s.capacity then s.capacity - |s.handles| else 0;
    var n := Notifications(s, a);
    if n == 0 then [] else seq(if n <= room then n else room, _ => a.i)
  }

  /** The handle an action takes */
  function Selected(s: State, a: Action): seq<nat>
    requires Enabled(s, a)
  {
    if a.Select? then [s.handles[0]] else []
  }

  predicate ToBack(a: Action) {
    a.Send? || a.IsrSend? ==> !a.toFront
  }

  lemma {:induction false} NotifiedInOrder(s: State, i: nat, n: nat)
    requires i < |s.members|
    ensures var room := if |s.handles| <= s.capacity then s.capacity - |s.handles| else 0;
            NotifiedTimes(s, i, n).handles == s.handles + seq(if n <= room then n else room, _ => i)
    decreases n
  {
    if n > 0 {
      NotifiedInOrder(Notified(s, i, false), i, n - 1);
    }
  }

  lemma StepInOrder(s: State, a: Action)
    requires HandlesKnown(s) && Enabled(s, a) && ToBack(a)
    ensures Selected(s, a) + Step(s, a).handles == s.handles + Announced(s, a)
  {
    match a
    case Unlock(i) => NotifiedInOrder(s, i, Positive(s.members[i].txLock));
    case Send(_, _) => case IsrSend(_, _) => case Lock(_) => case Select => case Read(_) =>
  }

  ghost function AllAnnounced(s: State, actions: seq<Action>, limit: nat): seq<nat>
    requires Possible(s, actions, limit)
    decreases actions
  {
    if actions == [] then []
    else Announced(s, actions[0]) + AllAnnounced(Step(s, actions[0]), actions[1..], limit)
  }

  ghost function AllSelected(s: State, actions: seq<Action>, limit: nat): seq<nat>
    requires Possible(s, actions, limit)
    decreases actions
  {
    if actions == [] then []
    else Selected(s, actions[0]) + AllSelected(Step(s, actions[0]), actions[1..], limit)
  }

  /**
   First in, first out: in every run of sends to the back the handles selected
   so far, followed by those still in the set, are those in it at first
   followed by those announced, by sends and by unlocks, in that order.
   */
  lemma {:induction false} SelectedInOrder(s: State, actions: seq<Action>, limit: nat)
    requires Possible(s, actions, limit) && forall k :: 0 <= k < |actions| ==> ToBack(actions[k])
    ensures AllSelected(s, actions, limit) + After(s, actions, limit).handles
            == s.handles + AllAnnounced(s, actions, limit)
    decreases actions
  {
    if actions != [] {
      var n := Step(s, actions[0]);
      StepInOrder(s, actions[0]);
      SelectedInOrder(n, actions[1..], limit);
      InTurn(Selected(s, actions[0]), AllSelected(n, actions[1..], limit), After(s, actions, limit).handles,
             n.handles, AllAnnounced(n, actions[1..], limit), s.handles, Announced(s, actions[0]));
    }
  }

  lemma InTurn(
    x: seq<nat>, xs: seq<nat>, last: seq<nat>, mid: seq<nat>, ys: seq<nat>, first: seq<nat>, y: seq<nat>)
    requires xs + last == mid + ys && x + mid == first + y
    ensures (x + xs) + last == first + (y + ys)
  {
    assert (x + xs) + last == x + (xs + last) == x + (mid + ys) == (x + mid) + ys == (first + y) + ys;
  }

  /** All that is not announced is dropped. */
  lemma AnnouncedOrDropped(s: State, a: Action)
    requires HandlesKnown(s) && Enabled(s, a) && Notifications(s, a) > 0
    ensures a.i < |Step(s, a).members|
    ensures Step(s, a).members[a.i].dropped
            == s.members[a.i].dropped + Notifications(s, a) - |Announced(s, a)|
  {
    if a.Unlock? {
      var d := NotifiedTimesIs(s, a.i, Positive(s.members[a.i].txLock));
      NotifiedInOrder(s, a.i, Positive(s.members[a.i].txLock));
    }
  }

  /** An item sent to the front is selected next. */
  lemma FrontIsNext(s: State, i: nat)
    requires HandlesKnown(s) && Enabled(s, Send(i, true)) && |s.handles| < s.capacity
    ensures var n := Step(s, Send(i, true));
            && HandlesKnown(n) && n.handles != [] && Selected(n, Select) == [i]
            && Step(n, Select).handles == s.handles
    ensures s.members[i].txLock == UNLOCKED ==> Step(s, IsrSend(i, true)) == Step(s, Send(i, true))
  {
  }

  /** A send puts one item in its member and a read takes one out; nothing else changes any member's items. */
  lemma StepItems(s: State, a: Action, k: nat)
    requires HandlesKnown(s) && Enabled(s, a) && k < |s.members|
    ensures k < |Step(s, a).members|
    ensures Step(s, a).members[k].waiting == s.members[k].waiting
              + (if (a.Send? || a.IsrSend?) && a.i == k then 1 else 0) - (if a.Read? && a.i == k then 1 else 0)
    ensures a.Read? && a.i == k ==> Step(s, a).members[k].selected == s.members[k].selected - 1
  {
    if a.Unlock? {
      var d := NotifiedTimesIs(s, a.i, Positive(s.members[a.i].txLock));
    }
  }

  /** Selecting takes the oldest handle and counts it for its member. */
  lemma SelectTakesOldest(s: State)
    requires HandlesKnown(s) && s.handles != []
    ensures var h, n := s.handles[0], Step(s, Select);
            && s.handles == [h] + n.handles
            && n.members == s.members[h := s.members[h].(selected := s.members[h].selected + 1)]
  {
  }

  // ------------------------------------------------------------------
  // Items never announced
  // ------------------------------------------------------------------

  ghost predicate NoneMissed(s: State) {
    forall i :: 0 <= i < |s.members| ==> s.members[i].missed == 0
  }

  function IsrSends(actions: seq<Action>, i: nat): nat {
    if actions == [] then 0
    else (if actions[0].IsrSend? && actions[0].i == i then 1 else 0) + IsrSends(actions[1..], i)
  }

  ghost predicate WithinOneLock(actions: seq<Action>, i: nat) {
    Lock(i) !in actions && Unlock(i) !in actions
  }

  lemma StepCounts(s: State, a: Action, i: nat, k: nat)
    requires HandlesKnown(s) && Enabled(s, a) && i < |s.members| && a != Lock(i) && a != Unlock(i)
    requires s.members[i].txLock == CountAfter(k) && s.members[i].counted == Counted(k)
    ensures var n, more := Step(s, a), k + IsrSends([a], i);
            && |n.members| == |s.members| && n.members[i].missed == s.members[i].missed
            && n.members[i].txLock == CountAfter(more) && n.members[i].counted == Counted(more)
  {
    hide CountAfter;
    CountOneMore(k);
    assert IsrSends([a], i) == if a.IsrSend? && a.i == i then 1 else 0;
    if a.Unlock? {
      var d := NotifiedTimesIs(s, a.i, Positive(s.members[a.i].txLock));
    }
  }

  lemma {:induction false} LockCounts(s: State, actions: seq<Action>, limit: nat, i: nat, k: nat)
    requires Possible(s, actions, limit) && WithinOneLock(actions, i) && i < |s.members|
    requires s.members[i].txLock == CountAfter(k) && s.members[i].counted == Counted(k)
    ensures var n, more := After(s, actions, limit), k + IsrSends(actions, i);
            && |n.members| == |s.members| && n.members[i].missed == s.members[i].missed
            && n.members[i].txLock == CountAfter(more) && n.members[i].counted == Counted(more)
    decreases actions
  {
    if actions != [] {
      hide CountAfter, Step, Enabled;
      var a, rest := actions[0], actions[1..];
      StepCounts(s, a, i, k);
      assert [a][1..] == [];
      LockCounts(Step(s, a), rest, limit, i, k + IsrSends([a], i));
    }
  }

  /** How many of `k` items sent by interrupts during one lock the set never hears of */
  function MissedOf(k: nat): (n: nat)
    ensures n <= k
  {
    if k <= INT8_MAX then 0 else Counted(k)
  }

  /**
   Exactly how many items a lock makes the set miss, whatever else happens
   meanwhile: none of up to 127 sends by interrupts, all of 128 to 255, and 255
   of more.
   */
  lemma MissedInOneLock(s: State, actions: seq<Action>, limit: nat, i: nat)
    requires Conserved(s) && Possible(s, actions, limit) && WithinOneLock(actions, i) && i < |s.members|
    requires s.members[i].txLock == 0 && s.members[i].counted == 0
    ensures var n := After(s, actions, limit);
            && HandlesKnown(n) && i < |n.members| && n.members[i].missed == s.members[i].missed
            && Step(n, Unlock(i)).members[i].missed == s.members[i].missed + MissedOf(IsrSends(actions, i))
  {
    hide Possible, Step, Counted, CountAfter, Balanced;
    StartsAtZero();
    RunConserves(s, actions, limit);
    LockCounts(s, actions, limit, i, 0);
    var n := After(s, actions, limit);
    UnlockMisses(n, i, IsrSends(actions, i));
  }

  lemma StartsAtZero()
    ensures CountAfter(0) == 0 == Counted(0)
  {
  }

  lemma UnlockMisses(s: State, i: nat, k: nat)
    requires HandlesKnown(s) && i < |s.members|
    requires s.members[i].txLock == CountAfter(k) && s.members[i].counted == Counted(k)
    ensures i < |Step(s, Unlock(i)).members|
    ensures Step(s, Unlock(i)).members[i].missed == s.members[i].missed + MissedOf(k)
  {
    var d := NotifiedTimesIs(s, i, Positive(s.members[i].txLock));
  }

  /** So far every count has stood for all it took in. */
  ghost predicate AllCounted(s: State) {
    NoneMissed(s) && forall i :: 0 <= i < |s.members| ==> s.members[i].counted <= INT8_MAX
  }

  ghost predicate AllShort(s: State) {
    forall i :: 0 <= i < |s.members| ==> s.members[i].length <= INT8_MAX
  }

  lemma StepMissesNothing(s: State, a: Action, limit: nat)
    requires Conserved(s) && AllCounted(s) && Enabled(s, a) && WithinLimit(s, a, limit)
    requires limit <= INT8_MAX || AllShort(s)
    ensures AllCounted(Step(s, a))
  {
    hide Step, Enabled;
    var n := Step(s, a);
    StepConserves(s, a);
    forall i | 0 <= i < |n.members|
      ensures n.members[i].missed == 0 && n.members[i].counted <= INT8_MAX
    {
      assert Balanced(s.handles, i, s.members[i]) && Balanced(n.handles, i, n.members[i]);
      MemberMissesNothing(s, a, limit, i);
    }
  }

  lemma MemberMissesNothing(s: State, a: Action, limit: nat, i: nat)
    requires HandlesKnown(s) && Enabled(s, a) && WithinLimit(s, a, limit) && i < |s.members| == |Step(s, a).members|
    requires var m := s.members[i]; CountsRight(m) && m.missed == 0 && m.counted <= INT8_MAX
    requires limit <= INT8_MAX || Step(s, a).members[i].counted <= INT8_MAX
    ensures var n := Step(s, a).members[i]; n.missed == 0 && n.counted <= INT8_MAX
  {
    match a
    case Unlock(j) => var d := NotifiedTimesIs(s, j, Positive(s.members[j].txLock));
    case IsrSend(_, _) => CountOneMore(s.members[i].counted);
    case Send(_, _) => case Lock(_) => case Select => case Read(_) =>
  }

  lemma {:induction false} RunMissesNothing(s: State, actions: seq<Action>, limit: nat)
    requires Conserved(s) && AllCounted(s) && Possible(s, actions, limit)
    requires limit <= INT8_MAX || AllShort(s)
    ensures NoneMissed(After(s, actions, limit))
    decreases actions
  {
    if actions != [] {
      StepConserves(s, actions[0]);
      StepMissesNothing(s, actions[0], limit);
      RunMissesNothing(Step(s, actions[0]), actions[1..], limit);
    }
  }

  /** `k` interrupts have sent to member `i` since it was locked. */
  ghost function Sending(s: State, i: nat, k: nat): State
    requires i < |s.members|
  {
    Update(s, i, s.members[i].(waiting := k, txLock := CountAfter(k), counted := k))
  }

  lemma {:induction false} LongLock(s: State, i: nat, k: nat, last: nat) returns (actions: seq<Action>)
    requires Initial(s) && i < |s.members| && k <= last <= s.members[i].length && INT8_MAX < last <= 255
    ensures Possible(Sending(s, i, k), actions, last)
    ensures After(Sending(s, i, k), actions, last) == Update(s, i, s.members[i].(waiting := last, missed := last))
    decreases last - k
  {
    var now := Sending(s, i, k);
    if k == last {
      actions := [Unlock(i)];
      assert actions[1..] == [];
      assert After(Step(now, Unlock(i)), [], last) == Step(now, Unlock(i));
    } else {
      CountOneMore(k);
      assert Step(now, IsrSend(i, false)) == Sending(s, i, k + 1);
      var rest := LongLock(s, i, k + 1, last);
      actions := [IsrSend(i, false)] + rest;
      assert actions[1..] == rest;
    }
  }

  /** From 128 to 255 sends during one lock: the set, however long, is empty, and the member has all the items. */
  lemma LongLockMisses(s: State, i: nat, k: nat) returns (actions: seq<Action>)
    requires Initial(s) && i < |s.members| && INT8_MAX < k <= 255 && k <= s.members[i].length
    ensures Possible(s, actions, k)
    ensures var n := After(s, actions, k);
            n.handles == [] && n == Update(s, i, s.members[i].(waiting := k, missed := k)) && !NoneMissed(n)
  {
    var rest := LongLock(s, i, 0, k);
    assert Step(s, Lock(i)) == Sending(s, i, 0);
    actions := [Lock(i)] + rest;
    assert actions[1..] == rest;
    var n := Update(s, i, s.members[i].(waiting := k, missed := k));
    assert n.members[i].missed == k;
  }

  lemma {:induction false} LooserLimit(s: State, actions: seq<Action>, limit: nat, more: nat)
    requires Possible(s, actions, limit) && limit <= more
    ensures Possible(s, actions, more) && After(s, actions, more) == After(s, actions, limit)
    decreases actions
  {
    if actions != [] {
      LooserLimit(Step(s, actions[0]), actions[1..], limit, more);
    }
  }

  /** No run makes the set miss an item exactly when no lock sees more than 127 sends, or no member can hold more. */
  lemma NeverMissesIff(s: State, limit: nat)
    requires Initial(s)
    ensures (forall actions :: Possible(s, actions, limit) ==> NoneMissed(After(s, actions, limit))) <==>
              limit <= INT8_MAX || AllShort(s)
  {
    if limit <= INT8_MAX || AllShort(s) {
      forall actions | Possible(s, actions, limit)
        ensures NoneMissed(After(s, actions, limit))
      {
        RunMissesNothing(s, actions, limit);
      }
    } else {
      var i :| 0 <= i < |s.members| && s.members[i].length > INT8_MAX;
      var actions := LongLockMisses(s, i, INT8_MAX + 1);
      LooserLimit(s, actions, INT8_MAX + 1, limit);
    }
  }

  /**
   The whole condition: every notification reaches the set in every run if and
   only if the set is as long as its members together and either no lock sees
   more than 127 sends by interrupts or no member holds more than 127 items.
   */
  lemma EveryItemAnnouncedIff(s: State, limit: nat)
    requires Initial(s)
    ensures (forall actions :: Possible(s, actions, limit) ==> AllHeard(After(s, actions, limit))) <==>
              BigEnough(s) && (limit <= INT8_MAX || AllShort(s))
  {
    NeverDropsIffBigEnough(s, limit);
    NeverMissesIff(s, limit);
    if forall actions :: Possible(s, actions, limit) ==> AllHeard(After(s, actions, limit)) {
      assert forall actions :: Possible(s, actions, limit) ==> NoneDropped(After(s, actions, limit));
      assert forall actions :: Possible(s, actions, limit) ==> NoneMissed(After(s, actions, limit));
    }
  }

  ghost predicate AllHeard(s: State) {
    NoneDropped(s) && NoneMissed(s)
  }

  // ------------------------------------------------------------------
  // The code
  // ------------------------------------------------------------------

  /** A set and its members; the counters of the model that the code does not keep are ghost. */
  class QueueSetControl {
    const capacity: nat
    var waiting: seq<nat>
    const lengths: seq<nat>
    var txLocks: seq<int8>
    var handles: seq<nat>
    ghost var selected: seq<nat>
    ghost var counted: seq<nat>
    ghost var missed: seq<int>
    ghost var dropped: seq<nat>

    ghost predicate Valid()
      reads this
    {
      |waiting| == |lengths| == |txLocks| == |selected| == |counted| == |missed| == |dropped|
    }

    ghost function View(): (s: State)
      requires Valid()
      reads this
      ensures |s.members| == |waiting|
    {
      State(seq(|waiting|, i requires 0 <= i < |waiting| && Valid() reads this =>
                  Member(waiting[i], lengths[i], txLocks[i], selected[i], counted[i], missed[i], dropped[i])),
            handles, capacity)
    }

    constructor (capacity: nat, lengths: seq<nat>)
      ensures Valid() && Initial(View()) && View().capacity == capacity && |View().members| == |lengths|
      ensures forall i :: 0 <= i < |lengths| ==> View().members[i].length == lengths[i]
    {
      this.capacity, this.lengths := capacity, lengths;
      waiting := seq(|lengths|, _ => 0);
      txLocks := seq(|lengths|, _ => UNLOCKED);
      handles, selected := [], seq(|lengths|, _ => 0);
      counted, missed, dropped := seq(|lengths|, _ => 0), seq(|lengths|, _ => 0), seq(|lengths|, _ => 0);
    }

    /** prvNotifyQueueSetContainer */
    method NotifyContainer(i: nat, toFront: bool)
      requires Valid() && i < |waiting|
      modifies this`handles, this`dropped
      ensures Valid() && View() == Notified(old(View()), i, toFront)
      ensures old(|handles|) < capacity ==> handles == if toFront then [i] + old(handles) else old(handles) + [i]
      ensures old(|handles|) >= capacity ==> handles == old(handles)
    {
      ghost var before := View();
      if |handles| < capacity {
        handles := if toFront then [i] + handles else handles + [i];
      } else {
        dropped := dropped[i := dropped[i] + 1];
      }
      assert View().members == Notified(before, i, toFront).members;
    }

    /** xQueueGenericSend: the successful branch for a member of a set */
    method Send(i: nat, toFront: bool) returns (sent: bool)
      requires Valid() && i < |waiting| && HandlesKnown(View())
      modifies this
      ensures Valid() && sent == (old(waiting[i]) < lengths[i])
      ensures waiting == if sent then old(waiting)[i := old(waiting[i]) + 1] else old(waiting)
      ensures View() == if sent then Step(old(View()), Action.Send(i, toFront)) else old(View())
    {
      ghost var before := View();
      sent := waiting[i] < lengths[i];
      if sent {
        waiting := waiting[i := waiting[i] + 1];
        assert View() == CountedIn(before, i);
        NotifyContainer(i, toFront);
      }
    }

    /** xQueueGenericSendFromISR for a member of a set */
    method SendFromIsr(i: nat, toFront: bool) returns (sent: bool)
      requires Valid() && i < |waiting| && HandlesKnown(View())
      modifies this
      ensures Valid() && sent == (old(waiting[i]) < lengths[i])
      ensures waiting == if sent then old(waiting)[i := old(waiting[i]) + 1] else old(waiting)
      ensures View() == if sent then Step(old(View()), Action.IsrSend(i, toFront)) else old(View())
    {
      ghost var before := View();
      sent := waiting[i] < lengths[i];
      if sent {
        var lock := txLocks[i];
        ghost var m := before.members[i];
        waiting := waiting[i := waiting[i] + 1];
        assert View() == CountedIn(before, i);
        if lock == UNLOCKED {
          NotifyContainer(i, toFront);
        } else {
          var raised: int8 := Incremented(lock);
          txLocks := txLocks[i := raised];
          counted := counted[i := counted[i] + 1];
          assert View() == Update(before, i, m.(waiting := m.waiting + 1, txLock := raised, counted := m.counted + 1));
        }
      }
    }

    /** prvUnlockQueue, first critical section, for a member of a set */
    method UnlockTransmit(i: nat)
      requires Valid() && i < |waiting| && HandlesKnown(View())
      modifies this
      ensures Valid() && View() == Step(old(View()), Unlock(i))
    {
      ghost var before := View();
      var count := txLocks[i];
      while count > 0
        invariant Valid() && |waiting| == |before.members| && txLocks == old(txLocks)
        invariant NotifiedTimes(View(), i, Positive(count)) == NotifiedTimes(before, i, Positive(txLocks[i]))
      {
        NotifyContainer(i, false);
        count := count - 1;
      }
      ghost var notified := View();
      missed := missed[i := missed[i] + counted[i] - Positive(txLocks[i])];
      counted := counted[i := 0];
      txLocks := txLocks[i := UNLOCKED];
      assert View() == Update(notified, i, UnlockedMember(notified.members[i]));
    }

    /** xQueueSelectFromSet with no time to wait; None is its NULL */
    method Select() returns (handle: Option<nat>)
      requires Valid() && HandlesKnown(View())
      modifies this`handles, this`selected
      ensures Valid() && (handle.None? <==> old(handles) == [])
      ensures handle.None? ==> View() == old(View())
      ensures handle.Some? ==> View() == Step(old(View()), Action.Select) && [handle.value] + handles == old(handles)
    {
      if handles == [] {
        return None;
      }
      ghost var before := View();
      var first := handles[0];
      assert first < |before.members|;
      handles := handles[1..];
      selected := selected[first := selected[first] + 1];
      assert View() == Step(before, Action.Select);
      return Some(first);
    }
  }
}
