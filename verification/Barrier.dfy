/**
 The rendezvous of freertos/source/event_groups.c: tasks that call
 xEventGroupSync again and again, each setting its own bits and waiting for
 everybody's, none of them timing out. Other tasks may set and clear bits
 outside the common mask meanwhile.
 */
module Barrier {
  import opened EventGroup

  /** The bits each party sets. */
  type Shares = seq<Bits>

  function Mask(shares: Shares): Bits {
    if shares == [] then {} else shares[0] + Mask(shares[1..])
  }

  ghost predicate WellFormed(shares: Shares) {
    && shares != []
    && (forall t :: 0 <= t < |shares| ==> shares[t] != {} && UserBits(shares[t]))
    && (forall t, u :: 0 <= t < u < |shares| ==> shares[t] !! shares[u])
  }

  datatype Place =
    | Running
    | Blocked
    | Released(value: Bits)   // off the waiting list, its call still to return `value`

  datatype Party = Party(entered: nat, returned: nat, place: Place)

  /** `round` counts the rendezvous completed. */
  datatype State = State(group: Group, parties: seq<Party>, round: nat)

  datatype Action =
    | Enter(t: nat)
    | Return(t: nat)
    | SetOthers(b: Bits)
    | ClearOthers(b: Bits)

  predicate Enabled(shares: Shares, s: State, a: Action) {
    match a
    case Enter(t) => t < |shares| && t < |s.parties| && s.parties[t].place.Running?
    case Return(t) => t < |s.parties| && s.parties[t].place.Released?
    case SetOthers(b) => b !! Mask(shares) && UserBits(b)
    case ClearOthers(b) => b !! Mask(shares) && UserBits(b)
  }

  /** One woken task is handed its event bits, control bits removed. */
  function WithHanded(parties: seq<Party>, w: Waiter): (ps: seq<Party>)
    ensures |ps| == |parties|
  {
    if w.task < |parties| then parties[w.task := parties[w.task].(place := Released(w.value - CONTROL))] else parties
  }

  /** Everyone in `released` is handed its bits. */
  function HandOut(parties: seq<Party>, released: seq<Waiter>): (ps: seq<Party>)
    ensures |ps| == |parties|
    decreases released
  {
    if released == [] then parties
    else
      var w := released[0];
      HandOut(WithHanded(parties, w), released[1..])
  }

  function Entered(shares: Shares, s: State, t: nat): State
    requires Enabled(shares, s, Enter(t))
  {
    var (g, outcome) := Sync(s.group, t, shares[t], Mask(shares), true);
    var ps := HandOut(s.parties, EventGroup.Released(s.group.waiting, s.group.bits + shares[t]));
    match outcome
    case Blocks => State(g, ps[t := Party(ps[t].entered + 1, ps[t].returned, Blocked)], s.round)
    case Returns(v) => State(g, ps[t := Party(ps[t].entered + 1, ps[t].returned, Released(v))], s.round + 1)
  }

  function Step(shares: Shares, s: State, a: Action): State
    requires Enabled(shares, s, a)
  {
    match a
    case Enter(t) => Entered(shares, s, t)
    case Return(t) =>
      s.(parties := s.parties[t := s.parties[t].(returned := s.parties[t].returned + 1, place := Running)])
    case SetOthers(b) =>
      s.(group := SetBits(s.group, b),
         parties := HandOut(s.parties, EventGroup.Released(s.group.waiting, s.group.bits + b)))
    case ClearOthers(b) => s.(group := ClearBits(s.group, b))
  }

  // ------------------------------------------------------------------
  // The mask and its shares
  // ------------------------------------------------------------------

  lemma {:induction false} MaskExactly(shares: Shares, b: nat)
    ensures b in Mask(shares) <==> exists t :: 0 <= t < |shares| && b in shares[t]
  {
    if shares != [] {
      MaskExactly(shares[1..], b);
      assert forall t :: 1 <= t < |shares| ==> shares[t] == shares[1..][t - 1];
      assert forall t :: 0 <= t < |shares[1..]| ==> shares[1..][t] == shares[t + 1];
    }
  }

  lemma MaskHolds(shares: Shares)
    requires WellFormed(shares)
    ensures Mask(shares) != {} && UserBits(Mask(shares))
    ensures forall t :: 0 <= t < |shares| ==> shares[t] <= Mask(shares)
  {
    forall t, b | 0 <= t < |shares| && b in shares[t]
      ensures b in Mask(shares)
    {
      MaskExactly(shares, b);
    }
    forall b | b in Mask(shares)
      ensures b !in CONTROL
    {
      MaskExactly(shares, b);
    }
    var b :| b in shares[0];
    assert b in Mask(shares);
  }

  // ------------------------------------------------------------------
  // All or none of the waiters match
  // ------------------------------------------------------------------

  lemma {:induction false} NoneMatch(ws: seq<Waiter>, bits: Bits)
    requires forall i :: 0 <= i < |ws| ==> !Matches(ws[i].value, bits)
    ensures Remaining(ws, bits) == ws && EventGroup.Released(ws, bits) == [] && Cleared(ws, bits) == {}
  {
    if ws != [] {
      NoneMatch(ws[1..], bits);
    }
  }

  lemma {:induction false} AllMatch(ws: seq<Waiter>, bits: Bits)
    requires forall i :: 0 <= i < |ws| ==> Matches(ws[i].value, bits)
    ensures Remaining(ws, bits) == []
    ensures |EventGroup.Released(ws, bits)| == |ws|
    ensures forall i :: 0 <= i < |ws| ==>
              EventGroup.Released(ws, bits)[i] == Waiter(ws[i].task, bits + UNBLOCKED_DUE_TO_BIT_SET + IN_USE)
  {
    if ws != [] {
      AllMatch(ws[1..], bits);
    }
  }

  /** Handing one value to distinct or repeated tasks: each of them has it, nobody else changes. */
  lemma {:induction false} HandOutExactly(parties: seq<Party>, released: seq<Waiter>, value: Bits, u: nat)
    requires u < |parties| && forall i :: 0 <= i < |released| ==> released[i].value == value
    ensures HandOut(parties, released)[u] ==
              if exists i :: 0 <= i < |released| && released[i].task == u
              then parties[u].(place := Released(value - CONTROL)) else parties[u]
    decreases released
  {
    if released != [] {
      var w := released[0];
      var ps := WithHanded(parties, w);
      HandOutExactly(ps, released[1..], value, u);
      assert forall i :: 1 <= i < |released| ==> released[i] == released[1..][i - 1];
      assert forall i :: 0 <= i < |released[1..]| ==> released[1..][i] == released[i + 1];
    }
  }

  // ------------------------------------------------------------------
  // The invariant
  // ------------------------------------------------------------------

  function Token(shares: Shares, t: Task): Waiter {
    Waiter(t, ItemValue(Mask(shares), true, true))
  }

  ghost predicate Places(shares: Shares, s: State) {
    && |s.parties| == |shares|
    && (forall t :: 0 <= t < |s.parties| ==>
          var p := s.parties[t];
          match p.place
          case Running => p.entered == p.returned == s.round
          case Blocked => p.entered == s.round + 1 && p.returned == s.round
          case Released(v) => p.entered == s.round == p.returned + 1 && Mask(shares) <= v)
    && (exists t :: 0 <= t < |s.parties| && !s.parties[t].place.Blocked?)
  }

  ghost predicate Waiting(shares: Shares, s: State) {
    && (forall i :: 0 <= i < |s.group.waiting| ==>
          var t := s.group.waiting[i].task;
          s.group.waiting[i] == Token(shares, t) && t < |s.parties| && s.parties[t].place.Blocked?)
    && (forall t :: 0 <= t < |s.parties| && s.parties[t].place.Blocked? ==> Token(shares, t) in s.group.waiting)
  }

  /** The bits of the mask that are set are those of the blocked parties. */
  ghost predicate Tally(shares: Shares, s: State) {
    forall b :: b in s.group.bits && b in Mask(shares) <==>
      exists t :: 0 <= t < |s.parties| && t < |shares| && s.parties[t].place.Blocked? && b in shares[t]
  }

  ghost predicate Inv(shares: Shares, s: State) {
    Places(shares, s) && Waiting(shares, s) && Tally(shares, s)
  }

  /** A party that is neither blocked nor `t` keeps the condition false. */
  lemma SomebodyMissing(shares: Shares, s: State, t: nat, u: nat)
    requires WellFormed(shares) && Inv(shares, s) && t < |shares| && u < |shares|
    requires !s.parties[u].place.Blocked? && u != t
    ensures !(Mask(shares) <= s.group.bits + shares[t])
  {
    MaskHolds(shares);
    var b :| b in shares[u];
    assert forall v :: 0 <= v < |shares| && v != u ==> b !in shares[v];
    assert b in Mask(shares) && b !in s.group.bits;
  }

  lemma EverybodyThere(shares: Shares, s: State, t: nat)
    requires WellFormed(shares) && Inv(shares, s) && t < |shares|
    requires forall u :: 0 <= u < |shares| && u != t ==> s.parties[u].place.Blocked?
    ensures Mask(shares) <= s.group.bits + shares[t]
  {
    forall b | b in Mask(shares)
      ensures b in s.group.bits + shares[t]
    {
      MaskExactly(shares, b);
    }
  }

  lemma TokensMatchIff(shares: Shares, s: State, bits: Bits)
    requires WellFormed(shares) && Waiting(shares, s)
    ensures forall i :: 0 <= i < |s.group.waiting| ==>
              (Matches(s.group.waiting[i].value, bits) <==> Mask(shares) <= bits)
    ensures forall i :: 0 <= i < |s.group.waiting| ==>
              ClearsOnExit(s.group.waiting[i].value) && WaitedFor(s.group.waiting[i].value) == Mask(shares)
  {
    MaskHolds(shares);
    ItemValueUnpacks(Mask(shares), true, true, bits);
    assert bits * Mask(shares) == Mask(shares) <==> Mask(shares) <= bits;
  }

  /** Entering while somebody is missing only adds to those who wait. */
  lemma EnterBlocks(shares: Shares, s: State, t: nat)
    requires WellFormed(shares) && Inv(shares, s) && Enabled(shares, s, Enter(t))
    requires !(Mask(shares) <= s.group.bits + shares[t])
    ensures Entered(shares, s, t) == WithBlocked(shares, s, t)
  {
    hide WellFormed, Mask, Places, Waiting, Tally, Sync, UserBits;
    SyncBlocks(shares, s, t);
    assert HandOut(s.parties, []) == s.parties;
  }

  /** One waiter more, its bits among those set, and nobody else moved */
  function WithBlocked(shares: Shares, s: State, t: nat): State
    requires t < |shares| && t < |s.parties|
  {
    State(
      Group(s.group.bits + shares[t], s.group.waiting + [Token(shares, t)]),
      s.parties[t := Party(s.parties[t].entered + 1, s.parties[t].returned, Blocked)], s.round)
  }

  lemma SyncBlocks(shares: Shares, s: State, t: nat)
    requires WellFormed(shares) && Waiting(shares, s) && t < |shares|
    requires !(Mask(shares) <= s.group.bits + shares[t])
    ensures var now := s.group.bits + shares[t];
            && Sync(s.group, t, shares[t], Mask(shares), true)
               == (Group(now, s.group.waiting + [Token(shares, t)]), Blocks)
            && EventGroup.Released(s.group.waiting, now) == []
  {
    var now := s.group.bits + shares[t];
    TokensMatchIff(shares, s, now);
    NoneMatch(s.group.waiting, now);
    assert now * Mask(shares) == Mask(shares) ==> Mask(shares) <= now;
    assert now - {} == now;
  }

  lemma SyncCompletes(shares: Shares, s: State, t: nat)
    requires WellFormed(shares) && Waiting(shares, s) && t < |shares|
    requires Mask(shares) <= s.group.bits + shares[t]
    ensures var now := s.group.bits + shares[t];
            var r := Sync(s.group, t, shares[t], Mask(shares), true);
            r.0.waiting == [] && r.0.bits !! Mask(shares) && r.1 == Returns(now)
  {
    var now := s.group.bits + shares[t];
    TokensMatchIff(shares, s, now);
    AllMatch(s.group.waiting, now);
    assert now * Mask(shares) == Mask(shares);
  }

  /** The value a task released at `now` returns. */
  function Handed(now: Bits): Bits {
    now + UNBLOCKED_DUE_TO_BIT_SET + IN_USE - CONTROL
  }

  lemma HandedToBlocked(shares: Shares, s: State, now: Bits, u: nat)
    requires WellFormed(shares) && Waiting(shares, s) && Mask(shares) <= now && u < |s.parties|
    ensures HandOut(s.parties, EventGroup.Released(s.group.waiting, now))[u] ==
              if s.parties[u].place.Blocked? then s.parties[u].(place := Released(Handed(now))) else s.parties[u]
    ensures Mask(shares) <= Handed(now)
  {
    MaskHolds(shares);
    TokensMatchIff(shares, s, now);
    AllMatch(s.group.waiting, now);
    HandOutExactly(s.parties, EventGroup.Released(s.group.waiting, now), now + UNBLOCKED_DUE_TO_BIT_SET + IN_USE, u);
    ReleasedIffBlocked(shares, s, now, u);
  }

  /** What entering last does to the parties. */
  ghost predicate Opened(shares: Shares, s: State, n: State, t: nat) {
    && n.group.waiting == [] && n.group.bits !! Mask(shares) && n.round == s.round + 1
    && |n.parties| == |s.parties|
    && forall u :: 0 <= u < |s.parties| ==>
         var p, q := s.parties[u], n.parties[u];
         if u == t then
           q.place.Released? && Mask(shares) <= q.place.value && q.entered == p.entered + 1 && q.returned == p.returned
         else if p.place.Blocked? then
           q.place.Released? && Mask(shares) <= q.place.value && q.entered == p.entered && q.returned == p.returned
         else q == p
  }

  /** Entering last releases everybody with the whole mask and leaves none of it set. */
  lemma EnterCompletes(shares: Shares, s: State, t: nat)
    requires WellFormed(shares) && Inv(shares, s) && Enabled(shares, s, Enter(t))
    requires Mask(shares) <= s.group.bits + shares[t]
    ensures Opened(shares, s, Entered(shares, s, t), t)
  {
    var now := s.group.bits + shares[t];
    SyncCompletes(shares, s, t);
    forall u | 0 <= u < |s.parties|
      ensures HandOut(s.parties, EventGroup.Released(s.group.waiting, now))[u] ==
                if s.parties[u].place.Blocked? then s.parties[u].(place := Released(Handed(now))) else s.parties[u]
      ensures Mask(shares) <= Handed(now)
    {
      HandedToBlocked(shares, s, now, u);
    }
  }

  lemma OpenedKeepsInv(shares: Shares, s: State, n: State, t: nat)
    requires WellFormed(shares) && Inv(shares, s) && t < |shares| && s.parties[t].place.Running?
    requires Opened(shares, s, n, t) && forall u :: 0 <= u < |shares| && u != t ==> s.parties[u].place.Blocked?
    ensures Inv(shares, n)
  {
    assert !n.parties[t].place.Blocked?;
  }

  lemma ReleasedIffBlocked(shares: Shares, s: State, now: Bits, u: nat)
    requires Waiting(shares, s) && u < |s.parties|
    requires forall i :: 0 <= i < |s.group.waiting| ==> Matches(s.group.waiting[i].value, now)
    ensures var released := EventGroup.Released(s.group.waiting, now);
            (exists i :: 0 <= i < |released| && released[i].task == u) <==> s.parties[u].place.Blocked?
  {
    var ws, released := s.group.waiting, EventGroup.Released(s.group.waiting, now);
    AllMatch(ws, now);
    if s.parties[u].place.Blocked? {
      var i :| 0 <= i < |ws| && ws[i] == Token(shares, u);
      assert released[i].task == u;
    } else {
      assert forall i :: 0 <= i < |ws| ==> ws[i].task != u;
    }
  }

  lemma EnterKeepsInv(shares: Shares, s: State, t: nat)
    requires WellFormed(shares) && Inv(shares, s) && Enabled(shares, s, Enter(t))
    ensures Inv(shares, Step(shares, s, Enter(t)))
  {
    var n := Step(shares, s, Enter(t));
    MaskHolds(shares);
    if u :| 0 <= u < |shares| && u != t && !s.parties[u].place.Blocked? {
      SomebodyMissing(shares, s, t, u);
      EnterBlocks(shares, s, t);
      assert !n.parties[u].place.Blocked?;
      BlockedKeepsInv(shares, s, n, t);
    } else {
      EverybodyThere(shares, s, t);
      EnterCompletes(shares, s, t);
      OpenedKeepsInv(shares, s, n, t);
    }
  }

  lemma BlockedKeepsInv(shares: Shares, s: State, n: State, t: nat)
    requires WellFormed(shares) && Inv(shares, s) && Enabled(shares, s, Enter(t)) && n == WithBlocked(shares, s, t)
    requires exists u :: 0 <= u < |n.parties| && !n.parties[u].place.Blocked?
    ensures Inv(shares, n)
  {
    BlockedKeepsPlaces(shares, s, n, t);
    BlockedKeepsWaiting(shares, s, n, t);
    BlockedKeepsTally(shares, s, n, t);
    hide WellFormed, Places, Waiting, Tally, Mask, WithBlocked;
  }

  lemma BlockedKeepsPlaces(shares: Shares, s: State, n: State, t: nat)
    requires Places(shares, s) && Enabled(shares, s, Enter(t)) && n == WithBlocked(shares, s, t)
    requires exists u :: 0 <= u < |n.parties| && !n.parties[u].place.Blocked?
    ensures Places(shares, n)
  {
    hide Mask;
  }

  lemma BlockedKeepsWaiting(shares: Shares, s: State, n: State, t: nat)
    requires Waiting(shares, s) && t < |shares| && t < |s.parties| && n == WithBlocked(shares, s, t)
    ensures Waiting(shares, n)
  {
    hide Mask;
    assert n.group.waiting[|s.group.waiting|] == Token(shares, t);
  }

  lemma BlockedKeepsTally(shares: Shares, s: State, n: State, t: nat)
    requires WellFormed(shares) && Tally(shares, s) && t < |s.parties| == |shares| && s.parties[t].place.Running?
    requires n == WithBlocked(shares, s, t)
    ensures Tally(shares, n)
  {
    MaskHolds(shares);
    hide Mask, WellFormed;
    forall b: nat
      ensures b in n.group.bits && b in Mask(shares) <==>
                exists u :: 0 <= u < |n.parties| && u < |shares| && n.parties[u].place.Blocked? && b in shares[u]
    {
      if b in shares[t] {
        assert n.parties[t].place.Blocked?;
      } else {
        assert forall u :: 0 <= u < |n.parties| && u != t ==> n.parties[u] == s.parties[u];
      }
    }
  }

  lemma SetOthersKeepsInv(shares: Shares, s: State, b: Bits)
    requires WellFormed(shares) && Inv(shares, s) && Enabled(shares, s, SetOthers(b))
    ensures Inv(shares, Step(shares, s, SetOthers(b)))
  {
    var u :| 0 <= u < |s.parties| && !s.parties[u].place.Blocked?;
    var x :| x in shares[u];
    MaskHolds(shares);
    assert forall v :: 0 <= v < |shares| && v != u ==> x !in shares[v];
    assert x in Mask(shares) && x !in s.group.bits + b;
    TokensMatchIff(shares, s, s.group.bits + b);
    NoneMatch(s.group.waiting, s.group.bits + b);
  }

  lemma StepKeepsInv(shares: Shares, s: State, a: Action)
    requires WellFormed(shares) && Inv(shares, s) && Enabled(shares, s, a)
    ensures Inv(shares, Step(shares, s, a))
  {
    match a
    case Enter(t) => EnterKeepsInv(shares, s, t);
    case Return(t) =>
      var n := Step(shares, s, a);
      assert !n.parties[t].place.Blocked?;
      assert forall u :: 0 <= u < |s.parties| ==> n.parties[u].place.Blocked? == s.parties[u].place.Blocked?;
    case SetOthers(b) => SetOthersKeepsInv(shares, s, b);
    case ClearOthers(b) =>
  }

  // ------------------------------------------------------------------
  // Whole runs
  // ------------------------------------------------------------------

  function Start(shares: Shares): State {
    State(Group({}, []), seq(|shares|, _ => Party(0, 0, Running)), 0)
  }

  ghost predicate Possible(shares: Shares, s: State, actions: seq<Action>)
    decreases actions
  {
    actions == [] || (Enabled(shares, s, actions[0]) && Possible(shares, Step(shares, s, actions[0]), actions[1..]))
  }

  ghost function After(shares: Shares, s: State, actions: seq<Action>): State
    requires Possible(shares, s, actions)
    decreases actions
  {
    if actions == [] then s else After(shares, Step(shares, s, actions[0]), actions[1..])
  }

  lemma {:induction false} RunKeepsInv(shares: Shares, s: State, actions: seq<Action>)
    requires WellFormed(shares) && Inv(shares, s) && Possible(shares, s, actions)
    ensures Inv(shares, After(shares, s, actions))
    decreases actions
  {
    if actions != [] {
      StepKeepsInv(shares, s, actions[0]);
      RunKeepsInv(shares, Step(shares, s, actions[0]), actions[1..]);
    }
  }

  lemma StartInv(shares: Shares)
    requires WellFormed(shares)
    ensures Inv(shares, Start(shares))
  {
    assert !Start(shares).parties[0].place.Blocked?;
  }

  /** Nobody returns from a round before everybody has entered it. */
  lemma NobodyLeavesEarly(shares: Shares, actions: seq<Action>, t: nat, u: nat)
    requires WellFormed(shares) && Possible(shares, Start(shares), actions) && t < |shares| && u < |shares|
    ensures var s := After(shares, Start(shares), actions);
            |s.parties| == |shares| && s.parties[t].returned <= s.parties[u].entered
  {
    StartInv(shares);
    RunKeepsInv(shares, Start(shares), actions);
  }

  /** Every value handed over holds the whole mask; with nobody blocked none of it is set. */
  lemma RoundsAreClean(shares: Shares, actions: seq<Action>)
    requires WellFormed(shares) && Possible(shares, Start(shares), actions)
    ensures var s := After(shares, Start(shares), actions);
            && (forall t :: 0 <= t < |s.parties| && s.parties[t].place.Released? ==>
                  Mask(shares) <= s.parties[t].place.value)
            && ((forall t :: 0 <= t < |s.parties| ==> !s.parties[t].place.Blocked?) ==> s.group.bits !! Mask(shares))
  {
    StartInv(shares);
    RunKeepsInv(shares, Start(shares), actions);
  }

  /** The barrier opens: whoever enters last completes the round for all. */
  lemma LastOneOpens(shares: Shares, actions: seq<Action>, t: nat)
    requires WellFormed(shares) && Possible(shares, Start(shares), actions) && t < |shares|
    requires var s := After(shares, Start(shares), actions);
             && Enabled(shares, s, Enter(t))
             && forall u :: 0 <= u < |s.parties| && u != t ==> s.parties[u].place.Blocked?
    ensures var n := Step(shares, After(shares, Start(shares), actions), Enter(t));
            && n.group.waiting == [] && n.group.bits !! Mask(shares)
            && forall u :: 0 <= u < |n.parties| ==> n.parties[u].place.Released?
  {
    StartInv(shares);
    RunKeepsInv(shares, Start(shares), actions);
    EverybodyThere(shares, After(shares, Start(shares), actions), t);
    EnterCompletes(shares, After(shares, Start(shares), actions), t);
  }
}
