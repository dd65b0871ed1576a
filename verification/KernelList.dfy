/**
 The intrusive circular list of freertos/source/list.c.

 `Ring` is the value of a list: its items from the one after the end marker
 onwards, and where the walking index stands. `List` and `ListItem` are the
 linked objects themselves; every method is proved to act on the ring the way
 the functions of `Ring` say.
 */
module KernelList {

  // portMAX_DELAY for 32-bit ticks; the end marker carries it.
  const MAX_DELAY: nat := 0xFFFF_FFFF

  type TickValue = v: nat | v <= MAX_DELAY

  /** `index == 0` is the end marker, `index == k + 1` is `items[k]`. */
  datatype Ring<T> = Ring(items: seq<T>, index: nat) {

    ghost predicate Valid() {
      index <= |items|
    }

    /** The order in which repeated calls of Next visit the items. */
    function Walk(): (w: seq<T>)
      requires Valid()
    {
      items[index..] + items[..index]
    }

    /** The ring with `x` at place `p` of `items`. */
    function InsertAt(p: nat, x: T): (r: Ring<T>)
      requires Valid() && p <= |items|
    {
      Ring(items[..p] + [x] + items[p..], if p < index then index + 1 else index)
    }

    /** Just before the item the index stands on, or before the end marker. */
    function EndPlace(): nat {
      if index == 0 then |items| else index - 1
    }

    /** vListInsertEnd */
    function InsertEnd(x: T): (r: Ring<T>)
      requires Valid()
    {
      InsertAt(EndPlace(), x)
    }

    /** uxListRemove: an index on the removed item steps back. */
    function RemoveAt(k: nat): (r: Ring<T>)
      requires Valid() && k < |items|
    {
      Ring(items[..k] + items[k + 1..], if k < index then index - 1 else index)
    }

    /** listGET_OWNER_OF_NEXT_ENTRY: step forward, jumping over the end marker. */
    function Next(): (r: Ring<T>)
      requires Valid() && items != []
    {
      Ring(items, if index == |items| then 1 else index + 1)
    }
  }

  // ------------------------------------------------------------------
  // Rotation
  // ------------------------------------------------------------------

  /** The new item is met last, save for the item the index stands on. */
  lemma WalkAfterInsertEnd<T>(r: Ring<T>, x: T)
    requires r.Valid()
    ensures r.InsertEnd(x).Valid()
    ensures r.index == 0 ==> r.InsertEnd(x).Walk() == r.Walk() + [x]
    ensures r.index > 0 ==>
              var w := r.Walk();
              r.InsertEnd(x).Walk() == w[..|w| - 1] + [x, w[|w| - 1]] && w[|w| - 1] == r.items[r.index - 1]
  {
    var w := r.Walk();
    if r.index == 0 {
      assert r.InsertEnd(x).Walk() == w + [x];
    } else {
      assert r.InsertEnd(x).items[r.index + 1..] == r.items[r.index..];
      assert r.InsertEnd(x).Walk() == w[..|w| - 1] + [x, w[|w| - 1]];
    }
  }

  /** Where item `k` of the ring stands in the walk. */
  function WalkPlace<T>(r: Ring<T>, k: nat): (j: nat)
    requires r.Valid() && k < |r.items|
    ensures j < |r.items| && r.Walk()[j] == r.items[k]
  {
    if r.index <= k then k - r.index else k + |r.items| - r.index
  }

  /** Removing any item, the one under the index included, only drops it from the walk. */
  lemma WalkAfterRemove<T>(r: Ring<T>, k: nat)
    requires r.Valid() && k < |r.items|
    ensures r.RemoveAt(k).Valid()
    ensures var j, w := WalkPlace(r, k), r.Walk();
            r.RemoveAt(k).Walk() == w[..j] + w[j + 1..]
  {
    var j, w, n := WalkPlace(r, k), r.Walk(), r.RemoveAt(k);
    if k < r.index {
      assert n.items[n.index..] == r.items[r.index..];
      assert n.items[..n.index] == r.items[..k] + r.items[k + 1..r.index];
    } else {
      assert n.items[n.index..] == r.items[r.index..k] + r.items[k + 1..];
      assert n.items[..n.index] == r.items[..r.index];
    }
    assert n.Walk() == w[..j] + w[j + 1..];
  }

  /** A sorted insertion leaves the visiting order of the others alone. */
  lemma WalkAfterInsertAt<T>(r: Ring<T>, p: nat, x: T)
    requires r.Valid() && p <= |r.items|
    ensures r.InsertAt(p, x).Valid()
    ensures var n := r.InsertAt(p, x);
            var j := WalkPlace(n, p);
            n.Walk()[j] == x && r.Walk() == n.Walk()[..j] + n.Walk()[j + 1..]
  {
    var n := r.InsertAt(p, x);
    WalkAfterRemove(n, p);
    assert n.RemoveAt(p).items == r.items;
  }

  lemma WalkAfterNext<T>(r: Ring<T>)
    requires r.Valid() && r.items != []
    ensures r.Next().Valid()
    ensures r.Next().items[r.Next().index - 1] == r.Walk()[0]
    ensures r.Next().Walk() == r.Walk()[1..] + [r.Walk()[0]]
  {
    assert r.Next().Walk() == r.Walk()[1..] + [r.Walk()[0]];
  }

  ghost function NextTimes<T>(r: Ring<T>, k: nat): (n: Ring<T>)
    requires r.Valid() && r.items != []
    ensures n.Valid() && n.items == r.items
    decreases k
  {
    if k == 0 then r else NextTimes(r.Next(), k - 1)
  }

  /** Equal shares: in any |items| successive calls each item comes up once, in walk order. */
  lemma {:induction false} NextVisitsInTurn<T>(r: Ring<T>, k: nat)
    requires r.Valid() && 0 < k <= |r.items|
    ensures var n := NextTimes(r, k);
            n.index > 0 && n.items[n.index - 1] == r.Walk()[k - 1]
    ensures NextTimes(r, k).Walk() == r.Walk()[k..] + r.Walk()[..k]
    decreases k
  {
    WalkAfterNext(r);
    if k == 1 {
      assert NextTimes(r, 1) == NextTimes(r.Next(), 0) == r.Next();
      assert r.Walk()[..1] == [r.Walk()[0]];
    } else {
      NextVisitsInTurn(r.Next(), k - 1);
      RotateOnceMore(r.Walk(), r.Next().Walk(), k);
    }
  }

  lemma RotateOnceMore<T>(w: seq<T>, next: seq<T>, k: nat)
    requires 1 < k <= |w| && next == w[1..] + [w[0]]
    ensures next[k - 2] == w[k - 1] && next[k - 1..] + next[..k - 1] == w[k..] + w[..k]
  {
    assert next[k - 1..] == w[k..] + [w[0]] && next[..k - 1] == w[1..k];
    assert w[..k] == [w[0]] + w[1..k];
  }

  // ------------------------------------------------------------------
  // Sorted insertion
  // ------------------------------------------------------------------

  /** Where vListInsert puts a value: behind the leading items that do not exceed it. */
  function InsertPosition(values: seq<nat>, v: nat): (p: nat)
    ensures p <= |values|
    ensures forall j :: 0 <= j < p ==> values[j] <= v
    ensures p < |values| ==> v < values[p]
  {
    if values == [] || v < values[0] then 0 else 1 + InsertPosition(values[1..], v)
  }

  /** An item of a sorted list together with the moment it was inserted. */
  datatype Entry = Entry(value: nat, stamp: nat)

  datatype ListOp = InsertOp(value: nat) | RemoveOp(place: nat)

  function Values(es: seq<Entry>): (vs: seq<nat>)
    ensures |vs| == |es| && forall i :: 0 <= i < |es| ==> vs[i] == es[i].value
  {
    seq(|es|, i requires 0 <= i < |es| => es[i].value)
  }

  function InsertSorted(es: seq<Entry>, e: Entry): seq<Entry> {
    var p := InsertPosition(Values(es), e.value);
    es[..p] + [e] + es[p..]
  }

  function Apply(es: seq<Entry>, op: ListOp, now: nat): seq<Entry> {
    match op
    case InsertOp(v) => InsertSorted(es, Entry(v, now))
    case RemoveOp(k) => if k < |es| then es[..k] + es[k + 1..] else es
  }

  /** Any run of vListInsert and uxListRemove; operation number `now` stamps what it inserts. */
  function Run(es: seq<Entry>, ops: seq<ListOp>, now: nat): seq<Entry>
    decreases ops
  {
    if ops == [] then es else Run(Apply(es, ops[0], now), ops[1..], now + 1)
  }

  ghost predicate Earlier(a: Entry, b: Entry) {
    a.value < b.value || (a.value == b.value && a.stamp < b.stamp)
  }

  /** Nondecreasing values, equal values in the order they were inserted. */
  ghost predicate InOrder(es: seq<Entry>) {
    forall i, j :: 0 <= i < j < |es| ==> Earlier(es[i], es[j])
  }

  ghost predicate StampedBefore(es: seq<Entry>, now: nat) {
    forall i :: 0 <= i < |es| ==> es[i].stamp < now
  }

  lemma InsertKeepsOrder(es: seq<Entry>, e: Entry)
    requires InOrder(es) && StampedBefore(es, e.stamp)
    ensures InOrder(InsertSorted(es, e)) && StampedBefore(InsertSorted(es, e), e.stamp + 1)
  {
    var vs, p, n := Values(es), InsertPosition(Values(es), e.value), InsertSorted(es, e);
    forall i | 0 <= i < |es|
      ensures if i < p then Earlier(es[i], e) else Earlier(e, es[i])
    {
      if i < p {
        assert vs[i] <= e.value;
      } else {
        assert e.value < vs[p];
        assert p < i ==> Earlier(es[p], es[i]);
      }
    }
    OrderAround(es, p, e, n);
  }

  lemma OrderAround(es: seq<Entry>, p: nat, e: Entry, n: seq<Entry>)
    requires InOrder(es) && p <= |es| && n == es[..p] + [e] + es[p..]
    requires forall i :: 0 <= i < |es| ==> if i < p then Earlier(es[i], e) else Earlier(e, es[i])
    ensures InOrder(n)
  {
    forall i, j | 0 <= i < j < |n|
      ensures Earlier(n[i], n[j])
    {
      if i != p && j != p {
        assert Earlier(es[if i < p then i else i - 1], es[if j < p then j else j - 1]);
      } else if i == p {
        assert n[j] == es[j - 1];
      } else {
        assert n[i] == es[i];
      }
    }
  }

  lemma ApplyKeepsOrder(es: seq<Entry>, op: ListOp, now: nat)
    requires InOrder(es) && StampedBefore(es, now)
    ensures InOrder(Apply(es, op, now)) && StampedBefore(Apply(es, op, now), now + 1)
  {
    match op
    case InsertOp(v) => InsertKeepsOrder(es, Entry(v, now));
    case RemoveOp(k) =>
  }

  /** The sorted ring: over every run the list is ordered, first come first among equals. */
  lemma {:induction false} RunKeepsOrder(es: seq<Entry>, ops: seq<ListOp>, now: nat)
    requires InOrder(es) && StampedBefore(es, now)
    ensures InOrder(Run(es, ops, now)) && StampedBefore(Run(es, ops, now), now + |ops|)
    decreases ops
  {
    if ops != [] {
      ApplyKeepsOrder(es, ops[0], now);
      RunKeepsOrder(Apply(es, ops[0], now), ops[1..], now + 1);
    }
  }

  // ------------------------------------------------------------------
  // The linked objects
  // ------------------------------------------------------------------

  // Pairs are compared only where a proof names them, which keeps the heap proofs small.
  ghost predicate Apart<T>(s: seq<T>, i: nat, j: nat) {
    i < |s| && j < |s| && i != j ==> s[i] != s[j]
  }

  ghost predicate Distinct<T>(s: seq<T>) {
    forall i: nat, j: nat {:trigger Apart(s, i, j)} :: Apart(s, i, j)
  }

  lemma ApartFrom<T>(s: seq<T>, p: nat)
    requires Distinct(s) && p < |s|
    ensures forall i :: 0 <= i < |s| && i != p ==> s[i] != s[p]
  {
    forall i | 0 <= i < |s| && i != p
      ensures s[i] != s[p]
    {
      assert Apart(s, i, p);
    }
  }

  lemma DistinctSplice<T>(s: seq<T>, p: nat, x: T)
    requires Distinct(s) && p <= |s| && x !in s
    ensures Distinct(s[..p] + [x] + s[p..])
  {
    var n := s[..p] + [x] + s[p..];
    forall i: nat, j: nat
      ensures Apart(n, i, j)
    {
      if i != p && j != p {
        assert Apart(s, if i < p then i else i - 1, if j < p then j else j - 1);
      }
    }
  }

  lemma DistinctDrop<T>(s: seq<T>, p: nat)
    requires Distinct(s) && p < |s|
    ensures Distinct(s[..p] + s[p + 1..])
  {
    var n := s[..p] + s[p + 1..];
    forall i: nat, j: nat
      ensures Apart(n, i, j)
    {
      assert Apart(s, if i < p then i else i + 1, if j < p then j else j + 1);
    }
  }

  class ListItem {
    var value: TickValue
    var next: ListItem?
    var previous: ListItem?
    var container: List?

    /** vListInitialiseItem */
    constructor (v: TickValue)
      ensures value == v && container == null
    {
      value := v;
      next, previous, container := null, null, null;
    }
  }

  /** Neighbours on the cycle point at each other, and the last item at the first. */
  ghost predicate Linked(links: seq<ListItem>)
    requires links != []
    reads links
  {
    && (forall i {:trigger links[i].next} :: 0 <= i < |links| - 1 ==> links[i].next == links[i + 1])
    && (forall i {:trigger links[i].previous} :: 0 < i < |links| ==> links[i].previous == links[i - 1])
    && links[|links| - 1].next == links[0] && links[0].previous == links[|links| - 1]
  }

  /** Linked, save for the links between places `p` and `p + 1 + skip`. */
  ghost predicate LinkedBut(links: seq<ListItem>, p: nat, skip: nat)
    reads links
  {
    && p + skip < |links|
    && (forall i {:trigger links[i].next} :: 0 <= i < |links| - 1 && !(p <= i <= p + skip) ==>
          links[i].next == links[i + 1])
    && (forall i {:trigger links[i].previous} :: 0 < i < |links| && !(p < i <= p + skip + 1) ==>
          links[i].previous == links[i - 1])
    && (p + skip + 1 != |links| ==> links[|links| - 1].next == links[0] && links[0].previous == links[|links| - 1])
  }

  ghost predicate Contained(links: seq<ListItem>, list: List)
    reads links
  {
    forall i :: 0 < i < |links| ==> links[i].container == list
  }

  function After<T>(links: seq<T>, p: nat): nat {
    if p + 1 < |links| then p + 1 else 0
  }

  ghost function Spliced<T>(links: seq<T>, p: nat, x: T): seq<T>
    requires p < |links|
  {
    links[..p + 1] + [x] + links[p + 1..]
  }

  ghost function Dropped<T>(links: seq<T>, p: nat): seq<T>
    requires p < |links|
  {
    links[..p] + links[p + 1..]
  }

  lemma SplicedAt<T>(links: seq<T>, p: nat, x: T)
    requires p < |links|
    ensures var n := Spliced(links, p, x);
            && |n| == |links| + 1
            && forall i :: 0 <= i < |n| ==> n[i] == if i <= p then links[i] else if i == p + 1 then x else links[i - 1]
  {
  }

  lemma DroppedAt<T>(links: seq<T>, p: nat)
    requires p < |links|
    ensures var n := Dropped(links, p);
            && |n| == |links| - 1
            && forall i :: 0 <= i < |n| ==> n[i] == if i < p then links[i] else links[i + 1]
  {
  }

  /** With its neighbours redirected, the new item is on the cycle behind place `p`. */
  lemma LinkedSplice(links: seq<ListItem>, p: nat, item: ListItem)
    requires LinkedBut(links, p, 0)
    requires links[p].next == item && item.previous == links[p]
    requires item.next == links[After(links, p)] && links[After(links, p)].previous == item
    ensures Linked(Spliced(links, p, item))
  {
    SplicedAt(links, p, item);
  }

  lemma ContainedSplice(list: List, links: seq<ListItem>, p: nat, item: ListItem)
    requires p < |links| && Contained(links, list) && item.container == list
    ensures Contained(Spliced(links, p, item), list)
  {
    SplicedAt(links, p, item);
  }

  lemma RingSplice<T>(links: seq<T>, place: nat, p: nat, x: T)
    requires p < |links| && place < |links|
    ensures var n := Spliced(links, p, x);
            var place' := if p < place then place + 1 else place;
            && n[0] == links[0] && |n| == |links| + 1
            && place' < |n| && n[place'] == links[place]
            && Ring(n[1..], place') == Ring(links[1..], place).InsertAt(p, x)
  {
    assert Spliced(links, p, x)[1..] == links[1..][..p] + [x] + links[1..][p..];
  }

  /** With its neighbours bridged, the item at place `p + 1` is off the cycle. */
  lemma LinkedDrop(links: seq<ListItem>, p: nat)
    requires LinkedBut(links, p, 1)
    requires links[p].next == links[After(links, p + 1)] && links[After(links, p + 1)].previous == links[p]
    ensures Linked(Dropped(links, p + 1))
  {
    DroppedAt(links, p + 1);
  }

  lemma ContainedDrop(list: List, links: seq<ListItem>, p: nat)
    requires p + 1 < |links| && forall i :: 0 < i < |links| && i != p + 1 ==> links[i].container == list
    ensures Contained(Dropped(links, p + 1), list)
  {
    DroppedAt(links, p + 1);
  }

  lemma RingDrop<T>(links: seq<T>, place: nat, p: nat)
    requires p + 1 < |links| && place < |links|
    ensures var n := Dropped(links, p + 1);
            var place' := if p < place then place - 1 else place;
            && n[0] == links[0] && |n| == |links| - 1
            && place' < |n| && n[place'] == links[if place == p + 1 then p else place]
            && Ring(n[1..], place') == Ring(links[1..], place).RemoveAt(p)
  {
    assert Dropped(links, p + 1)[1..] == links[1..][..p] + links[1..][p + 1..];
  }

  /** The cycle once the pointers lead from place `p` through `item`. */
  lemma CycleWith(list: List, links: seq<ListItem>, at: nat, p: nat, item: ListItem)
    returns (n: seq<ListItem>, place: nat)
    requires Distinct(links) && LinkedBut(links, p, 0) && Contained(links, list) && at < |links|
    requires item !in links && item.container == list
    requires links[p].next == item && item.previous == links[p]
    requires item.next == links[After(links, p)] && links[After(links, p)].previous == item
    ensures |n| == |links| + 1 && n[0] == links[0] && place < |n| && n[place] == links[at]
    ensures Distinct(n) && Linked(n) && Contained(n, list)
    ensures Ring(n[1..], place) == Ring(links[1..], at).InsertAt(p, item)
  {
    n := Spliced(links, p, item);
    place := if p < at then at + 1 else at;
    DistinctSplice(links, p + 1, item);
    LinkedSplice(links, p, item);
    ContainedSplice(list, links, p, item);
    RingSplice(links, at, p, item);
  }

  /** The cycle once the pointers lead past place `p + 1`. */
  lemma CycleWithout(list: List, links: seq<ListItem>, at: nat, p: nat)
    returns (n: seq<ListItem>, place: nat)
    requires Distinct(links) && LinkedBut(links, p, 1) && at < |links|
    requires forall i :: 0 < i < |links| && i != p + 1 ==> links[i].container == list
    requires links[p].next == links[After(links, p + 1)] && links[After(links, p + 1)].previous == links[p]
    ensures |n| == |links| - 1 && n[0] == links[0] && place < |n| && n[place] == links[if at == p + 1 then p else at]
    ensures Distinct(n) && Linked(n) && Contained(n, list)
    ensures Ring(n[1..], place) == Ring(links[1..], at).RemoveAt(p)
  {
    n := Dropped(links, p + 1);
    place := if p < at then at - 1 else at;
    DistinctDrop(links, p + 1);
    LinkedDrop(links, p);
    ContainedDrop(list, links, p);
    RingDrop(links, at, p);
  }

  class List {
    var numberOfItems: nat
    var index: ListItem
    const end: ListItem
    // The cycle through the end marker, which is links[0], and the place of the index on it.
    ghost var links: seq<ListItem>
    ghost var place: nat

    ghost predicate Valid()
      reads this, links
    {
      && |links| > 0 && links[0] == end && Distinct(links) && Linked(links) && Contained(links, this)
      && end.value == MAX_DELAY
      && numberOfItems == |links| - 1
      && place < |links| && index == links[place]
    }

    ghost function View(): (r: Ring<ListItem>)
      requires Valid()
      reads this, links
      ensures r.Valid()
    {
      Ring(links[1..], place)
    }

    ghost function ItemValues(): (vs: seq<nat>)
      requires Valid()
      reads this, links
      ensures |vs| == |links| - 1 && forall i :: 0 <= i < |vs| ==> vs[i] == links[i + 1].value
    {
      seq(|links| - 1, i requires 0 <= i < |links| - 1 reads this, links => links[i + 1].value)
    }

    /** vListInitialise */
    constructor ()
      ensures Valid() && View() == Ring([], 0)
      ensures fresh(links)
    {
      var marker := new ListItem(MAX_DELAY);
      end, index := marker, marker;
      numberOfItems := 0;
      links, place := [marker], 0;
      new;
      marker.next, marker.previous := marker, marker;
    }

    method InsertEnd(item: ListItem)
      requires Valid() && item !in links
      modifies this`numberOfItems, this`links, this`place, links`next, links`previous
      modifies item`next, item`previous, item`container
      ensures Valid() && View() == old(View()).InsertEnd(item)
    {
      hide Distinct;
      ghost var ring := View();
      ghost var p := ring.EndPlace();
      assert index == links[After(links, p)] && index.previous == links[p];
      ApartFrom(links, p);
      ApartFrom(links, After(links, p));
      item.next := index;
      item.previous := index.previous;
      index.previous.next := item;
      index.previous := item;
      item.container := this;
      numberOfItems := numberOfItems + 1;
      Adopt(item, p, ring);
    }

    /** vListInsert; the search needs no order among the items to terminate. */
    method Insert(item: ListItem)
      requires Valid() && item !in links
      modifies this`numberOfItems, this`links, this`place, links`next, links`previous
      modifies item`next, item`previous, item`container
      ensures Valid()
      ensures View() == old(View()).InsertAt(InsertPosition(old(ItemValues()), item.value), item)
    {
      var cursor, p := SearchPlace(item.value);
      LinkBehind(cursor, item, p);
    }

    /** The first half of vListInsert: the item to insert behind, and its place. */
    method SearchPlace(v: TickValue) returns (cursor: ListItem, ghost p: nat)
      requires Valid()
      ensures p < |links| && cursor == links[p] && p == InsertPosition(ItemValues(), v)
    {
      if v == MAX_DELAY {
        cursor := end.previous;
        p := |links| - 1;
      } else {
        cursor := end;
        p := 0;
        while cursor.next.value <= v
          invariant 0 <= p < |links| && cursor == links[p]
          invariant forall i :: 0 < i <= p ==> links[i].value <= v
          invariant cursor.next == if p == |links| - 1 then end else links[p + 1]
          decreases |links| - p
        {
          cursor := cursor.next;
          p := p + 1;
          assert cursor.next == links[After(links, p)];
        }
      }
      InsertPositionUnique(ItemValues(), v, p);
    }

    /** The second half of vListInsert. */
    method LinkBehind(cursor: ListItem, item: ListItem, ghost p: nat)
      requires Valid() && item !in links && p < |links| && cursor == links[p]
      modifies this`numberOfItems, this`links, this`place, links`next, links`previous
      modifies item`next, item`previous, item`container
      ensures Valid() && View() == old(View()).InsertAt(p, item)
    {
      hide Distinct;
      ghost var ring := View();
      assert cursor.next == links[After(links, p)];
      ApartFrom(links, p);
      ApartFrom(links, After(links, p));
      item.next := cursor.next;
      item.next.previous := item;
      item.previous := cursor;
      cursor.next := item;
      item.container := this;
      numberOfItems := numberOfItems + 1;
      Adopt(item, p, ring);
    }

    /** Once the pointers lead from place `p` through `item`, the ring has it there. */
    ghost method Adopt(item: ListItem, p: nat, ring: Ring<ListItem>)
      requires |links| > 0 && links[0] == end && end.value == MAX_DELAY && numberOfItems == |links|
      requires place < |links| && ring == Ring(links[1..], place)
      requires index == links[place]
      requires Distinct(links) && LinkedBut(links, p, 0) && Contained(links, this)
      requires item !in links && item.container == this
      requires links[p].next == item && item.previous == links[p]
      requires item.next == links[After(links, p)] && links[After(links, p)].previous == item
      modifies this`links, this`place
      ensures Valid() && View() == ring.InsertAt(p, item)
    {
      ghost var n, at := CycleWith(this, links, place, p, item);
      assert forall x :: x in n ==> x as object != this;
      links, place := n, at;
    }

    /** Once the pointers lead past place `p + 1`, the ring is without it. */
    ghost method Release(p: nat, ring: Ring<ListItem>)
      requires |links| > 1 && links[0] == end && end.value == MAX_DELAY && numberOfItems == |links| - 2
      requires place < |links| && ring == Ring(links[1..], place)
      requires index == links[if place == p + 1 then p else place]
      requires Distinct(links) && LinkedBut(links, p, 1)
      requires forall i :: 0 < i < |links| && i != p + 1 ==> links[i].container == this
      requires links[p].next == links[After(links, p + 1)] && links[After(links, p + 1)].previous == links[p]
      modifies this`links, this`place
      ensures Valid() && View() == ring.RemoveAt(p)
    {
      ghost var n, at := CycleWithout(this, links, place, p);
      assert forall x :: x in n ==> x as object != this;
      links, place := n, at;
    }

    /** listGET_OWNER_OF_NEXT_ENTRY */
    method NextEntry() returns (item: ListItem)
      requires Valid() && numberOfItems > 0
      modifies this`index, this`place
      ensures Valid() && View() == old(View()).Next()
      ensures item == index == old(View()).Walk()[0]
    {
      ApartFrom(links, 0);
      assert index.next == links[After(links, place)];
      index := index.next;
      place := After(links, place);
      if index == end {
        assert index.next == links[1];
        index := index.next;
        place := 1;
      }
      item := index;
    }

    /** The body of uxListRemove, on the list the item is in. */
    method Unlink(item: ListItem, ghost k: nat) returns (remaining: nat)
      requires Valid() && k + 1 < |links| && links[k + 1] == item
      modifies item`container, this`numberOfItems, this`index, this`links, this`place, links`next, links`previous
      ensures Valid() && View() == old(View()).RemoveAt(k)
      ensures remaining == numberOfItems && item.container == null
    {
      hide Distinct, Linked;
      ghost var ring := View();
      Bypass(item, k);
      ApartFrom(links, k + 1);
      item.container := null;
      numberOfItems := numberOfItems - 1;
      remaining := numberOfItems;
      Release(k, ring);
    }

    /** uxListRemove's writes to the links and the index */
    method Bypass(item: ListItem, ghost k: nat)
      requires Valid() && k + 1 < |links| && links[k + 1] == item
      modifies this`index, links`next, links`previous
      ensures LinkedBut(links, k, 1)
      ensures links[k].next == links[After(links, k + 1)] && links[After(links, k + 1)].previous == links[k]
      ensures index == links[if place == k + 1 then k else place]
    {
      hide Distinct;
      assert item.previous == links[k] && item.next == links[After(links, k + 1)];
      ApartFrom(links, k);
      ApartFrom(links, k + 1);
      ApartFrom(links, After(links, k + 1));
      item.next.previous := item.previous;
      item.previous.next := item.next;
      if index == item {
        index := item.previous;
      }
    }
  }

  lemma {:induction false} InsertPositionUnique(values: seq<nat>, v: nat, p: nat)
    requires p <= |values| && (forall j :: 0 <= j < p ==> values[j] <= v)
    requires p < |values| ==> v < values[p]
    ensures InsertPosition(values, v) == p
  {
    if values != [] && values[0] <= v {
      InsertPositionUnique(values[1..], v, p - 1);
    }
  }

  /** uxListRemove: the item names its list; `k` is where it stands there. */
  method Remove(item: ListItem, ghost k: nat) returns (remaining: nat)
    requires item.container != null && item.container.Valid()
    requires k + 1 < |item.container.links| && item.container.links[k + 1] == item
    modifies item`container, item.container, item.container.links`next, item.container.links`previous
    ensures var list := old(item.container);
            && list.Valid() && list.View() == old(list.View()).RemoveAt(k)
            && remaining == |list.View().items|
            && item.container == null
  {
    remaining := item.container.Unlink(item, k);
  }
}
