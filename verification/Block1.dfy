/**
 Reassembly of block-wise uploads: external/wakaama/block1.c, for the Block1
 option of section 2.5 of RFC 7959.
 */
module Block1 {
  import opened Bytes

  const MAX_BLOCK1_SIZE: nat := 4096

  /** lwm2m_block1_data_t: what has been put together, and the message ID of the last block taken */
  datatype Store = Store(buffer: seq<byte>, lastmid: nat)

  datatype Request = Request(mid: nat, payload: seq<byte>, size: nat, num: nat, more: bool)

  datatype Reply =
    | Continue                       // 2.31
    | Complete(body: seq<byte>)      // NO_ERROR with the output buffer
    | Incomplete                     // 4.08
    | TooLarge                       // 4.13

  /** blockSize * blockNum, in 32 bits */
  function Expected(r: Request): nat {
    r.size * r.num % 0x1_0000_0000
  }

  /** What becomes of a block other than the first of a transfer */
  datatype Verdict = Refused(reply: Reply) | Repeated | Appended

  function Judge(st: Option<Store>, r: Request): Verdict {
    if st.None? then Refused(Incomplete)
    else if st.value.lastmid == r.mid then Repeated
    else if |st.value.buffer| != Expected(r) then Refused(Incomplete)
    else if |st.value.buffer| + |r.payload| >= MAX_BLOCK1_SIZE then Refused(TooLarge)
    else Appended
  }

  /** The store after coap_block1_handler */
  function After(st: Option<Store>, r: Request): Option<Store> {
    if r.num == 0 then Some(Store(r.payload, r.mid))
    else if Judge(st, r).Appended? then Some(Store(st.value.buffer + r.payload, r.mid))
    else st
  }

  /** What it answers */
  function Answer(st: Option<Store>, r: Request): Reply {
    if r.num != 0 && Judge(st, r).Refused? then Judge(st, r).reply
    else if r.more then Continue
    else Complete(After(st, r).value.buffer)
  }

  /** Which answer a block gets, in terms of what is stored and what it asks for */
  lemma AnswersAre(st: Option<Store>, r: Request)
    ensures var inOrder := st.Some? && |st.value.buffer| == r.size * r.num % 0x1_0000_0000;
            var again := st.Some? && r.mid == st.value.lastmid;
            var tooLong := st.Some? && |st.value.buffer| + |r.payload| >= 4096;
            && (Answer(st, r) == Incomplete <==> r.num != 0 && !again && !inOrder)
            && (Answer(st, r) == TooLarge <==> r.num != 0 && !again && inOrder && tooLong)
            && (Answer(st, r) == Continue <==> r.more && (r.num == 0 || again || (inOrder && !tooLong)))
            && (r.num == 0 ==> After(st, r) == Some(Store(r.payload, r.mid)))
            && (r.num != 0 && !again && inOrder && !tooLong ==>
                  After(st, r) == Some(Store(st.value.buffer + r.payload, r.mid)))
            && (Answer(st, r).Complete? ==> After(st, r).Some? && Answer(st, r).body == After(st, r).value.buffer)
  {
  }

  // ------------------------------------------------------------------
  // Any sequence of calls
  // ------------------------------------------------------------------

  function Run(st: Option<Store>, reqs: seq<Request>): Option<Store>
    decreases |reqs|
  {
    if reqs == [] then st else After(Run(st, reqs[..|reqs| - 1]), reqs[|reqs| - 1])
  }

  /** A block was taken: the call neither refused it nor met it again. */
  predicate Taken(st: Option<Store>, r: Request) {
    r.num == 0 || Judge(st, r).Appended?
  }

  /** The payloads of block 0 and of the blocks taken since */
  function Gathered(reqs: seq<Request>): seq<seq<byte>>
    decreases |reqs|
  {
    if reqs == [] then []
    else
      var before, r := reqs[..|reqs| - 1], reqs[|reqs| - 1];
      if r.num == 0 then [r.payload]
      else if Taken(Run(None, before), r) then Gathered(before) + [r.payload]
      else Gathered(before)
  }

  function Concat(parts: seq<seq<byte>>): seq<byte>
    decreases |parts|
  {
    if parts == [] then [] else Concat(parts[..|parts| - 1]) + parts[|parts| - 1]
  }

  /** The stored buffer is block 0 followed by the blocks accepted since, whatever was called. */
  lemma {:induction false} StoreIsConcatenation(reqs: seq<Request>)
    ensures match Run(None, reqs)
            case None => Gathered(reqs) == []
            case Some(store) => Gathered(reqs) != [] && store.buffer == Concat(Gathered(reqs))
    decreases |reqs|
  {
    if reqs != [] {
      var before, r := reqs[..|reqs| - 1], reqs[|reqs| - 1];
      StoreIsConcatenation(before);
      var g := Gathered(before);
      assert Concat([r.payload]) == [] + r.payload;
      assert (g + [r.payload])[..|g|] == g;
    }
  }

  /** A block refused, or carrying the last message ID again, changes nothing. */
  lemma RefusedChangesNothing(st: Option<Store>, r: Request)
    requires r.num != 0
    ensures Answer(st, r) == Incomplete || Answer(st, r) == TooLarge ==> After(st, r) == st
    ensures st.Some? && r.mid == st.value.lastmid ==>
              After(st, r) == st && Answer(st, r) == if r.more then Continue else Complete(st.value.buffer)
  {
  }

  /** No append makes the buffer reach the limit: if it is as long, it is a first block by itself. */
  lemma {:induction false} SizeLimited(reqs: seq<Request>)
    ensures match Run(None, reqs)
            case None => true
            case Some(store) => |store.buffer| >= MAX_BLOCK1_SIZE ==> Gathered(reqs) == [store.buffer]
    decreases |reqs|
  {
    if reqs != [] {
      SizeLimited(reqs[..|reqs| - 1]);
    }
  }

  // ------------------------------------------------------------------
  // One transfer
  // ------------------------------------------------------------------

  /** A body cut into blocks of `size` bytes, block `i` sent in message `mids[i]` */
  datatype Transfer = Transfer(body: seq<byte>, size: nat, mids: seq<nat>) {

    function Blocks(): nat {
      |mids|
    }

    ghost predicate Valid() {
      && 0 < size < 0x1_0000 && 0 < Blocks() && |body| < 0x1_0000_0000
      && |body| <= Blocks() * size
      && (Blocks() > 1 ==> (Blocks() - 1) * size < |body|)
      && forall i, j :: 0 <= i < j < Blocks() ==> mids[i] != mids[j]
    }

    /** How much of the body the first `k` blocks hold */
    function Cut(k: nat): (c: nat)
      ensures c == if k * size <= |body| then k * size else |body|
    {
      if k == 0 then 0
      else
        assert k * size == (k - 1) * size + size;
        if Cut(k - 1) + size <= |body| then Cut(k - 1) + size else |body|
    }

    function Block(i: nat): Request
      requires i < Blocks()
    {
      Request(mids[i], body[Cut(i)..Cut(i + 1)], size, i, i + 1 < Blocks())
    }
  }

  lemma MulOrder(a: nat, b: nat, s: nat)
    requires a < b && s > 0
    ensures a * s < b * s && a * s + s <= b * s
  {
    var d := b - a - 1;
    assert b * s == a * s + s + d * s;
  }

  lemma Cuts(t: Transfer, i: nat)
    requires t.Valid() && i < t.Blocks()
    ensures t.Cut(0) == 0 && t.Cut(i) <= t.Cut(i + 1) && t.Cut(i) == i * t.size
    ensures t.Cut(t.Blocks()) == |t.body| && (i > 0 ==> i * t.size < |t.body|)
  {
    if i + 1 < t.Blocks() {
      MulOrder(i, t.Blocks() - 1, t.size);
    }
    MulOrder(i, i + 1, t.size);
  }

  /** A block asks for the size its place in the body gives. */
  lemma Asks(t: Transfer, i: nat)
    requires t.Valid() && 0 < i < t.Blocks()
    ensures Expected(t.Block(i)) == t.Cut(i)
  {
    Cuts(t, i);
    RemainderUnique(i * t.size, 0x1_0000_0000, 0, i * t.size);
    assert t.size * i == i * t.size;
  }

  lemma CutsRise(t: Transfer, i: nat, k: nat)
    requires t.Valid() && i < k <= t.Blocks() && i < t.Blocks()
    ensures i > 0 || t.body != [] ==> t.Cut(i) < t.Cut(k)
  {
    Cuts(t, i);
    if k < t.Blocks() {
      Cuts(t, k);
      MulOrder(i, k, t.size);
    }
  }

  /** The first `k` blocks are held, the last of them taken last. */
  ghost predicate Holds(t: Transfer, st: Option<Store>, k: nat) {
    && 0 < k <= t.Blocks()
    && st == Some(Store(t.body[..t.Cut(k)], t.mids[k - 1]))
    && (k > 1 ==> t.Cut(k) < MAX_BLOCK1_SIZE)
  }

  /** How many blocks are held once block `i` is delivered with `k` held */
  function Step(t: Transfer, k: nat, i: nat): nat {
    if i == 0 then 1
    else if i == k && t.Cut(i + 1) < MAX_BLOCK1_SIZE then k + 1
    else k
  }

  /** Delivering any block of the transfer, in or out of turn, leads to a whole number of its blocks. */
  lemma DeliverOne(t: Transfer, st: Option<Store>, k: nat, i: nat)
    requires t.Valid() && i < t.Blocks() && (i == 0 || Holds(t, st, k)) && k <= t.Blocks()
    ensures Holds(t, After(st, t.Block(i)), Step(t, k, i))
    ensures var k' := Step(t, k, i);
            Answer(st, t.Block(i)) ==
              if k' < i + 1 then if i == k then TooLarge else Incomplete
              else if k' > i + 1 && i != 0 then Incomplete
              else if i + 1 < t.Blocks() then Continue
              else Complete(t.body)
  {
    hide Transfer.Cut, Expected;
    Cuts(t, i);
    if i > 0 {
      Asks(t, i);
      if i < k {
        CutsRise(t, i, k);
      } else if k < i {
        CutsRise(t, k, i);
      }
      Joined(t.body, t.Cut(i), t.Cut(i + 1));
    }
    assert t.body[..|t.body|] == t.body;
  }

  lemma Joined(body: seq<byte>, i: nat, j: nat)
    requires i <= j <= |body|
    ensures body[..i] + body[i..j] == body[..j]
  {
  }

  // ------------------------------------------------------------------
  // Any deliveries of one transfer
  // ------------------------------------------------------------------

  /** Deliveries are block numbers, in any order and number, with block 0 first. */
  ghost predicate Deliveries(t: Transfer, ds: seq<nat>) {
    ds != [] && ds[0] == 0 && forall p :: 0 <= p < |ds| ==> ds[p] < t.Blocks()
  }

  function Requests(t: Transfer, ds: seq<nat>): (rs: seq<Request>)
    requires forall p :: 0 <= p < |ds| ==> ds[p] < t.Blocks()
    ensures |rs| == |ds|
    decreases |ds|
  {
    if ds == [] then [] else Requests(t, ds[..|ds| - 1]) + [t.Block(ds[|ds| - 1])]
  }

  function Held(t: Transfer, ds: seq<nat>): nat
    decreases |ds|
  {
    if ds == [] then 0 else Step(t, Held(t, ds[..|ds| - 1]), ds[|ds| - 1])
  }

  lemma {:induction false} DeliverAll(t: Transfer, st: Option<Store>, ds: seq<nat>)
    requires t.Valid() && Deliveries(t, ds)
    ensures Holds(t, Run(st, Requests(t, ds)), Held(t, ds))
    decreases |ds|
  {
    var front, i := ds[..|ds| - 1], ds[|ds| - 1];
    var before, rs := Run(st, Requests(t, front)), Requests(t, ds);
    assert rs[..|rs| - 1] == Requests(t, front);
    if front != [] {
      DeliverAll(t, st, front);
    }
    DeliverOne(t, before, Held(t, front), i);
  }

  /** What the last delivery is answered */
  function LastAnswer(t: Transfer, st: Option<Store>, ds: seq<nat>): Reply
    requires ds != [] && forall p :: 0 <= p < |ds| ==> ds[p] < t.Blocks()
  {
    Answer(Run(st, Requests(t, ds[..|ds| - 1])), t.Block(ds[|ds| - 1]))
  }

  lemma AnswerOfLast(t: Transfer, st: Option<Store>, ds: seq<nat>)
    requires t.Valid() && Deliveries(t, ds)
    ensures Held(t, ds) <= t.Blocks()
    ensures LastAnswer(t, st, ds).Complete? <==> ds[|ds| - 1] == t.Blocks() - 1 && Held(t, ds) == t.Blocks()
    ensures LastAnswer(t, st, ds).Complete? ==> LastAnswer(t, st, ds).body == t.body
  {
    var front := ds[..|ds| - 1];
    if front != [] {
      DeliverAll(t, st, front);
    }
    DeliverOne(t, Run(st, Requests(t, front)), Held(t, front), ds[|ds| - 1]);
  }

  /** Whatever is lost, repeated or out of order, and whatever was stored before, a body given out is the body sent. */
  lemma OnlyTheBody(t: Transfer, st: Option<Store>, ds: seq<nat>)
    requires t.Valid() && Deliveries(t, ds)
    ensures LastAnswer(t, st, ds).Complete? ==> LastAnswer(t, st, ds).body == t.body
  {
    AnswerOfLast(t, st, ds);
  }

  // ------------------------------------------------------------------
  // Other uploads in between
  // ------------------------------------------------------------------

  /** A delivery of the transfer, or a request of some other */
  datatype Delivery = Own(i: nat) | Other(request: Request)

  /**
   The lengths the blocks of a transfer add up to: another upload's block that
   asks for none of them is never taken.
   */
  ghost predicate Harmless(t: Transfer, r: Request) {
    r.num != 0 && forall k :: 0 < k <= t.Blocks() ==> Expected(r) != t.Cut(k)
  }

  ghost predicate Mixture(t: Transfer, ds: seq<Delivery>) {
    && ds != [] && ds[0] == Own(0)
    && forall p :: 0 <= p < |ds| ==> if ds[p].Own? then ds[p].i < t.Blocks() else Harmless(t, ds[p].request)
  }

  function RequestOf(t: Transfer, d: Delivery): Request
    requires d.Own? ==> d.i < t.Blocks()
  {
    match d
    case Own(i) => t.Block(i)
    case Other(r) => r
  }

  function RequestsOf(t: Transfer, ds: seq<Delivery>): (rs: seq<Request>)
    requires forall p :: 0 <= p < |ds| && ds[p].Own? ==> ds[p].i < t.Blocks()
    ensures |rs| == |ds|
    decreases |ds|
  {
    if ds == [] then [] else RequestsOf(t, ds[..|ds| - 1]) + [RequestOf(t, ds[|ds| - 1])]
  }

  /**
   With `k` blocks of a transfer held, a block of another upload is taken
   exactly when it asks for just their length, carries another message ID than
   the last of them, and stays under the limit.
   */
  lemma OtherTakenIff(t: Transfer, st: Option<Store>, k: nat, r: Request)
    requires t.Valid() && Holds(t, st, k) && r.num != 0
    ensures Taken(st, r) <==>
              r.mid != t.mids[k - 1] && Expected(r) == t.Cut(k) && t.Cut(k) + |r.payload| < MAX_BLOCK1_SIZE
    ensures !Taken(st, r) ==> After(st, r) == st
  {
  }

  lemma {:induction false} MixtureHolds(t: Transfer, st: Option<Store>, ds: seq<Delivery>) returns (k: nat)
    requires t.Valid() && Mixture(t, ds)
    ensures Holds(t, Run(st, RequestsOf(t, ds)), k)
    decreases |ds|
  {
    var front, last := ds[..|ds| - 1], ds[|ds| - 1];
    var rs := RequestsOf(t, ds);
    assert rs[..|rs| - 1] == RequestsOf(t, front);
    k := 0;
    if front != [] {
      k := MixtureHolds(t, st, front);
    }
    match last
    case Own(i) =>
      DeliverOne(t, Run(st, RequestsOf(t, front)), k, i);
      k := Step(t, k, i);
    case Other(r) => OtherTakenIff(t, Run(st, RequestsOf(t, front)), k, r);
  }

  /**
   Among other uploads' blocks that ask for no length of this one, a body given
   out for its block is the body sent.
   */
  lemma OnlyTheBodyAmong(t: Transfer, st: Option<Store>, ds: seq<Delivery>, i: nat)
    requires t.Valid() && Mixture(t, ds) && i < t.Blocks()
    ensures var before := Run(st, RequestsOf(t, ds));
            Answer(before, t.Block(i)).Complete? ==> Answer(before, t.Block(i)).body == t.body
  {
    var k := MixtureHolds(t, st, ds);
    DeliverOne(t, Run(st, RequestsOf(t, ds)), k, i);
  }

  /** But a block of another upload that does ask for such a length completes a body made of both. */
  lemma TwoUploadsMix(a: Transfer, b: Transfer, st: Option<Store>)
    requires a.Valid() && b.Valid() && a.Blocks() == b.Blocks() == 2 && a.size == b.size
    requires a.mids[0] != b.mids[1] && |b.body| < MAX_BLOCK1_SIZE
    ensures Answer(After(st, a.Block(0)), b.Block(1)) == Complete(a.body[..a.Cut(1)] + b.body[b.Cut(1)..])
  {
    Cuts(a, 0);
    Cuts(a, 1);
    Cuts(b, 1);
    Asks(b, 1);
    DeliverOne(a, st, 0, 0);
    assert b.body[b.Cut(1)..b.Cut(2)] == b.body[b.Cut(1)..];
  }

  /** The transfer as the handler sees it once block `k` has come from another upload */
  function Spoilt(t: Transfer, k: nat, r: Request): Transfer
    requires k < t.Blocks()
  {
    CutRises(t, k, k + 1);
    t.(body := t.body[..t.Cut(k)] + r.payload + t.body[t.Cut(k + 1)..], mids := t.mids[k := r.mid])
  }

  lemma SpoiltIs(t: Transfer, k: nat, r: Request)
    requires t.Valid() && k < t.Blocks()
    requires |r.payload| == t.Cut(k + 1) - t.Cut(k) && r.mid !in t.mids
    ensures Spoilt(t, k, r).Valid() && forall i: nat :: Spoilt(t, k, r).Cut(i) == t.Cut(i)
    ensures Spoilt(t, k, r).body[..t.Cut(k + 1)] == t.body[..t.Cut(k)] + r.payload
    ensures Spoilt(t, k, r).body == t.body <==> r.payload == t.Block(k).payload
  {
    var s := Spoilt(t, k, r);
    CutRises(t, k, k + 1);
    assert |s.body| == |t.body|;
    assert s.body[t.Cut(k)..t.Cut(k + 1)] == r.payload;
    Joined(t.body, t.Cut(k), t.Cut(k + 1));
    assert t.body == t.body[..t.Cut(k + 1)] + t.body[t.Cut(k + 1)..];
  }

  lemma SpoiltBlock(t: Transfer, k: nat, r: Request, i: nat)
    requires t.Valid() && k < t.Blocks() && i < t.Blocks() && i != k
    requires |r.payload| == t.Cut(k + 1) - t.Cut(k) && r.mid !in t.mids
    ensures Spoilt(t, k, r).Block(i) == t.Block(i)
  {
    hide Transfer.Cut, Transfer.Valid;
    SpoiltIs(t, k, r);
    CutRises(t, k, k + 1);
    CutRises(t, i, i + 1);
    if i < k {
      CutRises(t, i + 1, k);
    } else {
      CutRises(t, k + 1, i);
    }
    SameSlice(t.body, t.Cut(k), t.Cut(k + 1), r.payload, t.Cut(i), t.Cut(i + 1));
  }

  lemma SameSlice(body: seq<byte>, i: nat, j: nat, part: seq<byte>, from: nat, to: nat)
    requires i <= j <= |body| && |part| == j - i && from <= to <= |body| && (to <= i || j <= from)
    ensures (body[..i] + part + body[j..])[from..to] == body[from..to]
  {
  }

  /** How many blocks are held after some deliveries with `k` held before */
  function HeldFrom(t: Transfer, k: nat, ds: seq<nat>): nat
    decreases |ds|
  {
    if ds == [] then k else Step(t, HeldFrom(t, k, ds[..|ds| - 1]), ds[|ds| - 1])
  }

  lemma {:induction false} DeliverMore(t: Transfer, st: Option<Store>, k: nat, ds: seq<nat>)
    requires t.Valid() && Holds(t, st, k) && forall p :: 0 <= p < |ds| ==> ds[p] < t.Blocks()
    ensures Holds(t, Run(st, Requests(t, ds)), HeldFrom(t, k, ds))
    decreases |ds|
  {
    if ds != [] {
      var front, i := ds[..|ds| - 1], ds[|ds| - 1];
      var rs := Requests(t, ds);
      assert rs[..|rs| - 1] == Requests(t, front);
      DeliverMore(t, st, k, front);
      DeliverOne(t, Run(st, Requests(t, front)), HeldFrom(t, k, front), i);
    }
  }

  /** The other blocks of the transfer, neither block 0 nor block `k` */
  ghost predicate Others(t: Transfer, k: nat, ds: seq<nat>) {
    forall p :: 0 <= p < |ds| ==> 0 < ds[p] < t.Blocks() && ds[p] != k
  }

  lemma {:induction false} SpoiltRequests(t: Transfer, k: nat, r: Request, ds: seq<nat>)
    requires t.Valid() && k < t.Blocks() && Others(t, k, ds)
    requires |r.payload| == t.Cut(k + 1) - t.Cut(k) && r.mid !in t.mids
    ensures Requests(Spoilt(t, k, r), ds) == Requests(t, ds)
    decreases |ds|
  {
    if ds != [] {
      SpoiltRequests(t, k, r, ds[..|ds| - 1]);
      SpoiltBlock(t, k, r, ds[|ds| - 1]);
    }
  }

  lemma SpoiltHolds(t: Transfer, st: Option<Store>, k: nat, r: Request)
    requires t.Valid() && Holds(t, st, k) && k < t.Blocks() && r.num != 0 && Taken(st, r)
    requires |r.payload| == t.Cut(k + 1) - t.Cut(k) && r.mid !in t.mids
    ensures var s := Spoilt(t, k, r);
            && s.Valid() && |s.body| == |t.body| && (s.body == t.body <==> r.payload == t.Block(k).payload)
            && Holds(s, After(st, r), k + 1)
    ensures !r.more ==> Answer(st, r) == Complete(t.body[..t.Cut(k)] + r.payload)
  {
    CutRises(t, k, k + 1);
    SpoiltIs(t, k, r);
    OtherTakenIff(t, st, k, r);
  }

  /**
   Exactly what one block of another upload does to this one. `k` blocks are
   held and it is taken, as long as block `k`. Whatever other blocks of the
   transfer come then, a body given out for the last of them has it in place of
   block `k`: it is the body sent if and only if the two are the same bytes.
   And the block itself is answered with such a body if it claims to be the
   last.
   */
  lemma SpoiltBody(t: Transfer, st: Option<Store>, k: nat, r: Request, ds: seq<nat>)
    requires t.Valid() && Holds(t, st, k) && k < t.Blocks() && r.num != 0 && Taken(st, r) && Others(t, k, ds)
    requires |r.payload| == t.Cut(k + 1) - t.Cut(k) && r.mid !in t.mids
    ensures !r.more ==> Answer(st, r) == Complete(t.body[..t.Cut(k)] + r.payload)
    ensures ds != [] && LastAnswer(t, After(st, r), ds).Complete? ==>
              var body := LastAnswer(t, After(st, r), ds).body;
              && body == t.body[..t.Cut(k)] + r.payload + t.body[t.Cut(k + 1)..]
              && (body == t.body <==> r.payload == t.Block(k).payload)
  {
    hide Transfer.Cut, Transfer.Valid, HeldFrom, Step;
    var s := Spoilt(t, k, r);
    SpoiltHolds(t, st, k, r);
    if ds != [] {
      var front, i := ds[..|ds| - 1], ds[|ds| - 1];
      SameLastAnswer(t, k, r, After(st, r), ds);
      DeliverMore(s, After(st, r), k + 1, front);
      DeliverOne(s, Run(After(st, r), Requests(s, front)), HeldFrom(s, k + 1, front), i);
    }
  }

  /** Blocks from `k` to the last, in order */
  function Onwards(t: Transfer, k: nat): (ds: seq<nat>)
    requires k <= t.Blocks()
    ensures |ds| == t.Blocks() - k && forall p :: 0 <= p < |ds| ==> ds[p] == k + p
  {
    seq(t.Blocks() - k, p requires 0 <= p < t.Blocks() - k => k + p)
  }

  lemma {:induction false} HeldOnwards(t: Transfer, k: nat, n: nat)
    requires t.Valid() && 0 < k && k + n <= t.Blocks() && |t.body| < MAX_BLOCK1_SIZE
    ensures HeldFrom(t, k, Onwards(t, k)[..n]) == k + n
    decreases n
  {
    if n > 0 {
      HeldOnwards(t, k, n - 1);
      var ds := Onwards(t, k)[..n];
      assert ds[..|ds| - 1] == Onwards(t, k)[..n - 1];
      assert t.Cut(k + n) <= |t.body|;
    }
  }

  lemma OnwardsComplete(t: Transfer, st: Option<Store>, k: nat)
    requires t.Valid() && Holds(t, st, k) && k < t.Blocks() && |t.body| < MAX_BLOCK1_SIZE
    ensures LastAnswer(t, st, Onwards(t, k)) == Complete(t.body)
  {
    hide Transfer.Cut, Transfer.Valid, HeldFrom;
    var n := t.Blocks() - k - 1;
    var front := Onwards(t, k)[..n];
    DeliverMore(t, st, k, front);
    HeldOnwards(t, k, n);
    DeliverOne(t, Run(st, Requests(t, front)), k + n, k + n);
    WithinBody(t, k + n + 1);
  }

  lemma WithinBody(t: Transfer, k: nat)
    ensures t.Cut(k) <= |t.body|
  {
  }

  lemma SameLastAnswer(t: Transfer, k: nat, r: Request, st: Option<Store>, ds: seq<nat>)
    requires t.Valid() && k < t.Blocks() && Others(t, k, ds) && ds != []
    requires |r.payload| == t.Cut(k + 1) - t.Cut(k) && r.mid !in t.mids
    ensures LastAnswer(Spoilt(t, k, r), st, ds) == LastAnswer(t, st, ds)
  {
    hide Transfer.Cut, Transfer.Valid;
    SpoiltRequests(t, k, r, ds[..|ds| - 1]);
    SpoiltBlock(t, k, r, ds[|ds| - 1]);
  }

  /** If the rest of a body under the limit comes in order, the mixed body is given out. */
  lemma SpoiltCompletes(t: Transfer, st: Option<Store>, k: nat, r: Request)
    requires t.Valid() && Holds(t, st, k) && k + 1 < t.Blocks() && r.num != 0 && Taken(st, r)
    requires |r.payload| == t.Cut(k + 1) - t.Cut(k) && r.mid !in t.mids && |t.body| < MAX_BLOCK1_SIZE
    ensures LastAnswer(t, After(st, r), Onwards(t, k + 1)) == Complete(Spoilt(t, k, r).body)
  {
    hide Transfer.Cut, Transfer.Valid;
    SpoiltHolds(t, st, k, r);
    SameLastAnswer(t, k, r, After(st, r), Onwards(t, k + 1));
    assert Onwards(Spoilt(t, k, r), k + 1) == Onwards(t, k + 1);
    OnwardsComplete(Spoilt(t, k, r), After(st, r), k + 1);
  }

  // ------------------------------------------------------------------
  // When an upload succeeds
  // ------------------------------------------------------------------

  /** The deliveries at places `at` are blocks 0, 1, 2, ... in turn, the first of them the last block 0 delivered. */
  ghost predicate InPlace(ds: seq<nat>, at: seq<nat>) {
    && at != []
    && (forall j :: 0 <= j < |at| ==> at[j] < |ds| && ds[at[j]] == j)
    && (forall i, j :: 0 <= i < j < |at| ==> at[i] < at[j])
    && (forall p :: at[0] < p < |ds| ==> ds[p] != 0)
  }

  lemma {:induction false} PlacesOfHeld(t: Transfer, ds: seq<nat>) returns (at: seq<nat>)
    requires t.Valid() && Deliveries(t, ds)
    ensures |at| == Held(t, ds) && InPlace(ds, at)
    ensures Held(t, ds) > 1 ==> t.Cut(Held(t, ds)) < MAX_BLOCK1_SIZE
    decreases |ds|
  {
    var front, i := ds[..|ds| - 1], ds[|ds| - 1];
    if i == 0 {
      at := [|ds| - 1];
    } else {
      at := PlacesOfHeld(t, front);
      if Held(t, ds) != Held(t, front) {
        at := at + [|ds| - 1];
      }
    }
  }

  lemma CutRises(t: Transfer, i: nat, j: nat)
    requires i <= j
    ensures t.Cut(i) <= t.Cut(j)
    decreases j
  {
    if i < j {
      CutRises(t, i, j - 1);
    }
  }

  lemma {:induction false} HeldFromPlaces(t: Transfer, ds: seq<nat>, at: seq<nat>)
    requires t.Valid() && Deliveries(t, ds) && InPlace(ds, at)
    requires |at| > 1 ==> t.Cut(|at|) < MAX_BLOCK1_SIZE
    ensures Held(t, ds) >= |at|
    decreases |ds|
  {
    var front, p := ds[..|ds| - 1], |ds| - 1;
    if at[|at| - 1] < p {
      PlacesInFront(ds, at, |at|);
      HeldFromPlaces(t, front, at);
    } else if |at| > 1 {
      var some := at[..|at| - 1];
      PlacesInFront(ds, at, |at| - 1);
      CutRises(t, |at| - 1, |at|);
      HeldFromPlaces(t, front, some);
    }
  }

  lemma PlacesInFront(ds: seq<nat>, at: seq<nat>, n: nat)
    requires ds != [] && InPlace(ds, at) && 0 < n <= |at| && at[n - 1] < |ds| - 1
    ensures InPlace(ds[..|ds| - 1], at[..n]) && ds[..|ds| - 1] != []
    ensures n == |at| ==> at[..n] == at
  {
  }

  /** The deliveries include, after the last block 0, the others in order. */
  ghost predicate Arrives(t: Transfer, ds: seq<nat>) {
    exists at :: |at| == t.Blocks() && InPlace(ds, at)
  }

  /**
   Exactly when an upload succeeds: the last block completes it if and only
   if the blocks have arrived in order since block 0 last came, and a body of
   several blocks stays under the limit.
   */
  lemma CompletesIff(t: Transfer, st: Option<Store>, ds: seq<nat>)
    requires t.Valid() && Deliveries(t, ds) && ds[|ds| - 1] == t.Blocks() - 1
    ensures LastAnswer(t, st, ds) == Complete(t.body)
       <==> Arrives(t, ds) && (t.Blocks() == 1 || |t.body| < MAX_BLOCK1_SIZE)
  {
    AnswerOfLast(t, st, ds);
    Cuts(t, t.Blocks() - 1);
    var found := PlacesOfHeld(t, ds);
    if Arrives(t, ds) && (t.Blocks() == 1 || |t.body| < MAX_BLOCK1_SIZE) {
      var at :| |at| == t.Blocks() && InPlace(ds, at);
      HeldFromPlaces(t, ds, at);
    }
  }

  ghost predicate Preceded(ds: seq<nat>, p: nat)
    requires p < |ds|
  {
    exists q :: 0 <= q < p && ds[q] + 1 == ds[p]
  }

  /** Every block is preceded by the one before it, and block 0 does not come again once another has. */
  ghost predicate InOrder(ds: seq<nat>) {
    && (forall p :: 0 <= p < |ds| && ds[p] > 0 ==> Preceded(ds, p))
    && (forall p, q :: 0 <= q < p < |ds| && ds[p] == 0 ==> ds[q] == 0)
  }

  lemma InOrderFront(ds: seq<nat>)
    requires |ds| > 1 && InOrder(ds)
    ensures InOrder(ds[..|ds| - 1])
  {
    var front := ds[..|ds| - 1];
    forall p | 0 <= p < |front| && front[p] > 0
      ensures Preceded(front, p)
    {
      assert Preceded(ds, p);
      var q :| 0 <= q < p && ds[q] + 1 == ds[p];
      assert front[q] + 1 == front[p];
    }
  }

  ghost predicate AllBelow(ds: seq<nat>, k: nat) {
    forall p :: 0 <= p < |ds| ==> ds[p] < k
  }

  lemma BelowOneMore(ds: seq<nat>, k: nat, n: nat)
    requires ds != [] && AllBelow(ds[..|ds| - 1], k) && k <= n && ds[|ds| - 1] < n
    ensures AllBelow(ds, n)
  {
    forall p | 0 <= p < |ds|
      ensures ds[p] < n
    {
      if p < |ds| - 1 {
        assert ds[..|ds| - 1][p] == ds[p];
      }
    }
  }

  lemma {:induction false} InOrderHeld(t: Transfer, ds: seq<nat>)
    requires t.Valid() && Deliveries(t, ds) && InOrder(ds) && |t.body| < MAX_BLOCK1_SIZE
    ensures AllBelow(ds, Held(t, ds))
    decreases |ds|
  {
    hide Transfer.Valid, InOrder;
    var front, i := ds[..|ds| - 1], ds[|ds| - 1];
    if i == 0 {
      OnlyZeros(ds);
    } else {
      InOrderFront(ds);
      InOrderHeld(t, front);
      PrecededBelow(ds, Held(t, front));
      BelowOneMore(ds, Held(t, front), Held(t, ds));
    }
  }

  lemma OnlyZeros(ds: seq<nat>)
    requires ds != [] && InOrder(ds) && ds[|ds| - 1] == 0
    ensures AllBelow(ds, 1)
  {
  }

  lemma PrecededBelow(ds: seq<nat>, k: nat)
    requires ds != [] && InOrder(ds) && ds[|ds| - 1] > 0 && AllBelow(ds[..|ds| - 1], k)
    ensures ds[|ds| - 1] <= k
  {
    assert Preceded(ds, |ds| - 1);
    var q :| 0 <= q < |ds| - 1 && ds[q] + 1 == ds[|ds| - 1];
    assert ds[..|ds| - 1][q] < k;
  }

  /** An in-order transfer under the limit, its blocks repeated at will, gives the body. */
  lemma InOrderCompletes(t: Transfer, st: Option<Store>, ds: seq<nat>)
    requires t.Valid() && Deliveries(t, ds) && InOrder(ds) && |t.body| < MAX_BLOCK1_SIZE
    requires ds[|ds| - 1] == t.Blocks() - 1
    ensures LastAnswer(t, st, ds) == Complete(t.body)
  {
    hide InOrder;
    InOrderHeld(t, ds);
    AnswerOfLast(t, st, ds);
  }

  /** But a repeated block 0 that comes late starts the transfer over: the upload then fails. */
  lemma LateRepeatRestarts(t: Transfer, st: Option<Store>)
    requires t.Valid() && t.Blocks() == 3 && |t.body| < MAX_BLOCK1_SIZE
    ensures LastAnswer(t, st, [0, 1, 2]) == Complete(t.body)
    ensures LastAnswer(t, st, [0, 1, 0, 2]) == Incomplete
  {
    var short := [0, 1, 2];
    assert Preceded(short, 1) by { assert short[0] == 0; }
    assert Preceded(short, 2) by { assert short[1] == 1; }
    InOrderCompletes(t, st, short);
    var ds := [0, 1, 0, 2];
    assert ds[..3] == [0, 1, 0];
    DeliverAll(t, st, ds[..3]);
    assert Held(t, ds[..3]) == 1;
    DeliverOne(t, Run(st, Requests(t, ds[..3])), 1, 2);
  }

  // ------------------------------------------------------------------
  // The handler
  // ------------------------------------------------------------------

  /** The place in a server record that block1Data points from */
  class Server {
    var started: bool              // the pointer is not NULL
    var buffer: array<byte>
    var lastmid: nat

    ghost function View(): Option<Store>
      reads this, buffer
    {
      if started then Some(Store(buffer[..], lastmid)) else None
    }

    constructor ()
      ensures View() == None
    {
      started, lastmid := false, 0;
      buffer := new byte[0];
    }

    /** coap_block1_handler, memory available. The body given out is the stored buffer itself. */
    method Handle(r: Request) returns (reply: Reply)
      modifies this
      ensures View() == After(old(View()), r) && reply == Answer(old(View()), r)
      ensures buffer == old(buffer) || fresh(buffer)
    {
      if r.num == 0 {
        started := true;
        buffer := Joined([], r.payload);
        assert buffer[..] == r.payload;
        lastmid := r.mid;
      } else {
        if !started {
          return Incomplete;
        }
        if lastmid != r.mid {
          var oldSize := buffer.Length;
          if oldSize != r.size * r.num % 0x1_0000_0000 {
            return Incomplete;
          }
          if oldSize + |r.payload| >= MAX_BLOCK1_SIZE {
            return TooLarge;
          }
          buffer := Joined(buffer[..], r.payload);
          lastmid := r.mid;
        }
      }
      return if r.more then Continue else Complete(buffer[..]);
    }

    /** A new buffer with the bytes of the old one and a block behind them */
    static method Joined(before: seq<byte>, block: seq<byte>) returns (buffer: array<byte>)
      ensures fresh(buffer) && buffer[..] == before + block
    {
      buffer := new byte[|before| + |block|];
      CopyIn(buffer, 0, before);
      CopyIn(buffer, |before|, block);
    }

    /** memcpy */
    static method CopyIn(to: array<byte>, at: nat, bytes: seq<byte>)
      requires at + |bytes| <= to.Length
      modifies to
      ensures to[..] == old(to[..at]) + bytes + old(to[at + |bytes|..])
    {
      forall i | 0 <= i < |bytes| {
        to[at + i] := bytes[i];
      }
    }
  }
}
