/**
 CoAP messages in a buffer: external/coap/coap.c, with the message format of
 sections 3 and 3.1 of RFC 7252.

 `Encode` is the format as a function of a message. The packet object keeps
 the message it holds as a ghost, and every method is proved to leave the
 buffer holding the encoding of the message its name promises. Pointers into
 the buffer are offsets.
 */
module Coap {
  import opened Bytes

  // The values of coap_error that are returned here
  datatype Error = NoError | InvalidPacket | InsufficientBuffer

  datatype Opt = Opt(num: nat, value: seq<byte>)

  datatype Message = Message(
    kind: nat,       // coap_type
    code: byte,
    mid: nat,
    token: seq<byte>,
    options: seq<Opt>,
    payload: Option<seq<byte>>)

  // ------------------------------------------------------------------
  // The format
  // ------------------------------------------------------------------

  /** Four bits for a delta or a length; 13 and 14 announce one and two more bytes. */
  function Nibble(n: nat): (x: nat)
    ensures x < 15
  {
    if n < 13 then n else if n < 269 then 13 else 14
  }

  function Extension(n: nat): (e: seq<byte>)
    requires n < 0x1_0000
    ensures |e| == ExtensionLen(Nibble(n))
  {
    if n < 13 then [] else if n < 269 then [n - 13] else [(n - 269) / 256, (n - 269) % 256]
  }

  function ExtensionLen(nibble: nat): nat {
    if nibble == 13 then 1 else if nibble == 14 then 2 else 0
  }

  function Header(delta: nat, length: nat): (h: seq<byte>)
    requires delta < 0x1_0000 && length < 0x1_0000
  {
    [Nibble(delta) * 16 + Nibble(length)] + Extension(delta) + Extension(length)
  }

  /** coap_compute_option_header_len */
  function HeaderLen(delta: nat, length: nat): (h: nat)
    ensures delta < 0x1_0000 && length < 0x1_0000 ==> h == |Header(delta, length)|
  {
    1 + (if delta < 13 then 0 else if delta < 269 then 1 else 2)
    + (if length < 13 then 0 else if length < 269 then 1 else 2)
  }

  /** The format pinned down: nibbles, the two biases, most significant byte first. */
  lemma KnownHeaders()
    ensures Header(11, 3) == [0xB3]
    ensures Header(12, 13) == [0xCD, 0]
    ensures Header(268, 0) == [0xD0, 255]
    ensures Header(300, 14) == [0xED, 0, 31, 1]
    ensures Header(65535, 269) == [0xEE, 0xFE, 0xF2, 0, 0]
  {
  }

  function LastNum(opts: seq<Opt>): nat {
    if opts == [] then 0 else opts[|opts| - 1].num
  }

  function Front(opts: seq<Opt>): seq<Opt>
    requires opts != []
  {
    opts[..|opts| - 1]
  }

  /** Option `o` may follow `opts`. */
  predicate MayFollow(opts: seq<Opt>, o: Opt) {
    LastNum(opts) <= o.num && 0 < o.num < 0x1_0000 && |o.value| < 0x1_0000
  }

  /** Numbers from 1 to 65535 in nondecreasing order. */
  predicate Ordered(opts: seq<Opt>)
    decreases |opts|
  {
    opts != [] ==> Ordered(Front(opts)) && MayFollow(Front(opts), opts[|opts| - 1])
  }

  function EncodeOption(prev: nat, o: Opt): seq<byte>
    requires prev <= o.num < 0x1_0000 && |o.value| < 0x1_0000
  {
    Header(o.num - prev, |o.value|) + o.value
  }

  function EncodeOptions(opts: seq<Opt>): seq<byte>
    requires Ordered(opts)
    decreases |opts|
  {
    if opts == [] then []
    else EncodeOptions(Front(opts)) + EncodeOption(LastNum(Front(opts)), opts[|opts| - 1])
  }

  ghost predicate WellFormed(m: Message) {
    m.kind < 4 && m.mid < 0x1_0000 && |m.token| <= 8 && Ordered(m.options)
  }

  function Tail(payload: Option<seq<byte>>): seq<byte> {
    match payload
    case None => []
    case Some(bytes) => [255] + bytes
  }

  /** Version 1, type, token length, code, message ID */
  function Head(kind: nat, tkl: nat, code: byte, mid: nat): (h: seq<byte>)
    requires kind < 4 && tkl <= 8 && mid < 0x1_0000
    ensures |h| == 4
  {
    [64 + kind * 16 + tkl, code, mid / 256, mid % 256]
  }

  function Encode(m: Message): seq<byte>
    requires WellFormed(m)
  {
    Head(m.kind, |m.token|, m.code, m.mid) + m.token + EncodeOptions(m.options) + Tail(m.payload)
  }

  /** A message pinned down: a confirmable GET of version 1 with token, path option and payload. */
  lemma KnownMessage()
    ensures var m := Message(0, 1, 0x1234, [0xAB], [Opt(11, [65, 66])], Some([7]));
            WellFormed(m) && Encode(m) == [0x41, 1, 0x12, 0x34, 0xAB, 0xB2, 65, 66, 255, 7]
  {
    var m := Message(0, 1, 0x1234, [0xAB], [Opt(11, [65, 66])], Some([7]));
    assert Front(m.options) == [] && Ordered(m.options);
    assert EncodeOptions([]) == [];
    assert EncodeOptions(m.options) == [0xB2] + [65, 66];
  }

  // ------------------------------------------------------------------
  // Reading a packet
  // ------------------------------------------------------------------

  /** What coap_decode_option finds; Truncated when the option's header would run past the packet. */
  datatype Decoded = End | Marker | Invalid | Truncated | Got(delta: nat, length: nat, val: nat)

  /** A delta or length, in 16 bits; the bytes after the nibble start at `at`. */
  function Extended(nibble: nat, p: seq<byte>, at: nat): nat
    requires at + ExtensionLen(nibble) <= |p|
  {
    if nibble == 13 then p[at] + 13
    else if nibble == 14 then
      var n := 256 * (p[at] as int) + p[at + 1] as int + 269;
      if n < 0x1_0000 then n else n - 0x1_0000
    else nibble
  }

  /** coap_decode_option at offset `at` of packet `p` */
  function DecodeAt(p: seq<byte>, at: nat): Decoded
    requires at <= |p|
  {
    if at == |p| then End
    else if p[at] == 255 then Marker
    else
      var d, l := p[at] / 16, p[at] % 16;
      if d == 15 then Invalid
      else if at + 1 + ExtensionLen(d) + ExtensionLen(l) > |p| then Truncated
      else if l == 15 then Invalid
      else
        var next := at + 1 + ExtensionLen(d);
        Got(Extended(d, p, at + 1), Extended(l, p, next), next + ExtensionLen(l))
  }

  /** An option as coap_get_option hands it out; a `num` of 0 means there is none. */
  datatype Found = Found(num: nat, len: nat, val: nat)

  const NOTHING: Found := Found(0, 0, 0)

  /** Where coap_get_option looks, given the option found last. */
  function NextPlace(p: seq<byte>, last: Found): nat
    requires |p| >= 4
  {
    var first := 4 + p[0] % 16;
    var at := if last.num != 0 then last.val + last.len else first;
    if at > |p| || at == 0 then first else at
  }

  /**
   coap_get_option. After the last option of a packet with a payload, only
   the number of what it returns is modelled.
   */
  function NextOption(p: seq<byte>, last: Found): Found
    requires |p| >= 4
  {
    var at := NextPlace(p, last);
    if at > |p| then NOTHING
    else
      match DecodeAt(p, at)
      case Got(delta, length, val) =>
        var num := last.num + delta;
        Found(if num < 0x1_0000 then num else num - 0x1_0000, length, val)
      case Marker => if last.num == 0 then Found(0, |p| - at - 1, at + 1) else NOTHING
      case _ => NOTHING
  }

  /** What the `k`-th call of coap_get_option returns, each call given the result of the one before. */
  function Iterate(p: seq<byte>, k: nat): Found
    requires |p| >= 4
    decreases k
  {
    if k == 0 then NOTHING else NextOption(p, Iterate(p, k - 1))
  }

  /** coap_get_payload, its search starting at `at` */
  function PayloadFrom(p: seq<byte>, at: nat): Option<seq<byte>>
    requires at <= |p|
    decreases |p| - at
  {
    match DecodeAt(p, at)
    case Marker => Some(p[at + 1..])
    case Got(_, length, val) => if val + length <= |p| then PayloadFrom(p, val + length) else None
    case _ => None
  }

  // ------------------------------------------------------------------
  // Reading back what was written
  // ------------------------------------------------------------------

  lemma ExtendedBack(p: seq<byte>, at: nat, n: nat)
    requires n < 0x1_0000 && at + ExtensionLen(Nibble(n)) <= |p|
    requires p[at..at + ExtensionLen(Nibble(n))] == Extension(n)
    ensures Extended(Nibble(n), p, at) == n
  {
    var e := p[at..at + ExtensionLen(Nibble(n))];
    if n >= 269 {
      assert e[0] == p[at] && e[1] == p[at + 1];
    } else if n >= 13 {
      assert e[0] == p[at];
    }
  }

  lemma PartOf(p: seq<byte>, at: nat, h: seq<byte>, i: nat, j: nat)
    requires at + |h| <= |p| && p[at..at + |h|] == h && i <= j <= |h|
    ensures p[at + i..at + j] == h[i..j]
  {
    forall k | 0 <= k < j - i
      ensures p[at + i..at + j][k] == h[i..j][k]
    {
      assert p[at..at + |h|][i + k] == p[at + i + k];
    }
  }

  lemma HeaderParts(delta: nat, length: nat)
    requires delta < 0x1_0000 && length < 0x1_0000
    ensures var h, d, l := Header(delta, length), ExtensionLen(Nibble(delta)), ExtensionLen(Nibble(length));
            && |h| == HeaderLen(delta, length) == 1 + d + l && h[0] == Nibble(delta) * 16 + Nibble(length)
            && h[1..1 + d] == Extension(delta) && h[1 + d..] == Extension(length)
  {
    hide Extension, Nibble, HeaderLen;
  }

  lemma NibblesBack(x: byte, d: nat, l: nat)
    requires d < 15 && l < 15 && x == d * 16 + l
    ensures x / 16 == d && x % 16 == l && x != 255
  {
  }

  lemma DecodeHeader(p: seq<byte>, at: nat, delta: nat, length: nat)
    requires delta < 0x1_0000 && length < 0x1_0000 && at + HeaderLen(delta, length) <= |p|
    requires p[at..at + HeaderLen(delta, length)] == Header(delta, length)
    ensures DecodeAt(p, at) == Got(delta, length, at + HeaderLen(delta, length))
  {
    hide Header, Extension, Nibble, Extended;
    var h, d, l := Header(delta, length), Nibble(delta), Nibble(length);
    var mid := at + 1 + ExtensionLen(d);
    HeaderParts(delta, length);
    assert p[at] == h[0] == d * 16 + l;
    NibblesBack(p[at], d, l);
    PartOf(p, at, h, 1, 1 + ExtensionLen(d));
    PartOf(p, at, h, 1 + ExtensionLen(d), |h|);
    ExtendedBack(p, at + 1, delta);
    ExtendedBack(p, mid, length);
  }

  lemma {:induction false} OrderedPrefix(opts: seq<Opt>, i: nat)
    requires Ordered(opts) && i <= |opts|
    ensures Ordered(opts[..i])
    ensures EncodeOptions(opts[..i]) <= EncodeOptions(opts)
    decreases |opts|
  {
    if i == |opts| {
      assert opts[..i] == opts;
    } else {
      OrderedPrefix(Front(opts), i);
      assert Front(opts)[..i] == opts[..i];
    }
  }

  /** One option more, by the definition of the encoding. */
  lemma OrderedStep(opts: seq<Opt>, i: nat)
    requires Ordered(opts) && i < |opts|
    ensures Ordered(opts[..i]) && Ordered(opts[..i + 1]) && MayFollow(opts[..i], opts[i])
    ensures EncodeOptions(opts[..i + 1]) == EncodeOptions(opts[..i]) + EncodeOption(LastNum(opts[..i]), opts[i])
  {
    OrderedPrefix(opts, i + 1);
    assert Front(opts[..i + 1]) == opts[..i];
  }

  function Opening(m: Message): (s: seq<byte>)
    requires WellFormed(m)
    ensures |s| == 4 + |m.token|
  {
    Head(m.kind, |m.token|, m.code, m.mid) + m.token
  }

  /** Where option `i` of the message starts; the number of options gives where they end. */
  function Offset(m: Message, i: nat): nat
    requires WellFormed(m) && i <= |m.options|
  {
    OrderedPrefix(m.options, i);
    4 + |m.token| + |EncodeOptions(m.options[..i])|
  }

  function HeaderOf(m: Message, i: nat): seq<byte>
    requires WellFormed(m) && i < |m.options|
  {
    OrderedStep(m.options, i);
    Header(m.options[i].num - LastNum(m.options[..i]), |m.options[i].value|)
  }

  /** The packet around option `i` */
  lemma AroundOption(m: Message, i: nat) returns (before: seq<byte>, after: seq<byte>)
    requires WellFormed(m) && i < |m.options|
    ensures Encode(m) == before + HeaderOf(m, i) + m.options[i].value + after
    ensures |before| == Offset(m, i) && Offset(m, i + 1) == Offset(m, i) + |HeaderOf(m, i)| + |m.options[i].value|
  {
    hide Header, Head, EncodeOptions, Encode, HeaderOf;
    EncodeOpening(m);
    AllAround(m, i);
    var all, some, one := EncodeOptions(m.options), EncodeOptions(m.options[..i + 1]), EncodeOptions(m.options[..i]);
    before := Opening(m) + one;
    after := all[|some|..] + Tail(m.payload);
    Regroup(Opening(m), one, HeaderOf(m, i), m.options[i].value, all[|some|..], Tail(m.payload));
  }

  lemma AllAround(m: Message, i: nat)
    requires WellFormed(m) && i < |m.options|
    ensures Ordered(m.options[..i]) && Ordered(m.options[..i + 1])
    ensures var all, one := EncodeOptions(m.options), EncodeOptions(m.options[..i]);
            var some := EncodeOptions(m.options[..i + 1]);
            some == one + HeaderOf(m, i) + m.options[i].value && some <= all && all == some + all[|some|..]
  {
    hide Header, EncodeOptions;
    OrderedStep(m.options, i);
    OrderedPrefix(m.options, i + 1);
  }

  lemma EncodeOpening(m: Message)
    requires WellFormed(m)
    ensures Encode(m) == Opening(m) + EncodeOptions(m.options) + Tail(m.payload)
  {
  }

  lemma Regroup(a: seq<byte>, b: seq<byte>, c: seq<byte>, d: seq<byte>, e: seq<byte>, f: seq<byte>)
    ensures a + (b + c + d + e) + f == (a + b) + c + d + (e + f)
  {
  }

  lemma Middle(a: seq<byte>, b: seq<byte>, c: seq<byte>, d: seq<byte>, p: seq<byte>)
    requires p == a + b + c + d
    ensures |p| == |a| + |b| + |c| + |d|
    ensures p[|a|..|a| + |b|] == b && p[|a| + |b|..|a| + |b| + |c|] == c
  {
  }

  /** The decoder on option `i` finds its number, its value and the start of the next. */
  lemma ScanOption(m: Message, i: nat)
    requires WellFormed(m) && i < |m.options|
    ensures MayFollow(m.options[..i], m.options[i])
    ensures var o, p, next := m.options[i], Encode(m), Offset(m, i + 1);
            && Offset(m, i) + |o.value| < next <= |p|
            && DecodeAt(p, Offset(m, i)) == Got(o.num - LastNum(m.options[..i]), |o.value|, next - |o.value|)
            && p[next - |o.value|..next] == o.value
  {
    hide Encode, EncodeOptions, DecodeAt, Header;
    OrderedStep(m.options, i);
    HeaderSize(m.options[i].num - LastNum(m.options[..i]), |m.options[i].value|);
    var before, after := AroundOption(m, i);
    var o, p := m.options[i], Encode(m);
    Middle(before, HeaderOf(m, i), o.value, after, p);
    DecodeHeader(p, |before|, o.num - LastNum(m.options[..i]), |o.value|);
  }

  lemma ScanEnd(m: Message)
    requires WellFormed(m)
    ensures var p, at := Encode(m), Offset(m, |m.options|);
            && at <= |p|
            && match m.payload
               case None => at == |p| && DecodeAt(p, at) == End
               case Some(bytes) => DecodeAt(p, at) == Marker && p[at + 1..] == bytes
  {
    hide EncodeOptions, Head;
    assert m.options[..|m.options|] == m.options;
    assert Encode(m) == Opening(m) + EncodeOptions(m.options) + Tail(m.payload);
  }

  lemma HeadOf(m: Message)
    requires WellFormed(m)
    ensures var p := Encode(m);
            && |p| >= 4 + |m.token| == Offset(m, 0)
            && p[..4] == Head(m.kind, |m.token|, m.code, m.mid) && p[0] % 16 == |m.token|
            && p[4..4 + |m.token|] == m.token
  {
    hide Encode, Tail;
    EncodeOpening(m);
    var rest := EncodeOptions(m.options) + Tail(m.payload);
    assert m.options[..0] == [];
    assert Encode(m) == Opening(m) + rest;
    InFront(m, Encode(m), rest);
  }

  lemma InFront(m: Message, p: seq<byte>, rest: seq<byte>)
    requires WellFormed(m) && p == Opening(m) + rest
    ensures |p| >= 4 + |m.token| && p[..4] == Head(m.kind, |m.token|, m.code, m.mid)
    ensures p[0] % 16 == |m.token| && p[4..4 + |m.token|] == m.token
  {
    assert p[0] == p[..4][0];
  }

  /** Option `i` as it is handed out */
  function Handle(m: Message, i: nat): Found
    requires WellFormed(m) && i < |m.options|
  {
    ScanOption(m, i);
    Found(m.options[i].num, |m.options[i].value|, Offset(m, i + 1) - |m.options[i].value|)
  }

  lemma NextIsNext(m: Message, i: nat)
    requires WellFormed(m) && i <= |m.options| && |Encode(m)| >= 4
    ensures var last := if i == 0 then NOTHING else Handle(m, i - 1);
            && NextPlace(Encode(m), last) == Offset(m, i)
            && (i < |m.options| ==> NextOption(Encode(m), last) == Handle(m, i))
            && (i == |m.options| ==> NextOption(Encode(m), last).num == 0)
  {
    hide Encode, DecodeAt, Offset, NextPlace;
    NextPlaceIs(m, i);
    if i < |m.options| {
      NextOptionIs(m, i);
    } else {
      ScanEnd(m);
    }
  }

  lemma NextPlaceIs(m: Message, i: nat)
    requires WellFormed(m) && i <= |m.options|
    ensures |Encode(m)| >= 4
    ensures NextPlace(Encode(m), if i == 0 then NOTHING else Handle(m, i - 1)) == Offset(m, i) <= |Encode(m)|
  {
    hide Encode, DecodeAt, Offset;
    HeadOf(m);
    if i > 0 {
      ScanOption(m, i - 1);
      HandleNum(m, i - 1);
    }
  }

  lemma NextOptionIs(m: Message, i: nat)
    requires WellFormed(m) && i < |m.options| && |Encode(m)| >= 4
    requires NextPlace(Encode(m), if i == 0 then NOTHING else Handle(m, i - 1)) == Offset(m, i)
    ensures NextOption(Encode(m), if i == 0 then NOTHING else Handle(m, i - 1)) == Handle(m, i)
  {
    hide Encode, DecodeAt, Offset, NextPlace;
    ScanOption(m, i);
    NextHandle(m, i, if i == 0 then NOTHING else Handle(m, i - 1), DecodeAt(Encode(m), Offset(m, i)));
  }

  /** What coap_get_option makes of option `i` */
  lemma NextHandle(m: Message, i: nat, last: Found, d: Decoded)
    requires WellFormed(m) && i < |m.options| && (if i == 0 then last.num == 0 else last == Handle(m, i - 1))
    requires Offset(m, i) <= |Encode(m)| && d == DecodeAt(Encode(m), Offset(m, i)) && d.Got?
    ensures last.num < 0x1_0000 && d.delta < 0x1_0000
    ensures Found(AddDelta(last.num, d.delta), d.length, d.val) == Handle(m, i)
    ensures d.val + d.length <= |Encode(m)| && Encode(m)[d.val..d.val + d.length] == m.options[i].value
  {
    hide Encode, DecodeAt, Offset;
    ScanOption(m, i);
    PrefixNum(m.options, i);
  }

  lemma {:induction false} IterationHandles(m: Message, k: nat)
    requires WellFormed(m) && k <= |m.options|
    ensures |Encode(m)| >= 4
    ensures Iterate(Encode(m), k) == if k == 0 then NOTHING else Handle(m, k - 1)
    decreases k
  {
    hide Encode, NextOption, NextPlace;
    HeadOf(m);
    if k > 0 {
      IterationHandles(m, k - 1);
      NextIsNext(m, k - 1);
    }
  }

  /** Round trip: iterating over an encoded message yields its options in order, then number 0. */
  lemma IterationYields(m: Message, k: nat)
    requires WellFormed(m) && k <= |m.options|
    ensures |Encode(m)| >= 4
    ensures var p, f := Encode(m), Iterate(Encode(m), k + 1);
            if k == |m.options| then f.num == 0
            else f.num == m.options[k].num && f.val + f.len <= |p| && p[f.val..f.val + f.len] == m.options[k].value
  {
    hide Encode, NextOption, NextPlace;
    IterationHandles(m, k);
    NextIsNext(m, k);
    if k < |m.options| {
      ScanOption(m, k);
    }
  }

  lemma {:induction false} PayloadFromOption(m: Message, i: nat)
    requires WellFormed(m) && i <= |m.options|
    ensures Offset(m, i) <= |Encode(m)| && PayloadFrom(Encode(m), Offset(m, i)) == m.payload
    decreases |m.options| - i
  {
    hide Encode, DecodeAt;
    if i < |m.options| {
      ScanOption(m, i);
      PayloadFromOption(m, i + 1);
    } else {
      ScanEnd(m);
    }
  }

  /** Round trip: the payload search returns exactly the payload, or none when none was set. */
  lemma PayloadYields(m: Message)
    requires WellFormed(m)
    ensures |Encode(m)| >= 4 && 4 + Encode(m)[0] % 16 <= |Encode(m)|
    ensures PayloadFrom(Encode(m), 4 + Encode(m)[0] % 16) == m.payload
  {
    HeadOf(m);
    PayloadFromOption(m, 0);
  }

  // ------------------------------------------------------------------
  // Changing a message
  // ------------------------------------------------------------------

  /** Adding an option at the end adds its encoding at the end. */
  lemma EncodeAppended(m: Message, o: Opt)
    requires WellFormed(m) && m.payload.None? && MayFollow(m.options, o)
    ensures WellFormed(m.(options := m.options + [o]))
    ensures Encode(m.(options := m.options + [o])) == Encode(m) + EncodeOption(LastNum(m.options), o)
  {
    hide Head, EncodeOption;
    assert Front(m.options + [o]) == m.options;
    assert Ordered(m.options + [o]);
  }

  /** Adding it in front of a payload moves the payload behind it. */
  lemma EncodeInserted(m: Message, o: Opt)
    requires WellFormed(m) && MayFollow(m.options, o)
    ensures WellFormed(m.(options := m.options + [o]))
    ensures var p, at := Encode(m), Offset(m, |m.options|);
            && at <= |p|
            && Encode(m.(options := m.options + [o])) == p[..at] + EncodeOption(LastNum(m.options), o) + p[at..]
  {
    hide Head, EncodeOption;
    ghost var bare := m.(payload := None);
    EncodeAppended(bare, o);
    WithTail(m);
    WithTail(m.(options := m.options + [o]));
    var p, at := Encode(m), Offset(m, |m.options|);
    assert p[..at] == Encode(bare) && p[at..] == Tail(m.payload);
  }

  /** The payload comes last, behind its marker. */
  lemma WithTail(m: Message)
    requires WellFormed(m)
    ensures Encode(m) == Encode(m.(payload := None)) + Tail(m.payload)
    ensures |Encode(m.(payload := None))| == Offset(m, |m.options|)
  {
    hide Head, EncodeOptions;
    assert m.options[..|m.options|] == m.options;
  }

  lemma PayloadPlace(m: Message)
    requires WellFormed(m)
    ensures var p, at := Encode(m), Offset(m, |m.options|);
            && at <= |p| && p[..at] == Encode(m.(payload := None))
            && DecodeAt(p, at) == (if m.payload.None? then End else Marker)
            && (m.payload.None? ==> at == |p|)
  {
    hide Encode, DecodeAt;
    ScanEnd(m);
    WithTail(m);
  }

  /**
   coap_set_payload writes over the marker of a payload that is there
   already, and puts none in its place. What it leaves is the message with
   the payload asked for exactly when there was no payload before.
   */
  lemma SetPayloadRightIff(m: Message, payload: seq<byte>)
    requires WellFormed(m)
    ensures var left := Encode(m.(payload := None)) + (if m.payload.None? then [255] else []) + payload;
            left == Encode(m.(payload := Some(payload))) <==> m.payload.None?
  {
    hide Encode;
    WithTail(m.(payload := Some(payload)));
    assert Tail(Some(payload)) == [255] + payload;
  }

  /** The packet then holds a message again only if the bytes are none or bring their own marker. */
  lemma SecondPayload(m: Message, payload: seq<byte>, n: Message)
    requires WellFormed(m) && n == m.(payload := n.payload)
    ensures Encode(m.(payload := None)) + payload == Encode(n) <==> payload == Tail(n.payload)
  {
    hide Encode, Tail;
    WithTail(n);
    var front := Encode(m.(payload := None));
    assert (front + payload)[|front|..] == payload && (front + Tail(n.payload))[|front|..] == Tail(n.payload);
  }

  /** An option is decoded from its own bytes alone. */
  lemma DecodeLocal(p: seq<byte>, rest: seq<byte>, at: nat)
    requires at <= |p| && DecodeAt(p, at).Got?
    ensures DecodeAt(p + rest, at) == DecodeAt(p, at)
  {
  }

  lemma {:induction false} PayloadIsShorter(p: seq<byte>, at: nat)
    requires at <= |p|
    ensures PayloadFrom(p, at).Some? ==> |PayloadFrom(p, at).value| < |p| - at
    decreases |p| - at
  {
    hide DecodeAt;
    match DecodeAt(p, at)
    case Got(_, length, val) =>
      GotIsFurther(p, at);
      if val + length <= |p| {
        PayloadIsShorter(p, val + length);
      }
    case Marker => MarkerIsThere(p, at);
    case _ =>
  }

  lemma GotIsFurther(p: seq<byte>, at: nat)
    requires at <= |p| && DecodeAt(p, at).Got?
    ensures at < DecodeAt(p, at).val <= |p|
  {
  }

  lemma MarkerIsThere(p: seq<byte>, at: nat)
    requires at <= |p| && DecodeAt(p, at).Marker?
    ensures at < |p|
  {
  }

  /** Whatever is put behind the options, the search passes them. */
  lemma {:induction false} SearchPasses(m: Message, rest: seq<byte>, i: nat)
    requires WellFormed(m) && m.payload.None? && i <= |m.options|
    ensures Offset(m, i) <= |Encode(m)|
    ensures PayloadFrom(Encode(m) + rest, Offset(m, i)) == PayloadFrom(Encode(m) + rest, |Encode(m)|)
    decreases |m.options| - i
  {
    hide Encode, DecodeAt, Offset;
    if i < |m.options| {
      ScanOption(m, i);
      DecodeLocal(Encode(m), rest, Offset(m, i));
      SearchPasses(m, rest, i + 1);
    } else {
      ScanEnd(m);
    }
  }

  /** coap_get_payload does not find a second payload. */
  lemma SecondPayloadNotFound(m: Message, payload: seq<byte>)
    requires WellFormed(m)
    ensures var p := Encode(m.(payload := None)) + payload;
            |p| >= 4 && 4 + p[0] % 16 <= |p| && PayloadFrom(p, 4 + p[0] % 16) != Some(payload)
  {
    hide Encode, PayloadFrom;
    var bare := m.(payload := None);
    HeadOf(bare);
    SearchPasses(bare, payload, 0);
    PayloadIsShorter(Encode(bare) + payload, |Encode(bare)|);
  }

  // ------------------------------------------------------------------
  // Packets received: where reading stays inside them
  // ------------------------------------------------------------------

  /** How far coap_decode_option reads */
  function ReadUpTo(p: seq<byte>, at: nat): nat
    requires at <= |p|
  {
    if at == |p| then at
    else if p[at] / 16 == 15 then at + 1
    else at + 1 + ExtensionLen(p[at] / 16) + ExtensionLen(p[at] % 16)
  }

  /** One call, so one of coap_get_option too, stays inside the packet unless the option's header is cut off. */
  lemma TruncatedIff(p: seq<byte>, at: nat)
    requires at <= |p|
    ensures DecodeAt(p, at).Truncated? <==> ReadUpTo(p, at) > |p|
  {
  }

  /** The search of coap_get_payload from `at` reads nothing but the packet. */
  predicate SearchInside(p: seq<byte>, at: nat)
    decreases |p| - at
  {
    && at <= |p| && ReadUpTo(p, at) <= |p|
    && (DecodeAt(p, at).Got? ==> SearchInside(p, DecodeAt(p, at).val + DecodeAt(p, at).length))
  }

  /** One option and nothing more */
  predicate WholeOption(bytes: seq<byte>) {
    DecodeAt(bytes, 0).Got? && DecodeAt(bytes, 0).val + DecodeAt(bytes, 0).length == |bytes|
  }

  /** Nothing, a payload behind its marker, or a complete header with a reserved nibble: the search ends here. */
  predicate EndsSearch(bytes: seq<byte>) {
    !DecodeAt(bytes, 0).Got? && ReadUpTo(bytes, 0) <= |bytes|
  }

  function Flatten(blocks: seq<seq<byte>>): seq<byte> {
    if blocks == [] then [] else blocks[0] + Flatten(blocks[1..])
  }

  ghost predicate CutUp(bytes: seq<byte>, blocks: seq<seq<byte>>, rest: seq<byte>) {
    && bytes == Flatten(blocks) + rest && EndsSearch(rest)
    && forall i :: 0 <= i < |blocks| ==> WholeOption(blocks[i])
  }

  /** Decoding looks at the bytes from its place on. */
  lemma DecodeShifted(p: seq<byte>, at: nat)
    requires at <= |p|
    ensures ReadUpTo(p, at) == at + ReadUpTo(p[at..], 0)
    ensures DecodeAt(p, at) == match DecodeAt(p[at..], 0)
                               case Got(delta, length, val) => Got(delta, length, at + val)
                               case d => d
  {
  }

  /**
   Exactly which packets coap_get_payload reads without leaving them: those
   that are whole options from where it starts, followed by something that
   ends the search.
   */
  lemma SearchInsideIff(p: seq<byte>, at: nat)
    ensures SearchInside(p, at) <==> at <= |p| && exists blocks, rest :: CutUp(p[at..], blocks, rest)
  {
    if SearchInside(p, at) {
      var blocks, rest := CutFrom(p, at);
    } else if at <= |p| {
      forall blocks, rest | CutUp(p[at..], blocks, rest)
        ensures false
      {
        CutStaysInside(p, at, blocks, rest);
      }
    }
  }

  lemma {:induction false} CutFrom(p: seq<byte>, at: nat) returns (blocks: seq<seq<byte>>, rest: seq<byte>)
    requires SearchInside(p, at)
    ensures CutUp(p[at..], blocks, rest)
    decreases |p| - at
  {
    hide DecodeAt, ReadUpTo;
    DecodeShifted(p, at);
    if DecodeAt(p, at).Got? {
      GotIsFurther(p, at);
      var next := DecodeAt(p, at).val + DecodeAt(p, at).length;
      blocks, rest := CutFrom(p, next);
      FirstOption(p[at..], next - at);
      assert p[at..][next - at..] == p[next..];
      blocks := [p[at..][..next - at]] + blocks;
      assert p[at..] == blocks[0] + p[next..];
    } else {
      blocks, rest := [], p[at..];
    }
  }

  /** An option cut off where it ends decodes as it did. */
  lemma FirstOption(bytes: seq<byte>, n: nat)
    requires DecodeAt(bytes, 0).Got? && DecodeAt(bytes, 0).val + DecodeAt(bytes, 0).length == n <= |bytes|
    ensures WholeOption(bytes[..n])
  {
  }

  lemma {:induction false} CutStaysInside(p: seq<byte>, at: nat, blocks: seq<seq<byte>>, rest: seq<byte>)
    requires at <= |p| && CutUp(p[at..], blocks, rest)
    ensures SearchInside(p, at)
    decreases |blocks|
  {
    hide DecodeAt, ReadUpTo;
    DecodeShifted(p, at);
    if blocks != [] {
      var b, tail := blocks[0], Flatten(blocks[1..]) + rest;
      assert p[at..] == b + tail;
      DecodeLocal(b, tail, 0);
      TruncatedIff(p, at);
      assert p[at + |b|..] == tail;
      CutStaysInside(p, at + |b|, blocks[1..], rest);
    } else {
      assert p[at..] == rest;
    }
  }

  /** What follows the token */
  function AfterToken(m: Message): seq<byte>
    requires WellFormed(m)
  {
    EncodeOptions(m.options) + Tail(m.payload)
  }

  /** The packet in three parts */
  ghost predicate InParts(m: Message, p: seq<byte>)
    requires WellFormed(m)
  {
    var tkl := |m.token|;
    && |p| == 4 + tkl + |AfterToken(m)|
    && p[0] == 64 + m.kind * 16 + tkl && p[1] == m.code && p[2] == m.mid / 256 && p[3] == m.mid % 256
    && p[4..4 + tkl] == m.token && p[4 + tkl..] == AfterToken(m)
  }

  lemma Parts(m: Message, p: seq<byte>)
    requires WellFormed(m)
    ensures p == Encode(m) <==> InParts(m, p)
  {
    hide EncodeOptions, Tail;
    var h := Head(m.kind, |m.token|, m.code, m.mid);
    var whole := h + m.token + AfterToken(m);
    assert Encode(m) == whole;
    assert whole[4..4 + |m.token|] == m.token && whole[4 + |m.token|..] == AfterToken(m);
    assert forall i :: 0 <= i < 4 ==> whole[i] == h[i];
    if InParts(m, p) {
      assert p == p[..4] + p[4..4 + |m.token|] + p[4 + |m.token|..];
      assert p[..4] == h;
    }
  }

  /** coap_get_token: the token as a little-endian number */
  function TokenValue(m: Message): nat {
    LittleEndian(m.token)
  }

  /** The token set is the token read, cut to the length given. */
  lemma TokenComesBack(m: Message, token: nat, tkl: nat)
    requires WellFormed(m) && tkl <= 8
    ensures WellFormed(m.(token := LowBytes(token, tkl)))
    ensures TokenValue(m.(token := LowBytes(token, tkl))) == token % Pow256(tkl)
  {
    LittleEndianLowBytes(token, tkl);
  }

  lemma FirstByte(m: Message, p: seq<byte>)
    requires WellFormed(m) && InParts(m, p)
    ensures |p| >= 4 && p[0] / 16 == 4 + m.kind && p[0] % 16 == |m.token|
  {
  }

  /** The buffer after the token bytes and the first byte are written */
  lemma Written(before: seq<byte>, low: seq<byte>, x: byte, after: seq<byte>, len: nat)
    requires 4 + |low| <= len <= |before|
    requires after == (before[..4] + low + before[4 + |low|..])[0 := x]
    ensures |after| == |before| && after[..len][0] == x && after[..len][1..4] == before[1..4]
    ensures after[..len][4..4 + |low|] == low && after[..len][4 + |low|..] == before[4 + |low|..len]
  {
  }

  lemma HeaderReplaced(m: Message, p: seq<byte>, n: Message, q: seq<byte>)
    requires WellFormed(m) && InParts(m, p) && WellFormed(n) && m == n.(kind := m.kind, code := m.code, mid := m.mid)
    requires |q| == |p| && q[0] == p[0] / 64 * 64 + n.kind * 16 + p[0] % 16 && q[1] == n.code
    requires q[2] == n.mid / 256 && q[3] == n.mid % 256 && q[4..] == p[4..]
    ensures q == Encode(n)
  {
    hide AfterToken, Encode;
    SameRest(m, n);
    RestOf(p, q, 4, 4 + |m.token|);
    Parts(n, q);
  }

  lemma TokenReplaced(m: Message, p: seq<byte>, n: Message, q: seq<byte>)
    requires WellFormed(m) && InParts(m, p) && WellFormed(n) && n == m.(token := n.token)
    requires |q| == 4 + |n.token| + |p| - 4 - |m.token| && q[0] == |n.token| % 16 + p[0] / 16 * 16
    requires q[1..4] == p[1..4] && q[4..4 + |n.token|] == n.token && q[4 + |n.token|..] == p[4 + |m.token|..]
    ensures q == Encode(n)
  {
    hide AfterToken, Encode;
    SameRest(m, n);
    assert forall i :: 1 <= i < 4 ==> q[i] == q[1..4][i - 1] && p[i] == p[1..4][i - 1];
    Parts(n, q);
  }

  lemma {:induction false} NumbersRise(opts: seq<Opt>, i: nat)
    requires Ordered(opts) && i < |opts|
    ensures 0 < opts[i].num <= LastNum(opts) < 0x1_0000
    decreases |opts|
  {
    if i < |opts| - 1 {
      NumbersRise(Front(opts), i);
    }
  }

  lemma SameOption(m: Message, n: Message, k: nat)
    requires WellFormed(m) && WellFormed(n) && Encode(m) == Encode(n) && k <= |m.options| && k <= |n.options|
    ensures k == |m.options| <==> k == |n.options|
    ensures k < |m.options| ==> m.options[k] == n.options[k]
  {
    hide Encode, Iterate;
    IterationYields(m, k);
    IterationYields(n, k);
    if k < |m.options| {
      NumbersRise(m.options, k);
    }
    if k < |n.options| {
      NumbersRise(n.options, k);
    }
  }

  lemma {:induction false} SameOptions(m: Message, n: Message, k: nat)
    requires WellFormed(m) && WellFormed(n) && Encode(m) == Encode(n) && k <= |m.options|
    ensures k <= |n.options| && m.options[..k] == n.options[..k]
    decreases k
  {
    hide Encode;
    if k > 0 {
      SameOptions(m, n, k - 1);
      SameOption(m, n, k - 1);
      assert m.options[..k] == m.options[..k - 1] + [m.options[k - 1]];
    }
  }

  /** The format is unambiguous: no two messages have the same bytes. */
  lemma EncodeInjective(m: Message, n: Message)
    requires WellFormed(m) && WellFormed(n) && Encode(m) == Encode(n)
    ensures m == n
  {
    hide Encode, EncodeOptions, PayloadFrom;
    SameOptions(m, n, |m.options|);
    SameOption(m, n, |m.options|);
    PayloadYields(m);
    PayloadYields(n);
    Parts(m, Encode(m));
    Parts(n, Encode(n));
  }

  // ------------------------------------------------------------------
  // The packet object
  // ------------------------------------------------------------------

  class Pdu {
    const buf: array<byte>     // pdu->max is its length
    var len: nat
    ghost var msg: Message

    ghost predicate Valid()
      reads this, buf
    {
      WellFormed(msg) && len <= buf.Length && buf[..len] == Encode(msg)
    }

    constructor (max: nat)
      ensures fresh(buf) && buf.Length == max && len == 0
    {
      buf := new byte[max];
      len := 0;
      msg := Message(0, 0, 0, [], [], None);
    }

    /** coap_init_pdu */
    method Init() returns (err: Error)
      modifies this`len, this`msg, buf
      ensures err == if buf.Length < 4 then InsufficientBuffer else NoError
      ensures err == NoError ==> Valid() && msg == Message(3, 0, 0, [], [], None)
      ensures err != NoError ==> len == old(len) && buf[..] == old(buf[..])
    {
      if buf.Length < 4 {
        return InsufficientBuffer;
      }
      buf[0], buf[1], buf[2], buf[3] := 64 + 3 * 16, 0, 0, 0;
      len := 4;
      msg := Message(3, 0, 0, [], [], None);
      return NoError;
    }

    /** coap_set_type, coap_set_code and coap_set_mid on an initialised packet */
    method SetHeader(kind: nat, code: byte, mid: nat)
      requires Valid() && kind < 4 && mid < 0x1_0000
      modifies this`msg, buf
      ensures Valid() && msg == old(msg).(kind := kind, code := code, mid := mid)
    {
      hide Encode, AfterToken;
      ghost var p, m := buf[..len], msg.(kind := kind, code := code, mid := mid);
      Parts(msg, p);
      assert buf[0] == p[0];
      buf[0] := buf[0] / 64 * 64 + kind * 16 + buf[0] % 16;
      buf[1] := code;
      buf[2], buf[3] := mid / 256, mid % 256;
      assert buf[..len][4..] == p[4..];
      HeaderReplaced(msg, p, m, buf[..len]);
      msg := m;
    }

    /** memmove within the buffer */
    method Move(to: nat, from: nat, n: nat)
      requires to + n <= buf.Length && from + n <= buf.Length
      modifies buf
      ensures buf[..] == old(buf[..to] + buf[from..from + n] + buf[to + n..])
    {
      forall i | 0 <= i < n {
        buf[to + i] := buf[from + i];
      }
    }

    /** memcpy into the buffer */
    method CopyIn(to: nat, bytes: seq<byte>)
      requires to + |bytes| <= buf.Length
      modifies buf
      ensures buf[..] == old(buf[..to]) + bytes + old(buf[to + |bytes|..])
    {
      forall i | 0 <= i < |bytes| {
        buf[to + i] := bytes[i];
      }
    }

    /** coap_set_token */
    method SetToken(token: nat, tkl: nat) returns (err: Error)
      requires Valid() && token < Pow256(8)
      modifies this`len, this`msg, buf
      ensures Valid()
      ensures err == if buf.Length < 4 + tkl then InsufficientBuffer
                     else if tkl > 8 then InvalidPacket
                     else if buf.Length < old(len) + tkl - old(|msg.token|) then InsufficientBuffer
                     else NoError
      ensures err == NoError ==> msg == old(msg).(token := LowBytes(token, tkl))
      ensures err != NoError ==> msg == old(msg) && buf[..] == old(buf[..])
    {
      hide Encode, AfterToken, LowBytes;
      if buf.Length < 4 + tkl {
        return InsufficientBuffer;
      }
      if tkl > 8 {
        return InvalidPacket;
      }
      ghost var p := buf[..len];
      Parts(msg, p);
      assert buf[0] == p[0];
      var was := buf[0] % 16;
      var fits := MakeRoom(tkl, was);
      if !fits {
        return InsufficientBuffer;
      }
      ReplaceToken(token, tkl, was, p);
      return NoError;
    }

    /** The rest of the packet moved to make or take room for the token */
    method MakeRoom(tkl: nat, was: nat) returns (fits: bool)
      requires 4 + was <= len <= buf.Length && 4 + tkl <= buf.Length
      modifies buf
      ensures fits == (len + tkl - was <= buf.Length)
      ensures !fits ==> buf[..] == old(buf[..])
      ensures fits ==> buf[..4] == old(buf[..len])[..4] && buf[4 + tkl..len + tkl - was] == old(buf[..len])[4 + was..]
    {
      if len > 4 {
        if buf.Length < len + tkl - was {
          return false;
        }
        Move(4 + tkl, 4 + was, len - 4 - was);
      }
      return true;
    }

    /** The second half of coap_set_token, what follows the token in place */
    method ReplaceToken(token: nat, tkl: nat, was: nat, ghost p: seq<byte>)
      requires WellFormed(msg) && tkl <= 8 && was == |msg.token| && len + tkl - was <= buf.Length
      requires |p| == len && InParts(msg, p)
      requires buf[4 + tkl..len + tkl - was] == p[4 + was..] && buf[..4] == p[..4]
      modifies this`len, this`msg, buf
      ensures Valid() && msg == old(msg).(token := LowBytes(token, tkl))
    {
      hide Encode, AfterToken, LowBytes;
      ghost var m := msg.(token := LowBytes(token, tkl));
      ghost var before := buf[..];
      CopyIn(4, LowBytes(token, tkl));
      len := len + tkl - was;
      FirstByte(msg, p);
      assert buf[0] == before[..4][0];
      buf[0] := tkl % 16 + buf[0] / 16 * 16;
      Written(before, LowBytes(token, tkl), buf[0], buf[..], len);
      TokenReplaced(msg, p, m, buf[..len]);
      msg := m;
    }

    /** coap_get_token */
    method GetToken() returns (token: nat)
      requires Valid()
      ensures token == TokenValue(msg)
    {
      hide Encode, AfterToken, LittleEndian;
      ghost var p := buf[..len];
      Parts(msg, p);
      assert buf[0] == p[0];
      var tkl := buf[0] % 16;
      token := 0;
      if len >= 4 + tkl {
        SliceOf(buf, len, 4, 4 + tkl);
        token := LittleEndian(buf[4..4 + tkl]);
      }
    }

    /**
     coap_decode_option on the option at `at`. Where the header runs past the
     packet the code reads on behind it; Truncated stands for that.
     */
    method DecodeOption(at: nat) returns (d: Decoded)
      requires at <= len <= buf.Length
      ensures d == DecodeAt(buf[..len], at)
    {
      ghost var p := buf[..len];
      if at == len {
        return End;
      }
      if buf[at] == 255 {
        return Marker;
      }
      var ptr, delta: nat, length: nat := at + 1, buf[at] / 16, buf[at] % 16;
      if delta == 15 {
        return Invalid;
      }
      if ptr + ExtensionLen(delta) + ExtensionLen(length) > len {
        return Truncated;
      }
      delta, ptr := ReadExtension(delta, ptr);
      if length == 15 {
        return Invalid;
      }
      length, ptr := ReadExtension(length, ptr);
      return Got(delta, length, ptr);
    }

    method ReadExtension(nibble: nat, at: nat) returns (n: nat, next: nat)
      requires nibble < 15 && at + ExtensionLen(nibble) <= len <= buf.Length
      ensures n == Extended(nibble, buf[..len], at) && next == at + ExtensionLen(nibble)
    {
      n, next := nibble, at;
      if nibble == 13 {
        n, next := buf[at] as int + 13, at + 1;
      } else if nibble == 14 {
        n := 256 * (buf[at] as int) + buf[at + 1] as int + 269;
        if n >= 0x1_0000 {
          n := n - 0x1_0000;
        }
        next := at + 2;
      }
    }

    /** The search of coap_add_option for the place of number `limit`; coap_set_payload's passes every option. */
    method Scan(limit: nat) returns (at: nat, last: nat, d: Decoded)
      requires Valid() && LastNum(msg.options) <= limit
      ensures at == Offset(msg, |msg.options|) <= len && last == LastNum(msg.options) && d == DecodeAt(buf[..len], at)
    {
      hide Encode, DecodeAt, Offset;
      ghost var p, n, i := buf[..len], |msg.options|, 0;
      Start();
      var found, length, val := 0, 0, 4 + buf[0] % 16;
      at, last := val, 0;
      NotTruncated(msg, 0);
      d := DecodeOption(at);
      if d.Got? {
        found, length, val := d.delta, d.length, d.val;
        ScanOption(msg, 0);
      }
      while d.Got? && found <= limit && at + length < len
        invariant i <= n && at == Offset(msg, i) <= len && last == LastNum(msg.options[..i])
        invariant d == DecodeAt(p, at) && (d.Got? <==> i < n)
        invariant i < n ==> found == msg.options[i].num && length == |msg.options[i].value|
        invariant i < n ==> val + length == Offset(msg, i + 1)
        decreases n - i
      {
        ScanOption(msg, i);
        at, last, i := val + length, found, i + 1;
        NotTruncated(msg, i);
        d := DecodeOption(at);
        if d.Got? {
          ScanOption(msg, i);
          found, length, val := AddDelta(found, d.delta), d.length, d.val;
        }
      }
      if i < n {
        NumbersRise(msg.options, i);
        ScanOption(msg, i);
        assert false;
      }
      assert msg.options[..n] == msg.options;
    }

    /** coap_add_option, the option's number not below those already there; a payload moves up. */
    method AddOption(num: nat, value: seq<byte>) returns (err: Error)
      requires Valid() && MayFollow(msg.options, Opt(num, value))
      modifies this`len, this`msg, buf
      ensures Valid()
      ensures var size := HeaderLen(num - LastNum(old(msg.options)), |value|) + |value|;
              err == if old(len) + size <= buf.Length then NoError else InsufficientBuffer
      ensures err == NoError ==> msg == old(msg).(options := old(msg.options) + [Opt(num, value)])
      ensures err != NoError ==> msg == old(msg) && buf[..] == old(buf[..])
    {
      hide Encode, Header, HeaderLen, Offset;
      var at, last, d := Scan(num);
      var h := HeaderLen(num - last, |value|);
      if buf.Length < len + h + |value| {
        return InsufficientBuffer;
      }
      EncodeInserted(msg, Opt(num, value));
      HeaderSize(num - last, |value|);
      InsertOption(at, num - last, value);
      msg := msg.(options := msg.options + [Opt(num, value)]);
      return NoError;
    }

    /** The writes of coap_add_option: the tail slid up, then the header, then the value */
    method InsertOption(at: nat, delta: nat, value: seq<byte>)
      requires delta < 0x1_0000 && |value| < 0x1_0000 && at <= len
      requires len + HeaderLen(delta, |value|) + |value| <= buf.Length
      modifies this`len, buf
      ensures len == old(len) + HeaderLen(delta, |value|) + |value|
      ensures buf[..len] == old(buf[..len])[..at] + (Header(delta, |value|) + value) + old(buf[..len])[at..]
    {
      hide Header, HeaderLen;
      var size := HeaderLen(delta, |value|) + |value|;
      ghost var was := buf[..];
      SlideTail(at, size);
      ghost var slid := buf[..];
      WriteOption(at, delta, value);
      FilledIn(was, slid, buf[..], at, Header(delta, |value|) + value, len);
      len := len + size;
    }

    /** memmove of what follows the place of a new option, if anything does */
    method SlideTail(at: nat, size: nat)
      requires at <= len && len + size <= buf.Length
      modifies buf
      ensures buf[..at] == old(buf[..at]) && buf[at + size..len + size] == old(buf[at..len])
    {
      if len != at {
        ghost var was := buf[..];
        Move(at + size, at, len - at);
        SlidUp(was, buf[..], at, size, len);
      }
    }

    /** The header and the value at `at`, nothing else touched */
    method WriteOption(at: nat, delta: nat, value: seq<byte>)
      requires delta < 0x1_0000 && |value| < 0x1_0000 && at + HeaderLen(delta, |value|) + |value| <= buf.Length
      modifies buf
      ensures |Header(delta, |value|)| == HeaderLen(delta, |value|)
      ensures buf[..] == old(buf[..at]) + (Header(delta, |value|) + value)
                         + old(buf[at + HeaderLen(delta, |value|) + |value|..])
    {
      hide Header, HeaderLen;
      var h := HeaderLen(delta, |value|);
      HeaderSize(delta, |value|);
      ghost var was := buf[..];
      var built := BuildHeader(at, h, delta, |value|);
      ghost var mid := buf[..];
      CopyIn(at + h, value);
      PutBehind(was, mid, buf[..], at, Header(delta, |value|), value);
    }

    /** coap_build_option_header in `room` bytes; None is its error return. */
    method BuildHeader(at: nat, room: nat, delta: nat, length: nat) returns (written: Option<nat>)
      requires delta < 0x1_0000 && length < 0x1_0000 && at + room <= buf.Length
      modifies buf
      ensures written == if HeaderLen(delta, length) <= room then Some(HeaderLen(delta, length)) else None
      ensures written.Some? ==> buf[..at + HeaderLen(delta, length)] == old(buf[..at]) + Header(delta, length)
      ensures buf[..at] == old(buf[..at])
      ensures buf[at + room..] == old(buf[at + room..])
    {
      hide Extension, Nibble, ExtensionLen, HeaderLen, Header;
      HeaderParts(delta, length);
      if room < 1 {
        return None;
      }
      ghost var before := buf[..at + 1];
      var ptr, base := WriteExtension(at + 1, at + room, delta);
      if base.None? {
        return None;
      }
      var end, baseLen := WriteExtension(ptr, at + room, length);
      if baseLen.None? {
        return None;
      }
      ghost var bytes := buf[..end];
      var first: byte := base.value * 16 + baseLen.value;
      buf[at] := first;
      assert buf[..end] == bytes[at := first];
      FirstReplaced(before, Extension(delta), Extension(length), first);
      HeaderJoined(delta, length);
      assert before[..at] == old(buf[..at]);
      return Some(end - at);
    }

    /** The nibble for a delta or length, its further bytes written at `at`; None when `end` comes too soon */
    method WriteExtension(at: nat, end: nat, n: nat) returns (next: nat, nibble: Option<nat>)
      requires n < 0x1_0000 && at <= end <= buf.Length
      modifies buf
      ensures nibble == if at + ExtensionLen(Nibble(n)) <= end then Some(Nibble(n)) else None
      ensures nibble.Some? ==> next == at + ExtensionLen(Nibble(n)) && buf[..next] == old(buf[..at]) + Extension(n)
      ensures buf[..at] == old(buf[..at])
      ensures buf[end..] == old(buf[end..])
    {
      next, nibble := at, None;
      if n < 13 {
        nibble := Some(n);
      } else if n < 269 {
        if end < at + 1 {
          return;
        }
        buf[at] := n - 13;
        next, nibble := at + 1, Some(13);
      } else {
        if end < at + 2 {
          return;
        }
        buf[at], buf[at + 1] := (n - 269) / 256, (n - 269) % 256;
        next, nibble := at + 2, Some(14);
      }
    }

    /**
     coap_set_payload. On a packet that has a payload it loses the marker, and the
     packet is no longer the message's.
     */
    method SetPayload(payload: seq<byte>) returns (err: Error)
      requires Valid()
      modifies this`len, this`msg, buf
      ensures var marker := if old(msg).payload.None? then [255] else [];
              && (err == if old(len) + |marker| + |payload| <= buf.Length then NoError else InsufficientBuffer)
              && (err == NoError ==>
                    len <= buf.Length && buf[..len] == Encode(old(msg).(payload := None)) + marker + payload)
      ensures err == NoError && old(msg).payload.None? ==> Valid() && msg == old(msg).(payload := Some(payload))
      ensures err != NoError ==> Valid() && msg == old(msg) && buf[..] == old(buf[..])
    {
      hide Encode, Offset, DecodeAt, Ordered;
      BelowLimit(msg.options);
      var at, last, d := Scan(0xFFFF);
      PayloadPlace(msg);
      if buf.Length < len + |payload| + if d.End? then 1 else 0 {
        return InsufficientBuffer;
      }
      WritePayload(at, d.End?, payload);
      if d.End? {
        SetPayloadRightIff(msg, payload);
        msg := msg.(payload := Some(payload));
      }
      return NoError;
    }

    /** The writes of coap_set_payload: the marker, unless one was found, and the payload */
    method WritePayload(at: nat, marker: bool, payload: seq<byte>)
      requires at + (if marker then 1 else 0) + |payload| <= buf.Length
      modifies this`len, buf
      ensures len <= buf.Length && buf[..len] == old(buf[..at]) + (if marker then [255] else []) + payload
    {
      ghost var was := buf[..];
      var start := at;
      if marker {
        buf[start] := 255;
        start := start + 1;
      }
      ghost var front := buf[..];
      assert front[..start] == was[..at] + if marker then [255] else [];
      CopyIn(start, payload);
      len := start + |payload|;
      assert buf[..len] == front[..start] + payload;
    }

    /** coap_get_option, given what it returned for option `i - 1`, or 0 to start */
    method GetOption(last: Found, ghost i: nat) returns (f: Found)
      requires Valid() && i <= |msg.options| && (if i == 0 then last.num == 0 else last == Handle(msg, i - 1))
      ensures i < |msg.options| ==> f == Handle(msg, i)
      ensures i == |msg.options| ==> f.num == 0
      ensures i < |msg.options| ==> f.val + f.len <= len && buf[f.val..f.val + f.len] == msg.options[i].value
    {
      hide Encode, DecodeAt, Offset;
      Start();
      ghost var p := buf[..len];
      if i > 0 {
        ScanOption(msg, i - 1);
      }
      var first := 4 + buf[0] % 16;
      var at := if last.num != 0 then last.val + last.len else first;
      if at > len || at == 0 {
        at := first;
      }
      assert at == Offset(msg, i);
      NotTruncated(msg, i);
      var d := DecodeOption(at);
      match d
      case Got(delta, length, val) =>
        NextHandle(msg, i, last, d);
        f := Found(AddDelta(last.num, delta), length, val);
        SliceOf(buf, len, f.val, f.val + f.len);
      case Marker => f := if last.num == 0 then Found(0, len - at - 1, at + 1) else NOTHING;
      case _ => f := NOTHING;
    }

    /**
     coap_get_option_by_num finds occurrence number `occurrence` of the
     option, or returns number 0 when there are not that many. It counts in
     8 bits, so it never finds occurrence 255.
     */
    method GetOptionByNum(num: nat, occurrence: nat) returns (f: Found, ghost k: nat)
      requires Valid() && num > 0 && occurrence < 256
      ensures occurrence < 255 && occurrence < Count(msg.options, num) ==>
                && k < |msg.options| && msg.options[k].num == num && Count(msg.options[..k], num) == occurrence
                && f == Handle(msg, k)
      ensures occurrence == 255 || Count(msg.options, num) <= occurrence ==> f.num == 0
    {
      hide Encode, Handle, Offset, Ordered, LastNum;
      var seen, more := 0, true;
      f, k := NOTHING, 0;
      ghost var i, n := 0, |msg.options|;
      while more
        invariant i <= n
        invariant more ==> f == if i == 0 then NOTHING else Handle(msg, i - 1)
        invariant more ==> seen <= occurrence && (seen == Count(msg.options[..i], num) || occurrence == 255)
        invariant !more ==> Settled(f, k, num, occurrence)
        decreases more, n - i
      {
        f := GetOption(f, i);
        if i < n {
          HandleNum(msg, i);
          CountStep(msg.options, i, num);
        }
        if f.num == num {
          k := i;
          seen := (seen + 1) % 256;
          more := seen <= occurrence;
          CountRises(msg.options, i + 1, num);
        } else if f.num > num {
          LaterAbove(msg.options, i, num);
          f, more := NOTHING, false;
          CountRises(msg.options, i, num);
        } else if f.num == 0 {
          assert msg.options[..n] == msg.options;
          more := false;
        }
        i := if i < n then i + 1 else i;
      }
    }

    ghost predicate Settled(f: Found, k: nat, num: nat, occurrence: nat)
      requires Valid()
      reads this, buf
    {
      && (occurrence < 255 && occurrence < Count(msg.options, num) ==>
            && k < |msg.options| && msg.options[k].num == num && Count(msg.options[..k], num) == occurrence
            && f == Handle(msg, k))
      && (occurrence == 255 || Count(msg.options, num) <= occurrence ==> f.num == 0)
    }

    /** coap_get_payload */
    method GetPayload() returns (found: bool, val: nat, n: nat)
      requires Valid()
      ensures found == msg.payload.Some?
      ensures found ==> val + n == len && buf[val..val + n] == msg.payload.value
    {
      hide Encode, DecodeAt, Offset;
      ghost var p, i := buf[..len], 0;
      Start();
      var offset := 4 + buf[0] % 16;
      NotTruncated(msg, 0);
      var d := DecodeOption(offset);
      while d.Got?
        invariant i <= |msg.options| && offset == Offset(msg, i) <= len
        invariant d == DecodeAt(p, offset) && (d.Got? <==> i < |msg.options|)
        decreases |msg.options| - i
      {
        ScanOption(msg, i);
        offset, i := d.val + d.length, i + 1;
        NotTruncated(msg, i);
        d := DecodeOption(offset);
      }
      ScanEnd(msg);
      NotTruncated(msg, i);
      found, val, n := d.Marker?, 0, 0;
      if found {
        val, n := offset + 1, len - offset - 1;
        SliceOf(buf, len, val, len);
      }
    }

    lemma Start()
      requires Valid()
      ensures Offset(msg, 0) == 4 + |msg.token| <= len && buf[0] % 16 == |msg.token|
    {
      HeadOf(msg);
      assert buf[..len][0] == buf[0];
    }
  }

  function Count(opts: seq<Opt>, num: nat): nat
    decreases |opts|
  {
    if opts == [] then 0 else Count(Front(opts), num) + if opts[|opts| - 1].num == num then 1 else 0
  }

  lemma HandleNum(m: Message, i: nat)
    requires WellFormed(m) && i < |m.options|
    ensures Handle(m, i).num == m.options[i].num > 0
  {
    NumbersRise(m.options, i);
  }

  lemma CountStep(opts: seq<Opt>, i: nat, num: nat)
    requires i < |opts|
    ensures Count(opts[..i + 1], num) == Count(opts[..i], num) + if opts[i].num == num then 1 else 0
  {
    assert Front(opts[..i + 1]) == opts[..i];
  }

  lemma {:induction false} CountRises(opts: seq<Opt>, i: nat, num: nat)
    requires i <= |opts|
    ensures Count(opts[..i], num) <= Count(opts, num)
    decreases |opts|
  {
    if i == |opts| {
      assert opts[..i] == opts;
    } else {
      CountRises(Front(opts), i, num);
      assert Front(opts)[..i] == opts[..i];
    }
  }

  /** In number order, nothing behind a higher number counts. */
  lemma {:induction false} LaterAbove(opts: seq<Opt>, i: nat, num: nat)
    requires Ordered(opts) && i < |opts| && num < opts[i].num
    ensures Count(opts, num) == Count(opts[..i], num)
    decreases |opts|
  {
    NumbersRise(opts, i);
    if i + 1 == |opts| {
      assert Front(opts) == opts[..i];
    } else {
      LaterAbove(Front(opts), i, num);
      assert Front(opts)[..i] == opts[..i];
    }
  }

  lemma HeaderSize(delta: nat, length: nat)
    requires delta < 0x1_0000 && length < 0x1_0000
    ensures HeaderLen(delta, length) == |Header(delta, length)|
  {
  }

  lemma BelowLimit(opts: seq<Opt>)
    requires Ordered(opts)
    ensures LastNum(opts) <= 0xFFFF
  {
  }

  lemma PrefixNum(opts: seq<Opt>, i: nat)
    requires Ordered(opts) && i <= |opts|
    ensures LastNum(opts[..i]) == if i == 0 then 0 else opts[i - 1].num
    ensures LastNum(opts[..i]) < 0x1_0000
  {
    hide EncodeOptions;
    OrderedPrefix(opts, i);
    BelowLimit(opts[..i]);
  }

  lemma SlidUp(was: seq<byte>, now: seq<byte>, at: nat, size: nat, len: nat)
    requires at <= len && len + size <= |was|
    requires now == was[..at + size] + was[at..at + (len - at)] + was[at + size + (len - at)..]
    ensures now[..at] == was[..at] && now[at + size..len + size] == was[at..len]
  {
  }

  lemma PutBehind(was: seq<byte>, mid: seq<byte>, now: seq<byte>, at: nat, header: seq<byte>, value: seq<byte>)
    requires at + |header| + |value| <= |was| == |mid|
    requires mid[..at + |header|] == was[..at] + header && mid[at + |header|..] == was[at + |header|..]
    requires now == mid[..at + |header|] + value + mid[at + |header| + |value|..]
    ensures now == was[..at] + (header + value) + was[at + |header| + |value|..]
  {
    assert mid[at + |header| + |value|..] == mid[at + |header|..][|value|..];
  }

  /** A gap opened in a packet and filled */
  lemma FilledIn(was: seq<byte>, slid: seq<byte>, now: seq<byte>, at: nat, bytes: seq<byte>, len: nat)
    requires at <= len && len + |bytes| <= |was| == |slid|
    requires slid[..at] == was[..at] && slid[at + |bytes|..len + |bytes|] == was[at..len]
    requires now == slid[..at] + bytes + slid[at + |bytes|..]
    ensures now[..len + |bytes|] == was[..len][..at] + bytes + was[..len][at..]
  {
    assert now[..len + |bytes|] == slid[..at] + bytes + slid[at + |bytes|..len + |bytes|];
  }

  lemma FirstReplaced(before: seq<byte>, a: seq<byte>, b: seq<byte>, x: byte)
    requires before != []
    ensures (before + a + b)[|before| - 1 := x] == before[..|before| - 1] + ([x] + a + b)
  {
  }

  lemma HeaderJoined(delta: nat, length: nat)
    requires delta < 0x1_0000 && length < 0x1_0000
    ensures Header(delta, length) == [Nibble(delta) * 16 + Nibble(length)] + Extension(delta) + Extension(length)
  {
  }

  /** *option_number += delta, in 16 bits */
  function AddDelta(num: nat, delta: nat): (n: nat)
    requires num < 0x1_0000 && delta < 0x1_0000
    ensures n == (num + delta) % 0x1_0000
  {
    if num + delta < 0x1_0000 then num + delta else num + delta - 0x1_0000
  }

  lemma NotTruncated(m: Message, i: nat)
    requires WellFormed(m) && i <= |m.options|
    ensures Offset(m, i) <= |Encode(m)| && !DecodeAt(Encode(m), Offset(m, i)).Truncated?
    ensures DecodeAt(Encode(m), Offset(m, i)).Got? <==> i < |m.options|
    ensures DecodeAt(Encode(m), Offset(m, i)).Marker? ==> Offset(m, i) < |Encode(m)|
    ensures DecodeAt(Encode(m), Offset(m, i)).Got? ==> DecodeAt(Encode(m), Offset(m, i)).delta < 0x1_0000
  {
    if i < |m.options| {
      ScanOption(m, i);
    } else {
      ScanEnd(m);
    }
  }

  lemma SliceOf(a: array<byte>, n: nat, i: nat, j: nat)
    requires i <= j <= n <= a.Length
    ensures a[..n][i..j] == a[i..j]
  {
  }

  lemma SameRest(m: Message, n: Message)
    requires WellFormed(m) && WellFormed(n) && m.options == n.options && m.payload == n.payload
    ensures AfterToken(m) == AfterToken(n)
  {
  }

  lemma RestOf(p: seq<byte>, q: seq<byte>, i: nat, j: nat)
    requires |p| == |q| && i <= j <= |p| && p[i..] == q[i..]
    ensures p[i..j] == q[i..j] && p[j..] == q[j..]
  {
    assert p[i..][..j - i] == p[i..j] && q[i..][..j - i] == q[i..j];
    assert p[i..][j - i..] == p[j..] && q[i..][j - i..] == q[j..];
  }
}
