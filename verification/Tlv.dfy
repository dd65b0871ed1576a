/**
 Trees of resources as TLV bytes: external/wakaama/tlv.c, with the format of
 section 6.4.3 of OMA-TS-LightweightM2M-V1_0.
 */
module Tlv {
  import opened Bytes
  import opened IntBytes

  /** lwm2m_data_t */
  datatype Data = Data(id: nat, value: Value)

  datatype Value =
    | ObjectInstance(instances: seq<Data>)
    | MultipleResource(resources: seq<Data>)
    | Text(text: seq<byte>)
    | Opaque(bytes: seq<byte>)
    | Integer(number: int64)
    | Float(encoded: seq<byte>)      // what utils_encodeFloat makes of it
    | Boolean(truth: bool)
    | ObjectLink(objectId: nat, objectInstanceId: nat)
    | Unsupported                    // LWM2M_TYPE_OBJECT or LWM2M_TYPE_UNDEFINED

  predicate IsContainer(v: Value) {
    v.ObjectInstance? || v.MultipleResource?
  }

  function Children(v: Value): seq<Data>
    requires IsContainer(v)
  {
    if v.ObjectInstance? then v.instances else v.resources
  }

  // 16-bit fields, and a float in four or eight bytes
  predicate InBounds(d: Data) {
    && d.id < 0x1_0000
    && (d.value.ObjectLink? ==> d.value.objectId < 0x1_0000 && d.value.objectInstanceId < 0x1_0000)
    && (d.value.Float? ==> |d.value.encoded| == 4 || |d.value.encoded| == 8)
  }

  predicate TypedEntry(d: Data)
    decreases d, 0
  {
    InBounds(d) && (IsContainer(d.value) ==> Typed(Children(d.value)))
  }

  predicate Typed(list: seq<Data>)
    decreases list, 1
  {
    list != [] ==> TypedEntry(list[0]) && Typed(list[1..])
  }

  predicate SupportedEntry(d: Data)
    decreases d, 0
  {
    !d.value.Unsupported? && (IsContainer(d.value) ==> Supported(Children(d.value)))
  }

  /** No entry anywhere is of a type that has no TLV form. */
  predicate Supported(list: seq<Data>)
    decreases list, 1
  {
    list != [] ==> SupportedEntry(list[0]) && Supported(list[1..])
  }

  predicate FullEntry(d: Data)
    decreases d, 0
  {
    IsContainer(d.value) ==> Children(d.value) != [] && Full(Children(d.value))
  }

  /** No container anywhere is empty. */
  predicate Full(list: seq<Data>)
    decreases list, 1
  {
    list != [] ==> FullEntry(list[0]) && Full(list[1..])
  }

  // ------------------------------------------------------------------
  // The format
  // ------------------------------------------------------------------

  // The two high bits of a header
  const OBJECT_INSTANCE: nat := 0
  const RESOURCE_INSTANCE: nat := 1
  const MULTIPLE_RESOURCE: nat := 2
  const RESOURCE: nat := 3

  /** How many bytes hold the length */
  function LengthBytes(len: nat): (k: nat)
    ensures k <= 3
  {
    if len <= 7 then 0 else if len <= 0xFF then 1 else if len <= 0xFFFF then 2 else 3
  }

  /** prv_getHeaderLength */
  function HeaderLength(id: nat, len: nat): nat {
    2 + (if id > 0xFF then 1 else 0) + LengthBytes(len)
  }

  function Header(kind: nat, id: nat, len: nat): (h: seq<byte>)
    requires kind < 4 && id < 0x1_0000 && len <= 0xFF_FFFF
    ensures |h| == HeaderLength(id, len)
  {
    var first := kind * 64 + (if id > 0xFF then 32 else 0) + LengthBytes(len) * 8 + (if len <= 7 then len else 0);
    [first] + HighFirst(id, if id > 0xFF then 2 else 1) + HighFirst(len, LengthBytes(len))
  }

  /** The bytes of a leaf's value */
  function LeafBytes(v: Value): seq<byte>
    requires !IsContainer(v) && !v.Unsupported?
    requires v.ObjectLink? ==> v.objectId < 0x1_0000 && v.objectInstanceId < 0x1_0000
  {
    match v
    case Text(bytes) => bytes
    case Opaque(bytes) => bytes
    case Integer(number) => EncodeInt(number)
    case Float(encoded) => encoded
    case Boolean(truth) => [if truth then 1 else 0]
    case ObjectLink(o, i) => HighFirst(o * 0x1_0000 + i, 4)
  }

  function KindOf(v: Value, inside: bool): (k: nat)
    ensures k < 4
  {
    match v
    case ObjectInstance(_) => OBJECT_INSTANCE
    case MultipleResource(_) => MULTIPLE_RESOURCE
    case _ => if inside then RESOURCE_INSTANCE else RESOURCE
  }

  lemma ShortNumbers(n: nat)
    requires n < 256
    ensures HighFirst(n, 1) == [n] && HighFirst(n, 0) == []
  {
    OneByte(n);
  }

  /** The format pinned down: type, flags, ID and length, most significant byte first. */
  lemma KnownHeaders()
    ensures Header(RESOURCE, 0, 20) == [0xC8, 0, 20]
    ensures Header(MULTIPLE_RESOURCE, 6, 6) == [0x86, 6]
    ensures Header(RESOURCE_INSTANCE, 1, 1) == [0x41, 1]
    ensures Header(OBJECT_INSTANCE, 256, 258) == [0x30, 1, 0, 1, 2]
  {
    ShortNumbers(0);
    ShortNumbers(1);
    ShortNumbers(6);
    ShortNumbers(20);
    TwoByteNumber(256);
    TwoByteNumber(258);
  }

  /** An entry with a small ID and a short payload, in bytes */
  lemma ShortEntry(d: Data, inside: bool)
    requires TypedEntry(d) && SupportedEntry(d) && d.id < 256 && |Payload(d, inside)| <= 7
    ensures var p := Payload(d, inside);
            EntryBytes(d, inside) == [KindOf(d.value, inside) * 64 + |p|, d.id] + p
  {
    hide Payload, KindOf;
    ShortNumbers(d.id);
    ShortNumbers(0);
  }

  lemma OneEntry(d: Data, inside: bool)
    requires TypedEntry(d) && SupportedEntry(d)
    ensures Typed([d]) && Supported([d]) && Serial([d], inside) == EntryBytes(d, inside)
  {
    hide EntryBytes, TypedEntry, SupportedEntry;
    assert [d][1..] == [];
    assert Serial([d], inside) == EntryBytes(d, inside) + Serial([], inside);
  }

  lemma TwoEntries(a: Data, b: Data, inside: bool)
    requires TypedEntry(a) && SupportedEntry(a) && TypedEntry(b) && SupportedEntry(b)
    ensures Typed([a, b]) && Supported([a, b])
    ensures Serial([a, b], inside) == EntryBytes(a, inside) + EntryBytes(b, inside)
  {
    hide EntryBytes, TypedEntry, SupportedEntry;
    assert [a, b][1..] == [b] && [b][1..] == [];
    assert Serial([b], inside) == EntryBytes(b, inside) + Serial([], inside);
  }

  /** A tree pinned down: a resource of two instances, and one of opaque bytes, as on the wire. */
  lemma KnownTree()
    ensures var instances := [Data(0, Boolean(true)), Data(1, Text([65]))];
            var tree := [Data(6, MultipleResource(instances)), Data(5, Opaque([7, 8]))];
            && Typed(tree) && Supported(tree)
            && Serial(tree, false) == [0x86, 6, 0x41, 0, 1, 0x41, 1, 65, 0xC2, 5, 7, 8]
  {
    hide EntryBytes, Serial;
    var x, y, z := Data(0, Boolean(true)), Data(1, Text([65])), Data(5, Opaque([7, 8]));
    var w := Data(6, MultipleResource([x, y]));
    TwoEntries(x, y, true);
    ShortEntry(x, true);
    ShortEntry(y, true);
    ShortEntry(z, false);
    assert Payload(w, false) == Serial([x, y], true);
    ShortEntry(w, false);
    TwoEntries(w, z, false);
  }

  /** And an object instance of one resource */
  lemma KnownInstance()
    ensures var tree := [Data(2, ObjectInstance([Data(3, Boolean(false))]))];
            Typed(tree) && Supported(tree) && Serial(tree, false) == [0x03, 2, 0xC1, 3, 0]
  {
    var d := Data(3, Boolean(false));
    var o := Data(2, ObjectInstance([d]));
    hide EntryBytes, Serial;
    ShortEntry(d, false);
    OneEntry(d, false);
    assert Children(o.value) == [d] && TypedEntry(o) && SupportedEntry(o);
    assert Payload(o, false) == Serial([d], false);
    ShortEntry(o, false);
    OneEntry(o, false);
  }

  /**
   What prv_createHeader makes. For a length that needs more than 24 bits it
   writes no length; of such a header only the size is modelled.
   */
  function HeaderMade(kind: nat, id: nat, len: nat): (h: seq<byte>)
    requires kind < 4 && id < 0x1_0000
    ensures |h| == HeaderLength(id, len)
  {
    if len <= 0xFF_FFFF then Header(kind, id, len) else seq(HeaderLength(id, len), _ => 0)
  }

  /** What the header of an entry announces; `inside` is true within a multiple resource. */
  function Payload(d: Data, inside: bool): seq<byte>
    requires TypedEntry(d) && SupportedEntry(d)
    decreases d, 0
  {
    if IsContainer(d.value) then Serial(Children(d.value), inside || d.value.MultipleResource?)
    else LeafBytes(d.value)
  }

  function EntryBytes(d: Data, inside: bool): seq<byte>
    requires TypedEntry(d) && SupportedEntry(d)
    decreases d, 1
  {
    var p := Payload(d, inside);
    HeaderMade(KindOf(d.value, inside), d.id, |p|) + p
  }

  function Serial(list: seq<Data>, inside: bool): seq<byte>
    requires Typed(list) && Supported(list)
    decreases list, 2
  {
    if list == [] then [] else EntryBytes(list[0], inside) + Serial(list[1..], inside)
  }

  predicate FitsEntry(d: Data, inside: bool)
    requires TypedEntry(d) && SupportedEntry(d)
    decreases d, 0
  {
    && |Payload(d, inside)| <= 0xFF_FFFF
    && (IsContainer(d.value) ==> Fits(Children(d.value), inside || d.value.MultipleResource?))
  }

  /** Every payload fits in 24 bits. */
  predicate Fits(list: seq<Data>, inside: bool)
    requires Typed(list) && Supported(list)
    decreases list, 1
  {
    list != [] ==> FitsEntry(list[0], inside) && Fits(list[1..], inside)
  }

  function OpaqueEntry(d: Data): (o: Data)
    requires TypedEntry(d) && SupportedEntry(d)
    decreases d, 0
  {
    var v := if d.value.ObjectInstance? then ObjectInstance(AsOpaque(d.value.instances))
             else if d.value.MultipleResource? then MultipleResource(AsOpaque(d.value.resources))
             else Opaque(LeafBytes(d.value));
    Data(d.id, v)
  }

  /** The tree as a parser can know it: every leaf is its bytes. */
  function AsOpaque(list: seq<Data>): (o: seq<Data>)
    requires Typed(list) && Supported(list)
    ensures |o| == |list|
    decreases list, 1
  {
    if list == [] then [] else [OpaqueEntry(list[0])] + AsOpaque(list[1..])
  }

  // ------------------------------------------------------------------
  // Reading
  // ------------------------------------------------------------------

  /** A header found: the payload is `len` bytes from `index`. */
  datatype Item = Item(kind: nat, id: nat, index: nat, len: nat)

  /** lwm2m_decode_TLV; None is its 0, for bytes that do not hold a whole entry. */
  function DecodeItem(p: seq<byte>): (r: Option<Item>)
    ensures r.Some? ==> 2 <= r.value.index && r.value.index + r.value.len <= |p| && r.value.kind < 4
  {
    if |p| < 2 then None
    else
      var idBytes, lengthBytes := if p[0] / 32 % 2 == 1 then 2 else 1, p[0] / 8 % 4;
      var index := 1 + idBytes + lengthBytes;
      if |p| < index then None
      else
        var id := BigEndian(p[1..1 + idBytes]);
        var len := if lengthBytes == 0 then p[0] % 8 else BigEndian(p[1 + idBytes..index]);
        if index + len > |p| then None else Some(Item(p[0] / 64, id, index, len))
  }

  /** tlv_parse: the entries found; None when a container turns out to hold none, and everything is given up. */
  function Parse(p: seq<byte>): Option<seq<Data>>
    decreases |p|
  {
    match DecodeItem(p)
    case None => Some([])
    case Some(item) =>
      var end := item.index + item.len;
      var payload := p[item.index..end];
      if item.kind == OBJECT_INSTANCE || item.kind == MULTIPLE_RESOURCE then
        var children := Parse(payload);
        if children.None? || children.value == [] then None
        else
          var rest := Parse(p[end..]);
          var v := if item.kind == OBJECT_INSTANCE then ObjectInstance(children.value)
                   else MultipleResource(children.value);
          if rest.None? then None else Some([Data(item.id, v)] + rest.value)
      else
        var rest := Parse(p[end..]);
        if rest.None? then None else Some([Data(item.id, Opaque(payload))] + rest.value)
  }

  // ------------------------------------------------------------------
  // The round trip
  // ------------------------------------------------------------------

  lemma SmallBytes(n: nat, k: nat)
    requires n < Pow256(k)
    ensures BigEndian(HighFirst(n, k)) == n
  {
    BytesBack(n, k);
  }

  lemma LengthFits(len: nat)
    requires len <= 0xFF_FFFF
    ensures LengthBytes(len) > 0 ==> BigEndian(HighFirst(len, LengthBytes(len))) == len
  {
    assert Pow256(1) == 0x100 && Pow256(2) == 0x1_0000 && Pow256(3) == 0x100_0000;
    if len > 7 {
      SmallBytes(len, LengthBytes(len));
    }
  }

  lemma IdFits(id: nat)
    requires id < 0x1_0000
    ensures BigEndian(HighFirst(id, if id > 0xFF then 2 else 1)) == id
  {
    assert Pow256(1) == 0x100 && Pow256(2) == 0x1_0000;
    SmallBytes(id, if id > 0xFF then 2 else 1);
  }

  /** The fields of a header's first byte */
  lemma FirstByte(kind: nat, wide: nat, lengthBytes: nat, low: nat)
    requires kind < 4 && wide < 2 && lengthBytes < 4 && low < 8
    ensures var b := kind * 64 + wide * 32 + lengthBytes * 8 + low;
            b < 256 && b / 64 == kind && b / 32 % 2 == wide && b / 8 % 4 == lengthBytes && b % 8 == low
  {
    var b := kind * 64 + wide * 32 + lengthBytes * 8 + low;
    RemainderUnique(b, 64, kind, wide * 32 + lengthBytes * 8 + low);
    RemainderUnique(b, 32, kind * 2 + wide, lengthBytes * 8 + low);
    RemainderUnique(b, 8, kind * 8 + wide * 4 + lengthBytes, low);
    RemainderUnique(kind * 2 + wide, 2, kind, wide);
    RemainderUnique(kind * 8 + wide * 4 + lengthBytes, 4, kind * 2 + wide, lengthBytes);
  }

  lemma ItemFound(p: seq<byte>, kind: nat, wide: nat, lengthBytes: nat, id: nat, len: nat)
    requires wide < 2 && lengthBytes < 4 && 2 + wide + lengthBytes + len <= |p|
    requires p[0] / 64 == kind && p[0] / 32 % 2 == wide && p[0] / 8 % 4 == lengthBytes
    requires BigEndian(p[1..2 + wide]) == id
    requires len == if lengthBytes == 0 then p[0] % 8 else BigEndian(p[2 + wide..2 + wide + lengthBytes])
    ensures DecodeItem(p) == Some(Item(kind, id, 2 + wide + lengthBytes, len))
  {
    hide BigEndian;
  }

  /** Reading a header gives back what it was made of. */
  lemma HeaderBack(kind: nat, id: nat, payload: seq<byte>, rest: seq<byte>)
    requires kind < 4 && id < 0x1_0000 && |payload| <= 0xFF_FFFF
    ensures DecodeItem(Header(kind, id, |payload|) + payload + rest)
         == Some(Item(kind, id, HeaderLength(id, |payload|), |payload|))
  {
    hide HighFirst, BigEndian, DecodeItem;
    var len := |payload|;
    var h := Header(kind, id, len);
    var p := h + payload + rest;
    var wide, lb := if id > 0xFF then 1 else 0, LengthBytes(len);
    FirstByte(kind, wide, lb, if len <= 7 then len else 0);
    assert p[0] == h[0];
    assert p[1..2 + wide] == HighFirst(id, 1 + wide);
    assert p[2 + wide..2 + wide + lb] == HighFirst(len, lb);
    IdFits(id);
    LengthFits(len);
    ItemFound(p, kind, wide, lb, id, len);
  }

  lemma EntryParts(h: seq<byte>, payload: seq<byte>, rest: seq<byte>)
    ensures (h + payload + rest)[|h|..|h| + |payload|] == payload
    ensures (h + payload + rest)[|h| + |payload|..] == rest
  {
  }

  /** Parsing one entry followed by bytes that parse to `more` */
  lemma {:induction false} ParseEntry(d: Data, inside: bool, rest: seq<byte>)
    requires TypedEntry(d) && SupportedEntry(d) && FitsEntry(d, inside)
    ensures var payload := Payload(d, inside);
            Parse(Header(KindOf(d.value, inside), d.id, |payload|) + payload + rest)
            == if FullEntry(d) && Parse(rest).Some? then Some([OpaqueEntry(d)] + Parse(rest).value) else None
    decreases d, 0
  {
    hide Header, DecodeItem, LeafBytes;
    var payload := Payload(d, inside);
    var h := Header(KindOf(d.value, inside), d.id, |payload|);
    HeaderBack(KindOf(d.value, inside), d.id, payload, rest);
    EntryParts(h, payload, rest);
    if IsContainer(d.value) {
      var within := inside || d.value.MultipleResource?;
      ParseSerial(Children(d.value), within);
    }
  }

  /** Parsing what was serialised gives the tree with its leaves as bytes, or nothing if any container is empty. */
  lemma {:induction false} ParseSerial(list: seq<Data>, inside: bool)
    requires Typed(list) && Supported(list) && Fits(list, inside)
    ensures Parse(Serial(list, inside)) == if Full(list) then Some(AsOpaque(list)) else None
    decreases list, 1
  {
    if list != [] {
      ParseSerial(list[1..], inside);
      ParseEntry(list[0], inside, Serial(list[1..], inside));
    }
  }

  // ------------------------------------------------------------------
  // What is promised of the codec
  // ------------------------------------------------------------------

  /** What tlv_parse leaves its caller with */
  function Entries(r: Option<seq<Data>>): seq<Data> {
    match r
    case None => []
    case Some(list) => list
  }

  /** The round trip holds exactly when no container is empty. */
  lemma RoundTripIff(list: seq<Data>, inside: bool)
    requires Typed(list) && Supported(list) && Fits(list, inside)
    ensures Entries(Parse(Serial(list, inside))) == AsOpaque(list) <==> Full(list)
  {
    ParseSerial(list, inside);
  }

  predicate DecodesEntry(d: Data, parsed: Data)
    decreases d, 0
  {
    && parsed.id == d.id
    && match d.value
       case ObjectInstance(children) => parsed.value.ObjectInstance? && Decodes(children, parsed.value.instances)
       case MultipleResource(children) => parsed.value.MultipleResource? && Decodes(children, parsed.value.resources)
       case Integer(number) => parsed.value.Opaque? && DecodeInt(parsed.value.bytes) == Some(number)
       case Text(text) => parsed.value == Opaque(text)
       case Opaque(bytes) => parsed.value == Opaque(bytes)
       case Float(encoded) => parsed.value == Opaque(encoded)
       case Boolean(truth) => parsed.value == Opaque([if truth then 1 else 0])
       case ObjectLink(o, i) =>
         parsed.value.Opaque? && |parsed.value.bytes| == 4 && BigEndian(parsed.value.bytes) == o * 0x1_0000 + i
       case Unsupported => false
  }

  /** The parsed tree has the shape of the original, and every leaf, however deep, decodes to what it was. */
  predicate Decodes(list: seq<Data>, parsed: seq<Data>)
    decreases list, 1
  {
    |parsed| == |list| && (list != [] ==> DecodesEntry(list[0], parsed[0]) && Decodes(list[1..], parsed[1..]))
  }

  lemma {:induction false} OpaqueEntryDecodes(d: Data)
    requires TypedEntry(d) && SupportedEntry(d)
    ensures DecodesEntry(d, OpaqueEntry(d))
    decreases d, 0
  {
    hide EncodeInt, DecodeInt;
    if IsContainer(d.value) {
      OpaqueDecodes(Children(d.value));
    } else if d.value.Integer? {
      IntRoundTrip(d.value.number);
    } else if d.value.ObjectLink? {
      LinkComesBack(d.value.objectId, d.value.objectInstanceId);
    }
  }

  lemma LinkComesBack(o: nat, i: nat)
    requires o < 0x1_0000 && i < 0x1_0000
    ensures |HighFirst(o * 0x1_0000 + i, 4)| == 4 && BigEndian(HighFirst(o * 0x1_0000 + i, 4)) == o * 0x1_0000 + i
  {
    var n := o * 0x1_0000 + i;
    Powers();
    BigEndianHighFirst(n, 4);
    RemainderUnique(n, 0x1_0000_0000, 0, n);
  }

  lemma {:induction false} OpaqueDecodes(list: seq<Data>)
    requires Typed(list) && Supported(list)
    ensures Decodes(list, AsOpaque(list))
    decreases list, 1
  {
    if list != [] {
      OpaqueEntryDecodes(list[0]);
      OpaqueDecodes(list[1..]);
    }
  }

  /** Every leaf of a tree, serialised and parsed, decodes to what it was, an integer to the same 64-bit value. */
  lemma LeavesComeBack(list: seq<Data>, inside: bool)
    requires Typed(list) && Supported(list) && Fits(list, inside) && Full(list)
    ensures Decodes(list, Entries(Parse(Serial(list, inside))))
  {
    hide Serial, Parse, AsOpaque;
    ParseSerial(list, inside);
    OpaqueDecodes(list);
  }

  lemma {:induction false} PayloadLength(d: Data, inside: bool)
    requires TypedEntry(d) && SupportedEntry(d)
    ensures |Payload(d, inside)| == |Payload(d, false)|
    decreases d, 0
  {
    if IsContainer(d.value) {
      SerialLength(Children(d.value), inside || d.value.MultipleResource?);
      SerialLength(Children(d.value), d.value.MultipleResource?);
    }
  }

  /** How long the bytes are does not depend on where the list stands. */
  lemma {:induction false} SerialLength(list: seq<Data>, inside: bool)
    requires Typed(list) && Supported(list)
    ensures |Serial(list, inside)| == |Serial(list, false)|
    decreases list, 1
  {
    if list != [] {
      PayloadLength(list[0], inside);
      SerialLength(list[1..], inside);
    }
  }

  /** One entry split off the front of what is left of a list */
  lemma {:induction false} ListFrom(list: seq<Data>, i: nat)
    requires Typed(list) && i < |list|
    ensures TypedEntry(list[i]) && Typed(list[i..]) && Typed(list[i + 1..])
    ensures Supported(list[i..]) <==> SupportedEntry(list[i]) && Supported(list[i + 1..])
    ensures forall inside :: Supported(list[i..]) ==>
              && Serial(list[i..], inside) == EntryBytes(list[i], inside) + Serial(list[i + 1..], inside)
              && (Fits(list[i..], inside) <==> FitsEntry(list[i], inside) && Fits(list[i + 1..], inside))
    decreases i
  {
    assert list[i..][0] == list[i] && list[i..][1..] == list[i + 1..];
    if i == 0 {
      assert list[0..] == list;
    } else {
      ListFrom(list[1..], i - 1);
      assert list[1..][i - 1..] == list[i..] && list[1..][i..] == list[i + 1..];
    }
  }

  // ------------------------------------------------------------------
  // Writing
  // ------------------------------------------------------------------

  /** How many bytes the payload of a leaf takes */
  function LeafLength(v: Value): (n: nat)
    requires !IsContainer(v) && !v.Unsupported?
    requires v.ObjectLink? ==> v.objectId < 0x1_0000 && v.objectInstanceId < 0x1_0000
    ensures n == |LeafBytes(v)|
  {
    match v
    case Text(bytes) => |bytes|
    case Opaque(bytes) => |bytes|
    case Integer(number) => Width(number)
    case Float(encoded) => |encoded|
    case Boolean(_) => 1
    case ObjectLink(_, _) => 4
  }

  /** One round of prv_getLength: what an entry adds, or -1 */
  method GetEntryLength(d: Data) returns (length: int)
    requires TypedEntry(d)
    ensures length == if SupportedEntry(d) then |EntryBytes(d, false)| else -1
    decreases d, 0
  {
    if IsContainer(d.value) {
      var subLength := GetLength(Children(d.value));
      if subLength == -1 {
        length := -1;
      } else {
        SerialLength(Children(d.value), d.value.MultipleResource?);
        length := HeaderLength(d.id, subLength) + subLength;
      }
    } else if d.value.Unsupported? {
      length := -1;
    } else {
      length := HeaderLength(d.id, LeafLength(d.value)) + LeafLength(d.value);
    }
  }

  /** prv_getLength: exactly the bytes serialising takes, or -1 when some type has no TLV form */
  method GetLength(list: seq<Data>) returns (length: int)
    requires Typed(list)
    ensures length == if Supported(list) then |Serial(list, false)| else -1
    decreases list, 1
  {
    length := 0;
    var i := 0;
    assert list[0..] == list;
    while i < |list| && length != -1
      invariant i <= |list| && length >= -1 && Typed(list[i..])
      invariant length == -1 ==> !Supported(list)
      invariant length != -1 ==> (Supported(list) <==> Supported(list[i..]))
      invariant length != -1 && Supported(list) ==> |Serial(list, false)| == length + |Serial(list[i..], false)|
      decreases |list| - i
    {
      ListFrom(list, i);
      var entry := GetEntryLength(list[i]);
      length := if entry == -1 then -1 else length + entry;
      i := i + 1;
    }
  }

  /** A number of one to three bytes written most significant first */
  method WriteNumber(buffer: array<byte>, at: nat, k: nat, n: nat)
    requires 1 <= k <= 3 && at + k <= buffer.Length && n < Pow256(k)
    modifies buffer
    ensures buffer[..] == old(buffer[..at]) + HighFirst(n, k) + old(buffer[at + k..])
  {
    hide HighFirst, Pow256;
    Sizes();
    if k == 1 {
      OneByte(n);
      buffer[at] := n;
    } else if k == 2 {
      TwoByteNumber(n);
      buffer[at], buffer[at + 1] := n / 256, n % 256;
    } else {
      ThreeByteNumber(n);
      buffer[at], buffer[at + 1], buffer[at + 2] := n / 0x1_0000, n / 256 % 256, n % 256;
    }
  }

  lemma Sizes()
    ensures Pow256(1) == 0x100 && Pow256(2) == 0x1_0000 && Pow256(3) == 0x100_0000
  {
  }

  /** The length a header shows: none for a payload of more than 24 bits */
  function Shown(len: nat): (n: nat)
    ensures n <= 0xFF_FFFF && LengthBytes(n) <= LengthBytes(len)
  {
    if len <= 0xFF_FFFF then len else 0
  }

  /**
   prv_createHeader at offset `at` of a buffer. For a length above 24 bits the
   code writes the header of an empty payload, and leaves the bytes it has
   counted for the length as they were.
   */
  method CreateHeader(buffer: array<byte>, at: nat, kind: nat, id: nat, len: nat) returns (n: nat)
    requires kind < 4 && id < 0x1_0000 && at + HeaderLength(id, len) <= buffer.Length
    modifies buffer
    ensures n == HeaderLength(id, len)
    ensures buffer[..] == old(buffer[..at]) + Header(kind, id, Shown(len))
                          + old(buffer[at + HeaderLength(id, Shown(len))..])
  {
    hide HighFirst, Header, LengthBytes, Pow256, Shown, LengthFlags;
    Sizes();
    ghost var shown := Shown(len);
    ShownFits(len, id);
    n := HeaderLength(id, len);
    var first, k := kind * 64, 1;
    if id > 0xFF {
      first := first + 0x20;
      k := 2;
    }
    ghost var was := buffer[..];
    WriteNumber(buffer, at + 1, k, id);
    ghost var mid := buffer[..];
    var flags := WriteLength(buffer, at + 1 + k, len);
    ghost var end := buffer[..];
    buffer[at] := first + flags;
    HeaderIs(kind, id, shown);
    hide HeaderLength;
    PutTogether(was, mid, end, buffer[..], at, HighFirst(id, k), HighFirst(shown, LengthBytes(shown)),
                Header(kind, id, shown));
  }

  lemma PutTogether(
    was: seq<byte>, mid: seq<byte>, end: seq<byte>, now: seq<byte>, at: nat, x: seq<byte>, y: seq<byte>, h: seq<byte>)
    requires at + 1 + |x| + |y| <= |was|
    requires mid == was[..at + 1] + x + was[at + 1 + |x|..]
    requires end == mid[..at + 1 + |x|] + y + mid[at + 1 + |x| + |y|..]
    requires |now| == |end| && now == end[at := now[at]] && h == [now[at]] + x + y
    ensures now == was[..at] + h + was[at + |h|..]
  {
    assert end == was[..at + 1] + x + y + was[at + 1 + |x| + |y|..];
  }

  function LengthFlags(len: nat): (flags: nat)
    requires len <= 0xFF_FFFF
    ensures flags < 32
  {
    LengthBytes(len) * 8 + if len <= 7 then len else 0
  }

  lemma HeaderIs(kind: nat, id: nat, len: nat)
    requires kind < 4 && id < 0x1_0000 && len <= 0xFF_FFFF
    ensures Header(kind, id, len) ==
            [kind * 64 + (if id > 0xFF then 32 else 0) + LengthFlags(len)]
            + HighFirst(id, if id > 0xFF then 2 else 1) + HighFirst(len, LengthBytes(len))
  {
  }

  /** The length bytes, and what they add to the header's first byte */
  method WriteLength(buffer: array<byte>, at: nat, len: nat) returns (flags: nat)
    requires at + LengthBytes(len) <= buffer.Length
    modifies buffer
    ensures var k := LengthBytes(Shown(len));
            && flags == LengthFlags(Shown(len))
            && buffer[..] == old(buffer[..at]) + HighFirst(Shown(len), k) + old(buffer[at + k..])
  {
    hide HighFirst;
    assert Pow256(1) == 0x100 && Pow256(2) == 0x1_0000 && Pow256(3) == 0x100_0000;
    flags := 0;
    NoBytes(Shown(len));
    assert buffer[..] == buffer[..at] + [] + buffer[at..];
    if len <= 7 {
      flags := len;
    } else if len <= 0xFF {
      flags := 0x08;
      WriteNumber(buffer, at, 1, len);
    } else if len <= 0xFFFF {
      flags := 0x10;
      WriteNumber(buffer, at, 2, len);
    } else if len <= 0xFF_FFFF {
      flags := 0x18;
      WriteNumber(buffer, at, 3, len);
    }
  }

  lemma NoBytes(n: nat)
    ensures HighFirst(n, 0) == []
  {
  }

  lemma TwoByteNumber(n: nat)
    requires n < 0x1_0000
    ensures n / 256 < 256 && HighFirst(n, 2) == [n / 256, n % 256]
  {
    OneByte(n / 256);
    LowSplit(n, 2);
  }

  lemma ThreeByteNumber(n: nat)
    requires n < 0x100_0000
    ensures n / 0x1_0000 < 256 && HighFirst(n, 3) == [n / 0x1_0000, n / 256 % 256, n % 256]
  {
    TwoByteNumber(n / 256);
    LowSplit(n, 3);
    assert n / 256 / 256 == n / 0x1_0000;
  }

  /** memcpy */
  method CopyBytes(buffer: array<byte>, at: nat, bytes: seq<byte>)
    requires at + |bytes| <= buffer.Length
    modifies buffer
    ensures buffer[..] == old(buffer[..at]) + bytes + old(buffer[at + |bytes|..])
  {
    forall i | 0 <= i < |bytes| {
      buffer[at + i] := bytes[i];
    }
  }

  /** The bytes of a leaf as its case of tlv_serialize prepares them */
  method EncodeLeaf(v: Value) returns (bytes: seq<byte>)
    requires !IsContainer(v) && !v.Unsupported?
    requires v.ObjectLink? ==> v.objectId < 0x1_0000 && v.objectInstanceId < 0x1_0000
    ensures bytes == LeafBytes(v)
  {
    match v
    case Text(text) => bytes := text;
    case Opaque(opaqueBytes) => bytes := opaqueBytes;
    case Integer(number) =>
      var buffer := new byte[8];
      var n := EncodeIntInto(number, buffer);
      bytes := buffer[..n];
    case Float(encoded) => bytes := encoded;
    case Boolean(truth) => bytes := [if truth then 1 else 0];
    case ObjectLink(o, i) => bytes := EncodeLink(o * 0x1_0000 + i);
  }

  /** The four bytes of an object link, from the last */
  method EncodeLink(number: nat) returns (bytes: seq<byte>)
    ensures bytes == HighFirst(number, 4)
  {
    hide HighFirst;
    var buffer := new byte[4];
    var link, k: nat := number, 4;
    LinkStart(link);
    assert buffer[4..] == [];
    while k > 0
      invariant k <= 4 && HighFirst(number, 4) == HighFirst(link, k) + buffer[k..]
    {
      LowSplit(link, k);
      buffer[k - 1] := link % 256;
      MoveByte(number, link, k, buffer[k..]);
      link, k := link / 256, k - 1;
      assert buffer[k..] == [buffer[k]] + buffer[k + 1..];
    }
    NoBytes(link);
    bytes := buffer[..];
  }

  lemma MoveByte(number: nat, link: nat, k: nat, rest: seq<byte>)
    requires k > 0 && HighFirst(number, 4) == HighFirst(link, k) + rest
    requires HighFirst(link, k) == HighFirst(link / 256, k - 1) + [link % 256]
    ensures HighFirst(number, 4) == HighFirst(link / 256, k - 1) + ([link % 256] + rest)
  {
  }

  lemma LinkStart(link: nat)
    ensures HighFirst(link, 4) + [] == HighFirst(link, 4)
  {
  }

  /** The bytes of an entry behind its header, a container's serialised by the recursive call */
  method SerializePayload(d: Data, inside: bool) returns (payload: seq<byte>)
    requires TypedEntry(d) && SupportedEntry(d)
    ensures |payload| == |Payload(d, inside)|
    ensures FitsEntry(d, inside) ==> payload == Payload(d, inside)
    decreases d, 0
  {
    hide LeafBytes;
    payload := [];
    if IsContainer(d.value) {
      var res, tmpBuffer := Serialize(Children(d.value), inside || d.value.MultipleResource?);
      if tmpBuffer != null {
        payload := tmpBuffer[..];
      }
    } else {
      payload := EncodeLeaf(d.value);
    }
  }

  /** One round of the loop of tlv_serialize */
  method SerializeEntry(d: Data, inside: bool, buffer: array<byte>, index: nat) returns (next: nat)
    requires TypedEntry(d) && SupportedEntry(d) && index + |EntryBytes(d, inside)| <= buffer.Length
    modifies buffer
    ensures next == index + |EntryBytes(d, inside)|
    ensures FitsEntry(d, inside) ==> buffer[index..next] == EntryBytes(d, inside)
    ensures buffer[..index] == old(buffer[..index])
    decreases d, 1
  {
    hide Header, LeafBytes, HeaderLength, Shown, Payload;
    var payload := SerializePayload(d, inside);
    ghost var was := buffer[..];
    ShownFits(|payload|, d.id);
    var headerLen := CreateHeader(buffer, index, KindOf(d.value, inside), d.id, |payload|);
    ghost var mid := buffer[..];
    CopyBytes(buffer, index + headerLen, payload);
    next := index + headerLen + |payload|;
    ghost var header := Header(KindOf(d.value, inside), d.id, Shown(|payload|));
    BehindHeader(was, mid, buffer[..], index, header, headerLen, payload);
  }

  lemma BehindHeader(
    was: seq<byte>, mid: seq<byte>, now: seq<byte>, at: nat, header: seq<byte>, n: nat, payload: seq<byte>)
    requires |header| <= n && at + n + |payload| <= |was|
    requires mid == was[..at] + header + was[at + |header|..]
    requires now == mid[..at + n] + payload + mid[at + n + |payload|..]
    ensures now[..at] == was[..at]
    ensures n == |header| ==> now[at..at + n + |payload|] == header + payload
  {
  }

  lemma ShownFits(len: nat, id: nat)
    ensures len <= 0xFF_FFFF ==> Shown(len) == len
    ensures HeaderLength(id, Shown(len)) <= HeaderLength(id, len)
  {
  }

  /** The entries before place `i` are written, the rest still to come. */
  ghost predicate WrittenUpTo(list: seq<Data>, i: nat, inside: bool, written: seq<byte>, length: int)
    requires Typed(list) && Supported(list) && i <= |list| && Typed(list[i..]) && Supported(list[i..])
  {
    && |written| + |Serial(list[i..], inside)| == length
    && (Fits(list, inside) ==> Fits(list[i..], inside) && Serial(list, inside) == written + Serial(list[i..], inside))
  }

  lemma OneWritten(list: seq<Data>, i: nat, inside: bool, before: seq<byte>, now: seq<byte>, length: int)
    requires Typed(list) && Supported(list) && i < |list| && Typed(list[i..]) && Supported(list[i..])
    requires WrittenUpTo(list, i, inside, before, length) && TypedEntry(list[i]) && SupportedEntry(list[i])
    requires |now| == |before| + |EntryBytes(list[i], inside)| && now[..|before|] == before
    requires FitsEntry(list[i], inside) ==> now[|before|..] == EntryBytes(list[i], inside)
    ensures Typed(list[i + 1..]) && Supported(list[i + 1..])
    ensures WrittenUpTo(list, i + 1, inside, now, length)
  {
    hide EntryBytes, FitsEntry, TypedEntry, SupportedEntry;
    ListFrom(list, i);
    assert now == before + now[|before|..];
  }

  /** tlv_serialize, memory available */
  method Serialize(list: seq<Data>, inside: bool) returns (length: int, buffer: array?<byte>)
    requires Typed(list)
    ensures length == if Supported(list) then |Serial(list, inside)| else -1
    ensures (buffer == null <==> length <= 0) && (buffer != null ==> fresh(buffer) && buffer.Length == length)
    ensures buffer != null && Fits(list, inside) ==> buffer[..] == Serial(list, inside)
    decreases list, 1
  {
    hide EntryBytes, FitsEntry, TypedEntry, SupportedEntry, LeafBytes;
    buffer := null;
    length := GetLength(list);
    if length <= 0 {
      if length == 0 {
        SerialLength(list, inside);
      }
      return;
    }
    SerialLength(list, inside);
    var bytes := new byte[length];
    var index, i := 0, 0;
    assert list[0..] == list;
    while i < |list|
      invariant i <= |list| && index <= length && Typed(list[i..]) && Supported(list[i..])
      invariant WrittenUpTo(list, i, inside, bytes[..index], length)
    {
      ListFrom(list, i);
      ghost var before := bytes[..index];
      var next := SerializeEntry(list[i], inside, bytes, index);
      OneWritten(list, i, inside, before, bytes[..next], length);
      index, i := next, i + 1;
    }
    assert bytes[..index] == bytes[..];
    buffer := bytes;
  }

  // ------------------------------------------------------------------
  // Parsing
  // ------------------------------------------------------------------

  /** A number of one to three bytes, most significant first */
  method ReadNumber(buffer: array<byte>, at: nat, n: nat) returns (v: nat)
    requires 1 <= n <= 3 && at + n <= buffer.Length
    ensures v == BigEndian(buffer[at..at + n])
  {
    if n == 1 {
      v := buffer[at];
      OneByteValue(buffer[at..at + 1]);
    } else if n == 2 {
      v := 256 * (buffer[at] as int) + buffer[at + 1] as int;
      TwoByteValue(buffer[at..at + 2]);
    } else {
      v := 0x1_0000 * (buffer[at] as int) + 256 * (buffer[at + 1] as int) + buffer[at + 2] as int;
      ThreeByteValue(buffer[at..at + 3]);
    }
  }

  /** lwm2m_decode_TLV on the `len` bytes from `start` */
  method DecodeTlv(buffer: array<byte>, start: nat, len: nat) returns (result: nat, item: Item)
    requires start + len <= buffer.Length
    ensures DecodeItem(buffer[start..start + len]) == if result == 0 then None else Some(item)
    ensures result > 0 ==> result == item.index + item.len
  {
    hide BigEndian;
    ghost var p := buffer[start..start + len];
    result, item := 0, Item(0, 0, 2, 0);
    if len < 2 {
      return;
    }
    var first := buffer[start];
    assert first == p[0];
    var index := 2;
    if first / 32 % 2 == 1 {
      if len < 3 {
        return;
      }
      index := 3;
    }
    var lengthBytes := first / 8 % 4;
    if len < index + lengthBytes {
      return;
    }
    var id := ReadNumber(buffer, start + 1, index - 1);
    SliceShift(buffer, start, len, 1, index);
    var dataLen := first % 8;
    if lengthBytes > 0 {
      dataLen := ReadNumber(buffer, start + index, lengthBytes);
      SliceShift(buffer, start, len, index, index + lengthBytes);
      index := index + lengthBytes;
    }
    if index + dataLen > len {
      return;
    }
    result, item := index + dataLen, Item(first / 64, id, index, dataLen);
  }

  lemma SliceShift(a: array<byte>, start: nat, len: nat, i: nat, j: nat)
    requires start + len <= a.Length && i <= j <= len
    ensures a[start..start + len][i..j] == a[start + i..start + j]
  {
    var p, x, y := a[start..start + len], a[start..start + len][i..j], a[start + i..start + j];
    forall k | 0 <= k < j - i
      ensures x[k] == y[k]
    {
      assert p[i + k] == a[start + i + k];
    }
  }

  lemma OneByteValue(p: seq<byte>)
    requires |p| == 1
    ensures BigEndian(p) == p[0]
  {
    assert BigEndian(p[..0]) == 0;
  }

  lemma TwoByteValue(p: seq<byte>)
    requires |p| == 2
    ensures BigEndian(p) == 256 * (p[0] as int) + p[1] as int
  {
    OneByteValue(p[..1]);
  }

  lemma ThreeByteValue(p: seq<byte>)
    requires |p| == 3
    ensures BigEndian(p) == 0x1_0000 * (p[0] as int) + 256 * (p[1] as int) + p[2] as int
  {
    TwoByteValue(p[..2]);
  }

  /** One round of the loop of tlv_parse: the entry for a header found, or none when it is an empty container */
  method ParseItem(buffer: array<byte>, start: nat, len: nat, item: Item) returns (entry: Option<Data>)
    requires start + len <= buffer.Length && DecodeItem(buffer[start..start + len]) == Some(item)
    ensures var p := buffer[start..start + len];
            var rest := Parse(p[item.index + item.len..]);
            Parse(p) == if entry.None? || rest.None? then None else Some([entry.value] + rest.value)
    decreases len, 0
  {
    hide DecodeItem;
    SliceShift(buffer, start, len, item.index, item.index + item.len);
    if item.kind == OBJECT_INSTANCE || item.kind == MULTIPLE_RESOURCE {
      var children := ParseTlv(buffer, start + item.index, item.len);
      if children == [] {
        return None;
      }
      var v := if item.kind == OBJECT_INSTANCE then ObjectInstance(children) else MultipleResource(children);
      entry := Some(Data(item.id, v));
    } else {
      entry := Some(Data(item.id, Opaque(buffer[start + item.index..start + item.index + item.len])));
    }
  }

  /** tlv_parse on the `len` bytes from `start`, memory available */
  method ParseTlv(buffer: array<byte>, start: nat, len: nat) returns (list: seq<Data>)
    requires start + len <= buffer.Length
    ensures list == Entries(Parse(buffer[start..start + len]))
    decreases len, 1
  {
    hide DecodeItem, Parse;
    ghost var p := buffer[start..start + len];
    list := [];
    var index := 0;
    var result, item := DecodeTlv(buffer, start, len);
    SliceShift(buffer, start, len, 0, len);
    assert Parse(p).Some? ==> list + Parse(p).value == Parse(p).value;
    while result != 0
      invariant index <= len
      invariant DecodeItem(buffer[start + index..start + len]) == if result == 0 then None else Some(item)
      invariant result > 0 ==> result == item.index + item.len
      invariant var more := Parse(buffer[start + index..start + len]);
                Parse(p) == if more.None? then None else Some(list + more.value)
      decreases len - index
    {
      var entry := ParseItem(buffer, start + index, len - index, item);
      if entry.None? {
        return [];
      }
      SliceShift(buffer, start + index, len - index, result, len - index);
      ghost var more := Parse(buffer[start + index + result..start + len]);
      assert more.Some? ==> list + ([entry.value] + more.value) == (list + [entry.value]) + more.value;
      list, index := list + [entry.value], index + result;
      result, item := DecodeTlv(buffer, start + index, len - index);
    }
    NoMore(buffer[start + index..start + len]);
  }

  lemma NoMore(p: seq<byte>)
    requires DecodeItem(p).None?
    ensures Parse(p) == Some([])
  {
  }
}
