/**
 The storage area of a queue in freertos/source/queue.c: a byte buffer used as
 a ring of `length` slots of `itemSize` bytes. Pointers are byte offsets from
 pcHead; pcTail is `length * itemSize`.

 pcReadFrom stands on the slot read last, so the oldest item is one slot
 further on. The class is proved to act as a deque of at most `length` items.
 A semaphore is the case `itemSize == 0`: no byte moves and only the count does.
 */
module QueueStorage {

  import opened Bytes

  datatype Position = ToBack | ToFront | Overwrite

  // ------------------------------------------------------------------
  // Slots
  // ------------------------------------------------------------------

  function Forward(slot: nat, length: nat): (s: nat)
    requires slot < length
    ensures s < length && s == (slot + 1) % length
  {
    if slot + 1 < length then slot + 1 else 0
  }

  function Backward(slot: nat, length: nat): (s: nat)
    requires slot < length
    ensures s < length && Forward(s, length) == slot
  {
    if slot == 0 then length - 1 else slot - 1
  }

  /** The slot of item `k`, counted from the slot read last. */
  function SlotOf(read: nat, k: nat, length: nat): (s: nat)
    requires read < length && k < length
    ensures s < length && s == (read + 1 + k) % length
  {
    if read + 1 + k < length then read + 1 + k else read + 1 + k - length
  }

  /** The slot the next item sent to the back goes to. */
  function WriteSlot(read: nat, count: nat, length: nat): (s: nat)
    requires read < length && count <= length
    ensures s < length && s == (read + 1 + count) % length
  {
    if count < length then SlotOf(read, count, length)
    else
      assert read + 1 + count == read + 1 + length;
      Forward(read, length)
  }

  /** Items in different places have different slots. */
  lemma SlotsApart(read: nat, j: nat, k: nat, length: nat)
    requires read < length && j < length && k < length && j != k
    ensures SlotOf(read, j, length) != SlotOf(read, k, length)
  {
  }

  lemma OffsetsApart(s: nat, t: nat, size: nat)
    requires s < t
    ensures s * size + size <= t * size
  {
    assert (s + 1) * size <= t * size by {
      var d := t - (s + 1);
      assert t * size == (s + 1) * size + d * size;
      assert d * size >= 0;
    }
  }

  function SlotBytes(bytes: seq<byte>, slot: nat, size: nat): (b: seq<byte>)
    requires slot * size + size <= |bytes|
    ensures |b| == size
  {
    bytes[slot * size..slot * size + size]
  }

  lemma SlotFits(slot: nat, length: nat, size: nat)
    requires slot < length
    ensures 0 <= slot * size && slot * size + size <= length * size
  {
    OffsetsApart(slot, length, size);
  }

  // ------------------------------------------------------------------
  // What the ring stores
  // ------------------------------------------------------------------

  /** The stored items, oldest first. */
  ghost function Items(bytes: seq<byte>, read: nat, count: nat, length: nat, size: nat): (items: seq<seq<byte>>)
    requires read < length && count <= length && |bytes| == length * size
    ensures |items| == count
    ensures forall k :: 0 <= k < count ==> |items[k]| == size
  {
    seq(count, k requires 0 <= k < count =>
      var s := SlotOf(read, k, length);
      SlotFits(s, length, size);
      SlotBytes(bytes, s, size))
  }

  /** `after` is `before` with one slot overwritten. */
  ghost predicate SlotWritten(before: seq<byte>, after: seq<byte>, slot: nat, size: nat, item: seq<byte>) {
    && |before| == |after| && |item| == size && slot * size + size <= |after|
    && after == before[..slot * size] + item + before[slot * size + size..]
  }

  lemma OtherSlotKept(
    before: seq<byte>, after: seq<byte>, slot: nat, other: nat, length: nat, size: nat, item: seq<byte>)
    requires SlotWritten(before, after, slot, size, item)
    requires |before| == length * size && slot < length && other < length
    ensures other * size + size <= |before|
    ensures other != slot ==> SlotBytes(after, other, size) == SlotBytes(before, other, size)
    ensures other == slot ==> SlotBytes(after, other, size) == item
  {
    SlotFits(other, length, size);
    if other < slot {
      OffsetsApart(other, slot, size);
    } else if slot < other {
      OffsetsApart(slot, other, size);
    }
  }

  /** Writing the first free slot appends. */
  lemma WriteAppends(
    before: seq<byte>, after: seq<byte>, read: nat, count: nat, length: nat, size: nat, item: seq<byte>)
    requires read < length && count < length && |before| == length * size
    requires SlotWritten(before, after, SlotOf(read, count, length), size, item)
    ensures Items(after, read, count + 1, length, size) == Items(before, read, count, length, size) + [item]
  {
    var w := SlotOf(read, count, length);
    forall k | 0 <= k < count + 1
      ensures Items(after, read, count + 1, length, size)[k] == (Items(before, read, count, length, size) + [item])[k]
    {
      OtherSlotKept(before, after, w, SlotOf(read, k, length), length, size, item);
      if k < count {
        SlotsApart(read, k, count, length);
      }
    }
  }

  /** Writing the slot read last and stepping back prepends. */
  lemma WritePrepends(
    before: seq<byte>, after: seq<byte>, read: nat, count: nat, length: nat, size: nat, item: seq<byte>)
    requires read < length && count < length && |before| == length * size
    requires SlotWritten(before, after, read, size, item)
    ensures Items(after, Backward(read, length), count + 1, length, size)
            == [item] + Items(before, read, count, length, size)
  {
    var back := Backward(read, length);
    assert SlotOf(read, length - 1, length) == read;
    forall k | 0 <= k < count + 1
      ensures Items(after, back, count + 1, length, size)[k] == ([item] + Items(before, read, count, length, size))[k]
    {
      OtherSlotKept(before, after, read, SlotOf(back, k, length), length, size, item);
      if k > 0 {
        assert SlotOf(back, k, length) == SlotOf(read, k - 1, length);
        SlotsApart(read, k - 1, length - 1, length);
      }
    }
  }

  /** Stepping the read slot forward drops the oldest item. */
  lemma StepDropsOldest(bytes: seq<byte>, read: nat, count: nat, length: nat, size: nat)
    requires read < length && 0 < count <= length && |bytes| == length * size
    ensures var s := Forward(read, length);
            && s * size + size <= |bytes|
            && Items(bytes, read, count, length, size)[0] == SlotBytes(bytes, s, size)
            && Items(bytes, s, count - 1, length, size) == Items(bytes, read, count, length, size)[1..]
  {
    var s := Forward(read, length);
    SlotFits(s, length, size);
    assert SlotOf(read, 0, length) == s;
    forall k | 0 <= k < count - 1
      ensures Items(bytes, s, count - 1, length, size)[k] == Items(bytes, read, count, length, size)[1..][k]
    {
      assert SlotOf(s, k, length) == SlotOf(read, k + 1, length);
    }
  }

  /** Items of no bytes: only their number matters. */
  lemma EmptyItems(bytes: seq<byte>, read: nat, count: nat, length: nat, item: seq<byte>)
    requires read < length && count <= length && bytes == item == []
    ensures count < length ==> Items(bytes, read, count + 1, length, 0) == Items(bytes, read, count, length, 0) + [item]
    ensures count < length ==> Items(bytes, read, count + 1, length, 0) == [item] + Items(bytes, read, count, length, 0)
    ensures count == 0 ==> Items(bytes, read, 1, length, 0) == [item]
  {
  }

  /** A pointer moved on by one slot wraps exactly at the end of the area. */
  lemma StepForward(slot: nat, length: nat, size: nat)
    requires slot < length && 0 < size
    ensures var o := slot * size + size;
            Forward(slot, length) * size == if o >= length * size then 0 else o
  {
    assert slot * size + size == (slot + 1) * size;
    if slot + 1 < length {
      OffsetsApart(slot + 1, length, size);
    }
  }

  /** A pointer moved back by one slot wraps exactly at the start of the area. */
  lemma StepBackward(slot: nat, length: nat, size: nat)
    requires slot < length && 0 < size
    ensures var o := slot * size - size;
            Backward(slot, length) * size == if o < 0 then length * size - size else o
  {
    if slot == 0 {
      assert (length - 1) * size == length * size - size;
    } else {
      assert (slot - 1) * size == slot * size - size;
      SlotFits(slot - 1, length, size);
    }
  }

  // ------------------------------------------------------------------
  // The queue
  // ------------------------------------------------------------------

  class Storage {
    const length: nat
    const itemSize: nat
    const area: array<byte>
    var writeTo: nat
    var readFrom: nat
    var messagesWaiting: nat
    // The slot pcReadFrom stands on.
    ghost var readSlot: nat

    ghost predicate Valid()
      reads this, area
    {
      && 0 < length && area.Length == length * itemSize
      && messagesWaiting <= length && readSlot < length
      && readFrom == readSlot * itemSize
      && writeTo == WriteSlot(readSlot, messagesWaiting, length) * itemSize
    }

    ghost function Contents(): (items: seq<seq<byte>>)
      requires Valid()
      reads this, area
      ensures |items| == messagesWaiting <= length
      ensures forall k :: 0 <= k < |items| ==> |items[k]| == itemSize
    {
      Items(area[..], readSlot, messagesWaiting, length, itemSize)
    }

    /** prvInitialiseNewQueue with xQueueGenericReset on a new queue */
    constructor (length: nat, itemSize: nat)
      requires 0 < length
      ensures Valid() && this.length == length && this.itemSize == itemSize && Contents() == []
      ensures fresh(area)
    {
      this.length, this.itemSize := length, itemSize;
      area := new byte[length * itemSize];
      messagesWaiting, writeTo := 0, 0;
      readFrom := (length - 1) * itemSize;
      readSlot := length - 1;
    }

    /** memcpy into the area */
    method CopyIn(offset: nat, item: seq<byte>)
      requires offset + |item| <= area.Length
      modifies area
      ensures area[..] == old(area[..offset]) + item + old(area[offset + |item|..])
    {
      forall i | 0 <= i < |item| {
        area[offset + i] := item[i];
      }
    }

    /** The branch of prvCopyDataToQueue for queueSEND_TO_BACK. */
    method CopyToBack(item: seq<byte>)
      requires Valid() && |item| == itemSize && itemSize > 0 && messagesWaiting < length
      modifies this`writeTo, area
      ensures writeTo == WriteSlot(readSlot, messagesWaiting + 1, length) * itemSize
      ensures Items(area[..], readSlot, messagesWaiting + 1, length, itemSize) == old(Contents()) + [item]
    {
      ghost var before := area[..];
      ghost var slot := WriteSlot(readSlot, messagesWaiting, length);
      SlotFits(slot, length, itemSize);
      StepForward(slot, length, itemSize);
      CopyIn(writeTo, item);
      writeTo := writeTo + itemSize;
      if writeTo >= length * itemSize {
        writeTo := 0;
      }
      WriteAppends(before, area[..], readSlot, messagesWaiting, length, itemSize, item);
    }

    /** The other branch; `waiting` is what remains once an overwritten item is discounted. */
    method CopyToFront(item: seq<byte>, ghost waiting: nat)
      requires Valid() && |item| == itemSize && itemSize > 0
      requires waiting <= messagesWaiting && waiting < length
      modifies this`readFrom, this`readSlot, area
      ensures readSlot == Backward(old(readSlot), length) && readFrom == readSlot * itemSize
      ensures Items(area[..], readSlot, waiting + 1, length, itemSize) == [item] + old(Contents())[..waiting]
    {
      ghost var before := area[..];
      SlotFits(readSlot, length, itemSize);
      StepBackward(readSlot, length, itemSize);
      CopyIn(readFrom, item);
      if readFrom < itemSize {
        readFrom := length * itemSize - itemSize;
      } else {
        readFrom := readFrom - itemSize;
      }
      WritePrepends(before, area[..], readSlot, waiting, length, itemSize, item);
      assert Items(before, readSlot, waiting, length, itemSize)
          == Items(before, readSlot, messagesWaiting, length, itemSize)[..waiting];
      readSlot := Backward(readSlot, length);
    }

    /**
     prvCopyDataToQueue, called when there is room or when overwriting.
     Overwriting a full queue of empty items counts one item too many.
     */
    method CopyDataToQueue(item: seq<byte>, position: Position)
      requires Valid() && |item| == itemSize
      requires messagesWaiting < length || position == Overwrite
      requires position == Overwrite ==> length == 1
      modifies this, area
      ensures Valid() <==> !(position == Overwrite && itemSize == 0 && old(messagesWaiting) == length)
      ensures Valid() ==> Contents() == match position
                            case ToBack => old(Contents()) + [item]
                            case ToFront => [item] + old(Contents())
                            case Overwrite => [item]
      ensures !Valid() ==> messagesWaiting == length + 1
    {
      var waiting := messagesWaiting;
      ghost var before := area[..];
      if itemSize == 0 {
        EmptyItems(before, readSlot, waiting, length, item);
      } else if position == ToBack {
        CopyToBack(item);
      } else {
        if position == Overwrite {
          if waiting > 0 {
            waiting := waiting - 1;
          }
        }
        CopyToFront(item, waiting);
      }
      messagesWaiting := waiting + 1;
    }

    /** prvCopyDataFromQueue: step to the oldest item and copy it out. */
    method CopyDataFromQueue() returns (item: seq<byte>)
      requires Valid() && messagesWaiting > 0
      modifies this`readFrom, this`readSlot
      ensures item == old(Contents())[0]
      ensures readSlot < length && readFrom == readSlot * itemSize
      ensures itemSize > 0 ==> readSlot == Forward(old(readSlot), length)
      ensures itemSize == 0 ==> readSlot == old(readSlot)
    {
      item := [];
      if itemSize != 0 {
        StepForward(readSlot, length, itemSize);
        StepDropsOldest(area[..], readSlot, messagesWaiting, length, itemSize);
        readFrom := readFrom + itemSize;
        if readFrom >= length * itemSize {
          readFrom := 0;
        }
        readSlot := Forward(readSlot, length);
        SlotFits(readSlot, length, itemSize);
        item := area[readFrom..readFrom + itemSize];
      }
    }

    /** The critical section of xQueueGenericSend and xQueueGenericSendFromISR. */
    method TrySend(item: seq<byte>, position: Position) returns (sent: bool)
      requires Valid() && |item| == itemSize
      requires position == Overwrite ==> length == 1
      modifies this, area
      ensures sent == (old(|Contents()|) < length || position == Overwrite)
      ensures Valid() <==> !(position == Overwrite && itemSize == 0 && old(|Contents()|) == length)
      ensures Valid() ==> Contents() == if !sent then old(Contents()) else match position
                                          case ToBack => old(Contents()) + [item]
                                          case ToFront => [item] + old(Contents())
                                          case Overwrite => [item]
    {
      sent := messagesWaiting < length || position == Overwrite;
      if sent {
        CopyDataToQueue(item, position);
      }
    }

    /** The critical section of xQueueGenericReceive and its FromISR forms. */
    method TryReceive(justPeeking: bool) returns (received: bool, item: seq<byte>)
      requires Valid()
      modifies this`readFrom, this`readSlot, this`messagesWaiting
      ensures Valid()
      ensures received == (old(Contents()) != [])
      ensures received ==> item == old(Contents())[0]
      ensures Contents() == if received && !justPeeking then old(Contents())[1..] else old(Contents())
    {
      var waiting := messagesWaiting;
      received, item := waiting > 0, [];
      if received {
        var originalReadPosition := readFrom;
        ghost var originalSlot := readSlot;
        StepDropsOldest(area[..], readSlot, waiting, length, itemSize);
        item := CopyDataFromQueue();
        if !justPeeking {
          messagesWaiting := waiting - 1;
          if itemSize == 0 {
            assert Contents() == old(Contents())[1..];
          }
        } else {
          readFrom := originalReadPosition;
          readSlot := originalSlot;
        }
      }
    }
  }
}
