/**
 Integers as decimal text: utils_intToText and utils_plainTextToInt64 of
 external/wakaama/utils.c.
 */
module DecimalText {
  import opened Bytes
  import opened IntBytes

  const INT64_MIN: int := -0x8000_0000_0000_0000
  const INT64_MAX: nat := 0x7FFF_FFFF_FFFF_FFFF
  const UINT64_MAX: nat := 0xFFFF_FFFF_FFFF_FFFF

  // '0' and '-'
  const ZERO: byte := 48
  const MINUS: byte := 45

  predicate IsDigit(b: byte) {
    ZERO <= b <= 57
  }

  predicate AllDigits(ds: seq<byte>) {
    forall i :: 0 <= i < |ds| ==> IsDigit(ds[i])
  }

  // ------------------------------------------------------------------
  // Numbers and their digits
  // ------------------------------------------------------------------

  function Digit(n: nat): (b: byte)
    requires n < 10
    ensures IsDigit(b)
  {
    48 + n
  }

  function Digits(n: nat): (ds: seq<byte>)
    ensures ds != [] && AllDigits(ds)
  {
    if n < 10 then [Digit(n)] else Digits(n / 10) + [Digit(n % 10)]
  }

  /** The digits of what is left of a number; none when nothing is */
  function DigitsLeft(n: nat): seq<byte> {
    if n == 0 then [] else Digits(n)
  }

  lemma OneDigitMore(n: nat)
    ensures Digits(n) == DigitsLeft(n / 10) + [Digit(n % 10)]
  {
  }

  function Text(v: int): seq<byte> {
    if v < 0 then [MINUS] + Digits(-v) else Digits(v)
  }

  /** The text pinned down */
  lemma KnownTexts()
    ensures Text(0) == [48] && Text(120) == [49, 50, 48] && Text(-7) == [45, 55]
  {
    assert Digits(1) == [49] && Digits(12) == Digits(1) + [50] && Digits(120) == Digits(12) + [48];
  }

  function Front(ds: seq<byte>): seq<byte>
    requires ds != []
  {
    ds[..|ds| - 1]
  }

  function Last(ds: seq<byte>): byte
    requires ds != []
  {
    ds[|ds| - 1]
  }

  /** The number a run of digits stands for */
  function Value(ds: seq<byte>): nat
    requires AllDigits(ds)
    decreases |ds|
  {
    if ds == [] then 0 else 10 * Value(Front(ds)) + (Last(ds) as int - 48)
  }

  lemma {:induction false} ValueOfDigits(n: nat)
    ensures Value(Digits(n)) == n
  {
    if n >= 10 {
      ValueOfDigits(n / 10);
      assert Front(Digits(n)) == Digits(n / 10);
    } else {
      assert Front(Digits(n)) == [];
    }
  }

  function Pow10(k: nat): nat {
    if k == 0 then 1 else 10 * Pow10(k - 1)
  }

  lemma {:induction false} DigitCount(n: nat, k: nat)
    requires k > 0 && n < Pow10(k)
    ensures |Digits(n)| <= k
    decreases k
  {
    if n >= 10 {
      assert Pow10(1) == 10 * Pow10(0) == 10;
      DigitCount(n / 10, k - 1);
    }
  }

  lemma NineteenDigits()
    ensures Pow10(19) == 10_000_000_000_000_000_000 > INT64_MAX
  {
    assert Pow10(4) == 10_000;
    assert Pow10(8) == 100_000_000;
    assert Pow10(12) == 1_000_000_000_000;
    assert Pow10(16) == 10_000_000_000_000_000;
  }

  // ------------------------------------------------------------------
  // Reading
  // ------------------------------------------------------------------

  /** One turn of the loop: None once it has given up, else the 64-bit sum */
  function TakeDigit(result: Option<nat>, b: byte): (r: Option<nat>)
    requires result.Some? ==> result.value <= UINT64_MAX
    ensures r.Some? ==> result.Some? && r.value <= UINT64_MAX
  {
    if result.None? || !IsDigit(b) || result.value > UINT64_MAX / 10 then None
    else
      var sum := 10 * result.value + (b as int - 48);
      Some(if sum > UINT64_MAX then sum - UINT64_MAX - 1 else sum)
  }

  /** The accumulation over a text without its sign */
  function Accumulate(ds: seq<byte>): (r: Option<nat>)
    ensures r.Some? ==> r.value <= UINT64_MAX
    decreases |ds|
  {
    if ds == [] then Some(0) else TakeDigit(Accumulate(Front(ds)), Last(ds))
  }

  function Unsigned(text: seq<byte>): seq<byte> {
    if text != [] && text[0] == MINUS then text[1..] else text
  }

  /** utils_plainTextToInt64; None is its 0 */
  function Parse(text: seq<byte>): Option<int> {
    if text == [] then None
    else
      match Accumulate(Unsigned(text))
      case None => None
      case Some(result) =>
        if result > INT64_MAX then None else Some(if text[0] == MINUS then 0 - (result as int) else result)
  }

  /** The 64-bit number a text stands for: a sign if need be, one digit at least, and a value in range */
  function Meaning(text: seq<byte>): Option<int> {
    var ds := Unsigned(text);
    if ds == [] || !AllDigits(ds) then None
    else if text[0] == MINUS then
      if Value(ds) <= INT64_MAX + 1 then Some(0 - (Value(ds) as int)) else None
    else if Value(ds) <= INT64_MAX then Some(Value(ds))
    else None
  }

  /** A number the overflow check lets through although it has 65 bits: 2^64 to 2^64 + 3 */
  predicate Slips(ds: seq<byte>) {
    AllDigits(ds) && UINT64_MAX < Value(ds) <= UINT64_MAX + 4
  }

  /** No leading part of the digits slips through. */
  ghost predicate NoneSlips(ds: seq<byte>) {
    forall k :: 0 <= k <= |ds| ==> !Slips(ds[..k])
  }

  lemma NoneSlipsFront(ds: seq<byte>)
    requires ds != [] && NoneSlips(ds)
    ensures NoneSlips(Front(ds)) && !Slips(ds)
  {
    assert ds[..|ds|] == ds;
    forall k | 0 <= k <= |Front(ds)|
      ensures !Slips(Front(ds)[..k])
    {
      assert Front(ds)[..k] == ds[..k];
    }
  }

  lemma {:induction false} AccumulateNeedsDigits(ds: seq<byte>)
    requires Accumulate(ds).Some?
    ensures AllDigits(ds)
    decreases |ds|
  {
    if ds != [] {
      AccumulateNeedsDigits(Front(ds));
    }
  }

  /** Short of a slip the accumulation is exact, and gives up only on numbers out of range. */
  lemma {:induction false} AccumulateExact(ds: seq<byte>)
    requires AllDigits(ds) && NoneSlips(ds)
    ensures Accumulate(ds) == if ds == [] || Value(Front(ds)) <= UINT64_MAX / 10 then Some(Value(ds)) else None
    decreases |ds|
  {
    hide TakeDigit;
    if ds != [] {
      NoneSlipsFront(ds);
      AccumulateExact(Front(ds));
      if Accumulate(Front(ds)).Some? {
        DigitTaken(Value(Front(ds)), Last(ds));
      }
    }
  }

  /** One more digit is exact, too, unless it makes the number slip. */
  lemma DigitTaken(v: nat, b: byte)
    requires IsDigit(b) && v <= UINT64_MAX
    requires var next := 10 * v + (b as int - 48); !(UINT64_MAX < next <= UINT64_MAX + 4)
    ensures TakeDigit(Some(v), b) == if v <= UINT64_MAX / 10 then Some(10 * v + (b as int - 48)) else None
  {
  }

  /** A sign without digits */
  predicate LoneSign(text: seq<byte>) {
    text == [MINUS]
  }

  /** A text of the least 64-bit number */
  predicate OfLeast(text: seq<byte>) {
    text != [] && text[0] == MINUS && AllDigits(text[1..]) && Value(text[1..]) == INT64_MAX + 1
  }

  /** Short of a slip, the reader is right but for a lone sign and the least number. */
  lemma ParseExact(text: seq<byte>)
    requires NoneSlips(Unsigned(text))
    ensures Parse(text) == Meaning(text) <==> !LoneSign(text) && !OfLeast(text)
  {
    var ds := Unsigned(text);
    if AllDigits(ds) {
      AccumulateExact(ds);
    } else if Accumulate(ds).Some? {
      AccumulateNeedsDigits(ds);
    }
  }

  lemma {:induction false} ValueOfFront(ds: seq<byte>, k: nat)
    requires AllDigits(ds) && k <= |ds|
    ensures Value(ds[..k]) <= Value(ds) && (k < |ds| ==> 10 * Value(ds[..k]) <= Value(ds))
    decreases |ds|
  {
    if k == |ds| {
      assert ds[..k] == ds;
    } else {
      ValueOfFront(Front(ds), k);
      assert Front(ds)[..k] == ds[..k];
    }
  }

  /** What slips is kept as its excess over 64 bits. */
  lemma SlipKept(a: seq<byte>)
    requires Slips(a)
    ensures Accumulate(a) == Some(Value(a) - UINT64_MAX - 1)
  {
    forall k | 0 <= k <= |Front(a)|
      ensures !Slips(Front(a)[..k])
    {
      ValueOfFront(a, k);
      assert Front(a)[..k] == a[..k];
    }
    AccumulateExact(Front(a));
  }

  /** So the reader goes on as if the digits so far had been that one digit. */
  lemma {:induction false} SlipReplaced(a: seq<byte>, b: seq<byte>)
    requires Slips(a)
    ensures Value(a) - UINT64_MAX - 1 < 10
    ensures Accumulate(a + b) == Accumulate([Digit(Value(a) - UINT64_MAX - 1)] + b)
    decreases |b|
  {
    hide Accumulate;
    var c := [Digit(Value(a) - UINT64_MAX - 1)];
    if b == [] {
      SlipKept(a);
      OneDigitKept(c);
      assert a + b == a && c + b == c;
    } else {
      SlipReplaced(a, Front(b));
      assert Front(a + b) == a + Front(b) && Front(c + b) == c + Front(b);
      ReadAlike(a + b, c + b);
    }
  }

  lemma OneDigitKept(c: seq<byte>)
    requires |c| == 1 && IsDigit(c[0])
    ensures Accumulate(c) == Some(c[0] - ZERO)
  {
    assert Front(c) == [];
  }

  lemma ReadAlike(x: seq<byte>, y: seq<byte>)
    requires x != [] && y != [] && Last(x) == Last(y) && Accumulate(Front(x)) == Accumulate(Front(y))
    ensures Accumulate(x) == Accumulate(y)
  {
  }

  /** Where the leading part that slips ends, if one does */
  function SlipEnd(ds: seq<byte>): (k: Option<nat>)
    ensures k.Some? ==> k.value <= |ds| && Slips(ds[..k.value])
    ensures k.None? ==> NoneSlips(ds)
    decreases |ds|
  {
    if ds == [] then None
    else
      match SlipEnd(Front(ds))
      case Some(k) =>
        assert Front(ds)[..k] == ds[..k];
        Some(k)
      case None =>
        NoneSlipsOneMore(ds);
        assert ds[..|ds|] == ds;
        if Slips(ds) then Some(|ds|) else None
  }

  lemma NoneSlipsOneMore(ds: seq<byte>)
    requires ds != [] && NoneSlips(Front(ds))
    ensures !Slips(ds) ==> NoneSlips(ds)
  {
    forall k | 0 <= k <= |ds| && !Slips(ds)
      ensures !Slips(ds[..k])
    {
      if k < |ds| {
        assert Front(ds)[..k] == ds[..k];
      } else {
        assert ds[..k] == ds;
      }
    }
  }

  lemma OneDigitIsSmall(ds: seq<byte>)
    requires AllDigits(ds) && |ds| <= 1
    ensures Value(ds) < 10
  {
    if ds != [] {
      assert Front(ds) == [];
    }
  }

  lemma SlipIsLong(ds: seq<byte>)
    requires Slips(ds)
    ensures |ds| > 1
  {
    if |ds| <= 1 {
      OneDigitIsSmall(ds);
    }
  }

  /** The digits with the part that slips cut to its excess over 64 bits, one digit */
  function CutOnce(ds: seq<byte>): (r: seq<byte>)
    requires SlipEnd(ds).Some?
    ensures r != [] && |r| < |ds| && IsDigit(r[0])
  {
    var k := SlipEnd(ds).value;
    SlipIsLong(ds[..k]);
    [Digit(Value(ds[..k]) - UINT64_MAX - 1)] + ds[k..]
  }

  /** The digits cut so as often as need be */
  function Reduced(ds: seq<byte>): seq<byte>
    decreases |ds|
  {
    if SlipEnd(ds).None? then ds else Reduced(CutOnce(ds))
  }

  lemma CutReadsAlike(ds: seq<byte>)
    requires SlipEnd(ds).Some?
    ensures Accumulate(CutOnce(ds)) == Accumulate(ds)
  {
    hide Accumulate;
    var k := SlipEnd(ds).value;
    assert ds == ds[..k] + ds[k..];
    SlipReplaced(ds[..k], ds[k..]);
  }

  /** The reader cannot tell digits from their reduced form, in which nothing slips. */
  lemma {:induction false} ReducedReadsAlike(ds: seq<byte>)
    ensures Accumulate(Reduced(ds)) == Accumulate(ds) && SlipEnd(Reduced(ds)).None?
    ensures SlipEnd(ds).Some? ==> Reduced(ds) != [] && IsDigit(Reduced(ds)[0])
    decreases |ds|
  {
    hide Accumulate, SlipEnd;
    if SlipEnd(ds).Some? {
      CutReadsAlike(ds);
      ReducedReadsAlike(CutOnce(ds));
    }
  }

  /** Digits that begin by slipping are out of range, or no digits. */
  lemma SlipMeansNothing(text: seq<byte>)
    requires SlipEnd(Unsigned(text)).Some?
    ensures Meaning(text) == None && !LoneSign(text) && !OfLeast(text)
  {
    var ds := Unsigned(text);
    var k := SlipEnd(ds).value;
    if AllDigits(ds) {
      ValueOfFront(ds, k);
    }
  }

  lemma SlipAcceptedIff(text: seq<byte>)
    requires SlipEnd(Unsigned(text)).Some?
    ensures Parse(text).Some? <==> Meaning(Reduced(Unsigned(text))).Some?
  {
    var rs := Reduced(Unsigned(text));
    ReducedReadsAlike(Unsigned(text));
    assert Unsigned(rs) == rs && !LoneSign(rs) && !OfLeast(rs);
    ParseExact(rs);
  }

  /**
   Exactly when the reader is right: unless the text is a sign without digits
   or the least number, or a leading part of its digits slips and what the
   digits reduce to is in range.
   */
  lemma ParseRightIff(text: seq<byte>)
    ensures Parse(text) == Meaning(text) <==>
              && !LoneSign(text) && !OfLeast(text)
              && (SlipEnd(Unsigned(text)).None? || Meaning(Reduced(Unsigned(text))).None?)
  {
    if SlipEnd(Unsigned(text)).None? {
      ParseExact(text);
    } else {
      SlipMeansNothing(text);
      SlipAcceptedIff(text);
    }
  }

  /** It is wrong about the twenty digits of 2^64, which it reads as 0. */
  lemma ReadsTwoTo64AsZero()
    ensures var text := Digits(UINT64_MAX + 1);
            Parse(text) == Some(0) && Meaning(text) == None
  {
    var text := Digits(UINT64_MAX + 1);
    ValueOfDigits(UINT64_MAX + 1);
    SlipKept(text);
    assert text[0] != MINUS;
  }

  /** A sign with no digits is read as 0. */
  lemma ReadsMinusAsZero()
    ensures Parse([MINUS]) == Some(0) && Meaning([MINUS]) == None
  {
  }

  /** The least number is refused. */
  lemma RefusesLeast()
    ensures Parse(Text(INT64_MIN)) == None && Meaning(Text(INT64_MIN)) == Some(INT64_MIN)
  {
    var ds := Digits(INT64_MAX + 1);
    assert Unsigned(Text(INT64_MIN)) == ds;
    ValueOfDigits(INT64_MAX + 1);
    NineteenDigits();
    DigitCount(INT64_MAX + 1, 19);
    ShortNeverSlips(ds);
    AccumulateExact(ds);
  }

  /** In nineteen digits or fewer nothing slips. */
  lemma {:induction false} ShortNeverSlips(ds: seq<byte>)
    requires |ds| <= 19
    ensures NoneSlips(ds)
  {
    forall k | 0 <= k <= |ds|
      ensures !Slips(ds[..k])
    {
      if AllDigits(ds[..k]) {
        ValueBound(ds[..k]);
        PowRises(k, 19);
        NineteenDigits();
      }
    }
  }

  lemma {:induction false} ValueBound(ds: seq<byte>)
    requires AllDigits(ds)
    ensures Value(ds) < Pow10(|ds|)
    decreases |ds|
  {
    if ds != [] {
      ValueBound(Front(ds));
    }
  }

  lemma {:induction false} PowRises(i: nat, j: nat)
    requires i <= j
    ensures Pow10(i) <= Pow10(j)
    decreases j
  {
    if i < j {
      PowRises(i, j - 1);
    }
  }

  // ------------------------------------------------------------------
  // The round trip
  // ------------------------------------------------------------------

  lemma ShortText(v: int64)
    requires v != INT64_MIN
    ensures |Digits(if v < 0 then -v else v)| <= 19
  {
    NineteenDigits();
    DigitCount(if v < 0 then -v else v, 19);
  }

  /** Every 64-bit value but the least comes back from its text. */
  lemma TextRoundTrip(v: int64)
    requires v != INT64_MIN
    ensures Parse(Text(v)) == Some(v)
  {
    var n := if v < 0 then -v else v;
    ShortText(v);
    ShortNeverSlips(Digits(n));
    ValueOfDigits(n);
    var text := Text(v);
    assert Unsigned(text) == Digits(n) && Meaning(text) == Some(v);
    ParseExact(text);
  }

  /** The room a text needs: its digits, and for a negative number the sign and one byte more. */
  function RoomFor(v: int): nat {
    if v < 0 then |Digits(-v)| + 2 else |Digits(v)|
  }

  lemma RoomEnough(v: int64)
    requires v != INT64_MIN
    ensures RoomFor(v) <= 21
  {
    ShortText(v);
  }

  /** Where utils_intToText puts the sign, the digits standing at the end of the buffer */
  function SignPlace(v: int, length: nat): int
    requires v < 0
  {
    length - |Digits(-v)| - 1
  }

  /** Some byte of the text goes before the buffer. */
  predicate WritesOutside(v: int, length: nat) {
    length == 0 || (v < 0 && length >= |Digits(-v)| && SignPlace(v, length) < 0)
  }

  /** That happens on an empty buffer, and on one of exactly the digits of a negative number. */
  lemma WritesOutsideIff(v: int, length: nat)
    ensures WritesOutside(v, length) <==> length == 0 || (v < 0 && length == |Digits(-v)|)
  {
  }

  /** The least example: minus one in one byte. */
  lemma MinusOneInOneByte()
    ensures WritesOutside(-1, 1) && SignPlace(-1, 1) == -1
  {
  }

  /** The digits from the back of the text; `left` is the part of the number there was no room for. */
  method WriteDigits(n: nat, text: array<byte>) returns (index: int, left: nat)
    requires text.Length > 0
    modifies text
    ensures -1 <= index < text.Length - 1 && (left > 0 ==> index == -1)
    ensures Digits(n) == DigitsLeft(left) + text[index + 1..]
    ensures left == 0 ==> index == text.Length - |Digits(n)| - 1
  {
    hide Digits, Digit, DigitsLeft;
    left, index := n, text.Length - 1;
    OneDigitMore(n);
    text[index] := Digit(left % 10);
    left, index := left / 10, index - 1;
    assert Digits(n) == DigitsLeft(left) + text[index + 1..];
    while index >= 0 && left > 0
      invariant -1 <= index < text.Length - 1
      invariant Digits(n) == DigitsLeft(left) + text[index + 1..]
      decreases left
    {
      ghost var written := text[index + 1..];
      text[index] := Digit(left % 10);
      OneInFront(text, index, written);
      MoveDigit(n, left, written);
      left, index := left / 10, index - 1;
    }
    NothingLeft();
  }

  lemma NothingLeft()
    ensures DigitsLeft(0) == []
  {
  }

  lemma MoveDigit(n: nat, left: nat, written: seq<byte>)
    requires left > 0 && Digits(n) == DigitsLeft(left) + written
    ensures Digits(n) == DigitsLeft(left / 10) + ([Digit(left % 10)] + written)
  {
    OneDigitMore(left);
  }

  lemma OneInFront(a: array<byte>, i: nat, rest: seq<byte>)
    requires i < a.Length && a[i + 1..] == rest
    ensures a[i..] == [a[i]] + rest
  {
  }

  /** memmove to the start of the text */
  method MoveToStart(text: array<byte>, index: nat)
    requires index < text.Length
    modifies text
    ensures text[..text.Length - index] == old(text[index..])
  {
    forall i | 0 <= i < text.Length - index {
      text[i] := text[index + i];
    }
  }

  /**
   utils_intToText. `outside` says that the code has written before the
   buffer; the method leaves such writes out and goes on as the code does, so
   for a sign that is lost it still counts one byte more than the buffer has.
   */
  method IntToText(v: int64, text: array<byte>) returns (result: nat, outside: bool)
    requires v != INT64_MIN
    modifies text
    ensures outside <==> text.Length == 0 || (v < 0 && text.Length == |Digits(-v)|)
    ensures !outside ==> result == if RoomFor(v) <= text.Length then |Text(v)| else 0
    ensures !outside && result > 0 ==> result <= text.Length && text[..result] == Text(v)
    ensures outside && text.Length > 0 ==> result == text.Length + 1 && text[..] == Digits(-v)
    ensures outside && text.Length == 0 ==> result == if |Digits(if v < 0 then -v else v)| > 1 then 0 else |Text(v)|
  {
    hide Digits;
    var data: nat := if v < 0 then 0 - v else v;
    outside := false;
    if text.Length == 0 {
      return EmptyResult(data, v < 0), true;
    }
    var index, left := WriteDigits(data, text);
    if left > 0 {
      NoRoomFor(data, left, text[..]);
      return 0, false;
    }
    assert text[index + 1..] == Digits(data);
    result, outside := SignAndMove(v < 0, text, index + 1);
  }

  /** The result without a buffer: whether one digit was enough is all the code looks at. */
  function EmptyResult(n: nat, minus: bool): (result: nat)
    ensures result == if |Digits(n)| > 1 then 0 else |Digits(n)| + if minus then 1 else 0
  {
    if n / 10 > 0 then 0 else if minus then 2 else 1
  }

  lemma NoRoomFor(n: nat, left: nat, written: seq<byte>)
    requires left > 0 && Digits(n) == DigitsLeft(left) + written
    ensures |Digits(n)| > |written|
  {
  }

  /** The end of utils_intToText, the digits standing from place `start` on */
  method SignAndMove(minus: bool, text: array<byte>, start: nat) returns (result: nat, outside: bool)
    requires start < text.Length
    modifies text
    ensures outside <==> minus && start == 0
    ensures outside ==> result == text.Length + 1 && text[..] == old(text[..])
    ensures minus && start == 1 ==> result == 0
    ensures minus && start > 1 ==> result == text.Length - start + 1 && text[..result] == [MINUS] + old(text[start..])
    ensures !minus ==> result == text.Length - start && text[..result] == old(text[start..])
  {
    if minus {
      if start == 0 {
        return text.Length + 1, true;
      }
      if start == 1 {
        return 0, false;
      }
      ghost var digits := text[start..];
      text[start - 1] := MINUS;
      OneInFront(text, start - 1, digits);
      MoveToStart(text, start - 1);
      return text.Length - start + 1, false;
    }
    if start > 0 {
      MoveToStart(text, start);
    }
    return text.Length - start, false;
  }

  /** utils_plainTextToInt64 */
  method PlainTextToInt64(buffer: seq<byte>) returns (ok: bool, data: int)
    ensures Parse(buffer) == if ok then Some(data) else None
  {
    hide Accumulate;
    ok, data := false, 0;
    if |buffer| == 0 {
      return;
    }
    var result, negative, i := 0, false, 0;
    if buffer[0] == MINUS {
      negative, i := true, 1;
    }
    ghost var ds, first := Unsigned(buffer), i;
    NoneTaken(ds);
    while i < |buffer|
      invariant first <= i <= |buffer| && result <= UINT64_MAX
      invariant Accumulate(ds[..i - first]) == Some(result)
    {
      OneMoreTaken(ds, i - first);
      if !IsDigit(buffer[i]) || result > UINT64_MAX / 10 {
        GivesUp(ds, i - first + 1);
        return;
      }
      result := 10 * result + (buffer[i] as int - 48);
      if result > UINT64_MAX {
        result := result - UINT64_MAX - 1;
      }
      i := i + 1;
    }
    assert ds[..|ds|] == ds;
    if result > INT64_MAX {
      return;
    }
    ok, data := true, if negative then 0 - result else result;
  }

  lemma NoneTaken(ds: seq<byte>)
    ensures Accumulate(ds[..0]) == Some(0)
  {
  }

  lemma OneMoreTaken(ds: seq<byte>, k: nat)
    requires k < |ds|
    ensures Accumulate(ds[..k + 1]) == TakeDigit(Accumulate(ds[..k]), ds[k])
  {
    var more := ds[..k + 1];
    assert Front(more) == ds[..k] && Last(more) == ds[k];
  }

  lemma {:induction false} GivesUp(ds: seq<byte>, k: nat)
    requires k <= |ds| && Accumulate(ds[..k]) == None
    ensures Accumulate(ds) == None
    decreases |ds|
  {
    if k == |ds| {
      assert ds[..k] == ds;
    } else {
      assert Front(ds)[..k] == ds[..k];
      GivesUp(Front(ds), k);
    }
  }
}
