/** `_vsnwprintf`, `_ultow` and `wcsto_int` (msvcrt/src/lib.rs) as they run: cursors over the format, a
    digit buffer filled from its end, and a bounded output buffer. */
module PrintfEngine {
  import opened Bytes
  import Alu
  import opened WidePrintf
  import opened Wrappers

  // --- what a format means ---------------------------------------------------------------

  /** The unit at a position of a NUL-terminated string. */
  function UnitAt(f: seq<Unit>, i: nat): Unit { if i < |f| then f[i] else 0 }

  /** Its low byte, which is all the conversion syntax looks at. */
  function Low(f: seq<Unit>, i: nat): (b: nat)
    ensures i >= |f| ==> b == 0
  {
    UnitAt(f, i) % 256
  }

  /** The stacked arguments, and the strings behind those that are pointers. */
  datatype Args = Args(value: nat -> u64, wide: u64 -> seq<Unit>, narrow: u64 -> seq<byte>)

  predicate Flag(b: nat) { b == 0x2D || b == 0x2B || b == 0x20 || b == 0x23 }

  function Flags(f: seq<Unit>, i: nat, zero: bool): (bool, nat)
    decreases |f| - i
  {
    if Low(f, i) == 0x30 then Flags(f, i + 1, true)
    else if Flag(Low(f, i)) then Flags(f, i + 1, zero)
    else (zero, i)
  }

  predicate IsDigit(b: nat) { 0x30 <= b <= 0x39 }

  function Width(f: seq<Unit>, i: nat, w: nat): (nat, nat)
    decreases |f| - i
  {
    if IsDigit(Low(f, i)) then Width(f, i + 1, w * 10 + (Low(f, i) - 0x30)) else (w, i)
  }

  function SkipDigits(f: seq<Unit>, i: nat): nat
    decreases |f| - i
  {
    if IsDigit(Low(f, i)) then SkipDigits(f, i + 1) else i
  }

  function Precision(f: seq<Unit>, i: nat): nat { if Low(f, i) == 0x2E then SkipDigits(f, i + 1) else i }

  function Lengths(f: seq<Unit>, i: nat, narrow: bool): (bool, nat)
    decreases |f| - i
  {
    if Low(f, i) == 0x6C then Lengths(f, i + 1, narrow)
    else if Low(f, i) == 0x68 then Lengths(f, i + 1, true)
    else (narrow, i)
  }

  /** A conversion: its flags, and the position after it. */
  datatype Spec = Spec(zero: bool, width: nat, narrow: bool, conv: nat, next: nat)

  function SpecAt(f: seq<Unit>, i: nat): Spec {
    var (zero, i1) := Flags(f, i, false);
    var (width, i2) := Width(f, i1, 0);
    var (narrow, i3) := Lengths(f, Precision(f, i2), false);
    Spec(zero, width, narrow, Low(f, i3), i3 + 1)
  }

  predicate Takes(conv: nat) { conv in {0x64, 0x69, 0x75, 0x78, 0x58, 0x63, 0x73, 0x53} }

  function Widened(s: seq<byte>): seq<Unit> { seq(|s|, i requires 0 <= i < |s| => s[i]) }

  /** What a conversion prints, given the argument it takes. */
  function Piece(sp: Spec, v: u64, args: Args): seq<Unit> {
    if sp.conv == 0x64 || sp.conv == 0x69 then SignedText(AsI32(v), sp.width, sp.zero)
    else if sp.conv == 0x75 then UnsignedText(v % TWO32, 10, false, sp.width, sp.zero)
    else if sp.conv == 0x78 || sp.conv == 0x58 then UnsignedText(v % TWO32, 16, sp.conv == 0x58, sp.width, sp.zero)
    else if sp.conv == 0x63 then [v % 0x1_0000]
    else if sp.conv == 0x73 || sp.conv == 0x53 then
      if v == 0 then []
      else if sp.narrow || sp.conv == 0x53 then Widened(args.narrow(v))
      else args.wide(v)
    else if sp.conv == 0x25 then [PERCENT]
    else [PERCENT, sp.conv % 256]
  }

  lemma {:induction false} FlagsMove(f: seq<Unit>, i: nat, zero: bool)
    ensures Flags(f, i, zero).1 >= i
    decreases |f| - i
  {
    if Low(f, i) == 0x30 {
      FlagsMove(f, i + 1, true);
    } else if Flag(Low(f, i)) {
      FlagsMove(f, i + 1, zero);
    }
  }

  lemma {:induction false} WidthMove(f: seq<Unit>, i: nat, w: nat)
    ensures Width(f, i, w).1 >= i
    decreases |f| - i
  {
    if IsDigit(Low(f, i)) {
      WidthMove(f, i + 1, w * 10 + (Low(f, i) - 0x30));
    }
  }

  lemma {:induction false} SkipMove(f: seq<Unit>, i: nat)
    ensures SkipDigits(f, i) >= i
    decreases |f| - i
  {
    if IsDigit(Low(f, i)) {
      SkipMove(f, i + 1);
    }
  }

  lemma {:induction false} LengthsMove(f: seq<Unit>, i: nat, narrow: bool)
    ensures Lengths(f, i, narrow).1 >= i
    decreases |f| - i
  {
    if Low(f, i) == 0x6C {
      LengthsMove(f, i + 1, narrow);
    } else if Low(f, i) == 0x68 {
      LengthsMove(f, i + 1, true);
    }
  }

  lemma SpecMoves(f: seq<Unit>, i: nat)
    ensures SpecAt(f, i).next > i
  {
    var (zero, i1) := Flags(f, i, false);
    FlagsMove(f, i, false);
    WidthMove(f, i1, 0);
    var i2 := Width(f, i1, 0).1;
    SkipMove(f, i2 + 1);
    LengthsMove(f, Precision(f, i2), false);
    hide Flags, Width, Lengths, SkipDigits;
  }

  /** The whole output of a format from position `i`, with `ai` arguments taken already. A conversion
      whose letter has a zero low byte, such as the end of the format, ends it. */
  function Text(f: seq<Unit>, args: Args, i: nat, ai: nat): seq<Unit>
    decreases |f| - i
  {
    if i >= |f| || f[i] == 0 then []
    else if f[i] != PERCENT then [f[i]] + Text(f, args, i + 1, ai)
    else
      var sp := SpecAt(f, i + 1);
      SpecMoves(f, i + 1);
      if sp.conv == 0 then []
      else Piece(sp, args.value(ai), args) + Text(f, args, sp.next, if Takes(sp.conv) then ai + 1 else ai)
  }

  // --- the bounded buffer -------------------------------------------------------------------

  /** The units of `text` a buffer of `count` units has room for besides the NUL. */
  function Room(text: seq<Unit>, count: nat): (k: nat)
    ensures k <= |text| && (count > 0 ==> k < count) && (count == 0 ==> k == 0)
  {
    if count == 0 then 0 else if |text| < count then |text| else count - 1
  }

  function Stored(was: seq<Unit>, text: seq<Unit>, count: nat): seq<Unit>
    requires count <= |was|
  {
    text[..Room(text, count)] + was[Room(text, count)..]
  }

  /** The buffer in the end: as much of the text as fits, a NUL, and what was there before. */
  function Final(was: seq<Unit>, text: seq<Unit>, count: nat): seq<Unit>
    requires count <= |was|
  {
    if count == 0 then was
    else text[..Room(text, count)] + [0] + was[Room(text, count) + 1..]
  }

  /** The buffer unit by unit: with room for any unit at all, the text up to its end or the last unit, there a NUL,
      and after it what was there before. */
  ghost predicate Ended(was: seq<Unit>, now: seq<Unit>, text: seq<Unit>, count: nat) {
    && |now| == |was| && (count == 0 ==> now == was)
    && forall k {:trigger now[k]} | 0 <= k < |now| && count > 0 ::
         now[k] == if k < |text| && k < count - 1 then text[k] else if k == |text| < count || k == count - 1 <= |text| then 0 else was[k]
  }

  lemma FinalEnds(was: seq<Unit>, text: seq<Unit>, count: nat)
    requires count <= |was|
    ensures Ended(was, Final(was, text, count), text, count)
  {}

  /** A narrow string widened keeps its characters. */
  lemma WidenedIs(s: seq<byte>)
    ensures |Widened(s)| == |s| && forall k {:trigger s[k]} | 0 <= k < |s| :: Widened(s)[k] == s[k]
  {}

  class Sink {
    const buffer: array<Unit>
    const count: nat
    var out: nat
    ghost var text: seq<Unit>
    ghost const was: seq<Unit>

    ghost predicate Valid()
      reads this, buffer
    {
      count <= |was| && out == |text| && buffer[..] == Stored(was, text, count)
    }

    constructor (buffer: array<Unit>, count: nat)
      requires count <= buffer.Length
      ensures Valid() && text == [] && was == buffer[..] && this.buffer == buffer && this.count == count
    {
      this.buffer, this.count := buffer, count;
      out, text, was := 0, [], buffer[..];
    }

    /** The `put` closure. */
    method Put(c: Unit)
      requires Valid()
      modifies this, buffer
      ensures Valid() && text == old(text) + [c]
    {
      StoredMore(was, text, c, count);
      hide Stored;
      if out + 1 < count {
        ghost var b := buffer[..];
        buffer[out] := c;
        assert buffer[..] == b[out := c];
      }
      out := out + 1;
      text := text + [c];
    }

    method PutAll(s: seq<Unit>)
      requires Valid()
      modifies this, buffer
      ensures Valid() && text == old(text) + s
    {
      hide Stored;
      for k := 0 to |s|
        invariant Valid() && text == old(text) + s[..k]
      {
        Put(s[k]);
      }
      assert s[..|s|] == s;
    }

    method PutPadding(c: Unit, n: nat)
      requires Valid()
      modifies this, buffer
      ensures Valid() && text == old(text) + Repeat(c, n)
    {
      hide Stored;
      for k := 0 to n
        invariant Valid() && text == old(text) + Repeat(c, k)
      {
        Put(c);
        assert Repeat(c, k + 1) == Repeat(c, k) + [c];
      }
    }

    method Finish() returns (r: int)
      requires Valid()
      modifies buffer
      ensures buffer[..] == Final(was, text, count)
      ensures r == if |text| < count then AsI32(|text|) else -1
    {
      FinalIs(was, text, count);
      hide Stored, Final;
      if count > 0 {
        var term := if out < count - 1 then out else count - 1;
        ghost var b := buffer[..];
        buffer[term] := 0;
        assert buffer[..] == b[term := 0];
      }
      r := if out < count then AsI32(out) else -1;
    }
  }

  lemma StoredMore(was: seq<Unit>, text: seq<Unit>, c: Unit, count: nat)
    requires count <= |was|
    ensures |Stored(was, text, count)| == |was|
    ensures Stored(was, text + [c], count)
         == if |text| + 1 < count then Stored(was, text, count)[|text| := c] else Stored(was, text, count)
  {
    var more := text + [c];
    if |text| + 1 < count {
      assert Room(more, count) == |more| && Room(text, count) == |text|;
    } else if count > 0 {
      assert Room(more, count) == count - 1;
      assert Room(text, count) == count - 1;
      assert more[..count - 1] == text[..count - 1];
    }
  }

  lemma FinalIs(was: seq<Unit>, text: seq<Unit>, count: nat)
    requires count <= |was|
    ensures |Stored(was, text, count)| == |was|
    ensures Final(was, text, count)
         == if count == 0 then Stored(was, text, count) else Stored(was, text, count)[Room(text, count) := 0]
  {
  }

  // --- the engine ---------------------------------------------------------------------------

  function Quotient(v: nat, base: nat): nat
    requires base > 0
  {
    v / base
  }

  function Last(v: nat, base: nat): nat
    requires base > 0
  {
    v % base
  }

  /** A number below this has at most `i` digits in base 8, and so in any larger base. */
  ghost function Cap(i: nat): nat { Alu.Pow2(3 * i) }

  lemma DigitsRoom(v: nat, base: nat, i: nat)
    requires 0 < v < Cap(i) && base >= 8
    ensures i > 0 && Quotient(v, base) < Cap(i - 1)
  {
    assert Alu.Pow2(3 * i) == 8 * Alu.Pow2(3 * (i - 1)) by {
      Alu.Pow2Sum(3, 3 * (i - 1));
      assert Alu.Pow2(3) == 8;
    }
    var p := Alu.Pow2(3 * (i - 1));
    hide Alu.Pow2;
    Shrinks(v, base, 8, p);
  }

  lemma Pow2Of60()
    ensures TWO32 <= Alu.Pow2(60)
  {
    Alu.Pow2OfWidth(4);
    Alu.Pow2Sum(32, 28);
    hide Alu.Pow2;
    assert Alu.Pow2(28) >= 1;
    assert Alu.Pow2(32) * Alu.Pow2(28) >= Alu.Pow2(32);
  }

  /** `tail` holds the digits of `value` that come after those of `v`. */
  ghost predicate Written(value: nat, base: nat, upper: bool, v: nat, tail: seq<Unit>) {
    && 2 <= base <= 36
    && Digits(value, base, upper) == if v > 0 then Digits(v, base, upper) + tail else tail
  }

  /** The digits of a 32-bit number, written from the end of a buffer of twenty units. */
  method ToDigits(value: nat, base: nat, upper: bool) returns (digits: seq<Unit>)
    requires value < TWO32 && (base == 10 || base == 16)
    ensures digits == Digits(value, base, upper)
  {
    var tmp := new Unit[20](_ => 0);
    var i: nat, v: nat := 20, value;
    WrittenFirst(value, base, upper);
    hide Digits, Digit, Cap, Written, Quotient, Last;
    if v == 0 {
      i := i - 1;
      tmp[i] := ZERO;
      assert tmp[i..] == [ZERO];
    } else {
      assert tmp[i..] == [];
    }
    while v > 0
      invariant 0 <= i <= 20 && v < Cap(i) && Written(value, base, upper, v, tmp[i..])
      decreases i
    {
      i, v := WriteDigit(tmp, i, v, base, upper, value);
    }
    WrittenLast(value, base, upper, tmp[i..]);
    digits := tmp[i..];
  }

  /** One digit in front of those written. */
  method WriteDigit(tmp: array<Unit>, i: nat, v: nat, base: nat, upper: bool, ghost value: nat)
    returns (i': nat, v': nat)
    requires i <= tmp.Length && 0 < v < Cap(i) && base >= 8 && Written(value, base, upper, v, tmp[i..])
    modifies tmp
    ensures i' < i && v' < Cap(i') && Written(value, base, upper, v', tmp[i'..])
  {
    hide *;
    DigitsRoom(v, base, i);
    DigitsMore(value, v, base, upper, tmp[i..]);
    i' := i - 1;
    WriteUnit(tmp, i', Digit(Last(v, base), upper));
    v' := Quotient(v, base);
  }

  method WriteUnit(tmp: array<Unit>, i: nat, c: Unit)
    requires i < tmp.Length
    modifies tmp
    ensures tmp[i..] == [c] + old(tmp[i + 1..])
  {
    tmp[i] := c;
  }

  lemma WrittenFirst(value: nat, base: nat, upper: bool)
    requires 2 <= base <= 36 && value < TWO32
    ensures value > 0 ==> Written(value, base, upper, value, [])
    ensures value == 0 ==> Written(value, base, upper, value, [ZERO])
    ensures value < Cap(20) && 0 < Cap(19)
  {
    Pow2Of60();
    ZeroDigits(base, upper);
    hide Digits, Alu.Pow2;
    assert Digits(value, base, upper) + [] == Digits(value, base, upper);
  }

  lemma WrittenLast(value: nat, base: nat, upper: bool, tail: seq<Unit>)
    requires Written(value, base, upper, 0, tail)
    ensures 2 <= base <= 36 && Digits(value, base, upper) == tail
  {
  }

  lemma DigitsMore(value: nat, v: nat, base: nat, upper: bool, tail: seq<Unit>)
    requires Written(value, base, upper, v, tail) && v > 0
    ensures 2 <= base && Last(v, base) < 36
    ensures Written(value, base, upper, Quotient(v, base), [Digit(Last(v, base), upper)] + tail)
  {
    hide Digits, Digit;
    var q, r := DigitsStep(v, base, upper);
    var last := [Digit(r, upper)];
    if v < base {
      assert [] + last + tail == last + tail;
    } else {
      assert q > 0;
      assert Digits(q, base, upper) + last + tail == Digits(q, base, upper) + (last + tail);
    }
  }

  lemma ZeroDigits(base: nat, upper: bool)
    requires 2 <= base <= 36
    ensures Digits(0, base, upper) == [ZERO]
  {
    Euclid(0, base, 0, 0);
  }

  /** Flags, width, precision and length modifiers, in C order. */
  method ParseSpec(f: seq<Unit>, start: nat) returns (sp: Spec)
    ensures sp == SpecAt(f, start)
  {
    var i: nat, zero, width: nat, narrow := start, false, 0, false;
    hide Low;
    while Low(f, i) == 0x30 || Flag(Low(f, i))
      invariant Flags(f, i, zero) == Flags(f, start, false)
      decreases |f| - i
    {
      if Low(f, i) == 0x30 {
        zero := true;
      }
      i := i + 1;
    }
    ghost var i1 := i;
    while IsDigit(Low(f, i))
      invariant Width(f, i, width) == Width(f, i1, 0)
      decreases |f| - i
    {
      width := width * 10 + (Low(f, i) - 0x30);
      i := i + 1;
    }
    i := SkipPrecision(f, i);
    ghost var i3 := i;
    while Low(f, i) == 0x6C || Low(f, i) == 0x68
      invariant Lengths(f, i, narrow) == Lengths(f, i3, false)
      decreases |f| - i
    {
      if Low(f, i) == 0x68 {
        narrow := true;
      }
      i := i + 1;
    }
    sp := Spec(zero, width, narrow, Low(f, i), i + 1);
  }

  method SkipPrecision(f: seq<Unit>, start: nat) returns (i: nat)
    ensures i == Precision(f, start)
  {
    i := start;
    hide Low;
    if Low(f, i) == 0x2E {
      i := i + 1;
      while IsDigit(Low(f, i))
        invariant SkipDigits(f, i) == SkipDigits(f, start + 1)
        decreases |f| - i
      {
        i := i + 1;
      }
    }
  }

  method PutSign(sink: Sink, neg: bool)
    requires sink.Valid()
    modifies sink, sink.buffer
    ensures sink.Valid() && sink.text == old(sink.text) + (if neg then [MINUS] else [])
  {
    hide Stored;
    if neg {
      sink.Put(MINUS);
    }
  }

  lemma Join(t: seq<Unit>, a: seq<Unit>, b: seq<Unit>, c: seq<Unit>)
    ensures t + a + b + c == t + (a + (b + c)) && (b == [] ==> t + a + c == t + (a + c))
  {
  }

  method PrintSigned(sink: Sink, v: u64, width: nat, zero: bool)
    requires sink.Valid()
    modifies sink, sink.buffer
    ensures sink.Valid() && sink.text == old(sink.text) + SignedText(AsI32(v), width, zero)
  {
    hide Stored, Digits, Repeat, Sink.Valid;
    var n := AsI32(v);
    var neg := n < 0;
    var digits := ToDigits(if neg then -n else n, 10, false);
    PutSigned(sink, neg, digits, Pad(width, |digits| + if neg then 1 else 0), zero);
  }

  /** Sign and padding around the digits. */
  method PutSigned(sink: Sink, neg: bool, digits: seq<Unit>, padn: nat, zero: bool)
    requires sink.Valid()
    modifies sink, sink.buffer
    ensures
      var sign: seq<Unit> := if neg then [MINUS] else [];
      && sink.Valid()
      && sink.text
         == old(sink.text) + (if zero then sign + (Repeat(ZERO, padn) + digits) else Repeat(SPACE, padn) + (sign + digits))
  {
    hide Stored, Repeat;
    ghost var sign: seq<Unit> := if neg then [MINUS] else [];
    if zero {
      PutSign(sink, neg);
      sink.PutPadding(ZERO, padn);
      Join(old(sink.text), sign, Repeat(ZERO, padn), digits);
    } else {
      sink.PutPadding(SPACE, padn);
      PutSign(sink, neg);
      Join(old(sink.text), Repeat(SPACE, padn), sign, digits);
    }
    sink.PutAll(digits);
  }

  method PrintUnsigned(sink: Sink, v: u64, base: nat, upper: bool, width: nat, zero: bool)
    requires sink.Valid() && (base == 10 || base == 16)
    modifies sink, sink.buffer
    ensures sink.Valid() && sink.text == old(sink.text) + UnsignedText(v % TWO32, base, upper, width, zero)
  {
    var digits := ToDigits(v % TWO32, base, upper);
    hide Stored, Digits, Repeat;
    sink.PutPadding(if zero then ZERO else SPACE, Pad(width, |digits|));
    sink.PutAll(digits);
  }

  method Print(sink: Sink, sp: Spec, v: u64, args: Args)
    requires sink.Valid()
    modifies sink, sink.buffer
    ensures sink.Valid() && sink.text == old(sink.text) + Piece(sp, v, args)
  {
    hide Stored, SignedText, UnsignedText, AsI32;
    if sp.conv == 0x64 || sp.conv == 0x69 {
      PrintSigned(sink, v, sp.width, sp.zero);
    } else if sp.conv == 0x75 || sp.conv == 0x78 || sp.conv == 0x58 {
      PrintUnsigned(sink, v, if sp.conv == 0x75 then 10 else 16, sp.conv == 0x58, sp.width, sp.zero);
    } else if sp.conv == 0x63 {
      sink.Put(v % 0x1_0000);
    } else if sp.conv == 0x73 || sp.conv == 0x53 {
      if v != 0 {
        if sp.narrow || sp.conv == 0x53 {
          sink.PutAll(Widened(args.narrow(v)));
        } else {
          sink.PutAll(args.wide(v));
        }
      }
    } else if sp.conv == 0x25 {
      sink.Put(PERCENT);
    } else {
      sink.Put(PERCENT);
      sink.Put(sp.conv % 256);
    }
  }

  /** One pass of the loop over the format. */
  method Advance(sink: Sink, f: seq<Unit>, args: Args, i: nat, ai: nat) returns (i': nat, ai': nat, stop: bool)
    requires sink.Valid() && UnitAt(f, i) != 0
    modifies sink, sink.buffer
    ensures sink.Valid() && (!stop ==> i' > i)
    ensures sink.text + (if stop then [] else Text(f, args, i', ai')) == old(sink.text) + Text(f, args, i, ai)
  {
    hide Stored, Piece, SpecAt, Text, Takes;
    TextStep(f, args, i, ai);
    stop, i', ai' := false, i + 1, ai;
    if f[i] != PERCENT {
      sink.Put(f[i]);
      Join(old(sink.text), [f[i]], [], Text(f, args, i', ai'));
    } else {
      i', ai', stop := Convert(sink, f, args, i, ai);
    }
  }

  /** A conversion, from its percent sign on. */
  method Convert(sink: Sink, f: seq<Unit>, args: Args, i: nat, ai: nat) returns (i': nat, ai': nat, stop: bool)
    requires sink.Valid() && UnitAt(f, i) == PERCENT
    modifies sink, sink.buffer
    ensures sink.Valid() && (!stop ==> i' > i)
    ensures sink.text + (if stop then [] else Text(f, args, i', ai')) == old(sink.text) + Text(f, args, i, ai)
  {
    hide Stored, Piece, SpecAt, Text, Takes;
    TextStep(f, args, i, ai);
    SpecMoves(f, i + 1);
    stop, i', ai' := false, i + 1, ai;
    var sp := ParseSpec(f, i + 1);
    if sp.conv == 0 {
      stop := true;
    } else {
      var v := args.value(ai);
      Print(sink, sp, v, args);
      ai' := if Takes(sp.conv) then ai + 1 else ai;
      i' := sp.next;
      Join(old(sink.text), Piece(sp, v, args), [], Text(f, args, i', ai'));
    }
  }

  /** `_vsnwprintf`: the buffer holds as much of the whole output as fits before a NUL, and the result
      is its length, or -1 when it does not fit. */
  method Vsnwprintf(buffer: array<Unit>, count: nat, f: seq<Unit>, args: Args) returns (r: int)
    requires count <= buffer.Length
    modifies buffer
    ensures buffer[..] == Final(old(buffer[..]), Text(f, args, 0, 0), count)
    ensures Ended(old(buffer[..]), buffer[..], Text(f, args, 0, 0), count)
    ensures r == if |Text(f, args, 0, 0)| < count then AsI32(|Text(f, args, 0, 0)|) else -1
  {
    hide Stored, Final, AsI32, Text, Ended;
    var sink := new Sink(buffer, count);
    ghost var all := Text(f, args, 0, 0);
    FinalEnds(buffer[..], all, count);
    var i: nat, ai: nat, stop := 0, 0, false;
    while !stop && UnitAt(f, i) != 0
      invariant sink.Valid() && sink.buffer == buffer && sink.was == old(buffer[..]) && sink.count == count
      invariant sink.text + (if stop then [] else Text(f, args, i, ai)) == all
      decreases if stop then 0 else 1, |f| - i
    {
      i, ai, stop := Advance(sink, f, args, i, ai);
    }
    if !stop {
      TextStep(f, args, i, ai);
    }
    assert sink.text == all;
    r := sink.Finish();
  }

  lemma TextStep(f: seq<Unit>, args: Args, i: nat, ai: nat)
    ensures UnitAt(f, i) == 0 ==> Text(f, args, i, ai) == []
    ensures UnitAt(f, i) != 0 && f[i] != PERCENT ==> Text(f, args, i, ai) == [f[i]] + Text(f, args, i + 1, ai)
    ensures UnitAt(f, i) != 0 && f[i] == PERCENT ==>
      var sp := SpecAt(f, i + 1);
      Text(f, args, i, ai) == if sp.conv == 0 then []
        else Piece(sp, args.value(ai), args) + Text(f, args, sp.next, if Takes(sp.conv) then ai + 1 else ai)
  {
    hide SpecAt, Piece;
  }

  // --- a format, its text, and its number -----------------------------------------------------

  lemma LowAt(f: seq<Unit>, i: nat, s: seq<Unit>, k: nat)
    requires i <= |f| && f[i..] == s && k < |s| && s[k] < 256
    ensures Low(f, i + k) == s[k] && f[i + k..] == s[k..]
  {
    assert f[i + k] == f[i..][k];
    Euclid(s[k], 256, 0, s[k]);
    assert f[i + k..] == f[i..][k..];
  }

  lemma DecimalDigit(r: nat)
    requires r < 10
    ensures Digit(r, false) == 0x30 + r
  {
  }

  /** A width written in decimal is read as its number. */
  lemma {:induction false} ReadsWidth(f: seq<Unit>, i: nat, v: nat, rest: seq<Unit>)
    requires i <= |f| && f[i..] == Digits(v, 10, false) + rest
    ensures
      var n := |Digits(v, 10, false)|;
      i + n <= |f| && f[i + n..] == rest && Width(f, i, 0) == Width(f, i + n, v)
    decreases v
  {
    hide Digits, Digit, Low;
    var q, r := DigitsStep(v, 10, false);
    DecimalDigit(r);
    var last := [Digit(r, false)];
    if v < 10 {
      assert [] + last + rest == last + rest && [] + last == last;
      LowAt(f, i, last + rest, 0);
      assert f[i + 1..] == (last + rest)[1..] == rest;
    } else {
      var front := Digits(q, 10, false);
      assert front + last + rest == front + (last + rest);
      ReadsWidth(f, i, q, last + rest);
      var j := i + |front|;
      LowAt(f, j, last + rest, 0);
      assert f[j + 1..] == f[j..][1..] == (last + rest)[1..] == rest;
    }
  }

  lemma {:induction false} FirstDigit(v: nat)
    requires v > 0
    ensures ZERO < Digits(v, 10, false)[0] <= 0x39
    decreases v
  {
    var q, r := DigitsStep(v, 10, false);
    if v >= 10 {
      FirstDigit(q);
    }
  }

  predicate Letter(conv: Unit) { conv == 0x64 || conv == 0x75 || conv == 0x78 || conv == 0x58 }

  /** A width as it is written: nothing for none. */
  function WidthText(width: nat): seq<Unit> { if width == 0 then [] else Digits(width, 10, false) }

  /** A percent sign, the zero flag if wanted, a width if any, and a conversion letter. */
  function Format(zero: bool, width: nat, conv: Unit): seq<Unit> {
    [PERCENT] + ((if zero then [ZERO] else []) + (WidthText(width) + [conv]))
  }

  /** What follows the flags does not look like one. */
  lemma WidthStarts(width: nat, conv: Unit)
    requires Letter(conv)
    ensures
      var t := WidthText(width) + [conv];
      t[0] < 256 && t[0] != 0x30 && !Flag(t[0])
  {
    if width > 0 {
      FirstDigit(width);
    }
    hide Digits;
  }

  lemma FlagsOf(f: seq<Unit>, zero: bool, t: seq<Unit>)
    requires t != [] && t[0] < 256 && t[0] != 0x30 && !Flag(t[0])
    requires f == [PERCENT] + ((if zero then [ZERO] else []) + t)
    ensures
      var j := if zero then 2 else 1;
      Flags(f, 1, false) == (zero, j) && j <= |f| && f[j..] == t
  {
    var j := if zero then 2 else 1;
    hide Low, Flags;
    assert f[j..] == t;
    LowAt(f, j, t, 0);
    FlagsStop(f, j, zero);
    if zero {
      assert f[1..] == [ZERO] + t;
      LowAt(f, 1, [ZERO] + t, 0);
      FlagsZero(f, 1);
    }
  }

  lemma FlagsStop(f: seq<Unit>, i: nat, zero: bool)
    requires Low(f, i) != 0x30 && !Flag(Low(f, i))
    ensures Flags(f, i, zero) == (zero, i)
  {
    hide Low;
  }

  lemma FlagsZero(f: seq<Unit>, i: nat)
    requires Low(f, i) == 0x30
    ensures Flags(f, i, false) == Flags(f, i + 1, true)
  {
    hide Low;
  }

  lemma SpecFrom(f: seq<Unit>, j: nat, zero: bool, width: nat, conv: Unit)
    requires Letter(conv) && Flags(f, 1, false) == (zero, j) && j <= |f| && f[j..] == WidthText(width) + [conv]
    ensures SpecAt(f, 1) == Spec(zero, width, false, conv, |f|)
  {
    var k := j + |WidthText(width)|;
    hide Digits, Low, Flags, Width, Precision, Lengths;
    if width == 0 {
      assert [] + [conv] == [conv];
    } else {
      ReadsWidth(f, j, width, [conv]);
    }
    assert f[k..] == [conv];
    LowAt(f, k, [conv], 0);
    NoMore(f, k, conv, width);
  }

  lemma SpecOf(zero: bool, width: nat, conv: Unit)
    requires Letter(conv)
    ensures
      var f := Format(zero, width, conv);
      SpecAt(f, 1) == Spec(zero, width, false, conv, |f|)
  {
    var f := Format(zero, width, conv);
    WidthStarts(width, conv);
    hide WidthText, SpecAt, Flags, Flag;
    FlagsOf(f, zero, WidthText(width) + [conv]);
    SpecFrom(f, if zero then 2 else 1, zero, width, conv);
  }

  lemma NoMore(f: seq<Unit>, k: nat, conv: Unit, width: nat)
    requires Letter(conv) && Low(f, k) == conv
    ensures Width(f, k, width) == (width, k) && Precision(f, k) == k && Lengths(f, k, false) == (false, k)
  {
    hide Low;
  }

  function BaseOf(conv: Unit): nat { if conv == 0x78 || conv == 0x58 then 16 else 10 }

  /** The number a conversion prints. */
  function NumberOf(conv: Unit, v: u64): int { if conv == 0x64 then AsI32(v) else v % TWO32 }

  /** One number formatted with any width or none, zero-padded or not, is read back by `wcstol` or `wcstoul`. */
  lemma PrintedThenParsed(zero: bool, width: nat, conv: Unit, args: Args)
    requires Letter(conv)
    ensures Parse(Text(Format(zero, width, conv), args, 0, 0), BaseOf(conv)) == NumberOf(conv, args.value(0))
  {
    var f, v := Format(zero, width, conv), args.value(0);
    var sp := SpecAt(f, 1);
    SpecOf(zero, width, conv);
    assert f[0] == PERCENT;
    hide Format, SpecAt, Text;
    TextStep(f, args, 0, 0);
    TextStep(f, args, sp.next, 1);
    assert Piece(sp, v, args) + [] == Piece(sp, v, args);
    ReadsSigned(AsI32(v), width, zero);
    ReadsUnsigned(v % TWO32, 10, false, width, zero);
    ReadsUnsigned(v % TWO32, 16, conv == 0x58, width, zero);
    hide SignedText, UnsignedText, AsI32, Parse;
  }

  /** Text without a percent sign prints as it is, whatever comes after it. */
  lemma {:induction false} PlainText(f: seq<Unit>, args: Args, i: nat, ai: nat, n: nat)
    requires i + n <= |f| && forall k {:trigger f[k]} | i <= k < i + n :: f[k] != 0 && f[k] != PERCENT
    ensures Text(f, args, i, ai) == f[i..i + n] + Text(f, args, i + n, ai)
    decreases n
  {
    hide Text;
    TextStep(f, args, i, ai);
    if n > 0 {
      PlainText(f, args, i + 1, ai, n - 1);
      var rest := Text(f, args, i + n, ai);
      assert f[i..i + n] == [f[i]] + f[i + 1..i + n];
      Join([], [f[i]], f[i + 1..i + n], rest);
      assert f[i + 1..i + 1 + (n - 1)] == f[i + 1..i + n];
    } else {
      assert f[i..i] == [];
    }
  }

  /** `%s` prints the wide string of its argument, nothing for a null one, and `%%` a percent sign. */
  lemma StringText(args: Args)
    ensures Text([PERCENT, 0x73], args, 0, 0) == if args.value(0) == 0 then [] else args.wide(args.value(0))
    ensures Text([PERCENT, PERCENT], args, 0, 0) == [PERCENT]
  {
    var f, g: seq<Unit> := [PERCENT, 0x73], [PERCENT, PERCENT];
    assert SpecAt(f, 1) == Spec(false, 0, false, 0x73, 2) by { BareSpec(f, 0x73); }
    assert SpecAt(g, 1) == Spec(false, 0, false, 0x25, 2) by { BareSpec(g, 0x25); }
    hide SpecAt, Text;
    TextStep(f, args, 0, 0);
    TextStep(f, args, 2, 1);
    TextStep(g, args, 0, 0);
    TextStep(g, args, 2, 0);
    var v := args.value(0);
    assert Piece(SpecAt(f, 1), v, args) + [] == Piece(SpecAt(f, 1), v, args);
  }

  lemma BareSpec(f: seq<Unit>, conv: Unit)
    requires f == [PERCENT, conv] && (conv == 0x73 || conv == 0x25)
    ensures SpecAt(f, 1) == Spec(false, 0, false, conv, 2)
  {
    Euclid(conv, 256, 0, conv);
    assert Low(f, 1) == conv;
    hide Low;
  }

  // --- every format ------------------------------------------------------------------------------

  /** A piece of a format: a unit that stands for itself, or a conversion with its flags, its width (0 for none),
      its precision, its length letters and its letter. */
  datatype Item =
    | Literal(c: Unit)
    | Conversion(flags: seq<Unit>, width: nat, precision: Option<nat>, lengths: seq<Unit>, letter: Unit)

  predicate FlagChar(c: Unit) { c in {0x30, 0x2D, 0x2B, 0x20, 0x23} }

  predicate LengthChar(c: Unit) { c == 0x6C || c == 0x68 }

  /** Anything in eight bits that is no other part of a conversion. */
  predicate LetterChar(c: Unit) { 0 < c < 256 && !FlagChar(c) && !IsDigit(c) && c != 0x2E && !LengthChar(c) }

  /** d i u x X c s S take an argument. */
  predicate Consumes(x: Item) { x.Conversion? && x.letter in {0x64, 0x69, 0x75, 0x78, 0x58, 0x63, 0x73, 0x53} }

  ghost predicate ItemOk(x: Item) {
    match x
    case Literal(c) => c != 0 && c != 0x25
    case Conversion(flags, _, _, lengths, letter) =>
      && (forall k {:trigger flags[k]} | 0 <= k < |flags| :: FlagChar(flags[k]))
      && (forall k {:trigger lengths[k]} | 0 <= k < |lengths| :: LengthChar(lengths[k])) && LetterChar(letter)
  }

  function PrecisionText(p: Option<nat>): seq<Unit> { if p.None? then [] else [0x2E] + Digits(p.value, 10, false) }

  /** The conversion after its percent sign, without its flags, its width and its precision. */
  function Letters(x: Item): seq<Unit>
    requires x.Conversion?
  {
    x.lengths + [x.letter]
  }

  function Numbers(x: Item): seq<Unit>
    requires x.Conversion?
  {
    WidthText(x.width) + (PrecisionText(x.precision) + Letters(x))
  }

  function Tail(x: Item): seq<Unit>
    requires x.Conversion?
  {
    x.flags + Numbers(x)
  }

  function Spelled(x: Item): seq<Unit> { if x.Literal? then [x.c] else [0x25] + Tail(x) }

  function Spelling(xs: seq<Item>): seq<Unit> { if xs == [] then [] else Spelled(xs[0]) + Spelling(xs[1..]) }

  /** What a piece prints, given the next argument: numbers in their low 32 bits, padded to the width, with zeros if a
      flag is 0; a character; a string, narrow for `%S` or an `h`, nothing for a null one; a percent sign, with the
      letter after it if that is none of these. */
  function Shown(x: Item, v: u64, args: Args): seq<Unit> {
    if x.Literal? then [x.c]
    else
      var zero, narrow := 0x30 in x.flags, 0x68 in x.lengths;
      if x.letter in {0x64, 0x69} then SignedText(AsI32(v), x.width, zero)
      else if x.letter == 0x75 then UnsignedText(v % 0x1_0000_0000, 10, false, x.width, zero)
      else if x.letter == 0x78 then UnsignedText(v % 0x1_0000_0000, 16, false, x.width, zero)
      else if x.letter == 0x58 then UnsignedText(v % 0x1_0000_0000, 16, true, x.width, zero)
      else if x.letter == 0x63 then [v % 0x1_0000]
      else if x.letter == 0x73 then if v == 0 then [] else if narrow then Widened(args.narrow(v)) else args.wide(v)
      else if x.letter == 0x53 then if v == 0 then [] else Widened(args.narrow(v))
      else if x.letter == 0x25 then [0x25]
      else [0x25, x.letter]
  }

  /** The pieces in order, the arguments in order. */
  function Printed(xs: seq<Item>, args: Args, ai: nat): seq<Unit> {
    if xs == [] then []
    else
      Shown(xs[0], args.value(ai), args)
      + Printed(xs[1..], args, if Consumes(xs[0]) then ai + 1 else ai)
  }

  lemma {:induction false} FlagsRun(f: seq<Unit>, i: nat, zero: bool, fl: seq<Unit>, rest: seq<Unit>)
    requires i <= |f| && f[i..] == fl + rest && (forall k {:trigger fl[k]} | 0 <= k < |fl| :: FlagChar(fl[k]))
    requires rest != [] && rest[0] < 256 && !FlagChar(rest[0])
    ensures Flags(f, i, zero) == (zero || 0x30 in fl, i + |fl|) && i + |fl| <= |f| && f[i + |fl|..] == rest
    decreases |fl|
  {
    hide Low;
    if fl == [] {
      assert fl + rest == rest;
      LowAt(f, i, rest, 0);
    } else {
      LowAt(f, i, fl + rest, 0);
      assert f[i + 1..] == f[i..][1..] == fl[1..] + rest;
      assert fl == [fl[0]] + fl[1..];
      FlagsRun(f, i + 1, zero || fl[0] == 0x30, fl[1..], rest);
    }
  }

  lemma WidthRun(f: seq<Unit>, i: nat, width: nat, rest: seq<Unit>)
    requires i <= |f| && f[i..] == WidthText(width) + rest && rest != [] && rest[0] < 256 && !IsDigit(rest[0])
    ensures
      var n := |WidthText(width)|;
      Width(f, i, 0) == (width, i + n) && i + n <= |f| && f[i + n..] == rest
  {
    hide Low, Digits;
    if width == 0 {
      assert [] + rest == rest;
      LowAt(f, i, rest, 0);
    } else {
      ReadsWidth(f, i, width, rest);
      LowAt(f, i + |Digits(width, 10, false)|, rest, 0);
    }
  }

  lemma {:induction false} SkipRun(f: seq<Unit>, i: nat, ds: seq<Unit>, rest: seq<Unit>)
    requires i <= |f| && f[i..] == ds + rest && (forall k {:trigger ds[k]} | 0 <= k < |ds| :: IsDigit(ds[k]))
    requires rest != [] && rest[0] < 256 && !IsDigit(rest[0])
    ensures SkipDigits(f, i) == i + |ds| && i + |ds| <= |f| && f[i + |ds|..] == rest
    decreases |ds|
  {
    hide Low;
    if ds == [] {
      assert ds + rest == rest;
      LowAt(f, i, rest, 0);
    } else {
      LowAt(f, i, ds + rest, 0);
      assert f[i + 1..] == f[i..][1..] == ds[1..] + rest;
      SkipRun(f, i + 1, ds[1..], rest);
    }
  }

  lemma {:induction false} DecimalDigits(v: nat)
    ensures forall k {:trigger Digits(v, 10, false)[k]} | 0 <= k < |Digits(v, 10, false)| :: IsDigit(Digits(v, 10, false)[k])
    decreases v
  {
    hide Digits, Digit;
    var q, r := DigitsStep(v, 10, false);
    DecimalDigit(r);
    if v >= 10 {
      DecimalDigits(q);
    }
  }

  lemma PrecisionRun(f: seq<Unit>, i: nat, p: Option<nat>, rest: seq<Unit>)
    requires i <= |f| && f[i..] == PrecisionText(p) + rest && rest != [] && rest[0] < 256 && !IsDigit(rest[0]) && rest[0] != 0x2E
    ensures
      var n := |PrecisionText(p)|;
      Precision(f, i) == i + n && i + n <= |f| && f[i + n..] == rest
  {
    hide Low, Digits, SkipDigits;
    if p.None? {
      assert [] + rest == rest;
      LowAt(f, i, rest, 0);
    } else {
      var ds := Digits(p.value, 10, false);
      DecimalDigits(p.value);
      assert f[i..] == [0x2E] + (ds + rest);
      LowAt(f, i, [0x2E] + (ds + rest), 0);
      assert f[i + 1..] == f[i..][1..] == ds + rest;
      SkipRun(f, i + 1, ds, rest);
    }
  }

  lemma {:induction false} LengthsRun(f: seq<Unit>, i: nat, narrow: bool, ls: seq<Unit>, rest: seq<Unit>)
    requires i <= |f| && f[i..] == ls + rest && (forall k {:trigger ls[k]} | 0 <= k < |ls| :: LengthChar(ls[k]))
    requires rest != [] && rest[0] < 256 && !LengthChar(rest[0])
    ensures Lengths(f, i, narrow) == (narrow || 0x68 in ls, i + |ls|) && i + |ls| <= |f| && f[i + |ls|..] == rest
    decreases |ls|
  {
    hide Low;
    if ls == [] {
      assert ls + rest == rest;
      LowAt(f, i, rest, 0);
    } else {
      LowAt(f, i, ls + rest, 0);
      assert f[i + 1..] == f[i..][1..] == ls[1..] + rest;
      assert ls == [ls[0]] + ls[1..];
      LengthsRun(f, i + 1, narrow || ls[0] == 0x68, ls[1..], rest);
    }
  }

  /** What each part starts with is no part of the one before. */
  lemma LettersStart(x: Item, rest: seq<Unit>)
    requires x.Conversion? && ItemOk(x)
    ensures
      var t := Letters(x) + rest;
      t != [] && t[0] < 256 && !FlagChar(t[0]) && !IsDigit(t[0]) && t[0] != 0x2E
  {
    if x.lengths != [] {
      assert LengthChar(x.lengths[0]);
    }
  }

  lemma PrecisionStart(x: Item, rest: seq<Unit>)
    requires x.Conversion? && ItemOk(x)
    ensures
      var t := PrecisionText(x.precision) + (Letters(x) + rest);
      t != [] && t[0] < 256 && !FlagChar(t[0]) && !IsDigit(t[0])
  {
    LettersStart(x, rest);
    hide Digits, Letters;
  }

  lemma NumbersStart(x: Item, rest: seq<Unit>)
    requires x.Conversion? && ItemOk(x)
    ensures
      var t := WidthText(x.width) + (PrecisionText(x.precision) + (Letters(x) + rest));
      t != [] && t[0] < 256 && !FlagChar(t[0])
  {
    PrecisionStart(x, rest);
    if x.width > 0 {
      FirstDigit(x.width);
    }
    hide Digits, PrecisionText, Letters;
  }

  /** A conversion anywhere in a format is read as what it says. */
  lemma SpecOfItem(f: seq<Unit>, i: nat, x: Item, rest: seq<Unit>)
    requires x.Conversion? && ItemOk(x) && i <= |f| && f[i..] == Tail(x) + rest
    ensures
      var n := i + |Tail(x)|;
      SpecAt(f, i) == Spec(0x30 in x.flags, x.width, 0x68 in x.lengths, x.letter, n) && n <= |f| && f[n..] == rest
  {
    hide *;
    var w, p, l := WidthText(x.width), PrecisionText(x.precision), x.lengths;
    TailParts(x, rest);
    NumbersStart(x, rest);
    PrecisionStart(x, rest);
    LettersStart(x, rest);
    LetterLast(x, rest);
    ItemParts(x);
    var r0 := [x.letter] + rest;
    FlagsRun(f, i, false, x.flags, w + (p + (Letters(x) + rest)));
    var i1 := i + |x.flags|;
    WidthRun(f, i1, x.width, p + (Letters(x) + rest));
    var i2 := i1 + |w|;
    PrecisionRun(f, i2, x.precision, Letters(x) + rest);
    var i3 := i2 + |p|;
    LengthsRun(f, i3, false, l, r0);
    LowAt(f, i3 + |l|, r0, 0);
    OneOff(f, i3 + |l|, x.letter, rest);
    SpecIs(f, i, i1, i2, i3, i3 + |l|);
  }

  lemma OneOff(f: seq<Unit>, i: nat, c: Unit, rest: seq<Unit>)
    requires i <= |f| && f[i..] == [c] + rest
    ensures i + 1 <= |f| && f[i + 1..] == rest
  {
    assert f[i + 1..] == f[i..][1..];
  }

  lemma ItemParts(x: Item)
    requires x.Conversion? && ItemOk(x)
    ensures forall k {:trigger x.flags[k]} | 0 <= k < |x.flags| :: FlagChar(x.flags[k])
    ensures forall k {:trigger x.lengths[k]} | 0 <= k < |x.lengths| :: LengthChar(x.lengths[k])
  {
  }

  lemma SpecIs(f: seq<Unit>, i: nat, i1: nat, i2: nat, i3: nat, i4: nat)
    requires Flags(f, i, false).1 == i1 && Width(f, i1, 0).1 == i2 && Precision(f, i2) == i3 && Lengths(f, i3, false).1 == i4
    ensures SpecAt(f, i) == Spec(Flags(f, i, false).0, Width(f, i1, 0).0, Lengths(f, i3, false).0, Low(f, i4), i4 + 1)
  {
    hide Flags, Width, Precision, Lengths, Low;
  }

  lemma TailParts(x: Item, rest: seq<Unit>)
    requires x.Conversion?
    ensures
      var w, p := WidthText(x.width), PrecisionText(x.precision);
      && Tail(x) + rest == x.flags + (w + (p + (Letters(x) + rest))) && Letters(x) + rest == x.lengths + ([x.letter] + rest)
      && |Tail(x)| == |x.flags| + |w| + |p| + |x.lengths| + 1
  {
    hide WidthText, PrecisionText;
  }

  lemma LetterLast(x: Item, rest: seq<Unit>)
    requires x.Conversion? && ItemOk(x)
    ensures
      var t := [x.letter] + rest;
      t[0] == x.letter && x.letter < 256 && !LengthChar(x.letter) && x.letter != 0
      && (Takes(x.letter) <==> Consumes(x))
  {
  }

  lemma PieceShown(x: Item, v: u64, args: Args, next: nat)
    requires x.Conversion? && ItemOk(x)
    ensures Piece(Spec(0x30 in x.flags, x.width, 0x68 in x.lengths, x.letter, next), v, args) == Shown(x, v, args)
  {
    hide SignedText, UnsignedText, AsI32, Widened;
  }

  lemma {:induction false} PrintsFrom(f: seq<Unit>, i: nat, xs: seq<Item>, args: Args, ai: nat)
    requires i <= |f| && f[i..] == Spelling(xs) && forall x | x in xs :: ItemOk(x)
    ensures Text(f, args, i, ai) == Printed(xs, args, ai)
    decreases |xs|
  {
    hide Text, Shown, ItemOk, Tail, Spelled;
    if xs == [] {
      TextStep(f, args, i, ai);
    } else {
      var x, rest := xs[0], Spelling(xs[1..]);
      if x.Literal? {
        LiteralFirst(f, i, x, rest);
        TextStep(f, args, i, ai);
        PrintsFrom(f, i + 1, xs[1..], args, ai);
      } else {
        ConversionFirst(f, i, x, rest, args, ai);
        PrintsFrom(f, i + 1 + |Tail(x)|, xs[1..], args, if Consumes(x) then ai + 1 else ai);
      }
    }
  }

  lemma ConversionFirst(f: seq<Unit>, i: nat, x: Item, rest: seq<Unit>, args: Args, ai: nat)
    requires x.Conversion? && ItemOk(x) && i <= |f| && f[i..] == Spelled(x) + rest
    ensures
      var n := i + 1 + |Tail(x)|;
      && n <= |f| && f[n..] == rest
      && Text(f, args, i, ai) == Shown(x, args.value(ai), args) + Text(f, args, n, if Consumes(x) then ai + 1 else ai)
  {
    hide *;
    TextStep(f, args, i, ai);
    PercentFirst(f, i, x, rest);
    SpecOfItem(f, i + 1, x, rest);
    LetterLast(x, rest);
    PieceShown(x, args.value(ai), args, i + 1 + |Tail(x)|);
  }

  lemma PercentFirst(f: seq<Unit>, i: nat, x: Item, rest: seq<Unit>)
    requires x.Conversion? && i <= |f| && f[i..] == Spelled(x) + rest
    ensures i < |f| && UnitAt(f, i) != 0 && f[i] == PERCENT && f[i + 1..] == Tail(x) + rest
  {
    hide Tail;
    assert f[i] == f[i..][0];
    assert f[i + 1..] == f[i..][1..];
  }

  lemma LiteralFirst(f: seq<Unit>, i: nat, x: Item, rest: seq<Unit>)
    requires x.Literal? && ItemOk(x) && i <= |f| && f[i..] == Spelled(x) + rest
    ensures i < |f| && f[i] == x.c && f[i] != 0 && f[i] != PERCENT && f[i + 1..] == rest
    ensures forall v, args :: Shown(x, v, args) == [x.c]
  {
    assert f[i] == f[i..][0];
    assert f[i + 1..] == f[i..][1..];
  }

  /** Every format made of such pieces prints them in order, each conversion with its own argument. */
  lemma FormatPrints(xs: seq<Item>, args: Args)
    requires forall x | x in xs :: ItemOk(x)
    ensures Text(Spelling(xs), args, 0, 0) == Printed(xs, args, 0)
  {
    hide Text, Printed, ItemOk;
    assert Spelling(xs)[0..] == Spelling(xs);
    PrintsFrom(Spelling(xs), 0, xs, args, 0);
  }

  // --- numbers to and from strings ----------------------------------------------------------

  /** `wcsto_int`; `end` is where the digits, which begin at `start` in base `b`, stop. */
  method ParseInt(s: seq<Unit>, base: nat) returns (v: int, end: nat, ghost start: nat, ghost b: nat)
    ensures v == Parse(s, base)
    ensures start <= end <= |s| && Numeral(s, base) == (b, s[start..])
    ensures (forall k | start <= k < end :: DigitValue(s[k]) < b) && (end < |s| ==> DigitValue(s[end]) >= b)
  {
    hide SkipBlanks, Scan, DigitValue;
    var p := Blanks(s);
    ghost var t := s[p..];
    var neg := false;
    if p < |s| && (s[p] == PLUS || s[p] == MINUS) {
      neg := s[p] == MINUS;
      p := p + 1;
    }
    ghost var u := s[p..];
    assert u == if HasSign(t) then t[1..] else t;
    var radix;
    p, radix := Prefix(s, p, base);
    start, b := p, radix;
    v, end := ScanFrom(s, p, radix);
    if neg {
      v := -v;
    }
  }

  /** The base and the position of its digits. */
  method Prefix(s: seq<Unit>, p: nat, base: nat) returns (q: nat, radix: nat)
    requires p <= |s|
    ensures p <= q <= |s| && ChooseBase(s[p..], base) == (radix, s[q..])
  {
    q, radix := p, base;
    var hex := p + 1 < |s| && s[p] == ZERO && (s[p + 1] == 0x78 || s[p + 1] == 0x58);
    assert hex == HasPrefix(s[p..]);
    if base == 0 {
      radix := if hex then 16 else if p < |s| && s[p] == ZERO then 8 else 10;
    }
    if hex && (base == 0 || base == 16) {
      q := p + 2;
      assert s[p..][2..] == s[q..];
    }
  }

  method ScanFrom(s: seq<Unit>, start: nat, base: nat) returns (n: nat, end: nat)
    requires start <= |s|
    ensures n == Scan(s[start..], base, 0) && start <= end <= |s|
    ensures (forall k | start <= k < end :: DigitValue(s[k]) < base) && (end < |s| ==> DigitValue(s[end]) >= base)
  {
    n, end := 0, start;
    hide DigitValue, Scan, Appended;
    while end < |s| && DigitValue(s[end]) < base
      invariant start <= end <= |s| && Scan(s[end..], base, n) == Scan(s[start..], base, 0)
      invariant forall k | start <= k < end :: DigitValue(s[k]) < base
      decreases |s| - end
    {
      ScanStep(s, end, base, n);
      n := Appended(n, base, DigitValue(s[end]));
      end := end + 1;
    }
    ScanEnd(s, end, base, n);
  }

  /** Printing one number into a buffer and parsing the buffer: when the text and its NUL fit, and the length
      fits the 32-bit result, the units before the NUL parse back to the number. */
  method PrintThenParse(buffer: array<Unit>, count: nat, zero: bool, width: nat, conv: Unit, args: Args)
    returns (r: int, v: int)
    requires count <= buffer.Length && Letter(conv)
    modifies buffer
    ensures
      var n := |Text(Format(zero, width, conv), args, 0, 0)|;
      && (n >= count ==> r == -1)
      && (n < count && n < 0x8000_0000 ==> r == n && buffer[r] == 0 && v == NumberOf(conv, args.value(0)))
  {
    var f := Format(zero, width, conv);
    ghost var text := Text(f, args, 0, 0);
    PrintedThenParsed(zero, width, conv, args);
    hide Format, Text, Parse, NumberOf, Final, AsI32;
    ghost var was := buffer[..];
    r := Vsnwprintf(buffer, count, f, args);
    FitsIs(|text|);
    v := 0;
    if 0 <= r {
      FinalFits(was, text, count);
      assert buffer[..r] == buffer[..][..r];
      var end; ghost var start, b;
      v, end, start, b := ParseInt(buffer[..r], BaseOf(conv));
    }
  }

  lemma FitsIs(n: nat)
    ensures AsI32(n) <= n && (n < 0x8000_0000 ==> AsI32(n) == n)
  {
  }

  lemma FinalFits(was: seq<Unit>, text: seq<Unit>, count: nat)
    requires |text| < count <= |was|
    ensures |Final(was, text, count)| == |was|
    ensures Final(was, text, count)[..|text|] == text && Final(was, text, count)[|text|] == 0
  {
  }

  /** One more digit. */
  function Appended(n: nat, base: nat, digit: nat): nat { n * base + digit }

  lemma ScanStep(s: seq<Unit>, i: nat, base: nat, n: nat)
    requires i < |s| && DigitValue(s[i]) < base
    ensures Scan(s[i..], base, n) == Scan(s[i + 1..], base, Appended(n, base, DigitValue(s[i])))
  {
    hide DigitValue;
    assert s[i..][0] == s[i] && s[i..][1..] == s[i + 1..];
  }

  lemma ScanEnd(s: seq<Unit>, i: nat, base: nat, n: nat)
    requires i <= |s| && (i < |s| ==> DigitValue(s[i]) >= base)
    ensures Scan(s[i..], base, n) == n
  {
    hide DigitValue;
    assert i < |s| ==> s[i..][0] == s[i];
  }

  method Blanks(s: seq<Unit>) returns (p: nat)
    ensures p <= |s| && s[p..] == SkipBlanks(s)
  {
    p := 0;
    assert s[0..] == s;
    while p < |s| && (s[p] == SPACE || s[p] == TAB)
      invariant p <= |s| && SkipBlanks(s[p..]) == SkipBlanks(s)
    {
      assert s[p..][0] == s[p] && s[p..][1..] == s[p + 1..];
      p := p + 1;
    }
  }

  /** `tmp` holds the last digits of `value`, lowest first, and `v` the number in front of them. */
  ghost predicate Reversed(value: nat, radix: nat, v: nat, tmp: seq<Unit>) {
    2 <= radix <= 36 && Digits(value, radix, false) == Digits(v, radix, false) + Backwards(tmp)
  }

  function Backwards(s: seq<Unit>): (r: seq<Unit>)
    ensures |r| == |s|
  {
    seq(|s|, i requires 0 <= i < |s| => s[|s| - 1 - i])
  }

  lemma ReversedMore(value: nat, radix: nat, v: nat, tmp: seq<Unit>)
    requires Reversed(value, radix, v, tmp)
    ensures 2 <= radix <= 36 && Last(v, radix) < 36
    ensures
      var tmp' := tmp + [Digit(Last(v, radix), false)];
      if Quotient(v, radix) > 0 then Reversed(value, radix, Quotient(v, radix), tmp')
      else Digits(value, radix, false) == Backwards(tmp')
  {
    hide Digits, Digit;
    var q, r := DigitsStep(v, radix, false);
    var last := [Digit(r, false)];
    assert Backwards(tmp + last) == last + Backwards(tmp);
    hide Backwards;
    if v < radix {
      assert [] + last + Backwards(tmp) == last + Backwards(tmp);
    } else {
      assert q > 0;
      assert Digits(q, radix, false) + last + Backwards(tmp) == Digits(q, radix, false) + (last + Backwards(tmp));
    }
  }

  ghost function Bits(n: nat): nat { Alu.Pow2(n) }

  lemma HalvesAtLeast(v: nat, radix: nat, n: nat)
    requires radix >= 2 && n > 0 && v < Bits(n)
    ensures Quotient(v, radix) < Bits(n - 1)
  {
    var p := Alu.Pow2(n - 1);
    assert Alu.Pow2(n) == 2 * p;
    hide Alu.Pow2;
    Shrinks(v, radix, 2, p);
  }

  lemma Fits32(value: nat)
    requires value < TWO32
    ensures value < Bits(32) && Bits(0) == 1
  {
    Alu.Pow2OfWidth(4);
  }

  lemma ReversedFirst(value: nat, radix: nat)
    requires 2 <= radix <= 36
    ensures Reversed(value, radix, value, [])
  {
    hide Digits;
    assert Digits(value, radix, false) + Backwards([]) == Digits(value, radix, false);
  }

  /** The digits, lowest first, of at most thirty-two. */
  method LowestFirst(value: nat, radix: nat) returns (tmp: seq<Unit>)
    requires 2 <= radix <= 36 && value < TWO32
    ensures Backwards(tmp) == Digits(value, radix, false) && |tmp| <= 32
  {
    hide Digits, Digit, Bits, Reversed, Quotient, Last, Backwards;
    Fits32(value);
    ReversedFirst(value, radix);
    tmp := [];
    var v: nat := value;
    while true
      invariant |tmp| < 32 && v < Bits(32 - |tmp|) && Reversed(value, radix, v, tmp)
      decreases 32 - |tmp|
    {
      ReversedMore(value, radix, v, tmp);
      HalvesAtLeast(v, radix, 32 - |tmp|);
      tmp := tmp + [Digit(Last(v, radix), false)];
      v := Quotient(v, radix);
      if v == 0 {
        break;
      }
    }
  }

  /** `_ultow`: the digits and a NUL at the front of the buffer; nothing for a radix out of range. */
  method Ultow(value: nat, buf: array<Unit>, radix: int)
    requires value < TWO32 && buf.Length >= 33
    modifies buf
    ensures !(2 <= radix <= 36) ==> buf[..] == old(buf[..])
    ensures 2 <= radix <= 36 ==>
      var s := Digits(value, radix, false);
      |s| <= 32 && buf[..|s|] == s && buf[|s|] == 0 && buf[|s| + 1..] == old(buf[|s| + 1..])
  {
    if !(2 <= radix <= 36) {
      return;
    }
    hide Digits;
    var tmp := LowestFirst(value, radix);
    var n := |tmp|;
    for i := 0 to n
      invariant forall k | 0 <= k < i :: buf[k] == Backwards(tmp)[k]
      invariant forall k | n < k < buf.Length :: buf[k] == old(buf[k])
    {
      buf[i] := tmp[n - 1 - i];
    }
    buf[n] := 0;
    assert buf[..n] == Backwards(tmp);
  }
}
