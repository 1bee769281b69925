/** The C runtime's wide formatting and number parsing (msvcrt/src/lib.rs): `_vsnwprintf`, `_ultow` and
    `wcsto_int`. Strings are sequences of 16-bit units without the terminating NUL. */
module WidePrintf {
  import opened Bytes

  type Unit = x: int | 0 <= x < 0x1_0000

  const SPACE: Unit := 0x20
  const TAB: Unit := 0x09
  const ZERO: Unit := 0x30
  const PLUS: Unit := 0x2B
  const MINUS: Unit := 0x2D
  const PERCENT: Unit := 0x25

  // --- digits -------------------------------------------------------------------------

  function Digit(d: nat, upper: bool): Unit
    requires d < 36
  {
    if d < 10 then 0x30 + d else if upper then 0x41 + d - 10 else 0x61 + d - 10
  }

  /** A number in a base from 2 to 36, most significant digit first. */
  function Digits(v: nat, base: nat, upper: bool): (s: seq<Unit>)
    requires 2 <= base <= 36
    ensures |s| > 0
    decreases v
  {
    Divided(v, base);
    (if v < base then [] else Digits(v / base, base, upper)) + [Digit(v % base, upper)]
  }

  lemma Divided(v: nat, base: nat)
    requires base >= 2
    ensures 0 <= v / base && 0 <= v % base < base && (v >= base ==> v / base < v)
  {
    if v >= base {
      Shrinks(v, base, 2, v);
    }
  }

  /** The value of a digit as `wcsto_int` reads it, up to `f`; 99 for anything else. */
  function DigitValue(c: Unit): nat {
    if 0x30 <= c <= 0x39 then c - 0x30
    else if 0x61 <= c <= 0x66 then c - 0x61 + 10
    else if 0x41 <= c <= 0x46 then c - 0x41 + 10
    else 99
  }

  /** The value of the digits of `base` at the front of `s`, continuing from `v`. */
  function Scan(s: seq<Unit>, base: nat, v: nat): nat
    decreases |s|
  {
    if s == [] || DigitValue(s[0]) >= base then v else Scan(s[1..], base, v * base + DigitValue(s[0]))
  }

  lemma ScanOne(d: nat, upper: bool, rest: seq<Unit>, base: nat, w: nat)
    requires d < base <= 16
    ensures Scan([Digit(d, upper)] + rest, base, w) == Scan(rest, base, w * base + d)
  {
    assert DigitValue(Digit(d, upper)) == d;
    assert ([Digit(d, upper)] + rest)[1..] == rest;
  }

  /** A number is its higher digits and its last one. */
  lemma DigitsStep(v: nat, base: nat, upper: bool) returns (q: nat, r: nat)
    requires 2 <= base <= 36
    ensures q == v / base && r == v % base && v == q * base + r && r < base && (if v < base then q == 0 else q < v)
    ensures Digits(v, base, upper) == (if v < base then [] else Digits(q, base, upper)) + [Digit(r, upper)]
  {
    q, r := v / base, v % base;
    hide Digit;
    if v < base {
      Euclid(v, base, 0, v);
    } else {
      assert q < v by { Smaller(v, base, q, r); }
    }
  }

  lemma Smaller(v: nat, base: nat, q: nat, r: nat)
    requires v == q * base + r && base >= 2 && v >= base && r < base
    ensures q < v
  {
    assert q * base >= q * 2;
  }

  lemma {:induction false} ScanDigits(v: nat, base: nat, upper: bool, rest: seq<Unit>)
    requires 2 <= base <= 16
    ensures Scan(Digits(v, base, upper) + rest, base, 0) == Scan(rest, base, v)
    decreases v
  {
    hide Scan, Digit, Digits;
    var q, r := DigitsStep(v, base, upper);
    var last := [Digit(r, upper)];
    ScanOne(r, upper, rest, base, q);
    if v < base {
      assert [] + last + rest == last + rest;
    } else {
      ScanDigits(q, base, upper, last + rest);
      assert Digits(q, base, upper) + last + rest == Digits(q, base, upper) + (last + rest);
    }
  }

  ghost predicate SmallDigits(v: nat, base: nat)
    requires 2 <= base
    decreases v
  {
    v % base < 16 && (v >= base ==> SmallDigits(v / base, base))
  }

  // --- parsing ---------------------------------------------------------------------------

  function SkipBlanks(s: seq<Unit>): seq<Unit> {
    if s != [] && (s[0] == SPACE || s[0] == TAB) then SkipBlanks(s[1..]) else s
  }

  predicate HasPrefix(s: seq<Unit>) { |s| >= 2 && s[0] == ZERO && (s[1] == 0x78 || s[1] == 0x58) }

  /** The base and the digits, for a base of 0 (by prefix) or from 2 to 36. */
  function ChooseBase(s: seq<Unit>, base: nat): (nat, seq<Unit>) {
    if base == 0 then
      if HasPrefix(s) then (16, s[2..]) else if s != [] && s[0] == ZERO then (8, s) else (10, s)
    else if base == 16 && HasPrefix(s) then (16, s[2..])
    else (base, s)
  }

  predicate HasSign(t: seq<Unit>) { t != [] && (t[0] == PLUS || t[0] == MINUS) }

  /** The base in force and where its digits start: past the blanks, the sign and the prefix. */
  function Numeral(s: seq<Unit>, base: nat): (nat, seq<Unit>) {
    var t := SkipBlanks(s);
    ChooseBase(if HasSign(t) then t[1..] else t, base)
  }

  /** `wcsto_int` on a whole string. */
  function Parse(s: seq<Unit>, base: nat): int {
    var t := SkipBlanks(s);
    var neg := HasSign(t) && t[0] == MINUS;
    var (b, digits) := Numeral(s, base);
    var v: int := Scan(digits, b, 0);
    if neg then -v else v
  }

  // --- conversions ------------------------------------------------------------------------

  function Repeat(c: Unit, n: nat): (s: seq<Unit>)
    ensures |s| == n
  {
    seq(n, _ => c)
  }

  function Pad(width: nat, total: nat): nat { if width > total then width - total else 0 }

  function AsI32(v: nat): int { var w := v % TWO32; if w < TWO32 / 2 then w else w - TWO32 }

  /** `%d`. */
  function SignedText(v: int, width: nat, zero: bool): seq<Unit> {
    var digits := Digits(if v < 0 then -v else v, 10, false);
    var sign: seq<Unit> := if v < 0 then [MINUS] else [];
    var padn := Pad(width, |digits| + |sign|);
    if zero then sign + (Repeat(ZERO, padn) + digits) else Repeat(SPACE, padn) + (sign + digits)
  }

  /** `%u`, `%x` and `%X`. */
  function UnsignedText(v: nat, base: nat, upper: bool, width: nat, zero: bool): seq<Unit>
    requires 2 <= base <= 36
  {
    var digits := Digits(v, base, upper);
    Repeat(if zero then ZERO else SPACE, Pad(width, |digits|)) + digits
  }

  // --- what the texts look like -----------------------------------------------------------------

  /** The value of a digit in one case of letters; 36 for anything else. */
  function DigitOf(c: Unit, upper: bool): nat {
    if 0x30 <= c <= 0x39 then c - 0x30
    else if upper && 0x41 <= c <= 0x5A then c - 0x41 + 10
    else if !upper && 0x61 <= c <= 0x7A then c - 0x61 + 10
    else 36
  }

  function Worth(s: seq<Unit>, base: nat, upper: bool): nat {
    if s == [] then 0 else Worth(s[..|s| - 1], base, upper) * base + DigitOf(s[|s| - 1], upper)
  }

  /** A number as it is written: digits of the base in one case, worth the number, and no zero in front. */
  ghost predicate IsNumeral(s: seq<Unit>, v: nat, base: nat, upper: bool) {
    && s != [] && Worth(s, base, upper) == v && (|s| > 1 ==> s[0] != 0x30)
    && forall k {:trigger s[k]} | 0 <= k < |s| :: DigitOf(s[k], upper) < base
  }

  lemma DigitIs(d: nat, upper: bool)
    requires d < 36
    ensures DigitOf(Digit(d, upper), upper) == d && (Digit(d, upper) == 0x30 <==> d == 0)
  {
  }

  lemma NumeralAppended(s: seq<Unit>, c: Unit, v: nat, base: nat, upper: bool)
    requires IsNumeral(s, v, base, upper) && v > 0 && DigitOf(c, upper) < base
    ensures IsNumeral(s + [c], v * base + DigitOf(c, upper), base, upper)
  {
    hide DigitOf;
    NotZero(s, v, base, upper);
    var t := s + [c];
    assert t[..|t| - 1] == s && t[|t| - 1] == c && t[0] == s[0];
    assert forall k | 0 <= k < |s| :: t[k] == s[k];
  }

  lemma NotZero(s: seq<Unit>, v: nat, base: nat, upper: bool)
    requires IsNumeral(s, v, base, upper) && v > 0
    ensures s[0] != 0x30
  {
    if |s| == 1 {
      assert s[..0] == [] && Worth([], base, upper) == 0 && 0 * base == 0;
      assert Worth(s, base, upper) == DigitOf(s[0], upper);
    }
  }

  lemma {:induction false} DigitsNumeral(v: nat, base: nat, upper: bool)
    requires 2 <= base <= 36
    ensures IsNumeral(Digits(v, base, upper), v, base, upper)
    decreases v
  {
    var q, r := DigitsStep(v, base, upper);
    DigitIs(r, upper);
    hide Digits, Digit, DigitOf;
    if v < base {
      var s := [Digit(r, upper)];
      assert [] + s == s && s[..0] == [] && Worth([], base, upper) == 0;
      assert v == r;
    } else {
      DigitsNumeral(q, base, upper);
      assert q > 0;
      NumeralAppended(Digits(q, base, upper), Digit(r, upper), q, base, upper);
    }
  }

  /** Padding is the one character throughout. */
  lemma RepeatIs(c: Unit, n: nat, k: nat)
    requires k < n
    ensures Repeat(c, n)[k] == c
  {
  }

  /** `%d`: the sign and the digits, and as many blanks in front, or zeros in between, as the width lacks. */
  lemma SignedLayout(v: int, width: nat, zero: bool) returns (body: seq<Unit>)
    ensures IsNumeral(body, if v < 0 then -v else v, 10, false)
    ensures
      var s, n := SignedText(v, width, zero), |body| + (if v < 0 then 1 else 0);
      && |s| == (if width > n then width else n)
      && var sign: seq<Unit> := if v < 0 then [0x2D] else [];
      s == if zero then sign + (Repeat(0x30, |s| - n) + body) else Repeat(0x20, |s| - n) + (sign + body)
  {
    hide Digits, IsNumeral, Repeat;
    body := Digits(if v < 0 then -v else v, 10, false);
    DigitsNumeral(if v < 0 then -v else v, 10, false);
  }

  /** `%u`, `%x` and `%X`. */
  lemma UnsignedLayout(v: nat, base: nat, upper: bool, width: nat, zero: bool) returns (body: seq<Unit>)
    requires 2 <= base <= 36
    ensures IsNumeral(body, v, base, upper)
    ensures
      var s := UnsignedText(v, base, upper, width, zero);
      && |s| == (if width > |body| then width else |body|)
      && s == Repeat(if zero then 0x30 else 0x20, |s| - |body|) + body
  {
    hide Digits, IsNumeral, Repeat;
    body := Digits(v, base, upper);
    DigitsNumeral(v, base, upper);
  }

  /** The low 32 bits as a signed number. */
  lemma AsI32Is(v: nat)
    ensures -0x8000_0000 <= AsI32(v) < 0x8000_0000 && (AsI32(v) - v) % TWO32 == 0
  {
    var q, w := v / TWO32, v % TWO32;
    Euclid(AsI32(v) - v, TWO32, if w < TWO32 / 2 then -q else -q - 1, 0);
  }

  // --- what a text parses to -----------------------------------------------------------------

  /** The value of a digit up to `f`, in either case; 36 for anything else. */
  function HexOf(c: Unit): nat {
    if DigitOf(c, false) < 16 then DigitOf(c, false) else if DigitOf(c, true) < 16 then DigitOf(c, true) else 36
  }

  function Amount(s: seq<Unit>, base: nat): nat {
    if s == [] then 0 else Amount(s[..|s| - 1], base) * base + HexOf(s[|s| - 1])
  }

  ghost predicate AllBlank(s: seq<Unit>) { forall k {:trigger s[k]} | 0 <= k < |s| :: s[k] == 0x20 || s[k] == 0x09 }

  ghost predicate AllDigits(s: seq<Unit>, base: nat) { forall k {:trigger s[k]} | 0 <= k < |s| :: HexOf(s[k]) < base }

  ghost predicate IsHexMark(s: seq<Unit>) { s == [0x30, 0x78] || s == [0x30, 0x58] }

  /** What a base asked for means before a text: 16 after a mark `0x`, else 8 before a zero and 10 otherwise if none is
      asked for, else the one asked for. */
  ghost predicate Means(base: nat, mark: seq<Unit>, body: seq<Unit>, b: nat) {
    var marked := (base == 0 || base == 16) && (IsHexMark(mark) || (mark == [] && |body| >= 2 && IsHexMark(body[..2])));
    if marked then b == 16 && IsHexMark(mark)
    else mark == [] && b == if base != 0 then base else if body != [] && body[0] == 0x30 then 8 else 10
  }

  lemma HexIs(c: Unit)
    ensures HexOf(c) < 16 || HexOf(c) == 36
    ensures DigitValue(c) == if HexOf(c) < 16 then HexOf(c) else 99
  {}

  lemma {:induction false} SkipsBlanks(bl: seq<Unit>, s: seq<Unit>)
    requires AllBlank(bl) && s != [] && s[0] != 0x20 && s[0] != 0x09
    ensures SkipBlanks(bl + s) == s
  {
    if bl == [] {
      assert bl + s == s;
    } else {
      assert (bl + s)[1..] == bl[1..] + s;
      SkipsBlanks(bl[1..], s);
    }
  }

  lemma {:induction false} ScanRun(ds: seq<Unit>, rest: seq<Unit>, b: nat)
    requires AllDigits(ds, b) && b <= 36
    ensures Scan(ds + rest, b, 0) == Scan(rest, b, Amount(ds, b))
  {
    hide HexOf, DigitValue, Scan;
    if ds == [] {
      assert ds + rest == rest;
    } else {
      var w, c := ds[..|ds| - 1], ds[|ds| - 1];
      assert ds + rest == w + ([c] + rest);
      ScanRun(w, [c] + rest, b);
      ScanFirst(c, rest, b, Amount(w, b));
    }
  }

  lemma ScanFirst(c: Unit, rest: seq<Unit>, b: nat, v: nat)
    requires HexOf(c) < b <= 36
    ensures Scan([c] + rest, b, v) == Scan(rest, b, v * b + HexOf(c))
  {
    hide HexOf, DigitValue;
    HexIs(c);
    assert ([c] + rest)[1..] == rest;
  }

  /** Blanks, a sign or none, a mark or none, digits, and whatever no longer is a digit: that parses to the amount of
      the digits, with the sign. */
  lemma ParseInNumbers(bl: seq<Unit>, sign: seq<Unit>, mark: seq<Unit>, ds: seq<Unit>, rest: seq<Unit>, base: nat, b: nat)
    requires AllBlank(bl) && (sign == [] || sign == [0x2B] || sign == [0x2D]) && base <= 36
    requires Means(base, mark, ds + rest, b) && mark + ds != []
    requires AllDigits(ds, b) && (rest != [] ==> HexOf(rest[0]) >= b)
    ensures Parse(bl + (sign + (mark + (ds + rest))), base) == if sign == [0x2D] then -(Amount(ds, b) as int) else Amount(ds, b)
  {
    var u := mark + (ds + rest);
    NumeralFirst(mark, ds, rest, b);
    MeansBase(base, mark, ds + rest, b);
    ScanAmount(ds, rest, b);
    var t := sign + u;
    assert t[0] == (if sign == [] then u[0] else sign[0]);
    SkipsBlanks(bl, t);
    assert sign != [] ==> t[1..] == u;
    assert sign == [] ==> t == u;
    hide *;
    ParseOf(bl + t, t, u, sign, base, b, ds + rest);
  }

  lemma ParseOf(s: seq<Unit>, t: seq<Unit>, u: seq<Unit>, sign: seq<Unit>, base: nat, b: nat, body: seq<Unit>)
    requires SkipBlanks(s) == t && ChooseBase(u, base) == (b, body)
    requires (sign == [] && t == u && !HasSign(u)) || (|sign| == 1 && HasSign(t) && t[0] == sign[0] && t[1..] == u)
    ensures Parse(s, base) == if sign == [0x2D] then -(Scan(body, b, 0) as int) else Scan(body, b, 0)
  {
    hide Scan, SkipBlanks, ChooseBase;
  }

  lemma NumeralFirst(mark: seq<Unit>, ds: seq<Unit>, rest: seq<Unit>, b: nat)
    requires (mark == [] || IsHexMark(mark)) && AllDigits(ds, b) && b <= 36 && mark + ds != []
    ensures var u := mark + (ds + rest); u != [] && 0x30 <= u[0] && !HasSign(u)
  {
    var u := mark + (ds + rest);
    assert u[0] == if mark != [] then mark[0] else ds[0];
  }

  lemma MeansBase(base: nat, mark: seq<Unit>, body: seq<Unit>, b: nat)
    requires Means(base, mark, body, b)
    ensures ChooseBase(mark + body, base) == (b, body)
  {
    if mark == [] {
      assert mark + body == body;
    } else {
      assert (mark + body)[2..] == body;
    }
  }

  lemma ScanAmount(ds: seq<Unit>, rest: seq<Unit>, b: nat)
    requires AllDigits(ds, b) && b <= 36 && (rest != [] ==> HexOf(rest[0]) >= b)
    ensures Scan(ds + rest, b, 0) == Amount(ds, b)
  {
    hide HexOf, DigitValue;
    ScanRun(ds, rest, b);
    if rest != [] {
      HexIs(rest[0]);
    }
  }

  // --- reading back what was printed ---------------------------------------------------------

  lemma {:induction false} SkipsSpaces(n: nat, s: seq<Unit>)
    requires s != [] && s[0] != SPACE && s[0] != TAB
    ensures SkipBlanks(Repeat(SPACE, n) + s) == s
    decreases n
  {
    if n == 0 {
      assert Repeat(SPACE, 0) + s == s;
    } else {
      assert (Repeat(SPACE, n) + s)[1..] == Repeat(SPACE, n - 1) + s;
      SkipsSpaces(n - 1, s);
    }
  }

  lemma {:induction false} ScansZeros(n: nat, s: seq<Unit>, base: nat)
    requires base > 0
    ensures Scan(Repeat(ZERO, n) + s, base, 0) == Scan(s, base, 0)
    decreases n
  {
    if n == 0 {
      assert Repeat(ZERO, 0) + s == s;
    } else {
      assert (Repeat(ZERO, n) + s)[1..] == Repeat(ZERO, n - 1) + s;
      ScansZeros(n - 1, s, base);
    }
  }

  /** A digit is no blank, sign or `x`. */
  ghost predicate Plain(c: Unit) { DigitValue(c) < 16 }

  lemma {:induction false} DigitsPlain(v: nat, base: nat, upper: bool)
    requires 2 <= base <= 16
    ensures forall k {:trigger Digits(v, base, upper)[k]} | 0 <= k < |Digits(v, base, upper)| ::
      Plain(Digits(v, base, upper)[k])
    decreases v
  {
    if v >= base {
      DigitsPlain(v / base, base, upper);
    }
  }

  ghost predicate AllPlain(s: seq<Unit>) { forall k {:trigger s[k]} | 0 <= k < |s| :: Plain(s[k]) }

  /** Unsigned digits after any zeros and any spaces read back as their number. */
  lemma ParsePlain(spaces: nat, zeros: nat, v: nat, base: nat, upper: bool)
    requires 2 <= base <= 16
    ensures Parse(Repeat(SPACE, spaces) + (Repeat(ZERO, zeros) + Digits(v, base, upper)), base) == v
  {
    var t := Repeat(ZERO, zeros) + Digits(v, base, upper);
    PlainBody(zeros, v, base, upper);
    SkipsSpaces(spaces, t);
    ScanBody(zeros, v, base, upper);
    hide Repeat, Digits, Scan, SkipBlanks;
  }

  lemma PlainBody(zeros: nat, v: nat, base: nat, upper: bool)
    requires 2 <= base <= 16
    ensures var t := Repeat(ZERO, zeros) + Digits(v, base, upper);
      t != [] && AllPlain(t)
  {
    DigitsPlain(v, base, upper);
    hide Digits;
  }

  lemma ScanBody(zeros: nat, v: nat, base: nat, upper: bool)
    requires 2 <= base <= 16
    ensures Scan(Repeat(ZERO, zeros) + Digits(v, base, upper), base, 0) == v
  {
    ScansZeros(zeros, Digits(v, base, upper), base);
    ScanDigits(v, base, upper, []);
    assert Digits(v, base, upper) + [] == Digits(v, base, upper);
    hide Digits, Repeat;
  }

  lemma ParseSigned(t: seq<Unit>, spaces: nat, c: Unit, v: nat)
    requires (c == PLUS || c == MINUS) && AllPlain(t) && t != [] && Scan(t, 10, 0) == v
    ensures Parse(Repeat(SPACE, spaces) + ([c] + t), 10) == if c == MINUS then 0 - v else v
  {
    SkipsSpaces(spaces, [c] + t);
    assert ([c] + t)[1..] == t;
    hide Repeat, Scan, SkipBlanks;
  }

  /** Blanks, then the sign, then zeros, then the digits. */
  lemma SignedShape(v: int, width: nat, zero: bool) returns (spaces: nat, zeros: nat)
    ensures
      var n: nat := if v < 0 then -v else v;
      var t := Repeat(ZERO, zeros) + Digits(n, 10, false);
      SignedText(v, width, zero) == Repeat(SPACE, spaces) + (if v < 0 then [MINUS] + t else t)
  {
    var n: nat := if v < 0 then -v else v;
    var digits := Digits(n, 10, false);
    var padn := Pad(width, |digits| + if v < 0 then 1 else 0);
    spaces, zeros := if zero then 0 else padn, if zero then padn else 0;
    assert Repeat(SPACE, 0) == [] && Repeat(ZERO, 0) == [];
    hide Digits, Repeat, Pad;
    var t := Repeat(ZERO, zeros) + digits;
    assert zero ==> [] + (if v < 0 then [MINUS] + t else t) == (if v < 0 then [MINUS] + t else t);
    assert [] + t == t && [] + digits == digits;
  }

  /** `wcstol` in base 10 undoes `%d`, at any width, padded with blanks or zeros. */
  lemma ReadsSigned(v: int, width: nat, zero: bool)
    ensures Parse(SignedText(v, width, zero), 10) == v
  {
    hide *;
    var n: nat := if v < 0 then -v else v;
    var spaces, zeros := SignedShape(v, width, zero);
    PlainBody(zeros, n, 10, false);
    ScanBody(zeros, n, 10, false);
    if v < 0 {
      ParseSigned(Repeat(ZERO, zeros) + Digits(n, 10, false), spaces, MINUS, n);
    } else {
      ParsePlain(spaces, zeros, n, 10, false);
    }
  }

  /** `wcstoul` in base 16 undoes `%x` and `%X`, and in base 10 `%u`. */
  lemma ReadsUnsigned(v: nat, base: nat, upper: bool, width: nat, zero: bool)
    requires 2 <= base <= 16
    ensures Parse(UnsignedText(v, base, upper, width, zero), base) == v
  {
    var digits := Digits(v, base, upper);
    var padn := Pad(width, |digits|);
    var spaces, zeros := if zero then 0 else padn, if zero then padn else 0;
    ParsePlain(spaces, zeros, v, base, upper);
    assert Repeat(SPACE, 0) == [] && Repeat(ZERO, 0) == [];
    hide Digits, Repeat, Pad, Parse;
    assert UnsignedText(v, base, upper, width, zero) == Repeat(SPACE, spaces) + (Repeat(ZERO, zeros) + digits);
  }

  lemma ScanBig(d: nat, rest: seq<Unit>, base: nat, w: nat)
    requires d < base <= 36
    ensures Scan([Digit(d, false)] + rest, base, w) == if d < 16 then Scan(rest, base, w * base + d) else w
  {
    assert DigitValue(Digit(d, false)) == if d < 16 then d else 99;
    assert ([Digit(d, false)] + rest)[1..] == rest;
  }

  lemma {:induction false} ScanAny(v: nat, base: nat, rest: seq<Unit>)
    requires 2 <= base <= 36
    ensures
      var r := Scan(Digits(v, base, false) + rest, base, 0);
      if SmallDigits(v, base) then r == Scan(rest, base, v) else r < v
    decreases v
  {
    hide Scan, Digit, Digits;
    SmallStep(v, base);
    var q, r := DigitsStep(v, base, false);
    hide SmallDigits;
    var last := [Digit(r, false)];
    ScanBig(r, rest, base, q);
    if v < base {
      assert [] + last + rest == last + rest;
    } else {
      ScanAny(q, base, last + rest);
      assert Digits(q, base, false) + last + rest == Digits(q, base, false) + (last + rest);
    }
  }

  lemma SmallStep(v: nat, base: nat)
    requires base >= 2
    ensures SmallDigits(v, base) <==> v % base < 16 && (v >= base ==> SmallDigits(v / base, base))
  {
  }

  /** `wcstoul` undoes `_ultow` exactly when every digit is one it knows: always up to base 16, and
      above it for the numbers that use no digit past `f`. */
  lemma ReadsUltow(v: nat, radix: nat)
    requires 2 <= radix <= 36
    ensures radix <= 16 ==> Parse(Digits(v, radix, false), radix) == v
    ensures radix > 16 ==> (Parse(Digits(v, radix, false), radix) == v <==> SmallDigits(v, radix))
  {
    var t := Digits(v, radix, false);
    assert t + [] == t;
    if radix <= 16 {
      ParsePlain(0, 0, v, radix, false);
      assert Repeat(SPACE, 0) + (Repeat(ZERO, 0) + t) == t;
    } else {
      ScanAny(v, radix, []);
      Unblank(v, radix);
      hide Digits, Scan;
      assert SkipBlanks(t) == t;
    }
  }

  lemma {:induction false} Unblank(v: nat, radix: nat)
    requires 2 <= radix <= 36
    ensures
      var c := Digits(v, radix, false)[0];
      c != SPACE && c != TAB && c != PLUS && c != MINUS
    decreases v
  {
    hide Digits, Digit;
    var q, r := DigitsStep(v, radix, false);
    if v >= radix {
      Unblank(q, radix);
    } else {
      DigitUnblank(r);
    }
  }

  lemma DigitUnblank(d: nat)
    requires d < 36
    ensures var c := Digit(d, false); c != SPACE && c != TAB && c != PLUS && c != MINUS
  {
  }

  /** 16 in base 17 is written `g`, which reads back as nothing. */
  lemma LargeDigitLost()
    ensures Digits(16, 17, false) == [0x67] && Parse([0x67], 17) == 0
  {
    assert SkipBlanks([0x67]) == [0x67];
  }
}
