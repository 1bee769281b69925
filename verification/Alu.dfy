/** The interpreter's arithmetic unit: `set_flag`, `set_zsp`, `apply_alu` and `cond` (emu/src/lib.rs),
    at every operand size, against integer arithmetic of any precision. */
module Alu {
  import opened Bytes

  // --- flags ------------------------------------------------------------------

  // RFLAGS is the set of the numbers of its bits that are on.
  const CF := 0
  const PF := 2
  const ZF := 6
  const SF := 7
  const OF := 11

  datatype Flags = Flags(cf: bool, pf: bool, zf: bool, sf: bool, of: bool)

  function Status(rflags: set<nat>): Flags {
    Flags(CF in rflags, PF in rflags, ZF in rflags, SF in rflags, OF in rflags)
  }

  /** The flags no arithmetic touches: interrupt, direction, trap and the rest. */
  function Others(rflags: set<nat>): set<nat> { rflags - {CF, PF, ZF, SF, OF} }

  /** The places of the five status flags in RFLAGS. */
  lemma StatusBits(rflags: set<nat>)
    ensures Status(rflags) == Flags(0 in rflags, 2 in rflags, 6 in rflags, 7 in rflags, 11 in rflags)
    ensures Others(rflags) == rflags - {0, 2, 6, 7, 11}
  {
  }

  // --- operand widths ---------------------------------------------------------

  ghost predicate Width(size: nat) { size == 1 || size == 2 || size == 4 || size == 8 }

  /** One more than the largest operand. */
  function Modulus(size: nat): (m: nat)
    ensures m > 0 && m % 2 == 0
  {
    if size == 1 then 0x100 else if size == 2 then TWO16 else if size == 4 then TWO32 else TWO64
  }

  /** The weight of the top bit. */
  function Half(size: nat): (h: nat)
    ensures 2 * h == Modulus(size) && h > 0
  {
    Modulus(size) / 2
  }

  predicate Top(v: nat, h: nat) { v >= h }

  /** The integer a word stands for in two's complement. */
  function Signed(v: nat, h: nat): int { if v < h then v else v - 2 * h }

  predicate Fits(x: int, h: int) { -h <= x < h }

  function Ones(v: nat, n: nat): nat { if n == 0 then 0 else v % 2 + Ones(v / 2, n - 1) }

  // --- the operations ---------------------------------------------------------

  /** One bit of `or` (1), `and` (4) and `xor` (6). */
  function Bit(sel: nat, x: nat, y: nat): nat {
    if sel == 1 then (if x == 0 && y == 0 then 0 else 1)
    else if sel == 4 then (if x == 1 && y == 1 then 1 else 0)
    else if x == y then 0 else 1
  }

  /** The `n` low bits of a bitwise operation. */
  function Bitwise(sel: nat, a: nat, b: nat, n: nat): nat
    decreases n
  {
    if n == 0 then 0 else Bit(sel, a % 2, b % 2) + 2 * Bitwise(sel, a / 2, b / 2, n - 1)
  }

  datatype Outcome = Outcome(res: nat, writeback: bool, cf: bool, of: bool)

  function Carry(on: bool): nat { if on then 1 else 0 }

  function WrappingSub(a: int, b: int): nat { (a - b) % TWO64 }

  function Add(a: nat, b: nat, c: nat, size: nat): Outcome {
    var h, wide := Half(size), a + b + c;
    var res := wide % Modulus(size);
    Outcome(res, true, wide >= Modulus(size), Top(a, h) == Top(b, h) && Top(a, h) != Top(res, h))
  }

  function Subtract(a: nat, b: nat, c: nat, size: nat, writeback: bool): Outcome {
    var h, res := Half(size), WrappingSub(WrappingSub(a, b), c) % Modulus(size);
    Outcome(res, writeback, a < b + c, Top(a, h) != Top(b, h) && Top(a, h) != Top(res, h))
  }

  /** The result and the CF and OF of operation `sel` on operands already cut to the width. */
  function Operate(sel: nat, am: nat, bm: nat, size: nat, cf: bool, of: bool): Outcome {
    if sel == 0 || sel == 2 then Add(am, bm, if sel == 2 then Carry(cf) else 0, size)
    else if sel == 3 || sel == 5 || sel == 7 then
      Subtract(am, bm, if sel == 3 then Carry(cf) else 0, size, sel != 7)
    else if sel == 1 || sel == 4 || sel == 6 then
      Outcome(Bitwise(sel, am, bm, 8 * size), true, false, false)
    else Outcome(am, false, cf, of)
  }

  function After(o: Outcome, size: nat): Flags {
    Flags(o.cf, Ones(o.res, 8) % 2 == 0, o.res == 0, Top(o.res, Half(size)), o.of)
  }

  predicate Cond(cc: nat, f: Flags) {
    match cc % 16
    case 0 => f.of
    case 1 => !f.of
    case 2 => f.cf
    case 3 => !f.cf
    case 4 => f.zf
    case 5 => !f.zf
    case 6 => f.cf || f.zf
    case 7 => !f.cf && !f.zf
    case 8 => f.sf
    case 9 => !f.sf
    case 10 => f.pf
    case 11 => !f.pf
    case 12 => f.sf != f.of
    case 13 => f.sf == f.of
    case 14 => f.zf || f.sf != f.of
    case _ => !f.zf && f.sf == f.of
  }

  class Cpu {
    var rflags: set<nat>

    method SetFlag(bit: nat, on: bool)
      modifies this
      ensures rflags == if on then old(rflags) + {bit} else old(rflags) - {bit}
    {
      if on {
        rflags := rflags + {bit};
      } else {
        rflags := rflags - {bit};
      }
    }

    /** ZF, SF and PF of a result. */
    method SetZsp(val: nat, size: nat)
      requires Width(size)
      modifies this
      ensures Others(rflags) == Others(old(rflags))
      ensures Status(rflags) == After(Outcome(val % Modulus(size), false, CF in old(rflags), OF in old(rflags)), size)
    {
      var masked := val % Modulus(size);
      hide Ones;
      SetFlag(ZF, masked == 0);
      SetFlag(SF, masked >= Half(size));
      SetFlag(PF, Ones(masked, 8) % 2 == 0);
    }

    method AddStep(am: nat, bm: nat, c: nat, size: nat) returns (res: nat)
      modifies this
      ensures Others(rflags) == Others(old(rflags))
      ensures Add(am, bm, c, size) == Outcome(res, true, CF in rflags, OF in rflags)
    {
      var h, wide := Half(size), am + bm + c;
      res := wide % Modulus(size);
      SetFlag(CF, wide >= Modulus(size));
      SetFlag(OF, Top(am, h) == Top(bm, h) && Top(am, h) != Top(res, h));
    }

    method SubStep(am: nat, bm: nat, c: nat, size: nat, writeback: bool) returns (res: nat)
      modifies this
      ensures Others(rflags) == Others(old(rflags))
      ensures Subtract(am, bm, c, size, writeback) == Outcome(res, writeback, CF in rflags, OF in rflags)
    {
      var h := Half(size);
      res := WrappingSub(WrappingSub(am, bm), c) % Modulus(size);
      SetFlag(CF, am < bm + c);
      SetFlag(OF, Top(am, h) != Top(bm, h) && Top(am, h) != Top(res, h));
    }

    method LogicFlags()
      modifies this
      ensures Others(rflags) == Others(old(rflags)) && CF !in rflags && OF !in rflags
    {
      SetFlag(CF, false);
      SetFlag(OF, false);
    }

    /** `apply_alu`: the five status flags and the result, and nothing else. */
    method Apply(sel: nat, a: nat, b: nat, size: nat) returns (res: nat, writeback: bool)
      requires Width(size)
      modifies this
      ensures Others(rflags) == Others(old(rflags))
      ensures
        var o := Operate(sel, a % Modulus(size), b % Modulus(size), size, CF in old(rflags), OF in old(rflags));
        res == o.res && writeback == o.writeback && Status(rflags) == After(o, size)
    {
      var am, bm := a % Modulus(size), b % Modulus(size);
      OperateFits(sel, am, bm, size, CF in rflags, OF in rflags);
      hide After, Modulus, Bitwise, Add, Subtract, Others, Width;
      var cin := Carry(CF in rflags);
      if sel == 0 || sel == 2 {
        res := AddStep(am, bm, if sel == 2 then cin else 0, size);
        writeback := true;
      } else if sel == 3 || sel == 5 || sel == 7 {
        res := SubStep(am, bm, if sel == 3 then cin else 0, size, sel != 7);
        writeback := sel != 7;
      } else if sel == 1 || sel == 4 || sel == 6 {
        res, writeback := Bitwise(sel, am, bm, 8 * size), true;
        LogicFlags();
      } else {
        res, writeback := am, false;
      }
      ghost var o := Outcome(res, writeback, CF in rflags, OF in rflags);
      SetZsp(res, size);
      AfterOnly(o, Outcome(res, false, o.cf, o.of), size);
    }
  }

  lemma AfterOnly(o: Outcome, p: Outcome, size: nat)
    requires o == p.(writeback := o.writeback)
    ensures After(o, size) == After(p, size)
  {
  }

  function Pow2(n: nat): (p: nat)
    ensures p > 0
  {
    if n == 0 then 1 else 2 * Pow2(n - 1)
  }

  lemma {:induction false} BitwiseBound(sel: nat, a: nat, b: nat, n: nat)
    ensures Bitwise(sel, a, b, n) < Pow2(n)
    decreases n
  {
    if n > 0 {
      BitwiseBound(sel, a / 2, b / 2, n - 1);
    }
  }

  lemma {:induction false} Pow2Sum(a: nat, b: nat)
    ensures Pow2(a + b) == Pow2(a) * Pow2(b)
    decreases a
  {
    if a > 0 {
      Pow2Sum(a - 1, b);
      assert Pow2(a + b) == 2 * Pow2(a - 1 + b);
    }
  }

  lemma Pow2Of8()
    ensures Pow2(8) == 256
  {
    assert Pow2(4) == 16 by {
      assert Pow2(4) == 2 * Pow2(3);
      assert Pow2(2) == 2 * Pow2(1) == 4;
    }
    Pow2Sum(4, 4);
  }

  lemma Pow2OfWidth(size: nat)
    requires Width(size)
    ensures Pow2(8 * size) == Modulus(size)
  {
    hide Pow2;
    Pow2Of8();
    Pow2Sum(8, 8);
    Pow2Sum(16, 16);
    Pow2Sum(32, 32);
  }

  lemma BitwiseFits(sel: nat, a: nat, b: nat, size: nat)
    requires Width(size)
    ensures Bitwise(sel, a, b, 8 * size) < Modulus(size)
  {
    BitwiseBound(sel, a, b, 8 * size);
    hide Bitwise, Pow2, Modulus;
    Pow2OfWidth(size);
  }

  lemma OperateFits(sel: nat, am: nat, bm: nat, size: nat, cf: bool, of: bool)
    requires Width(size) && am < Modulus(size) && bm < Modulus(size)
    ensures
      var o := Operate(sel, am, bm, size, cf, of);
      o.res < Modulus(size) && o.res % Modulus(size) == o.res && (sel > 7 ==> o == Outcome(am, false, cf, of))
  {
    hide Bitwise;
    BitwiseFits(sel, am, bm, size);
    Euclid(am, Modulus(size), 0, am);
    var o := Operate(sel, am, bm, size, cf, of);
    assert o.res < Modulus(size) by { hide Modulus; }
    hide Modulus, Operate;
    Euclid(o.res, Modulus(size), 0, o.res);
  }

  // --- what one operation means -------------------------------------------------

  /** Addition is exact with CF as the carry, and OF says the signed sum does not fit. */
  lemma AddMeans(a: nat, b: nat, c: nat, size: nat)
    requires a < Modulus(size) && b < Modulus(size) && c <= 1
    ensures
      var o, h := Add(a, b, c, size), Half(size);
      var sum := Signed(a, h) + Signed(b, h) + c;
      && o.res < Modulus(size) && o.res + (if o.cf then Modulus(size) else 0) == a + b + c
      && (o.of <==> !Fits(sum, h)) && (!o.of ==> Signed(o.res, h) == sum)
  {
    var m := Modulus(size);
    hide Modulus;
    Euclid(a + b + c, m, if a + b + c >= m then 1 else 0, if a + b + c >= m then a + b + c - m else a + b + c);
  }

  /** Subtraction is exact with CF as the borrow; OF says the signed difference does not fit; and
      SF differs from OF exactly when that difference is negative. */
  lemma SubMeans(a: nat, b: nat, c: nat, size: nat, w: bool)
    requires a < Modulus(size) && b < Modulus(size) && c <= 1
    ensures
      var o, h := Subtract(a, b, c, size, w), Half(size);
      var diff := Signed(a, h) - Signed(b, h) - c;
      && o.res < Modulus(size) && o.res - (if o.cf then Modulus(size) else 0) == a - b - c
      && (o.of <==> !Fits(diff, h)) && (!o.of ==> Signed(o.res, h) == diff)
      && (Top(o.res, h) != o.of <==> diff < 0)
  {
    WrapsAtWidth(a, b, c, size);
  }

  lemma ModOnce(x: int, m: int)
    requires m > 0 && -m <= x < m
    ensures x % m == if x < 0 then x + m else x
  {
    Euclid(x, m, if x < 0 then -1 else 0, if x < 0 then x + m else x);
  }

  /** Two 64-bit wrapping subtractions, cut to the width, wrap at the width. */
  lemma WrapsAtWidth(a: nat, b: nat, c: nat, size: nat)
    requires a < Modulus(size) && b < Modulus(size) && c <= 1
    ensures
      WrappingSub(WrappingSub(a, b), c) % Modulus(size) == if a < b + c then a - b - c + Modulus(size) else a - b - c
  {
    var m, d := Modulus(size), a - b;
    var w := WrappingSub(a, b);
    ModOnce(d, TWO64);
    assert w == if d < 0 then d + TWO64 else d;
    var v := WrappingSub(w, c);
    ModOnce(w - c, TWO64);
    assert v == d - c || v == d - c + TWO64;
    var k := TWO64 / m;
    assert TWO64 == k * m && k >= 1;
    WrapCases(v, d - c, m, k);
  }

  lemma WrapCases(v: int, x: int, m: nat, k: nat)
    requires m > 0 && k >= 1 && Fits(x, m) && (v == x || v == x + k * m)
    ensures v % m == if x < 0 then x + m else x
  {
    var r := if x < 0 then x + m else x;
    if v == x {
      ModOnce(x, m);
    } else if x < 0 {
      assert (k - 1) * m == k * m - m;
      Euclid(v, m, k - 1, r);
    } else {
      Euclid(v, m, k, r);
    }
  }

  /** What the condition codes report when CF, ZF and SF against OF report the order of two numbers. */
  ghost predicate Decides(f: Flags, below: bool, less: bool, equal: bool) {
    && (Cond(2, f) <==> below) && (Cond(3, f) <==> !below) && (Cond(4, f) <==> equal) && (Cond(5, f) <==> !equal)
    && (Cond(6, f) <==> below || equal) && (Cond(7, f) <==> !below && !equal)
    && (Cond(12, f) <==> less) && (Cond(13, f) <==> !less)
    && (Cond(14, f) <==> less || equal) && (Cond(15, f) <==> !less && !equal)
  }

  /** After `cmp`, the condition codes decide the order of the operands, unsigned and signed. */
  lemma CompareDecides(a: nat, b: nat, size: nat, cf: bool, of: bool)
    requires a < Modulus(size) && b < Modulus(size)
    ensures
      var f, h := After(Operate(7, a, b, size, cf, of), size), Half(size);
      Decides(f, a < b, Signed(a, h) < Signed(b, h), a == b) && (a == b <==> Signed(a, h) == Signed(b, h))
  {
    var o, h := Operate(7, a, b, size, cf, of), Half(size);
    assert o == Subtract(a, b, 0, size, false);
    SubMeans(a, b, 0, size, false);
    assert a == b <==> Signed(a, h) == Signed(b, h);
    hide Subtract, Modulus, Operate, Signed;
    FlagsDecide(After(o, size), a < b, Signed(a, h) < Signed(b, h), a == b);
  }

  lemma FlagsDecide(f: Flags, below: bool, less: bool, equal: bool)
    requires f.cf == below && f.zf == equal && (f.sf != f.of) == less
    ensures Decides(f, below, less, equal)
  {
  }

  predicate BitAt(v: nat, k: nat) { if k == 0 then v % 2 == 1 else BitAt(v / 2, k - 1) }

  /** `or`, `and` and `xor` work bit by bit. */
  lemma {:induction false} LogicMeans(sel: nat, a: nat, b: nat, n: nat, k: nat)
    requires k < n
    ensures sel == 1 ==> (BitAt(Bitwise(1, a, b, n), k) <==> BitAt(a, k) || BitAt(b, k))
    ensures sel == 4 ==> (BitAt(Bitwise(4, a, b, n), k) <==> BitAt(a, k) && BitAt(b, k))
    ensures sel == 6 ==> (BitAt(Bitwise(6, a, b, n), k) <==> BitAt(a, k) != BitAt(b, k))
    decreases n
  {
    var low, rest := Bit(sel, a % 2, b % 2), Bitwise(sel, a / 2, b / 2, n - 1);
    Euclid(Bitwise(sel, a, b, n), 2, rest, low);
    if k > 0 {
      LogicMeans(sel, a / 2, b / 2, n - 1, k - 1);
    }
  }

  /** `xor` leaves ZF exactly when its operands are equal. */
  lemma {:induction false} XorZero(a: nat, b: nat, n: nat)
    requires a < Pow2(n) && b < Pow2(n)
    ensures Bitwise(6, a, b, n) == 0 <==> a == b
    decreases n
  {
    if n > 0 {
      XorZero(a / 2, b / 2, n - 1);
    }
  }

  // --- the instructions in numbers ------------------------------------------------

  /** Bit `k` is the digit of weight 2^k. */
  lemma {:induction false} BitAtIs(v: nat, k: nat)
    ensures BitAt(v, k) <==> v / Pow2(k) % 2 == 1
    decreases k
  {
    if k > 0 {
      BitAtIs(v / 2, k - 1);
      HalfThen(v, Pow2(k - 1));
    }
  }

  lemma HalfThen(v: nat, p: nat)
    requires p > 0
    ensures v / 2 / p == v / (2 * p)
  {
    var q := v / 2 / p;
    var r1, r2 := v % 2, v / 2 % p;
    assert v == 2 * (p * q + r2) + r1;
    assert 2 * (p * q + r2) == q * (2 * p) + 2 * r2;
    Euclid(v, 2 * p, q, 2 * r2 + r1);
  }

  /** The eight low bits added up. */
  lemma OnesAre(v: nat)
    ensures Ones(v, 8) == v % 2 + v / 2 % 2 + v / 4 % 2 + v / 8 % 2 + v / 16 % 2 + v / 32 % 2 + v / 64 % 2 + v / 128 % 2
  {
    hide Ones;
    FourOnes(v, 4);
    FourOnes(v / 16, 0);
    Sixteenth(v);
    NoOnes(v / 16 / 16);
  }

  lemma FourOnes(v: nat, n: nat)
    ensures Ones(v, n + 4) == v % 2 + v / 2 % 2 + v / 4 % 2 + v / 8 % 2 + Ones(v / 16, n)
  {
    hide Ones;
    OnesStep(v, n + 3);
    OnesStep(v / 2, n + 2);
    OnesStep(v / 4, n + 1);
    OnesStep(v / 8, n);
    assert v / 2 / 2 == v / 4 && v / 4 / 2 == v / 8 && v / 8 / 2 == v / 16;
  }

  lemma OnesStep(v: nat, n: nat)
    ensures Ones(v, n + 1) == v % 2 + Ones(v / 2, n)
  {
  }

  lemma NoOnes(v: nat)
    ensures Ones(v, 0) == 0
  {
  }

  lemma Sixteenth(v: nat)
    ensures v / 16 / 2 == v / 32 && v / 16 / 4 == v / 64 && v / 16 / 8 == v / 128
  {
  }

  /** The flags of a result: ZF for zero, SF for its top bit, PF for an even number of ones in its low byte. */
  lemma ResultFlags(o: Outcome, size: nat)
    requires Width(size) && o.res < Modulus(size)
    ensures
      var f, v, h := After(o, size), o.res, Modulus(size) / 2;
      f.cf == o.cf && f.of == o.of && (f.zf <==> v == 0) && (f.sf <==> v / h % 2 == 1) && (f.sf <==> Signed(v, h) < 0)
    ensures
      var f, v := After(o, size), o.res;
      f.pf <==> (v % 2 + v / 2 % 2 + v / 4 % 2 + v / 8 % 2 + v / 16 % 2 + v / 32 % 2 + v / 64 % 2 + v / 128 % 2) % 2 == 0
  {
    hide Ones, Modulus;
    var v, h := o.res, Half(size);
    OnesAre(v);
    Euclid(v, h, if v >= h then 1 else 0, if v >= h then v - h else v);
  }

  /** The condition codes that read one flag: overflow, sign and parity, each with its negation. */
  lemma SingleFlags(f: Flags)
    ensures (Cond(0, f) <==> f.of) && (Cond(1, f) <==> !f.of) && (Cond(8, f) <==> f.sf) && (Cond(9, f) <==> !f.sf)
    ensures (Cond(10, f) <==> f.pf) && (Cond(11, f) <==> !f.pf)
  {
  }

  /** `add` and `adc`. */
  lemma AddInNumbers(sel: nat, a: nat, b: nat, size: nat, cf: bool, of: bool)
    requires Width(size) && a < Modulus(size) && b < Modulus(size) && (sel == 0 || sel == 2)
    ensures
      var o, m, c := Operate(sel, a, b, size, cf, of), Modulus(size), if sel == 2 && cf then 1 else 0;
      && o.writeback && o.res == (a + b + c) % m && (o.cf <==> a + b + c >= m)
      && (o.of <==> !(-(m / 2) <= Signed(a, m / 2) + Signed(b, m / 2) + c < m / 2))
  {
    AddMeans(a, b, if sel == 2 && cf then 1 else 0, size);
    hide Modulus;
  }

  /** `sbb`, `sub` and `cmp`, which alone keeps its result to itself. */
  lemma SubInNumbers(sel: nat, a: nat, b: nat, size: nat, cf: bool, of: bool)
    requires Width(size) && a < Modulus(size) && b < Modulus(size) && (sel == 3 || sel == 5 || sel == 7)
    ensures
      var o, m, c := Operate(sel, a, b, size, cf, of), Modulus(size), if sel == 3 && cf then 1 else 0;
      && (o.writeback <==> sel != 7) && o.res == (a - b - c) % m && (o.cf <==> a < b + c)
      && (o.of <==> !(-(m / 2) <= Signed(a, m / 2) - Signed(b, m / 2) - c < m / 2))
  {
    var c := if sel == 3 && cf then 1 else 0;
    SubMeans(a, b, c, size, sel != 7);
    hide Modulus, Subtract;
    ModOnce(a - b - c, Modulus(size));
  }

  /** `or`, `and` and `xor`, which clear CF and OF. */
  lemma LogicInNumbers(sel: nat, a: nat, b: nat, size: nat, cf: bool, of: bool, k: nat)
    requires Width(size) && (sel == 1 || sel == 4 || sel == 6) && k < 8 * size
    ensures
      var o, p := Operate(sel, a, b, size, cf, of), Pow2(k);
      var x, y, z := a / p % 2 == 1, b / p % 2 == 1, o.res / p % 2 == 1;
      && o.writeback && !o.cf && !o.of && o.res < Modulus(size)
      && (sel == 1 ==> (z <==> x || y)) && (sel == 4 ==> (z <==> x && y)) && (sel == 6 ==> (z <==> x != y))
  {
    BitwiseFits(sel, a, b, size);
    hide Modulus;
    LogicMeans(sel, a, b, 8 * size, k);
    BitAtIs(a, k);
    BitAtIs(b, k);
    BitAtIs(Bitwise(sel, a, b, 8 * size), k);
    hide BitAt, Bitwise, Pow2;
  }

  // --- numbers of many limbs ------------------------------------------------------

  /** A low limb below a number of higher ones. */
  function Over(m: nat, low: int, high: int): int { low + m * high }

  lemma OverSum(m: nat, a: int, b: int, c: int, r: int, carry: bool, x: int, y: int)
    requires r + (if carry then m else 0) == a + b + c
    ensures Over(m, a, x) + Over(m, b, y) + c == Over(m, r, x + y + Carry(carry))
  {
    assert m * (x + y + Carry(carry)) == m * x + m * y + (if carry then m else 0);
  }

  lemma OverDifference(m: nat, a: int, b: int, c: int, r: int, borrow: bool, x: int, y: int)
    requires r - (if borrow then m else 0) == a - b - c
    ensures Over(m, a, x) - Over(m, b, y) - c == Over(m, r, x - y - Carry(borrow))
  {
    assert m * (x - y - Carry(borrow)) == m * x - m * y - (if borrow then m else 0);
  }

  lemma OverSign(m: nat, r: int, x: int)
    requires 0 <= r < m
    ensures Over(m, r, x) < 0 <==> x < 0
  {
    if x < 0 {
      AtLeastOnce(-x, m);
    }
  }

  lemma OverShift(m: nat, r: int, x: int, p: int)
    ensures Over(m, r, x) - Over(m, 0, p) == Over(m, r, x - p)
    ensures Over(m, r, x) + Over(m, 0, p) == Over(m, r, x + p)
  {
    assert m * (x - p) == m * x - m * p;
    assert m * (x + p) == m * x + m * p;
  }

  lemma OverFits(m: nat, r: int, x: int, p: int)
    requires 0 <= r < m
    ensures Fits(Over(m, r, x), Over(m, 0, p)) <==> Fits(x, p)
  {
    hide Over;
    OverShift(m, r, x, p);
    OverSign(m, r, x - p);
    OverSign(m, r, x + p);
  }

  lemma AddUnder(m: nat, a: int, b: int, c: int, r: int, carry: bool, x: int, y: int, z: int, out: bool, p: int)
    requires r + (if carry then m else 0) == a + b + c && z + (if out then p else 0) == x + y + Carry(carry)
    ensures Over(m, r, z) + (if out then Over(m, 0, p) else 0) == Over(m, a, x) + Over(m, b, y) + c
  {
    hide Over;
    OverSum(m, a, b, c, r, carry, x, y);
    OverShift(m, r, z, p);
  }

  lemma SubUnder(m: nat, a: int, b: int, c: int, r: int, borrow: bool, x: int, y: int, z: int, out: bool, p: int)
    requires r - (if borrow then m else 0) == a - b - c && z - (if out then p else 0) == x - y - Carry(borrow)
    ensures Over(m, r, z) - (if out then Over(m, 0, p) else 0) == Over(m, a, x) - Over(m, b, y) - c
  {
    hide Over;
    OverDifference(m, a, b, c, r, borrow, x, y);
    OverShift(m, r, z, p);
  }

  lemma SumSign(m: nat, a: int, b: int, c: int, r: int, carry: bool, x: int, y: int, p: int)
    requires r + (if carry then m else 0) == a + b + c && 0 <= r < m
    ensures Fits(Over(m, a, x) + Over(m, b, y) + c, Over(m, 0, p)) <==> Fits(x + y + Carry(carry), p)
  {
    hide Over, Fits;
    OverSum(m, a, b, c, r, carry, x, y);
    OverFits(m, r, x + y + Carry(carry), p);
  }

  lemma DifferenceSign(m: nat, a: int, b: int, c: int, r: int, borrow: bool, x: int, y: int, p: int)
    requires r - (if borrow then m else 0) == a - b - c && 0 <= r < m
    ensures Fits(Over(m, a, x) - Over(m, b, y) - c, Over(m, 0, p)) <==> Fits(x - y - Carry(borrow), p)
    ensures Over(m, a, x) - Over(m, b, y) - c < 0 <==> x - y - Carry(borrow) < 0
  {
    hide Over, Fits;
    OverDifference(m, a, b, c, r, borrow, x, y);
    OverFits(m, r, x - y - Carry(borrow), p);
    OverSign(m, r, x - y - Carry(borrow));
  }

  function Pow(base: nat, n: nat): int { if n == 0 then 1 else Over(base, 0, Pow(base, n - 1)) }

  /** The number held in limbs, least significant first. */
  function Number(s: seq<nat>, m: nat): int { if s == [] then 0 else Over(m, s[0], Number(s[1..], m)) }

  /** The same limbs as a two's complement number. */
  function SignedNumber(s: seq<nat>, size: nat): int
    requires s != []
  {
    if |s| == 1 then Signed(s[0], Half(size)) else Over(Modulus(size), s[0], SignedNumber(s[1..], size))
  }

  /** The bound of signed numbers of `n` limbs. */
  function Reach(size: nat, n: nat): int {
    if n <= 1 then Half(size) else Over(Modulus(size), 0, Reach(size, n - 1))
  }

  ghost predicate Limbs(s: seq<nat>, m: nat) { forall k | 0 <= k < |s| :: s[k] < m }

  /** A run of one instruction per limb: `first` on the lowest and `next` on the others, each starting
      from the flags the one before it left. */
  function Chain(first: nat, next: nat, a: seq<nat>, b: seq<nat>, size: nat, f: Flags): (r: (seq<nat>, Flags))
    requires |a| == |b|
    ensures |r.0| == |a|
    decreases |a|
  {
    if a == [] then ([], f)
    else
      var o := Operate(first, a[0], b[0], size, f.cf, f.of);
      var (res, g) := Chain(next, next, a[1..], b[1..], size, After(o, size));
      ([o.res] + res, g)
  }

  /** The carry into the first instruction of a chain. */
  function CarryIn(sel: nat, f: Flags): nat { if sel == 2 || sel == 3 then Carry(f.cf) else 0 }

  lemma ChainStep(first: nat, next: nat, a: seq<nat>, b: seq<nat>, size: nat, f: Flags)
    requires |a| == |b| > 0
    ensures
      var o, r := Operate(first, a[0], b[0], size, f.cf, f.of), Chain(first, next, a, b, size, f);
      var r' := Chain(next, next, a[1..], b[1..], size, After(o, size));
      && r.0[0] == o.res && r.0[1..] == r'.0 && r.1 == r'.1
      && Number(r.0, Modulus(size)) == Over(Modulus(size), o.res, Number(r'.0, Modulus(size)))
      && (|a| == 1 ==> r'.0 == [] && r'.1 == After(o, size) && Number(r'.0, Modulus(size)) == 0)
  {
    hide Operate, After, Modulus, Over;
  }

  lemma AddIs(sel: nat, a: nat, b: nat, size: nat, f: Flags)
    requires sel == 0 || sel == 2
    ensures Operate(sel, a, b, size, f.cf, f.of) == Add(a, b, CarryIn(sel, f), size)
  {
  }

  lemma SubtractIs(sel: nat, a: nat, b: nat, size: nat, f: Flags)
    requires sel == 5 || sel == 3
    ensures Operate(sel, a, b, size, f.cf, f.of) == Subtract(a, b, CarryIn(sel, f), size, true)
  {
  }

  lemma Peel(a: seq<nat>, size: nat, m: nat)
    requires a != [] && m == Modulus(size)
    ensures Number(a, m) == Over(m, a[0], Number(a[1..], m)) && Pow(m, |a|) == Over(m, 0, Pow(m, |a| - 1))
    ensures |a| > 1 ==> SignedNumber(a, size) == Over(m, a[0], SignedNumber(a[1..], size))
    ensures |a| > 1 ==> Reach(size, |a|) == Over(m, 0, Reach(size, |a| - 1))
    ensures |a| == 1 ==> Number(a[1..], m) == 0 && Pow(m, |a| - 1) == 1
    ensures |a| == 1 ==> SignedNumber(a, size) == Signed(a[0], Half(size)) && Reach(size, |a|) == Half(size)
  {
    hide Over, Signed, Modulus, Half;
  }

  lemma LimbsRest(a: seq<nat>, m: nat)
    requires Limbs(a, m) && a != []
    ensures a[0] < m && Limbs(a[1..], m)
  {
  }

  /** `add` then `adc` over any number of limbs is exact addition, CF the carry out. */
  lemma {:induction false} AddChain(first: nat, a: seq<nat>, b: seq<nat>, size: nat, f: Flags)
    requires |a| == |b| > 0 && Limbs(a, Modulus(size)) && Limbs(b, Modulus(size)) && (first == 0 || first == 2)
    ensures
      var r, m, c := Chain(first, 2, a, b, size, f), Modulus(size), CarryIn(first, f);
      Number(r.0, m) + (if r.1.cf then Pow(m, |a|) else 0) == Number(a, m) + Number(b, m) + c
    decreases |a|
  {
    var m, c, a', b' := Modulus(size), CarryIn(first, f), a[1..], b[1..];
    var o := Operate(first, a[0], b[0], size, f.cf, f.of);
    var g := After(o, size);
    hide Modulus, Ones, Add, Chain, Top, Over, Fits, Operate, Number, SignedNumber, Pow, Reach, Signed, Limbs, Half;
    LimbsRest(a, m);
    LimbsRest(b, m);
    AddExact(first, a[0], b[0], size, f);
    ChainStep(first, 2, a, b, size, f);
    Peel(a, size, m);
    Peel(b, size, m);
    if |a| > 1 {
      AddChain(2, a', b', size, g);
    }
    var r' := Chain(2, 2, a', b', size, g);
    AddUnder(m, a[0], b[0], c, o.res, o.cf, Number(a', m), Number(b', m), Number(r'.0, m), r'.1.cf, Pow(m, |a| - 1));
  }

  /** What OF after an addition chain from carry `c` should say. */
  ghost predicate SumFlags(g: Flags, a: seq<nat>, b: seq<nat>, size: nat, c: nat)
    requires |a| == |b| > 0
  {
    g.of <==> !Fits(SignedNumber(a, size) + SignedNumber(b, size) + c, Reach(size, |a|))
  }

  lemma SumOne(first: nat, a: seq<nat>, b: seq<nat>, size: nat, f: Flags)
    requires |a| == |b| == 1 && Limbs(a, Modulus(size)) && Limbs(b, Modulus(size)) && (first == 0 || first == 2)
    ensures SumFlags(Chain(first, 2, a, b, size, f).1, a, b, size, CarryIn(first, f))
  {
    hide Modulus, Ones, Add, Chain, Top, Fits, Operate, SignedNumber, Reach, Signed, Limbs, Half;
    LimbsRest(a, Modulus(size));
    LimbsRest(b, Modulus(size));
    AddMeans(a[0], b[0], CarryIn(first, f), size);
    AddIs(first, a[0], b[0], size, f);
    ChainStep(first, 2, a, b, size, f);
    Peel(a, size, Modulus(size));
    Peel(b, size, Modulus(size));
  }

  lemma SumMany(first: nat, a: seq<nat>, b: seq<nat>, size: nat, f: Flags)
    requires |a| == |b| > 1 && Limbs(a, Modulus(size)) && Limbs(b, Modulus(size)) && (first == 0 || first == 2)
    requires
      var o := Operate(first, a[0], b[0], size, f.cf, f.of);
      SumFlags(Chain(2, 2, a[1..], b[1..], size, After(o, size)).1, a[1..], b[1..], size, Carry(o.cf))
    ensures SumFlags(Chain(first, 2, a, b, size, f).1, a, b, size, CarryIn(first, f))
  {
    var m, c, a', b' := Modulus(size), CarryIn(first, f), a[1..], b[1..];
    var o := Operate(first, a[0], b[0], size, f.cf, f.of);
    hide Modulus, After, Add, Chain, Over, Fits, Operate, SignedNumber, Reach, Limbs, Half, Signed;
    LimbsRest(a, m);
    LimbsRest(b, m);
    AddExact(first, a[0], b[0], size, f);
    ChainStep(first, 2, a, b, size, f);
    Peel(a, size, m);
    Peel(b, size, m);
    SumSign(m, a[0], b[0], c, o.res, o.cf, SignedNumber(a', size), SignedNumber(b', size), Reach(size, |a| - 1));
  }

  lemma AddExact(first: nat, a: nat, b: nat, size: nat, f: Flags)
    requires (first == 0 || first == 2) && a < Modulus(size) && b < Modulus(size)
    ensures
      var o := Operate(first, a, b, size, f.cf, f.of);
      o.res < Modulus(size) && o.res + (if o.cf then Modulus(size) else 0) == a + b + CarryIn(first, f)
  {
    AddMeans(a, b, CarryIn(first, f), size);
    AddIs(first, a, b, size, f);
    hide Modulus, Add, Operate;
  }

  lemma SubExact(first: nat, a: nat, b: nat, size: nat, f: Flags)
    requires (first == 5 || first == 3) && a < Modulus(size) && b < Modulus(size)
    ensures
      var o := Operate(first, a, b, size, f.cf, f.of);
      o.res < Modulus(size) && o.res - (if o.cf then Modulus(size) else 0) == a - b - CarryIn(first, f)
  {
    SubMeans(a, b, CarryIn(first, f), size, true);
    SubtractIs(first, a, b, size, f);
    hide Modulus, Subtract, Operate;
  }

  lemma CarryNext(sel: nat, o: Outcome, size: nat)
    requires sel == 2 || sel == 3
    ensures CarryIn(sel, After(o, size)) == Carry(o.cf)
  {
  }

  /** OF after such a chain says the signed sum does not fit the limbs. */
  lemma {:induction false} AddChainSigned(first: nat, a: seq<nat>, b: seq<nat>, size: nat, f: Flags)
    requires |a| == |b| > 0 && Limbs(a, Modulus(size)) && Limbs(b, Modulus(size)) && (first == 0 || first == 2)
    ensures
      var sum := SignedNumber(a, size) + SignedNumber(b, size) + CarryIn(first, f);
      Chain(first, 2, a, b, size, f).1.of <==> !Fits(sum, Reach(size, |a|))
    decreases |a|
  {
    hide Modulus, After, Chain, Fits, Operate, SignedNumber, Reach, Limbs, CarryIn, Carry;
    if |a| == 1 {
      SumOne(first, a, b, size, f);
    } else {
      var o := Operate(first, a[0], b[0], size, f.cf, f.of);
      LimbsRest(a, Modulus(size));
      LimbsRest(b, Modulus(size));
      AddChainSigned(2, a[1..], b[1..], size, After(o, size));
      CarryNext(2, o, size);
      SumMany(first, a, b, size, f);
    }
  }

  /** `sub` then `sbb` over any number of limbs is exact subtraction, CF the borrow out. */
  lemma {:induction false} SubChain(first: nat, a: seq<nat>, b: seq<nat>, size: nat, f: Flags)
    requires |a| == |b| > 0 && Limbs(a, Modulus(size)) && Limbs(b, Modulus(size)) && (first == 5 || first == 3)
    ensures
      var r, m, c := Chain(first, 3, a, b, size, f), Modulus(size), CarryIn(first, f);
      && Limbs(r.0, m)
      && Number(r.0, m) - (if r.1.cf then Pow(m, |a|) else 0) == Number(a, m) - Number(b, m) - c
    decreases |a|
  {
    var m, c, a', b' := Modulus(size), CarryIn(first, f), a[1..], b[1..];
    var o := Operate(first, a[0], b[0], size, f.cf, f.of);
    var g := After(o, size);
    hide Modulus, Ones, Subtract, Chain, Top, Over, Fits, Operate, Number, SignedNumber, Pow, Reach, Signed, Limbs, Half;
    LimbsRest(a, m);
    LimbsRest(b, m);
    SubExact(first, a[0], b[0], size, f);
    ChainStep(first, 3, a, b, size, f);
    Peel(a, size, m);
    Peel(b, size, m);
    if |a| > 1 {
      SubChain(3, a', b', size, g);
    }
    var r' := Chain(3, 3, a', b', size, g);
    SubUnder(m, a[0], b[0], c, o.res, o.cf, Number(a', m), Number(b', m), Number(r'.0, m), r'.1.cf, Pow(m, |a| - 1));
    LimbsJoin(Chain(first, 3, a, b, size, f).0, m);
  }

  /** What OF and SF after a subtraction chain from borrow `c` should say. */
  ghost predicate DifferenceFlags(g: Flags, a: seq<nat>, b: seq<nat>, size: nat, c: nat)
    requires |a| == |b| > 0
  {
    var diff := SignedNumber(a, size) - SignedNumber(b, size) - c;
    (g.of <==> !Fits(diff, Reach(size, |a|))) && (g.sf != g.of <==> diff < 0)
  }

  lemma DifferenceOne(first: nat, a: seq<nat>, b: seq<nat>, size: nat, f: Flags)
    requires |a| == |b| == 1 && Limbs(a, Modulus(size)) && Limbs(b, Modulus(size)) && (first == 5 || first == 3)
    ensures DifferenceFlags(Chain(first, 3, a, b, size, f).1, a, b, size, CarryIn(first, f))
  {
    hide Modulus, Ones, Subtract, Chain, Top, Fits, Operate, SignedNumber, Reach, Signed, Limbs, Half;
    LimbsRest(a, Modulus(size));
    LimbsRest(b, Modulus(size));
    SubMeans(a[0], b[0], CarryIn(first, f), size, true);
    SubtractIs(first, a[0], b[0], size, f);
    ChainStep(first, 3, a, b, size, f);
    Peel(a, size, Modulus(size));
    Peel(b, size, Modulus(size));
  }

  lemma DifferenceMany(first: nat, a: seq<nat>, b: seq<nat>, size: nat, f: Flags)
    requires |a| == |b| > 1 && Limbs(a, Modulus(size)) && Limbs(b, Modulus(size)) && (first == 5 || first == 3)
    requires
      var o := Operate(first, a[0], b[0], size, f.cf, f.of);
      DifferenceFlags(Chain(3, 3, a[1..], b[1..], size, After(o, size)).1, a[1..], b[1..], size, Carry(o.cf))
    ensures DifferenceFlags(Chain(first, 3, a, b, size, f).1, a, b, size, CarryIn(first, f))
  {
    var m, c, a', b' := Modulus(size), CarryIn(first, f), a[1..], b[1..];
    var o := Operate(first, a[0], b[0], size, f.cf, f.of);
    hide Modulus, After, Subtract, Chain, Over, Fits, Operate, SignedNumber, Reach, Limbs, Half, Signed;
    LimbsRest(a, m);
    LimbsRest(b, m);
    SubExact(first, a[0], b[0], size, f);
    ChainStep(first, 3, a, b, size, f);
    Peel(a, size, m);
    Peel(b, size, m);
    DifferenceSign(m, a[0], b[0], c, o.res, o.cf, SignedNumber(a', size), SignedNumber(b', size), Reach(size, |a| - 1));
  }

  /** OF after such a chain says the signed difference does not fit the limbs, and SF differs from OF
      exactly when it is negative. */
  lemma {:induction false} SubChainSigned(first: nat, a: seq<nat>, b: seq<nat>, size: nat, f: Flags)
    requires |a| == |b| > 0 && Limbs(a, Modulus(size)) && Limbs(b, Modulus(size)) && (first == 5 || first == 3)
    ensures
      var g := Chain(first, 3, a, b, size, f).1;
      var diff := SignedNumber(a, size) - SignedNumber(b, size) - CarryIn(first, f);
      (g.of <==> !Fits(diff, Reach(size, |a|))) && (g.sf != g.of <==> diff < 0)
    decreases |a|
  {
    hide Modulus, After, Chain, Fits, Operate, SignedNumber, Reach, Limbs, CarryIn, Carry;
    if |a| == 1 {
      DifferenceOne(first, a, b, size, f);
    } else {
      var o := Operate(first, a[0], b[0], size, f.cf, f.of);
      LimbsRest(a, Modulus(size));
      LimbsRest(b, Modulus(size));
      SubChainSigned(3, a[1..], b[1..], size, After(o, size));
      CarryNext(3, o, size);
      DifferenceMany(first, a, b, size, f);
    }
  }

  lemma LimbsJoin(a: seq<nat>, m: nat)
    requires a != [] && a[0] < m && (|a| > 1 ==> Limbs(a[1..], m))
    ensures Limbs(a, m)
  {
    assert a == [a[0]] + a[1..];
  }

  lemma {:induction false} NumberBound(s: seq<nat>, m: nat)
    requires m > 0 && Limbs(s, m)
    ensures 0 <= Number(s, m) < Pow(m, |s|)
  {
    hide Over;
    if s != [] {
      NumberBound(s[1..], m);
      var x, p := Number(s[1..], m), Pow(m, |s| - 1);
      OverSign(m, s[0], x);
      OverShift(m, s[0], x, p);
      OverSign(m, s[0], x - p);
    }
  }

  /** A long `sub`/`sbb` compares: CF is unsigned order and SF against OF is signed order. */
  lemma LongCompare(a: seq<nat>, b: seq<nat>, size: nat, f: Flags)
    requires |a| == |b| > 0 && Limbs(a, Modulus(size)) && Limbs(b, Modulus(size))
    ensures
      var g, m := Chain(5, 3, a, b, size, f).1, Modulus(size);
      && (Cond(2, g) <==> Number(a, m) < Number(b, m)) && (Cond(3, g) <==> Number(a, m) >= Number(b, m))
      && (Cond(12, g) <==> SignedNumber(a, size) < SignedNumber(b, size))
      && (Cond(13, g) <==> SignedNumber(a, size) >= SignedNumber(b, size))
  {
    hide Chain, Number, Pow, Modulus, SignedNumber, Limbs, Fits;
    var m, r := Modulus(size), Chain(5, 3, a, b, size, f);
    SubChain(5, a, b, size, f);
    SubChainSigned(5, a, b, size, f);
    NumberBound(r.0, m);
    NumberBound(a, m);
    NumberBound(b, m);
  }
}
