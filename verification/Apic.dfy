/** The local APIC (emu/src/devices.rs) and the injection rule (emu/src/machine.rs): the four-word
    interrupt request register as a set of vectors over every run, and the countdown timer. */
module Apic {
  import opened Bytes
  import opened Wrappers
  import opened Alu

  // --- bits of a word ---------------------------------------------------------------

  /** `w | 1 << k` and `w & !(1 << k)`. */
  function Set(w: nat, k: nat): nat { if BitAt(w, k) then w else w + Pow2(k) }

  function Clear(w: nat, k: nat): nat {
    if BitAt(w, k) then BitWeight(w, k); w - Pow2(k) else w
  }

  lemma {:induction false} BitWeight(w: nat, k: nat)
    requires BitAt(w, k)
    ensures w >= Pow2(k)
    decreases k
  {
    if k > 0 {
      BitWeight(w / 2, k - 1);
    }
  }

  lemma {:induction false} AddBit(w: nat, k: nat, j: nat)
    requires !BitAt(w, k)
    ensures BitAt(w + Pow2(k), j) <==> j == k || BitAt(w, j)
    decreases k
  {
    if k > 0 {
      Euclid(w + Pow2(k), 2, w / 2 + Pow2(k - 1), w % 2);
      if j > 0 {
        AddBit(w / 2, k - 1, j - 1);
      }
    } else {
      Euclid(w + 1, 2, w / 2, 1);
    }
  }

  lemma {:induction false} DropBit(w: nat, k: nat, j: nat)
    requires BitAt(w, k)
    ensures w >= Pow2(k) && (BitAt(w - Pow2(k), j) <==> j != k && BitAt(w, j))
    decreases k
  {
    BitWeight(w, k);
    if k > 0 {
      BitWeight(w / 2, k - 1);
      Euclid(w - Pow2(k), 2, w / 2 - Pow2(k - 1), w % 2);
      if j > 0 {
        DropBit(w / 2, k - 1, j - 1);
      }
    } else {
      Euclid(w - 1, 2, w / 2, 0);
    }
  }

  lemma SetIs(w: nat, k: nat, j: nat)
    ensures BitAt(Set(w, k), j) <==> j == k || BitAt(w, j)
  {
    if !BitAt(w, k) {
      AddBit(w, k, j);
    }
  }

  lemma ClearIs(w: nat, k: nat, j: nat)
    ensures BitAt(Clear(w, k), j) <==> j != k && BitAt(w, j)
  {
    if BitAt(w, k) {
      DropBit(w, k, j);
    }
  }

  /** `63 - leading_zeros`: the number of the highest bit that is on. */
  function HighBit(w: nat): (k: nat)
    requires w > 0
  {
    if w == 1 then 0 else 1 + HighBit(w / 2)
  }

  lemma {:induction false} HighBitIs(w: nat, j: nat)
    requires w > 0
    ensures BitAt(w, HighBit(w)) && (BitAt(w, j) ==> j <= HighBit(w))
    decreases w
  {
    if w == 1 {
      if j > 0 {
        NoBits(j - 1);
      }
    } else {
      HighBitIs(w / 2, if j > 0 then j - 1 else 0);
    }
  }

  lemma {:induction false} NoBits(j: nat)
    ensures !BitAt(0, j)
    decreases j
  {
    if j > 0 {
      NoBits(j - 1);
    }
  }

  lemma {:induction false} SomeBit(w: nat, n: nat)
    requires 0 < w < Pow2(n)
    ensures HighBit(w) < n
    decreases n
  {
    if w > 1 {
      SomeBit(w / 2, n - 1);
    }
  }

  lemma {:induction false} AddFits(w: nat, k: nat, n: nat)
    requires w < Pow2(n) && k < n && !BitAt(w, k)
    ensures w + Pow2(k) < Pow2(n)
    decreases k
  {
    var half, low := w / 2, w % 2;
    assert Pow2(n) == 2 * Pow2(n - 1);
    if k > 0 {
      AddFits(half, k - 1, n - 1);
      var p, q := Pow2(k - 1), Pow2(n - 1);
      hide Pow2, BitAt;
      assert half + p + 1 <= q;
      assert 2 * half + 2 * p + 2 <= 2 * q;
    }
  }

  lemma SetFits(w: nat, k: nat, n: nat)
    requires w < Pow2(n) && k < n
    ensures Set(w, k) < Pow2(n)
  {
    if !BitAt(w, k) {
      AddFits(w, k, n);
    }
  }

  // --- the request register as a set --------------------------------------------------------

  ghost predicate Register(irr: seq<nat>) { |irr| == 4 && forall i {:trigger irr[i]} | 0 <= i < 4 :: irr[i] < Pow2(64) }

  predicate On(irr: seq<nat>, v: nat)
    requires |irr| == 4
  {
    v < 256 && BitAt(irr[v / 64], v % 64)
  }

  ghost function Pending(irr: seq<nat>): set<nat>
    requires |irr| == 4
  {
    set v: nat {:trigger On(irr, v)} | v < 256 && On(irr, v)
  }

  lemma Requested(irr: seq<nat>, v: nat)
    requires Register(irr) && v < 256
    ensures
      var irr' := irr[v / 64 := Set(irr[v / 64], v % 64)];
      Register(irr') && Pending(irr') == Pending(irr) + {v}
  {
    var irr' := irr[v / 64 := Set(irr[v / 64], v % 64)];
    SetFits(irr[v / 64], v % 64, 64);
    hide BitAt, Set, Pow2;
    forall u: nat | u < 256
      ensures On(irr', u) <==> u == v || On(irr, u)
    {
      if u / 64 == v / 64 {
        SetIs(irr[v / 64], v % 64, u % 64);
      }
    }
  }

  lemma Acknowledged(irr: seq<nat>, v: nat)
    requires Register(irr) && v < 256
    ensures
      var irr' := irr[v / 64 := Clear(irr[v / 64], v % 64)];
      Register(irr') && Pending(irr') == Pending(irr) - {v}
  {
    var irr' := irr[v / 64 := Clear(irr[v / 64], v % 64)];
    assert Clear(irr[v / 64], v % 64) <= irr[v / 64];
    hide BitAt, Clear, Pow2;
    forall u: nat | u < 256
      ensures On(irr', u) <==> u != v && On(irr, u)
    {
      if u / 64 == v / 64 {
        ClearIs(irr[v / 64], v % 64, u % 64);
      }
    }
  }

  lemma HighestIn(irr: seq<nat>, w: nat)
    requires Register(irr) && w < 4 && irr[w] > 0 && forall i | w < i < 4 :: irr[i] == 0
    ensures
      var v := w * 64 + HighBit(irr[w]);
      v < 256 && v in Pending(irr) && forall u {:trigger u in Pending(irr)} | u in Pending(irr) :: u <= v
  {
    var k := HighBit(irr[w]);
    SomeBit(irr[w], 64);
    HighBitIs(irr[w], k);
    var v := w * 64 + k;
    Euclid(v, 64, w, k);
    hide HighBit, BitAt, Pow2;
    forall u: nat {:trigger On(irr, u)} | On(irr, u)
      ensures u <= v
    {
      HighBitIs(irr[w], u % 64);
      if u / 64 > w {
        NoBits(u % 64);
      }
    }
  }

  lemma NonePending(irr: seq<nat>)
    requires |irr| == 4 && forall i | 0 <= i < 4 :: irr[i] == 0
    ensures Pending(irr) == {}
  {
    hide BitAt;
    forall v: nat | v < 256
      ensures !On(irr, v)
    {
      NoBits(v % 64);
    }
  }

  // --- what has happened ------------------------------------------------------------------

  /** A vector raised, handed to delivery at the given task priority, or cleared without delivery. */
  datatype Event = Raise(vector: nat) | Deliver(vector: nat, cr8: nat) | Drop(vector: nat)

  ghost function Live(log: seq<Event>): set<nat> {
    if log == [] then {}
    else
      var before, e := Live(log[..|log| - 1]), log[|log| - 1];
      if e.Raise? then before + {e.vector} else before - {e.vector}
  }

  /** Nothing pending outranks `v`, and `v` outranks the task priority. */
  ghost predicate Rightful(live: set<nat>, v: nat, cr8: nat) {
    v in live && v / 16 > cr8 && forall u {:trigger u in live} | u in live :: u <= v
  }

  ghost predicate AllRightful(log: seq<Event>) {
    forall i {:trigger log[i]} | 0 <= i < |log| && log[i].Deliver? :: Rightful(Live(log[..i]), log[i].vector, log[i].cr8)
  }

  lemma LogMore(log: seq<Event>, e: Event)
    requires AllRightful(log) && (e.Deliver? ==> Rightful(Live(log), e.vector, e.cr8))
    ensures AllRightful(log + [e])
    ensures Live(log + [e]) == if e.Raise? then Live(log) + {e.vector} else Live(log) - {e.vector}
  {
    var more := log + [e];
    assert more[..|log|] == log;
    forall i {:trigger more[i]} | 0 <= i < |more| && more[i].Deliver?
      ensures Rightful(Live(more[..i]), more[i].vector, more[i].cr8)
    {
      if i < |log| {
        assert more[i] == log[i] && more[..i] == log[..i];
      } else {
        assert more[..i] == log;
      }
    }
  }

  ghost predicate Since(log: seq<Event>, i: nat, v: nat)
    requires i < |log|
  {
    log[i] == Raise(v) && forall j {:trigger log[j]} | i < j < |log| && !log[j].Raise? :: log[j].vector != v
  }

  /** A vector is pending exactly when it was raised and not delivered or cleared since: none is lost and none
      comes back. */
  lemma {:induction false} LiveIs(log: seq<Event>, v: nat)
    ensures v in Live(log) <==> exists i: nat :: i < |log| && Since(log, i, v)
  {
    if log != [] {
      var n := |log| - 1;
      var before, e := log[..n], log[n];
      LiveIs(before, v);
      if v in Live(log) {
        if e == Raise(v) {
          assert Since(log, n, v);
        } else {
          var i: nat :| i < n && Since(before, i, v);
          SinceMore(log, i, v);
        }
      } else {
        forall i: nat | i < |log|
          ensures !Since(log, i, v)
        {
          if i < n {
            SinceMore(log, i, v);
          }
        }
      }
    }
  }

  lemma SinceMore(log: seq<Event>, i: nat, v: nat)
    requires i < |log| - 1
    ensures
      var n := |log| - 1;
      Since(log, i, v) <==> Since(log[..n], i, v) && (log[n].Raise? || log[n].vector != v)
  {
    var n := |log| - 1;
    var before := log[..n];
    assert forall j | 0 <= j < n :: before[j] == log[j];
    if Since(before, i, v) && (log[n].Raise? || log[n].vector != v) {
      forall j {:trigger log[j]} | i < j < |log| && !log[j].Raise?
        ensures log[j].vector != v
      {
        if j < n {
          assert before[j] == log[j];
        }
      }
    }
    if Since(log, i, v) {
      assert !log[n].Raise? ==> log[n].vector != v;
      forall j {:trigger before[j]} | i < j < n && !before[j].Raise?
        ensures before[j].vector != v
      {
        assert log[j] == before[j];
      }
    }
  }

  // --- the timer ------------------------------------------------------------------------------

  datatype Timer = Timer(lvt: nat, initial: nat, current: nat, divide: nat)

  predicate Masked(t: Timer) { t.lvt / 0x1_0000 % 2 == 1 }

  predicate Periodic(t: Timer) { t.lvt / 0x2_0000 % 2 == 1 }

  predicate Armed(t: Timer) { !Masked(t) && t.initial != 0 }

  function Vector(t: Timer): nat { t.lvt % 256 }

  /** The divisor encoded in bits 0, 1 and 3 of the divide configuration. */
  function Divisor(t: Timer): (d: nat)
    ensures d > 0
  {
    var e := t.divide % 4 + t.divide / 8 % 2 * 4;
    match e
    case 0 => 2
    case 1 => 4
    case 2 => 8
    case 3 => 16
    case 4 => 32
    case 5 => 64
    case 6 => 128
    case _ => 1
  }

  /** The encoding counts powers of two upwards from 2, with 1 after 128. */
  lemma DivisorIsPower(t: Timer)
    ensures Divisor(t) == Pow2((t.divide % 4 + t.divide / 8 % 2 * 4 + 1) % 8)
  {
    assert Pow2(1) == 2 && Pow2(2) == 4 && Pow2(3) == 8;
    assert Pow2(4) == 2 * Pow2(3) && Pow2(5) == 2 * Pow2(4) && Pow2(6) == 2 * Pow2(5) && Pow2(7) == 2 * Pow2(6);
  }

  function Fired(t: Timer): Timer {
    if Periodic(t) then t.(current := t.initial) else t.(current := 0, initial := 0)
  }

  /** One tick: the timer after it, and whether it fired. */
  function Ticked(t: Timer, cycles: nat): (Timer, bool) {
    var dec := cycles / Divisor(t);
    if !Armed(t) || dec == 0 then (t, false)
    else if t.current > dec then (t.(current := t.current - dec), false)
    else (Fired(t), true)
  }

  /** Some ticks of the same length: the timer after them, and how often it fired. */
  function Ticks(t: Timer, cycles: nat, k: nat): (Timer, nat) {
    if k == 0 then (t, 0)
    else
      var (u, n) := Ticks(t, cycles, k - 1);
      var (v, fired) := Ticked(u, cycles);
      (v, if fired then n + 1 else n)
  }

  /** `n / d` rounded up. */
  function Ceil(n: nat, d: nat): nat
    requires d > 0
  {
    if n % d == 0 then n / d else n / d + 1
  }

  /** `p` decrements by `d` are the fewest that use up `n`. */
  ghost predicate Period(n: nat, d: nat, p: nat) { d > 0 && p > 0 && n <= p * d < n + d }

  lemma CeilIs(n: nat, d: nat)
    requires n > 0 && d > 0
    ensures Period(n, d, Ceil(n, d))
  {
    var q, r := n / d, n % d;
    assert n == q * d + r;
    assert (q + 1) * d == q * d + d;
    PeriodPositive(n, d, Ceil(n, d));
  }

  /** The timer `r` decrements by `d` after it was loaded. */
  function Counted(t: Timer, d: nat, r: nat): Timer {
    t.(current := if r * d <= t.initial then t.initial - r * d else 0)
  }

  /** A periodic timer that each tick moves down by `d`, in periods of `p` ticks. */
  ghost predicate Running(t: Timer, cycles: nat, d: nat, p: nat) {
    Armed(t) && Periodic(t) && d == cycles / Divisor(t) > 0 && Period(t.initial, d, p)
  }

  /** Tick `r` of a period of `p`. */
  lemma TickInPeriod(t: Timer, cycles: nat, d: nat, p: nat, r: nat)
    requires Running(t, cycles, d, p) && r < p
    ensures Ticked(Counted(t, d, r), cycles) == (Counted(t, d, if r + 1 < p then r + 1 else 0), r + 1 >= p)
  {
    hide Divisor, Armed, Periodic, Ticked;
    PeriodStep(t.initial, d, p, r);
    TickedIs(t, cycles, t.initial - r * d);
  }

  lemma TickedIs(t: Timer, cycles: nat, left: nat)
    requires Armed(t) && Periodic(t) && cycles / Divisor(t) > 0
    ensures
      var d := cycles / Divisor(t);
      Ticked(t.(current := left), cycles)
      == if left > d then (t.(current := left - d), false) else (t.(current := t.initial), true)
  {
    assert Divisor(t.(current := left)) == Divisor(t);
    hide Divisor;
  }

  /** Counting `k` in periods of `p`: whole periods and the rest. */
  function Phase(k: nat, p: nat): (nat, nat) {
    if k == 0 then (0, 0)
    else
      var (q, r) := Phase(k - 1, p);
      if r + 1 < p then (q, r + 1) else (q + 1, 0)
  }

  lemma PhaseStep(k: nat, p: nat)
    ensures Phase(0, p) == (0, 0)
    ensures k > 0 ==>
      var r := Phase(k - 1, p).1;
      Phase(k, p) == (if r + 1 < p then (Phase(k - 1, p).0, r + 1) else (Phase(k - 1, p).0 + 1, 0))
  {
  }

  lemma {:induction false} PhaseIs(k: nat, p: nat)
    requires p > 0
    ensures Phase(k, p) == (k / p, k % p)
    decreases k
  {
    if k == 0 {
      Euclid(0, p, 0, 0);
    } else {
      PhaseIs(k - 1, p);
      DivNext(k - 1, p);
    }
  }

  lemma DivNext(k: nat, p: nat)
    requires p > 0
    ensures
      var q, r := k / p, k % p;
      r < p && (k + 1) / p == (if r + 1 < p then q else q + 1) && (k + 1) % p == (if r + 1 < p then r + 1 else 0)
  {
    var q, r := k / p, k % p;
    assert k == p * q + r;
    assert (q + 1) * p == q * p + p;
    if r + 1 < p {
      Euclid(k + 1, p, q, r + 1);
    } else {
      Euclid(k + 1, p, q + 1, 0);
    }
  }

  lemma RunningStart(t: Timer, cycles: nat, d: nat, p: nat)
    requires Running(t, cycles, d, p) && t.current == t.initial
    ensures p > 0 && Counted(t, d, 0) == t
  {
  }

  lemma {:induction false} FiresByPhase(t: Timer, cycles: nat, d: nat, p: nat, k: nat)
    requires Running(t, cycles, d, p) && t.current == t.initial
    ensures Phase(k, p).1 < p && Ticks(t, cycles, k) == (Counted(t, d, Phase(k, p).1), Phase(k, p).0)
    decreases k
  {
    hide Running, Counted, Ticked, Ticks, Phase;
    RunningStart(t, cycles, d, p);
    TicksStep(t, cycles, k);
    PhaseStep(k, p);
    if k > 0 {
      FiresByPhase(t, cycles, d, p, k - 1);
      TickInPeriod(t, cycles, d, p, Phase(k - 1, p).1);
    }
  }

  lemma TicksStep(t: Timer, cycles: nat, k: nat)
    ensures Ticks(t, cycles, 0) == (t, 0)
    ensures k > 0 ==>
      var (u, n) := Ticks(t, cycles, k - 1);
      Ticks(t, cycles, k) == (Ticked(u, cycles).0, if Ticked(u, cycles).1 then n + 1 else n)
  {
    hide Ticked;
  }

  /** A periodic timer just loaded with `n`, ticking down by `d` at a time, has fired exactly
      `k / ceil(n / d)` times after `k` ticks. */
  lemma PeriodicFires(t: Timer, cycles: nat, k: nat)
    requires Armed(t) && Periodic(t) && t.current == t.initial && cycles / Divisor(t) > 0
    ensures
      var d := cycles / Divisor(t);
      var p := Ceil(t.initial, d);
      p > 0 && Ticks(t, cycles, k) == (Counted(t, d, k % p), k / p)
  {
    var d := cycles / Divisor(t);
    var p := Ceil(t.initial, d);
    CeilIs(t.initial, d);
    assert p > 0;
    hide Divisor, Ceil, Counted, Armed, Periodic, Ticks, Period;
    FiresByPhase(t, cycles, d, p, k);
    hide Phase;
    PhaseIs(k, p);
  }

  /** The fields of the timer register: the vector in its low byte, masked by bit 16, periodic by bit 17. */
  lemma TimerBits(t: Timer)
    ensures Vector(t) == t.lvt % 256 && (Armed(t) <==> t.lvt / 65536 % 2 == 0 && t.initial != 0)
    ensures Periodic(t) <==> t.lvt / 131072 % 2 == 1
    ensures Fired(t) == if t.lvt / 131072 % 2 == 1 then t.(current := t.initial) else t.(current := 0, initial := 0)
  {
  }

  /** A one-shot timer just loaded with `n`, ticking down by `d` at a time, fires once, at tick `ceil(n / d)`, and is
      then off for ever. */
  lemma {:induction false} OneShotFires(t: Timer, cycles: nat, k: nat)
    requires Armed(t) && !Periodic(t) && t.current == t.initial && cycles / Divisor(t) > 0
    ensures
      var d := cycles / Divisor(t);
      var p := Ceil(t.initial, d);
      p > 0 && Ticks(t, cycles, k) == if k < p then (Counted(t, d, k), 0) else (t.(current := 0, initial := 0), 1)
    decreases k
  {
    hide Divisor, Ceil, Armed, Periodic, Ticked, Ticks, Counted, Period;
    var d := cycles / Divisor(t);
    var p := Ceil(t.initial, d);
    CeilAt(t, d);
    TicksStep(t, cycles, k);
    Uncounted(t, d);
    if k > 0 {
      OneShotFires(t, cycles, k - 1);
      if k - 1 < p {
        OneShotNext(t, cycles, d, p, k - 1);
      } else {
        OffStays(t, cycles);
      }
    }
  }

  lemma CeilAt(t: Timer, d: nat)
    requires Armed(t) && d > 0
    ensures Period(t.initial, d, Ceil(t.initial, d)) && Ceil(t.initial, d) > 0
  {
    CeilIs(t.initial, d);
  }

  lemma OneShotNext(t: Timer, cycles: nat, d: nat, p: nat, r: nat)
    requires Armed(t) && !Periodic(t) && d == cycles / Divisor(t) > 0 && Period(t.initial, d, p) && r < p
    ensures Ticked(Counted(t, d, r), cycles)
         == if r + 1 < p then (Counted(t, d, r + 1), false) else (t.(current := 0, initial := 0), true)
  {
    hide Divisor, Armed, Periodic, Ticked;
    PeriodStep(t.initial, d, p, r);
    OneShotTick(t, cycles, t.initial - r * d);
    if r + 1 < p {
      PeriodStep(t.initial, d, p, r + 1);
    }
  }

  lemma Uncounted(t: Timer, d: nat)
    requires t.current == t.initial
    ensures Counted(t, d, 0) == t
  {
  }

  lemma OneShotTick(t: Timer, cycles: nat, left: nat)
    requires Armed(t) && !Periodic(t) && cycles / Divisor(t) > 0
    ensures
      var d := cycles / Divisor(t);
      Ticked(t.(current := left), cycles)
      == if left > d then (t.(current := left - d), false) else (t.(current := 0, initial := 0), true)
  {
    assert Divisor(t.(current := left)) == Divisor(t);
    hide Divisor;
  }

  lemma OffStays(t: Timer, cycles: nat)
    ensures Ticked(t.(current := 0, initial := 0), cycles) == (t.(current := 0, initial := 0), false)
  {
  }

  lemma PeriodPositive(n: nat, d: nat, p: nat)
    requires n > 0 && d > 0 && n <= p * d
    ensures p > 0
  {
  }

  lemma PeriodStep(n: nat, d: nat, p: nat, r: nat)
    requires d > 0 && n <= p * d < n + d && r < p
    ensures r + 1 < p <==> n - r * d > d
    ensures (r + 1) * d == r * d + d && 0 * d == 0
    ensures r * d < n
  {
    assert (p - r) * d == p * d - r * d;
    if r + 1 < p {
      AtLeastOnce(p - r - 1, d);
      assert (p - r - 1) * d == (p - r) * d - d;
    }
    AtLeastOnce(p - r, d);
  }

  /** Any timer, periodic or one-shot, is left alone for ever exactly when it is not armed or the ticks are
      shorter than its divisor; a machine that ticks once an instruction moves it only if the divisor is 1. */
  lemma {:induction false} ShortTicksNeverFire(t: Timer, cycles: nat, k: nat)
    ensures (forall j: nat {:trigger Ticks(t, cycles, j)} | j <= k :: Ticks(t, cycles, j) == (t, 0))
       <==> !Armed(t) || cycles < Divisor(t) || k == 0
    decreases k
  {
    hide Divisor, Armed;
    if !Armed(t) || cycles < Divisor(t) {
      if cycles < Divisor(t) {
        Euclid(cycles, Divisor(t), 0, cycles);
      }
      StaysPut(t, cycles, k);
    } else if k > 0 {
      AtLeastDivisor(cycles, Divisor(t));
      assert Ticks(t, cycles, 0) == (t, 0);
      assert Ticks(t, cycles, 1) != (t, 0);
    }
  }

  /** The timer as the kernel programs it, dividing by 16, in a machine that ticks one cycle at a time. */
  lemma KernelTimerNeverFires(k: nat)
    ensures
      var t := Timer(0x2_00D1, 62500, 62500, 3);
      Armed(t) && Periodic(t) && Divisor(t) == 16 && Ticks(t, 1, k) == (t, 0)
  {
    var t := Timer(0x2_00D1, 62500, 62500, 3);
    assert Armed(t) && Periodic(t) && Divisor(t) == 16;
    hide Armed, Periodic, Divisor, Ticked;
    ShortTicksNeverFire(t, 1, k);
  }

  lemma AtLeastDivisor(a: nat, d: nat)
    requires a >= d > 0
    ensures a / d > 0
  {
    assert a == d * (a / d) + a % d;
  }

  lemma {:induction false} StaysPut(t: Timer, cycles: nat, k: nat)
    requires !Armed(t) || cycles / Divisor(t) == 0
    ensures forall j: nat {:trigger Ticks(t, cycles, j)} | j <= k :: Ticks(t, cycles, j) == (t, 0)
  {
    hide Divisor, Armed;
    if k > 0 {
      StaysPut(t, cycles, k - 1);
    }
  }

  // --- the device -------------------------------------------------------------------------------

  ghost predicate Agrees(irr: seq<nat>, log: seq<Event>) {
    Register(irr) && Pending(irr) == Live(log) && AllRightful(log)
  }

  lemma RequestKeeps(irr: seq<nat>, log: seq<Event>, v: nat)
    requires Agrees(irr, log) && v < 256
    ensures |irr| == 4 && v / 64 < 4 && Agrees(irr[v / 64 := Set(irr[v / 64], v % 64)], log + [Raise(v)])
  {
    Requested(irr, v);
    LogMore(log, Raise(v));
    hide Register, Pending, Live, AllRightful, Set;
  }

  lemma AckKeeps(irr: seq<nat>, log: seq<Event>, v: nat, e: Event)
    requires Agrees(irr, log) && v < 256 && !e.Raise? && e.vector == v
    requires e.Deliver? ==> Rightful(Live(log), v, e.cr8)
    ensures |irr| == 4 && v / 64 < 4 && Agrees(irr[v / 64 := Clear(irr[v / 64], v % 64)], log + [e])
  {
    Acknowledged(irr, v);
    LogMore(log, e);
    hide Register, Pending, Live, AllRightful, Clear;
  }

  class Apic {
    var timer: Timer
    const irr: array<nat>
    ghost var log: seq<Event>

    /** The register holds what has been raised and not delivered since, and every delivery was due. */
    ghost predicate Valid()
      reads this, irr
    {
      Agrees(irr[..], log)
    }

    constructor ()
      ensures Valid() && log == [] && fresh(irr) && timer == Timer(0, 0, 0, 0)
    {
      irr := new nat[4](_ => 0);
      timer, log := Timer(0, 0, 0, 0), [];
      new;
      NonePending(irr[..]);
    }

    method Write(w: nat, word: nat)
      requires w < irr.Length
      modifies irr
      ensures irr[..] == old(irr[..])[w := word]
    {
      irr[w] := word;
    }

    method Request(v: nat)
      requires Valid() && v < 256
      modifies irr, this`log
      ensures Valid() && log == old(log) + [Raise(v)]
    {
      RequestKeeps(irr[..], log, v);
      hide Agrees, Set;
      Write(v / 64, Set(irr[v / 64], v % 64));
      log := log + [Raise(v)];
    }

    /** Clears any vector; `due` is the task priority if this is a delivery. */
    method Ack(v: nat, ghost due: Option<nat>)
      requires Valid() && v < 256 && (due.Some? ==> Rightful(Live(log), v, due.value))
      modifies irr, this`log
      ensures Valid() && log == old(log) + [if due.Some? then Deliver(v, due.value) else Drop(v)]
    {
      ghost var e := if due.Some? then Deliver(v, due.value) else Drop(v);
      AckKeeps(irr[..], log, v, e);
      hide Agrees, Clear, Rightful, Live;
      Write(v / 64, Clear(irr[v / 64], v % 64));
      log := log + [e];
    }

    /** The greatest pending vector. */
    method HighestPending() returns (r: Option<nat>)
      requires Valid()
      ensures r.None? <==> Live(log) == {}
      ensures r.Some? ==> r.value < 256 && r.value in Live(log) && forall u {:trigger u in Live(log)} | u in Live(log) :: u <= r.value
    {
      hide Live, AllRightful, HighBit, BitAt, Pow2;
      var word := 4;
      while word > 0
        invariant word <= 4 && forall i | word <= i < 4 :: irr[i] == 0
      {
        word := word - 1;
        if irr[word] != 0 {
          HighestIn(irr[..], word);
          return Some(word * 64 + HighBit(irr[word]));
        }
      }
      NonePending(irr[..]);
      r := None;
    }

    method FireTimer() returns (v: nat)
      requires Valid()
      modifies irr, this
      ensures Valid() && v == Vector(old(timer)) && timer == Fired(old(timer)) && log == old(log) + [Raise(v)]
    {
      hide Agrees, Live;
      v := timer.lvt % 256;
      if Periodic(timer) {
        timer := timer.(current := timer.initial);
      } else {
        timer := timer.(current := 0, initial := 0);
      }
      Request(v);
    }

    method Tick(cycles: nat) returns (r: Option<nat>)
      requires Valid()
      modifies irr, this
      ensures Valid() && timer == Ticked(old(timer), cycles).0 && r.Some? == Ticked(old(timer), cycles).1
      ensures r.Some? ==> r.value == Vector(old(timer))
      ensures log == if r.Some? then old(log) + [Raise(r.value)] else old(log)
    {
      hide Agrees, Live, Divisor, Masked, Vector, Fired;
      r := None;
      if Masked(timer) || timer.initial == 0 {
        return;
      }
      var dec := cycles / Divisor(timer);
      if dec == 0 {
        return;
      }
      if timer.current > dec {
        timer := timer.(current := timer.current - dec);
        return;
      }
      var v := FireTimer();
      r := Some(v);
    }

    method Expire() returns (r: Option<nat>)
      requires Valid()
      modifies irr, this
      ensures Valid() && r.Some? == Armed(old(timer))
      ensures timer == if r.Some? then Fired(old(timer)) else old(timer)
      ensures r.Some? ==> r.value == Vector(old(timer))
      ensures log == if r.Some? then old(log) + [Raise(r.value)] else old(log)
    {
      hide Agrees, Live, Masked, Vector, Fired;
      r := None;
      if Masked(timer) || timer.initial == 0 {
        return;
      }
      var v := FireTimer();
      r := Some(v);
    }

    /** `service_pending_irq`: hand the greatest pending vector to delivery if interrupts are enabled and
        it outranks the task priority. A refusal changes nothing, and means that interrupts are off or
        that no pending vector outranks the priority. */
    method Service(enabled: bool, cr8: nat) returns (r: Option<nat>)
      requires Valid()
      modifies irr, this`log
      ensures Valid()
      ensures r.Some? ==> enabled && Rightful(Live(old(log)), r.value, cr8) && log == old(log) + [Deliver(r.value, cr8)]
      ensures r.None? ==> log == old(log) && irr[..] == old(irr[..])
      ensures r.None? && enabled ==> forall u {:trigger u in Live(log)} | u in Live(log) :: u / 16 <= cr8
    {
      hide Agrees, Live;
      r := None;
      if !enabled {
        return;
      }
      var top := HighestPending();
      if top.Some? {
        if top.value / 16 > cr8 {
          Ack(top.value, Some(cr8));
          return top;
        }
      }
    }
  }
}
