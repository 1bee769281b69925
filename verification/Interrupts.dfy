/** Interrupt delivery and return (emu/src/lib.rs): `push64`, `pop64`, `deliver_interrupt` and `iretq`,
    and the stack discipline they make together over every run. */
module Interrupts {
  import opened Bytes
  import opened Wrappers

  /** What delivery reads besides the registers: the descriptor table, the task register, the boot kernel
      stack, and where supervisor accesses lead. */
  datatype Config = Config(idtrBase: u64, trBase: u64, tssRsp0: u64, view: map<u64, nat>)

  datatype State = State(rip: u64, rflags: u64, rsp: u64, cpl: nat, mem: seq<byte>)

  function Add(a: u64, d: int): u64 { (a + d) % TWO64 }

  predicate Can(c: Config, a: u64, len: nat) { a in c.view && c.view[a] + 8 <= len }

  function Load(c: Config, mem: seq<byte>, a: u64): Option<u64> {
    if Can(c, a, |mem|) then Some(Get64(mem, c.view[a])) else None
  }

  /** RSP moves even when the store fails. */
  function Push(c: Config, s: State, v: u64): (r: (bool, State))
    ensures |r.1.mem| == |s.mem|
  {
    var a := Add(s.rsp, -8);
    if Can(c, a, |s.mem|) then (true, s.(rsp := a, mem := Put64(s.mem, c.view[a], v)))
    else (false, s.(rsp := a))
  }

  function PushAll(c: Config, s: State, vs: seq<u64>): (r: (bool, State))
    ensures |r.1.mem| == |s.mem|
    decreases |vs|
  {
    if vs == [] then (true, s)
    else
      var (ok, t) := Push(c, s, vs[0]);
      if ok then PushAll(c, t, vs[1..]) else (false, t)
  }

  function Pop(c: Config, s: State): (Option<u64>, State) {
    match Load(c, s.mem, s.rsp)
    case None => (None, s)
    case Some(v) => (Some(v), s.(rsp := Add(s.rsp, 8)))
  }

  function Or(o: Option<u64>, v: u64): u64 { if o.Some? then o.value else v }

  function CsFor(cpl: nat): u64 { if cpl == 3 then 0x33 else 0x08 }

  function SsFor(cpl: nat): u64 { if cpl == 3 then 0x2B else 0x10 }

  // --- gates ---------------------------------------------------------------------

  function Selector(lo: u64): nat { lo / 0x1_0000 % 0x1_0000 }

  function TypeAttr(lo: u64): nat { lo / 0x100_0000_0000 % 0x100 }

  function Offset(lo: u64, hi: u64): u64 {
    lo % 0x1_0000 + lo / 0x1_0000_0000_0000 % 0x1_0000 * 0x1_0000 + hi % 0x1_0000_0000 * 0x1_0000_0000
  }

  const IF: nat := 0x200

  function ClearIf(rflags: u64): u64 { if rflags / IF % 2 == 1 then rflags - IF else rflags }

  function KernelStack(c: Config, mem: seq<byte>): u64 {
    if c.trBase != 0 then Or(Load(c, mem, Add(c.trBase, 4)), c.tssRsp0) else c.tssRsp0
  }

  /** What is pushed, first to last. */
  function Pushed(s: State, error: Option<u64>): seq<u64> {
    [SsFor(s.cpl), s.rsp, s.rflags, CsFor(s.cpl), s.rip] + (if error.Some? then [error.value] else [])
  }

  function Gate(c: Config, mem: seq<byte>, vector: nat): (Option<u64>, Option<u64>) {
    (Load(c, mem, Add(c.idtrBase, vector * 16)), Load(c, mem, Add(c.idtrBase, vector * 16 + 8)))
  }

  predicate Present(lo: u64) { TypeAttr(lo) >= 0x80 }

  /** The state the frame is pushed from: ring 0, and the kernel stack if the privilege level drops. */
  function Entered(c: Config, s: State, target: nat): State {
    s.(cpl := 0, rsp := if target < s.cpl then KernelStack(c, s.mem) else s.rsp)
  }

  function Deliver(c: Config, s: State, vector: nat, error: Option<u64>): (r: (bool, State))
    ensures |r.1.mem| == |s.mem|
  {
    var (lo, hi) := Gate(c, s.mem, vector);
    if lo.None? || hi.None? || !Present(lo.value) then (false, s.(cpl := 0))
    else
      var target := Selector(lo.value) % 4;
      var (ok, t) := PushAll(c, Entered(c, s, target), Pushed(s, error));
      if !ok then (false, t)
      else
        var flags := if TypeAttr(lo.value) % 16 == 0xE then ClearIf(t.rflags) else t.rflags;
        (true, t.(cpl := target, rip := Offset(lo.value, hi.value), rflags := flags))
  }

  function Iretq(c: Config, s: State): (bool, State) {
    var (rip, s1) := Pop(c, s);
    if rip.None? then (false, s)
    else
      var (cs, s2) := Pop(c, s1);
      var (rflags, s3) := Pop(c, s2);
      var (rsp, s4) := Pop(c, s3);
      var (ss, s5) := Pop(c, s4);
      (true, State(rip.value, Or(rflags, s.rflags), Or(rsp, s4.rsp), Or(cs, 0) % 4, s.mem))
  }

  // --- saved frames -----------------------------------------------------------------

  /** A frame on the stack: the address of its RIP slot and what was interrupted. */
  datatype Frame = Frame(at: u64, rip: u64, rflags: u64, rsp: u64, cpl: nat)

  /** The slots of a frame from its lowest address up. */
  function Slots(f: Frame): (s: seq<u64>)
    ensures |s| == 5
  {
    [f.rip, CsFor(f.cpl), f.rflags, f.rsp, SsFor(f.cpl)]
  }

  ghost predicate SlotHolds(c: Config, mem: seq<byte>, at: u64, k: nat, v: u64) {
    Load(c, mem, Add(at, 8 * k)) == Some(v)
  }

  ghost predicate Intact(c: Config, mem: seq<byte>, f: Frame) {
    forall k {:trigger SlotHolds(c, mem, f.at, k, Slots(f)[k])} | 0 <= k < 5 :: SlotHolds(c, mem, f.at, k, Slots(f)[k])
  }

  /** `iretq` with RSP at an intact frame resumes what the frame says was interrupted. */
  lemma IretqResumes(c: Config, s: State, f: Frame)
    requires Intact(c, s.mem, f) && s.rsp == f.at && (f.cpl == 0 || f.cpl == 3)
    ensures Iretq(c, s) == (true, State(f.rip, f.rflags, f.rsp, f.cpl, s.mem))
  {
    var v := Slots(f);
    assert SlotHolds(c, s.mem, f.at, 0, v[0]) && SlotHolds(c, s.mem, f.at, 1, v[1]) && SlotHolds(c, s.mem, f.at, 2, v[2]);
    assert SlotHolds(c, s.mem, f.at, 3, v[3]) && SlotHolds(c, s.mem, f.at, 4, v[4]);
    hide Load, Add, Slots;
    SlotValues(f);
    AddAdd(f.at, 0, 8);
    AddAdd(f.at, 8, 8);
    AddAdd(f.at, 16, 8);
    AddAdd(f.at, 24, 8);
  }

  lemma SlotValues(f: Frame)
    requires f.cpl == 0 || f.cpl == 3
    ensures var v := Slots(f);
      |v| == 5 && v[0] == f.rip && v[1] % 4 == f.cpl && v[2] == f.rflags && v[3] == f.rsp
  {
  }

  lemma AddAdd(a: u64, d: int, e: int)
    ensures Add(a, 0) == a && Add(Add(a, d), e) == Add(a, d + e)
  {
    var q, r := (a + d + e) / TWO64, (a + d + e) % TWO64;
    Euclid((a + d) % TWO64 + e, TWO64, q - (a + d) / TWO64, r);
  }

  // --- what pushing does ------------------------------------------------------------------

  /** The address of push `j` from the stack top `top`. */
  function Below(top: u64, j: nat): u64 { Add(top, -8 * (j + 1)) }

  lemma BelowNext(top: u64, j: nat)
    ensures Below(Below(top, 0), j) == Below(top, j + 1)
  {
    AddAdd(top, -8, -8 * (j + 1));
  }

  ghost predicate Apart(p: nat, q: nat) { p + 8 <= q || q + 8 <= p }

  ghost predicate Clear(c: Config, a: u64, p: nat) { a in c.view ==> Apart(c.view[a], p) }

  /** The physical word at `p` is none of the next `n` slots. */
  ghost predicate Spared(c: Config, top: u64, n: nat, p: nat) {
    forall j {:trigger Below(top, j)} | 0 <= j < n :: Clear(c, Below(top, j), p)
  }

  /** The next `n` slots are different words of physical memory. */
  ghost predicate Separate(c: Config, top: u64, n: nat) {
    forall i, j {:trigger Below(top, i), Below(top, j)} | 0 <= i < j < n ::
      Below(top, i) in c.view ==> Clear(c, Below(top, j), c.view[Below(top, i)])
  }

  lemma SparedRest(c: Config, top: u64, n: nat, p: nat)
    requires n > 0 && Spared(c, top, n, p)
    ensures Spared(c, Below(top, 0), n - 1, p) && Clear(c, Below(top, 0), p)
  {
    forall j {:trigger Below(Below(top, 0), j)} | 0 <= j < n - 1
      ensures Clear(c, Below(Below(top, 0), j), p)
    {
      BelowNext(top, j);
    }
  }

  lemma SeparateRest(c: Config, top: u64, n: nat)
    requires n > 0 && Separate(c, top, n)
    ensures Separate(c, Below(top, 0), n - 1)
    ensures Below(top, 0) in c.view ==> Spared(c, Below(top, 0), n - 1, c.view[Below(top, 0)])
  {
    hide Below, Clear;
    forall j: nat
      ensures Below(Below(top, 0), j) == Below(top, j + 1)
    {
      BelowNext(top, j);
    }
  }

  lemma PutApart(mem: seq<byte>, q: nat, v: u64, p: nat)
    requires q + 8 <= |mem| && p + 8 <= |mem| && Apart(q, p)
    ensures Get64(Put64(mem, q, v), p) == Get64(mem, p)
  {
    Get64Frame(mem, Put64(mem, q, v), p);
  }

  /** Pushing changes no word outside its slots. */
  lemma {:induction false} PushAllSpares(c: Config, s: State, vs: seq<u64>, p: nat)
    requires p + 8 <= |s.mem| && Spared(c, s.rsp, |vs|, p)
    ensures Get64(PushAll(c, s, vs).1.mem, p) == Get64(s.mem, p)
    decreases |vs|
  {
    if vs != [] {
      SparedRest(c, s.rsp, |vs|, p);
      var (ok, t) := Push(c, s, vs[0]);
      if ok {
        PutApart(s.mem, c.view[t.rsp], vs[0], p);
        hide Get64, Put64, Spared;
        PushAllSpares(c, t, vs[1..], p);
      }
    }
  }

  /** When all pushes succeed, RSP is below the last and every slot holds its value. */
  lemma {:induction false} PushAllHolds(c: Config, s: State, vs: seq<u64>, j: nat)
    requires PushAll(c, s, vs).0 && Separate(c, s.rsp, |vs|) && j < |vs|
    ensures var t := PushAll(c, s, vs).1;
      t == s.(rsp := Below(s.rsp, |vs| - 1), mem := t.mem) && Load(c, t.mem, Below(s.rsp, j)) == Some(vs[j])
    decreases |vs|
  {
    var (ok, t) := Push(c, s, vs[0]);
    SeparateRest(c, s.rsp, |vs|);
    assert t.rsp == Below(s.rsp, 0);
    hide Separate, Spared, Get64, Put64;
    if |vs| > 1 {
      BelowNext(s.rsp, |vs| - 2);
      PushAllHolds(c, t, vs[1..], if j > 0 then j - 1 else 0);
    }
    if j == 0 {
      PushAllSpares(c, t, vs[1..], c.view[t.rsp]);
      Get64Put64(s.mem, c.view[t.rsp], vs[0]);
    } else {
      BelowNext(s.rsp, j - 1);
    }
  }

  // --- deliveries and returns over a whole run -----------------------------------------------

  /** The stack top the frame is pushed from. */
  function Top(c: Config, s: State, vector: nat): u64 {
    var lo := Gate(c, s.mem, vector).0;
    if lo.None? then s.rsp else Entered(c, s, Selector(lo.value) % 4).rsp
  }

  function FrameOf(c: Config, s: State, vector: nat): Frame {
    Frame(Below(Top(c, s, vector), 4), s.rip, s.rflags, s.rsp, s.cpl)
  }

  /** The words of frame `f` are none of the next `n` slots. */
  ghost predicate FrameSpared(c: Config, top: u64, n: nat, f: Frame) {
    forall k {:trigger Add(f.at, 8 * k)} | 0 <= k < 5 ::
      Add(f.at, 8 * k) in c.view ==> Spared(c, top, n, c.view[Add(f.at, 8 * k)])
  }

  lemma SlotIndex(top: u64, k: nat)
    requires k < 5
    ensures Add(Below(top, 4), 8 * k) == Below(top, 4 - k)
  {
    AddAdd(top, -40, 8 * k);
  }

  lemma LoadSpared(c: Config, s: State, vs: seq<u64>, a: u64)
    requires Can(c, a, |s.mem|) && Spared(c, s.rsp, |vs|, c.view[a])
    ensures Load(c, PushAll(c, s, vs).1.mem, a) == Load(c, s.mem, a)
  {
    PushAllSpares(c, s, vs, c.view[a]);
  }

  lemma PushAllKeepsFrame(c: Config, s: State, vs: seq<u64>, f: Frame)
    requires Intact(c, s.mem, f) && FrameSpared(c, s.rsp, |vs|, f)
    ensures Intact(c, PushAll(c, s, vs).1.mem, f)
  {
    forall k | 0 <= k < 5
      ensures SlotHolds(c, PushAll(c, s, vs).1.mem, f.at, k, Slots(f)[k])
    {
      assert SlotHolds(c, s.mem, f.at, k, Slots(f)[k]);
      hide PushAll, Spared, Add;
      LoadSpared(c, s, vs, Add(f.at, 8 * k));
    }
  }

  lemma PushedIs(s: State, error: Option<u64>, f: Frame, k: nat)
    requires f.rip == s.rip && f.rflags == s.rflags && f.rsp == s.rsp && f.cpl == s.cpl && k < 5
    ensures |Pushed(s, error)| == (if error.Some? then 6 else 5) && Pushed(s, error)[4 - k] == Slots(f)[k]
  {
  }

  lemma PushAllMakesFrame(c: Config, s: State, s0: State, error: Option<u64>, f: Frame)
    requires PushAll(c, s, Pushed(s0, error)).0 && Separate(c, s.rsp, |Pushed(s0, error)|)
    requires f == Frame(Below(s.rsp, 4), s0.rip, s0.rflags, s0.rsp, s0.cpl)
    ensures Intact(c, PushAll(c, s, Pushed(s0, error)).1.mem, f)
  {
    var vs := Pushed(s0, error);
    hide Slots, Pushed, Separate;
    forall k | 0 <= k < 5
      ensures SlotHolds(c, PushAll(c, s, vs).1.mem, f.at, k, Slots(f)[k])
    {
      PushedIs(s0, error, f, k);
      hide PushAll;
      PushAllHolds(c, s, vs, 4 - k);
      SlotIndex(s.rsp, k);
    }
  }

  /** A successful delivery. */
  lemma DeliverIs(c: Config, s: State, vector: nat, error: Option<u64>)
    requires Deliver(c, s, vector, error).0
    ensures
      var lo := Gate(c, s.mem, vector).0;
      && lo.Some?
      && var target := Selector(lo.value) % 4;
      && var e := Entered(c, s, target);
      && e.rsp == Top(c, s, vector) && e.mem == s.mem && PushAll(c, e, Pushed(s, error)).0
      && Deliver(c, s, vector, error).1.mem == PushAll(c, e, Pushed(s, error)).1.mem
      && Deliver(c, s, vector, error).1.cpl == target
  {
    hide PushAll, Pushed, Load, TypeAttr, Selector, Offset, ClearIf, KernelStack;
  }

  datatype Event =
    | Interrupt(vector: nat, error: Option<u64>)
    | Return
    | Work(next: State)

  ghost predicate AllIntact(c: Config, mem: seq<byte>, stack: seq<Frame>) {
    forall i {:trigger stack[i]} | 0 <= i < |stack| :: Intact(c, mem, stack[i])
  }

  /** What the hardware and the handlers promise at each event: an interrupt is delivered, through a
      present ring-0 gate, to slots that are different words and hold no live frame; a handler returns
      with RSP at the frame that started it (an error code has been popped); and whatever code runs in
      between leaves the live frames as they are. */
  ghost predicate Legal(c: Config, s: State, stack: seq<Frame>, e: Event) {
    match e
    case Interrupt(vector, error) =>
      && (s.cpl == 0 || s.cpl == 3) && Deliver(c, s, vector, error).0 && Deliver(c, s, vector, error).1.cpl == 0
      && var n := |Pushed(s, error)|;
      && Separate(c, Top(c, s, vector), n)
      && forall i {:trigger stack[i]} | 0 <= i < |stack| :: FrameSpared(c, Top(c, s, vector), n, stack[i])
    case Return => stack != [] && s.rsp == stack[|stack| - 1].at
    case Work(t) => AllIntact(c, t.mem, stack)
  }

  function Next(c: Config, s: State, e: Event): State {
    match e
    case Interrupt(vector, error) => Deliver(c, s, vector, error).1
    case Return => Iretq(c, s).1
    case Work(t) => t
  }

  function NextStack(c: Config, s: State, stack: seq<Frame>, e: Event): seq<Frame> {
    match e
    case Interrupt(vector, error) => stack + [FrameOf(c, s, vector)]
    case Return => if stack == [] then [] else stack[..|stack| - 1]
    case Work(t) => stack
  }

  ghost predicate Rings(stack: seq<Frame>) {
    forall i {:trigger stack[i]} | 0 <= i < |stack| :: stack[i].cpl == 0 || stack[i].cpl == 3
  }

  lemma InterruptKeeps(c: Config, s: State, stack: seq<Frame>, vector: nat, error: Option<u64>)
    requires AllIntact(c, s.mem, stack) && Legal(c, s, stack, Interrupt(vector, error))
    ensures AllIntact(c, Deliver(c, s, vector, error).1.mem, stack + [FrameOf(c, s, vector)])
  {
    DeliverIs(c, s, vector, error);
    var entered := Entered(c, s, Selector(Gate(c, s.mem, vector).0.value) % 4);
    var f, stack' := FrameOf(c, s, vector), stack + [FrameOf(c, s, vector)];
    hide Deliver, PushAll, Pushed, Entered, Intact, FrameSpared, Separate, Below, Gate, Top;
    PushAllMakesFrame(c, entered, s, error, f);
    forall i | 0 <= i < |stack'|
      ensures Intact(c, Deliver(c, s, vector, error).1.mem, stack'[i])
    {
      if i < |stack| {
        assert stack'[i] == stack[i];
        PushAllKeepsFrame(c, entered, Pushed(s, error), stack[i]);
      }
    }
  }

  /** Every event keeps the live frames intact; a return resumes the frame on top. */
  lemma EventKeeps(c: Config, s: State, stack: seq<Frame>, e: Event)
    requires AllIntact(c, s.mem, stack) && Rings(stack) && Legal(c, s, stack, e)
    ensures AllIntact(c, Next(c, s, e).mem, NextStack(c, s, stack, e)) && Rings(NextStack(c, s, stack, e))
    ensures e.Return? ==>
      var f := stack[|stack| - 1];
      Iretq(c, s) == (true, State(f.rip, f.rflags, f.rsp, f.cpl, s.mem))
  {
    if e.Interrupt? {
      InterruptKeeps(c, s, stack, e.vector, e.error);
    } else if e.Return? {
      var f := stack[|stack| - 1];
      hide Iretq, Intact;
      assert Intact(c, s.mem, f);
      IretqResumes(c, s, f);
    }
    hide Deliver, Iretq, Intact, FrameSpared, Separate, Top, Pushed;
  }

  // --- the kernel's gates ---------------------------------------------------------------------

  /** The two halves of the gate installed for a handler, present and an interrupt gate: the kernel's own
      table uses the selector 0x10, the one the machine sets up 0x08. */
  function GateLow(handler: u64, selector: nat, ist: nat): u64
    requires selector < 0x1_0000
  {
    handler % 0x1_0000 + selector * 0x1_0000 + ist % 8 * 0x1_0000_0000 + 0x8E * 0x100_0000_0000
    + handler / 0x1_0000 % 0x1_0000 * 0x1_0000_0000_0000
  }

  function GateHigh(handler: u64): u64 { handler / 0x1_0000_0000 }

  lemma GateFields(a: nat, b: nat, c: nat, d: nat, e: nat)
    requires a < 0x1_0000 && b < 0x1_0000 && c < 0x100 && d < 0x100 && e < 0x1_0000
    ensures
      var lo := a + b * 0x1_0000 + c * 0x1_0000_0000 + d * 0x100_0000_0000 + e * 0x1_0000_0000_0000;
      && lo < TWO64 && lo % 0x1_0000 == a && Selector(lo) == b && TypeAttr(lo) == d && lo / 0x1_0000_0000_0000 == e
  {
    var lo := a + b * 0x1_0000 + c * 0x1_0000_0000 + d * 0x100_0000_0000 + e * 0x1_0000_0000_0000;
    var q := b + c * 0x1_0000 + d * 0x100_0000 + e * 0x1_0000_0000;
    Euclid(lo, 0x1_0000, q, a);
    Euclid(q, 0x1_0000, c + d * 0x100 + e * 0x1_0000, b);
    var r := a + b * 0x1_0000 + c * 0x1_0000_0000;
    Euclid(lo, 0x100_0000_0000, d + e * 0x100, r);
    Euclid(d + e * 0x100, 0x100, e, d);
    Euclid(lo, 0x1_0000_0000_0000, e, r + d * 0x100_0000_0000);
  }

  /** The emulator reads such a gate as a present interrupt gate to that very handler. */
  lemma GateDecodes(handler: u64, selector: nat, ist: nat)
    requires selector < 0x1_0000
    ensures
      var lo, hi := GateLow(handler, selector, ist), GateHigh(handler);
      Present(lo) && Selector(lo) == selector && TypeAttr(lo) % 16 == 0xE && Offset(lo, hi) == handler
  {
    var a, e, h := handler % 0x1_0000, handler / 0x1_0000 % 0x1_0000, handler / 0x1_0000_0000;
    var lo, hi := GateLow(handler, selector, ist), GateHigh(handler);
    GateFields(a, selector, ist % 8, 0x8E, e);
    HandlerParts(handler);
    assert lo % 0x1_0000 == a && lo / 0x1_0000_0000_0000 == e && hi == h;
    hide Selector, TypeAttr, GateLow, GateHigh;
    OffsetJoins(lo, hi, a, e, h);
  }

  lemma HandlerParts(handler: u64)
    ensures
      var a, e, h := handler % 0x1_0000, handler / 0x1_0000 % 0x1_0000, handler / 0x1_0000_0000;
      handler == a + e * 0x1_0000 + h * 0x1_0000_0000 && h < 0x1_0000_0000
  {
  }

  lemma OffsetJoins(lo: u64, hi: u64, a: nat, e: nat, h: nat)
    requires lo % 0x1_0000 == a && lo / 0x1_0000_0000_0000 == e < 0x1_0000 && hi == h < 0x1_0000_0000
    ensures Offset(lo, hi) == a + e * 0x1_0000 + h * 0x1_0000_0000
  {
    Euclid(e, 0x1_0000, 0, e);
    Euclid(h, 0x1_0000_0000, 0, h);
  }

  /** Where a successful delivery arrives: at the handler, with RSP at the last word pushed (the error code
      if there is one), and with IF off exactly for an interrupt gate or if it was off before. */
  lemma DeliverEnters(c: Config, s: State, vector: nat, error: Option<u64>)
    requires Deliver(c, s, vector, error).0
    ensures
      var (lo, hi) := Gate(c, s.mem, vector);
      && lo.Some? && hi.Some? && Present(lo.value)
      && var t, n := Deliver(c, s, vector, error).1, if error.Some? then 6 else 5;
      && t.rip == Offset(lo.value, hi.value) && t.cpl == Selector(lo.value) % 4
      && t.rflags == (if TypeAttr(lo.value) % 16 == 0xE then ClearIf(s.rflags) else s.rflags)
      && (Separate(c, Top(c, s, vector), n) ==>
            t.rsp == Below(Top(c, s, vector), n - 1) && (error.Some? ==> Load(c, t.mem, t.rsp) == Some(error.value)))
  {
    DeliverIs(c, s, vector, error);
    var e := Entered(c, s, Selector(Gate(c, s.mem, vector).0.value) % 4);
    var vs, n := Pushed(s, error), if error.Some? then 6 else 5;
    assert |vs| == n && (error.Some? ==> vs[5] == error.value);
    hide Pushed, Load, TypeAttr, Selector, Offset, ClearIf, KernelStack, Below, PushAll;
    FlagsKept(c, e, vs);
    if Separate(c, e.rsp, n) {
      PushAllHolds(c, e, vs, n - 1);
    }
    hide Separate;
  }

  lemma {:induction false} FlagsKept(c: Config, s: State, vs: seq<u64>)
    ensures PushAll(c, s, vs).1.rflags == s.rflags
    decreases |vs|
  {
    hide Put64;
    if vs != [] {
      FlagsKept(c, Push(c, s, vs[0]).1, vs[1..]);
    }
  }

  lemma ClearIfIs(rflags: u64)
    ensures ClearIf(rflags) / IF % 2 == 0 && ClearIf(rflags) % IF == rflags % IF
    ensures ClearIf(rflags) / (2 * IF) == rflags / (2 * IF)
  {
    var q, r := rflags / IF, rflags % IF;
    if q % 2 == 1 {
      Euclid(rflags - IF, IF, q - 1, r);
      Euclid(rflags - IF, 2 * IF, q / 2, r);
      Euclid(rflags, 2 * IF, q / 2, r + IF);
    }
  }

  // --- a delivery in numbers (Intel SDM Vol. 3A section 6.14) ---------------------------------------

  /** The word at an address, taken modulo 2^64, can be reached and is `v`. */
  ghost predicate WordIs(c: Config, mem: seq<byte>, a: int, v: nat) {
    var x := a % TWO64;
    x in c.view && c.view[x] + 8 <= |mem| && Get64(mem, c.view[x]) == v
  }

  ghost predicate Reachable(c: Config, mem: seq<byte>, a: int) {
    var x := a % TWO64;
    x in c.view && c.view[x] + 8 <= |mem|
  }

  /** The stack the frame goes to: the interrupted one if the privilege does not rise, else RSP0 of the task
      segment if it is loaded and can be read, else the one the machine was started with. */
  ghost predicate IsStack(c: Config, s: State, lo: nat, top: nat) {
    if lo / 0x1_0000 % 4 >= s.cpl then top == s.rsp
    else if c.trBase != 0 && Reachable(c, s.mem, c.trBase + 4) then WordIs(c, s.mem, c.trBase + 4, top)
    else top == c.tssRsp0
  }

  /** The `n` words below `top` can be reached and are different words of memory. */
  ghost predicate Room(c: Config, mem: seq<byte>, top: u64, n: nat) {
    && (forall j: nat {:trigger Below(top, j)} | j < n :: Reachable(c, mem, top - 8 * (j + 1)))
    && Separate(c, top, n)
  }

  /** The frame, from the word below the top down: SS, RSP, RFLAGS, CS, RIP, and the error code if there is one. */
  ghost predicate FrameAt(c: Config, mem: seq<byte>, top: u64, s: State, error: Option<u64>) {
    && WordIs(c, mem, top - 8, if s.cpl == 3 then 0x2B else 0x10) && WordIs(c, mem, top - 16, s.rsp)
    && WordIs(c, mem, top - 24, s.rflags) && WordIs(c, mem, top - 32, if s.cpl == 3 then 0x33 else 0x08)
    && WordIs(c, mem, top - 40, s.rip) && (error.Some? ==> WordIs(c, mem, top - 48, error.value))
  }

  lemma LoadIs(c: Config, mem: seq<byte>, a: u64, d: int, v: u64)
    ensures WordIs(c, mem, a + d, v) <==> Load(c, mem, Add(a, d)) == Some(v)
    ensures Reachable(c, mem, a + d) <==> Load(c, mem, Add(a, d)).Some?
  {
    hide Get64;
  }

  lemma LowBits(x: nat)
    ensures (x % 256 >= 128 <==> x / 128 % 2 == 1) && x % 256 % 16 == x % 16
  {
    var q, r := x / 256, x % 256;
    Euclid(x, 128, 2 * q + r / 128, r % 128);
    Euclid(2 * q + r / 128, 2, q, r / 128);
    Euclid(x, 16, 16 * q + r / 16, r % 16);
  }

  lemma LowTwo(y: nat)
    ensures y % 0x1_0000 % 4 == y % 4
  {
    var q, r := y / 0x1_0000, y % 0x1_0000;
    Euclid(y, 4, q * 0x4000 + r / 4, r % 4);
  }

  lemma Shifted(lo: nat)
    ensures lo / 0x8000_0000_0000 == lo / 0x100_0000_0000 / 128
  {
    var x, r := lo / 0x100_0000_0000, lo % 0x100_0000_0000;
    Euclid(lo, 0x8000_0000_0000, x / 128, x % 128 * 0x100_0000_0000 + r);
  }

  lemma GateBits(lo: u64)
    ensures Present(lo) <==> lo / 0x8000_0000_0000 % 2 == 1
    ensures Selector(lo) % 4 == lo / 0x1_0000 % 4 && TypeAttr(lo) % 16 == lo / 0x100_0000_0000 % 16
  {
    Shifted(lo);
    LowBits(lo / 0x100_0000_0000);
    LowTwo(lo / 0x1_0000);
  }

  lemma StackIs(c: Config, s: State, lo: u64, top: u64)
    requires IsStack(c, s, lo, top)
    ensures Entered(c, s, Selector(lo) % 4) == s.(cpl := 0, rsp := top)
  {
    GateBits(lo);
    LoadIs(c, s.mem, c.trBase, 4, top);
    hide Load, Selector, Get64, WordIs, Reachable, Add, TypeAttr;
  }

  /** Pushes that find room succeed, and leave RSP below the last. */
  lemma {:induction false} PushAllGoes(c: Config, s: State, vs: seq<u64>)
    requires forall j: nat {:trigger Below(s.rsp, j)} | j < |vs| :: Can(c, Below(s.rsp, j), |s.mem|)
    ensures PushAll(c, s, vs).0 && PushAll(c, s, vs).1.rsp == if vs == [] then s.rsp else Below(s.rsp, |vs| - 1)
    ensures
      var t := PushAll(c, s, vs).1;
      t == s.(rsp := t.rsp, mem := t.mem)
    decreases |vs|
  {
    hide Put64, Can, Below;
    if vs != [] {
      assert Below(s.rsp, 0) == Add(s.rsp, -8) by { BelowFirst(s.rsp); }
      var (ok, t) := Push(c, s, vs[0]);
      forall j: nat {:trigger Below(t.rsp, j)} | j < |vs| - 1
        ensures Can(c, Below(t.rsp, j), |t.mem|)
      {
        BelowNext(s.rsp, j);
        assert Can(c, Below(s.rsp, j + 1), |s.mem|);
      }
      PushAllGoes(c, t, vs[1..]);
      if |vs| > 1 {
        BelowNext(s.rsp, |vs| - 2);
      }
    }
  }

  lemma BelowFirst(top: u64)
    ensures Below(top, 0) == Add(top, -8)
  {
  }

  /** A present gate and room on the stack: the frame is written, and the handler entered at the gate's
      privilege with RSP at the last word and IF off for an interrupt gate. */
  lemma DeliveryInNumbers(c: Config, s: State, vector: nat, error: Option<u64>, lo: u64, hi: u64, top: u64)
    requires WordIs(c, s.mem, c.idtrBase + vector * 16, lo) && WordIs(c, s.mem, c.idtrBase + (vector * 16 + 8), hi)
    requires lo / 0x8000_0000_0000 % 2 == 1 && IsStack(c, s, lo, top) && Room(c, s.mem, top, if error.Some? then 6 else 5)
    ensures
      var (ok, t) := Deliver(c, s, vector, error);
      && ok && t.cpl == lo / 0x1_0000 % 4 && t.rsp == (top - (if error.Some? then 48 else 40)) % TWO64
      && t.rip == lo % 0x1_0000 + lo / 0x1_0000_0000_0000 % 0x1_0000 * 0x1_0000 + hi % 0x1_0000_0000 * 0x1_0000_0000
      && t.rflags == s.rflags - (if lo / 0x100_0000_0000 % 16 == 14 && s.rflags / 512 % 2 == 1 then 512 else 0)
      && FrameAt(c, t.mem, top, s, error)
  {
    hide Load, Selector, TypeAttr, Get64, WordIs, IsStack, Pushed, PushAll, KernelStack, Add, Entered, Room, Below, FrameAt, Present;
    LoadIs(c, s.mem, c.idtrBase, vector * 16, lo);
    LoadIs(c, s.mem, c.idtrBase, vector * 16 + 8, hi);
    GateBits(lo);
    StackIs(c, s, lo, top);
    PushedAre(s, error);
    var vs, n := Pushed(s, error), if error.Some? then 6 else 5;
    var e := s.(cpl := 0, rsp := top);
    RoomToPush(c, s.mem, top, n);
    PushAllGoes(c, e, vs);
    FrameWritten(c, e, s, error);
    BelowIs(top, n);
  }

  lemma BelowIs(top: u64, n: nat)
    requires n > 0
    ensures Below(top, n - 1) == (top - 8 * n) % TWO64
  {
  }

  lemma RoomToPush(c: Config, mem: seq<byte>, top: u64, n: nat)
    requires Room(c, mem, top, n)
    ensures Separate(c, top, n) && forall j: nat {:trigger Below(top, j)} | j < n :: Can(c, Below(top, j), |mem|)
  {
    hide Separate;
    forall j: nat {:trigger Below(top, j)} | j < n
      ensures Can(c, Below(top, j), |mem|)
    {
      BelowIs(top, j + 1);
      assert Below(top, j) == (top - 8 * (j + 1)) % TWO64;
      assert Reachable(c, mem, top - 8 * (j + 1));
    }
  }

  lemma PushedAre(s: State, error: Option<u64>)
    ensures
      var vs := Pushed(s, error);
      && |vs| == (if error.Some? then 6 else 5) && vs[0] == (if s.cpl == 3 then 0x2B else 0x10) && vs[1] == s.rsp
      && vs[2] == s.rflags && vs[3] == (if s.cpl == 3 then 0x33 else 0x08) && vs[4] == s.rip
      && (error.Some? ==> vs[5] == error.value)
  {
  }

  lemma FrameWritten(c: Config, e: State, s: State, error: Option<u64>)
    requires
      var vs := Pushed(s, error);
      PushAll(c, e, vs).0 && Separate(c, e.rsp, |vs|)
    ensures FrameAt(c, PushAll(c, e, Pushed(s, error)).1.mem, e.rsp, s, error)
  {
    hide PushAll, Pushed, Separate, WordIs;
    PushedAre(s, error);
    var vs := Pushed(s, error);
    SlotWritten(c, e, vs, 0);
    SlotWritten(c, e, vs, 1);
    SlotWritten(c, e, vs, 2);
    SlotWritten(c, e, vs, 3);
    SlotWritten(c, e, vs, 4);
    if error.Some? {
      SlotWritten(c, e, vs, 5);
    }
  }

  lemma SlotWritten(c: Config, e: State, vs: seq<u64>, j: nat)
    requires PushAll(c, e, vs).0 && Separate(c, e.rsp, |vs|) && j < |vs|
    ensures WordIs(c, PushAll(c, e, vs).1.mem, e.rsp - 8 * (j + 1), vs[j])
  {
    hide PushAll, Separate, Load;
    PushAllHolds(c, e, vs, j);
    LoadIs(c, PushAll(c, e, vs).1.mem, e.rsp, -8 * (j + 1), vs[j]);
  }

  /** A gate that cannot be read, or is not present, leaves everything but the privilege, which stays 0. */
  lemma NoGate(c: Config, s: State, vector: nat, error: Option<u64>, lo: u64)
    requires
      || !Reachable(c, s.mem, c.idtrBase + vector * 16) || !Reachable(c, s.mem, c.idtrBase + (vector * 16 + 8))
      || (WordIs(c, s.mem, c.idtrBase + vector * 16, lo) && lo / 0x8000_0000_0000 % 2 == 0)
    ensures Deliver(c, s, vector, error) == (false, s.(cpl := 0))
  {
    hide Load, WordIs, Present, Add, Selector, TypeAttr, Reachable, Get64, Deliver;
    LoadIs(c, s.mem, c.idtrBase, vector * 16, lo);
    LoadIs(c, s.mem, c.idtrBase, vector * 16 + 8, 0);
    GateBits(lo);
    NotDelivered(c, s, vector, error);
  }

  lemma NotDelivered(c: Config, s: State, vector: nat, error: Option<u64>)
    requires
      var lo, hi := Load(c, s.mem, Add(c.idtrBase, vector * 16)), Load(c, s.mem, Add(c.idtrBase, vector * 16 + 8));
      !(lo.Some? && hi.Some? && Present(lo.value))
    ensures Deliver(c, s, vector, error) == (false, s.(cpl := 0))
  {
    hide Load, Add, Present, Selector, PushAll;
  }

  /** The words an `iretq` can read, up to five, from RSP on. */
  ghost predicate Words(c: Config, s: State, ws: seq<u64>) {
    && |ws| <= 5
    && (forall j {:trigger ws[j]} | 0 <= j < |ws| :: WordIs(c, s.mem, s.rsp + 8 * j, ws[j]))
    && (|ws| < 5 ==> !Reachable(c, s.mem, s.rsp + 8 * |ws|))
  }

  /** `iretq` with any number of readable words: the first is needed, a missing CS is 0, missing RFLAGS stay, and a
      missing RSP is where the reading stopped. */
  lemma IretqInNumbers(c: Config, s: State, ws: seq<u64>)
    requires Words(c, s, ws)
    ensures Iretq(c, s) ==
      if ws == [] then (false, s)
      else (true, State(ws[0], if |ws| > 2 then ws[2] else s.rflags, if |ws| > 3 then ws[3] else (s.rsp + 8 * |ws|) % TWO64,
                        if |ws| > 1 then ws[1] % 4 else 0, s.mem))
  {
    hide Load, Add, WordIs, Reachable;
    WordLoads(c, s, ws, 0);
    WordLoads(c, s, ws, 1);
    WordLoads(c, s, ws, 2);
    WordLoads(c, s, ws, 3);
    WordLoads(c, s, ws, 4);
    AddIs(s.rsp, |ws|);
    hide Words;
    AddAdd(s.rsp, 0, 8);
    AddAdd(s.rsp, 8, 8);
    AddAdd(s.rsp, 16, 8);
    AddAdd(s.rsp, 24, 8);
  }

  function Word(ws: seq<u64>, j: nat): Option<u64> { if j < |ws| then Some(ws[j]) else None }

  lemma AddIs(a: u64, k: nat)
    ensures Add(a, 8 * k) == (a + 8 * k) % TWO64
  {
  }

  lemma WordLoads(c: Config, s: State, ws: seq<u64>, j: nat)
    requires Words(c, s, ws) && j < 5
    ensures j <= |ws| ==> Load(c, s.mem, Add(s.rsp, 8 * j)) == Word(ws, j)
  {
    LoadIs(c, s.mem, s.rsp, 8 * j, if j < |ws| then ws[j] else 0);
    hide Load, Add;
  }

  // --- runs -----------------------------------------------------------------------------------

  ghost predicate LegalRun(c: Config, s: State, stack: seq<Frame>, es: seq<Event>)
    decreases |es|
  {
    es != [] ==>
      Legal(c, s, stack, es[0]) && LegalRun(c, Next(c, s, es[0]), NextStack(c, s, stack, es[0]), es[1..])
  }

  function Last(c: Config, s: State, es: seq<Event>): State
    decreases |es|
  {
    if es == [] then s else Last(c, Next(c, s, es[0]), es[1..])
  }

  function LastStack(c: Config, s: State, stack: seq<Frame>, es: seq<Event>): seq<Frame>
    decreases |es|
  {
    if es == [] then stack else LastStack(c, Next(c, s, es[0]), NextStack(c, s, stack, es[0]), es[1..])
  }

  /** As many returns as interrupts, and never more returns than interrupts before them. */
  predicate Balanced(depth: nat, es: seq<Event>)
    decreases |es|
  {
    if es == [] then depth == 0
    else match es[0]
      case Interrupt(_, _) => Balanced(depth + 1, es[1..])
      case Return => depth > 0 && Balanced(depth - 1, es[1..])
      case Work(_) => Balanced(depth, es[1..])
  }

  /** Over a balanced stretch of any length and nesting, the frames below it stay as they were. */
  lemma {:induction false} BalancedKeeps(c: Config, s: State, stack: seq<Frame>, depth: nat, es: seq<Event>)
    requires AllIntact(c, s.mem, stack) && Rings(stack) && LegalRun(c, s, stack, es)
    requires Balanced(depth, es) && depth <= |stack|
    ensures LastStack(c, s, stack, es) == stack[..|stack| - depth]
    ensures AllIntact(c, Last(c, s, es).mem, stack[..|stack| - depth])
    decreases |es|
  {
    hide Intact, AllIntact, Rings, Legal, Next;
    if es == [] {
      assert stack[..|stack|] == stack;
    } else {
      var s', stack' := Next(c, s, es[0]), NextStack(c, s, stack, es[0]);
      EventKeeps(c, s, stack, es[0]);
      var depth' := match es[0] case Interrupt(_, _) => depth + 1 case Return => depth - 1 case Work(_) => depth;
      BalancedKeeps(c, s', stack', depth', es[1..]);
      assert stack'[..|stack'| - depth'] == stack[..|stack| - depth];
    }
  }

  /** Last in, first out: an interrupt, any balanced stretch of handler code and nested interrupts, and
      the matching return restore RIP, RFLAGS, RSP and the privilege level, also from ring 3 by way of
      the kernel stack. */
  lemma Lifo(c: Config, s: State, stack: seq<Frame>, vector: nat, error: Option<u64>, mid: seq<Event>)
    requires AllIntact(c, s.mem, stack) && Rings(stack) && Balanced(0, mid)
    requires LegalRun(c, s, stack, [Interrupt(vector, error)] + mid)
    requires
      var s1 := Deliver(c, s, vector, error).1;
      Legal(c, Last(c, s1, mid), LastStack(c, s1, stack + [FrameOf(c, s, vector)], mid), Return)
    ensures
      var s2 := Last(c, Deliver(c, s, vector, error).1, mid);
      Iretq(c, s2) == (true, s.(mem := s2.mem)) && AllIntact(c, s2.mem, stack)
  {
    var e := Interrupt(vector, error);
    var s1, stack1 := Next(c, s, e), stack + [FrameOf(c, s, vector)];
    hide Intact, AllIntact, Rings, Deliver, Iretq, Top, Below, Separate, FrameSpared;
    assert ([e] + mid)[1..] == mid;
    EventKeeps(c, s, stack, e);
    BalancedKeeps(c, s1, stack1, 0, mid);
    assert stack1[..|stack1|] == stack1;
    var s2 := Last(c, s1, mid);
    EventKeeps(c, s2, stack1, Return);
    AllIntactPrefix(c, s2.mem, stack1, stack);
  }

  lemma AllIntactPrefix(c: Config, mem: seq<byte>, more: seq<Frame>, stack: seq<Frame>)
    requires AllIntact(c, mem, more) && stack <= more
    ensures AllIntact(c, mem, stack)
  {
    forall i | 0 <= i < |stack|
      ensures Intact(c, mem, stack[i])
    {
      assert more[i] == stack[i];
    }
  }

  // --- a flat kernel stack --------------------------------------------------------------------

  /** The stack between `lo` and `hi` is mapped in one piece. */
  ghost predicate Flat(c: Config, lo: u64, hi: u64, off: int) {
    forall a: u64 {:trigger a in c.view} | lo <= a < hi && a in c.view :: c.view[a] == a + off
  }

  lemma FlatBelow(top: u64, j: nat)
    requires 8 * (j + 1) <= top
    ensures Below(top, j) == top - 8 * (j + 1)
  {
    Euclid(top - 8 * (j + 1), TWO64, 0, top - 8 * (j + 1));
  }

  lemma FlatAdd(a: u64, d: nat)
    requires a + d < TWO64
    ensures Add(a, d) == a + d
  {
    Euclid(a + d, TWO64, 0, a + d);
  }

  /** On a flat stack, pushing below the live frames disturbs none of them: nested interrupts need no
      other care than an RSP at or under the frame on top. */
  lemma NestedFits(c: Config, lo: u64, hi: u64, off: int, top: u64, n: nat, f: Frame)
    requires Flat(c, lo, hi, off) && lo + 8 * n <= top <= f.at && f.at + 40 <= hi
    ensures Separate(c, top, n) && FrameSpared(c, top, n, f)
  {
    hide Below, Add;
    forall j: nat {:trigger Below(top, j)} | j < n
      ensures Below(top, j) == top - 8 * (j + 1)
    {
      FlatBelow(top, j);
    }
    forall k: nat {:trigger Add(f.at, 8 * k)} | k < 5
      ensures Add(f.at, 8 * k) == f.at + 8 * k
    {
      FlatAdd(f.at, 8 * k);
    }
  }

  // --- the interpreter ---------------------------------------------------------------------------

  class Cpu {
    var rip: u64
    var rflags: u64
    var rsp: u64
    var cpl: nat
    const mem: array<byte>
    const c: Config

    constructor (mem: array<byte>, c: Config)
      ensures this.mem == mem && this.c == c
    {
      this.mem, this.c := mem, c;
      rip, rflags, rsp, cpl := 0, 0, 0, 0;
    }

    function Now(): State
      reads this, mem
    {
      State(rip, rflags, rsp, cpl, mem[..])
    }

    method Store(a: u64, v: u64) returns (ok: bool)
      modifies mem
      ensures ok == Can(c, a, mem.Length)
      ensures mem[..] == if ok then Put64(old(mem[..]), c.view[a], v) else old(mem[..])
    {
      ok := a in c.view && c.view[a] + 8 <= mem.Length;
      hide Put64;
      if ok {
        Write64(mem, c.view[a], v);
      }
    }

    method LoadWord(a: u64) returns (v: Option<u64>)
      ensures v == Load(c, mem[..], a)
    {
      v := if a in c.view && c.view[a] + 8 <= mem.Length then Some(Get64(mem[..], c.view[a])) else None;
    }

    method Push64(v: u64) returns (ok: bool)
      modifies this, mem
      ensures (ok, Now()) == Push(c, old(Now()), v)
    {
      hide Put64;
      rsp := Add(rsp, -8);
      ok := Store(rsp, v);
    }

    method Pop64() returns (v: Option<u64>)
      modifies this
      ensures (v, Now()) == Pop(c, old(Now()))
    {
      hide Load;
      v := LoadWord(rsp);
      if v.Some? {
        rsp := Add(rsp, 8);
      }
    }

    /** The chain of pushes joined by `&&`. */
    method PushFrame(vs: seq<u64>) returns (ok: bool)
      modifies this, mem
      ensures (ok, Now()) == PushAll(c, old(Now()), vs)
    {
      hide Push;
      ghost var s := Now();
      var k := 0;
      ok := true;
      assert vs[0..] == vs;
      while k < |vs|
        invariant k <= |vs| && PushAll(c, Now(), vs[k..]) == PushAll(c, s, vs)
      {
        ok := Push64(vs[k]);
        if !ok {
          return;
        }
        k := k + 1;
      }
    }

    method DeliverInterrupt(vector: nat, error: Option<u64>) returns (ok: bool)
      modifies this, mem
      ensures (ok, Now()) == Deliver(c, old(Now()), vector, error)
    {
      hide Load, PushAll, Offset, TypeAttr, Selector, ClearIf, Pushed;
      ghost var s := Now();
      var oldCpl := cpl;
      var frame := Pushed(Now(), error);
      cpl := 0;
      var lo := LoadWord(Add(c.idtrBase, vector * 16));
      if lo.None? {
        return false;
      }
      var hi := LoadWord(Add(c.idtrBase, vector * 16 + 8));
      if hi.None? || TypeAttr(lo.value) < 0x80 {
        return false;
      }
      var target := Selector(lo.value) % 4;
      if target < oldCpl {
        if c.trBase != 0 {
          var top := LoadWord(Add(c.trBase, 4));
          rsp := Or(top, c.tssRsp0);
        } else {
          rsp := c.tssRsp0;
        }
      }
      assert Now() == Entered(c, s, target);
      ok := PushFrame(frame);
      if ok {
        cpl, rip := target, Offset(lo.value, hi.value);
        if TypeAttr(lo.value) % 16 == 0xE {
          rflags := ClearIf(rflags);
        }
      }
    }

    method IretqStep() returns (ok: bool)
      modifies this
      ensures (ok, Now()) == Iretq(c, old(Now()))
    {
      hide Load;
      var newRip := Pop64();
      if newRip.None? {
        return false;
      }
      var cs := Pop64();
      var newFlags := Pop64();
      var newRsp := Pop64();
      newRsp := Some(Or(newRsp, rsp));
      var ss := Pop64();
      rip, rflags, rsp, cpl := newRip.value, Or(newFlags, rflags), newRsp.value, Or(cs, 0) % 4;
      ok := true;
    }
  }
}
