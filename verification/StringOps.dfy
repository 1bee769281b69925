/** The string instructions with their repeat prefixes (emu/src/lib.rs): `movs`, `stos`, `lods`, `scas`
    and `cmps`, an element at a time, that may stop on a page fault and be started again. */
module StringOps {
  import opened Bytes
  import opened Alu

  datatype Op = Movs | Stos | Lods | Scas | Cmps

  /** A decoded instruction: `rep` and `repne` are the two prefixes, `down` the direction flag. */
  datatype Insn = Insn(op: Op, rep: bool, repne: bool, size: nat, down: bool)

  /** The addresses the page tables let through, and where they lead. */
  datatype View = View(read: map<u64, nat>, write: map<u64, nat>)

  datatype State = State(rsi: u64, rdi: u64, rcx: u64, rax: u64, flags: Flags, mem: seq<byte>)

  datatype Element = Done(st: State) | Stuck(addr: u64)

  datatype Outcome = Ended(st: State) | Faulted(addr: u64, st: State)

  predicate Can(m: map<u64, nat>, a: u64, size: nat, len: nat) { a in m && m[a] + size <= len }

  function Load(m: map<u64, nat>, mem: seq<byte>, a: u64, size: nat): nat
    requires Can(m, a, size, |mem|)
  {
    Get(mem, m[a], size)
  }

  function Next(i: Insn, r: u64): u64 { if i.down then (r - i.size) % TWO64 else (r + i.size) % TWO64 }

  /** The low bytes of RAX replaced. */
  function Merge(rax: u64, v: nat, size: nat): u64
    requires Width(size)
  {
    var m := Modulus(size);
    assert rax - rax % m + v % m < TWO64 by { MergeFits(rax, v, size); }
    rax - rax % m + v % m
  }

  lemma MergeFits(rax: u64, v: nat, size: nat)
    requires Width(size)
    ensures rax - rax % Modulus(size) + v % Modulus(size) < TWO64
  {
    var m := Modulus(size);
    var q, k := rax / m, TWO64 / m;
    assert TWO64 == k * m;
    hide Modulus;
    QuotientBound(q, k, m, rax % m);
  }

  lemma QuotientBound(q: nat, k: nat, m: nat, r: nat)
    requires m > 0 && q * m + r < k * m
    ensures q * m + m <= k * m
  {
    MulLess(q, k, m);
    MulMono(q + 1, k, m);
    assert (q + 1) * m == q * m + m;
  }

  /** The flags `cmp` leaves. */
  function Compared(a: nat, b: nat, size: nat, f: Flags): Flags {
    After(Operate(7, a % Modulus(size), b % Modulus(size), size, f.cf, f.of), size)
  }

  /** One element. */
  function Once(i: Insn, e: View, s: State): Element
    requires Width(i.size)
  {
    var len, z := |s.mem|, i.size;
    match i.op
    case Movs =>
      if !Can(e.read, s.rsi, z, len) then Stuck(s.rsi)
      else if !Can(e.write, s.rdi, z, len) then Stuck(s.rdi)
      else
        var mem := Put(s.mem, e.write[s.rdi], Load(e.read, s.mem, s.rsi, z), z);
        Done(s.(mem := mem, rsi := Next(i, s.rsi), rdi := Next(i, s.rdi)))
    case Stos =>
      if !Can(e.write, s.rdi, z, len) then Stuck(s.rdi)
      else Done(s.(mem := Put(s.mem, e.write[s.rdi], s.rax, z), rdi := Next(i, s.rdi)))
    case Lods =>
      if !Can(e.read, s.rsi, z, len) then Stuck(s.rsi)
      else Done(s.(rax := Merge(s.rax, Load(e.read, s.mem, s.rsi, z), z), rsi := Next(i, s.rsi)))
    case Scas =>
      if !Can(e.read, s.rdi, z, len) then Stuck(s.rdi)
      else
        var f := Compared(s.rax, Load(e.read, s.mem, s.rdi, z), z, s.flags);
        Done(s.(flags := f, rdi := Next(i, s.rdi)))
    case Cmps =>
      if !Can(e.read, s.rsi, z, len) || !Can(e.read, s.rdi, z, len) then Stuck(s.rsi)
      else
        var f := Compared(Load(e.read, s.mem, s.rsi, z), Load(e.read, s.mem, s.rdi, z), z, s.flags);
        Done(s.(flags := f, rsi := Next(i, s.rsi), rdi := Next(i, s.rdi)))
  }

  predicate Repeats(i: Insn) { i.rep || i.repne }

  /** The repeat condition of the two comparing instructions has failed. */
  predicate Stops(i: Insn, f: Flags) {
    Repeats(i) && (i.op == Scas || i.op == Cmps) && ((i.rep && !f.zf) || (i.repne && f.zf))
  }

  function Counted(i: Insn, s: State, count: u64): State { if Repeats(i) then s.(rcx := count) else s }

  /** Up to `count` elements. */
  function Loop(i: Insn, e: View, s: State, count: u64): Outcome
    requires Width(i.size)
    decreases count
  {
    if count == 0 then Ended(s)
    else
      match Once(i, e, s)
      case Stuck(a) => Faulted(a, s)
      case Done(t) =>
        var u := Counted(i, t, count - 1);
        if Stops(i, u.flags) then Ended(u) else Loop(i, e, u, count - 1)
  }

  function Count(i: Insn, s: State): u64 { if Repeats(i) then s.rcx else 1 }

  /** One execution of the instruction. */
  function Execute(i: Insn, e: View, s: State): Outcome
    requires Width(i.size)
  {
    Loop(i, e, s, Count(i, s))
  }

  /** The instruction tried under one view after another, each try from the state the last fault left. */
  function Tries(i: Insn, es: seq<View>, s: State): Outcome
    requires Width(i.size) && es != []
    decreases |es|
  {
    var o := Execute(i, es[0], s);
    if o.Ended? || |es| == 1 then o else Tries(i, es[1..], o.st)
  }

  ghost predicate Within(e: View, all: View) {
    && (forall a | a in e.read :: a in all.read && all.read[a] == e.read[a])
    && (forall a | a in e.write :: a in all.write && all.write[a] == e.write[a])
  }

  /** An element that goes through under a part of a view goes through under all of it, the same way. */
  lemma OnceWithin(i: Insn, e: View, all: View, s: State)
    requires Width(i.size) && Within(e, all) && Once(i, e, s).Done?
    ensures Once(i, all, s) == Once(i, e, s)
  {
    hide Next, Merge, Compared, Put, Get;
  }

  /** What a try does, a run that never faults does too, and goes on from there. */
  lemma {:induction false} LoopWithin(i: Insn, e: View, all: View, s: State, count: u64)
    requires Width(i.size) && Within(e, all) && (if Repeats(i) then count == s.rcx else count <= 1)
    ensures
      var o := Loop(i, e, s, count);
      if o.Ended? then Loop(i, all, s, count) == o
      else Loop(i, all, s, count) == Loop(i, all, o.st, if Repeats(i) then o.st.rcx else count)
    decreases count
  {
    hide Once, Within;
    if count > 0 && Once(i, e, s).Done? {
      OnceWithin(i, e, all, s);
      var u := Counted(i, Once(i, e, s).st, count - 1);
      if !Stops(i, u.flags) {
        LoopWithin(i, e, all, u, count - 1);
      }
    }
  }

  /** However often the instruction faults and is started again, it ends as one run that never faults. */
  lemma {:induction false} RestartsAreInvisible(i: Insn, es: seq<View>, all: View, s: State)
    requires Width(i.size) && es != [] && (forall k | 0 <= k < |es| :: Within(es[k], all))
    ensures Tries(i, es, s).Ended? ==> Tries(i, es, s) == Execute(i, all, s)
    ensures Tries(i, es, s).Faulted? ==> Execute(i, all, s) == Execute(i, all, Tries(i, es, s).st)
    decreases |es|
  {
    hide Loop, Within;
    assert Within(es[0], all);
    LoopWithin(i, es[0], all, s, Count(i, s));
    var o := Execute(i, es[0], s);
    if o.Faulted? && |es| > 1 {
      RestartsAreInvisible(i, es[1..], all, o.st);
    }
  }

  // --- the interpreter's loop -------------------------------------------------------

  lemma {:induction false} ValueAppend(s: seq<byte>, b: byte)
    ensures Value(s + [b]) == Value(s) + Pow256(|s|) * b
  {
    if s != [] {
      ValueAppend(s[1..], b);
      assert (s + [b])[1..] == s[1..] + [b];
      Regroup(s[0], Value(s[1..]), Pow256(|s| - 1), b);
    }
  }

  lemma Regroup(low: int, high: int, p: int, b: int)
    ensures low + 256 * (high + p * b) == (low + 256 * high) + (256 * p) * b
  {
  }

  lemma {:induction false} LeAppend(v: nat, n: nat)
    ensures Le(v, n + 1) == Le(v, n) + [v / Pow256(n) % 256]
    decreases n
  {
    if n > 0 {
      LeAppend(v / 256, n - 1);
      DivDiv(v, 256, Pow256(n - 1));
      assert Le(v, n + 1) == [v % 256] + Le(v / 256, n);
    }
  }

  lemma DivDiv(v: nat, a: nat, b: nat)
    requires a > 0 && b > 0 && a * b > 0
    ensures v / a / b == v / (a * b)
  {
    var q := v / a / b;
    var r1, r2 := v % a, v / a % b;
    assert v == a * (b * q + r2) + r1;
    assert a * (b * q + r2) == q * (a * b) + a * r2;
    assert a * r2 + r1 < a * b by {
      QuotientBound(r2, b, a, 0);
    }
    Euclid(v, a * b, q, a * r2 + r1);
  }

  class StringUnit {
    var rsi: u64
    var rdi: u64
    var rcx: u64
    var rax: u64
    var flags: Flags
    const mem: array<byte>

    constructor (mem: array<byte>)
      ensures this.mem == mem
    {
      this.mem := mem;
      rsi, rdi, rcx, rax := 0, 0, 0, 0;
      flags := Flags(false, false, false, false, false);
    }

    function Snapshot(): State
      reads this, mem
    {
      State(rsi, rdi, rcx, rax, flags, mem[..])
    }

    /** `load`: all of the element or nothing. */
    method LoadAt(m: map<u64, nat>, a: u64, size: nat) returns (ok: bool, v: nat)
      ensures ok == Can(m, a, size, mem.Length) && (ok ==> v == Load(m, mem[..], a, size))
    {
      v := 0;
      if a !in m || m[a] + size > mem.Length {
        return false, 0;
      }
      var p := m[a];
      var scale: nat := 1;
      for k := 0 to size
        invariant v == Value(mem[p..p + k]) && scale == Pow256(k)
      {
        ValueAppend(mem[p..p + k], mem[p + k]);
        assert mem[p..p + k + 1] == mem[p..p + k] + [mem[p + k]];
        v := v + scale * mem[p + k];
        scale := 256 * scale;
      }
      assert mem[..][p..p + size] == mem[p..p + size];
      ok := true;
    }

    /** `store`: all of the element or nothing. */
    method StoreAt(m: map<u64, nat>, a: u64, v: nat, size: nat) returns (ok: bool)
      modifies mem
      ensures ok == Can(m, a, size, mem.Length)
      ensures mem[..] == if ok then Put(old(mem[..]), m[a], v, size) else old(mem[..])
    {
      if a !in m || m[a] + size > mem.Length {
        return false;
      }
      var p := m[a];
      ghost var was := mem[..];
      var rest := v;
      hide Le;
      for k := 0 to size
        invariant mem[..] == Put(was, p, v, k) && rest == v / Pow256(k)
      {
        PutMore(was, p, v, k);
        DivDiv(v, Pow256(k), 256);
        mem[p + k] := rest % 256;
        rest := rest / 256;
      }
      ok := true;
    }

    /** One pass of the loop's `match`; on a fault nothing has changed. */
    method Step(i: Insn, e: View) returns (ok: bool, addr: u64)
      requires Width(i.size)
      modifies this, mem
      ensures ok == Once(i, e, old(Snapshot())).Done?
      ensures if ok then Snapshot() == Once(i, e, old(Snapshot())).st
              else Snapshot() == old(Snapshot()) && addr == Once(i, e, old(Snapshot())).addr
    {
      hide Next, Merge, Compared, Put, Get, Can, Width;
      var v, w: nat;
      addr := 0;
      match i.op {
        case Movs =>
          ok, v := LoadAt(e.read, rsi, i.size);
          if !ok {
            addr := rsi;
            return;
          }
          ok := StoreAt(e.write, rdi, v, i.size);
          if !ok {
            addr := rdi;
            return;
          }
          rsi, rdi := Next(i, rsi), Next(i, rdi);
        case Stos =>
          ok := StoreAt(e.write, rdi, rax, i.size);
          if !ok {
            addr := rdi;
            return;
          }
          rdi := Next(i, rdi);
        case Lods =>
          ok, v := LoadAt(e.read, rsi, i.size);
          if !ok {
            addr := rsi;
            return;
          }
          rax, rsi := Merge(rax, v, i.size), Next(i, rsi);
        case Scas =>
          ok, v := LoadAt(e.read, rdi, i.size);
          if !ok {
            addr := rdi;
            return;
          }
          flags, rdi := Compared(rax, v, i.size, flags), Next(i, rdi);
        case Cmps =>
          var okRight;
          ok, v := LoadAt(e.read, rsi, i.size);
          okRight, w := LoadAt(e.read, rdi, i.size);
          ok := ok && okRight;
          if !ok {
            addr := rsi;
            return;
          }
          flags, rsi, rdi := Compared(v, w, i.size, flags), Next(i, rsi), Next(i, rdi);
      }
    }

    /** The instruction: elements until the count, the repeat condition or a fault ends it. RIP moves
        past the instruction exactly when `ok`. */
    method Run(i: Insn, e: View) returns (ok: bool, addr: u64)
      requires Width(i.size)
      modifies this, mem
      ensures
        var o := Execute(i, e, old(Snapshot()));
        ok == o.Ended? && Snapshot() == o.st && (!ok ==> addr == o.addr)
    {
      hide Once, Width;
      ghost var target := Execute(i, e, Snapshot());
      var count: nat := if i.rep || i.repne then rcx else 1;
      while count != 0
        invariant count < TWO64 && Loop(i, e, Snapshot(), count) == target
        decreases count
      {
        ok, addr := Step(i, e);
        if !ok {
          return;
        }
        count := count - 1;
        if i.rep || i.repne {
          rcx := count;
          if i.op == Scas || i.op == Cmps {
            if (i.rep && !flags.zf) || (i.repne && flags.zf) {
              return;
            }
          }
        }
      }
      ok, addr := true, 0;
    }
  }

  lemma PutMore(mem: seq<byte>, a: nat, v: nat, k: nat)
    requires a + k < |mem|
    ensures Put(mem, a, v, k)[a + k := v / Pow256(k) % 256] == Put(mem, a, v, k + 1)
  {
    LeAppend(v, k);
  }

  // --- what an unfaulted run computes ---------------------------------------------------

  /** The address of element `k` counted from `r`, in the direction of the instruction. */
  function At(i: Insn, r: u64, k: nat): u64 {
    if i.down then (r - k * i.size) % TWO64 else (r + k * i.size) % TWO64
  }

  /** One element on is its width up or down, modulo 2^64. */
  lemma StepIs(i: Insn, r: u64)
    ensures Next(i, r) == At(i, r, 1) && (At(i, r, 1) - r - (if i.down then 0 - i.size else i.size)) % 0x1_0000_0000_0000_0000 == 0
  {
    var d: int := if i.down then 0 - i.size else i.size;
    Euclid(At(i, r, 1) - r - d, TWO64, -((r + d) / TWO64), 0);
  }

  lemma ModShift(x: int, d: int)
    ensures (x % TWO64 + d) % TWO64 == (x + d) % TWO64
  {
    var q, r := (x + d) / TWO64, (x + d) % TWO64;
    Euclid(x % TWO64 + d, TWO64, q - x / TWO64, r);
  }

  lemma AtNext(i: Insn, r: u64, k: nat)
    ensures At(i, r, 0) == r && Next(i, At(i, r, k)) == At(i, r, k + 1)
  {
    var z: int := i.size;
    var d := k * z;
    assert (k + 1) * z == d + z;
    if i.down {
      ModShift(r - d, -z);
    } else {
      ModShift(r + d, z);
    }
  }

  ghost predicate Reads(i: Insn, e: View, s: State, r: u64, k: nat) { Can(e.read, At(i, r, k), i.size, |s.mem|) }

  ghost predicate Writes(i: Insn, e: View, s: State, k: nat) { Can(e.write, At(i, s.rdi, k), i.size, |s.mem|) }

  ghost predicate Apart(a: nat, b: nat, n: nat) { a + n <= b || b + n <= a }

  /** Every element of a copy or a fill can be reached. */
  ghost predicate Accessible(i: Insn, e: View, s: State, n: nat) {
    forall k {:trigger Writes(i, e, s, k)} | 0 <= k < n ::
      Writes(i, e, s, k) && (i.op == Movs ==> Reads(i, e, s, s.rsi, k))
  }

  ghost function To(i: Insn, e: View, s: State, k: nat): nat
    requires Writes(i, e, s, k)
  {
    e.write[At(i, s.rdi, k)]
  }

  ghost function From(i: Insn, e: View, s: State, k: nat): nat
    requires Reads(i, e, s, s.rsi, k)
  {
    e.read[At(i, s.rsi, k)]
  }

  /** Element `j` is not written over by the later element `k`, and is written only after `k`'s source
      is gone from it. */
  ghost predicate InOrder(i: Insn, e: View, s: State, j: nat, k: nat)
    requires Writes(i, e, s, j) && Writes(i, e, s, k) && (i.op == Movs ==> Reads(i, e, s, s.rsi, k))
  {
    Apart(To(i, e, s, j), To(i, e, s, k), i.size) && (i.op == Movs ==> Apart(To(i, e, s, j), From(i, e, s, k), i.size))
  }

  ghost predicate Ordered(i: Insn, e: View, s: State, n: nat)
    requires Accessible(i, e, s, n)
  {
    forall j, k {:trigger Writes(i, e, s, j), Writes(i, e, s, k)} | 0 <= j < k < n ::
      Writes(i, e, s, j) && Writes(i, e, s, k) && InOrder(i, e, s, j, k)
  }

  /** What element `k` should hold at the end: its source as it was at the start, or RAX. */
  ghost function Wanted(i: Insn, e: View, s: State, k: nat): seq<byte>
    requires i.op == Movs ==> Reads(i, e, s, s.rsi, k)
  {
    if i.op == Movs then s.mem[From(i, e, s, k)..From(i, e, s, k) + i.size] else Le(s.rax, i.size)
  }

  ghost predicate Holds(i: Insn, e: View, s: State, k: nat, mem: seq<byte>) {
    && Writes(i, e, s, k) && (i.op == Movs ==> Reads(i, e, s, s.rsi, k)) && |mem| == |s.mem|
    && mem[To(i, e, s, k)..To(i, e, s, k) + i.size] == Wanted(i, e, s, k)
  }

  ghost predicate Covered(i: Insn, e: View, s: State, n: nat, b: nat) {
    exists k :: 0 <= k < n && Writes(i, e, s, k) && To(i, e, s, k) <= b < To(i, e, s, k) + i.size
  }

  /** Memory after `n` elements of a copy or a fill. */
  ghost predicate Transferred(i: Insn, e: View, s: State, n: nat, mem: seq<byte>) {
    && |mem| == |s.mem|
    && (forall k {:trigger Holds(i, e, s, k, mem)} | 0 <= k < n :: Holds(i, e, s, k, mem))
    && (forall b {:trigger Covered(i, e, s, n, b)} | 0 <= b < |mem| && !Covered(i, e, s, n, b) :: mem[b] == s.mem[b])
  }

  /** The registers after `n` elements of a copy or a fill. */
  ghost function Moved(i: Insn, s: State, n: nat, rcx: u64, mem: seq<byte>): State {
    State(if i.op == Movs then At(i, s.rsi, n) else s.rsi, At(i, s.rdi, n), rcx, s.rax, s.flags, mem)
  }

  lemma SourceIntact(i: Insn, e: View, s: State, n: nat, k: nat, mem: seq<byte>)
    requires i.op == Movs && k < n && Accessible(i, e, s, n) && Ordered(i, e, s, n) && Transferred(i, e, s, k, mem)
    ensures Writes(i, e, s, k) && Reads(i, e, s, s.rsi, k)
    ensures mem[From(i, e, s, k)..From(i, e, s, k) + i.size] == s.mem[From(i, e, s, k)..From(i, e, s, k) + i.size]
  {
    assert Writes(i, e, s, k);
    var a := From(i, e, s, k);
    forall b | a <= b < a + i.size
      ensures mem[b] == s.mem[b]
    {
      assert !Covered(i, e, s, k, b) by {
        hide At, Can;
      }
    }
  }

  lemma PutSlices(mem: seq<byte>, a: nat, v: nat, n: nat, b: nat)
    requires a + n <= |mem| && b + n <= |mem| && Apart(b, a, n)
    ensures Put(mem, a, v, n)[a..a + n] == Le(v, n) && Put(mem, a, v, n)[b..b + n] == mem[b..b + n]
  {
  }

  /** One more element. */
  lemma TransferOne(i: Insn, e: View, s: State, n: nat, k: nat, mem: seq<byte>, v: nat)
    requires k < n && Accessible(i, e, s, n) && Ordered(i, e, s, n) && Transferred(i, e, s, k, mem)
    requires Writes(i, e, s, k) && (i.op == Movs ==> Reads(i, e, s, s.rsi, k)) && Le(v, i.size) == Wanted(i, e, s, k)
    ensures Transferred(i, e, s, k + 1, Put(mem, To(i, e, s, k), v, i.size))
  {
    var a, z := To(i, e, s, k), i.size;
    var mem' := Put(mem, a, v, z);
    hide At, Can, Put, Le;
    forall j | 0 <= j < k + 1
      ensures Holds(i, e, s, j, mem')
    {
      if j == k {
        PutHere(mem, a, v, z);
      } else {
        assert Holds(i, e, s, j, mem);
        PutSlices(mem, a, v, z, To(i, e, s, j));
      }
    }
    forall b | 0 <= b < |mem'| && !Covered(i, e, s, k + 1, b)
      ensures mem'[b] == s.mem[b]
    {
      assert !Covered(i, e, s, k, b);
    }
  }

  lemma PutHere(mem: seq<byte>, a: nat, v: nat, n: nat)
    requires a + n <= |mem|
    ensures Put(mem, a, v, n)[a..a + n] == Le(v, n)
  {
  }

  /** The value an element of a copy or a fill writes is the wanted one. */
  lemma WritesWanted(i: Insn, e: View, s: State, n: nat, k: nat, mem: seq<byte>, rcx: u64) returns (v: nat)
    requires Width(i.size) && (i.op == Movs || i.op == Stos)
    requires k < n && Accessible(i, e, s, n) && Ordered(i, e, s, n) && Transferred(i, e, s, k, mem)
    ensures Writes(i, e, s, k) && (i.op == Movs ==> Reads(i, e, s, s.rsi, k)) && Le(v, i.size) == Wanted(i, e, s, k)
    ensures Once(i, e, Moved(i, s, k, rcx, mem))
         == Done(Moved(i, s, k + 1, rcx, Put(mem, To(i, e, s, k), v, i.size)))
  {
    v := StoreOne(i, e, s, n, k, mem, rcx);
    hide Once, Moved, Put, Le;
    if i.op == Movs {
      SourceIntact(i, e, s, n, k, mem);
    }
  }

  lemma TransferStep(i: Insn, e: View, s: State, n: nat, k: nat, mem: seq<byte>, rcx: u64) returns (mem': seq<byte>)
    requires Width(i.size) && (i.op == Movs || i.op == Stos)
    requires k < n && Accessible(i, e, s, n) && Ordered(i, e, s, n) && Transferred(i, e, s, k, mem)
    ensures Once(i, e, Moved(i, s, k, rcx, mem)) == Done(Moved(i, s, k + 1, rcx, mem'))
    ensures Transferred(i, e, s, k + 1, mem')
  {
    var v := WritesWanted(i, e, s, n, k, mem, rcx);
    mem' := Put(mem, To(i, e, s, k), v, i.size);
    hide Once, Moved, Transferred, Accessible, Ordered, Put, Wanted, Le;
    TransferOne(i, e, s, n, k, mem, v);
  }

  /** A repeated copy or fill: every element ends up with its source as it was before the instruction
      (so a forward copy to lower addresses and a backward one to higher addresses move overlapping
      blocks), every other byte is as it was, and the registers point past the last element. */
  lemma {:induction false} Transfers(i: Insn, e: View, s: State, n: nat, k: nat, mem: seq<byte>)
    requires Width(i.size) && (i.op == Movs || i.op == Stos) && Repeats(i)
    requires k <= n < TWO64 && Accessible(i, e, s, n) && Ordered(i, e, s, n) && Transferred(i, e, s, k, mem)
    ensures
      var o := Loop(i, e, Moved(i, s, k, n - k, mem), n - k);
      o.Ended? && o.st == Moved(i, s, n, 0, o.st.mem) && Transferred(i, e, s, n, o.st.mem)
    decreases n - k
  {
    hide Once, Moved, Transferred, Accessible, Ordered;
    MovedCount(i, s, k, n - k, n - k, mem);
    if k < n {
      var mem' := TransferStep(i, e, s, n, k, mem, n - k);
      MovedCount(i, s, k + 1, n - k, n - k - 1, mem');
      Transfers(i, e, s, n, k + 1, mem');
    }
  }

  lemma MovedCount(i: Insn, s: State, k: nat, c: u64, c': u64, mem: seq<byte>)
    ensures Moved(i, s, k, c, mem).(rcx := c') == Moved(i, s, k, c', mem) && Moved(i, s, k, c, mem).mem == mem
  {
  }

  /** `rep movs` and `rep stos` as a whole. */
  lemma RepTransfers(i: Insn, e: View, s: State)
    requires Width(i.size) && (i.op == Movs || i.op == Stos) && Repeats(i)
    requires Accessible(i, e, s, s.rcx) && Ordered(i, e, s, s.rcx)
    ensures
      var o := Execute(i, e, s);
      o.Ended? && o.st == Moved(i, s, s.rcx, 0, o.st.mem) && Transferred(i, e, s, s.rcx, o.st.mem)
  {
    AtNext(i, s.rdi, 0);
    AtNext(i, s.rsi, 0);
    hide At;
    assert Moved(i, s, 0, s.rcx, s.mem) == s;
    assert Transferred(i, e, s, 0, s.mem);
    Transfers(i, e, s, s.rcx, 0, s.mem);
  }

  // --- elements that run over one another ----------------------------------------------------

  /** Where a byte comes from: a byte of memory before the instruction, or byte `j` of RAX. */
  datatype Source = Old(at: nat) | Fill(j: nat)

  /** Where byte `b` comes from after `n` elements: the last element stored over it, and for a copy whatever
      was then in its source. */
  ghost function Origin(i: Insn, e: View, s: State, n: nat, b: nat): (o: Source)
    requires Accessible(i, e, s, n) && b < |s.mem|
    ensures if o.Old? then o.at < |s.mem| else o.j < i.size
    decreases n
  {
    if n == 0 then Old(b)
    else
      var k := n - 1;
      AccessibleFewer(i, e, s, n, k);
      assert Writes(i, e, s, k) && (i.op == Movs ==> Reads(i, e, s, s.rsi, k));
      var a := To(i, e, s, k);
      if !(a <= b < a + i.size) then Origin(i, e, s, k, b)
      else if i.op == Movs then Origin(i, e, s, k, From(i, e, s, k) + b - a)
      else Fill(b - a)
  }

  ghost function ByteOf(i: Insn, s: State, o: Source): byte
    requires if o.Old? then o.at < |s.mem| else o.j < i.size
  {
    if o.Old? then s.mem[o.at] else Le(s.rax, i.size)[o.j]
  }

  ghost predicate Traced(i: Insn, e: View, s: State, n: nat, mem: seq<byte>)
    requires Accessible(i, e, s, n)
  {
    |mem| == |s.mem| && forall b {:trigger mem[b]} | 0 <= b < |mem| :: mem[b] == ByteOf(i, s, Origin(i, e, s, n, b))
  }

  /** What one element of a copy or a fill does to memory. */
  lemma StoreOne(i: Insn, e: View, s: State, n: nat, k: nat, mem: seq<byte>, rcx: u64) returns (v: nat)
    requires Width(i.size) && (i.op == Movs || i.op == Stos) && k < n && Accessible(i, e, s, n) && |mem| == |s.mem|
    ensures Writes(i, e, s, k) && (i.op == Movs ==> Reads(i, e, s, s.rsi, k))
    ensures Le(v, i.size) == if i.op == Movs then mem[From(i, e, s, k)..From(i, e, s, k) + i.size] else Le(s.rax, i.size)
    ensures Once(i, e, Moved(i, s, k, rcx, mem))
         == Done(Moved(i, s, k + 1, rcx, Put(mem, To(i, e, s, k), v, i.size)))
  {
    var cur := Moved(i, s, k, rcx, mem);
    AtNext(i, s.rdi, k);
    AtNext(i, s.rsi, k);
    assert Writes(i, e, s, k);
    if i.op == Movs {
      v := Load(e.read, mem, cur.rsi, i.size);
      LeOfValue(mem[From(i, e, s, k)..From(i, e, s, k) + i.size]);
    } else {
      v := s.rax;
    }
    hide At, Put, Le, Next, Merge, Compared, Value;
  }

  lemma TraceOne(i: Insn, e: View, s: State, k: nat, mem: seq<byte>, v: nat)
    requires (i.op == Movs || i.op == Stos) && Accessible(i, e, s, k + 1) && Traced(i, e, s, k, mem)
    requires Writes(i, e, s, k) && (i.op == Movs ==> Reads(i, e, s, s.rsi, k))
    requires Le(v, i.size) == if i.op == Movs then mem[From(i, e, s, k)..From(i, e, s, k) + i.size] else Le(s.rax, i.size)
    ensures Traced(i, e, s, k + 1, Put(mem, To(i, e, s, k), v, i.size))
  {
    var mem' := Put(mem, To(i, e, s, k), v, i.size);
    hide At, Can, Put, Le, Accessible, Origin, ByteOf, To, From;
    forall b {:trigger mem'[b]} | 0 <= b < |mem'|
      ensures mem'[b] == ByteOf(i, s, Origin(i, e, s, k + 1, b))
    {
      TraceByte(i, e, s, k, mem, v, b);
    }
  }

  lemma TraceByte(i: Insn, e: View, s: State, k: nat, mem: seq<byte>, v: nat, b: nat)
    requires (i.op == Movs || i.op == Stos) && Accessible(i, e, s, k + 1) && Traced(i, e, s, k, mem) && b < |mem|
    requires Writes(i, e, s, k) && (i.op == Movs ==> Reads(i, e, s, s.rsi, k))
    requires Le(v, i.size) == if i.op == Movs then mem[From(i, e, s, k)..From(i, e, s, k) + i.size] else Le(s.rax, i.size)
    ensures Put(mem, To(i, e, s, k), v, i.size)[b] == ByteOf(i, s, Origin(i, e, s, k + 1, b))
  {
    var a, z := To(i, e, s, k), i.size;
    assert a + z <= |mem| == |s.mem|;
    hide At, Can, Put, Le, Accessible, Origin, ByteOf, To, From;
    OriginStep(i, e, s, k, b);
    PutByte(mem, a, v, z, b);
    if a <= b < a + z && i.op == Stos {
      FillByte(i, s, b - a);
    }
  }

  lemma PutByte(mem: seq<byte>, a: nat, v: nat, n: nat, b: nat)
    requires a + n <= |mem| && b < |mem|
    ensures Put(mem, a, v, n)[b] == if a <= b < a + n then Le(v, n)[b - a] else mem[b]
  {
    hide Le;
  }

  lemma OriginStep(i: Insn, e: View, s: State, k: nat, b: nat)
    requires Accessible(i, e, s, k + 1) && Accessible(i, e, s, k) && b < |s.mem|
    ensures Writes(i, e, s, k) && (i.op == Movs ==> Reads(i, e, s, s.rsi, k) && From(i, e, s, k) + i.size <= |s.mem|)
    ensures
      var a := To(i, e, s, k);
      Origin(i, e, s, k + 1, b)
      == if !(a <= b < a + i.size) then Origin(i, e, s, k, b)
         else if i.op == Movs then Origin(i, e, s, k, From(i, e, s, k) + b - a)
         else Fill(b - a)
  {
    assert Writes(i, e, s, k) && (i.op == Movs ==> Reads(i, e, s, s.rsi, k));
    hide At, Accessible;
  }

  lemma FillByte(i: Insn, s: State, j: nat)
    requires j < i.size
    ensures ByteOf(i, s, Fill(j)) == Le(s.rax, i.size)[j]
  {
  }

  lemma TraceStep(i: Insn, e: View, s: State, n: nat, k: nat, mem: seq<byte>, rcx: u64) returns (mem': seq<byte>)
    requires Width(i.size) && (i.op == Movs || i.op == Stos)
    requires k < n && Accessible(i, e, s, n) && Accessible(i, e, s, k) && Accessible(i, e, s, k + 1) && Traced(i, e, s, k, mem)
    ensures Once(i, e, Moved(i, s, k, rcx, mem)) == Done(Moved(i, s, k + 1, rcx, mem'))
    ensures Traced(i, e, s, k + 1, mem')
  {
    TracedSize(i, e, s, k, mem);
    hide Once, Moved, Traced, Accessible, Put, Le;
    var v := StoreOne(i, e, s, n, k, mem, rcx);
    mem' := Put(mem, To(i, e, s, k), v, i.size);
    TraceOne(i, e, s, k, mem, v);
  }

  lemma TracedSize(i: Insn, e: View, s: State, n: nat, mem: seq<byte>)
    requires Accessible(i, e, s, n) && Traced(i, e, s, n, mem)
    ensures |mem| == |s.mem|
  {
  }

  lemma {:induction false} Traces(i: Insn, e: View, s: State, n: nat, k: nat, mem: seq<byte>)
    requires Width(i.size) && (i.op == Movs || i.op == Stos) && Repeats(i)
    requires k <= n < TWO64 && Accessible(i, e, s, n) && Accessible(i, e, s, k) && Traced(i, e, s, k, mem)
    ensures
      var o := Loop(i, e, Moved(i, s, k, n - k, mem), n - k);
      o.Ended? && o.st == Moved(i, s, n, 0, o.st.mem) && Traced(i, e, s, n, o.st.mem)
    decreases n - k
  {
    hide Once, Moved, Traced, Accessible;
    MovedCount(i, s, k, n - k, n - k, mem);
    if k < n {
      AccessibleFewer(i, e, s, n, k + 1);
      var mem' := TraceStep(i, e, s, n, k, mem, n - k);
      MovedCount(i, s, k + 1, n - k, n - k - 1, mem');
      Traces(i, e, s, n, k + 1, mem');
    }
  }

  lemma AccessibleFewer(i: Insn, e: View, s: State, n: nat, k: nat)
    requires Accessible(i, e, s, n) && k <= n
    ensures Accessible(i, e, s, k)
  {
  }

  /** `rep movs` and `rep stos` whatever runs over whatever: every byte of memory is its origin's. */
  lemma RepTraces(i: Insn, e: View, s: State)
    requires Width(i.size) && (i.op == Movs || i.op == Stos) && Repeats(i) && Accessible(i, e, s, s.rcx)
    ensures
      var o := Execute(i, e, s);
      o.Ended? && o.st == Moved(i, s, s.rcx, 0, o.st.mem) && Traced(i, e, s, s.rcx, o.st.mem)
  {
    AtNext(i, s.rdi, 0);
    AtNext(i, s.rsi, 0);
    hide At;
    assert Moved(i, s, 0, s.rcx, s.mem) == s;
    Traces(i, e, s, s.rcx, 0, s.mem);
  }

  /** `k` elements in bytes. */
  function Extent(k: nat, size: nat): nat { k * size }

  lemma ExtentMore(k: nat, size: nat)
    ensures Extent(k + 1, size) == Extent(k, size) + size
  {
  }

  /** Element `k` goes from a place to one `d` bytes above it. */
  ghost predicate Lifts(i: Insn, e: View, s: State, k: nat, p: nat, d: nat) {
    && i.op == Movs && Writes(i, e, s, k) && Reads(i, e, s, s.rsi, k)
    && From(i, e, s, k) == p + Extent(k, i.size) && To(i, e, s, k) == p + d + Extent(k, i.size)
  }

  /** Source and destination lie in one stretch of memory each, the destination `d` bytes above the source. */
  ghost predicate Stretch(i: Insn, e: View, s: State, n: nat, p: nat, d: nat) {
    i.op == Movs && forall k: nat {:trigger Lifts(i, e, s, k, p, d)} | k < n :: Lifts(i, e, s, k, p, d)
  }

  /** A copy upwards into itself repeats the first `d` bytes, if an element is no longer than that. */
  lemma {:induction false} PatternOrigin(i: Insn, e: View, s: State, n: nat, p: nat, d: nat, b: nat)
    requires Accessible(i, e, s, n) && Stretch(i, e, s, n, p, d) && 0 < i.size <= d && b < |s.mem|
    ensures Origin(i, e, s, n, b) == Old(Pattern(p, d, Extent(n, i.size), b))
    decreases n
  {
    if n > 0 {
      hide Accessible, Stretch, Origin, Pattern, Extent;
      var k, z := n - 1, i.size;
      var a := p + d + Extent(k, z);
      StretchFewer(i, e, s, n, p, d);
      OriginLifted(i, e, s, k, p, d, b);
      PatternMore(p, d, Extent(k, z), z, b);
      ExtentMore(k, z);
      PatternOrigin(i, e, s, k, p, d, if a <= b < a + z then b - d else b);
    }
  }

  lemma StretchFewer(i: Insn, e: View, s: State, n: nat, p: nat, d: nat)
    requires n > 0 && Accessible(i, e, s, n) && Stretch(i, e, s, n, p, d)
    ensures Accessible(i, e, s, n - 1) && Stretch(i, e, s, n - 1, p, d) && Lifts(i, e, s, n - 1, p, d)
  {
    AccessibleFewer(i, e, s, n, n - 1);
  }

  lemma OriginLifted(i: Insn, e: View, s: State, k: nat, p: nat, d: nat, b: nat)
    requires Accessible(i, e, s, k) && Accessible(i, e, s, k + 1) && Lifts(i, e, s, k, p, d) && b < |s.mem|
    ensures
      var a := p + d + Extent(k, i.size);
      Origin(i, e, s, k + 1, b) == Origin(i, e, s, k, if a <= b < a + i.size then b - d else b)
  {
    hide At, Can, Accessible, Extent;
  }

  /** The byte of the source that ends up at `b`, when `total` bytes are stored from `p + d` on. */
  ghost function Pattern(p: nat, d: nat, total: nat, b: nat): nat
    requires d > 0
  {
    if p + d <= b < p + d + total then p + (b - p - d) % d else b
  }

  lemma PatternMore(p: nat, d: nat, total: nat, z: nat, b: nat)
    requires z <= d && d > 0
    ensures
      var a := p + d + total;
      Pattern(p, d, total + z, b) == Pattern(p, d, total, if a <= b < a + z then b - d else b)
  {
    var a := p + d + total;
    if a <= b < a + z {
      Wraps(b - p - d, d);
    }
  }

  lemma Wraps(x: nat, d: nat)
    requires d > 0
    ensures if x < d then x % d == x else (x - d) % d == x % d
  {
    if x < d {
      Euclid(x, d, 0, x);
    } else {
      Euclid(x - d, d, x / d - 1, x % d);
    }
  }

  /** `rep movs` upwards by at least an element fills the destination with the first `d` bytes of the source
      over and over; without overlap that is the source itself. */
  lemma RepRepeats(i: Insn, e: View, s: State, p: nat, d: nat, b: nat)
    requires Width(i.size) && Repeats(i) && Accessible(i, e, s, s.rcx) && Stretch(i, e, s, s.rcx, p, d) && i.size <= d
    requires b < |s.mem|
    ensures
      var o := Execute(i, e, s);
      && o.Ended? && |o.st.mem| == |s.mem| && Pattern(p, d, Extent(s.rcx, i.size), b) < |s.mem|
      && o.st.mem[b] == s.mem[Pattern(p, d, Extent(s.rcx, i.size), b)]
  {
    assert i.op == Movs;
    hide Execute, Accessible, Stretch, Moved, Pattern, Extent;
    RepTraces(i, e, s);
    PatternOrigin(i, e, s, s.rcx, p, d, b);
    hide Origin;
  }

  // --- what a load leaves -----------------------------------------------------------------

  /** Only the low bytes of RAX are replaced. */
  lemma MergeMeans(rax: u64, v: nat, size: nat)
    requires Width(size)
    ensures Merge(rax, v, size) % Modulus(size) == v % Modulus(size)
    ensures Merge(rax, v, size) / Modulus(size) == rax / Modulus(size)
  {
    var m := Modulus(size);
    hide Modulus;
    Euclid(Merge(rax, v, size), m, rax / m, v % m);
  }

  lemma MergeTwice(rax: u64, v: nat, w: nat, size: nat)
    requires Width(size)
    ensures Merge(Merge(rax, v, size), w, size) == Merge(rax, w, size)
  {
    MergeMeans(rax, v, size);
    var m, r := Modulus(size), Merge(rax, v, size);
    hide Modulus, Merge;
    assert r == r / m * m + r % m && rax == rax / m * m + rax % m;
    MergeIs(rax, w, size);
    MergeIs(r, w, size);
  }

  lemma MergeIs(rax: u64, v: nat, size: nat)
    requires Width(size)
    ensures Merge(rax, v, size) == rax - rax % Modulus(size) + v % Modulus(size)
  {
  }

  ghost predicate AllRead(i: Insn, e: View, s: State, n: nat) {
    forall k {:trigger Reads(i, e, s, s.rsi, k)} | 0 <= k < n :: Reads(i, e, s, s.rsi, k)
  }

  /** RAX after `n` elements have been loaded one over the other. */
  ghost function Loaded(i: Insn, e: View, s: State, n: nat): u64
    requires Width(i.size) && AllRead(i, e, s, n)
  {
    if n == 0 then s.rax
    else
      assert Reads(i, e, s, s.rsi, n - 1);
      Merge(s.rax, Load(e.read, s.mem, At(i, s.rsi, n - 1), i.size), i.size)
  }

  lemma LoadOne(i: Insn, e: View, s: State, n: nat, k: nat, rcx: u64)
    requires Width(i.size) && i.op == Lods && k < n && AllRead(i, e, s, n)
    ensures AllRead(i, e, s, k) && AllRead(i, e, s, k + 1)
    ensures Once(i, e, s.(rsi := At(i, s.rsi, k), rcx := rcx, rax := Loaded(i, e, s, k)))
         == Done(s.(rsi := At(i, s.rsi, k + 1), rcx := rcx, rax := Loaded(i, e, s, k + 1)))
  {
    AtNext(i, s.rsi, k);
    assert Reads(i, e, s, s.rsi, k);
    if k > 0 {
      assert Reads(i, e, s, s.rsi, k - 1);
      MergeTwice(s.rax, Load(e.read, s.mem, At(i, s.rsi, k - 1), i.size), Load(e.read, s.mem, At(i, s.rsi, k), i.size), i.size);
    }
    hide At, Get, Next, Merge;
  }

  /** A repeated load leaves the last element in the low bytes of RAX and RSI past it. */
  lemma {:induction false} Loads(i: Insn, e: View, s: State, n: nat, k: nat)
    requires Width(i.size) && i.op == Lods && Repeats(i) && k <= n < TWO64 && AllRead(i, e, s, n) && AllRead(i, e, s, k)
    ensures Loop(i, e, s.(rsi := At(i, s.rsi, k), rcx := n - k, rax := Loaded(i, e, s, k)), n - k)
         == Ended(s.(rsi := At(i, s.rsi, n), rcx := 0, rax := Loaded(i, e, s, n)))
    decreases n - k
  {
    hide Once, AllRead, Loaded, At;
    if k < n {
      LoadOne(i, e, s, n, k, n - k);
      Loads(i, e, s, n, k + 1);
    }
  }

  /** `rep lods` as a whole. */
  lemma RepLoads(i: Insn, e: View, s: State)
    requires Width(i.size) && i.op == Lods && Repeats(i) && AllRead(i, e, s, s.rcx)
    ensures Execute(i, e, s) == Ended(s.(rsi := At(i, s.rsi, s.rcx), rcx := 0, rax := Loaded(i, e, s, s.rcx)))
  {
    AtNext(i, s.rsi, 0);
    assert AllRead(i, e, s, 0);
    hide At, Loop;
    Loads(i, e, s, s.rcx, 0);
    assert s.(rsi := At(i, s.rsi, 0), rcx := s.rcx, rax := Loaded(i, e, s, 0)) == s;
  }

  // --- what a scan finds ----------------------------------------------------------------

  /** The operands compared at element `k`; the first is AL, AX, EAX or RAX, or the element at RSI. */
  ghost predicate Comparable(i: Insn, e: View, s: State, k: nat) {
    Reads(i, e, s, s.rdi, k) && (i.op == Cmps ==> Reads(i, e, s, s.rsi, k))
  }

  ghost function Left(i: Insn, e: View, s: State, k: nat): nat
    requires Comparable(i, e, s, k)
  {
    if i.op == Cmps then Load(e.read, s.mem, At(i, s.rsi, k), i.size) else s.rax % Modulus(i.size)
  }

  ghost function Right(i: Insn, e: View, s: State, k: nat): nat
    requires Comparable(i, e, s, k)
  {
    Load(e.read, s.mem, At(i, s.rdi, k), i.size)
  }

  /** Element `k` ends the scan. */
  ghost predicate Hit(i: Insn, e: View, s: State, k: nat)
    requires Comparable(i, e, s, k)
  {
    (i.rep && Left(i, e, s, k) != Right(i, e, s, k)) || (i.repne && Left(i, e, s, k) == Right(i, e, s, k))
  }

  /** The first `n` elements can be compared and none of them ends the scan. */
  ghost predicate Passes(i: Insn, e: View, s: State, n: nat) {
    forall k {:trigger Comparable(i, e, s, k)} | 0 <= k < n :: Comparable(i, e, s, k) && !Hit(i, e, s, k)
  }

  ghost function Scanned(i: Insn, s: State, n: nat, rcx: u64, f: Flags): State {
    State(if i.op == Cmps then At(i, s.rsi, n) else s.rsi, At(i, s.rdi, n), rcx, s.rax, f, s.mem)
  }

  /** The flags after comparing `n` elements. */
  ghost predicate FlagsOf(i: Insn, e: View, s: State, n: nat, f: Flags) {
    if n == 0 then f == s.flags
    else
      Comparable(i, e, s, n - 1)
      && f == Compared(Left(i, e, s, n - 1), Right(i, e, s, n - 1), i.size, Flags(false, false, false, false, false))
  }

  lemma LoadFits(mem: seq<byte>, a: nat, size: nat)
    requires Width(size) && a + size <= |mem|
    ensures Get(mem, a, size) < Modulus(size)
  {
    LeOfValue(mem[a..a + size]);
    Pow256Constants();
    hide Value, Le, Pow256;
  }

  lemma ComparedIs(a: nat, b: nat, size: nat, f: Flags)
    requires a < Modulus(size) && b < Modulus(size)
    ensures Compared(a, b, size, f).zf <==> a == b
    ensures Compared(a, b, size, f) == Compared(a, b, size, Flags(false, false, false, false, false))
  {
    Euclid(a, Modulus(size), 0, a);
    Euclid(b, Modulus(size), 0, b);
    CompareDecides(a, b, size, f.cf, f.of);
    assert Operate(7, a, b, size, f.cf, f.of) == Operate(7, a, b, size, false, false);
    hide Operate, Modulus, Ones;
  }

  lemma ModMod(a: nat, m: nat)
    requires m > 0
    ensures a % m < m && a % m % m == a % m
  {
    Euclid(a % m, m, 0, a % m);
  }

  lemma CompareOne(i: Insn, e: View, s: State, k: nat, rcx: u64, f: Flags) returns (f': Flags)
    requires Width(i.size) && (i.op == Scas || i.op == Cmps) && Comparable(i, e, s, k) && Repeats(i)
    ensures Once(i, e, Scanned(i, s, k, rcx, f)) == Done(Scanned(i, s, k + 1, rcx, f'))
    ensures FlagsOf(i, e, s, k + 1, f') && (Stops(i, f') <==> Hit(i, e, s, k))
    ensures f'.zf <==> Left(i, e, s, k) == Right(i, e, s, k)
  {
    AtNext(i, s.rdi, k);
    AtNext(i, s.rsi, k);
    var l, r := Left(i, e, s, k), Right(i, e, s, k);
    LoadFits(s.mem, e.read[At(i, s.rdi, k)], i.size);
    if i.op == Cmps {
      LoadFits(s.mem, e.read[At(i, s.rsi, k)], i.size);
    }
    hide At, Get, Next, Modulus;
    ModMod(s.rax, Modulus(i.size));
    ComparedIs(l, r, i.size, f);
    f' := Compared(l, r, i.size, f);
    if i.op == Scas {
      SameCompared(s.rax, r, i.size, f);
    }
    hide Compared;
  }

  lemma SameCompared(a: nat, b: nat, size: nat, f: Flags)
    ensures Compared(a % Modulus(size), b, size, f) == Compared(a, b, size, f)
  {
    ModMod(a, Modulus(size));
    hide Operate, Modulus;
  }

  /** Every element up to the one that ends the scan can be compared. */
  ghost predicate Searchable(i: Insn, e: View, s: State, n: nat) {
    forall j {:trigger Comparable(i, e, s, j)} | 0 <= j < n && Passes(i, e, s, j) :: Comparable(i, e, s, j)
  }

  /** The scan of `n` elements ends after `p`: all of them, or up to the first that ends it. The flags
      are those of the last comparison and memory is untouched. */
  ghost predicate Found(i: Insn, e: View, s: State, n: nat, p: nat, o: Outcome) {
    && p <= n < TWO64 && o.Ended? && o.st == Scanned(i, s, p, n - p, o.st.flags) && FlagsOf(i, e, s, p, o.st.flags)
    && (p < n || !Passes(i, e, s, n) ==>
          p > 0 && Passes(i, e, s, p - 1) && Comparable(i, e, s, p - 1) && Hit(i, e, s, p - 1))
  }

  lemma FoundAll(i: Insn, e: View, s: State, n: nat, f: Flags)
    requires n < TWO64 && Passes(i, e, s, n) && FlagsOf(i, e, s, n, f)
    ensures Found(i, e, s, n, n, Ended(Scanned(i, s, n, 0, f)))
  {
  }

  lemma FoundHit(i: Insn, e: View, s: State, n: nat, k: nat, f: Flags)
    requires k < n < TWO64 && Passes(i, e, s, k) && Comparable(i, e, s, k) && Hit(i, e, s, k) && FlagsOf(i, e, s, k + 1, f)
    ensures Found(i, e, s, n, k + 1, Ended(Scanned(i, s, k + 1, n - k - 1, f)))
  {
  }

  lemma SearchableAt(i: Insn, e: View, s: State, n: nat, k: nat)
    requires Searchable(i, e, s, n) && Passes(i, e, s, k) && k < n
    ensures Comparable(i, e, s, k)
  {
  }

  /** A repeated scan or comparison. */
  lemma {:induction false} Scans(i: Insn, e: View, s: State, n: nat, k: nat, f: Flags) returns (p: nat)
    requires Width(i.size) && (i.op == Scas || i.op == Cmps) && Repeats(i) && k <= n < TWO64
    requires Passes(i, e, s, k) && FlagsOf(i, e, s, k, f) && Searchable(i, e, s, n)
    ensures Found(i, e, s, n, p, Loop(i, e, Scanned(i, s, k, n - k, f), n - k))
    decreases n - k
  {
    hide Once, Scanned, FlagsOf, Comparable, Passes, Searchable, Found, Hit, Stops;
    p := k;
    if k == n {
      FoundAll(i, e, s, n, f);
    } else {
      SearchableAt(i, e, s, n, k);
      var f' := CompareOne(i, e, s, k, n - k, f);
      ScannedCount(i, s, k + 1, n - k, n - k - 1, f');
      if Hit(i, e, s, k) {
        p := k + 1;
        FoundHit(i, e, s, n, k, f');
      } else {
        PassesMore(i, e, s, k);
        p := Scans(i, e, s, n, k + 1, f');
      }
    }
  }

  /** `repe`/`repne` `scas` and `cmps` as a whole. */
  lemma RepScans(i: Insn, e: View, s: State) returns (p: nat)
    requires Width(i.size) && (i.op == Scas || i.op == Cmps) && Repeats(i) && Searchable(i, e, s, s.rcx)
    ensures Found(i, e, s, s.rcx, p, Execute(i, e, s))
  {
    hide Comparable, Searchable, Found, Loop, Scanned;
    ScannedNone(i, s);
    p := Scans(i, e, s, s.rcx, 0, s.flags);
  }

  lemma ScannedNone(i: Insn, s: State)
    ensures Scanned(i, s, 0, s.rcx, s.flags) == s
  {
    AtNext(i, s.rdi, 0);
    AtNext(i, s.rsi, 0);
    hide At;
  }

  // --- one element, without a prefix --------------------------------------------------------------

  /** The flags of a comparison decide the order of what was compared, the first operand on the left. */
  lemma ComparedDecides(a: nat, b: nat, size: nat, f: Flags)
    requires a < Modulus(size) && b < Modulus(size)
    ensures Decides(Compared(a, b, size, f), a < b, Signed(a, Half(size)) < Signed(b, Half(size)), a == b)
  {
    Euclid(a, Modulus(size), 0, a);
    Euclid(b, Modulus(size), 0, b);
    CompareDecides(a, b, size, f.cf, f.of);
    hide Operate, Modulus, Ones;
  }

  lemma OnceOnly(i: Insn, e: View, s: State)
    requires Width(i.size) && !i.rep && !i.repne
    ensures Execute(i, e, s) == match Once(i, e, s) case Stuck(a) => Faulted(a, s) case Done(t) => Ended(t)
  {
    hide Once;
  }

  /** `movs`: the element at RSI to RDI, both registers on; the source is looked at first. */
  lemma MovsOnce(i: Insn, e: View, s: State)
    requires Width(i.size) && !i.rep && !i.repne && i.op == Movs
    ensures
      var z, n, o := i.size, |s.mem|, Execute(i, e, s);
      if !(s.rsi in e.read && e.read[s.rsi] + z <= n) then o == Faulted(s.rsi, s)
      else if !(s.rdi in e.write && e.write[s.rdi] + z <= n) then o == Faulted(s.rdi, s)
      else
        var p, q := e.read[s.rsi], e.write[s.rdi];
        o == Ended(s.(rsi := At(i, s.rsi, 1), rdi := At(i, s.rdi, 1), mem := s.mem[..q] + s.mem[p..p + z] + s.mem[q + z..]))
  {
    AtNext(i, s.rsi, 0);
    AtNext(i, s.rdi, 0);
    OnceOnly(i, e, s);
    hide Le, Value, Execute, At, Next, Put;
    if Can(e.read, s.rsi, i.size, |s.mem|) && Can(e.write, s.rdi, i.size, |s.mem|) {
      CopyOne(s.mem, e.read[s.rsi], e.write[s.rdi], i.size);
    }
  }

  lemma CopyOne(mem: seq<byte>, p: nat, q: nat, z: nat)
    requires p + z <= |mem| && q + z <= |mem|
    ensures Put(mem, q, Get(mem, p, z), z) == mem[..q] + mem[p..p + z] + mem[q + z..]
  {
    LeOfValue(mem[p..p + z]);
    hide Le, Value;
  }

  /** `stos`: the low bytes of RAX to RDI. */
  lemma StosOnce(i: Insn, e: View, s: State)
    requires Width(i.size) && !i.rep && !i.repne && i.op == Stos
    ensures
      var z, n, o := i.size, |s.mem|, Execute(i, e, s);
      if !(s.rdi in e.write && e.write[s.rdi] + z <= n) then o == Faulted(s.rdi, s)
      else
        var q := e.write[s.rdi];
        && o.Ended? && o.st == s.(rdi := At(i, s.rdi, 1), mem := o.st.mem) && |o.st.mem| == n
        && o.st.mem[..q] == s.mem[..q] && o.st.mem[q + z..] == s.mem[q + z..]
        && Get(o.st.mem, q, z) == s.rax % Modulus(z)
  {
    AtNext(i, s.rsi, 0);
    AtNext(i, s.rdi, 0);
    OnceOnly(i, e, s);
    if Can(e.write, s.rdi, i.size, |s.mem|) {
      StoredValue(s.mem, e.write[s.rdi], s.rax, i.size);
    }
    hide Execute, Get, Put, Modulus, At, Next;
  }

  lemma StoredValue(mem: seq<byte>, q: nat, v: nat, size: nat)
    requires Width(size) && q + size <= |mem|
    ensures
      var m := Put(mem, q, v, size);
      m[..q] == mem[..q] && m[q + size..] == mem[q + size..] && Get(m, q, size) == v % Modulus(size)
  {
    Pow256Constants();
    LowBytes(v, size);
    PutHere(mem, q, v, size);
    hide Le, Value, Pow256;
  }

  /** The low bytes of a number are those of its remainder. */
  lemma {:induction false} LowBytes(v: nat, n: nat)
    ensures Value(Le(v, n)) == v % Pow256(n)
    decreases n
  {
    if n > 0 {
      LowBytes(v / 256, n - 1);
      assert Le(v, n)[1..] == Le(v / 256, n - 1);
      LowParts(v, Pow256(n - 1));
    } else {
      Euclid(v, 1, v, 0);
    }
  }

  lemma LowParts(v: nat, p: nat)
    requires p > 0
    ensures v % (256 * p) == v % 256 + 256 * (v / 256 % p)
  {
    var x, l := v / 256, v % 256;
    var q, r := x / p, x % p;
    assert x == q * p + r;
    assert 256 * (q * p) == q * (256 * p);
    Euclid(v, 256 * p, q, 256 * r + l);
  }

  /** `lods`: the element at RSI to the low bytes of RAX. */
  lemma LodsOnce(i: Insn, e: View, s: State)
    requires Width(i.size) && !i.rep && !i.repne && i.op == Lods
    ensures
      var z, n, o := i.size, |s.mem|, Execute(i, e, s);
      if !(s.rsi in e.read && e.read[s.rsi] + z <= n) then o == Faulted(s.rsi, s)
      else
        && o.Ended? && o.st == s.(rsi := At(i, s.rsi, 1), rax := o.st.rax)
        && o.st.rax % Modulus(z) == Get(s.mem, e.read[s.rsi], z) && o.st.rax / Modulus(z) == s.rax / Modulus(z)
  {
    AtNext(i, s.rsi, 0);
    AtNext(i, s.rdi, 0);
    OnceOnly(i, e, s);
    if Can(e.read, s.rsi, i.size, |s.mem|) {
      var v := Get(s.mem, e.read[s.rsi], i.size);
      LoadFits(s.mem, e.read[s.rsi], i.size);
      MergeMeans(s.rax, v, i.size);
      Euclid(v, Modulus(i.size), 0, v);
    }
    hide Execute, Get, Modulus, Merge, At, Next;
  }

  /** `scas`: RAX against the element at RDI. */
  lemma ScasOnce(i: Insn, e: View, s: State)
    requires Width(i.size) && !i.rep && !i.repne && i.op == Scas
    ensures
      var z, n, o := i.size, |s.mem|, Execute(i, e, s);
      if !(s.rdi in e.read && e.read[s.rdi] + z <= n) then o == Faulted(s.rdi, s)
      else
        var a, b, h := s.rax % Modulus(z), Get(s.mem, e.read[s.rdi], z), Half(z);
        && o.Ended? && o.st == s.(rdi := At(i, s.rdi, 1), flags := o.st.flags)
        && Decides(o.st.flags, a < b, Signed(a, h) < Signed(b, h), a == b)
  {
    AtNext(i, s.rsi, 0);
    AtNext(i, s.rdi, 0);
    OnceOnly(i, e, s);
    if Can(e.read, s.rdi, i.size, |s.mem|) {
      LoadFits(s.mem, e.read[s.rdi], i.size);
      ComparedDecides(s.rax % Modulus(i.size), Get(s.mem, e.read[s.rdi], i.size), i.size, s.flags);
      SameCompared(s.rax, Get(s.mem, e.read[s.rdi], i.size), i.size, s.flags);
    }
    hide Execute, Get, Modulus, Compared, Decides, At, Next;
  }

  /** `cmps`: the element at RSI against the one at RDI. */
  lemma CmpsOnce(i: Insn, e: View, s: State)
    requires Width(i.size) && !i.rep && !i.repne && i.op == Cmps
    ensures
      var z, n, o := i.size, |s.mem|, Execute(i, e, s);
      if !(s.rsi in e.read && e.read[s.rsi] + z <= n && s.rdi in e.read && e.read[s.rdi] + z <= n) then o == Faulted(s.rsi, s)
      else
        var a, b, h := Get(s.mem, e.read[s.rsi], z), Get(s.mem, e.read[s.rdi], z), Half(z);
        && o.Ended? && o.st == s.(rsi := At(i, s.rsi, 1), rdi := At(i, s.rdi, 1), flags := o.st.flags)
        && Decides(o.st.flags, a < b, Signed(a, h) < Signed(b, h), a == b)
  {
    hide Execute, Get, Modulus, Compared, Decides, At, Next, Once, Signed, Half;
    AtNext(i, s.rsi, 0);
    AtNext(i, s.rdi, 0);
    OnceOnly(i, e, s);
    CmpsElement(i, e, s);
    if Can(e.read, s.rsi, i.size, |s.mem|) && Can(e.read, s.rdi, i.size, |s.mem|) {
      LoadFits(s.mem, e.read[s.rsi], i.size);
      LoadFits(s.mem, e.read[s.rdi], i.size);
      ComparedDecides(Get(s.mem, e.read[s.rsi], i.size), Get(s.mem, e.read[s.rdi], i.size), i.size, s.flags);
    }
  }

  lemma CmpsElement(i: Insn, e: View, s: State)
    requires Width(i.size) && i.op == Cmps
    ensures Once(i, e, s) ==
      if Can(e.read, s.rsi, i.size, |s.mem|) && Can(e.read, s.rdi, i.size, |s.mem|)
      then Done(s.(flags := Compared(Get(s.mem, e.read[s.rsi], i.size), Get(s.mem, e.read[s.rdi], i.size), i.size, s.flags),
                   rsi := Next(i, s.rsi), rdi := Next(i, s.rdi)))
      else Stuck(s.rsi)
  {
    hide Get, Compared, Next;
  }

  // --- the reported fault address ----------------------------------------------------------

  /** The instruction accesses `a` at its current element and the view refuses it. */
  ghost predicate Refused(i: Insn, e: View, s: State, a: u64) {
    || (a == s.rsi && i.op in {Movs, Lods, Cmps} && !Can(e.read, a, i.size, |s.mem|))
    || (a == s.rdi && i.op in {Scas, Cmps} && !Can(e.read, a, i.size, |s.mem|))
    || (a == s.rdi && i.op in {Movs, Stos} && !Can(e.write, a, i.size, |s.mem|))
  }

  /** A fault reports an address that was refused, except exactly when `cmps` can read the element at
      RSI: the one refused is then at RDI, and RSI is reported. */
  lemma ReportedAddress(i: Insn, e: View, s: State)
    requires Width(i.size) && Once(i, e, s).Stuck?
    ensures Refused(i, e, s, Once(i, e, s).addr) <==> !(i.op == Cmps && Can(e.read, s.rsi, i.size, |s.mem|))
  {
  }

  /** In that case making the reported address accessible does not help: whatever else is let through,
      the instruction faults again at the same element with the same report, for ever. */
  lemma CompareStuck(i: Insn, es: seq<View>, s: State)
    requires Width(i.size) && i.op == Cmps && Count(i, s) > 0 && es != []
    requires forall k | 0 <= k < |es| :: !Can(es[k].read, s.rdi, i.size, |s.mem|)
    ensures Tries(i, es, s) == Faulted(s.rsi, s)
    decreases |es|
  {
    assert !Can(es[0].read, s.rdi, i.size, |s.mem|);
    if |es| > 1 {
      CompareStuck(i, es[1..], s);
    }
  }

  /** Two bytes to compare, the one at RSI readable and the one at RDI not: the address reported is readable. */
  lemma ReportsReadable()
    ensures
      var i, e := Insn(Cmps, true, false, 1, false), View(map[0x1000 := 0], map[]);
      var s := State(0x1000, 0x2000, 2, 0, Flags(false, false, false, false, false), [7]);
      Execute(i, e, s) == Faulted(0x1000, s) && Can(e.read, 0x1000, 1, |s.mem|) && !Refused(i, e, s, 0x1000)
  {
  }

  lemma ScannedCount(i: Insn, s: State, k: nat, c: u64, c': u64, f: Flags)
    ensures Scanned(i, s, k, c, f).(rcx := c') == Scanned(i, s, k, c', f) && Scanned(i, s, k, c, f).flags == f
  {
  }

  lemma PassesMore(i: Insn, e: View, s: State, k: nat)
    requires Passes(i, e, s, k) && Comparable(i, e, s, k) && !Hit(i, e, s, k)
    ensures Passes(i, e, s, k + 1)
  {
  }
}
