/** The lists a debugger walks (kernel/src/kd.rs): modules and processes published in static arrays and
    linked into two rings, and the walks of tools/kdbg_check.py over them. Memory is 64-bit words by
    address. */
module KdRings {
  import opened Bytes
  import Alu

  type Memory = map<nat, nat>

  function Word(mem: Memory, a: nat): nat { if a in mem then mem[a] else 0 }

  // --- rings ---------------------------------------------------------------------------

  /** List entries of sixteen bytes, clear of one another and of the head. */
  ghost predicate Spaced(nodes: seq<nat>, head: nat) {
    && (forall i, j {:trigger nodes[i], nodes[j]} | 0 <= i < j < |nodes| :: nodes[i] + 16 <= nodes[j])
    && (forall i {:trigger nodes[i]} | 0 <= i < |nodes| :: head + 16 <= nodes[i] || nodes[i] + 16 <= head)
  }

  function After(nodes: seq<nat>, head: nat, i: nat): nat { if i + 1 < |nodes| then nodes[i + 1] else head }

  function Before(nodes: seq<nat>, head: nat, i: nat): nat { if 0 < i <= |nodes| then nodes[i - 1] else head }

  ghost predicate Linked(mem: Memory, nodes: seq<nat>, head: nat, i: nat)
    requires i < |nodes|
  {
    Word(mem, nodes[i]) == After(nodes, head, i) && Word(mem, nodes[i] + 8) == Before(nodes, head, i)
  }

  /** The entries in order, linked both ways and closed by the head. */
  ghost predicate Ring(mem: Memory, nodes: seq<nat>, head: nat) {
    && (forall i: nat {:trigger Linked(mem, nodes, head, i)} | i < |nodes| :: Linked(mem, nodes, head, i))
    && Word(mem, head) == (if nodes == [] then head else nodes[0])
    && Word(mem, head + 8) == Before(nodes, head, |nodes|)
  }

  /** A word that is a link of one of the entries or of the head. */
  ghost predicate IsLink(nodes: seq<nat>, head: nat, a: nat) {
    a == head || a == head + 8 || exists i: nat :: i < |nodes| && (a == nodes[i] || a == nodes[i] + 8)
  }

  /** Only links differ. */
  ghost predicate OnlyLinks(mem: Memory, mem': Memory, nodes: seq<nat>, head: nat) {
    forall a: nat {:trigger Word(mem', a)} | !IsLink(nodes, head, a) :: Word(mem', a) == Word(mem, a)
  }

  /** A debugger following Flink (or Blink, at offset 8) from a head, at most `limit` entries. */
  function Walk(mem: Memory, head: nat, node: nat, offset: nat, limit: nat): seq<nat>
    decreases limit
  {
    if node == head || limit == 0 then [] else [node] + Walk(mem, head, Word(mem, node + offset), offset, limit - 1)
  }

  lemma {:induction false} WalkForward(mem: Memory, nodes: seq<nat>, head: nat, k: nat, limit: nat)
    requires Ring(mem, nodes, head) && Spaced(nodes, head) && k <= |nodes| && |nodes| - k <= limit
    ensures Walk(mem, head, if k < |nodes| then nodes[k] else head, 0, limit) == nodes[k..]
    decreases |nodes| - k
  {
    if k < |nodes| {
      assert Linked(mem, nodes, head, k);
      WalkForward(mem, nodes, head, k + 1, limit - 1);
    }
  }

  lemma {:induction false} WalkBackward(mem: Memory, nodes: seq<nat>, head: nat, k: nat, limit: nat)
    requires Ring(mem, nodes, head) && Spaced(nodes, head) && k <= |nodes| && k <= limit
    ensures Walk(mem, head, Before(nodes, head, k), 8, limit) == Reversed(nodes[..k])
    decreases k
  {
    if k > 0 {
      assert Linked(mem, nodes, head, k - 1);
      WalkBackward(mem, nodes, head, k - 1, limit - 1);
      assert nodes[..k][..k - 1] == nodes[..k - 1];
    }
  }

  function Reversed(s: seq<nat>): seq<nat> {
    if s == [] then [] else [s[|s| - 1]] + Reversed(s[..|s| - 1])
  }

  /** Following Flink visits the entries in order and Blink in reverse, and both come back to the head. */
  lemma RingWalks(mem: Memory, nodes: seq<nat>, head: nat, limit: nat)
    requires Ring(mem, nodes, head) && Spaced(nodes, head) && |nodes| <= limit
    ensures Walk(mem, head, Word(mem, head), 0, limit) == nodes
    ensures Walk(mem, head, Word(mem, head + 8), 8, limit) == Reversed(nodes)
  {
    WalkForward(mem, nodes, head, 0, limit);
    WalkBackward(mem, nodes, head, |nodes|, limit);
    assert nodes[0..] == nodes && nodes[..|nodes|] == nodes;
  }

  /** A ring being linked: the first `n` entries are done. */
  ghost predicate Partly(mem: Memory, was: Memory, nodes: seq<nat>, head: nat, n: nat) {
    && (forall i: nat {:trigger Linked(mem, nodes, head, i)} | i < n && i < |nodes| :: Linked(mem, nodes, head, i))
    && OnlyLinks(was, mem, nodes, head)
  }

  lemma OnlyTwo(was: Memory, mem: Memory, nodes: seq<nat>, head: nat, a: nat, v: nat, w: nat)
    requires OnlyLinks(was, mem, nodes, head) && (a == head || a in nodes)
    ensures OnlyLinks(was, mem[a := v][a + 8 := w], nodes, head)
  {
    var mem' := mem[a := v][a + 8 := w];
    assert IsLink(nodes, head, a) && IsLink(nodes, head, a + 8);
    hide IsLink;
    forall b: nat {:trigger Word(mem', b)} | !IsLink(nodes, head, b)
      ensures Word(mem', b) == Word(was, b)
    {
      assert Word(mem, b) == Word(was, b);
    }
  }

  lemma PartlyMore(mem: Memory, was: Memory, nodes: seq<nat>, head: nat, n: nat)
    requires Partly(mem, was, nodes, head, n) && Spaced(nodes, head) && n < |nodes|
    ensures
      var mem' := mem[nodes[n] := After(nodes, head, n)][nodes[n] + 8 := Before(nodes, head, n)];
      Partly(mem', was, nodes, head, n + 1)
  {
    var mem' := mem[nodes[n] := After(nodes, head, n)][nodes[n] + 8 := Before(nodes, head, n)];
    hide After, Before, OnlyLinks;
    forall i: nat {:trigger Linked(mem', nodes, head, i)} | i < n + 1 && i < |nodes|
      ensures Linked(mem', nodes, head, i)
    {
      if i < n {
        assert Linked(mem, nodes, head, i);
        assert nodes[i] + 16 <= nodes[n];
      }
    }
    OnlyTwo(was, mem, nodes, head, nodes[n], After(nodes, head, n), Before(nodes, head, n));
  }

  lemma HeadLast(mem: Memory, was: Memory, nodes: seq<nat>, head: nat)
    requires Partly(mem, was, nodes, head, |nodes|) && Spaced(nodes, head)
    ensures
      var mem' := mem[head := if nodes == [] then head else nodes[0]][head + 8 := Before(nodes, head, |nodes|)];
      Ring(mem', nodes, head) && OnlyLinks(was, mem', nodes, head)
  {
    var mem' := mem[head := if nodes == [] then head else nodes[0]][head + 8 := Before(nodes, head, |nodes|)];
    hide After, Before, OnlyLinks;
    forall i: nat {:trigger Linked(mem', nodes, head, i)} | i < |nodes|
      ensures Linked(mem', nodes, head, i)
    {
      assert Linked(mem, nodes, head, i);
      assert head + 16 <= nodes[i] || nodes[i] + 16 <= head;
    }
    OnlyTwo(was, mem, nodes, head, head, if nodes == [] then head else nodes[0], Before(nodes, head, |nodes|));
  }

  // --- where things are -----------------------------------------------------------------------

  /** The addresses of the two heads, the two static arrays and the other variables. */
  datatype Layout = Layout(moduleHead: nat, processHead: nat, modules: nat, processes: nat, globals: Globals)

  /** The type-index table, the process type and the variable that points at it, the two process variables,
      and the debugger data block. */
  datatype Globals = Globals(types: nat, processType: nat, typeVar: nat, initial: nat, idle: nat, block: nat)

  ghost predicate Clear(a: nat, n: nat, b: nat, m: nat) { a + n <= b || b + m <= a }

  ghost predicate Sound(l: Layout) {
    && Clear(l.moduleHead, 16, l.processHead, 16) && Clear(l.moduleHead, 16, l.modules, 0xB00)
    && Clear(l.moduleHead, 16, l.processes, 0x700) && Clear(l.processHead, 16, l.modules, 0xB00)
    && Clear(l.processHead, 16, l.processes, 0x700) && Clear(l.modules, 0xB00, l.processes, 0x700)
  }

  /** A word clear of heads and arrays. */
  ghost predicate Free(l: Layout, a: nat) {
    && Clear(a, 8, l.moduleHead, 16) && Clear(a, 8, l.processHead, 16)
    && Clear(a, 8, l.modules, 0xB00) && Clear(a, 8, l.processes, 0x700)
  }

  /** The words `commit` writes besides: the two process variables, the process slot of the type table, the
      variable beside it, and the fields of the data block. */
  function Targets(g: Globals): seq<nat> {
    [g.initial, g.idle, g.types + 24, g.typeVar, g.block, g.block + 8, g.block + 0x10, g.block + 0x18, g.block + 0x48,
     g.block + 0x50]
  }

  /** They are clear of the lists and all different. */
  ghost predicate AllFree(l: Layout) {
    && (forall k {:trigger Targets(l.globals)[k]} | 0 <= k < 10 :: Free(l, Targets(l.globals)[k]))
    && (forall j, k {:trigger Targets(l.globals)[j], Targets(l.globals)[k]} | 0 <= j < k < 10 ::
          Targets(l.globals)[j] != Targets(l.globals)[k])
  }

  /** A module entry, which starts with its links. */
  function ModuleAt(l: Layout, i: nat): nat { l.modules + i * 0xB0 }

  /** A process object: a header of 0x30 bytes, then the process, whose links are at offset 8. */
  function HeaderAt(l: Layout, i: nat): nat { l.processes + i * 0x70 }

  function ProcessAt(l: Layout, i: nat): nat { HeaderAt(l, i) + 0x30 }

  function ModuleNodes(l: Layout, n: nat): (s: seq<nat>)
    ensures |s| == n && forall i {:trigger s[i]} | 0 <= i < n :: s[i] == ModuleAt(l, i)
  {
    seq(n, (i: nat) => ModuleAt(l, i))
  }

  function ProcessNodes(l: Layout, n: nat): (s: seq<nat>)
    ensures |s| == n && forall i {:trigger s[i]} | 0 <= i < n :: s[i] == ProcessAt(l, i) + 8
  {
    seq(n, (i: nat) => ProcessAt(l, i) + 8)
  }

  lemma NodesSpaced(l: Layout, n: nat)
    requires Sound(l) && n <= 16
    ensures Spaced(ModuleNodes(l, n), l.moduleHead) && Spaced(ProcessNodes(l, n), l.processHead)
  {
    hide ModuleNodes, ProcessNodes;
  }

  // --- what is published ---------------------------------------------------------------------

  datatype Module = Module(base: nat, size: nat, name: seq<byte>)

  datatype Process = Process(pid: nat, cr3: nat, peb: nat, name: seq<byte>)

  // --- names -----------------------------------------------------------------------------------

  function Cut(s: seq<byte>, n: nat): seq<byte> { if |s| <= n then s else s[..n] }

  /** A name in UTF-16, as the debugger reads it. */
  function Wide(s: seq<byte>): (w: seq<byte>)
    ensures |w| == 2 * |s|
  {
    if s == [] then [] else Wide(s[..|s| - 1]) + [s[|s| - 1], 0]
  }

  /** Bytes with zeros after them, up to `n`. */
  function Padded(s: seq<byte>, n: nat): (p: seq<byte>)
    requires |s| <= n
    ensures |p| == n && p[..|s|] == s
  {
    s + seq(n - |s|, _ => 0)
  }

  /** The 64 bytes of a module's name buffer: at most 31 characters and a NUL. */
  function NameBytes(name: seq<byte>): (b: seq<byte>)
    ensures |b| == 64
  {
    Padded(Wide(Cut(name, 31)), 64)
  }

  /** The 16 bytes of a process's image name: at most 15 and a NUL. */
  function ImageBytes(name: seq<byte>): (b: seq<byte>)
    ensures |b| == 16
  {
    Padded(Cut(name, 15), 16)
  }

  /** The counted-string header: length and capacity in bytes. */
  function NameHeader(name: seq<byte>): nat { 2 * |Cut(name, 31)| + (2 * |Cut(name, 31)| + 2) * TWO16 }

  function Chunk(b: seq<byte>, k: nat): (v: nat)
    requires 8 * k + 8 <= |b|
  {
    Value(b[8 * k..8 * k + 8])
  }

  ghost predicate ChunkAt(mem: Memory, a: nat, b: seq<byte>, k: nat) {
    8 * k + 8 <= |b| && Word(mem, a + 8 * k) == Chunk(b, k)
  }

  /** The words at `a` are these bytes. */
  ghost predicate BytesAt(mem: Memory, a: nat, b: seq<byte>) {
    |b| % 8 == 0 && forall k: nat {:trigger ChunkAt(mem, a, b, k)} | 8 * k < |b| :: ChunkAt(mem, a, b, k)
  }

  /** What a debugger reads: `n` bytes from a word boundary. */
  function ReadBytes(mem: Memory, a: nat, n: nat): (s: seq<byte>)
    ensures |s| == n
  {
    seq(n, (j: nat) => Le(Word(mem, a + 8 * (j / 8)), 8)[j % 8])
  }

  lemma ReadsBytes(mem: Memory, a: nat, b: seq<byte>, n: nat)
    requires BytesAt(mem, a, b) && n <= |b|
    ensures ReadBytes(mem, a, n) == b[..n]
  {
    hide Le, Value, Word;
    var r := ReadBytes(mem, a, n);
    forall j | 0 <= j < n
      ensures r[j] == b[j]
    {
      ReadsByte(mem, a, b, j);
    }
  }

  lemma ReadsByte(mem: Memory, a: nat, b: seq<byte>, j: nat)
    requires BytesAt(mem, a, b) && j < |b|
    ensures Le(Word(mem, a + 8 * (j / 8)), 8)[j % 8] == b[j]
  {
    hide Le, Value, Word, Chunk;
    var k, r := j / 8, j % 8;
    assert j == 8 * k + r;
    assert ChunkAt(mem, a, b, k);
    ChunkByte(b, k, r);
  }

  lemma ChunkByte(b: seq<byte>, k: nat, r: nat)
    requires 8 * k + 8 <= |b| && r < 8
    ensures Le(Chunk(b, k), 8)[r] == b[8 * k + r]
  {
    hide Le, Value;
    LeOfValue(b[8 * k..8 * k + 8]);
  }

  const PROCESS_TYPE: nat := 3

  function Xor(a: nat, b: nat): nat { Alu.Bitwise(6, a, b, 8) }

  /** The type byte of a header: the process type index, hidden under its address and a cookie. */
  function Stamp(header: nat, cookie: nat): nat { Xor(Xor(PROCESS_TYPE, header / 256 % 256), cookie) }

  /** How a debugger decodes it. */
  function Decode(stamp: nat, header: nat, cookie: nat): nat { Xor(Xor(stamp, header / 256 % 256), cookie) }

  lemma {:induction false} XorBack(t: nat, h: nat, c: nat, n: nat)
    requires t < Alu.Pow2(n)
    ensures
      var s := Alu.Bitwise(6, Alu.Bitwise(6, t, h, n), c, n);
      Alu.Bitwise(6, Alu.Bitwise(6, s, h, n), c, n) == t
    decreases n
  {
    if n > 0 {
      XorBack(t / 2, h / 2, c / 2, n - 1);
      var x1 := Alu.Bitwise(6, t, h, n);
      XorHalf(t, h, n);
      var x2 := Alu.Bitwise(6, x1, c, n);
      XorHalf(x1, c, n);
      var x3 := Alu.Bitwise(6, x2, h, n);
      XorHalf(x2, h, n);
      XorHalf(x3, c, n);
      hide Alu.Bitwise, Alu.Pow2;
      assert t == 2 * (t / 2) + t % 2;
    }
  }

  lemma XorHalf(a: nat, b: nat, n: nat)
    requires n > 0
    ensures
      var x := Alu.Bitwise(6, a, b, n);
      && x / 2 == Alu.Bitwise(6, a / 2, b / 2, n - 1) && x % 2 == (if a % 2 == b % 2 then 0 else 1)
      && x == 2 * (x / 2) + x % 2
  {
    Euclid(Alu.Bitwise(6, a, b, n), 2, Alu.Bitwise(6, a / 2, b / 2, n - 1), if a % 2 == b % 2 then 0 else 1);
  }

  /** Every header decodes to the process type, wherever it lies and whatever the cookie. */
  lemma StampDecodes(header: nat, cookie: nat)
    ensures Decode(Stamp(header, cookie), header, cookie) == PROCESS_TYPE
  {
    Alu.Pow2Of8();
    XorBack(PROCESS_TYPE, header / 256 % 256, cookie, 8);
    hide Alu.Bitwise, Alu.Pow2;
  }

  /** Bit `k` of a number. */
  ghost predicate On(v: nat, k: nat) { v / Alu.Pow2(k) % 2 == 1 }

  /** Stamp and decoding, bit by bit: each flips the bits of a byte by those of the address's second byte and of the
      cookie. */
  lemma StampBits(header: nat, cookie: nat, s: nat, k: nat)
    requires k < 8
    ensures
      var h, c := On(header / 256 % 256, k), On(cookie, k);
      && (On(Stamp(header, cookie), k) <==> On(3, k) != (h != c)) && Stamp(header, cookie) < 256
      && (On(Decode(s, header, cookie), k) <==> On(s, k) != (h != c)) && Decode(s, header, cookie) < 256
  {
    hide Xor, On;
    var b := header / 256 % 256;
    XorBit(3, b, k);
    XorBit(Xor(3, b), cookie, k);
    XorBit(s, b, k);
    XorBit(Xor(s, b), cookie, k);
  }

  lemma XorBit(a: nat, b: nat, k: nat)
    requires k < 8
    ensures (On(Xor(a, b), k) <==> On(a, k) != On(b, k)) && Xor(a, b) < 256
  {
    hide On, Alu.Bitwise, Alu.Pow2, Alu.BitAt;
    Alu.LogicMeans(6, a, b, 8, k);
    OnIs(a, k);
    OnIs(b, k);
    OnIs(Xor(a, b), k);
    Alu.BitwiseBound(6, a, b, 8);
    Alu.Pow2Of8();
  }

  lemma OnIs(a: nat, k: nat)
    ensures On(a, k) <==> Alu.BitAt(a, k)
  {
    hide Alu.BitAt, Alu.Pow2;
    Alu.BitAtIs(a, k);
  }

  ghost predicate ModuleIs(mem: Memory, l: Layout, i: nat, m: Module) {
    var a := ModuleAt(l, i);
    && Word(mem, a + 0x30) == m.base && Word(mem, a + 0x40) == m.size % TWO32
    && Word(mem, a + 0x48) == NameHeader(m.name) && Word(mem, a + 0x50) == a + 0x70
    && Word(mem, a + 0x58) == NameHeader(m.name) && Word(mem, a + 0x60) == a + 0x70
    && BytesAt(mem, a + 0x70, NameBytes(m.name))
  }

  ghost predicate ProcessIs(mem: Memory, l: Layout, i: nat, p: Process) {
    var a := ProcessAt(l, i);
    && Word(mem, a) == PROCESS_TYPE && Word(mem, a + 0x18) == p.cr3 && Word(mem, a + 0x20) == p.peb
    && BytesAt(mem, a + 0x28, ImageBytes(p.name)) && Word(mem, a + 0x38) == p.pid
  }

  /** The words in a range are the same. */
  ghost predicate Same(mem: Memory, mem': Memory, a: nat, n: nat) {
    forall b: nat {:trigger Word(mem', b)} | a <= b < a + n :: Word(mem', b) == Word(mem, b)
  }

  lemma BytesKept(mem: Memory, mem': Memory, a: nat, b: seq<byte>)
    requires BytesAt(mem, a, b) && Same(mem, mem', a, |b|)
    ensures BytesAt(mem', a, b)
  {
    hide Chunk;
    forall k: nat {:trigger ChunkAt(mem', a, b, k)} | 8 * k < |b|
      ensures ChunkAt(mem', a, b, k)
    {
      assert ChunkAt(mem, a, b, k);
    }
  }

  lemma ModuleKept(mem: Memory, mem': Memory, l: Layout, i: nat, m: Module)
    requires ModuleIs(mem, l, i, m) && Same(mem, mem', ModuleAt(l, i) + 0x10, 0xA0)
    ensures ModuleIs(mem', l, i, m)
  {
    hide NameBytes, NameHeader, BytesAt;
    BytesKept(mem, mem', ModuleAt(l, i) + 0x70, NameBytes(m.name));
  }

  lemma ProcessKept(mem: Memory, mem': Memory, l: Layout, i: nat, p: Process)
    requires ProcessIs(mem, l, i, p)
    requires Word(mem', ProcessAt(l, i)) == Word(mem, ProcessAt(l, i)) && Same(mem, mem', ProcessAt(l, i) + 0x18, 0x28)
    ensures ProcessIs(mem', l, i, p)
  {
    hide ImageBytes, BytesAt;
    BytesKept(mem, mem', ProcessAt(l, i) + 0x28, ImageBytes(p.name));
  }

  /** The first entries of both arrays hold these modules and processes. */
  ghost predicate Published(mem: Memory, l: Layout, ms: seq<Module>, ps: seq<Process>) {
    && (forall i: nat {:trigger ModuleIs(mem, l, i, ms[i])} | i < |ms| :: ModuleIs(mem, l, i, ms[i]))
    && (forall i: nat {:trigger ProcessIs(mem, l, i, ps[i])} | i < |ps| :: ProcessIs(mem, l, i, ps[i]))
  }

  /** Linking a ring leaves what the entries hold alone. */
  lemma LinksSpareModules(mem: Memory, mem': Memory, l: Layout, n: nat, i: nat, m: Module)
    requires Sound(l) && n <= 16 && i < 16 && ModuleIs(mem, l, i, m)
    requires OnlyLinks(mem, mem', ModuleNodes(l, n), l.moduleHead) || OnlyLinks(mem, mem', ProcessNodes(l, n), l.processHead)
    ensures ModuleIs(mem', l, i, m)
  {
    hide ModuleNodes, ProcessNodes, Word, ModuleIs;
    assert Same(mem, mem', ModuleAt(l, i) + 0x10, 0xA0);
    ModuleKept(mem, mem', l, i, m);
  }

  lemma LinksSpareProcesses(mem: Memory, mem': Memory, l: Layout, n: nat, i: nat, p: Process)
    requires Sound(l) && n <= 16 && i < 16 && ProcessIs(mem, l, i, p)
    requires OnlyLinks(mem, mem', ModuleNodes(l, n), l.moduleHead) || OnlyLinks(mem, mem', ProcessNodes(l, n), l.processHead)
    ensures ProcessIs(mem', l, i, p)
  {
    hide ModuleNodes, ProcessNodes, Word, ProcessIs;
    assert Same(mem, mem', ProcessAt(l, i) + 0x18, 0x28);
    ProcessKept(mem, mem', l, i, p);
  }

  lemma LinksSpare(mem: Memory, mem': Memory, l: Layout, n: nat, ms: seq<Module>, ps: seq<Process>)
    requires Sound(l) && n <= 16 && |ms| <= 16 && |ps| <= 16 && Published(mem, l, ms, ps)
    requires OnlyLinks(mem, mem', ModuleNodes(l, n), l.moduleHead) || OnlyLinks(mem, mem', ProcessNodes(l, n), l.processHead)
    ensures Published(mem', l, ms, ps)
  {
    hide OnlyLinks, ModuleNodes, ProcessNodes, ModuleIs, ProcessIs, Sound;
    forall i: nat | i < |ms|
      ensures ModuleIs(mem', l, i, ms[i])
    {
      LinksSpareModules(mem, mem', l, n, i, ms[i]);
    }
    forall i: nat | i < |ps|
      ensures ProcessIs(mem', l, i, ps[i])
    {
      LinksSpareProcesses(mem, mem', l, n, i, ps[i]);
    }
  }

  /** Only words in a range differ. */
  ghost predicate OnlyIn(mem: Memory, mem': Memory, a: nat, size: nat) {
    forall b: nat {:trigger Word(mem', b)} | b < a || a + size <= b :: Word(mem', b) == Word(mem, b)
  }

  lemma WriteIn(was: Memory, mem: Memory, a: nat, size: nat, b: nat, v: nat)
    requires OnlyIn(was, mem, a, size) && a <= b < a + size
    ensures OnlyIn(was, mem[b := v], a, size)
  {
    forall c: nat {:trigger Word(mem[b := v], c)} | c < a || a + size <= c
      ensures Word(mem[b := v], c) == Word(was, c)
    {
      assert Word(mem, c) == Word(was, c);
    }
  }

  lemma PublishedMore(mem: Memory, mem': Memory, l: Layout, ms: seq<Module>, ps: seq<Process>, m: Module)
    requires Sound(l) && |ms| < 16 && |ps| <= 16 && Published(mem, l, ms, ps)
    requires OnlyIn(mem, mem', ModuleAt(l, |ms|), 0xB0) && ModuleIs(mem', l, |ms|, m)
    ensures Published(mem', l, ms + [m], ps)
  {
    var more := ms + [m];
    hide ModuleIs, ProcessIs;
    forall i: nat {:trigger ModuleIs(mem', l, i, more[i])} | i < |more|
      ensures ModuleIs(mem', l, i, more[i])
    {
      if i < |ms| {
        assert ModuleIs(mem, l, i, ms[i]);
        ModuleKept(mem, mem', l, i, ms[i]);
      }
    }
    forall i: nat {:trigger ProcessIs(mem', l, i, ps[i])} | i < |ps|
      ensures ProcessIs(mem', l, i, ps[i])
    {
      assert ProcessIs(mem, l, i, ps[i]);
      ProcessKept(mem, mem', l, i, ps[i]);
    }
  }

  lemma PublishedMoreProcesses(mem: Memory, mem': Memory, l: Layout, ms: seq<Module>, ps: seq<Process>, p: Process)
    requires Sound(l) && |ms| <= 16 && |ps| < 16 && Published(mem, l, ms, ps)
    requires OnlyIn(mem, mem', HeaderAt(l, |ps|), 0x70) && ProcessIs(mem', l, |ps|, p)
    ensures Published(mem', l, ms, ps + [p])
  {
    var more := ps + [p];
    hide ModuleIs, ProcessIs;
    forall i: nat {:trigger ModuleIs(mem', l, i, ms[i])} | i < |ms|
      ensures ModuleIs(mem', l, i, ms[i])
    {
      assert ModuleIs(mem, l, i, ms[i]);
      ModuleKept(mem, mem', l, i, ms[i]);
    }
    forall i: nat {:trigger ProcessIs(mem', l, i, more[i])} | i < |more|
      ensures ProcessIs(mem', l, i, more[i])
    {
      if i < |ps| {
        assert ProcessIs(mem, l, i, ps[i]);
        ProcessKept(mem, mem', l, i, ps[i]);
      }
    }
  }

  /** Header `i` counts one pointer and one handle and carries its stamp. */
  ghost predicate Stamped(mem: Memory, l: Layout, cookie: nat, i: nat) {
    var h := HeaderAt(l, i);
    Word(mem, h) == 1 && Word(mem, h + 8) == 1 && Word(mem, h + 0x18) == Stamp(h, cookie)
  }

  ghost predicate AllStamped(mem: Memory, l: Layout, cookie: nat, n: nat) {
    forall i: nat {:trigger Stamped(mem, l, cookie, i)} | i < n :: Stamped(mem, l, cookie, i)
  }

  lemma HeaderSpares(mem: Memory, mem': Memory, l: Layout, ms: seq<Module>, ps: seq<Process>, cookie: nat, i: nat)
    requires Sound(l) && i < 16 && |ms| <= 16 && |ps| <= 16 && Published(mem, l, ms, ps) && AllStamped(mem, l, cookie, i)
    requires OnlyIn(mem, mem', HeaderAt(l, i), 0x30) && Stamped(mem', l, cookie, i)
    ensures Published(mem', l, ms, ps) && AllStamped(mem', l, cookie, i + 1)
  {
    hide Stamp, ModuleIs, ProcessIs;
    forall k: nat {:trigger ModuleIs(mem', l, k, ms[k])} | k < |ms|
      ensures ModuleIs(mem', l, k, ms[k])
    {
      assert ModuleIs(mem, l, k, ms[k]);
      ModuleKept(mem, mem', l, k, ms[k]);
    }
    forall k: nat {:trigger ProcessIs(mem', l, k, ps[k])} | k < |ps|
      ensures ProcessIs(mem', l, k, ps[k])
    {
      assert ProcessIs(mem, l, k, ps[k]);
      ProcessKept(mem, mem', l, k, ps[k]);
    }
    forall k: nat {:trigger Stamped(mem', l, cookie, k)} | k < i + 1
      ensures Stamped(mem', l, cookie, k)
    {
      if k < i {
        assert Stamped(mem, l, cookie, k);
      }
    }
  }

  lemma LinksSpareStamps(mem: Memory, mem': Memory, l: Layout, n: nat, cookie: nat)
    requires Sound(l) && n <= 16 && AllStamped(mem, l, cookie, n) && OnlyLinks(mem, mem', ProcessNodes(l, n), l.processHead)
    ensures AllStamped(mem', l, cookie, n)
  {
    hide Stamp, ProcessNodes, Word;
    forall k: nat {:trigger Stamped(mem', l, cookie, k)} | k < n
      ensures Stamped(mem', l, cookie, k)
    {
      assert Stamped(mem, l, cookie, k);
    }
  }

  /** A ring whose links are not written stays a ring. */
  lemma RingSpared(mem: Memory, mem': Memory, nodes: seq<nat>, head: nat)
    requires Ring(mem, nodes, head)
    requires forall a: nat {:trigger Word(mem', a)} | IsLink(nodes, head, a) :: Word(mem', a) == Word(mem, a)
    ensures Ring(mem', nodes, head)
  {
    forall i: nat {:trigger Linked(mem', nodes, head, i)} | i < |nodes|
      ensures Linked(mem', nodes, head, i)
    {
      assert Linked(mem, nodes, head, i);
      assert IsLink(nodes, head, nodes[i]) && IsLink(nodes, head, nodes[i] + 8);
    }
    assert IsLink(nodes, head, head) && IsLink(nodes, head, head + 8);
  }

  lemma ModuleRingSpared(mem: Memory, mem': Memory, l: Layout, n: nat, m: nat)
    requires Sound(l) && n <= 16 && m <= 16 && Ring(mem, ModuleNodes(l, n), l.moduleHead)
    requires OnlyLinks(mem, mem', ProcessNodes(l, m), l.processHead)
    ensures Ring(mem', ModuleNodes(l, n), l.moduleHead)
  {
    var nodes := ModuleNodes(l, n);
    forall a: nat {:trigger Word(mem', a)} | IsLink(nodes, l.moduleHead, a)
      ensures Word(mem', a) == Word(mem, a)
    {
      assert !IsLink(ProcessNodes(l, m), l.processHead, a);
    }
    hide ModuleNodes, ProcessNodes, OnlyLinks, IsLink, Ring;
    RingSpared(mem, mem', nodes, l.moduleHead);
  }

  lemma HeaderSparesRing(mem: Memory, mem': Memory, l: Layout, n: nat, i: nat)
    requires Sound(l) && n <= 16 && i < 16 && Ring(mem, ModuleNodes(l, n), l.moduleHead)
    requires OnlyIn(mem, mem', HeaderAt(l, i), 0x30)
    ensures Ring(mem', ModuleNodes(l, n), l.moduleHead)
  {
    RingSpared(mem, mem', ModuleNodes(l, n), l.moduleHead);
  }

  ghost predicate Blank(mem: Memory, a: nat, k: nat) { Word(mem, a + 8 * k) == 0 }

  function First<T>(s: seq<T>): seq<T> { if |s| <= 16 then s else s[..16] }

  lemma FirstMore<T>(s: seq<T>, x: T)
    ensures |First(s)| == if |s| < 16 then |s| else 16
    ensures First(s + [x]) == if |s| < 16 then First(s) + [x] else First(s)
  {
  }

  const KERNEL_VIRT_BASE: nat := 0xFFFF_8000_0000_0000

  // --- the publisher -----------------------------------------------------------------------------

  class Kd {
    var mem: Memory
    var nModules: nat
    var nProcs: nat
    var kernBase: nat
    const l: Layout
    const cookie: nat
    ghost var modules: seq<Module>
    ghost var processes: seq<Process>

    constructor (l: Layout, cookie: nat)
      ensures this.l == l && this.cookie == cookie
    {
      this.l, this.cookie := l, cookie;
      mem, nModules, nProcs, kernBase, modules, processes := map[], 0, 0, 0, [], [];
    }

    /** The arrays hold the first sixteen of what was pushed since `begin`. */
    ghost predicate Valid()
      reads this
    {
      && Sound(l) && nModules == |First(modules)| && nProcs == |First(processes)|
      && Published(mem, l, First(modules), First(processes))
    }

    method Begin()
      requires Sound(l)
      modifies this`nModules, this`nProcs, this`kernBase, this`modules, this`processes
      ensures Valid() && modules == [] && processes == [] && kernBase == KERNEL_VIRT_BASE
    {
      nModules, nProcs, kernBase, modules, processes := 0, 0, KERNEL_VIRT_BASE, [], [];
    }

    /** An entry of `words` words cleared. */
    method Zero(a: nat, words: nat)
      modifies this`mem
      ensures OnlyIn(old(mem), mem, a, 8 * words)
      ensures forall k: nat {:trigger Blank(mem, a, k)} | k < words :: Blank(mem, a, k)
    {
      for k := 0 to words
        invariant OnlyIn(old(mem), mem, a, 8 * words)
        invariant forall j: nat {:trigger Blank(mem, a, j)} | j < k :: Blank(mem, a, j)
      {
        WriteIn(old(mem), mem, a, 8 * words, a + 8 * k, 0);
        ghost var was := mem;
        mem := mem[a + 8 * k := 0];
        forall j: nat {:trigger Blank(mem, a, j)} | j < k + 1
          ensures Blank(mem, a, j)
        {
          assert j < k ==> Blank(was, a, j);
        }
      }
    }

    method PushModule(m: Module)
      requires Valid()
      modifies this`mem, this`nModules, this`kernBase, this`modules
      ensures Valid() && modules == old(modules) + [m]
      ensures kernBase == if old(modules) == [] then m.base else old(kernBase)
    {
      FirstMore(modules, m);
      SizeOfFirst(processes);
      hide First, Published, Sound;
      if nModules >= 16 {
        modules := modules + [m];
        return;
      }
      if nModules == 0 {
        kernBase := m.base;
      }
      WriteModule(m);
      PublishedMore(old(mem), mem, l, First(modules), First(processes), m);
      nModules := nModules + 1;
      modules := modules + [m];
    }

    method WriteModule(m: Module)
      requires Sound(l)
      modifies this`mem
      ensures OnlyIn(old(mem), mem, ModuleAt(l, nModules), 0xB0) && ModuleIs(mem, l, nModules, m)
    {
      hide OnlyIn, NameBytes, NameHeader, BytesAt;
      var a := ModuleAt(l, nModules);
      WriteFields(a, m);
      ghost var mem1 := mem;
      PutBytes(a + 0x70, NameBytes(m.name));
      Narrower(old(mem), mem1, mem, a, 0xB0, a + 0x70, 64);
      Elsewhere(mem1, mem, a + 0x70, 64, a + 0x30, 0x38);
    }

    /** All of a module entry but the characters of its name. */
    method WriteFields(a: nat, m: Module)
      modifies this`mem
      ensures OnlyIn(old(mem), mem, a, 0xB0) && Word(mem, a + 0x30) == m.base && Word(mem, a + 0x40) == m.size % TWO32
      ensures Word(mem, a + 0x48) == NameHeader(m.name) && Word(mem, a + 0x50) == a + 0x70
      ensures Word(mem, a + 0x58) == NameHeader(m.name) && Word(mem, a + 0x60) == a + 0x70
    {
      hide OnlyIn, NameHeader, Word;
      Zero(a, 22);
      PutWord(a, 0xB0, a + 0x30, m.base, old(mem));
      PutWord(a, 0xB0, a + 0x40, m.size % TWO32, old(mem));
      PutWord(a, 0xB0, a + 0x48, NameHeader(m.name), old(mem));
      PutWord(a, 0xB0, a + 0x50, a + 0x70, old(mem));
      PutWord(a, 0xB0, a + 0x58, NameHeader(m.name), old(mem));
      PutWord(a, 0xB0, a + 0x60, a + 0x70, old(mem));
    }

    /** A word of an entry that is being written. */
    method PutWord(ghost a: nat, ghost size: nat, b: nat, v: nat, ghost was: Memory)
      requires OnlyIn(was, mem, a, size) && a <= b < a + size
      modifies this`mem
      ensures OnlyIn(was, mem, a, size) && Word(mem, b) == v
      ensures forall c: nat {:trigger Word(mem, c)} | c != b :: Word(mem, c) == Word(old(mem), c)
    {
      WriteIn(was, mem, a, size, b, v);
      mem := mem[b := v];
    }

    /** Bytes at a word boundary. */
    method PutBytes(a: nat, b: seq<byte>)
      requires |b| % 8 == 0
      modifies this`mem
      ensures BytesAt(mem, a, b) && OnlyIn(old(mem), mem, a, |b|)
    {
      hide Chunk, OnlyIn;
      Untouched(mem, a, |b|);
      for k := 0 to |b| / 8
        invariant OnlyIn(old(mem), mem, a, |b|)
        invariant forall j: nat {:trigger ChunkAt(mem, a, b, j)} | j < k :: ChunkAt(mem, a, b, j)
      {
        WriteIn(old(mem), mem, a, |b|, a + 8 * k, Chunk(b, k));
        ghost var was := mem;
        mem := mem[a + 8 * k := Chunk(b, k)];
        forall j: nat {:trigger ChunkAt(mem, a, b, j)} | j < k + 1
          ensures ChunkAt(mem, a, b, j)
        {
          assert j < k ==> ChunkAt(was, a, b, j);
        }
      }
    }

    method PushProcess(p: Process)
      requires Valid()
      modifies this`mem, this`nProcs, this`processes
      ensures Valid() && processes == old(processes) + [p]
    {
      FirstMore(processes, p);
      SizeOfFirst(modules);
      hide First, Published, Sound;
      if nProcs >= 16 {
        processes := processes + [p];
        return;
      }
      WriteProcess(p);
      PublishedMoreProcesses(old(mem), mem, l, First(modules), First(processes), p);
      nProcs := nProcs + 1;
      processes := processes + [p];
    }

    method WriteProcess(p: Process)
      requires Sound(l)
      modifies this`mem
      ensures OnlyIn(old(mem), mem, HeaderAt(l, nProcs), 0x70) && ProcessIs(mem, l, nProcs, p)
    {
      hide OnlyIn, ImageBytes, BytesAt, Word;
      var h, a := HeaderAt(l, nProcs), ProcessAt(l, nProcs);
      Zero(h, 14);
      PutWord(h, 0x70, a, PROCESS_TYPE, old(mem));
      PutWord(h, 0x70, a + 0x38, p.pid, old(mem));
      PutWord(h, 0x70, a + 0x18, p.cr3, old(mem));
      PutWord(h, 0x70, a + 0x20, p.peb, old(mem));
      ghost var mem1 := mem;
      PutBytes(a + 0x28, ImageBytes(p.name));
      Narrower(old(mem), mem1, mem, h, 0x70, a + 0x28, 16);
      Elsewhere(mem1, mem, a + 0x28, 16, a, 0x28);
      Elsewhere(mem1, mem, a + 0x28, 16, a + 0x38, 8);
    }

    /** Link entries into a ring through a head. */
    method Link(nodes: seq<nat>, head: nat)
      requires Spaced(nodes, head)
      modifies this`mem
      ensures Ring(mem, nodes, head) && OnlyLinks(old(mem), mem, nodes, head)
    {
      hide Ring, OnlyLinks, Spaced, Linked;
      Unlinked(mem, nodes, head);
      for i := 0 to |nodes|
        invariant Partly(mem, old(mem), nodes, head, i)
      {
        var next := if i + 1 < |nodes| then nodes[i + 1] else head;
        var prev := if i == 0 then head else nodes[i - 1];
        PartlyMore(mem, old(mem), nodes, head, i);
        mem := mem[nodes[i] := next][nodes[i] + 8 := prev];
      }
      HeadLast(mem, old(mem), nodes, head);
      if nodes == [] {
        mem := mem[head := head][head + 8 := head];
      } else {
        mem := mem[head := nodes[0]][head + 8 := nodes[|nodes| - 1]];
      }
    }

    method StampHeaders()
      requires Valid() && Ring(mem, ModuleNodes(l, nModules), l.moduleHead)
      modifies this`mem
      ensures Valid() && Ring(mem, ModuleNodes(l, nModules), l.moduleHead) && AllStamped(mem, l, cookie, nProcs)
      ensures OnlyIn(old(mem), mem, l.processes, 0x700)
    {
      hide Ring, Published, Sound, First, Stamp, AllStamped, ModuleNodes, OnlyIn;
      SizeOfFirst(modules);
      SizeOfFirst(processes);
      NoneStamped(mem, l, cookie);
      Untouched(mem, l.processes, 0x700);
      for i := 0 to nProcs
        invariant Valid() && Ring(mem, ModuleNodes(l, nModules), l.moduleHead) && AllStamped(mem, l, cookie, i)
        invariant OnlyIn(old(mem), mem, l.processes, 0x700)
      {
        ghost var was := mem;
        StampHeader(i);
        Narrower(old(mem), was, mem, l.processes, 0x700, HeaderAt(l, i), 0x30);
      }
    }

    method StampHeader(i: nat)
      requires Valid() && i < 16 && Ring(mem, ModuleNodes(l, nModules), l.moduleHead) && AllStamped(mem, l, cookie, i)
      modifies this`mem
      ensures Valid() && Ring(mem, ModuleNodes(l, nModules), l.moduleHead) && AllStamped(mem, l, cookie, i + 1)
      ensures OnlyIn(old(mem), mem, HeaderAt(l, i), 0x30)
    {
      hide Ring, Published, Sound, First, Stamp, AllStamped, ModuleNodes, OnlyIn;
      SizeOfFirst(modules);
      SizeOfFirst(processes);
      ghost var was := mem;
      WriteHeader(i);
      HeaderSpares(was, mem, l, First(modules), First(processes), cookie, i);
      HeaderSparesRing(was, mem, l, nModules, i);
    }

    method WriteHeader(i: nat)
      modifies this`mem
      ensures OnlyIn(old(mem), mem, HeaderAt(l, i), 0x30) && Stamped(mem, l, cookie, i)
    {
      hide Stamp, OnlyIn;
      var h := HeaderAt(l, i);
      Untouched(mem, h, 0x30);
      WriteIn(old(mem), mem, h, 0x30, h, 1);
      mem := mem[h := 1];
      WriteIn(old(mem), mem, h, 0x30, h + 8, 1);
      mem := mem[h + 8 := 1];
      WriteIn(old(mem), mem, h, 0x30, h + 0x18, Stamp(h, cookie));
      mem := mem[h + 0x18 := Stamp(h, cookie)];
    }

    /** `commit`: both rings are closed over the first sixteen of what was pushed, in order, every header
        is stamped, what the entries hold is as it was pushed, and the type table, the process variables and
        the data block lead to all of it. */
    method Commit()
      requires Valid() && AllFree(l)
      modifies this`mem
      ensures Valid() && Committed(mem, l, First(modules), First(processes), cookie)
      ensures Holding(mem, l.globals, Values(old(mem), l, nProcs, kernBase), 10)
    {
      SizeOfFirst(modules);
      SizeOfFirst(processes);
      hide Ring, Published, Sound, First, AllStamped, ModuleNodes, ProcessNodes, Spaced, OnlyLinks, AllFree, Holding, Values, Free;
      NodesSpaced(l, nModules);
      Link(ModuleNodes(l, nModules), l.moduleHead);
      ghost var mem1 := mem;
      LinksSpare(old(mem), mem, l, nModules, First(modules), First(processes));
      StampHeaders();
      NodesSpaced(l, nProcs);
      ghost var mem2 := mem;
      Link(ProcessNodes(l, nProcs), l.processHead);
      LinksSpare(mem2, mem, l, nProcs, First(modules), First(processes));
      LinksSpareStamps(mem2, mem, l, nProcs, cookie);
      ModuleRingSpared(mem2, mem, l, nModules, nProcs);
      ValuesKept(old(mem), mem1, mem2, mem, l, nModules, nProcs, kernBase);
      WriteGlobals();
    }

    method WriteGlobals()
      requires Valid() && AllFree(l) && Committed(mem, l, First(modules), First(processes), cookie)
      modifies this`mem
      ensures Committed(mem, l, First(modules), First(processes), cookie)
      ensures Holding(mem, l.globals, Values(old(mem), l, nProcs, kernBase), 10)
    {
      hide Committed, Holding, AllFree, First, Published, Sound;
      var g := l.globals;
      ghost var vs := Values(mem, l, nProcs, kernBase);
      HoldingNone(mem, l, nProcs, kernBase);
      if nProcs > 0 {
        Put(0, g.initial, ProcessAt(l, 0), vs);
        Put(1, g.idle, ProcessAt(l, 0), vs);
      }
      Put(2, g.types + 24, g.processType, vs);
      Put(3, g.typeVar, g.processType, vs);
      WriteBlock(vs);
    }

    method WriteBlock(ghost vs: seq<nat>)
      requires AllFree(l) && Committed(mem, l, First(modules), First(processes), cookie) && Holding(mem, l.globals, vs, 4)
      requires |vs| == 10 && vs[4..] == [l.globals.block, l.globals.block, KDBG_TAG, kernBase, l.moduleHead, l.processHead]
      modifies this`mem
      ensures Committed(mem, l, First(modules), First(processes), cookie) && Holding(mem, l.globals, vs, 10)
    {
      hide Committed, Holding, AllFree, First;
      var d := l.globals.block;
      assert vs[4] == vs[4..][0] && vs[5] == vs[4..][1] && vs[6] == vs[4..][2] && vs[7] == vs[4..][3] && vs[8] == vs[4..][4]
             && vs[9] == vs[4..][5];
      Put(4, d, d, vs);
      Put(5, d + 8, d, vs);
      Put(6, d + 0x10, KDBG_TAG, vs);
      Put(7, d + 0x18, kernBase, vs);
      Put(8, d + 0x48, l.moduleHead, vs);
      Put(9, d + 0x50, l.processHead, vs);
    }

    /** One of those words. */
    method Put(ghost k: nat, a: nat, v: nat, ghost vs: seq<nat>)
      requires AllFree(l) && Committed(mem, l, First(modules), First(processes), cookie) && Holding(mem, l.globals, vs, k)
      requires k < 10 && |vs| == 10 && a == Targets(l.globals)[k] && v == vs[k]
      modifies this`mem
      ensures Committed(mem, l, First(modules), First(processes), cookie) && Holding(mem, l.globals, vs, k + 1)
    {
      hide Committed, Holding, AllFree, First, Targets;
      TargetFree(l, k);
      FreeWrite(mem, l, First(modules), First(processes), cookie, a, v);
      HoldingMore(mem, l, vs, k);
      mem := mem[a := v];
    }
  }

  // --- the remaining words ----------------------------------------------------------------------------

  /** Everything `commit` makes of the two lists. */
  ghost predicate Committed(mem: Memory, l: Layout, ms: seq<Module>, ps: seq<Process>, cookie: nat) {
    && |ms| <= 16 && |ps| <= 16 && Published(mem, l, ms, ps) && AllStamped(mem, l, cookie, |ps|)
    && Ring(mem, ModuleNodes(l, |ms|), l.moduleHead) && Ring(mem, ProcessNodes(l, |ps|), l.processHead)
  }

  /** Writing a word elsewhere keeps it. */
  lemma FreeWrite(mem: Memory, l: Layout, ms: seq<Module>, ps: seq<Process>, cookie: nat, a: nat, v: nat)
    requires Committed(mem, l, ms, ps, cookie) && Free(l, a)
    ensures Committed(mem[a := v], l, ms, ps, cookie)
  {
    var mem' := mem[a := v];
    FreeContents(mem, l, ms, ps, cookie, a, v);
    FreeLinks(mem, l, |ms|, |ps|, a, v);
    hide Published, AllStamped, ModuleNodes, ProcessNodes, Ring, Free;
    RingSpared(mem, mem', ModuleNodes(l, |ms|), l.moduleHead);
    RingSpared(mem, mem', ProcessNodes(l, |ps|), l.processHead);
  }

  lemma FreeLinks(mem: Memory, l: Layout, n: nat, m: nat, a: nat, v: nat)
    requires Free(l, a) && n <= 16 && m <= 16
    ensures forall b: nat {:trigger Word(mem[a := v], b)} | IsLink(ModuleNodes(l, n), l.moduleHead, b) ::
      Word(mem[a := v], b) == Word(mem, b)
    ensures forall b: nat {:trigger Word(mem[a := v], b)} | IsLink(ProcessNodes(l, m), l.processHead, b) ::
      Word(mem[a := v], b) == Word(mem, b)
  {
    NoLinks(l, n, m, a);
    hide ModuleNodes, ProcessNodes, IsLink;
  }

  lemma FreeContents(mem: Memory, l: Layout, ms: seq<Module>, ps: seq<Process>, cookie: nat, a: nat, v: nat)
    requires |ms| <= 16 && |ps| <= 16 && Published(mem, l, ms, ps) && AllStamped(mem, l, cookie, |ps|) && Free(l, a)
    ensures Published(mem[a := v], l, ms, ps) && AllStamped(mem[a := v], l, cookie, |ps|)
  {
    var mem' := mem[a := v];
    hide Stamp, ModuleIs, ProcessIs;
    forall k: nat {:trigger ModuleIs(mem', l, k, ms[k])} | k < |ms|
      ensures ModuleIs(mem', l, k, ms[k])
    {
      assert ModuleIs(mem, l, k, ms[k]);
      ModuleKept(mem, mem', l, k, ms[k]);
    }
    forall k: nat {:trigger ProcessIs(mem', l, k, ps[k])} | k < |ps|
      ensures ProcessIs(mem', l, k, ps[k])
    {
      assert ProcessIs(mem, l, k, ps[k]);
      ProcessKept(mem, mem', l, k, ps[k]);
    }
    forall k: nat {:trigger Stamped(mem', l, cookie, k)} | k < |ps|
      ensures Stamped(mem', l, cookie, k)
    {
      assert Stamped(mem, l, cookie, k);
    }
  }

  /** The first `n` of the remaining words hold these values. */
  ghost predicate Holding(mem: Memory, g: Globals, vs: seq<nat>, n: nat) {
    n <= 10 && |vs| == 10 && forall k {:trigger Targets(g)[k]} | 0 <= k < n :: Word(mem, Targets(g)[k]) == vs[k]
  }

  lemma HoldingMore(mem: Memory, l: Layout, vs: seq<nat>, n: nat)
    requires AllFree(l) && Holding(mem, l.globals, vs, n) && n < 10
    ensures Holding(mem[Targets(l.globals)[n] := vs[n]], l.globals, vs, n + 1)
  {
    var t := Targets(l.globals);
    assert |t| == 10;
    hide Targets, Free;
    assert forall k | 0 <= k < n :: t[k] != t[n];
  }

  /** 'KDBG' and the size of the block. */
  const KDBG_TAG: nat := 0x340_4742_444B

  /** What `commit` writes there; the process variables point at the first process, if there is one. */
  function Values(mem: Memory, l: Layout, n: nat, kernBase: nat): (vs: seq<nat>)
    ensures |vs| == 10
  {
    var g := l.globals;
    [if n == 0 then Word(mem, g.initial) else ProcessAt(l, 0), if n == 0 then Word(mem, g.idle) else ProcessAt(l, 0),
     g.processType, g.processType, g.block, g.block, KDBG_TAG, kernBase, l.moduleHead, l.processHead]
  }

  lemma HoldingNone(mem: Memory, l: Layout, n: nat, kernBase: nat)
    ensures Holding(mem, l.globals, Values(mem, l, n, kernBase), if n == 0 then 2 else 0)
  {
  }

  lemma TargetFree(l: Layout, k: nat)
    requires AllFree(l) && k < 10
    ensures Free(l, Targets(l.globals)[k])
  {
  }

  /** Linking and stamping leave the two process variables alone. */
  lemma ValuesKept(mem: Memory, mem1: Memory, mem2: Memory, mem3: Memory, l: Layout, n: nat, m: nat, kernBase: nat)
    requires AllFree(l) && n <= 16 && m <= 16 && OnlyLinks(mem, mem1, ModuleNodes(l, n), l.moduleHead)
    requires OnlyIn(mem1, mem2, l.processes, 0x700) && OnlyLinks(mem2, mem3, ProcessNodes(l, m), l.processHead)
    ensures Values(mem3, l, m, kernBase) == Values(mem, l, m, kernBase)
  {
    TargetFree(l, 0);
    TargetFree(l, 1);
    hide AllFree, OnlyLinks, OnlyIn;
    FreeKept(mem, mem1, mem2, mem3, l, n, m, l.globals.initial);
    FreeKept(mem, mem1, mem2, mem3, l, n, m, l.globals.idle);
  }

  lemma FreeKept(mem: Memory, mem1: Memory, mem2: Memory, mem3: Memory, l: Layout, n: nat, m: nat, a: nat)
    requires Free(l, a) && n <= 16 && m <= 16 && OnlyLinks(mem, mem1, ModuleNodes(l, n), l.moduleHead)
    requires OnlyIn(mem1, mem2, l.processes, 0x700) && OnlyLinks(mem2, mem3, ProcessNodes(l, m), l.processHead)
    ensures Word(mem3, a) == Word(mem, a)
  {
    NoLinks(l, n, m, a);
    hide ModuleNodes, ProcessNodes, Word, IsLink;
    assert Word(mem1, a) == Word(mem, a) && Word(mem2, a) == Word(mem1, a);
  }

  lemma NoLinks(l: Layout, n: nat, m: nat, a: nat)
    requires Free(l, a) && n <= 16 && m <= 16
    ensures !IsLink(ModuleNodes(l, n), l.moduleHead, a) && !IsLink(ProcessNodes(l, m), l.processHead, a)
  {
    hide ModuleNodes, ProcessNodes;
  }

  lemma Narrower(was: Memory, mem: Memory, mem': Memory, a: nat, n: nat, b: nat, m: nat)
    requires OnlyIn(was, mem, a, n) && OnlyIn(mem, mem', b, m) && a <= b && b + m <= a + n
    ensures OnlyIn(was, mem', a, n)
  {
    forall c: nat {:trigger Word(mem', c)} | c < a || a + n <= c
      ensures Word(mem', c) == Word(was, c)
    {
      assert Word(mem', c) == Word(mem, c) && Word(mem, c) == Word(was, c);
    }
  }

  lemma Elsewhere(mem: Memory, mem': Memory, b: nat, m: nat, a: nat, n: nat)
    requires OnlyIn(mem, mem', b, m) && (a + n <= b || b + m <= a)
    ensures Same(mem, mem', a, n)
  {
  }

  lemma Untouched(mem: Memory, a: nat, size: nat)
    ensures OnlyIn(mem, mem, a, size)
  {
  }

  lemma Unlinked(mem: Memory, nodes: seq<nat>, head: nat)
    ensures Partly(mem, mem, nodes, head, 0)
  {
  }

  lemma NoneStamped(mem: Memory, l: Layout, cookie: nat)
    ensures AllStamped(mem, l, cookie, 0)
  {
  }

  lemma SizeOfFirst<T>(s: seq<T>)
    ensures |First(s)| <= 16
  {
  }

  // --- the debugger's side ---------------------------------------------------------------------

  /** The walk of `lm` and of `!process 0 0`: from the head's Flink, at most `limit` (64) entries. */
  method ListWalk(mem: Memory, head: nat, limit: nat) returns (nodes: seq<nat>)
    ensures nodes == Walk(mem, head, Word(mem, head), 0, limit)
  {
    nodes := [];
    var node := Word(mem, head);
    var n := 0;
    while node != head && n < limit
      invariant n <= limit && nodes + Walk(mem, head, node, 0, limit - n) == Walk(mem, head, Word(mem, head), 0, limit)
      decreases limit - n
    {
      nodes := nodes + [node];
      node := Word(mem, node);
      n := n + 1;
    }
  }

  lemma PublishedAt(mem: Memory, l: Layout, ms: seq<Module>, ps: seq<Process>, i: nat)
    requires Published(mem, l, ms, ps)
    ensures i < |ms| ==> ModuleIs(mem, l, i, ms[i])
    ensures i < |ps| ==> ProcessIs(mem, l, i, ps[i])
  {
  }

  /** The name a debugger reads through the counted string at `a`. */
  function ReadName(mem: Memory, a: nat): seq<byte> { ReadBytes(mem, Word(mem, a + 8), Word(mem, a) % TWO16) }

  /** The first 31 characters of a name, each followed by a zero byte. */
  ghost predicate Widens(w: seq<byte>, name: seq<byte>) {
    && |w| == (if |name| < 31 then 2 * |name| else 62)
    && forall j: nat {:trigger w[2 * j]} | 2 * j + 1 < |w| :: w[2 * j] == name[j] && w[2 * j + 1] == 0
  }

  /** The first 15 characters of a name, and zeros up to 16. */
  ghost predicate Pads(b: seq<byte>, name: seq<byte>) {
    |b| == 16 && forall j {:trigger b[j]} | 0 <= j < 16 :: b[j] == if j < 15 && j < |name| then name[j] else 0
  }

  lemma {:induction false} WideAt(s: seq<byte>, j: nat)
    requires j < |s|
    ensures Wide(s)[2 * j] == s[j] && Wide(s)[2 * j + 1] == 0
  {
    if j < |s| - 1 {
      WideAt(s[..|s| - 1], j);
    }
  }

  lemma NameWidens(name: seq<byte>)
    ensures Widens(Wide(Cut(name, 31)), name)
  {
    var c := Cut(name, 31);
    var w := Wide(c);
    hide Wide;
    forall j: nat {:trigger w[2 * j]} | 2 * j + 1 < |w|
      ensures w[2 * j] == name[j] && w[2 * j + 1] == 0
    {
      WideAt(c, j);
    }
  }

  lemma ImagePads(name: seq<byte>)
    ensures Pads(ImageBytes(name), name)
  {}

  lemma NameReads(mem: Memory, l: Layout, i: nat, m: Module)
    requires ModuleIs(mem, l, i, m)
    ensures Widens(ReadName(mem, ModuleAt(l, i) + 0x58), m.name) && Widens(ReadName(mem, ModuleAt(l, i) + 0x48), m.name)
    ensures Word(mem, ModuleAt(l, i) + 0x58) / TWO16 == if |m.name| < 31 then 2 * |m.name| + 2 else 64
  {
    HeaderLength(m.name);
    hide Word, BytesAt, Wide, Cut, ReadBytes, NameBytes, NameHeader, Widens;
    NameStarts(m.name);
    NameWidens(m.name);
    ReadsBytes(mem, ModuleAt(l, i) + 0x70, NameBytes(m.name), 2 * |Cut(m.name, 31)|);
  }

  lemma HeaderLength(name: seq<byte>)
    ensures NameHeader(name) % TWO16 == 2 * |Cut(name, 31)|
    ensures NameHeader(name) / TWO16 == if |name| < 31 then 2 * |name| + 2 else 64
  {
    var n := 2 * |Cut(name, 31)|;
    Euclid(NameHeader(name), TWO16, n + 2, n);
  }

  lemma NameStarts(name: seq<byte>)
    ensures 2 * |Cut(name, 31)| <= 62 && NameBytes(name)[..2 * |Cut(name, 31)|] == Wide(Cut(name, 31))
  {
  }

  /** A list entry shows a module as it was pushed: base, size in 32 bits, the first 31 characters of its
      name, twice, with room for a NUL. */
  ghost predicate ShowsModule(mem: Memory, node: nat, m: Module) {
    && Word(mem, node + 0x30) == m.base && Word(mem, node + 0x40) == m.size % 0x1_0000_0000
    && Widens(ReadName(mem, node + 0x58), m.name) && Widens(ReadName(mem, node + 0x48), m.name)
    && Word(mem, node + 0x58) / 0x1_0000 == if |m.name| < 31 then 2 * |m.name| + 2 else 64
  }

  /** A list entry shows a process as it was pushed: page-table root, environment block, the first 15
      characters of its name, and the identifier at offset 0x38. The header before it counts one pointer and
      one handle, and decodes to the slot of the type table that holds the process type. */
  ghost predicate ShowsProcess(mem: Memory, g: Globals, cookie: nat, node: nat, p: Process) {
    && node >= 0x38
    && var eproc := node - 8;
    && Word(mem, eproc + 0x18) == p.cr3 && Word(mem, eproc + 0x20) == p.peb && Word(mem, eproc + 0x38) == p.pid
    && Pads(ReadBytes(mem, eproc + 0x28, 16), p.name)
    && Word(mem, eproc - 0x30) == 1 && Word(mem, eproc - 0x28) == 1
    && Word(mem, g.types + 8 * Decode(Word(mem, eproc - 0x30 + 0x18), eproc - 0x30, cookie)) == Word(mem, g.typeVar)
  }

  /** The identifier the walk prints: the word at the start of the process. */
  function PrintedId(mem: Memory, node: nat): nat { if node < 8 then 0 else Word(mem, node - 8) }

  /** Walking a committed publisher lists the modules in order and, backwards, in reverse. */
  lemma ModulesListed(mem: Memory, l: Layout, ms: seq<Module>, ps: seq<Process>, cookie: nat, i: nat)
    requires Sound(l) && Committed(mem, l, ms, ps, cookie)
    ensures
      var nodes := Walk(mem, l.moduleHead, Word(mem, l.moduleHead), 0, 64);
      && |nodes| == |ms| && Walk(mem, l.moduleHead, Word(mem, l.moduleHead + 8), 8, 64) == Reversed(nodes)
      && (i < |ms| ==> ShowsModule(mem, nodes[i], ms[i]))
  {
    hide Ring, Spaced, Walk, ModuleNodes, Published, Sound, Reversed, Word, ModuleAt, NameHeader, NameBytes, BytesAt, ReadName,
      Wide, Cut, Widens;
    NodesSpaced(l, |ms|);
    RingWalks(mem, ModuleNodes(l, |ms|), l.moduleHead, 64);
    PublishedAt(mem, l, ms, ps, i);
    if i < |ms| {
      NameReads(mem, l, i, ms[i]);
    }
  }

  /** The same for processes. But the identifier the walk prints is the dispatcher type, whatever was pushed. */
  lemma ProcessesListed(mem: Memory, l: Layout, ms: seq<Module>, ps: seq<Process>, cookie: nat, i: nat)
    requires Sound(l) && Committed(mem, l, ms, ps, cookie)
    requires Word(mem, l.globals.types + 24) == Word(mem, l.globals.typeVar)
    ensures
      var nodes := Walk(mem, l.processHead, Word(mem, l.processHead), 0, 64);
      && |nodes| == |ps| && Walk(mem, l.processHead, Word(mem, l.processHead + 8), 8, 64) == Reversed(nodes)
      && (i < |ps| ==> ShowsProcess(mem, l.globals, cookie, nodes[i], ps[i]) && PrintedId(mem, nodes[i]) == 3)
  {
    hide Ring, Spaced, Walk, ProcessNodes, Published, Sound, Reversed, Word, HeaderAt, Stamp, Decode, ImageBytes, BytesAt,
      ReadBytes, Pads;
    NodesSpaced(l, |ps|);
    RingWalks(mem, ProcessNodes(l, |ps|), l.processHead, 64);
    PublishedAt(mem, l, ms, ps, i);
    if i < |ps| {
      ReadsBytes(mem, ProcessAt(l, i) + 0x28, ImageBytes(ps[i].name), 16);
      ImagePads(ps[i].name);
      var image := ImageBytes(ps[i].name);
      assert image[..16] == image;
      StampDecodes(HeaderAt(l, i), cookie);
      assert Stamped(mem, l, cookie, i);
    }
  }

  /** The first sixteen modules, in order. */
  ghost predicate ModulesShown(mem: Memory, nodes: seq<nat>, ms: seq<Module>) {
    && |nodes| == (if |ms| < 16 then |ms| else 16)
    && forall i {:trigger nodes[i]} | 0 <= i < |nodes| :: ShowsModule(mem, nodes[i], ms[i])
  }

  ghost predicate ProcessesShown(mem: Memory, g: Globals, cookie: nat, nodes: seq<nat>, ps: seq<Process>) {
    && |nodes| == (if |ps| < 16 then |ps| else 16)
    && forall i {:trigger nodes[i]} | 0 <= i < |nodes| ::
         ShowsProcess(mem, g, cookie, nodes[i], ps[i]) && PrintedId(mem, nodes[i]) == 3
  }

  lemma BothShown(mem: Memory, l: Layout, ms: seq<Module>, ps: seq<Process>, cookie: nat, vs: seq<nat>)
    requires Sound(l) && Committed(mem, l, First(ms), First(ps), cookie) && Holding(mem, l.globals, vs, 10) && vs[2] == vs[3]
    ensures ModulesShown(mem, Walk(mem, l.moduleHead, Word(mem, l.moduleHead), 0, 64), ms)
    ensures ProcessesShown(mem, l.globals, cookie, Walk(mem, l.processHead, Word(mem, l.processHead), 0, 64), ps)
  {
    HeldAt(mem, l.globals, vs);
    hide *;
    AllModulesShown(mem, l, ms, ps, cookie);
    AllProcessesShown(mem, l, ms, ps, cookie);
  }

  lemma AllModulesShown(mem: Memory, l: Layout, ms: seq<Module>, ps: seq<Process>, cookie: nat)
    requires Sound(l) && Committed(mem, l, First(ms), First(ps), cookie)
    ensures ModulesShown(mem, Walk(mem, l.moduleHead, Word(mem, l.moduleHead), 0, 64), ms)
  {
    hide Committed, Sound, Walk, Word, ShowsModule, First;
    FirstIs(ms);
    ModulesListed(mem, l, First(ms), First(ps), cookie, 0);
    var mods := Walk(mem, l.moduleHead, Word(mem, l.moduleHead), 0, 64);
    forall i {:trigger mods[i]} | 0 <= i < |mods|
      ensures ShowsModule(mem, mods[i], ms[i])
    {
      ModulesListed(mem, l, First(ms), First(ps), cookie, i);
    }
  }

  lemma AllProcessesShown(mem: Memory, l: Layout, ms: seq<Module>, ps: seq<Process>, cookie: nat)
    requires Sound(l) && Committed(mem, l, First(ms), First(ps), cookie)
    requires Word(mem, l.globals.types + 24) == Word(mem, l.globals.typeVar)
    ensures ProcessesShown(mem, l.globals, cookie, Walk(mem, l.processHead, Word(mem, l.processHead), 0, 64), ps)
  {
    hide Committed, Sound, Walk, Word, ShowsProcess, PrintedId, First;
    FirstIs(ps);
    ProcessesListed(mem, l, First(ms), First(ps), cookie, 0);
    var procs := Walk(mem, l.processHead, Word(mem, l.processHead), 0, 64);
    forall i {:trigger procs[i]} | 0 <= i < |procs|
      ensures ShowsProcess(mem, l.globals, cookie, procs[i], ps[i]) && PrintedId(mem, procs[i]) == 3
    {
      ProcessesListed(mem, l, First(ms), First(ps), cookie, i);
    }
  }

  lemma FirstIs<T>(s: seq<T>)
    ensures |First(s)| == (if |s| < 16 then |s| else 16) && forall i {:trigger First(s)[i]} | 0 <= i < |First(s)| :: First(s)[i] == s[i]
  {}

  lemma HeldAt(mem: Memory, g: Globals, vs: seq<nat>)
    requires Holding(mem, g, vs, 10)
    ensures Word(mem, g.initial) == vs[0] && Word(mem, g.idle) == vs[1]
    ensures Word(mem, g.types + 24) == vs[2] && Word(mem, g.typeVar) == vs[3]
    ensures Word(mem, g.block) == vs[4] && Word(mem, g.block + 8) == vs[5] && Word(mem, g.block + 0x10) == vs[6]
    ensures Word(mem, g.block + 0x18) == vs[7] && Word(mem, g.block + 0x48) == vs[8] && Word(mem, g.block + 0x50) == vs[9]
  {
    var t := Targets(g);
    assert t[0] == g.initial && t[1] == g.idle && t[4] == g.block && t[5] == g.block + 8;
    assert t[2] == g.types + 24 && t[3] == g.typeVar && t[6] == g.block + 0x10;
    assert t[7] == g.block + 0x18 && t[8] == g.block + 0x48 && t[9] == g.block + 0x50;
  }

  /** `begin`, the pushes and `commit`. */
  method Publish(l: Layout, cookie: nat, ms: seq<Module>, ps: seq<Process>) returns (mem: Memory, ghost vs: seq<nat>)
    requires Sound(l) && AllFree(l)
    ensures Committed(mem, l, First(ms), First(ps), cookie) && Holding(mem, l.globals, vs, 10)
    ensures
      && |vs| == 10 && vs[2] == vs[3] == l.globals.processType && vs[4] == vs[5] == l.globals.block && vs[6] == KDBG_TAG
      && (ps != [] ==> vs[0] == vs[1] == l.processes + 0x30)
      && vs[7] == (if ms == [] then KERNEL_VIRT_BASE else ms[0].base)
      && vs[8] == l.moduleHead && vs[9] == l.processHead
  {
    hide Sound, AllFree, Committed, Holding, Published, First;
    var kd := new Kd(l, cookie);
    kd.Begin();
    for i := 0 to |ms|
      invariant kd.Valid() && kd.modules == ms[..i] && kd.processes == []
      invariant kd.kernBase == if i == 0 then KERNEL_VIRT_BASE else ms[0].base
    {
      kd.PushModule(ms[i]);
      assert ms[..i] + [ms[i]] == ms[..i + 1];
    }
    for i := 0 to |ps|
      invariant kd.Valid() && kd.modules == ms[..|ms|] && kd.processes == ps[..i]
      invariant kd.kernBase == if ms == [] then KERNEL_VIRT_BASE else ms[0].base
    {
      kd.PushProcess(ps[i]);
      assert ps[..i] + [ps[i]] == ps[..i + 1];
    }
    assert ms[..|ms|] == ms && ps[..|ps|] == ps;
    FirstIs(ps);
    vs := Values(kd.mem, l, kd.nProcs, kd.kernBase);
    kd.Commit();
    mem := kd.mem;
  }

  /** From `begin` to the printed lists: whatever is pushed, a debugger that starts at the data block finds
      its tag and the base of the first module, and lists the first sixteen modules and processes pushed. */
  method PublishAndList(l: Layout, cookie: nat, ms: seq<Module>, ps: seq<Process>)
    returns (mem: Memory, mods: seq<nat>, procs: seq<nat>)
    requires Sound(l) && AllFree(l)
    ensures ModulesShown(mem, mods, ms) && ProcessesShown(mem, l.globals, cookie, procs, ps)
    ensures
      var g := l.globals;
      && Word(mem, g.block) == Word(mem, g.block + 8) == g.block && Word(mem, g.block + 0x10) == 0x340_4742_444B
      && Word(mem, g.block + 0x18) == (if ms == [] then 0xFFFF_8000_0000_0000 else ms[0].base)
      && Word(mem, g.block + 0x48) == l.moduleHead && Word(mem, g.block + 0x50) == l.processHead
      && Word(mem, g.types + 24) == Word(mem, g.typeVar) == g.processType
      && (ps != [] ==> Word(mem, g.initial) == Word(mem, g.idle) == l.processes + 0x30)
  {
    hide Sound, AllFree, Committed, Holding, ModulesShown, ProcessesShown, Walk;
    ghost var vs;
    mem, vs := Publish(l, cookie, ms, ps);
    HeldAt(mem, l.globals, vs);
    var block := l.globals.block;
    mods := ListWalk(mem, Word(mem, block + 0x48), 64);
    procs := ListWalk(mem, Word(mem, block + 0x50), 64);
    BothShown(mem, l, ms, ps, cookie, vs);
  }

  /** A process pushed with identifier 4 is printed with 3. */
  method WrongIdentifier() returns (pushed: Process, printed: nat)
    ensures pushed.pid == 4 && printed == 3
  {
    pushed := Process(4, 0x1000, 0, []);
    var l := Layout(0x1000, 0x1010, 0x2000, 0x3000, Globals(0x4000, 0x4100, 0x4200, 0x4208, 0x4210, 0x5000));
    SampleLayout(l);
    hide Sound, AllFree;
    var mem, _, procs := PublishAndList(l, 0, [], [pushed]);
    printed := PrintedId(mem, procs[0]);
  }

  lemma SampleLayout(l: Layout)
    requires l == Layout(0x1000, 0x1010, 0x2000, 0x3000, Globals(0x4000, 0x4100, 0x4200, 0x4208, 0x4210, 0x5000))
    ensures Sound(l) && AllFree(l)
  {
    assert Targets(l.globals)
        == [0x4208, 0x4210, 0x4018, 0x4200, 0x5000, 0x5008, 0x5010, 0x5018, 0x5048, 0x5050];
  }
}
