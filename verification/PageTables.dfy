/** The shape of the page tables `map_page` builds: a tree of table frames, and the lemma that the
    page walk computes exactly the mapping the tree stands for. */
module PageTables {
  import opened Bytes
  import opened Wrappers
  import opened Mmu

  /** A table frame's place: depth 0 is the PML4, depth 3 a PT; `n` is the virtual address prefix
      (the indices above it) of everything it maps. */
  datatype Node = Node(depth: nat, n: nat)

  /** Where each table lives (and, the other way, whose each frame is), and the 4 KiB and 2 MiB
      mappings by page number. */
  datatype Tree = Tree(tables: map<Node, nat>, owner: map<nat, Node>, small: map<nat, nat>, large: map<nat, nat>)

  const Root := Node(0, 0)

  function Low48(va: nat): nat { va % TWO48 }

  function Prefix(va: nat, depth: nat): nat
    requires depth <= 4
  {
    if depth == 0 then 0
    else if depth == 1 then Low48(va) / 0x80_0000_0000
    else if depth == 2 then Low48(va) / HUGE
    else if depth == 3 then Low48(va) / LARGE
    else Low48(va) / PAGE
  }

  function SmallPage(va: nat): nat { Prefix(va, 4) }
  function LargePage(va: nat): nat { Prefix(va, 3) }

  lemma IndexLow48(va: nat)
    ensures Index(va, 0) == Low48(va) / 0x80_0000_0000
    ensures Index(va, 1) == Low48(va) / HUGE % 512
    ensures Index(va, 2) == Low48(va) / LARGE % 512
    ensures Index(va, 3) == Low48(va) / PAGE % 512
  {
    var q, w := va / TWO48, va % TWO48;
    Euclid(va, 0x80_0000_0000, q * 512 + w / 0x80_0000_0000, w % 0x80_0000_0000);
    Euclid(q * 512 + w / 0x80_0000_0000, 512, q, w / 0x80_0000_0000);
    IndexField(va, q, w, HUGE, 0x4_0000);
    IndexField(va, q, w, LARGE, 0x800_0000);
    IndexField(va, q, w, PAGE, 0x10_0000_0000);
  }

  /** Bits above 48 do not reach an index field. */
  lemma IndexField(va: nat, q: nat, w: nat, d: nat, k: nat)
    requires va == q * TWO48 + w && d * k == TWO48 && d > 0 && k % 512 == 0
    ensures va / d % 512 == w / d % 512
  {
    var y := w / d;
    assert q * TWO48 == q * k * d;
    Euclid(va, d, q * k + y, w % d);
    assert q * k == q * (k / 512) * 512;
    Euclid(q * k + y, 512, q * (k / 512) + y / 512, y % 512);
  }

  lemma PrefixStep(va: nat, depth: nat)
    requires depth < 4
    ensures Prefix(va, depth + 1) == Prefix(va, depth) * 512 + Index(va, depth)
  {
    IndexLow48(va);
    hide Index, Low48;
  }

  /** What the tree maps `va` to. */
  function Lookup(t: Tree, va: nat): Option<nat> {
    if LargePage(va) in t.large then Some(t.large[LargePage(va)] + va % LARGE)
    else if SmallPage(va) in t.small then Some(t.small[SmallPage(va)] + va % PAGE)
    else None
  }

  function EntryOf(t: Tree, x: Node, i: nat): nat
  {
    var c := x.n * 512 + i;
    if x.depth == 3 then (if c in t.small then t.small[c] + 3 else 0)
    else if Node(x.depth + 1, c) in t.tables then t.tables[Node(x.depth + 1, c)] + 3
    else if x.depth == 2 && c in t.large then t.large[c] + 0x83
    else 0
  }

  ghost predicate TableOk(t: Tree, x: Node, lo: nat, hi: nat)
    requires x in t.tables
  {
    var f := t.tables[x];
    && x.depth <= 3 && (x.depth == 0 ==> x.n == 0)
    && (x.depth > 0 ==> Node(x.depth - 1, x.n / 512) in t.tables)
    && f % PAGE == 0 && lo <= f && f + PAGE <= hi
    && f in t.owner && t.owner[f] == x
  }

  ghost predicate LargeOk(t: Tree, s: nat)
    requires s in t.large
  {
    && Node(2, s / 512) in t.tables && Node(3, s) !in t.tables
    && t.large[s] % LARGE == 0 && t.large[s] < TWO52
  }

  ghost predicate SmallOk(t: Tree, v: nat)
    requires v in t.small
  {
    && Node(3, v / 512) in t.tables
    && t.small[v] % PAGE == 0 && t.small[v] < TWO52
  }

  ghost predicate Shape(t: Tree, root: nat, lo: nat, hi: nat) {
    && Root in t.tables && t.tables[Root] == root
    && (forall x {:trigger TableOk(t, x, lo, hi)} | x in t.tables :: TableOk(t, x, lo, hi))
    && (forall s {:trigger LargeOk(t, s)} | s in t.large :: LargeOk(t, s))
    && (forall v {:trigger SmallOk(t, v)} | v in t.small :: SmallOk(t, v))
    && hi <= TWO52
  }

  ghost predicate EntryMatches(mem: seq<byte>, t: Tree, x: Node, i: nat)
    requires x in t.tables
  {
    t.tables[x] + 8 * i + 8 <= |mem| && Get64(mem, t.tables[x] + 8 * i) == EntryOf(t, x, i)
  }

  /** Memory holds the tree: every entry of every table is the one the tree says. */
  ghost predicate Holds(mem: seq<byte>, t: Tree, root: nat, lo: nat, hi: nat) {
    && Shape(t, root, lo, hi)
    && hi <= |mem|
    && forall x, i {:trigger EntryMatches(mem, t, x, i)} | x in t.tables && 0 <= i < 512 :: EntryMatches(mem, t, x, i)
  }

  /** The flag bits of an entry are those of its low twelve, and its frame is the rest. */
  lemma EntryBits(f: nat, flags: nat)
    requires f % PAGE == 0 && f < TWO52 && flags < PAGE
    ensures var e := f + flags;
      && (Present(e) <==> Present(flags)) && (Writable(e) <==> Writable(flags)) && (User(e) <==> User(flags))
      && (PageSize(e) <==> PageSize(flags)) && !NoExecute(e) && AddrBits(e) == f
  {
    var q := f / PAGE;
    FlagBit(q, flags, 1, 2048);
    FlagBit(q, flags, 2, 1024);
    FlagBit(q, flags, 4, 512);
    FlagBit(q, flags, 128, 16);
    Euclid(f + flags, PAGE, q, flags);
    Euclid(f + flags, TWO52, 0, f + flags);
  }

  lemma FlagBit(q: nat, flags: nat, w: nat, k: nat)
    requires w > 0 && 2 * w * k == PAGE && flags < PAGE
    ensures (q * PAGE + flags) / w % 2 == flags / w % 2
  {
    var y := flags / w;
    assert q * PAGE == q * k * 2 * w;
    Euclid(q * PAGE + flags, w, q * k * 2 + y, flags % w);
    Euclid(q * k * 2 + y, 2, q * k + y / 2, y % 2);
  }

  lemma TableEntry(f: nat)
    requires f % PAGE == 0 && f < TWO52
    ensures var e := f + 3; Present(e) && Writable(e) && !User(e) && !PageSize(e) && !NoExecute(e) && AddrBits(e) == f && LeafFrame(e, 3) == f
  {
    EntryBits(f, 3);
  }

  lemma LargeEntry(f: nat)
    requires f % LARGE == 0 && f < TWO52
    ensures var e := f + 0x83; Present(e) && Writable(e) && !User(e) && PageSize(e) && !NoExecute(e) && AddrBits(e) == f && LeafFrame(e, 2) == f
  {
    assert f % PAGE == 0;
    EntryBits(f, 0x83);
  }

  const Supervisor := Rights(true, false, true)

  lemma WalkUp(mem: seq<byte>, table: nat, level: nat, va: nat, r: Rights, nxe: bool, e: nat)
    requires level < 4 && table + 8 * Index(va, level) + 8 <= |mem|
    requires e == Get64(mem, table + 8 * Index(va, level))
    requires !User(e) && !NoExecute(e) && Writable(e)
    ensures WalkFrom(mem, table, level, va, r, nxe) ==
      var r' := Rights(r.writable, false, r.executable);
      if !Present(e) then Missing
      else if IsLeaf(e, level) then Leaf(e, level, r')
      else WalkFrom(mem, AddrBits(e), level + 1, va, r', nxe)
  {
    hide Index, AddrBits, Present, Writable, User, PageSize, NoExecute;
  }

  /** The facts about one entry that the walk needs. */
  ghost predicate EntrySound(mem: seq<byte>, t: Tree, x: Node, i: nat)
    requires x in t.tables
  {
    var c := x.n * 512 + i;
    && EntryMatches(mem, t, x, i)
    && (Node(x.depth + 1, c) in t.tables ==>
          t.tables[Node(x.depth + 1, c)] % PAGE == 0 && t.tables[Node(x.depth + 1, c)] < TWO52)
    && (c in t.small ==> t.small[c] % PAGE == 0 && t.small[c] < TWO52)
    && (c in t.large ==> t.large[c] % LARGE == 0 && t.large[c] < TWO52)
  }

  lemma EntryIsSound(mem: seq<byte>, t: Tree, root: nat, lo: nat, hi: nat, x: Node, i: nat)
    requires Holds(mem, t, root, lo, hi) && x in t.tables && i < 512
    ensures EntrySound(mem, t, x, i)
  {
    var c := x.n * 512 + i;
    assert EntryMatches(mem, t, x, i);
    assert Node(x.depth + 1, c) in t.tables ==> TableOk(t, Node(x.depth + 1, c), lo, hi);
    assert c in t.small ==> SmallOk(t, c);
    assert c in t.large ==> LargeOk(t, c);
  }

  lemma WalkIntoTable(mem: seq<byte>, t: Tree, x: Node, i: nat, c: Node, va: nat, r: Rights, nxe: bool)
    requires x in t.tables && x.depth < 3 && i == Index(va, x.depth) && c == Node(x.depth + 1, x.n * 512 + i)
    requires EntrySound(mem, t, x, i) && c in t.tables
    ensures WalkFrom(mem, t.tables[x], x.depth, va, r, nxe) ==
            WalkFrom(mem, t.tables[c], c.depth, va, Rights(r.writable, false, r.executable), nxe)
  {
    hide Index, AddrBits, Present, Writable, User, PageSize, NoExecute, LeafFrame, WalkFrom;
    TableEntry(t.tables[c]);
    WalkUp(mem, t.tables[x], x.depth, va, r, nxe, t.tables[c] + 3);
  }

  lemma WalkToLarge(mem: seq<byte>, t: Tree, x: Node, i: nat, va: nat, r: Rights, nxe: bool)
    requires x in t.tables && x.depth == 2 && i == Index(va, 2)
    requires EntrySound(mem, t, x, i) && Node(3, x.n * 512 + i) !in t.tables && x.n * 512 + i in t.large
    ensures WalkFrom(mem, t.tables[x], x.depth, va, r, nxe) ==
            Leaf(t.large[x.n * 512 + i] + 0x83, 2, Rights(r.writable, false, r.executable))
  {
    hide Index, AddrBits, Present, Writable, User, PageSize, NoExecute, LeafFrame, WalkFrom;
    LargeEntry(t.large[x.n * 512 + i]);
    WalkUp(mem, t.tables[x], x.depth, va, r, nxe, t.large[x.n * 512 + i] + 0x83);
  }

  lemma WalkToNothing(mem: seq<byte>, t: Tree, x: Node, i: nat, va: nat, r: Rights, nxe: bool)
    requires x in t.tables && x.depth <= 3 && i == Index(va, x.depth)
    requires EntryMatches(mem, t, x, i) && EntryOf(t, x, i) == 0
    ensures WalkFrom(mem, t.tables[x], x.depth, va, r, nxe) == Missing
  {
    ZeroEntry();
    hide Index, EntryOf, Present;
  }

  /** One step of the walk through a table of the tree. */
  lemma WalkTable(mem: seq<byte>, t: Tree, root: nat, lo: nat, hi: nat, x: Node, va: nat, r: Rights, nxe: bool)
    requires Holds(mem, t, root, lo, hi)
    requires x in t.tables && x.depth < 3 && x.n == Prefix(va, x.depth)
    ensures
      var w := WalkFrom(mem, t.tables[x], x.depth, va, r, nxe);
      var r' := Rights(r.writable, false, r.executable);
      var c := Node(x.depth + 1, Prefix(va, x.depth + 1));
      if c in t.tables then w == WalkFrom(mem, t.tables[c], c.depth, va, r', nxe)
      else if x.depth == 2 && c.n in t.large then w == Leaf(t.large[c.n] + 0x83, 2, r')
      else w == Missing
  {
    PrefixStep(va, x.depth);
    hide Index, Prefix, WalkFrom, Holds;
    var i := Index(va, x.depth);
    EntryIsSound(mem, t, root, lo, hi, x, i);
    var c := Node(x.depth + 1, x.n * 512 + i);
    if c in t.tables {
      WalkIntoTable(mem, t, x, i, c, va, r, nxe);
    } else if x.depth == 2 && c.n in t.large {
      WalkToLarge(mem, t, x, i, va, r, nxe);
    } else {
      WalkToNothing(mem, t, x, i, va, r, nxe);
    }
  }

  lemma WalkLastTable(mem: seq<byte>, t: Tree, root: nat, lo: nat, hi: nat, x: Node, va: nat, r: Rights, nxe: bool)
    requires Holds(mem, t, root, lo, hi)
    requires x in t.tables && x.depth == 3 && x.n == Prefix(va, 3)
    ensures WalkFrom(mem, t.tables[x], 3, va, r, nxe) ==
      if SmallPage(va) in t.small then Leaf(t.small[SmallPage(va)] + 3, 3, Rights(r.writable, false, r.executable))
      else Missing
  {
    PrefixStep(va, 3);
    hide Index, Prefix, AddrBits, Present, Writable, User, PageSize, NoExecute, LeafFrame, WalkFrom, Holds;
    EntryIsSound(mem, t, root, lo, hi, x, Index(va, 3));
    if SmallPage(va) in t.small {
      TableEntry(t.small[SmallPage(va)]);
      WalkUp(mem, t.tables[x], 3, va, r, nxe, t.small[SmallPage(va)] + 3);
    } else {
      WalkToNothing(mem, t, x, Index(va, 3), va, r, nxe);
    }
  }

  lemma ZeroEntry()
    ensures !Present(0)
  {
  }

  /** Tables and leaves hang together: nothing is mapped below a missing table. */
  lemma Ancestors(t: Tree, root: nat, lo: nat, hi: nat, va: nat)
    requires Shape(t, root, lo, hi)
    ensures Root in t.tables && t.tables[Root] == root && Prefix(va, 0) == 0
    ensures Node(2, Prefix(va, 2)) in t.tables ==> Node(1, Prefix(va, 1)) in t.tables
    ensures Node(3, Prefix(va, 3)) in t.tables ==> Node(2, Prefix(va, 2)) in t.tables && LargePage(va) !in t.large
    ensures LargePage(va) in t.large ==> Node(2, Prefix(va, 2)) in t.tables
    ensures SmallPage(va) in t.small ==> Node(3, Prefix(va, 3)) in t.tables
  {
    var n2, n3 := Node(2, Prefix(va, 2)), Node(3, Prefix(va, 3));
    PrefixStep(va, 1); PrefixStep(va, 2); PrefixStep(va, 3);
    assert n3.n / 512 == n2.n && n2.n / 512 == Prefix(va, 1) && Prefix(va, 4) / 512 == n3.n;
    hide Prefix;
    assert n2 in t.tables ==> TableOk(t, n2, lo, hi);
    assert n3 in t.tables ==> TableOk(t, n3, lo, hi);
    assert SmallPage(va) in t.small ==> SmallOk(t, SmallPage(va));
    assert n3.n in t.large ==> LargeOk(t, n3.n);
  }

  /** What the tree says a walk for `va` finds. */
  function LeafOf(t: Tree, va: nat): Walk {
    if LargePage(va) in t.large then Leaf(t.large[LargePage(va)] + 0x83, 2, Supervisor)
    else if SmallPage(va) in t.small then Leaf(t.small[SmallPage(va)] + 3, 3, Supervisor)
    else Missing
  }

  lemma WalkLower(mem: seq<byte>, t: Tree, root: nat, lo: nat, hi: nat, va: nat, nxe: bool)
    requires Holds(mem, t, root, lo, hi) && Node(2, Prefix(va, 2)) in t.tables
    ensures WalkFrom(mem, t.tables[Node(2, Prefix(va, 2))], 2, va, Supervisor, nxe) == LeafOf(t, va)
  {
    var n2, n3 := Node(2, Prefix(va, 2)), Node(3, Prefix(va, 3));
    Ancestors(t, root, lo, hi, va);
    hide Prefix, WalkFrom, Holds;
    WalkTable(mem, t, root, lo, hi, n2, va, Supervisor, nxe);
    if n3 in t.tables {
      WalkLastTable(mem, t, root, lo, hi, n3, va, Supervisor, nxe);
    }
  }

  lemma NoLeaf(mem: seq<byte>, t: Tree, root: nat, lo: nat, hi: nat, va: nat)
    requires Holds(mem, t, root, lo, hi)
    ensures Root in t.tables && t.tables[Root] == root && Prefix(va, 0) == 0
    ensures Node(2, Prefix(va, 2)) in t.tables ==> Node(1, Prefix(va, 1)) in t.tables
    ensures Node(2, Prefix(va, 2)) !in t.tables ==> LeafOf(t, va) == Missing
  {
    Ancestors(t, root, lo, hi, va);
    hide Prefix, Shape;
  }

  /** The whole walk from the root of the tree. */
  lemma WalkTree(mem: seq<byte>, t: Tree, root: nat, lo: nat, hi: nat, va: nat, nxe: bool)
    requires Holds(mem, t, root, lo, hi)
    ensures WalkFrom(mem, root, 0, va, FullRights, nxe) == LeafOf(t, va)
  {
    hide Prefix, WalkFrom, Holds, LeafOf;
    var n1, n2 := Node(1, Prefix(va, 1)), Node(2, Prefix(va, 2));
    NoLeaf(mem, t, root, lo, hi, va);
    WalkTable(mem, t, root, lo, hi, Root, va, FullRights, nxe);
    if n1 in t.tables {
      WalkTable(mem, t, root, lo, hi, n1, va, Supervisor, nxe);
      if n2 in t.tables {
        WalkLower(mem, t, root, lo, hi, va, nxe);
      }
    }
  }

  /** Supervisor accesses see exactly the tree's mapping and user accesses to it are refused;
      everything else faults with P clear. */
  lemma TranslateTree(mem: seq<byte>, t: Tree, root: nat, lo: nat, hi: nat,
                      p: Paging, va: nat, access: Access, user: bool)
    requires Holds(mem, t, root, lo, hi)
    requires LongModePaging(p) && AddrBits(p.cr3) == root && Canonical(va)
    ensures Translate(mem, p, va, access, user) ==
      match Lookup(t, va)
      case None => PageFault(va, FaultCode(false, access, user))
      case Some(pa) => if user then PageFault(va, FaultCode(true, access, user)) else Mapped(pa)
  {
    hide Prefix, AddrBits, WalkFrom, Canonical, LongModePaging, NxEnabled, LeafFrame, TableOk, Holds,
      Present, Writable, User, PageSize, NoExecute;
    WalkTree(mem, t, root, lo, hi, va, NxEnabled(p));
    if LargePage(va) in t.large {
      PagesAreSound(mem, t, root, lo, hi, va);
      LargeEntry(t.large[LargePage(va)]);
    } else if SmallPage(va) in t.small {
      PagesAreSound(mem, t, root, lo, hi, va);
      TableEntry(t.small[SmallPage(va)]);
    }
  }

  lemma PagesAreSound(mem: seq<byte>, t: Tree, root: nat, lo: nat, hi: nat, va: nat)
    requires Holds(mem, t, root, lo, hi)
    ensures SmallPage(va) in t.small ==> SmallOk(t, SmallPage(va))
    ensures LargePage(va) in t.large ==> LargeOk(t, LargePage(va))
  {
  }
}
