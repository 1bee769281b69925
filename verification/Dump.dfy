/** The page-table walk of the crash dump, `walk_runs` of `kernel/src/dump.rs`, and its agreement with
    the emulator's own translation. */
module Dump {
  import opened Bytes
  import opened Wrappers
  import opened Mmu
  import opened Runs

  /** The first higher-half address, and what sign extension adds to a 48-bit one. */
  const HIGHER_HALF: nat := 0xFFFF_8000_0000_0000
  const SIGN: nat := 0xFFFF_0000_0000_0000

  /** Sign-extend a 48-bit address: `canonical`. */
  function Canonize(va: nat): nat {
    if va / TWO47 % 2 == 1 then va % TWO48 + SIGN else va
  }

  /** Where a search of the tables for `va` ends, permissions aside. */
  datatype Hit = Miss | Hit(entry: nat, level: nat)

  function Search(mem: seq<byte>, table: nat, level: nat, va: nat): (h: Hit)
    requires level < 4
    ensures h.Hit? ==> level <= h.level < 4 && IsLeaf(h.entry, h.level)
    decreases 4 - level
  {
    var slot := table + Index(va, level) * 8;
    if slot + 8 > |mem| then Miss
    else
      var e := Get64(mem, slot);
      if !Present(e) then Miss
      else if IsLeaf(e, level) then Hit(e, level)
      else Search(mem, AddrBits(e), level + 1, va)
  }

  /** The page walk finds what the search finds. */
  lemma {:induction false} WalkSearches(mem: seq<byte>, table: nat, level: nat, va: nat, r: Rights, nxe: bool)
    requires level < 4
    ensures
      var w := WalkFrom(mem, table, level, va, r, nxe);
      Search(mem, table, level, va) == if w.Missing? then Miss else Hit(w.entry, w.level)
    decreases 4 - level
  {
    hide Index, AddrBits, Present, IsLeaf, Writable, User, NoExecute;
    var slot := table + Index(va, level) * 8;
    if slot + 8 <= |mem| && level < 3 {
      var e := Get64(mem, slot);
      WalkSearches(mem, AddrBits(e), level + 1, va, Narrow(r, e, nxe), nxe);
    }
  }

  /** The mapping the dump works from: unlike `translate` it keeps the low frame bits of a large leaf. */
  function DumpView(mem: seq<byte>, root: nat, va: nat): Option<nat> {
    match Search(mem, root, 0, va)
    case Miss => None
    case Hit(e, level) => Some(AddrBits(e) + PageOffset(va, level))
  }

  function View(mem: seq<byte>, root: nat): nat -> Option<nat> {
    (va: nat) => DumpView(mem, root, va)
  }

  /** The bytes an entry of a table at this level spans. */
  function Unit(level: nat): nat
    requires level < 4
  {
    if level == 0 then 0x80_0000_0000 else if level == 1 then HUGE else if level == 2 then LARGE else PAGE
  }

  function EntryAt(mem: seq<byte>, table: nat, i: nat): nat
    requires table + i * 8 + 8 <= |mem|
  {
    Get64(mem, table + i * 8)
  }

  /** Every table the search can reach from entry `first` on lies in memory. */
  ghost predicate InRam(mem: seq<byte>, table: nat, level: nat, first: nat)
    requires level < 4
    decreases 4 - level
  {
    && table + PAGE <= |mem|
    && (level < 3 ==>
          forall i | first <= i < 512 && Present(EntryAt(mem, table, i)) && !IsLeaf(EntryAt(mem, table, i), level) ::
            InRam(mem, AddrBits(EntryAt(mem, table, i)), level + 1, 0))
  }

  /** `table` is where the search from the root has got to for every address of the block at `b`. */
  ghost predicate Reaches(mem: seq<byte>, root: nat, table: nat, level: nat, b: nat)
    requires level < 4
  {
    forall va: nat | b <= va < b + 512 * Unit(level) :: Search(mem, root, 0, va) == Search(mem, table, level, va)
  }

  /** The bytes a whole table at this level spans. */
  function Block(level: nat): nat
    requires level < 4
  {
    if level == 0 then TWO48 else if level == 1 then 0x80_0000_0000 else if level == 2 then HUGE else LARGE
  }

  lemma IndexInBlock(level: nat, b: nat, i: nat, va: nat)
    requires level < 4 && i < 512 && b % Block(level) == 0
    requires b + i * Unit(level) <= va < b + (i + 1) * Unit(level)
    ensures Index(va, level) == i
    ensures level > 0 ==> PageOffset(va, level) == va - (b + i * Unit(level))
  {
    if level == 0 { IndexInBlock0(b, i, va); }
    else if level == 1 { IndexInBlock1(b, i, va); }
    else if level == 2 { IndexInBlock2(b, i, va); }
    else { IndexInBlock3(b, i, va); }
  }

  lemma IndexInBlock0(b: nat, i: nat, va: nat)
    requires i < 512 && b % TWO48 == 0 && b + i * 0x80_0000_0000 <= va < b + (i + 1) * 0x80_0000_0000
    ensures va / 0x80_0000_0000 % 512 == i
  {
    Euclid(va, 0x80_0000_0000, b / TWO48 * 512 + i, va - (b + i * 0x80_0000_0000));
    Euclid(b / TWO48 * 512 + i, 512, b / TWO48, i);
  }

  lemma IndexInBlock1(b: nat, i: nat, va: nat)
    requires i < 512 && b % 0x80_0000_0000 == 0 && b + i * HUGE <= va < b + (i + 1) * HUGE
    ensures va / HUGE % 512 == i && va % HUGE == va - (b + i * HUGE)
  {
    Euclid(va, HUGE, b / 0x80_0000_0000 * 512 + i, va - (b + i * HUGE));
    Euclid(b / 0x80_0000_0000 * 512 + i, 512, b / 0x80_0000_0000, i);
  }

  lemma IndexInBlock2(b: nat, i: nat, va: nat)
    requires i < 512 && b % HUGE == 0 && b + i * LARGE <= va < b + (i + 1) * LARGE
    ensures va / LARGE % 512 == i && va % LARGE == va - (b + i * LARGE)
  {
    Euclid(va, LARGE, b / HUGE * 512 + i, va - (b + i * LARGE));
    Euclid(b / HUGE * 512 + i, 512, b / HUGE, i);
  }

  lemma IndexInBlock3(b: nat, i: nat, va: nat)
    requires i < 512 && b % LARGE == 0 && b + i * PAGE <= va < b + (i + 1) * PAGE
    ensures va / PAGE % 512 == i && va % PAGE == va - (b + i * PAGE)
  {
    Euclid(va, PAGE, b / LARGE * 512 + i, va - (b + i * PAGE));
    Euclid(b / LARGE * 512 + i, 512, b / LARGE, i);
  }

  lemma EntryInBlock(level: nat, b: nat, i: nat, va: nat)
    requires level < 4 && i < 512
    requires b + i * Unit(level) <= va < b + (i + 1) * Unit(level)
    ensures b <= va < b + 512 * Unit(level)
  {
  }

  /** What the search finds for the addresses under one entry. */
  lemma SearchEntry(mem: seq<byte>, root: nat, table: nat, level: nat, b: nat, i: nat, e: nat, va: nat)
    requires level < 4 && i < 512 && b % Block(level) == 0 && Reaches(mem, root, table, level, b)
    requires table + i * 8 + 8 <= |mem| && e == Get64(mem, table + i * 8)
    requires b + i * Unit(level) <= va < b + (i + 1) * Unit(level)
    ensures Search(mem, root, 0, va) ==
      if !Present(e) then Miss else if IsLeaf(e, level) then Hit(e, level) else Search(mem, AddrBits(e), level + 1, va)
  {
    hide Index, PageOffset, AddrBits, Present, IsLeaf, Unit;
    IndexInBlock(level, b, i, va);
    EntryInBlock(level, b, i, va);
    assert Search(mem, root, 0, va) == Search(mem, table, level, va);
  }

  /** An absent entry leaves its addresses unmapped. */
  lemma AbsentStep(mem: seq<byte>, root: nat, table: nat, level: nat, b: nat, i: nat, e: nat, runs: seq<Run>)
    requires level < 4 && i < 512 && b % Block(level) == 0 && Reaches(mem, root, table, level, b)
    requires table + i * 8 + 8 <= |mem| && e == Get64(mem, table + i * 8) && !Present(e)
    requires Describes(View(mem, root), runs, HIGHER_HALF, b + i * Unit(level))
    ensures Describes(View(mem, root), runs, HIGHER_HALF, b + (i + 1) * Unit(level))
  {
    hide Search, Describes, Present, IsLeaf, AddrBits, Block;
    var lo, hi := b + i * Unit(level), b + (i + 1) * Unit(level);
    hide Unit;
    forall va: nat | lo <= va < hi
      ensures View(mem, root)(va) == None
    {
      SearchEntry(mem, root, table, level, b, i, e, va);
    }
    SkipDescribes(View(mem, root), runs, HIGHER_HALF, lo, hi);
  }

  /** A leaf maps its addresses contiguously. */
  lemma LeafStep(mem: seq<byte>, root: nat, table: nat, level: nat, b: nat, i: nat, e: nat, runs: seq<Run>)
    requires 0 < level < 4 && i < 512 && b % Block(level) == 0 && Reaches(mem, root, table, level, b)
    requires table + i * 8 + 8 <= |mem| && e == Get64(mem, table + i * 8) && Present(e) && IsLeaf(e, level)
    requires Describes(View(mem, root), runs, HIGHER_HALF, b + i * Unit(level)) && HIGHER_HALF <= b + i * Unit(level)
    ensures Describes(View(mem, root), Push(runs, b + i * Unit(level), AddrBits(e), Unit(level)),
                      HIGHER_HALF, b + (i + 1) * Unit(level))
  {
    hide Search, Describes, Present, IsLeaf, AddrBits, Block, PageOffset, Push;
    var lo, hi := b + i * Unit(level), b + (i + 1) * Unit(level);
    assert Unit(level) > 0 && hi == lo + Unit(level);
    hide Unit;
    forall va: nat | lo <= va < hi
      ensures View(mem, root)(va) == Some(AddrBits(e) + (va - lo))
    {
      SearchEntry(mem, root, table, level, b, i, e, va);
      IndexInBlock(level, b, i, va);
    }
    PushDescribes(View(mem, root), runs, HIGHER_HALF, lo, AddrBits(e), Unit(level));
  }

  /** A table entry passes the search on to the next level. */
  lemma TableStep(mem: seq<byte>, root: nat, table: nat, level: nat, b: nat, i: nat, e: nat)
    requires level < 3 && i < 512 && b % Block(level) == 0 && Reaches(mem, root, table, level, b)
    requires table + i * 8 + 8 <= |mem| && e == Get64(mem, table + i * 8) && Present(e) && !IsLeaf(e, level)
    ensures Reaches(mem, root, AddrBits(e), level + 1, b + i * Unit(level))
    ensures (b + i * Unit(level)) % Block(level + 1) == 0
  {
    NextBlock(b, i, level);
    hide Search, Present, IsLeaf, AddrBits, Block;
    var lo, hi := b + i * Unit(level), b + (i + 1) * Unit(level);
    assert hi == lo + 512 * Unit(level + 1);
    hide Unit;
    forall va: nat | lo <= va < hi
      ensures Search(mem, root, 0, va) == Search(mem, AddrBits(e), level + 1, va)
    {
      SearchEntry(mem, root, table, level, b, i, e, va);
    }
  }

  lemma NextBlock(b: nat, i: nat, level: nat)
    requires level < 3 && b % Block(level) == 0
    ensures (b + i * Unit(level)) % Block(level + 1) == 0
  {
    if level == 0 {
      Euclid(b + i * 0x80_0000_0000, 0x80_0000_0000, b / TWO48 * 512 + i, 0);
    } else if level == 1 {
      Euclid(b + i * HUGE, HUGE, b / 0x80_0000_0000 * 512 + i, 0);
    } else {
      Euclid(b + i * LARGE, LARGE, b / HUGE * 512 + i, 0);
    }
  }

  lemma CanonizeHigh(va: nat)
    requires TWO47 <= va < TWO48
    ensures Canonize(va) == SIGN + va
  {
  }

  /** The entries below entry `i` of a table that lies in memory. */
  lemma InRamBelow(mem: seq<byte>, table: nat, level: nat, first: nat, i: nat)
    requires level < 3 && InRam(mem, table, level, first) && first <= i < 512
    requires Present(Get64(mem, table + i * 8)) && !IsLeaf(Get64(mem, table + i * 8), level)
    ensures InRam(mem, AddrBits(Get64(mem, table + i * 8)), level + 1, 0)
    ensures AddrBits(Get64(mem, table + i * 8)) + PAGE <= |mem|
  {
    hide Present, IsLeaf, AddrBits;
    assert EntryAt(mem, table, i) == Get64(mem, table + i * 8);
  }

  /** The innermost loop: the 512 entries of one PT. */
  method WalkPt(mem: seq<byte>, ghost root: nat, pt: nat, va2: nat, runs0: seq<Run>) returns (runs: seq<Run>)
    requires pt + PAGE <= |mem| && TWO47 <= va2 && va2 + LARGE <= TWO48 && (SIGN + va2) % Block(3) == 0
    requires Reaches(mem, root, pt, 3, SIGN + va2)
    requires Describes(View(mem, root), runs0, HIGHER_HALF, SIGN + va2)
    ensures Describes(View(mem, root), runs, HIGHER_HALF, SIGN + va2 + LARGE)
  {
    hide Reaches, Describes, Canonize, Present, AddrBits, Push, Block, View, Get64;
    runs := runs0;
    for i1 := 0 to 512
      invariant Describes(View(mem, root), runs, HIGHER_HALF, SIGN + va2 + i1 * PAGE)
    {
      var e1 := Get64(mem, pt + i1 * 8);
      if !Present(e1) {
        AbsentStep(mem, root, pt, 3, SIGN + va2, i1, e1, runs);
        continue;
      }
      LeafStep(mem, root, pt, 3, SIGN + va2, i1, e1, runs);
      CanonizeHigh(va2 + i1 * PAGE);
      runs := Push(runs, Canonize(va2 + i1 * PAGE), AddrBits(e1), PAGE);
    }
  }

  /** One entry of a PD: a large leaf here, or a page table below. */
  method VisitPde(mem: seq<byte>, ghost root: nat, pd: nat, va3: nat, i2: nat, runs0: seq<Run>) returns (runs: seq<Run>)
    requires InRam(mem, pd, 2, 0) && TWO47 <= va3 && va3 + HUGE <= TWO48 && (SIGN + va3) % Block(2) == 0 && i2 < 512
    requires pd + PAGE <= |mem| && Reaches(mem, root, pd, 2, SIGN + va3)
    requires Describes(View(mem, root), runs0, HIGHER_HALF, SIGN + va3 + i2 * LARGE)
    ensures Describes(View(mem, root), runs, HIGHER_HALF, SIGN + va3 + (i2 + 1) * LARGE)
  {
    hide Reaches, Describes, Canonize, Present, AddrBits, Push, Block, PageSize, InRam, View, Get64;
    var e2 := Get64(mem, pd + i2 * 8);
    var va2 := va3 + i2 * LARGE;
    if !Present(e2) {
      AbsentStep(mem, root, pd, 2, SIGN + va3, i2, e2, runs0);
      runs := runs0;
    } else if PageSize(e2) {
      LeafStep(mem, root, pd, 2, SIGN + va3, i2, e2, runs0);
      CanonizeHigh(va2);
      runs := Push(runs0, Canonize(va2), AddrBits(e2), LARGE);
    } else {
      TableStep(mem, root, pd, 2, SIGN + va3, i2, e2);
      InRamBelow(mem, pd, 2, 0, i2);
      runs := WalkPt(mem, root, AddrBits(e2), va2, runs0);
    }
  }

  method WalkPd(mem: seq<byte>, ghost root: nat, pd: nat, va3: nat, runs0: seq<Run>) returns (runs: seq<Run>)
    requires InRam(mem, pd, 2, 0) && TWO47 <= va3 && va3 + HUGE <= TWO48 && (SIGN + va3) % Block(2) == 0
    requires pd + PAGE <= |mem| && Reaches(mem, root, pd, 2, SIGN + va3)
    requires Describes(View(mem, root), runs0, HIGHER_HALF, SIGN + va3)
    ensures Describes(View(mem, root), runs, HIGHER_HALF, SIGN + va3 + HUGE)
  {
    hide Reaches, Describes, Block, InRam, View;
    runs := runs0;
    for i2 := 0 to 512
      invariant Describes(View(mem, root), runs, HIGHER_HALF, SIGN + va3 + i2 * LARGE)
    {
      runs := VisitPde(mem, root, pd, va3, i2, runs);
    }
  }

  /** One entry of a PDPT. */
  method VisitPdpte(mem: seq<byte>, ghost root: nat, pdpt: nat, va4: nat, i3: nat, runs0: seq<Run>) returns (runs: seq<Run>)
    requires InRam(mem, pdpt, 1, 0) && TWO47 <= va4 && va4 + 0x80_0000_0000 <= TWO48 && (SIGN + va4) % Block(1) == 0 && i3 < 512
    requires pdpt + PAGE <= |mem| && Reaches(mem, root, pdpt, 1, SIGN + va4)
    requires Describes(View(mem, root), runs0, HIGHER_HALF, SIGN + va4 + i3 * HUGE)
    ensures Describes(View(mem, root), runs, HIGHER_HALF, SIGN + va4 + (i3 + 1) * HUGE)
  {
    hide Reaches, Describes, Canonize, Present, AddrBits, Push, Block, PageSize, InRam, View, Get64;
    var e3 := Get64(mem, pdpt + i3 * 8);
    var va3 := va4 + i3 * HUGE;
    if !Present(e3) {
      AbsentStep(mem, root, pdpt, 1, SIGN + va4, i3, e3, runs0);
      runs := runs0;
    } else if PageSize(e3) {
      LeafStep(mem, root, pdpt, 1, SIGN + va4, i3, e3, runs0);
      CanonizeHigh(va3);
      runs := Push(runs0, Canonize(va3), AddrBits(e3), HUGE);
    } else {
      TableStep(mem, root, pdpt, 1, SIGN + va4, i3, e3);
      InRamBelow(mem, pdpt, 1, 0, i3);
      runs := WalkPd(mem, root, AddrBits(e3), va3, runs0);
    }
  }

  method WalkPdpt(mem: seq<byte>, ghost root: nat, pdpt: nat, va4: nat, runs0: seq<Run>) returns (runs: seq<Run>)
    requires InRam(mem, pdpt, 1, 0) && TWO47 <= va4 && va4 + 0x80_0000_0000 <= TWO48 && (SIGN + va4) % Block(1) == 0
    requires pdpt + PAGE <= |mem| && Reaches(mem, root, pdpt, 1, SIGN + va4)
    requires Describes(View(mem, root), runs0, HIGHER_HALF, SIGN + va4)
    ensures Describes(View(mem, root), runs, HIGHER_HALF, SIGN + va4 + 0x80_0000_0000)
  {
    hide Reaches, Describes, Block, InRam, View;
    runs := runs0;
    for i3 := 0 to 512
      invariant Describes(View(mem, root), runs, HIGHER_HALF, SIGN + va4 + i3 * HUGE)
    {
      runs := VisitPdpte(mem, root, pdpt, va4, i3, runs);
    }
  }

  lemma WalkStarts(mem: seq<byte>, pml4: nat)
    requires InRam(mem, pml4, 0, 256)
    ensures pml4 + PAGE <= |mem| && Reaches(mem, pml4, pml4, 0, SIGN) && SIGN % Block(0) == 0
    ensures Describes(View(mem, pml4), [], HIGHER_HALF, SIGN + 256 * 0x80_0000_0000)
  {
    hide Search;
  }

  /** `walk_runs`: the higher half of the address space, PML4 entries 256 to 511. The runs it returns
      describe the dump's view of the tables exactly. */
  method WalkRuns(mem: seq<byte>, cr3: u64) returns (runs: seq<Run>)
    requires InRam(mem, AddrBits(cr3), 0, 256)
    ensures Describes(View(mem, AddrBits(cr3)), runs, HIGHER_HALF, TWO64)
  {
    hide Reaches, Describes, Present, AddrBits, Block, InRam, View, Get64;
    var pml4 := AddrBits(cr3);
    WalkStarts(mem, pml4);
    runs := [];
    for i4 := 256 to 512
      invariant Describes(View(mem, pml4), runs, HIGHER_HALF, SIGN + i4 * 0x80_0000_0000)
    {
      var e4 := Get64(mem, pml4 + i4 * 8);
      if !Present(e4) {
        AbsentStep(mem, pml4, pml4, 0, SIGN, i4, e4, runs);
        continue;
      }
      TableStep(mem, pml4, pml4, 0, SIGN, i4, e4);
      InRamBelow(mem, pml4, 0, 256, i4);
      runs := WalkPdpt(mem, pml4, AddrBits(e4), i4 * 0x80_0000_0000, runs);
    }
  }

  // --- agreement with the emulator's translation -------------------------------------------------

  /** Every large leaf of the higher half has zero bits below its page size. */
  ghost predicate LargeLeavesAligned(mem: seq<byte>, root: nat) {
    forall va: nat | HIGHER_HALF <= va < TWO64 && Search(mem, root, 0, va).Hit? ::
      var h := Search(mem, root, 0, va); LeafFrame(h.entry, h.level) == AddrBits(h.entry)
  }

  /** Supervisor reads through `translate` and the dump's view of the tables differ exactly by the low
      frame bits of large leaves. */
  lemma TranslateIsSearch(mem: seq<byte>, p: Paging, va: nat)
    requires LongModePaging(p) && HIGHER_HALF <= va < TWO64
    ensures Translate(mem, p, va, Read, false) ==
      match Search(mem, AddrBits(p.cr3), 0, va)
      case Miss => PageFault(va, FaultCode(false, Read, false))
      case Hit(e, level) => Mapped(LeafFrame(e, level) + PageOffset(va, level))
  {
    assert Canonical(va);
    WalkSearches(mem, AddrBits(p.cr3), 0, va, FullRights, NxEnabled(p));
    hide WalkFrom, Search, LeafFrame, PageOffset, AddrBits, LongModePaging, Canonical;
  }

  /** The dump's view and the emulator's translation of the higher half are the same mapping if and only
      if large leaves are aligned. */
  lemma ViewsAgree(mem: seq<byte>, p: Paging)
    requires LongModePaging(p)
    ensures LargeLeavesAligned(mem, AddrBits(p.cr3)) <==>
      forall va: nat | HIGHER_HALF <= va < TWO64 ::
        (match DumpView(mem, AddrBits(p.cr3), va)
         case None => Translate(mem, p, va, Read, false).PageFault?
         case Some(pa) => Translate(mem, p, va, Read, false) == Mapped(pa))
  {
    hide Search, Translate, LeafFrame, PageOffset, AddrBits, LongModePaging;
    forall va: nat | HIGHER_HALF <= va < TWO64
      ensures (match DumpView(mem, AddrBits(p.cr3), va)
         case None => Translate(mem, p, va, Read, false).PageFault?
         case Some(pa) => Translate(mem, p, va, Read, false) == Mapped(pa))
        <==> (var h := Search(mem, AddrBits(p.cr3), 0, va); h.Hit? ==> LeafFrame(h.entry, h.level) == AddrBits(h.entry))
    {
      TranslateIsSearch(mem, p, va);
    }
  }

  /** Three tables at 0x1000, 0x2000 and 0x3000 that map the first 2 MiB of the higher half with a large leaf
      whose bit 12 (PAT for a large page) is set. */
  function PatMemory(): (mem: seq<byte>)
    ensures |mem| == 0x4000
  {
    var zeros: seq<byte> := seq(0x4000, _ => 0);
    Put64(Put64(Put64(zeros, 0x1800, 0x2003), 0x2000, 0x3003), 0x3000, 0x20_1083)
  }

  lemma PatWords()
    ensures Get64(PatMemory(), 0x1800) == 0x2003
    ensures Get64(PatMemory(), 0x2000) == 0x3003
    ensures Get64(PatMemory(), 0x3000) == 0x20_1083
  {
    var zeros: seq<byte> := seq(0x4000, _ => 0);
    hide Put64, Get64;
    var m1 := Put64(zeros, 0x1800, 0x2003);
    var m2 := Put64(m1, 0x2000, 0x3003);
    var m3 := Put64(m2, 0x3000, 0x20_1083);
    Get64Put64(zeros, 0x1800, 0x2003);
    Get64Put64(m1, 0x2000, 0x3003);
    Get64Put64(m2, 0x3000, 0x20_1083);
    Get64Frame(m1, m2, 0x1800);
    Get64Frame(m2, m3, 0x1800);
    Get64Frame(m2, m3, 0x2000);
  }

  /** There the dump is off by a page from the first byte on. */
  lemma PatBitMovesLargeLeaf(p: Paging, va: nat)
    requires LongModePaging(p) && AddrBits(p.cr3) == 0x1000 && HIGHER_HALF <= va < HIGHER_HALF + LARGE
    ensures Translate(PatMemory(), p, va, Read, false) == Mapped(0x20_0000 + va % LARGE)
    ensures DumpView(PatMemory(), 0x1000, va) == Some(0x20_1000 + va % LARGE)
  {
    hide Search, Translate, AddrBits, LeafFrame, LongModePaging, PatMemory;
    PatSearch(va);
    TranslateIsSearch(PatMemory(), p, va);
    PatEntry();
  }

  lemma PatSearch(va: nat)
    requires HIGHER_HALF <= va < HIGHER_HALF + LARGE
    ensures Search(PatMemory(), 0x1000, 0, va) == Hit(0x20_1083, 2)
  {
    hide PatMemory, Get64, Index, AddrBits, Present, IsLeaf, Search;
    PatWords();
    PatIndex(va);
    PatEntries();
    SearchStep(PatMemory(), 0x1000, 0, va);
    SearchStep(PatMemory(), 0x2000, 1, va);
    SearchStep(PatMemory(), 0x3000, 2, va);
  }

  lemma SearchStep(mem: seq<byte>, table: nat, level: nat, va: nat)
    requires level < 3 && table + Index(va, level) * 8 + 8 <= |mem| && Present(Get64(mem, table + Index(va, level) * 8))
    ensures
      var e := Get64(mem, table + Index(va, level) * 8);
      Search(mem, table, level, va) == if IsLeaf(e, level) then Hit(e, level) else Search(mem, AddrBits(e), level + 1, va)
  {
    hide Get64, Index, AddrBits, Present, IsLeaf;
  }

  lemma PatIndex(va: nat)
    requires HIGHER_HALF <= va < HIGHER_HALF + LARGE
    ensures Index(va, 0) == 256 && Index(va, 1) == 0 && Index(va, 2) == 0
  {
    var x := va - HIGHER_HALF;
    Euclid(va, 0x80_0000_0000, 0x1FF_FF00, x);
    Euclid(0x1FF_FF00, 512, 0xFFFF, 256);
    Euclid(va, HUGE, 0x3_FFFE_0000, x);
    Euclid(0x3_FFFE_0000, 512, 0x1FF_FF00, 0);
    Euclid(va, LARGE, 0x7FF_FC00_0000, x);
    Euclid(0x7FF_FC00_0000, 512, 0x3_FFFE_0000, 0);
  }

  lemma PatEntries()
    ensures Present(0x2003) && !IsLeaf(0x2003, 0) && AddrBits(0x2003) == 0x2000
    ensures Present(0x3003) && !IsLeaf(0x3003, 1) && AddrBits(0x3003) == 0x3000
    ensures Present(0x20_1083) && IsLeaf(0x20_1083, 2)
  {
  }

  lemma PatEntry()
    ensures AddrBits(0x20_1083) == 0x20_1000 && LeafFrame(0x20_1083, 2) == 0x20_0000
  {
  }
}
