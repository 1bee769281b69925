/** `boot_kernel` of `emu/src/machine.rs`: load and relocate the image, build the tables, hand over. The
    ELF image is given as its loadable segments and its relative relocations, and the two BootInfo
    buffers as bytes. */
module Boot {
  import opened Bytes
  import opened Mmu
  import opened PageTables
  import opened PageTableUpdates
  import opened Mapping
  import opened BootLayout
  import M = Machine

  datatype Segment = Segment(vaddr: nat, bytes: seq<byte>, memSize: nat)
  datatype Relocation = Relocation(offset: nat, value: u64)

  /** The registers and the usable-memory report handed to the kernel. */
  datatype Handoff = Handoff(paging: Paging, rip: nat, rsp: nat, rsp0: nat, rdi: nat, usableStart: nat, usableEnd: nat)

  function SpanEnd(segments: seq<Segment>): nat {
    if segments == [] then 0
    else
      var rest, s := SpanEnd(segments[..|segments| - 1]), segments[|segments| - 1];
      if rest < s.vaddr + s.memSize then s.vaddr + s.memSize else rest
  }

  function ImageSpan(segments: seq<Segment>): nat { (SpanEnd(segments) + PAGE - 1) / PAGE * PAGE }

  /** The end of the segment that ends last, and the whole pages up to there. */
  lemma {:induction false} SpanEndIs(segments: seq<Segment>)
    ensures forall s | s in segments :: s.vaddr + s.memSize <= SpanEnd(segments)
    ensures SpanEnd(segments) == 0 || exists s :: s in segments && s.vaddr + s.memSize == SpanEnd(segments)
    ensures ImageSpan(segments) % PAGE == 0 && SpanEnd(segments) <= ImageSpan(segments) < SpanEnd(segments) + PAGE
  {
    if segments != [] {
      var rest, last := segments[..|segments| - 1], segments[|segments| - 1];
      SpanEndIs(rest);
      assert forall s | s in segments :: s in rest || s == last;
      assert last in segments;
      if SpanEnd(segments) == SpanEnd(rest) && SpanEnd(rest) > 0 {
        var s :| s in rest && s.vaddr + s.memSize == SpanEnd(rest);
        assert s in segments;
      }
    }
  }

  predicate Fits(segments: seq<Segment>, span: nat) {
    forall s | s in segments :: s.vaddr + |s.bytes| <= span
  }

  lemma {:induction false} SegmentsFit(segments: seq<Segment>)
    requires forall s | s in segments :: |s.bytes| <= s.memSize
    ensures Fits(segments, SpanEnd(segments))
  {
    if segments != [] {
      var rest, s := segments[..|segments| - 1], segments[|segments| - 1];
      SegmentsFit(rest);
      forall x | x in segments
        ensures x.vaddr + |x.bytes| <= SpanEnd(segments)
      {
        assert x in rest || x == s;
      }
    }
  }

  lemma SegmentsFitPages(segments: seq<Segment>)
    requires forall s | s in segments :: |s.bytes| <= s.memSize
    ensures Fits(segments, ImageSpan(segments))
  {
    SegmentsFit(segments);
    hide SpanEnd;
  }

  function Overlay(mem: seq<byte>, a: nat, bytes: seq<byte>): (m: seq<byte>)
    requires a + |bytes| <= |mem|
    ensures |m| == |mem|
    ensures forall k {:trigger m[k]} | 0 <= k < |mem| :: m[k] == if a <= k < a + |bytes| then bytes[k - a] else mem[k]
  {
    mem[..a] + bytes + mem[a + |bytes|..]
  }

  /** Memory with the segments copied in, in order. */
  function WithSegments(mem: seq<byte>, segments: seq<Segment>, span: nat): (m: seq<byte>)
    requires Fits(segments, span) && KIMG_PHYS + span <= |mem|
    ensures |m| == |mem| && SameOutside(mem, m, KIMG_PHYS, KIMG_PHYS + span)
  {
    if segments == [] then mem
    else
      var s := segments[|segments| - 1];
      Overlay(WithSegments(mem, segments[..|segments| - 1], span), KIMG_PHYS + s.vaddr, s.bytes)
  }

  /** Memory with the relocations applied, in order. */
  function WithRelocations(mem: seq<byte>, relocations: seq<Relocation>, span: nat): (m: seq<byte>)
    requires (forall r | r in relocations :: r.offset + 8 <= span) && KIMG_PHYS + span <= |mem|
    ensures |m| == |mem| && SameOutside(mem, m, KIMG_PHYS, KIMG_PHYS + span)
  {
    if relocations == [] then mem
    else
      var r := relocations[|relocations| - 1];
      Put64(WithRelocations(mem, relocations[..|relocations| - 1], span), KIMG_PHYS + r.offset, r.value)
  }

  // --- what the loaded image holds --------------------------------------------------------------

  predicate Covers(s: Segment, a: nat) { s.vaddr <= a < s.vaddr + |s.bytes| }

  predicate Patches(r: Relocation, a: nat) { r.offset <= a < r.offset + 8 }

  /** Byte `k` of segment `i` is at its own address, unless a later segment or a relocation covers it. */
  ghost predicate SegmentHere(mem: seq<byte>, segments: seq<Segment>, relocations: seq<Relocation>, i: nat, k: nat) {
    && i < |segments| && k < |segments[i].bytes|
    && var a := segments[i].vaddr + k;
    && KIMG_PHYS + a < |mem|
    && ((forall j | i < j < |segments| :: !Covers(segments[j], a)) && (forall r | r in relocations :: !Patches(r, a)) ==>
          mem[KIMG_PHYS + a] == segments[i].bytes[k])
  }

  /** Relocation `i` is in place, unless a later one overlaps it. */
  ghost predicate RelocationHere(mem: seq<byte>, relocations: seq<Relocation>, i: nat) {
    && i < |relocations|
    && var o := relocations[i].offset;
    && KIMG_PHYS + o + 8 <= |mem|
    && ((forall j | i < j < |relocations| :: relocations[j].offset + 8 <= o || o + 8 <= relocations[j].offset) ==>
          Get64(mem, KIMG_PHYS + o) == relocations[i].value)
  }

  /** A byte nothing was loaded to is as it was. */
  ghost predicate GapHere(mem: seq<byte>, was: seq<byte>, segments: seq<Segment>, relocations: seq<Relocation>, a: nat) {
    && KIMG_PHYS + a < |mem| && |was| == |mem|
    && ((forall s | s in segments :: !Covers(s, a)) && (forall r | r in relocations :: !Patches(r, a)) ==>
          mem[KIMG_PHYS + a] == was[KIMG_PHYS + a])
  }

  /** The whole image. */
  ghost predicate ImageLoaded(mem: seq<byte>, was: seq<byte>, segments: seq<Segment>, relocations: seq<Relocation>, span: nat) {
    && (forall i: nat, k: nat {:trigger SegmentHere(mem, segments, relocations, i, k)} |
          i < |segments| && k < |segments[i].bytes| :: SegmentHere(mem, segments, relocations, i, k))
    && (forall i: nat {:trigger RelocationHere(mem, relocations, i)} | i < |relocations| :: RelocationHere(mem, relocations, i))
    && (forall a: nat {:trigger GapHere(mem, was, segments, relocations, a)} | a < span ::
          GapHere(mem, was, segments, relocations, a))
  }

  lemma {:induction false} SegmentByte(mem: seq<byte>, segments: seq<Segment>, span: nat, i: nat, k: nat)
    requires Fits(segments, span) && KIMG_PHYS + span <= |mem| && i < |segments| && k < |segments[i].bytes|
    requires forall j | i < j < |segments| :: !Covers(segments[j], segments[i].vaddr + k)
    ensures segments[i] in segments && segments[i].vaddr + k < span
    ensures WithSegments(mem, segments, span)[KIMG_PHYS + segments[i].vaddr + k] == segments[i].bytes[k]
    decreases |segments|
  {
    hide SameOutside, Overlay;
    var n := |segments| - 1;
    assert segments[i] in segments && segments[n] in segments;
    if i < n {
      var rest := segments[..n];
      assert rest[i] == segments[i] && Fits(rest, span);
      SegmentByte(mem, rest, span, i, k);
    }
  }

  lemma {:induction false} SegmentGap(mem: seq<byte>, segments: seq<Segment>, span: nat, a: nat)
    requires Fits(segments, span) && KIMG_PHYS + span <= |mem| && a < span && forall s | s in segments :: !Covers(s, a)
    ensures WithSegments(mem, segments, span)[KIMG_PHYS + a] == mem[KIMG_PHYS + a]
    decreases |segments|
  {
    hide SameOutside, Overlay;
    if segments != [] {
      var n := |segments| - 1;
      assert segments[n] in segments && Fits(segments[..n], span);
      SegmentGap(mem, segments[..n], span, a);
    }
  }

  lemma {:induction false} PatchGap(mem: seq<byte>, relocations: seq<Relocation>, span: nat, a: nat)
    requires (forall r | r in relocations :: r.offset + 8 <= span) && KIMG_PHYS + span <= |mem| && a < span
    requires forall r | r in relocations :: !Patches(r, a)
    ensures WithRelocations(mem, relocations, span)[KIMG_PHYS + a] == mem[KIMG_PHYS + a]
    decreases |relocations|
  {
    hide SameOutside, Put64;
    if relocations != [] {
      var n := |relocations| - 1;
      assert relocations[n] in relocations;
      PatchGap(mem, relocations[..n], span, a);
    }
  }

  lemma {:induction false} PatchWord(mem: seq<byte>, relocations: seq<Relocation>, span: nat, i: nat)
    requires (forall r | r in relocations :: r.offset + 8 <= span) && KIMG_PHYS + span <= |mem| && i < |relocations|
    requires
      var o := relocations[i].offset;
      forall j | i < j < |relocations| :: relocations[j].offset + 8 <= o || o + 8 <= relocations[j].offset
    ensures relocations[i] in relocations
    ensures Get64(WithRelocations(mem, relocations, span), KIMG_PHYS + relocations[i].offset) == relocations[i].value
    decreases |relocations|
  {
    hide SameOutside, Put64, Get64;
    var n := |relocations| - 1;
    assert relocations[i] in relocations && relocations[n] in relocations;
    var rest := relocations[..n];
    var before, r, o := WithRelocations(mem, rest, span), relocations[n], relocations[i].offset;
    if i < n {
      assert rest[i] == relocations[i];
      PatchWord(mem, rest, span, i);
      Get64Frame(before, Put64(before, KIMG_PHYS + r.offset, r.value), KIMG_PHYS + o);
    } else {
      Get64Put64(before, KIMG_PHYS + r.offset, r.value);
    }
  }

  /** Memory that agrees with the loaded image over its span holds it. */
  lemma LoadedStands(mem: seq<byte>, was: seq<byte>, segments: seq<Segment>, relocations: seq<Relocation>, span: nat)
    requires Fits(segments, span) && (forall r | r in relocations :: r.offset + 8 <= span) && KIMG_PHYS + span <= |was| == |mem|
    requires forall k {:trigger mem[k]} | KIMG_PHYS <= k < KIMG_PHYS + span :: mem[k] == Loaded(was, segments, relocations, span)[k]
    ensures ImageLoaded(mem, was, segments, relocations, span)
  {
    hide WithSegments, WithRelocations, SameOutside, Get64, Covers, Patches;
    var loaded := WithSegments(was, segments, span);
    var image := WithRelocations(loaded, relocations, span);
    forall i: nat, k: nat {:trigger SegmentHere(mem, segments, relocations, i, k)} | i < |segments| && k < |segments[i].bytes|
      ensures SegmentHere(mem, segments, relocations, i, k)
    {
      var a := segments[i].vaddr + k;
      assert segments[i] in segments;
      if (forall j | i < j < |segments| :: !Covers(segments[j], a)) && (forall r | r in relocations :: !Patches(r, a)) {
        SegmentByte(was, segments, span, i, k);
        PatchGap(loaded, relocations, span, a);
      }
    }
    forall i: nat {:trigger RelocationHere(mem, relocations, i)} | i < |relocations|
      ensures RelocationHere(mem, relocations, i)
    {
      var o := relocations[i].offset;
      assert relocations[i] in relocations;
      if forall j | i < j < |relocations| :: relocations[j].offset + 8 <= o || o + 8 <= relocations[j].offset {
        PatchWord(loaded, relocations, span, i);
        Get64Frame(image, mem, KIMG_PHYS + o);
      }
    }
    forall a: nat {:trigger GapHere(mem, was, segments, relocations, a)} | a < span
      ensures GapHere(mem, was, segments, relocations, a)
    {
      if (forall s | s in segments :: !Covers(s, a)) && (forall r | r in relocations :: !Patches(r, a)) {
        SegmentGap(was, segments, span, a);
        PatchGap(loaded, relocations, span, a);
      }
    }
  }

  method SpanOf(segments: seq<Segment>) returns (end: nat)
    ensures end == SpanEnd(segments)
    ensures forall s | s in segments :: s.vaddr + s.memSize <= end
    ensures end == 0 || exists s :: s in segments && s.vaddr + s.memSize == end
  {
    SpanEndIs(segments);
    end := 0;
    for i := 0 to |segments|
      invariant end == SpanEnd(segments[..i])
    {
      var top := segments[i].vaddr + segments[i].memSize;
      assert segments[..i + 1][..i] == segments[..i];
      if end < top {
        end := top;
      }
    }
    assert segments[..|segments|] == segments;
  }

  method WritePhys(m: M.Machine, phys: nat, bytes: seq<byte>)
    requires phys + |bytes| <= m.ram.Length
    modifies m.ram
    ensures m.ram[..] == Overlay(old(m.ram[..]), phys, bytes)
  {
    forall k | 0 <= k < |bytes| {
      m.ram[phys + k] := bytes[k];
    }
    assert m.ram[..] == Overlay(old(m.ram[..]), phys, bytes);
  }

  /** Step 1 of the boot: the segments at their physical home, then the relocations. */
  method LoadSegments(m: M.Machine, segments: seq<Segment>, ghost span: nat)
    requires Fits(segments, span) && KIMG_PHYS + span <= m.ram.Length
    modifies m.ram
    ensures m.ram[..] == WithSegments(old(m.ram[..]), segments, span)
    ensures ImageLoaded(m.ram[..], old(m.ram[..]), segments, [], span)
    ensures SameOutside(old(m.ram[..]), m.ram[..], 0x80_0000, 0x80_0000 + span)
  {
    hide Overlay, SameOutside, ImageLoaded;
    ghost var mem := m.ram[..];
    SegmentsStand(mem, segments, span);
    for i := 0 to |segments|
      invariant m.ram[..] == WithSegments(mem, segments[..i], span)
    {
      assert segments[..i + 1][..i] == segments[..i];
      WritePhys(m, KIMG_PHYS + segments[i].vaddr, segments[i].bytes);
    }
    assert segments[..|segments|] == segments;
  }

  method Relocate(m: M.Machine, relocations: seq<Relocation>, ghost span: nat)
    requires (forall r | r in relocations :: r.offset + 8 <= span) && KIMG_PHYS + span <= m.ram.Length
    modifies m.ram
    ensures m.ram[..] == WithRelocations(old(m.ram[..]), relocations, span)
    ensures ImageLoaded(m.ram[..], old(m.ram[..]), [], relocations, span)
    ensures SameOutside(old(m.ram[..]), m.ram[..], 0x80_0000, 0x80_0000 + span)
  {
    hide Put64, SameOutside, ImageLoaded;
    ghost var mem := m.ram[..];
    RelocationsStand(mem, relocations, span);
    for i := 0 to |relocations|
      invariant m.ram[..] == WithRelocations(mem, relocations[..i], span)
    {
      assert relocations[..i + 1][..i] == relocations[..i];
      Write64(m.ram, KIMG_PHYS + relocations[i].offset, relocations[i].value);
    }
    assert relocations[..|relocations|] == relocations;
  }

  // Step 2, the page tables, one group of mappings at a time. `mem0` is memory before any table.

  ghost predicate Stage(m: M.Machine, b: Built, mem0: seq<byte>)
    reads m, m.ram
  {
    && m.Valid(TABLES) && m.base == TABLES && Built(m.tree, m.ptNext) == b
    && SameOutside(mem0, m.ram[..], TABLES, m.ptNext)
  }

  method StartTables(m: M.Machine) returns (pml4: nat)
    requires TABLES + PAGE <= m.ram.Length <= WINDOW
    modifies m`ptNext, m`tree, m`base, m.ram
    ensures pml4 == TABLES && Stage(m, FreshBoot(), old(m.ram[..]))
  {
    hide M.Machine.Valid, SameOutside;
    pml4 := m.StartTables(TABLES);
  }

  method MapGroup(m: M.Machine, b: Built, virt: u64, phys: nat, len: nat, large: bool, ghost mem0: seq<byte>)
    requires Stage(m, b, mem0) && virt + len <= TWO64 && phys + len <= TWO52
    requires !large ==> b.tree.large == map[]
    requires MapAll(b, Range(virt, phys, Pages(len, large), large)).next <= m.ram.Length
    modifies m`ptNext, m`tree, m.ram
    ensures Stage(m, MapAll(b, Range(virt, phys, Pages(len, large), large)), mem0)
  {
    hide MapAll, Range, Prefix, SameOutside, M.Machine.Valid, Pages, ScribbleAll, Feasible, M.Machine.Running;
    ghost var mem1, next1, n := m.ram[..], m.ptNext, Pages(len, large);
    ClearRange(b, virt, phys, len, large, m.ram.Length, TABLES, mem1);
    MapAllGrows(b, Range(virt, phys, n, large));
    m.MapRange(TABLES, virt, phys, len, large);
    m.RunsDone(TABLES, b, Range(virt, phys, n, large), mem1);
    SameOutsideTwice(mem0, mem1, m.ram[..], TABLES, next1, m.ptNext);
  }

  /** A range in slots that hold no large page loses nothing. */
  lemma ClearRange(b: Built, virt: nat, phys: nat, len: nat, large: bool, size: nat, base: nat, mem: seq<byte>)
    requires virt + len <= TWO64 && phys + len <= TWO52 && (!large ==> b.tree.large == map[])
    requires MapAll(b, Range(virt, phys, Pages(len, large), large)).next <= size
    ensures Feasible(b, Range(virt, phys, Pages(len, large), large), size, base)
    ensures ScribbleAll(b, mem, Range(virt, phys, Pages(len, large), large)) == mem
  {
    var n := Pages(len, large);
    var rs := Range(virt, phys, n, large);
    hide MapAll, Range, ScribbleAll, At, Pages, Prefix;
    forall k {:trigger rs[k]} | 0 <= k < |rs|
      ensures Harmless(MapAll(b, rs[..k]).tree, rs[k], size, base, MapAll(b, rs).next)
      ensures !Conflict(MapAll(b, rs[..k]).tree, rs[k].virt, rs[k].large)
    {
      M.RangeAt(virt, phys, n, large, k);
      RangePrefix(virt, phys, n, large, k);
      BeforeEnd(len, k, large);
      if !large {
        SmallRangeKeepsLarge(b, virt, phys, k);
      }
    }
    M.NoScribble(b, mem, rs);
  }

  lemma RangePrefix(virt: nat, phys: nat, n: nat, large: bool, k: nat)
    requires k <= n
    ensures Range(virt, phys, n, large)[..k] == Range(virt, phys, k, large)
  {
    hide At;
    if k < n {
      RangePrefix(virt, phys, n - 1, large, k);
    }
  }

  lemma BeforeEnd(len: nat, k: nat, large: bool)
    requires k < Pages(len, large)
    ensures At(k, large) < len
  {
  }

  method MapInfoPages(m: M.Machine, span: nat, ghost mem0: seq<byte>)
    requires Stage(m, WithStack(span), mem0) && Bootable(span) && WithInfo(span).next <= m.ram.Length
    modifies m`ptNext, m`tree, m.ram
    ensures Stage(m, WithInfo(span), mem0)
  {
    NoLargeYet(span);
    InfoSteps(WithStack(span), span);
    hide WithStack, MapAll, Range, Prefix, SameOutside, M.Machine.Valid, InfoPages, MapTree, TablesNeeded;
    MapOnePage(m, WithStack(span), BOOTINFO_VIRT, BootInfoPhys(span), mem0);
    SmallMapKeepsLarge(WithStack(span).tree, WithStack(span).next, BOOTINFO_VIRT, BootInfoPhys(span));
    MapOnePage(m, MapOne(WithStack(span), Request(BOOTINFO_VIRT, BootInfoPhys(span), false)), REGIONS_VIRT,
               RegionsPhys(span), mem0);
  }

  method MapOnePage(m: M.Machine, b: Built, virt: u64, phys: nat, ghost mem0: seq<byte>)
    requires Stage(m, b, mem0) && phys < TWO52 && b.tree.large == map[]
    requires MapOne(b, Request(virt, phys, false)).next <= m.ram.Length
    modifies m`ptNext, m`tree, m.ram
    ensures Stage(m, MapOne(b, Request(virt, phys, false)), mem0)
  {
    hide Prefix, SameOutside, Holds, MapTree, TablesNeeded;
    ghost var mem1, next1 := m.ram[..], m.ptNext;
    m.MapPage(TABLES, virt, phys, false);
    SameOutsideTwice(mem0, mem1, m.ram[..], TABLES, next1, m.ptNext);
  }

  method BuildTables(m: M.Machine, span: nat) returns (pml4: nat)
    requires Bootable(span) && HighWater(span) <= m.ram.Length <= WINDOW
    modifies m`ptNext, m`tree, m`base, m.ram
    ensures pml4 == TABLES && Stage(m, Booted(span), old(m.ram[..]))
  {
    BootedFrames(span);
    BootedGrows(span);
    NoLargeYet(span);
    UsableRegionIsFree(span);
    RangeCounts(span);
    hide HighWater, MapAll, Range, Stage, Pages;
    ghost var mem0 := m.ram[..];
    pml4 := StartTables(m);
    MapGroup(m, FreshBoot(), KERNEL_VIRT, KIMG_PHYS, span, false, mem0);
    MapGroup(m, WithImage(span), STACK_VIRT, StackPhys(span), STACK_LEN, false, mem0);
    MapInfoPages(m, span, mem0);
    MapGroup(m, WithInfo(span), PHYS_OFFSET, 0, Max(m.ram.Length, WINDOW), true, mem0);
  }

  function Max(a: nat, b: nat): nat { if a > b then a else b }

  lemma RangeCounts(span: nat)
    requires Bootable(span)
    ensures Pages(span, false) == span / PAGE && Pages(STACK_LEN, false) == 64 && Pages(WINDOW, true) == 2048
  {
  }

  /** What the image looks like in memory once loaded and relocated. */
  function Loaded(mem: seq<byte>, segments: seq<Segment>, relocations: seq<Relocation>, span: nat): (m: seq<byte>)
    requires Fits(segments, span) && (forall r | r in relocations :: r.offset + 8 <= span) && KIMG_PHYS + span <= |mem|
    ensures |m| == |mem| && SameOutside(mem, m, KIMG_PHYS, KIMG_PHYS + span)
  {
    WithRelocations(WithSegments(mem, segments, span), relocations, span)
  }

  lemma SegmentsStand(mem: seq<byte>, segments: seq<Segment>, span: nat)
    requires Fits(segments, span) && KIMG_PHYS + span <= |mem|
    ensures ImageLoaded(WithSegments(mem, segments, span), mem, segments, [], span)
  {
    hide ImageLoaded, SameOutside, WithSegments;
    LoadedStands(WithSegments(mem, segments, span), mem, segments, [], span);
  }

  lemma RelocationsStand(mem: seq<byte>, relocations: seq<Relocation>, span: nat)
    requires (forall r | r in relocations :: r.offset + 8 <= span) && KIMG_PHYS + span <= |mem|
    ensures ImageLoaded(WithRelocations(mem, relocations, span), mem, [], relocations, span)
  {
    hide ImageLoaded, SameOutside, WithRelocations;
    LoadedStands(WithRelocations(mem, relocations, span), mem, [], relocations, span);
  }

  /** Memory after the whole boot: the image, the BootInfo page and the region page where the layout
      puts them, the tables below the image, and everything else as it was. */
  ghost predicate BootMemory(mem: seq<byte>, image: seq<byte>, span: nat, tablesEnd: nat, info: seq<byte>, regions: seq<byte>)
    requires RegionsPhys(span) + |regions| <= |mem| && |image| == |mem| && |info| <= PAGE
  {
    && (forall k | KIMG_PHYS <= k < KIMG_PHYS + span :: mem[k] == image[k])
    && (forall k | 0 <= k < |info| :: mem[BootInfoPhys(span) + k] == info[k])
    && (forall k | 0 <= k < |regions| :: mem[RegionsPhys(span) + k] == regions[k])
    && (forall k | 0 <= k < |mem| && !(TABLES <= k < tablesEnd) && !(BootInfoPhys(span) <= k < RegionsPhys(span) + PAGE)
          :: mem[k] == image[k])
  }

  lemma BootImage(mem: seq<byte>, was: seq<byte>, segments: seq<Segment>, relocations: seq<Relocation>, span: nat,
                  tablesEnd: nat, info: seq<byte>, regions: seq<byte>)
    requires Fits(segments, span) && (forall r | r in relocations :: r.offset + 8 <= span) && KIMG_PHYS + span <= |was| == |mem|
    requires RegionsPhys(span) + |regions| <= |mem| && |info| <= PAGE
    requires BootMemory(mem, Loaded(was, segments, relocations, span), span, tablesEnd, info, regions)
    ensures ImageLoaded(mem, was, segments, relocations, span)
  {
    hide Loaded, ImageLoaded;
    LoadedStands(mem, was, segments, relocations, span);
  }

  lemma BootMemoryBuilt(image: seq<byte>, tabled: seq<byte>, span: nat, tablesEnd: nat, info: seq<byte>, regions: seq<byte>)
    requires SameOutside(image, tabled, TABLES, tablesEnd) && tablesEnd <= KIMG_PHYS
    requires |info| <= PAGE && |regions| <= PAGE && RegionsPhys(span) + PAGE <= |image|
    ensures BootMemory(Overlay(Overlay(tabled, BootInfoPhys(span), info), RegionsPhys(span), regions),
                       image, span, tablesEnd, info, regions)
  {
    hide Overlay;
  }

  lemma HoldsAfterInfo(tabled: seq<byte>, t: Tree, tablesEnd: nat, span: nat, info: seq<byte>, regions: seq<byte>)
    requires Holds(tabled, t, TABLES, TABLES, tablesEnd) && tablesEnd <= KIMG_PHYS
    requires |info| <= PAGE && |regions| <= PAGE && RegionsPhys(span) + PAGE <= |tabled|
    ensures Holds(Overlay(Overlay(tabled, BootInfoPhys(span), info), RegionsPhys(span), regions), t, TABLES, TABLES, tablesEnd)
  {
    hide Overlay, Holds;
    HoldsFrame(tabled, Overlay(Overlay(tabled, BootInfoPhys(span), info), RegionsPhys(span), regions), t, TABLES, TABLES, tablesEnd);
  }

  const BootPaging := Paging(0x8000_0001, TABLES, 0x20, 0xD00)

  /** Boot the kernel. Every canonical address then translates as `BootMap` says, the tables are the
      PML4 and exactly `10 + ceil(span / 2 MiB)` more frames, and the memory reported as usable is
      untouched by anything the boot built. */
  method BootKernel(m: M.Machine, segments: seq<Segment>, relocations: seq<Relocation>, entry: nat,
                    info: seq<byte>, regions: seq<byte>)
    returns (h: Handoff)
    requires forall s | s in segments :: |s.bytes| <= s.memSize
    requires Bootable(ImageSpan(segments)) && HighWater(ImageSpan(segments)) <= m.ram.Length <= WINDOW
    requires forall r | r in relocations :: r.offset + 8 <= ImageSpan(segments)
    requires |info| <= PAGE && |regions| <= PAGE
    modifies m`ptNext, m`tree, m`base, m.ram
    ensures Holds(m.ram[..], Booted(ImageSpan(segments)).tree, TABLES, TABLES, m.ptNext)
    ensures m.ptNext == TABLES + (11 + Pages(ImageSpan(segments), true)) * PAGE <= KIMG_PHYS
    ensures forall va: u64, access, user | Canonical(va) ::
      Translate(m.ram[..], h.paging, va, access, user) == BootView(ImageSpan(segments), va, access, user)
    ensures Fits(segments, ImageSpan(segments))
    ensures BootMemory(m.ram[..], Loaded(old(m.ram[..]), segments, relocations, ImageSpan(segments)),
                       ImageSpan(segments), m.ptNext, info, regions)
    ensures ImageLoaded(m.ram[..], old(m.ram[..]), segments, relocations, ImageSpan(segments))
    ensures h == Handoff(Paging(0x8000_0001, 0x10_0000, 0x20, 0xD00), 0xFFFF_8000_0000_0000 + entry, 0xFFFF_8000_4003_FFF8,
                         0xFFFF_8000_4004_0000, 0xFFFF_8000_5000_0000, HighWater(ImageSpan(segments)), m.ram.Length)
  {
    hide Translate, BootView, Canonical, Bootable, HighWater, Stage, Holds, BootMemory, WithRelocations, WithSegments, Booted,
      Pages, Overlay, SpanEnd, ImageLoaded, Fits;
    SegmentsFitPages(segments);
    var end := SpanOf(segments);
    var span := (end + PAGE - 1) / PAGE * PAGE;
    UsableRegionIsFree(span);
    BootedFrames(span);
    ghost var mem0 := m.ram[..];
    LoadSegments(m, segments, span);
    Relocate(m, relocations, span);
    ghost var image := m.ram[..];
    var pml4 := BuildTables(m, span);
    ghost var tabled := m.ram[..];
    StageFacts(m, Booted(span), image);
    HoldsAfterInfo(tabled, m.tree, m.ptNext, span, info, regions);
    BootMemoryBuilt(image, tabled, span, m.ptNext, info, regions);
    WritePhys(m, BootInfoPhys(span), info);
    WritePhys(m, RegionsPhys(span), regions);
    BootImage(m.ram[..], mem0, segments, relocations, span, m.ptNext, info, regions);
    BootViews(m.ram[..], span, m.ptNext);
    h := Handoff(Paging(0x8000_0001, pml4, 0x20, 0xD00), KERNEL_VIRT + entry, STACK_VIRT + STACK_LEN - 8,
                 STACK_VIRT + STACK_LEN, BOOTINFO_VIRT, HighWater(span), m.ram.Length);
  }

  lemma BootViews(mem: seq<byte>, span: nat, hi: nat)
    requires Bootable(span) && Holds(mem, Booted(span).tree, TABLES, TABLES, hi)
    ensures forall va: u64, access, user | Canonical(va) ::
      Translate(mem, BootPaging, va, access, user) == BootView(span, va, access, user)
  {
    hide Translate, BootView, Canonical, Bootable, Holds, Booted;
    BootPagingDrives();
    forall va: u64, access, user | Canonical(va)
      ensures Translate(mem, BootPaging, va, access, user) == BootView(span, va, access, user)
    {
      BootTranslates(mem, span, hi, BootPaging, va, access, user);
    }
  }

  lemma StageFacts(m: M.Machine, b: Built, mem0: seq<byte>)
    requires Stage(m, b, mem0)
    ensures Holds(m.ram[..], m.tree, TABLES, TABLES, m.ptNext) && Built(m.tree, m.ptNext) == b
    ensures SameOutside(mem0, m.ram[..], TABLES, m.ptNext)
  {
  }

  /** The boot registers turn long-mode paging on over the tables just built. */
  lemma BootPagingDrives()
    ensures LongModePaging(BootPaging) && AddrBits(BootPaging.cr3) == TABLES && NxEnabled(BootPaging)
  {
  }
}
