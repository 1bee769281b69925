/** The memory layout `boot_kernel` builds (`emu/src/machine.rs`): which pages it maps, how many table
    frames that takes, and where every canonical address ends up. */
module BootLayout {
  import opened Bytes
  import opened Wrappers
  import opened Mmu
  import opened PageTables
  import opened Mapping

  const KIMG_PHYS: nat := 0x80_0000
  const KERNEL_VIRT: nat := 0xFFFF_8000_0000_0000
  const PHYS_OFFSET: nat := 0xFFFF_FF00_0000_0000
  const STACK_VIRT: nat := 0xFFFF_8000_4000_0000
  const STACK_LEN: nat := 0x4_0000
  const BOOTINFO_VIRT: nat := 0xFFFF_8000_5000_0000
  const REGIONS_VIRT: nat := 0xFFFF_8000_5001_0000
  const TABLES: nat := 0x10_0000
  const WINDOW: nat := 0x1_0000_0000

  function StackPhys(span: nat): nat { KIMG_PHYS + span }
  function BootInfoPhys(span: nat): nat { StackPhys(span) + STACK_LEN }
  function RegionsPhys(span: nat): nat { BootInfoPhys(span) + PAGE }
  function HighWater(span: nat): nat { (RegionsPhys(span) + PAGE + LARGE - 1) / LARGE * LARGE }

  function ImageRange(span: nat): seq<Request> { Range(KERNEL_VIRT, KIMG_PHYS, span / PAGE, false) }
  function StackRange(span: nat): seq<Request> { Range(STACK_VIRT, StackPhys(span), 64, false) }
  function InfoPages(span: nat): seq<Request> {
    Range(BOOTINFO_VIRT, BootInfoPhys(span), 1, false) + Range(REGIONS_VIRT, RegionsPhys(span), 1, false)
  }
  function WindowRange(): seq<Request> { Range(PHYS_OFFSET, 0, 2048, true) }

  /** Every `map_page` call of the boot, in order. */
  function BootRequests(span: nat): seq<Request> {
    ImageRange(span) + StackRange(span) + InfoPages(span) + WindowRange()
  }

  // --- table frames -----------------------------------------------------------------------------

  function Interval(depth: nat, a: nat, b: nat): set<Node> {
    set k: nat | a <= k < b :: Node(depth, k)
  }

  lemma {:induction false} IntervalSize(depth: nat, a: nat, b: nat)
    requires a <= b
    ensures |Interval(depth, a, b)| == b - a
    decreases b - a
  {
    if a < b {
      IntervalSize(depth, a, b - 1);
      assert Interval(depth, a, b) == Interval(depth, a, b - 1) + {Node(depth, b - 1)};
    } else {
      assert Interval(depth, a, b) == {};
    }
  }

  lemma PathOfPage(virt: nat, d: nat)
    requires Low48(virt) + d < TWO48
    ensures
      var x := Low48(virt) + d;
      && Path(virt + d, false) == {Node(1, x / 0x80_0000_0000), Node(2, x / HUGE), Node(3, x / LARGE)}
      && Path(virt + d, true) == {Node(1, x / 0x80_0000_0000), Node(2, x / HUGE)}
  {
    LowOfSum(virt, d);
    hide Low48;
  }

  lemma NodesStep(virt: nat, phys: nat, n: nat, large: bool)
    ensures Nodes(Range(virt, phys, 0, large)) == {}
    ensures Nodes(Range(virt, phys, n + 1, large)) == Nodes(Range(virt, phys, n, large)) + Path(virt + At(n, large), large)
  {
    hide Path;
    assert Range(virt, phys, n + 1, large)[..n] == Range(virt, phys, n, large);
  }

  lemma InGigabyte(x: nat, g: nat)
    requires g * HUGE <= x < (g + 1) * HUGE
    ensures x / HUGE == g && x / 0x80_0000_0000 == g / 512
  {
  }

  lemma IntervalGrows(depth: nat, a: nat, b: nat, c: nat)
    requires a <= b <= c <= b + 1
    ensures Interval(depth, a, b + 1) + {Node(depth, c)} == Interval(depth, a, c + 1)
  {
  }

  /** The 2 MiB slot of page `k` of a range that starts at `w`. */
  function SlotAt(w: nat, k: nat): nat { (w + k * PAGE) / LARGE }

  lemma SlotStep(w: nat, k: nat)
    requires w % PAGE == 0
    ensures SlotAt(w, 0) <= SlotAt(w, k) <= SlotAt(w, k + 1) <= SlotAt(w, k) + 1
  {
  }

  lemma SmallPath(virt: nat, k: nat, g: nat)
    requires Low48(virt) + k * PAGE < TWO48 && g * HUGE <= Low48(virt) + k * PAGE < (g + 1) * HUGE
    ensures Path(virt + At(k, false), false) == {Node(1, g / 512), Node(2, g), Node(3, SlotAt(Low48(virt), k))}
  {
    PathOfPage(virt, k * PAGE);
    InGigabyte(Low48(virt) + k * PAGE, g);
    hide Low48, Path;
  }

  /** A run of 4 KiB pages inside one 1 GiB block needs one table of each upper level and one PT for
      each 2 MiB it touches. */
  lemma {:induction false} SmallRangeNodes(virt: nat, phys: nat, n: nat, g: nat)
    requires n > 0 && Low48(virt) % PAGE == 0 && Low48(virt) + n * PAGE <= TWO48
    requires g * HUGE <= Low48(virt) && Low48(virt) + n * PAGE <= (g + 1) * HUGE
    ensures Nodes(Range(virt, phys, n, false)) ==
      {Node(1, g / 512), Node(2, g)} + Interval(3, SlotAt(Low48(virt), 0), SlotAt(Low48(virt), n - 1) + 1)
  {
    hide Path, Nodes, Range, At, Low48;
    var w := Low48(virt);
    NodesStep(virt, phys, n - 1, false);
    SmallPath(virt, n - 1, g);
    if n == 1 {
      assert Interval(3, SlotAt(w, 0), SlotAt(w, 0) + 1) == {Node(3, SlotAt(w, 0))};
    } else {
      SmallRangeNodes(virt, phys, n - 1, g);
      SlotStep(w, n - 2);
      hide SlotAt, Interval;
      IntervalGrows(3, SlotAt(w, 0), SlotAt(w, n - 2), SlotAt(w, n - 1));
    }
  }

  /** The 1 GiB block of 2 MiB page `k` of a range that starts at `w`. */
  function BlockAt(w: nat, k: nat): nat { (w + k * LARGE) / HUGE }

  lemma BlockStep(w: nat, k: nat)
    requires w % LARGE == 0
    ensures BlockAt(w, 0) <= BlockAt(w, k) <= BlockAt(w, k + 1) <= BlockAt(w, k) + 1
  {
  }

  lemma LargePath(virt: nat, k: nat, h: nat)
    requires Low48(virt) + k * LARGE < TWO48 && h * 0x80_0000_0000 <= Low48(virt) + k * LARGE < (h + 1) * 0x80_0000_0000
    ensures Path(virt + At(k, true), true) == {Node(1, h), Node(2, BlockAt(Low48(virt), k))}
  {
    PathOfPage(virt, k * LARGE);
    hide Low48, Path;
  }

  lemma {:induction false} LargeRangeNodes(virt: nat, phys: nat, n: nat, h: nat)
    requires n > 0 && Low48(virt) % LARGE == 0 && Low48(virt) + n * LARGE <= TWO48
    requires h * 0x80_0000_0000 <= Low48(virt) && Low48(virt) + n * LARGE <= (h + 1) * 0x80_0000_0000
    ensures Nodes(Range(virt, phys, n, true)) ==
      {Node(1, h)} + Interval(2, BlockAt(Low48(virt), 0), BlockAt(Low48(virt), n - 1) + 1)
  {
    hide Path, Nodes, Range, At, Low48;
    var w := Low48(virt);
    NodesStep(virt, phys, n - 1, true);
    LargePath(virt, n - 1, h);
    if n == 1 {
      assert Interval(2, BlockAt(w, 0), BlockAt(w, 0) + 1) == {Node(2, BlockAt(w, 0))};
    } else {
      LargeRangeNodes(virt, phys, n - 1, h);
      BlockStep(w, n - 2);
      hide BlockAt, Interval;
      IntervalGrows(2, BlockAt(w, 0), BlockAt(w, n - 2), BlockAt(w, n - 1));
    }
  }

  lemma BootLows()
    ensures Low48(KERNEL_VIRT) == 0x8000_0000_0000 && Low48(STACK_VIRT) == 0x8000_4000_0000
    ensures Low48(BOOTINFO_VIRT) == 0x8000_5000_0000 && Low48(REGIONS_VIRT) == 0x8000_5001_0000
    ensures Low48(PHYS_OFFSET) == 0xFF00_0000_0000
  {
  }

  predicate Bootable(span: nat) {
    0 < span <= HUGE && span % PAGE == 0
  }

  lemma ImageNodes(span: nat)
    requires Bootable(span)
    ensures Nodes(ImageRange(span)) ==
      {Node(1, 256), Node(2, 0x2_0000)} + Interval(3, 0x400_0000, 0x400_0000 + Pages(span, true))
  {
    BootLows();
    hide Nodes, Range, Low48, Interval;
    ImageSlots(span);
    hide SlotAt, Pages;
    SmallRangeNodes(KERNEL_VIRT, KIMG_PHYS, span / PAGE, 0x2_0000);
  }

  lemma ImageSlots(span: nat)
    requires Bootable(span)
    ensures SlotAt(0x8000_0000_0000, 0) == 0x400_0000
    ensures SlotAt(0x8000_0000_0000, span / PAGE - 1) + 1 == 0x400_0000 + Pages(span, true)
  {
    var n := span / PAGE;
    assert span == n * PAGE;
    assert (0x8000_0000_0000 + (n - 1) * PAGE) / LARGE == 0x400_0000 + (n - 1) / 512;
    assert (span + LARGE - 1) / LARGE == (n + 511) / 512;
  }

  lemma UpperNodes(span: nat)
    ensures Nodes(StackRange(span)) == {Node(1, 256), Node(2, 0x2_0001)} + Interval(3, 0x400_0200, 0x400_0201)
    ensures Nodes(InfoPages(span)) == {Node(1, 256), Node(2, 0x2_0001)} + Interval(3, 0x400_0280, 0x400_0281)
    ensures Nodes(WindowRange()) == {Node(1, 510)} + Interval(2, 0x3_FC00, 0x3_FC04)
  {
    BootLows();
    hide Nodes, Range, Low48, Interval;
    SmallRangeNodes(STACK_VIRT, StackPhys(span), 64, 0x2_0001);
    assert SlotAt(0x8000_4000_0000, 0) == 0x400_0200 && SlotAt(0x8000_4000_0000, 63) == 0x400_0200;
    SmallRangeNodes(BOOTINFO_VIRT, BootInfoPhys(span), 1, 0x2_0001);
    SmallRangeNodes(REGIONS_VIRT, RegionsPhys(span), 1, 0x2_0001);
    assert SlotAt(0x8000_5000_0000, 0) == 0x400_0280 && SlotAt(0x8000_5001_0000, 0) == 0x400_0280;
    NodesConcat(Range(BOOTINFO_VIRT, BootInfoPhys(span), 1, false), Range(REGIONS_VIRT, RegionsPhys(span), 1, false));
    LargeRangeNodes(PHYS_OFFSET, 0, 2048, 510);
    assert BlockAt(0xFF00_0000_0000, 0) == 0x3_FC00 && BlockAt(0xFF00_0000_0000, 2047) == 0x3_FC03;
  }

  function FixedUpper(): set<Node> { {Node(1, 256), Node(1, 510), Node(2, 0x2_0000), Node(2, 0x2_0001)} }
  function FixedLeaves(): set<Node> { {Node(3, 0x400_0200), Node(3, 0x400_0280)} }

  lemma BootNodeSet(span: nat)
    requires Bootable(span)
    ensures Nodes(BootRequests(span)) ==
      FixedUpper() + Interval(2, 0x3_FC00, 0x3_FC04)
      + Interval(3, 0x400_0000, 0x400_0000 + Pages(span, true)) + FixedLeaves()
  {
    hide Nodes, ImageRange, StackRange, InfoPages, WindowRange, Pages;
    ImageNodes(span);
    UpperNodes(span);
    NodesConcat(ImageRange(span), StackRange(span));
    NodesConcat(ImageRange(span) + StackRange(span), InfoPages(span));
    NodesConcat(ImageRange(span) + StackRange(span) + InfoPages(span), WindowRange());
    assert Interval(3, 0x400_0200, 0x400_0201) == {Node(3, 0x400_0200)};
    assert Interval(3, 0x400_0280, 0x400_0281) == {Node(3, 0x400_0280)};
    hide Interval;
  }

  /** The boot takes the PML4, ten more tables, and one PT for each 2 MiB of image; all of them lie
      below the image. */
  lemma BootFrames(span: nat)
    requires Bootable(span)
    ensures |Nodes(BootRequests(span))| == 10 + Pages(span, true)
    ensures TABLES + (11 + Pages(span, true)) * PAGE <= KIMG_PHYS
  {
    hide *;
    BootNodeSet(span);
    ImagePages(span);
    var a := FixedUpper();
    var b := Interval(2, 0x3_FC00, 0x3_FC04);
    var c := Interval(3, 0x400_0000, 0x400_0000 + Pages(span, true));
    var d := FixedLeaves();
    IntervalSize(2, 0x3_FC00, 0x3_FC04);
    IntervalSize(3, 0x400_0000, 0x400_0000 + Pages(span, true));
    BootPartsDisjoint(Pages(span, true));
    FourSizes(a, b, c, d);
    FixedSizes();
  }

  lemma ImagePages(span: nat)
    requires Bootable(span)
    ensures 0 < Pages(span, true) <= 512
    ensures TABLES + (11 + Pages(span, true)) * PAGE <= KIMG_PHYS
  {
  }

  lemma FixedSizes()
    ensures |FixedUpper()| == 4
    ensures |FixedLeaves()| == 2
  {
  }

  lemma FourSizes(a: set<Node>, b: set<Node>, c: set<Node>, d: set<Node>)
    requires a !! b && (a + b) !! c && (a + b + c) !! d
    ensures |a + b + c + d| == |a| + |b| + |c| + |d|
  {
    DisjointSize(a, b);
    DisjointSize(a + b, c);
    DisjointSize(a + b + c, d);
  }

  lemma DisjointSize(s: set<Node>, t: set<Node>)
    requires s !! t
    ensures |s + t| == |s| + |t|
  {
  }

  lemma BootPartsDisjoint(n: nat)
    requires n <= 512
    ensures
      var a := FixedUpper();
      var b := Interval(2, 0x3_FC00, 0x3_FC04);
      var c := Interval(3, 0x400_0000, 0x400_0000 + n);
      a !! b && (a + b) !! c && (a + b + c) !! FixedLeaves()
  {
  }

  // --- translation ------------------------------------------------------------------------------

  /** Where the booted kernel sees each address. */
  function BootMap(span: nat, va: nat): Option<nat> {
    if KERNEL_VIRT <= va < KERNEL_VIRT + span then Some(KIMG_PHYS + (va - KERNEL_VIRT))
    else if STACK_VIRT <= va < STACK_VIRT + STACK_LEN then Some(StackPhys(span) + (va - STACK_VIRT))
    else if BOOTINFO_VIRT <= va < BOOTINFO_VIRT + PAGE then Some(BootInfoPhys(span) + (va - BOOTINFO_VIRT))
    else if REGIONS_VIRT <= va < REGIONS_VIRT + PAGE then Some(RegionsPhys(span) + (va - REGIONS_VIRT))
    else if PHYS_OFFSET <= va < PHYS_OFFSET + WINDOW then Some(va - PHYS_OFFSET)
    else None
  }

  /** The layout in numbers: the image from 8 MiB on, behind it 256 KiB of stack and the two information pages, and
      from the next 2 MiB boundary on free memory. */
  lemma LayoutInNumbers(span: nat, va: nat)
    requires Bootable(span)
    ensures BootMap(span, va) ==
      if 0xFFFF_8000_0000_0000 <= va < 0xFFFF_8000_0000_0000 + span then Some(0x80_0000 + (va - 0xFFFF_8000_0000_0000))
      else if 0xFFFF_8000_4000_0000 <= va < 0xFFFF_8000_4004_0000 then Some(0x80_0000 + span + (va - 0xFFFF_8000_4000_0000))
      else if 0xFFFF_8000_5000_0000 <= va < 0xFFFF_8000_5000_1000 then Some(0x84_0000 + span + (va - 0xFFFF_8000_5000_0000))
      else if 0xFFFF_8000_5001_0000 <= va < 0xFFFF_8000_5001_1000 then Some(0x84_1000 + span + (va - 0xFFFF_8000_5001_0000))
      else if 0xFFFF_FF00_0000_0000 <= va < 0xFFFF_FF01_0000_0000 then Some(va - 0xFFFF_FF00_0000_0000)
      else None
    ensures HighWater(span) % 0x20_0000 == 0 && 0x84_2000 + span <= HighWater(span) < 0xA4_2000 + span
  {}

  /** The offset of an address in a higher-half range. */
  lemma CanonicalLow(va: nat, virt: nat)
    requires Canonical(va) && 0xFFFF_8000_0000_0000 <= virt < TWO64 && va < TWO64
    ensures va >= virt <==> Low48(va) >= Low48(virt)
    ensures va >= virt ==> Low48(va) - Low48(virt) == va - virt
  {
  }

  lemma HighRange(virt: nat, phys: nat, n: nat, large: bool, va: nat)
    requires Canonical(va) && va < TWO64 && 0xFFFF_8000_0000_0000 <= virt < TWO64
    requires virt % Step(large) == 0 && phys % Step(large) == 0
    requires Low48(virt) + At(n, large) <= TWO48 && phys + At(n, large) <= TWO52
    ensures LastMapping(Range(virt, phys, n, large), va) ==
      if virt <= va < virt + At(n, large) then Some(phys + (va - virt)) else None
  {
    RangeMapping(virt, phys, n, large, va);
    CanonicalLow(va, virt);
    hide Low48, Canonical, LastMapping, Range;
  }

  lemma BootLookup(span: nat, va: nat)
    requires Bootable(span) && Canonical(va) && va < TWO64
    ensures LastMapping(BootRequests(span), va) == BootMap(span, va)
  {
    LowerLookup(span, va);
    InfoLookup(span, va);
    BootLows();
    hide Low48, Canonical, LastMapping, Range, ImageRange, StackRange, InfoPages;
    HighRange(PHYS_OFFSET, 0, 2048, true, va);
    LastMappingConcat(ImageRange(span) + StackRange(span), InfoPages(span), va);
    LastMappingConcat(ImageRange(span) + StackRange(span) + InfoPages(span), WindowRange(), va);
  }

  lemma LowerLookup(span: nat, va: nat)
    requires Bootable(span) && Canonical(va) && va < TWO64
    ensures LastMapping(ImageRange(span) + StackRange(span), va) ==
      if STACK_VIRT <= va < STACK_VIRT + STACK_LEN then Some(StackPhys(span) + (va - STACK_VIRT))
      else if KERNEL_VIRT <= va < KERNEL_VIRT + span then Some(KIMG_PHYS + (va - KERNEL_VIRT))
      else None
  {
    hide Low48, Canonical, LastMapping, Range, ImageRange, StackRange;
    ImageLookup(span, va);
    StackLookup(span, va);
    LastMappingConcat(ImageRange(span), StackRange(span), va);
  }

  lemma ImageLookup(span: nat, va: nat)
    requires Bootable(span) && Canonical(va) && va < TWO64
    ensures LastMapping(ImageRange(span), va) ==
      if KERNEL_VIRT <= va < KERNEL_VIRT + span then Some(KIMG_PHYS + (va - KERNEL_VIRT)) else None
  {
    BootLows();
    ImageBytes(span);
    hide Low48, Canonical, LastMapping, Range;
    HighRange(KERNEL_VIRT, KIMG_PHYS, span / PAGE, false, va);
  }

  lemma StackLookup(span: nat, va: nat)
    requires Bootable(span) && Canonical(va) && va < TWO64
    ensures LastMapping(StackRange(span), va) ==
      if STACK_VIRT <= va < STACK_VIRT + STACK_LEN then Some(StackPhys(span) + (va - STACK_VIRT)) else None
  {
    BootLows();
    hide Low48, Canonical, LastMapping, Range;
    HighRange(STACK_VIRT, StackPhys(span), 64, false, va);
  }

  lemma ImageBytes(span: nat)
    requires Bootable(span)
    ensures At(span / PAGE, false) == span
  {
  }

  lemma InfoLookup(span: nat, va: nat)
    requires Bootable(span) && Canonical(va) && va < TWO64
    ensures LastMapping(InfoPages(span), va) ==
      if BOOTINFO_VIRT <= va < BOOTINFO_VIRT + PAGE then Some(BootInfoPhys(span) + (va - BOOTINFO_VIRT))
      else if REGIONS_VIRT <= va < REGIONS_VIRT + PAGE then Some(RegionsPhys(span) + (va - REGIONS_VIRT))
      else None
  {
    BootLows();
    hide Low48, Canonical, LastMapping, Range;
    HighRange(BOOTINFO_VIRT, BootInfoPhys(span), 1, false, va);
    HighRange(REGIONS_VIRT, RegionsPhys(span), 1, false, va);
    LastMappingConcat(Range(BOOTINFO_VIRT, BootInfoPhys(span), 1, false), Range(REGIONS_VIRT, RegionsPhys(span), 1, false), va);
  }

  lemma {:induction false} RangeKind(virt: nat, phys: nat, n: nat, large: bool)
    ensures forall r | r in Range(virt, phys, n, large) :: r.large == large
  {
    hide At;
    if n > 0 {
      RangeKind(virt, phys, n - 1, large);
    }
  }

  lemma BootNonConflicting(span: nat)
    ensures NonConflicting(BootRequests(span))
  {
    hide Range, Prefix;
    RangeKind(KERNEL_VIRT, KIMG_PHYS, span / PAGE, false);
    RangeKind(STACK_VIRT, StackPhys(span), 64, false);
    RangeKind(BOOTINFO_VIRT, BootInfoPhys(span), 1, false);
    RangeKind(REGIONS_VIRT, RegionsPhys(span), 1, false);
    RangeKind(PHYS_OFFSET, 0, 2048, true);
    var small := ImageRange(span) + StackRange(span) + InfoPages(span);
    assert forall r | r in small :: !r.large;
    hide ImageRange, StackRange, InfoPages, WindowRange;
    forall i | 0 <= i < |small|
      ensures !BootRequests(span)[i].large
    {
      assert BootRequests(span)[i] == small[i];
    }
    forall j | |small| <= j < |BootRequests(span)|
      ensures BootRequests(span)[j].large
    {
      assert BootRequests(span)[j] == WindowRange()[j - |small|];
    }
  }

  /** The layout keeps everything it reports as usable free of what it built. */
  lemma UsableRegionIsFree(span: nat)
    requires Bootable(span)
    ensures HighWater(span) % LARGE == 0
    ensures TABLES + (11 + Pages(span, true)) * PAGE <= KIMG_PHYS
    ensures KIMG_PHYS + span <= StackPhys(span) && StackPhys(span) + STACK_LEN <= BootInfoPhys(span)
    ensures BootInfoPhys(span) + PAGE <= RegionsPhys(span) && RegionsPhys(span) + PAGE <= HighWater(span)
    ensures HighWater(span) < RegionsPhys(span) + PAGE + LARGE
  {
    ImagePages(span);
  }

  // The tree after the PML4 and each group of mappings.
  function FreshBoot(): Built { Fresh(TABLES, TABLES + PAGE) }
  function WithImage(span: nat): Built { MapAll(FreshBoot(), ImageRange(span)) }
  function WithStack(span: nat): Built { MapAll(WithImage(span), StackRange(span)) }
  function WithInfo(span: nat): Built { MapAll(WithStack(span), InfoPages(span)) }
  function Booted(span: nat): Built { MapAll(WithInfo(span), WindowRange()) }

  lemma BootedIsRun(span: nat)
    ensures Booted(span) == MapAll(FreshBoot(), BootRequests(span))
  {
    hide MapAll, ImageRange, StackRange, InfoPages, WindowRange, FreshBoot;
    MapAllConcat(FreshBoot(), ImageRange(span), StackRange(span));
    MapAllConcat(FreshBoot(), ImageRange(span) + StackRange(span), InfoPages(span));
    MapAllConcat(FreshBoot(), ImageRange(span) + StackRange(span) + InfoPages(span), WindowRange());
  }

  lemma BootedFrames(span: nat)
    requires Bootable(span)
    ensures Booted(span).next == TABLES + (11 + Pages(span, true)) * PAGE <= KIMG_PHYS
  {
    hide MapAll, Booted, BootRequests, Nodes, Pages;
    BootedIsRun(span);
    BootNonConflicting(span);
    FramesOfRun(TABLES, TABLES + PAGE, BootRequests(span));
    BootFrames(span);
  }

  lemma BootedGrows(span: nat)
    ensures WithImage(span).next <= WithStack(span).next <= WithInfo(span).next <= Booted(span).next
  {
    hide MapAll, ImageRange, StackRange, InfoPages, WindowRange, FreshBoot;
    MapAllGrows(WithImage(span), StackRange(span));
    MapAllGrows(WithStack(span), InfoPages(span));
    MapAllGrows(WithInfo(span), WindowRange());
  }

  lemma NoLargeYet(span: nat)
    ensures WithImage(span).tree.large == map[] && WithStack(span).tree.large == map[]
  {
    hide Range, MapAll;
    SmallRangeKeepsLarge(FreshBoot(), KERNEL_VIRT, KIMG_PHYS, span / PAGE);
    SmallRangeKeepsLarge(WithImage(span), STACK_VIRT, StackPhys(span), 64);
  }

  /** The two information pages are one request each. */
  lemma InfoSteps(b: Built, span: nat)
    ensures MapAll(b, InfoPages(span)) ==
      MapOne(MapOne(b, Request(BOOTINFO_VIRT, BootInfoPhys(span), false)), Request(REGIONS_VIRT, RegionsPhys(span), false))
  {
    hide Range, MapAll, MapOne;
    var q1, q2 := Range(BOOTINFO_VIRT, BootInfoPhys(span), 1, false), Range(REGIONS_VIRT, RegionsPhys(span), 1, false);
    MapAllConcat(b, q1, q2);
    RangeNone(b, BOOTINFO_VIRT, BootInfoPhys(span), false);
    RangeStep(b, BOOTINFO_VIRT, BootInfoPhys(span), 0, false);
    RangeNone(MapAll(b, q1), REGIONS_VIRT, RegionsPhys(span), false);
    RangeStep(MapAll(b, q1), REGIONS_VIRT, RegionsPhys(span), 0, false);
  }

  /** What an access sees after the boot: `BootMap` for the supervisor, a protection fault for user code
      on anything mapped, a not-present fault elsewhere. */
  function BootView(span: nat, va: nat, access: Access, user: bool): Translation {
    match BootMap(span, va)
    case None => PageFault(va, FaultCode(false, access, user))
    case Some(pa) => if user then PageFault(va, FaultCode(true, access, user)) else Mapped(pa)
  }

  /** Every canonical address under the tables the boot built, for every kind of access. */
  lemma BootTranslates(mem: seq<byte>, span: nat, hi: nat, p: Paging, va: nat, access: Access, user: bool)
    requires Bootable(span) && Holds(mem, Booted(span).tree, TABLES, TABLES, hi)
    requires LongModePaging(p) && AddrBits(p.cr3) == TABLES && Canonical(va) && va < TWO64
    ensures Translate(mem, p, va, access, user) == BootView(span, va, access, user)
  {
    BootedIsRun(span);
    BootNonConflicting(span);
    BootLookup(span, va);
    hide BootRequests, Booted, Holds, Translate, AddrBits, Canonical, LongModePaging;
    RunTranslates(mem, BootRequests(span), TABLES, TABLES + PAGE, TABLES, hi, p, va, access, user);
  }
}
