/** What a run of `map_page` calls builds: the tree after each call, and the theorems that the page
    walk then sees exactly the last mapping of each page and that every table costs one frame once. */
module Mapping {
  import opened Bytes
  import opened Wrappers
  import opened Mmu
  import opened PageTables
  import opened PageTableUpdates

  function Ensured(t: Tree, c: Node, f: nat): Tree {
    if c in t.tables then t else AddTable(t, c, f)
  }

  function Absent(t: Tree, c: Node): nat {
    if c in t.tables then 0 else 1
  }

  /** A 4 KiB mapping asked for inside a slot that already holds a 2 MiB page. */
  predicate Conflict(t: Tree, virt: nat, large: bool) {
    !large && LargePage(virt) in t.large
  }

  /** How many table frames mapping a page takes. */
  function TablesNeeded(t: Tree, virt: nat, large: bool): nat {
    Absent(t, Node(1, Prefix(virt, 1))) + Absent(t, Node(2, Prefix(virt, 2))) +
    if large || Conflict(t, virt, large) then 0 else Absent(t, Node(3, Prefix(virt, 3)))
  }

  /** The tree with the two upper tables for `virt` in place, new frames taken from `next` on. */
  function UpperTables(t: Tree, next: nat, virt: nat): Tree {
    var n1 := Node(1, Prefix(virt, 1));
    Ensured(Ensured(t, n1, next), Node(2, Prefix(virt, 2)), next + Absent(t, n1) * PAGE)
  }

  /** The tree after `map_page`. */
  function MapTree(t: Tree, next: nat, virt: nat, phys: nat, large: bool): Tree {
    var t2 := UpperTables(t, next, virt);
    if large then SetLarge(t2, LargePage(virt), phys - phys % LARGE)
    else if Conflict(t, virt, large) then t2
    else
      var f := next + (Absent(t, Node(1, Prefix(virt, 1))) + Absent(t, Node(2, Prefix(virt, 2)))) * PAGE;
      SetSmall(Ensured(t2, Node(3, Prefix(virt, 3)), f), SmallPage(virt), AddrBits(phys))
  }

  /** One call of `map_page`. */
  datatype Request = Request(virt: nat, phys: nat, large: bool)

  datatype Built = Built(tree: Tree, next: nat)

  function MapOne(b: Built, r: Request): Built {
    Built(MapTree(b.tree, b.next, r.virt, r.phys, r.large), b.next + TablesNeeded(b.tree, r.virt, r.large) * PAGE)
  }

  function MapAll(b: Built, rs: seq<Request>): Built {
    if rs == [] then b else MapOne(MapAll(b, rs[..|rs| - 1]), rs[|rs| - 1])
  }

  /** Tables hold nothing yet but an empty PML4 at `root`. */
  function Fresh(root: nat, next: nat): Built {
    Built(Tree(map[Root := root], map[root := Root], map[], map[]), next)
  }

  predicate Covers(r: Request, va: nat) {
    if r.large then LargePage(va) == LargePage(r.virt) else SmallPage(va) == SmallPage(r.virt)
  }

  /** Where a request sends an address of its page: the frame it names, the offset kept. */
  function Target(r: Request, va: nat): nat {
    if r.large then r.phys - r.phys % LARGE + va % LARGE else AddrBits(r.phys) + va % PAGE
  }

  /** The last request covering `va` decides. */
  function LastMapping(rs: seq<Request>, va: nat): Option<nat> {
    if rs == [] then None
    else if Covers(rs[|rs| - 1], va) then Some(Target(rs[|rs| - 1], va))
    else LastMapping(rs[..|rs| - 1], va)
  }

  /** No 4 KiB page is asked for in a slot an earlier request made a 2 MiB page. */
  ghost predicate NonConflicting(rs: seq<Request>) {
    forall i, j | 0 <= i < j < |rs| && rs[i].large && !rs[j].large :: LargePage(rs[i].virt) != LargePage(rs[j].virt)
  }

  lemma PagesNest(va: nat)
    ensures SmallPage(va) / 512 == LargePage(va)
  {
    PrefixStep(va, 3);
  }

  /** One call changes what its own page maps to and nothing else. */
  lemma MapTreeLookup(t: Tree, next: nat, r: Request, va: nat)
    ensures Lookup(MapTree(t, next, r.virt, r.phys, r.large), va) ==
      if !Conflict(t, r.virt, r.large) && Covers(r, va) then Some(Target(r, va)) else Lookup(t, va)
  {
    PagesNest(va);
    PagesNest(r.virt);
    UpperKeepsLarge(t, next, r.virt);
    hide Prefix, AddrBits, UpperTables;
  }

  ghost predicate LargeSlot(rs: seq<Request>, s: nat) {
    exists r :: r in rs && r.large && LargePage(r.virt) == s
  }

  lemma {:induction false} LargeSlots(root: nat, next: nat, rs: seq<Request>, s: nat)
    ensures s in MapAll(Fresh(root, next), rs).tree.large <==> LargeSlot(rs, s)
  {
    hide Prefix, AddrBits;
    if rs != [] {
      var rest, r := rs[..|rs| - 1], rs[|rs| - 1];
      assert rs == rest + [r];
      LargeSlots(root, next, rest, s);
      assert LargeSlot(rs, s) <==> LargeSlot(rest, s) || (r.large && LargePage(r.virt) == s);
    }
  }

  lemma NoConflict(root: nat, next: nat, rs: seq<Request>)
    requires rs != [] && NonConflicting(rs)
    ensures
      var rest, r := rs[..|rs| - 1], rs[|rs| - 1];
      NonConflicting(rest) && !Conflict(MapAll(Fresh(root, next), rest).tree, r.virt, r.large)
  {
    var rest, r := rs[..|rs| - 1], rs[|rs| - 1];
    LargeSlots(root, next, rest, LargePage(r.virt));
    hide Prefix, MapAll;
  }

  lemma {:induction false} MapAllLookup(root: nat, next: nat, rs: seq<Request>, va: nat)
    requires NonConflicting(rs)
    ensures Lookup(MapAll(Fresh(root, next), rs).tree, va) == LastMapping(rs, va)
  {
    hide MapTree, Covers, Target, Conflict;
    if rs != [] {
      var rest, r := rs[..|rs| - 1], rs[|rs| - 1];
      NoConflict(root, next, rs);
      MapAllLookup(root, next, rest, va);
      var b := MapAll(Fresh(root, next), rest);
      MapTreeLookup(b.tree, b.next, r, va);
    }
  }

  /** What a translation yields for a supervisor page mapped at `pa`, or for none. */
  function Translated(pa: Option<nat>, va: nat, access: Access, user: bool): Translation {
    match pa
    case None => PageFault(va, FaultCode(false, access, user))
    case Some(pa) => if user then PageFault(va, FaultCode(true, access, user)) else Mapped(pa)
  }

  /** Whatever list of requests built the tables memory holds, the page walk sends every canonical
      supervisor address where the last request covering it says among those that take effect, keeps user
      code out, and faults with P clear on every address none of them covers. */
  lemma RunTranslates(mem: seq<byte>, rs: seq<Request>, root: nat, next: nat, lo: nat, hi: nat,
                      p: Paging, va: nat, access: Access, user: bool)
    requires Holds(mem, MapAll(Fresh(root, next), rs).tree, root, lo, hi)
    requires LongModePaging(p) && AddrBits(p.cr3) == root && Canonical(va)
    ensures Translate(mem, p, va, access, user) == Translated(LastMapping(Effective(rs), va), va, access, user)
    ensures NonConflicting(rs) ==> Effective(rs) == rs
  {
    hide Holds, MapAll, Effective, LastMapping, Translate, Canonical, LongModePaging, AddrBits, Fresh, NonConflicting;
    EffectiveBuilds(root, next, rs);
    MapAllLookup(root, next, Effective(rs), va);
    TranslateTree(mem, MapAll(Fresh(root, next), rs).tree, root, lo, hi, p, va, access, user);
  }

  /** One call of `map_page` at the level of the walk: the page asked for goes where asked, and no other
      address changes, whatever the access. */
  lemma MapPageTranslates(mem: seq<byte>, hi: nat, mem': seq<byte>, hi': nat, t: Tree, next: nat, r: Request,
                          root: nat, lo: nat, p: Paging, va: nat, access: Access, user: bool)
    requires Holds(mem, t, root, lo, hi) && Holds(mem', MapTree(t, next, r.virt, r.phys, r.large), root, lo, hi')
    requires LongModePaging(p) && AddrBits(p.cr3) == root && Canonical(va)
    ensures Translate(mem', p, va, access, user) ==
      if Conflict(t, r.virt, r.large) || !Covers(r, va) then Translate(mem, p, va, access, user)
      else if user then PageFault(va, FaultCode(true, access, user)) else Mapped(Target(r, va))
  {
    hide Translate, MapTree, Holds, Covers, Target, Conflict, Canonical, LongModePaging, AddrBits;
    MapTreeLookup(t, next, r, va);
    TranslateTree(mem, t, root, lo, hi, p, va, access, user);
    TranslateTree(mem', MapTree(t, next, r.virt, r.phys, r.large), root, lo, hi', p, va, access, user);
  }

  /** A request fails to take effect exactly when it asks for a 4 KiB page inside a 2 MiB page that
      sends the page elsewhere; then nothing changes at all. */
  lemma MapTakesEffect(mem': seq<byte>, t: Tree, next: nat, r: Request, root: nat, lo: nat, hi: nat,
                       p: Paging, va: nat, access: Access)
    requires Holds(mem', MapTree(t, next, r.virt, r.phys, r.large), root, lo, hi) && Covers(r, va)
    requires LongModePaging(p) && AddrBits(p.cr3) == root && Canonical(va)
    ensures Translate(mem', p, va, access, false) == Mapped(Target(r, va)) <==>
      (Conflict(t, r.virt, r.large) ==>
         t.large[LargePage(r.virt)] + (r.virt % LARGE - r.virt % PAGE) == AddrBits(r.phys))
  {
    MapTreeLookup(t, next, r, va);
    TranslateTree(mem', MapTree(t, next, r.virt, r.phys, r.large), root, lo, hi, p, va, access, false);
    PagesNest(va);
    PagesNest(r.virt);
    if !r.large {
      SamePageOffset(va, r.virt);
    }
    hide Prefix, AddrBits, Translate, MapTree, Holds;
  }

  lemma SamePageOffset(va: nat, virt: nat)
    requires SmallPage(va) == SmallPage(virt)
    ensures va % LARGE - va % PAGE == virt % LARGE - virt % PAGE
  {
    OffsetInSlot(va);
    OffsetInSlot(virt);
    hide Prefix;
  }

  lemma OffsetInSlot(va: nat)
    ensures va % LARGE - va % PAGE == SmallPage(va) % 512 * PAGE
  {
    IndexLow48(va);
    assert va / PAGE % 512 == SmallPage(va) % 512;
    hide *;
    SlotArithmetic(va);
  }

  lemma SlotArithmetic(va: nat)
    ensures va % LARGE == va / PAGE % 512 * PAGE + va % PAGE
  {
    var q := va / PAGE;
    assert va == q / 512 * LARGE + (q % 512 * PAGE + va % PAGE);
  }

  // --- frames -----------------------------------------------------------------------------------

  /** The tables below the root that a mapping of `virt` goes through. */
  function Path(virt: nat, large: bool): set<Node> {
    {Node(1, Prefix(virt, 1)), Node(2, Prefix(virt, 2))} + if large then {} else {Node(3, Prefix(virt, 3))}
  }

  function Nodes(rs: seq<Request>): set<Node> {
    if rs == [] then {} else Nodes(rs[..|rs| - 1]) + Path(rs[|rs| - 1].virt, rs[|rs| - 1].large)
  }

  lemma {:induction false} TablesOfRun(root: nat, next: nat, rs: seq<Request>, x: Node)
    requires NonConflicting(rs)
    ensures x in MapAll(Fresh(root, next), rs).tree.tables <==>
      (x == Root || (x in Nodes(rs) && !(x.depth == 3 && LargeSlot(rs, x.n))))
  {
    hide Prefix, MapTree;
    if rs != [] {
      var rest, r := rs[..|rs| - 1], rs[|rs| - 1];
      assert rs == rest + [r];
      NoConflict(root, next, rs);
      TablesOfRun(root, next, rest, x);
      LargeSlots(root, next, rest, x.n);
      assert LargeSlot(rs, x.n) <==> LargeSlot(rest, x.n) || (r.large && LargePage(r.virt) == x.n);
      LargeSlots(root, next, rest, LargePage(r.virt));
      TablesOfOne(MapAll(Fresh(root, next), rest).tree, MapAll(Fresh(root, next), rest).next, r, x);
    }
  }

  lemma TablesOfOne(t: Tree, next: nat, r: Request, x: Node)
    requires !Conflict(t, r.virt, r.large)
    ensures x in MapTree(t, next, r.virt, r.phys, r.large).tables <==>
      (x in t.tables || x in Path(r.virt, r.large)) && !(r.large && x == Node(3, LargePage(r.virt)))
  {
    hide Prefix, AddrBits;
  }

  lemma AddThree(s: set<Node>, a: Node, b: Node, c: Node)
    requires a != b && b != c && a != c
    ensures |s + {a, b}| == |s| + (if a in s then 0 else 1) + (if b in s then 0 else 1)
    ensures |s + {a, b, c}| == |s + {a, b}| + if c in s then 0 else 1
  {
    AddOne(s, a);
    AddOne(s + {a}, b);
    AddOne(s + {a, b}, c);
    assert s + {a} + {b} == s + {a, b};
    assert s + {a, b} + {c} == s + {a, b, c};
  }

  lemma AddOne(s: set<Node>, a: Node)
    ensures |s + {a}| == |s| + if a in s then 0 else 1
  {
    if a in s {
      assert s + {a} == s;
    }
  }

  /** Each table a run of requests goes through costs one frame, once. */
  lemma {:induction false} FramesOfRun(root: nat, next: nat, rs: seq<Request>)
    requires NonConflicting(rs)
    ensures MapAll(Fresh(root, next), rs).next == next + |Nodes(rs)| * PAGE
  {
    if rs != [] {
      var rest, r := rs[..|rs| - 1], rs[|rs| - 1];
      var n1, n2, n3 := Node(1, Prefix(r.virt, 1)), Node(2, Prefix(r.virt, 2)), Node(3, Prefix(r.virt, 3));
      NoConflict(root, next, rs);
      FramesOfRun(root, next, rest);
      TablesOfRun(root, next, rest, n1);
      TablesOfRun(root, next, rest, n2);
      TablesOfRun(root, next, rest, n3);
      LargeSlots(root, next, rest, n3.n);
      AddThree(Nodes(rest), n1, n2, n3);
      assert Nodes(rs) == if r.large then Nodes(rest) + {n1, n2} else Nodes(rest) + {n1, n2, n3};
      hide MapTree, Nodes, LargeSlot;
    }
  }

  // --- ranges -----------------------------------------------------------------------------------

  function Step(large: bool): nat { if large then LARGE else PAGE }

  function Pages(len: nat, large: bool): nat {
    if large then (len + LARGE - 1) / LARGE else (len + PAGE - 1) / PAGE
  }

  function At(k: nat, large: bool): nat { if large then k * LARGE else k * PAGE }

  /** The calls `map_range` makes for its first `n` pages. */
  function Range(virt: nat, phys: nat, n: nat, large: bool): (rs: seq<Request>)
    ensures |rs| == n
  {
    if n == 0 then []
    else Range(virt, phys, n - 1, large) + [Request(virt + At(n - 1, large), phys + At(n - 1, large), large)]
  }

  lemma RangeNone(b: Built, virt: nat, phys: nat, large: bool)
    ensures MapAll(b, Range(virt, phys, 0, large)) == b
  {
  }

  lemma RangeStep(b: Built, virt: nat, phys: nat, n: nat, large: bool)
    ensures MapAll(b, Range(virt, phys, n + 1, large)) ==
            MapOne(MapAll(b, Range(virt, phys, n, large)), Request(virt + At(n, large), phys + At(n, large), large))
  {
    hide At, MapOne;
    assert Range(virt, phys, n + 1, large)[..n] == Range(virt, phys, n, large);
  }

  lemma SmallMapKeepsLarge(t: Tree, next: nat, virt: nat, phys: nat)
    ensures MapTree(t, next, virt, phys, false).large == t.large
  {
    UpperKeepsLarge(t, next, virt);
    hide Prefix, AddrBits, UpperTables;
  }

  lemma UpperKeepsLarge(t: Tree, next: nat, virt: nat)
    ensures UpperTables(t, next, virt).large == t.large && UpperTables(t, next, virt).small == t.small
  {
    hide Prefix;
  }

  lemma {:induction false} SmallRangeKeepsLarge(b: Built, virt: nat, phys: nat, n: nat)
    ensures MapAll(b, Range(virt, phys, n, false)).tree.large == b.tree.large
  {
    hide At, MapTree, TablesNeeded, MapAll, Range;
    if n == 0 {
      RangeNone(b, virt, phys, false);
    } else {
      RangeStep(b, virt, phys, n - 1, false);
      SmallRangeKeepsLarge(b, virt, phys, n - 1);
      var m := MapAll(b, Range(virt, phys, n - 1, false));
      SmallMapKeepsLarge(m.tree, m.next, virt + At(n - 1, false), phys + At(n - 1, false));
    }
  }

  lemma {:induction false} MapAllConcat(b: Built, rs: seq<Request>, qs: seq<Request>)
    ensures MapAll(b, rs + qs) == MapAll(MapAll(b, rs), qs)
    decreases |qs|
  {
    hide MapOne;
    if qs == [] {
      assert rs + qs == rs;
    } else {
      var rest := qs[..|qs| - 1];
      assert (rs + qs)[..|rs + qs| - 1] == rs + rest;
      MapAllConcat(b, rs, rest);
    }
  }

  lemma {:induction false} LastMappingConcat(rs: seq<Request>, qs: seq<Request>, va: nat)
    ensures LastMapping(rs + qs, va) == if LastMapping(qs, va).Some? then LastMapping(qs, va) else LastMapping(rs, va)
    decreases |qs|
  {
    hide Covers, Target;
    if qs == [] {
      assert rs + qs == rs;
    } else {
      var rest := qs[..|qs| - 1];
      assert (rs + qs)[..|rs + qs| - 1] == rs + rest;
      LastMappingConcat(rs, rest, va);
    }
  }

  lemma {:induction false} NodesConcat(rs: seq<Request>, qs: seq<Request>)
    ensures Nodes(rs + qs) == Nodes(rs) + Nodes(qs)
    decreases |qs|
  {
    hide Path;
    if qs == [] {
      assert rs + qs == rs;
    } else {
      var rest := qs[..|qs| - 1];
      assert (rs + qs)[..|rs + qs| - 1] == rs + rest;
      NodesConcat(rs, rest);
    }
  }

  lemma LowOfSum(virt: nat, d: nat)
    requires Low48(virt) + d < TWO48
    ensures Low48(virt + d) == Low48(virt) + d
  {
  }

  /** Page `k` of an aligned range covers exactly its own bytes. */
  lemma PageOfRange(virt: nat, phys: nat, k: nat, large: bool, va: nat)
    requires virt % Step(large) == 0 && phys % Step(large) == 0
    requires Low48(virt) + At(k + 1, large) <= TWO48 && phys + At(k + 1, large) <= TWO52
    ensures
      var r := Request(virt + At(k, large), phys + At(k, large), large);
      var x := Low48(virt) + At(k, large);
      && (Covers(r, va) <==> x <= Low48(va) < x + Step(large))
      && (Covers(r, va) ==> Target(r, va) == phys + (Low48(va) - Low48(virt)))
  {
    LowOfSum(virt, At(k, large));
    if large { LargePageOfRange(Low48(virt) + At(k, true), phys + At(k, true), va); AlignedSum(virt, phys, k, true); }
    else { SmallPageOfRange(Low48(virt) + At(k, false), phys + At(k, false), va); AlignedSum(virt, phys, k, false); }
    hide Low48, AddrBits;
  }

  lemma AlignedSum(virt: nat, phys: nat, k: nat, large: bool)
    requires virt % Step(large) == 0 && phys % Step(large) == 0
    ensures (Low48(virt) + At(k, large)) % Step(large) == 0 && (phys + At(k, large)) % Step(large) == 0
  {
    var q := virt / TWO48;
    if large {
      Euclid(Low48(virt) + k * LARGE, LARGE, virt / LARGE - q * 0x800_0000 + k, 0);
      Euclid(phys + k * LARGE, LARGE, phys / LARGE + k, 0);
    } else {
      Euclid(Low48(virt) + k * PAGE, PAGE, virt / PAGE - q * 0x10_0000_0000 + k, 0);
      Euclid(phys + k * PAGE, PAGE, phys / PAGE + k, 0);
    }
  }

  lemma SmallPageOfRange(x: nat, q: nat, va: nat)
    ensures x % PAGE == 0 ==> (Low48(va) / PAGE == x / PAGE <==> x <= Low48(va) < x + PAGE)
    ensures x % PAGE == 0 && x <= Low48(va) < x + PAGE ==> va % PAGE == Low48(va) - x
    ensures q % PAGE == 0 && q < TWO52 ==> AddrBits(q) == q
  {
    assert va % PAGE == Low48(va) % PAGE;
  }

  lemma LargePageOfRange(x: nat, q: nat, va: nat)
    ensures x % LARGE == 0 ==> (Low48(va) / LARGE == x / LARGE <==> x <= Low48(va) < x + LARGE)
    ensures x % LARGE == 0 && x <= Low48(va) < x + LARGE ==> va % LARGE == Low48(va) - x
    ensures q % LARGE == 0 ==> q - q % LARGE == q
  {
    assert va % LARGE == Low48(va) % LARGE;
  }

  /** A range maps its bytes to consecutive physical bytes and nothing else. */
  lemma {:induction false} RangeMapping(virt: nat, phys: nat, n: nat, large: bool, va: nat)
    requires virt % Step(large) == 0 && phys % Step(large) == 0
    requires Low48(virt) + At(n, large) <= TWO48 && phys + At(n, large) <= TWO52
    ensures LastMapping(Range(virt, phys, n, large), va) ==
      if Low48(virt) <= Low48(va) < Low48(virt) + At(n, large) then Some(phys + (Low48(va) - Low48(virt))) else None
  {
    hide Low48, Covers, Target, At, Step;
    AtSteps(n, large);
    if n > 0 {
      PageOfRange(virt, phys, n - 1, large, va);
      RangeMapping(virt, phys, n - 1, large, va);
      LastOfRange(virt, phys, n - 1, large, va);
    }
  }

  lemma AtSteps(n: nat, large: bool)
    ensures At(0, large) == 0 && (n > 0 ==> At(n, large) == At(n - 1, large) + Step(large))
  {
  }

  lemma LastOfRange(virt: nat, phys: nat, n: nat, large: bool, va: nat)
    ensures LastMapping(Range(virt, phys, n + 1, large), va) ==
      var r := Request(virt + At(n, large), phys + At(n, large), large);
      if Covers(r, va) then Some(Target(r, va)) else LastMapping(Range(virt, phys, n, large), va)
  {
    hide Covers, Target, At;
    assert Range(virt, phys, n + 1, large)[..n] == Range(virt, phys, n, large);
  }

  lemma {:induction false} MapAllGrows(b: Built, rs: seq<Request>)
    ensures b.next <= MapAll(b, rs).next
  {
    hide MapTree, TablesNeeded;
    if rs != [] {
      MapAllGrows(b, rs[..|rs| - 1]);
    }
  }

  lemma FreshHolds(mem: seq<byte>, f: nat)
    requires f % PAGE == 0 && f + PAGE <= |mem| <= TWO52
    ensures Holds(Zeroed(mem, f), Fresh(f, f + PAGE).tree, f, f, f + PAGE)
  {
    var t := Fresh(f, f + PAGE).tree;
    var z := Zeroed(mem, f);
    assert TableOk(t, Root, f, f + PAGE);
    forall x, i | x in t.tables && 0 <= i < 512
      ensures EntryMatches(z, t, x, i)
    {
      ZeroedEntry(mem, f, i);
    }
  }

  /** The loop of `map_range` runs once for each page. */
  lemma InRange(len: nat, k: nat, large: bool)
    requires At(k, large) < len
    ensures k < Pages(len, large)
  {
  }

  lemma RangeEnds(len: nat, k: nat, large: bool)
    requires At(k, large) >= len
    ensures k >= Pages(len, large)
  {
  }

  // --- any list of requests -------------------------------------------------------------------------

  /** Where a conflicting request writes its leaf: into the large page, taken for a table. */
  function LostAt(t: Tree, r: Request): nat
    requires Conflict(t, r.virt, r.large)
  {
    t.large[LargePage(r.virt)] + Index(r.virt, 3) * 8
  }

  /** Memory outside the tables after one request, and after a list of them. */
  function Scribble(b: Built, mem: seq<byte>, r: Request): (m: seq<byte>)
    ensures |m| == |mem|
  {
    if Conflict(b.tree, r.virt, r.large) && LostAt(b.tree, r) + 8 <= |mem|
    then Put64(mem, LostAt(b.tree, r), AddrBits(r.phys) + 3) else mem
  }

  function ScribbleAll(b: Built, mem: seq<byte>, rs: seq<Request>): (m: seq<byte>)
    ensures |m| == |mem|
  {
    if rs == [] then mem
    else Scribble(MapAll(b, rs[..|rs| - 1]), ScribbleAll(b, mem, rs[..|rs| - 1]), rs[|rs| - 1])
  }

  /** A request for machine words whose lost leaf, if it conflicts, falls in RAM and clear of the tables. */
  ghost predicate Harmless(t: Tree, r: Request, len: nat, base: nat, hi: nat) {
    && r.virt < TWO64 && r.phys < TWO52
    && (Conflict(t, r.virt, r.large) ==>
          LostAt(t, r) + 8 <= len && (LostAt(t, r) + 8 <= base || hi <= LostAt(t, r)))
  }

  /** The tables of all requests fit in RAM, and no lost leaf hits them. */
  ghost predicate Feasible(b: Built, rs: seq<Request>, len: nat, base: nat) {
    && MapAll(b, rs).next <= len
    && forall k {:trigger rs[k]} | 0 <= k < |rs| :: Harmless(MapAll(b, rs[..k]).tree, rs[k], len, base, MapAll(b, rs).next)
  }

  lemma MapAllMore(b: Built, rs: seq<Request>, k: nat)
    requires k < |rs|
    ensures MapAll(b, rs[..k + 1]) == MapOne(MapAll(b, rs[..k]), rs[k])
    ensures MapAll(b, rs[..k + 1]).next <= MapAll(b, rs).next
  {
    hide MapOne;
    var head, tail := rs[..k + 1], rs[k + 1..];
    assert head[..k] == rs[..k] && head[k] == rs[k];
    assert rs == head + tail;
    MapAllConcat(b, head, tail);
    MapAllGrows(MapAll(b, head), tail);
  }

  lemma ScribbleMore(b: Built, mem: seq<byte>, rs: seq<Request>, k: nat)
    requires k < |rs|
    ensures ScribbleAll(b, mem, rs[..k + 1]) == Scribble(MapAll(b, rs[..k]), ScribbleAll(b, mem, rs[..k]), rs[k])
  {
    hide Scribble, MapAll;
    assert rs[..k + 1][..k] == rs[..k] && rs[..k + 1][k] == rs[k];
  }

  /** A large page hangs below two tables. */
  lemma {:induction false} LargeHasTables(root: nat, next: nat, rs: seq<Request>, virt: nat)
    requires LargePage(virt) in MapAll(Fresh(root, next), rs).tree.large
    ensures
      var t := MapAll(Fresh(root, next), rs).tree;
      Node(1, Prefix(virt, 1)) in t.tables && Node(2, Prefix(virt, 2)) in t.tables
  {
    var rest, r := rs[..|rs| - 1], rs[|rs| - 1];
    var b := MapAll(Fresh(root, next), rest);
    if LargePage(virt) in b.tree.large {
      LargeHasTables(root, next, rest, virt);
    } else {
      SameSlot(virt, r.virt);
    }
    KeepsUpper(b.tree, b.next, r, virt);
    hide MapTree, Prefix;
  }

  lemma SameSlot(a: nat, b: nat)
    ensures LargePage(a) == LargePage(b) ==> Prefix(a, 1) == Prefix(b, 1) && Prefix(a, 2) == Prefix(b, 2)
  {
    PrefixStep(a, 2);
    PrefixStep(a, 1);
    PrefixStep(b, 2);
    PrefixStep(b, 1);
  }

  /** A request keeps the upper tables there are, makes those of its own page, and makes a large page only of its own slot. */
  lemma KeepsUpper(t: Tree, next: nat, r: Request, virt: nat)
    ensures
      var t' := MapTree(t, next, r.virt, r.phys, r.large);
      && (Node(1, Prefix(virt, 1)) in t.tables ==> Node(1, Prefix(virt, 1)) in t'.tables)
      && (Node(2, Prefix(virt, 2)) in t.tables ==> Node(2, Prefix(virt, 2)) in t'.tables)
      && Node(1, Prefix(r.virt, 1)) in t'.tables && Node(2, Prefix(r.virt, 2)) in t'.tables
      && (LargePage(virt) in t'.large ==> LargePage(virt) in t.large || LargePage(virt) == LargePage(r.virt))
  {
    hide Prefix, AddrBits;
  }

  /** The requests that take effect: all but a 4 KiB page in a slot some earlier request made a 2 MiB page. */
  ghost function Effective(rs: seq<Request>): (es: seq<Request>) {
    if rs == [] then []
    else
      var rest, r := Effective(rs[..|rs| - 1]), rs[|rs| - 1];
      if !r.large && LargeSlot(rs[..|rs| - 1], LargePage(r.virt)) then rest else rest + [r]
  }

  lemma {:induction false} EffectiveSlots(rs: seq<Request>, s: nat)
    ensures LargeSlot(Effective(rs), s) <==> LargeSlot(rs, s)
  {
    if rs != [] {
      var rest, r := rs[..|rs| - 1], rs[|rs| - 1];
      EffectiveSlots(rest, s);
      assert rs == rest + [r];
      SlotMore(rest, r, s);
      SlotMore(Effective(rest), r, s);
      hide LargeSlot;
    }
  }

  lemma SlotMore(rs: seq<Request>, r: Request, s: nat)
    ensures LargeSlot(rs + [r], s) <==> LargeSlot(rs, s) || (r.large && LargePage(r.virt) == s)
  {
  }

  /** What takes effect does not conflict, and builds what the whole list builds; a list that does not
      conflict takes effect whole. */
  lemma {:induction false} EffectiveBuilds(root: nat, next: nat, rs: seq<Request>)
    ensures NonConflicting(Effective(rs)) && MapAll(Fresh(root, next), Effective(rs)) == MapAll(Fresh(root, next), rs)
    ensures NonConflicting(rs) ==> Effective(rs) == rs
  {
    hide LargeSlot, NonConflicting, MapOne, MapAll, Effective, Conflict, Prefix, Fresh;
    EffectiveNone(root, next);
    if rs != [] {
      var rest, r := rs[..|rs| - 1], rs[|rs| - 1];
      var es, f := Effective(rest), Fresh(root, next);
      EffectiveBuilds(root, next, rest);
      EffectiveStep(rs);
      MapAllStep(f, rest, r);
      MapAllStep(f, es, r);
      EffectiveSlots(rest, LargePage(r.virt));
      assert rs == rest + [r];
      ConflictingMore(es, r);
      ConflictingMore(rest, r);
      if !r.large && LargeSlot(rest, LargePage(r.virt)) {
        IdleWhenLarge(root, next, rest, r);
      }
    }
  }

  lemma EffectiveNone(root: nat, next: nat)
    ensures Effective([]) == [] && NonConflicting([])
  {
  }

  lemma EffectiveStep(rs: seq<Request>)
    requires rs != []
    ensures
      var rest, r := rs[..|rs| - 1], rs[|rs| - 1];
      Effective(rs) == if !r.large && LargeSlot(rest, LargePage(r.virt)) then Effective(rest) else Effective(rest) + [r]
  {
    hide LargeSlot;
  }

  lemma MapAllStep(b: Built, rs: seq<Request>, r: Request)
    ensures MapAll(b, rs + [r]) == MapOne(MapAll(b, rs), r)
  {
    hide MapOne;
    assert (rs + [r])[..|rs|] == rs;
  }

  lemma ConflictingMore(rs: seq<Request>, r: Request)
    ensures NonConflicting(rs + [r]) <==> NonConflicting(rs) && (r.large || !LargeSlot(rs, LargePage(r.virt)))
  {
    var more := rs + [r];
    if NonConflicting(more) {
      forall i, j | 0 <= i < j < |rs| && rs[i].large && !rs[j].large
        ensures LargePage(rs[i].virt) != LargePage(rs[j].virt)
      {
        assert more[i] == rs[i] && more[j] == rs[j];
      }
    }
    if !r.large && LargeSlot(rs, LargePage(r.virt)) {
      SlotConflicts(rs, r);
    }
  }

  lemma SlotConflicts(rs: seq<Request>, r: Request)
    requires !r.large && LargeSlot(rs, LargePage(r.virt))
    ensures !NonConflicting(rs + [r])
  {
    var more := rs + [r];
    var q :| q in rs && q.large && LargePage(q.virt) == LargePage(r.virt);
    var i :| 0 <= i < |rs| && rs[i] == q;
    assert more[i] == q && more[|rs|] == r;
  }

  lemma IdleWhenLarge(root: nat, next: nat, rs: seq<Request>, r: Request)
    requires !r.large && LargeSlot(rs, LargePage(r.virt))
    ensures MapOne(MapAll(Fresh(root, next), rs), r) == MapAll(Fresh(root, next), rs)
  {
    hide MapAll, Prefix, LargeSlot, Fresh;
    LargeSlots(root, next, rs, LargePage(r.virt));
    LargeHasTables(root, next, rs, r.virt);
    IdleRequest(MapAll(Fresh(root, next), rs), r);
  }

  lemma IdleRequest(b: Built, r: Request)
    requires Conflict(b.tree, r.virt, r.large)
    requires Node(1, Prefix(r.virt, 1)) in b.tree.tables && Node(2, Prefix(r.virt, 2)) in b.tree.tables
    ensures MapOne(b, r) == b
  {
  }
}
