/** The physical memory of the machine and the code that builds page tables in it:
    `alloc_frame`, `ensure_table`, `map_page` and `map_range` of `emu/src/machine.rs`. */
module Machine {
  import opened Bytes
  import opened Wrappers
  import opened Mmu
  import opened PageTables
  import opened PageTableUpdates
  import opened Mapping

  class Machine {
    const ram: array<byte>
    var ptNext: nat
    ghost var tree: Tree
    ghost var base: nat

    /** A machine with `size` bytes of cleared memory. */
    constructor (size: nat)
      ensures fresh(ram) && ram.Length == size && forall k | 0 <= k < size :: ram[k] == 0
    {
      ram := new byte[size](_ => 0);
      ptNext, base, tree := 0, 0, Tree(map[], map[], map[], map[]);
    }

    ghost predicate Valid(pml4: nat)
      reads this, ram
    {
      && Holds(ram[..], tree, pml4, base, ptNext)
      && ptNext % PAGE == 0 && base <= ptNext && ram.Length <= TWO52
    }

    /** Take the next frame of the bump area and clear it. */
    method AllocFrame() returns (f: nat)
      requires ptNext + PAGE <= ram.Length
      modifies this`ptNext, ram
      ensures f == old(ptNext) && ptNext == old(ptNext) + PAGE
      ensures ram[..] == Zeroed(old(ram[..]), f)
    {
      f := ptNext;
      ptNext := ptNext + PAGE;
      for k := f to f + PAGE
        modifies ram
        invariant forall j | 0 <= j < ram.Length :: ram[j] == if f <= j < k then 0 else old(ram[j])
      {
        ram[k] := 0;
      }
      assert ram[..] == Zeroed(old(ram[..]), f);
    }

    /** The absent case of `ensure_table`: a cleared frame, and the entry `f | P | RW` for it. */
    method NewTable(table: nat, idx: nat, ghost pml4: nat, ghost x: Node) returns (child: nat)
      requires Valid(pml4) && x in tree.tables && tree.tables[x] == table && x.depth < 3 && idx < 512
      requires Node(x.depth + 1, x.n * 512 + idx) !in tree.tables
      requires x.depth == 2 ==> x.n * 512 + idx !in tree.large
      requires ptNext + PAGE <= ram.Length
      modifies this`ptNext, this`tree, ram
      ensures Valid(pml4)
      ensures tree == AddTable(old(tree), Node(x.depth + 1, x.n * 512 + idx), old(ptNext))
      ensures child == old(ptNext) && ptNext == old(ptNext) + PAGE
      ensures SameOutside(old(ram[..]), ram[..], base, ptNext)
    {
      hide Get64, Put64, Zeroed;
      ghost var mem := ram[..];
      AddTableHolds(mem, tree, pml4, base, ptNext, x, idx);
      hide Holds, SameOutside;
      child := AllocFrame();
      Write64(ram, table + idx * 8, child + 3);
      tree := AddTable(tree, Node(x.depth + 1, x.n * 512 + idx), child);
      assert ram[..] == Put64(Zeroed(mem, child), table + 8 * idx, child + 3);
    }

    /** The frame of the table under entry `idx` of the table at `x`, made if the entry is absent. An
        entry that is a large leaf is taken for a table. */
    method EnsureTable(table: nat, idx: nat, ghost pml4: nat, ghost x: Node) returns (child: nat)
      requires Valid(pml4) && x in tree.tables && tree.tables[x] == table && x.depth < 3 && idx < 512
      requires (x.depth == 2 && x.n * 512 + idx in tree.large) ||
        ptNext + Absent(tree, Node(x.depth + 1, x.n * 512 + idx)) * PAGE <= ram.Length
      modifies this`ptNext, this`tree, ram
      ensures Valid(pml4)
      ensures
        var c := Node(x.depth + 1, x.n * 512 + idx);
        if x.depth == 2 && c.n in old(tree).large then
          && child == old(tree).large[c.n] && tree == old(tree) && ptNext == old(ptNext) && ram[..] == old(ram[..])
        else
          && tree == Ensured(old(tree), c, old(ptNext)) && child == tree.tables[c]
          && ptNext == old(ptNext) + Absent(old(tree), c) * PAGE
          && (c in old(tree).tables ==> ram[..] == old(ram[..]))
      ensures SameOutside(old(ram[..]), ram[..], base, ptNext)
    {
      ghost var c := Node(x.depth + 1, x.n * 512 + idx);
      EntryIsSound(ram[..], tree, pml4, base, ptNext, x, idx);
      assert c.n in tree.large ==> LargeOk(tree, c.n);
      hide Holds, Present, AddrBits, Get64, Zeroed;
      var e := Get64(ram[..], table + idx * 8);
      if Present(e) {
        PresentEntry(ram[..], tree, x, idx);
        child := AddrBits(e);
      } else {
        AbsentEntry(ram[..], tree, x, idx);
        child := NewTable(table, idx, pml4, x);
      }
    }

    /** The first two levels of `map_page`: the PDPT and the PD for `virt`. */
    method EnsureUpper(pml4: nat, virt: u64) returns (pd: nat)
      requires Valid(pml4)
      requires ptNext + (Absent(tree, Node(1, Prefix(virt, 1))) + Absent(tree, Node(2, Prefix(virt, 2)))) * PAGE <= ram.Length
      modifies this`ptNext, this`tree, ram
      ensures Valid(pml4)
      ensures tree == UpperTables(old(tree), old(ptNext), virt)
      ensures Node(2, Prefix(virt, 2)) in tree.tables && pd == tree.tables[Node(2, Prefix(virt, 2))]
      ensures ptNext == old(ptNext) + (Absent(old(tree), Node(1, Prefix(virt, 1))) + Absent(old(tree), Node(2, Prefix(virt, 2)))) * PAGE
      ensures SameOutside(old(ram[..]), ram[..], base, ptNext)
      ensures ptNext == old(ptNext) ==> ram[..] == old(ram[..])
    {
      ghost var n1, n2 := Node(1, Prefix(virt, 1)), Node(2, Prefix(virt, 2));
      PrefixStep(virt, 0); PrefixStep(virt, 1);
      Ancestors(tree, pml4, base, ptNext, virt);
      hide Prefix, Index, SameOutside, Holds;
      ghost var mem0 := ram[..];
      var pdpt := EnsureTable(pml4, Index(virt, 0), pml4, Root);
      ghost var mem1, next1 := ram[..], ptNext;
      pd := EnsureTable(pdpt, Index(virt, 1), pml4, n1);
      SameOutsideTwice(mem0, mem1, ram[..], base, next1, ptNext);
    }

    /** Map one page: the walk down with `ensure_table`, then the leaf entry. */
    method MapPage(pml4: nat, virt: u64, phys: nat, large: bool)
      requires Valid(pml4) && phys < TWO52
      requires ptNext + TablesNeeded(tree, virt, large) * PAGE <= ram.Length
      requires Conflict(tree, virt, large) ==>
        var a := tree.large[LargePage(virt)] + Index(virt, 3) * 8;
        a + 8 <= ram.Length && (a + 8 <= base || ptNext <= a)
      modifies this`ptNext, this`tree, ram
      ensures Valid(pml4)
      ensures tree == MapTree(old(tree), old(ptNext), virt, phys, large)
      ensures ptNext == old(ptNext) + TablesNeeded(old(tree), virt, large) * PAGE
      ensures if Conflict(old(tree), virt, large)
        then ram[..] == Put64(old(ram[..]), old(tree).large[LargePage(virt)] + Index(virt, 3) * 8, AddrBits(phys) + 3)
        else SameOutside(old(ram[..]), ram[..], base, ptNext)
    {
      ghost var mem0 := ram[..];
      ghost var n3 := Node(3, Prefix(virt, 3));
      if Conflict(tree, virt, large) {
        Ancestors(tree, pml4, base, ptNext, virt);
      }
      hide Prefix, Index, Put64, SameOutside, AddrBits, Holds;
      var pd := EnsureUpper(pml4, virt);
      ghost var mem2, next2 := ram[..], ptNext;
      if large {
        MapLargeLeaf(pml4, virt, phys, pd);
      } else {
        MapSmallLeaf(pml4, virt, phys, pd);
      }
      if !Conflict(old(tree), virt, large) {
        SameOutsideTwice(mem0, mem2, ram[..], base, next2, ptNext);
      }
    }

    method MapLargeLeaf(ghost pml4: nat, virt: u64, phys: nat, pd: nat)
      requires Valid(pml4) && phys < TWO52
      requires Node(2, Prefix(virt, 2)) in tree.tables && pd == tree.tables[Node(2, Prefix(virt, 2))]
      modifies this`tree, ram
      ensures Valid(pml4) && tree == SetLarge(old(tree), LargePage(virt), phys - phys % LARGE)
      ensures SameOutside(old(ram[..]), ram[..], base, ptNext)
    {
      hide Prefix, Index, Put64, SameOutside, Valid, SetLarge;
      ValidIs(pml4);
      LargeLeaf(ram[..], tree, pml4, base, ptNext, virt, phys);
      Write64(ram, pd + Index(virt, 2) * 8, phys - phys % LARGE + 0x83);
      tree := SetLarge(tree, LargePage(virt), phys - phys % LARGE);
      ValidAgain(pml4);
    }

    lemma ValidIs(pml4: nat)
      requires Valid(pml4)
      ensures Holds(ram[..], tree, pml4, base, ptNext) && ptNext % PAGE == 0 && base <= ptNext && ram.Length <= TWO52
    {
    }

    lemma ValidAgain(pml4: nat)
      requires Holds(ram[..], tree, pml4, base, ptNext) && ptNext % PAGE == 0 && base <= ptNext && ram.Length <= TWO52
      ensures Valid(pml4)
    {
    }

    method MapSmallLeaf(ghost pml4: nat, virt: u64, phys: nat, pd: nat)
      requires Valid(pml4) && phys < TWO52
      requires Node(2, Prefix(virt, 2)) in tree.tables && pd == tree.tables[Node(2, Prefix(virt, 2))]
      requires LargePage(virt) !in tree.large ==> ptNext + Absent(tree, Node(3, Prefix(virt, 3))) * PAGE <= ram.Length
      requires LargePage(virt) in tree.large ==>
        var a := tree.large[LargePage(virt)] + Index(virt, 3) * 8;
        a + 8 <= ram.Length && (a + 8 <= base || ptNext <= a)
      modifies this`ptNext, this`tree, ram
      ensures Valid(pml4)
      ensures
        if LargePage(virt) in old(tree).large then
          && tree == old(tree) && ptNext == old(ptNext)
          && ram[..] == Put64(old(ram[..]), tree.large[LargePage(virt)] + Index(virt, 3) * 8, AddrBits(phys) + 3)
        else
          var n3 := Node(3, Prefix(virt, 3));
          && tree == SetSmall(Ensured(old(tree), n3, old(ptNext)), SmallPage(virt), AddrBits(phys))
          && ptNext == old(ptNext) + Absent(old(tree), n3) * PAGE
          && SameOutside(old(ram[..]), ram[..], base, ptNext)
    {
      hide Prefix, Index, Put64, SameOutside, AddrBits, Valid, SetSmall, Ensured, Absent, LargePage;
      SlotTable(pml4, virt);
      EnsuredKeeps(tree, Node(3, Prefix(virt, 3)), ptNext);
      ghost var mem2 := ram[..];
      var pt := EnsureTable(pd, Index(virt, 2), pml4, Node(2, Prefix(virt, 2)));
      ghost var mem3, next3 := ram[..], ptNext;
      WriteSmallLeaf(pml4, virt, phys, pt);
      if LargePage(virt) !in old(tree).large {
        SameOutsideTwice(mem2, mem3, ram[..], base, next3, ptNext);
      }
    }

    lemma SlotTable(pml4: nat, virt: nat)
      requires Valid(pml4) && Node(2, Prefix(virt, 2)) in tree.tables
      ensures LargePage(virt) == Prefix(virt, 2) * 512 + Index(virt, 2) == Prefix(virt, 3)
    {
      PrefixStep(virt, 2);
    }

    method WriteSmallLeaf(ghost pml4: nat, virt: u64, phys: nat, pt: nat)
      requires Valid(pml4) && phys < TWO52
      requires
        if LargePage(virt) in tree.large then
          && pt == tree.large[LargePage(virt)] && pt + Index(virt, 3) * 8 + 8 <= ram.Length
          && (pt + Index(virt, 3) * 8 + 8 <= base || ptNext <= pt + Index(virt, 3) * 8)
        else
          Node(3, Prefix(virt, 3)) in tree.tables && pt == tree.tables[Node(3, Prefix(virt, 3))]
      modifies this`tree, ram
      ensures Valid(pml4)
      ensures
        if LargePage(virt) in old(tree).large then
          && tree == old(tree)
          && ram[..] == Put64(old(ram[..]), pt + Index(virt, 3) * 8, AddrBits(phys) + 3)
        else
          && tree == SetSmall(old(tree), SmallPage(virt), AddrBits(phys))
          && SameOutside(old(ram[..]), ram[..], base, ptNext)
    {
      hide Prefix, Index, Put64, SameOutside, AddrBits, Holds;
      if LargePage(virt) in tree.large {
        LostLeaf(ram[..], tree, pml4, base, ptNext, virt, phys);
      } else {
        SmallLeaf(ram[..], tree, pml4, base, ptNext, virt, phys);
      }
      Write64(ram, pt + Index(virt, 3) * 8, AddrBits(phys) + 3);
      if LargePage(virt) !in tree.large {
        tree := SetSmall(tree, SmallPage(virt), AddrBits(phys));
      }
    }

    /** The first `k` of the requests `rs` are done, starting from `b` and memory `mem`. */
    ghost predicate Running(pml4: nat, b: Built, rs: seq<Request>, k: nat, mem: seq<byte>)
      reads this, ram
    {
      && k <= |rs| && Valid(pml4) && Built(tree, ptNext) == MapAll(b, rs[..k]) && Feasible(b, rs, ram.Length, base)
      && SameOutside(ScribbleAll(b, mem, rs[..k]), ram[..], base, ptNext)
    }

    /** `map_page` as the next of a list of requests. */
    method MapNext(pml4: nat, virt: u64, phys: nat, large: bool,
                   ghost b: Built, ghost rs: seq<Request>, ghost k: nat, ghost mem: seq<byte>)
      requires Running(pml4, b, rs, k, mem) && k < |rs| && rs[k] == Request(virt, phys, large)
      modifies this`ptNext, this`tree, ram
      ensures Running(pml4, b, rs, k + 1, mem)
    {
      hide *;
      ghost var mem1, b1 := ram[..], Built(tree, ptNext);
      NextFits(pml4, b, rs, k, mem);
      MapPage(pml4, virt, phys, large);
      NextDone(pml4, b, rs, k, mem, mem1, b1);
    }

    lemma NextFits(pml4: nat, b: Built, rs: seq<Request>, k: nat, mem: seq<byte>)
      requires Running(pml4, b, rs, k, mem) && k < |rs|
      ensures Valid(pml4) && rs[k].phys < TWO52 && b.next <= ptNext
      ensures ptNext + TablesNeeded(tree, rs[k].virt, rs[k].large) * PAGE <= ram.Length
      ensures Conflict(tree, rs[k].virt, rs[k].large) ==>
        var a := tree.large[LargePage(rs[k].virt)] + Index(rs[k].virt, 3) * 8;
        a + 8 <= ram.Length && (a + 8 <= base || ptNext <= a)
      ensures Built(tree, ptNext) == MapAll(b, rs[..k]) && Feasible(b, rs, ram.Length, base)
      ensures SameOutside(ScribbleAll(b, mem, rs[..k]), ram[..], base, ptNext)
    {
      RequestFits(b, rs, k, ram.Length, base);
      MapAllGrows(b, rs[..k]);
      hide Valid, Feasible, SameOutside, ScribbleAll, MapAll, MapTree, TablesNeeded, Conflict, Index, LargePage;
    }

    lemma NextDone(pml4: nat, b: Built, rs: seq<Request>, k: nat, mem: seq<byte>, mem1: seq<byte>, b1: Built)
      requires k < |rs| && b1 == MapAll(b, rs[..k]) && Feasible(b, rs, ram.Length, base) && Valid(pml4) && |mem1| == ram.Length
      requires SameOutside(ScribbleAll(b, mem, rs[..k]), mem1, base, b1.next)
      requires tree == MapTree(b1.tree, b1.next, rs[k].virt, rs[k].phys, rs[k].large)
      requires ptNext == b1.next + TablesNeeded(b1.tree, rs[k].virt, rs[k].large) * PAGE
      requires if Conflict(b1.tree, rs[k].virt, rs[k].large)
        then ram[..] == Put64(mem1, b1.tree.large[LargePage(rs[k].virt)] + Index(rs[k].virt, 3) * 8, AddrBits(rs[k].phys) + 3)
        else SameOutside(mem1, ram[..], base, ptNext)
      ensures Running(pml4, b, rs, k + 1, mem)
    {
      RequestFits(b, rs, k, ram.Length, base);
      ScribbleMore(b, mem, rs, k);
      hide Valid, Feasible, SameOutside, ScribbleAll, MapAll, MapTree, TablesNeeded, Conflict, Index, LargePage, Put64, AddrBits,
        Scribble;
      StillOutside(b1, ScribbleAll(b, mem, rs[..k]), mem1, ram[..], rs[k], base, ptNext);
    }

    /** Any list of `map_page` calls, one after another. */
    method MapRequests(pml4: nat, rs: seq<Request>)
      requires Valid(pml4) && Feasible(Built(tree, ptNext), rs, ram.Length, base)
      modifies this`ptNext, this`tree, ram
      ensures Running(pml4, Built(old(tree), old(ptNext)), rs, |rs|, old(ram[..]))
    {
      hide *;
      ghost var b, mem := Built(tree, ptNext), ram[..];
      RunningNow(pml4, b, rs, mem);
      for k := 0 to |rs|
        invariant Running(pml4, b, rs, k, mem)
      {
        Words(pml4, b, rs, k, mem);
        MapNext(pml4, rs[k].virt, rs[k].phys, rs[k].large, b, rs, k, mem);
      }
    }

    /** Map `len` bytes page by page. */
    method MapRange(pml4: nat, virt: u64, phys: nat, len: nat, large: bool)
      requires Valid(pml4) && virt + len <= TWO64 && phys + len <= TWO52
      requires Feasible(Built(tree, ptNext), Range(virt, phys, Pages(len, large), large), ram.Length, base)
      modifies this`ptNext, this`tree, ram
      ensures Running(pml4, Built(old(tree), old(ptNext)), Range(virt, phys, Pages(len, large), large),
                      Pages(len, large), old(ram[..]))
    {
      hide *;
      ghost var b, mem, n := Built(tree, ptNext), ram[..], Pages(len, large);
      ghost var rs := Range(virt, phys, n, large);
      RunningNow(pml4, b, rs, mem);
      AtSteps(0, large);
      ghost var k := 0;
      var o := 0;
      while o < len
        invariant o == At(k, large) && k <= n
        invariant Running(pml4, b, rs, k, mem)
        decreases len - o
      {
        InRange(len, k, large);
        MapRangePage(pml4, virt, phys, o, len, large, b, n, k, mem);
        AtSteps(k + 1, large);
        StepPositive(large);
        o := o + Step(large);
        k := k + 1;
      }
      RangeEnds(len, k, large);
    }

    method MapRangePage(pml4: nat, virt: u64, phys: nat, o: nat, ghost len: nat, large: bool,
                        ghost b: Built, ghost n: nat, ghost k: nat, ghost mem: seq<byte>)
      requires Running(pml4, b, Range(virt, phys, n, large), k, mem) && k < n && o == At(k, large) < len
      requires virt + len <= TWO64
      modifies this`ptNext, this`tree, ram
      ensures Running(pml4, b, Range(virt, phys, n, large), k + 1, mem)
    {
      hide Running, Range, At;
      RangeAt(virt, phys, n, large, k);
      MapNext(pml4, virt + o, phys + o, large, b, Range(virt, phys, n, large), k, mem);
    }

    lemma RunningNow(pml4: nat, b: Built, rs: seq<Request>, mem: seq<byte>)
      requires Valid(pml4) && b == Built(tree, ptNext) && Feasible(b, rs, ram.Length, base) && mem == ram[..]
      ensures Running(pml4, b, rs, 0, mem)
    {
      NothingYet(b, rs, mem, base);
      hide Valid, Feasible, SameOutside, ScribbleAll, MapAll;
    }

    /** A list of `map_page` calls into fresh tables from frame `start` on, whatever the list: translation
        is the last request that covers an address among those that take effect, every table costs one
        frame, and memory outside the tables changes only where lost leaves fall. */
    method BuildFresh(start: nat, rs: seq<Request>) returns (pml4: nat)
      requires start % PAGE == 0 && start + PAGE <= ram.Length <= TWO52
      requires Feasible(Fresh(start, start + PAGE), rs, ram.Length, start)
      modifies this`ptNext, this`tree, this`base, ram
      ensures pml4 == start && Valid(pml4) && base == start
      ensures Built(tree, ptNext) == MapAll(Fresh(start, start + PAGE), rs)
      ensures ptNext == start + (1 + |Nodes(Effective(rs))|) * PAGE
      ensures SameOutside(ScribbleAll(Fresh(start, start + PAGE), old(ram[..]), rs), ram[..], start, ptNext)
      ensures NonConflicting(rs) ==> Effective(rs) == rs && SameOutside(old(ram[..]), ram[..], start, ptNext)
      ensures forall p, va: u64, access, user | LongModePaging(p) && AddrBits(p.cr3) == start && Canonical(va) ::
        Translate(ram[..], p, va, access, user) == Translated(LastMapping(Effective(rs), va), va, access, user)
    {
      hide *;
      ghost var mem0, f := ram[..], Fresh(start, start + PAGE);
      pml4 := StartTables(start);
      ghost var mem1 := ram[..];
      MapRequests(pml4, rs);
      RunsDone(pml4, f, rs, mem1);
      FreshDone(mem0, mem1, ram[..], rs, start, ptNext);
      FreshTranslates(ram[..], rs, start, ptNext);
    }

    /** An empty PML4 in the first frame. */
    method StartTables(start: nat) returns (pml4: nat)
      requires start % PAGE == 0 && start + PAGE <= ram.Length <= TWO52
      modifies this`ptNext, this`tree, this`base, ram
      ensures pml4 == start && Valid(pml4) && base == start && Built(tree, ptNext) == Fresh(start, start + PAGE)
      ensures SameOutside(old(ram[..]), ram[..], start, start + PAGE)
    {
      ghost var mem0 := ram[..];
      ptNext := start;
      pml4 := AllocFrame();
      base, tree := start, Fresh(start, start + PAGE).tree;
      FreshHolds(mem0, start);
      FreshOutside(mem0, ram[..], start);
      hide Holds, SameOutside, Zeroed;
    }

    lemma Words(pml4: nat, b: Built, rs: seq<Request>, k: nat, mem: seq<byte>)
      requires Running(pml4, b, rs, k, mem) && k < |rs|
      ensures rs[k].virt < 0x1_0000_0000_0000_0000
    {
    }

    lemma RunsDone(pml4: nat, b: Built, rs: seq<Request>, mem: seq<byte>)
      requires Running(pml4, b, rs, |rs|, mem)
      ensures Valid(pml4) && Built(tree, ptNext) == MapAll(b, rs)
      ensures SameOutside(ScribbleAll(b, mem, rs), ram[..], base, ptNext)
      ensures Holds(ram[..], MapAll(b, rs).tree, pml4, base, ptNext) && ptNext == MapAll(b, rs).next
    {
      assert rs[..|rs|] == rs;
      hide Holds, Feasible, SameOutside, ScribbleAll, MapAll;
    }
  }

  // --- lists of requests -------------------------------------------------------------------------------

  lemma NothingYet(b: Built, rs: seq<Request>, mem: seq<byte>, base: nat)
    ensures MapAll(b, rs[..0]) == b && ScribbleAll(b, mem, rs[..0]) == mem && SameOutside(mem, mem, base, b.next)
  {
  }

  /** What `map_page` asks of the next request holds. */
  lemma RequestFits(b: Built, rs: seq<Request>, k: nat, len: nat, base: nat)
    requires Feasible(b, rs, len, base) && k < |rs|
    ensures
      var m, m', r := MapAll(b, rs[..k]), MapAll(b, rs[..k + 1]), rs[k];
      && m' == MapOne(m, r) && m'.next <= len && Harmless(m.tree, r, len, base, m'.next)
  {
    hide MapOne, LostAt, Conflict;
    MapAllMore(b, rs, k);
    hide MapAll;
    assert Harmless(MapAll(b, rs[..k]).tree, rs[k], len, base, MapAll(b, rs).next);
  }

  /** Memory outside the tables after one more request. */
  lemma StillOutside(b: Built, out: seq<byte>, mem: seq<byte>, mem': seq<byte>, r: Request, base: nat, hi: nat)
    requires SameOutside(out, mem, base, b.next) && b.next <= hi && Harmless(b.tree, r, |mem|, base, hi)
    requires if Conflict(b.tree, r.virt, r.large) then mem' == Put64(mem, LostAt(b.tree, r), AddrBits(r.phys) + 3)
      else SameOutside(mem, mem', base, hi)
    ensures SameOutside(Scribble(b, out, r), mem', base, hi)
  {
    hide SameOutside, Put64, AddrBits, Conflict, LostAt;
    OutsideLength(out, mem, base, b.next);
    if Conflict(b.tree, r.virt, r.large) {
      PutOutside(out, mem, LostAt(b.tree, r), AddrBits(r.phys) + 3, base, b.next, hi);
    } else {
      SameOutsideTwice(out, mem, mem', base, b.next, hi);
    }
  }

  lemma PutOutside(out: seq<byte>, mem: seq<byte>, a: nat, v: nat, lo: nat, mid: nat, hi: nat)
    requires SameOutside(out, mem, lo, mid) && mid <= hi && a + 8 <= |mem|
    ensures SameOutside(Put64(out, a, v), Put64(mem, a, v), lo, hi)
  {
    hide Le;
  }

  lemma RangeAt(virt: nat, phys: nat, n: nat, large: bool, k: nat)
    requires k < n
    ensures Range(virt, phys, n, large)[k] == Request(virt + At(k, large), phys + At(k, large), large)
  {
    hide At;
    if k < n - 1 {
      RangeAt(virt, phys, n - 1, large, k);
    }
  }

  lemma StepPositive(large: bool)
    ensures Step(large) > 0
  {
  }

  lemma FreshOutside(mem: seq<byte>, mem': seq<byte>, start: nat)
    requires start + PAGE <= |mem| && mem' == Zeroed(mem, start)
    ensures SameOutside(mem, mem', start, start + PAGE)
  {
  }

  /** Lost leaves land on the same bytes of two memories that agree outside the tables. */
  lemma {:induction false} ScribbleFrame(b: Built, mem: seq<byte>, mem': seq<byte>, rs: seq<Request>, lo: nat, mid: nat, hi: nat)
    requires SameOutside(mem, mem', lo, mid) && mid <= hi
    ensures SameOutside(ScribbleAll(b, mem, rs), ScribbleAll(b, mem', rs), lo, hi)
  {
    hide MapAll, Put64, AddrBits, Conflict, LostAt, SameOutside;
    if rs == [] {
      SameOutsideWider(mem, mem', lo, mid, hi);
    } else {
      var rest, r := rs[..|rs| - 1], rs[|rs| - 1];
      ScribbleFrame(b, mem, mem', rest, lo, mid, hi);
      ScribbleBoth(MapAll(b, rest), ScribbleAll(b, mem, rest), ScribbleAll(b, mem', rest), r, lo, hi);
    }
  }

  lemma OutsideLength(mem: seq<byte>, mem': seq<byte>, lo: nat, hi: nat)
    requires SameOutside(mem, mem', lo, hi)
    ensures |mem'| == |mem|
  {
  }

  lemma SameOutsideWider(mem: seq<byte>, mem': seq<byte>, lo: nat, mid: nat, hi: nat)
    requires SameOutside(mem, mem', lo, mid) && mid <= hi
    ensures SameOutside(mem, mem', lo, hi)
  {
  }

  lemma SameOutsideJoin(a: seq<byte>, b: seq<byte>, c: seq<byte>, lo: nat, hi: nat)
    requires SameOutside(a, b, lo, hi) && SameOutside(b, c, lo, hi)
    ensures SameOutside(a, c, lo, hi)
  {
  }

  lemma ScribbleBoth(b: Built, out: seq<byte>, out': seq<byte>, r: Request, lo: nat, hi: nat)
    requires SameOutside(out, out', lo, hi)
    ensures SameOutside(Scribble(b, out, r), Scribble(b, out', r), lo, hi)
  {
    hide SameOutside, Put64, AddrBits, Conflict, LostAt;
    OutsideLength(out, out', lo, hi);
    if Conflict(b.tree, r.virt, r.large) && LostAt(b.tree, r) + 8 <= |out| {
      PutOutside(out, out', LostAt(b.tree, r), AddrBits(r.phys) + 3, lo, hi, hi);
    }
  }

  lemma {:induction false} NoScribble(b: Built, mem: seq<byte>, rs: seq<Request>)
    requires forall k {:trigger rs[k]} | 0 <= k < |rs| :: !Conflict(MapAll(b, rs[..k]).tree, rs[k].virt, rs[k].large)
    ensures ScribbleAll(b, mem, rs) == mem
  {
    hide MapAll, Conflict;
    if rs != [] {
      var rest := rs[..|rs| - 1];
      forall k {:trigger rest[k]} | 0 <= k < |rest|
        ensures !Conflict(MapAll(b, rest[..k]).tree, rest[k].virt, rest[k].large)
      {
        assert rest[k] == rs[k] && rest[..k] == rs[..k];
      }
      NoScribble(b, mem, rest);
      assert rs[|rs| - 1] == rs[|rs| - 1];
    }
  }

  lemma FreshDone(mem0: seq<byte>, mem1: seq<byte>, mem: seq<byte>, rs: seq<Request>, start: nat, hi: nat)
    requires SameOutside(mem0, mem1, start, start + PAGE)
    requires hi == MapAll(Fresh(start, start + PAGE), rs).next
    requires SameOutside(ScribbleAll(Fresh(start, start + PAGE), mem1, rs), mem, start, hi)
    ensures hi == start + (1 + |Nodes(Effective(rs))|) * PAGE
    ensures SameOutside(ScribbleAll(Fresh(start, start + PAGE), mem0, rs), mem, start, hi)
    ensures NonConflicting(rs) ==> Effective(rs) == rs && SameOutside(mem0, mem, start, hi)
  {
    hide SameOutside, MapAll, ScribbleAll, Fresh, Effective, Nodes, NonConflicting;
    var f := Fresh(start, start + PAGE);
    FreshFacts(start, rs, mem0);
    MapAllGrows(f, rs);
    FreshNext(start);
    ScribbleFrame(f, mem0, mem1, rs, start, start + PAGE, hi);
    SameOutsideJoin(ScribbleAll(f, mem0, rs), ScribbleAll(f, mem1, rs), mem, start, hi);
  }

  lemma FreshNext(start: nat)
    ensures Fresh(start, start + PAGE).next == start + PAGE
  {
  }

  lemma FreshFacts(start: nat, rs: seq<Request>, mem: seq<byte>)
    ensures
      var f := Fresh(start, start + PAGE);
      && MapAll(f, rs).next == start + (1 + |Nodes(Effective(rs))|) * PAGE
      && (NonConflicting(rs) ==> Effective(rs) == rs && ScribbleAll(f, mem, rs) == mem)
  {
    hide MapAll, Effective, NonConflicting, Nodes, Fresh, ScribbleAll;
    EffectiveBuilds(start, start + PAGE, rs);
    FramesOfRun(start, start + PAGE, Effective(rs));
    if NonConflicting(rs) {
      FreshNoScribble(start, start + PAGE, rs, mem);
    }
  }

  lemma FreshNoScribble(root: nat, next: nat, rs: seq<Request>, mem: seq<byte>)
    requires NonConflicting(rs)
    ensures ScribbleAll(Fresh(root, next), mem, rs) == mem
  {
    hide MapAll, Conflict, Fresh, ScribbleAll;
    forall k {:trigger rs[k]} | 0 <= k < |rs|
      ensures !Conflict(MapAll(Fresh(root, next), rs[..k]).tree, rs[k].virt, rs[k].large)
    {
      var head := rs[..k + 1];
      assert head[..k] == rs[..k] && head[k] == rs[k];
      assert NonConflicting(head);
      NoConflict(root, next, head);
    }
    NoScribble(Fresh(root, next), mem, rs);
  }

  lemma FreshTranslates(mem: seq<byte>, rs: seq<Request>, start: nat, hi: nat)
    requires Holds(mem, MapAll(Fresh(start, start + PAGE), rs).tree, start, start, hi)
    ensures forall p, va: u64, access, user | LongModePaging(p) && AddrBits(p.cr3) == start && Canonical(va) ::
      Translate(mem, p, va, access, user) == Translated(LastMapping(Effective(rs), va), va, access, user)
  {
    hide Holds, MapAll, Effective, LastMapping, Translate, Canonical, LongModePaging, AddrBits, Fresh;
    forall p, va: u64, access, user | LongModePaging(p) && AddrBits(p.cr3) == start && Canonical(va)
      ensures Translate(mem, p, va, access, user) == Translated(LastMapping(Effective(rs), va), va, access, user)
    {
      RunTranslates(mem, rs, start, start + PAGE, start, hi, p, va, access, user);
    }
  }

  /** The second 4 KiB of a slot asked for after the whole slot was made a large page. */
  function Conflicting(): seq<Request> { [Request(0, 0x20_0000, true), Request(0x1000, 0x5000, false)] }

  /** The second request is lost: the address goes on into the large page, and the leaf lands in its memory. */
  method LosesARequest() returns (mem: seq<byte>)
    ensures LastMapping(Conflicting(), 0x1000) == Some(0x5000) && |mem| == 0x40_0000 && Get64(mem, 0x20_0008) == 0x5003
    ensures Translate(mem, WITNESS_PAGING, 0x1000, Read, false) == Mapped(0x20_1000)
  {
    var m := new Machine(0x40_0000);
    ghost var zeros := m.ram[..];
    WitnessBits();
    ConflictingFits();
    ConflictingMaps();
    ConflictingSteps();
    AfterLarge();
    hide Feasible, Fresh, Conflicting, Translate, LongModePaging, AddrBits, Canonical, LastMapping, Effective, ScribbleAll,
      SameOutside, Get64, MapAll, MapOne, LostAt, Prefix, Index, Machine.Valid, Nodes, NonConflicting;
    var pml4 := m.BuildFresh(0x10_0000, Conflicting());
    mem := m.ram[..];
    LostLeafShown(zeros, mem, m.ptNext);
    assert Translate(mem, WITNESS_PAGING, 0x1000, Read, false)
        == Translated(LastMapping(Effective(Conflicting()), 0x1000), 0x1000, Read, false);
  }

  const WITNESS_PAGING := Paging(0x8000_0001, 0x10_0000, 0x20, 0xD00)

  lemma WitnessBits()
    ensures LongModePaging(WITNESS_PAGING) && AddrBits(WITNESS_PAGING.cr3) == 0x10_0000 && Canonical(0x1000)
    ensures AddrBits(0x5000) == 0x5000 && Index(0x1000, 3) == 1
    ensures forall va | va == 0 || va == 0x1000 ::
      LargePage(va) == 0 && Prefix(va, 1) == 0 && Prefix(va, 2) == 0 && Prefix(va, 3) == 0
    ensures SmallPage(0x1000) == 1
  {
  }

  /** After the first request: two tables and a large page. */
  lemma AfterLarge()
    ensures
      var b := MapOne(Fresh(0x10_0000, 0x10_1000), Conflicting()[0]);
      && b.next == 0x10_3000 && b.tree.large == map[0 := 0x20_0000]
      && Node(1, 0) in b.tree.tables && Node(2, 0) in b.tree.tables
  {
    WitnessBits();
    hide Prefix, AddrBits, Index;
  }

  lemma ConflictingSteps()
    ensures
      var f, rs := Fresh(0x10_0000, 0x10_1000), Conflicting();
      var b := MapOne(f, rs[0]);
      && |rs| == 2 && MapAll(f, rs[..0]) == f && MapAll(f, rs[..1]) == b && MapAll(f, rs) == b
      && Conflict(b.tree, 0x1000, false) && LostAt(b.tree, rs[1]) == 0x20_0008
  {
    var f, rs := Fresh(0x10_0000, 0x10_1000), Conflicting();
    AfterLarge();
    WitnessBits();
    var b := MapOne(f, rs[0]);
    hide Prefix, AddrBits, Index, MapOne, Fresh;
    assert rs[..1] == [rs[0]] && rs[..1][..0] == [] && rs[..2] == rs;
    IdleRequest(b, rs[1]);
  }

  lemma ConflictingFits()
    ensures Feasible(Fresh(0x10_0000, 0x10_1000), Conflicting(), 0x40_0000, 0x10_0000)
  {
    var f, rs := Fresh(0x10_0000, 0x10_1000), Conflicting();
    ConflictingSteps();
    AfterLarge();
    hide MapAll, MapOne, LostAt, Fresh, Prefix;
    forall k {:trigger rs[k]} | 0 <= k < |rs|
      ensures Harmless(MapAll(f, rs[..k]).tree, rs[k], 0x40_0000, 0x10_0000, MapAll(f, rs).next)
    {
      assert k == 0 || k == 1;
    }
  }

  lemma ConflictingMaps()
    ensures LastMapping(Conflicting(), 0x1000) == Some(0x5000)
    ensures LastMapping(Effective(Conflicting()), 0x1000) == Some(0x20_1000)
  {
    var rs := Conflicting();
    WitnessBits();
    hide Prefix, AddrBits, Index;
    assert rs[..1] == [rs[0]] && rs[..1][..0] == [];
    assert LargeSlot([rs[0]], 0) by { assert rs[0] in [rs[0]]; }
    assert Effective([rs[0]]) == [rs[0]];
    assert Effective(rs) == [rs[0]];
  }

  lemma LostLeafShown(zeros: seq<byte>, mem: seq<byte>, hi: nat)
    requires |zeros| == 0x40_0000 && hi == 0x10_3000
    requires SameOutside(ScribbleAll(Fresh(0x10_0000, 0x10_1000), zeros, Conflicting()), mem, 0x10_0000, hi)
    ensures |mem| == 0x40_0000 && Get64(mem, 0x20_0008) == 0x5003
  {
    hide ScribbleAll, Fresh, Conflicting, Put64, Get64;
    LostBytes(zeros);
    Get64Put64(zeros, 0x20_0008, 0x5003);
    Get64Frame(Put64(zeros, 0x20_0008, 0x5003), mem, 0x20_0008);
  }

  lemma LostBytes(zeros: seq<byte>)
    requires |zeros| == 0x40_0000
    ensures ScribbleAll(Fresh(0x10_0000, 0x10_1000), zeros, Conflicting()) == Put64(zeros, 0x20_0008, 0x5003)
  {
    var f, rs := Fresh(0x10_0000, 0x10_1000), Conflicting();
    var b := MapOne(f, rs[0]);
    ConflictingSteps();
    WitnessBits();
    assert rs[..2] == rs && !Conflict(f.tree, rs[0].virt, rs[0].large) && rs[1] == Request(0x1000, 0x5000, false);
    hide MapAll, MapOne, LostAt, Fresh, Prefix, Put64, AddrBits, Conflicting, ScribbleAll, Conflict;
    ScribbleMore(f, zeros, rs, 0);
    ScribbleMore(f, zeros, rs, 1);
    NothingYet(f, rs, zeros, 0);
  }

  lemma LostLeaf(mem: seq<byte>, t: Tree, root: nat, lo: nat, hi: nat, virt: nat, phys: nat)
    requires Holds(mem, t, root, lo, hi) && LargePage(virt) in t.large
    requires var a := t.large[LargePage(virt)] + Index(virt, 3) * 8; a + 8 <= |mem| && (a + 8 <= lo || hi <= a)
    ensures Holds(Put64(mem, t.large[LargePage(virt)] + Index(virt, 3) * 8, AddrBits(phys) + 3), t, root, lo, hi)
  {
    hide Prefix, Index, Put64, AddrBits, Shape, EntryMatches;
    assert hi <= |mem|;
    hide Holds;
    var mem' := Put64(mem, t.large[LargePage(virt)] + Index(virt, 3) * 8, AddrBits(phys) + 3);
    HoldsFrame(mem, mem', t, root, lo, hi);
  }

  lemma EnsuredKeeps(t: Tree, c: Node, f: nat)
    ensures Ensured(t, c, f).large == t.large && c in Ensured(t, c, f).tables
  {
  }

  lemma LargeLeaf(mem: seq<byte>, t: Tree, root: nat, lo: nat, hi: nat, virt: nat, phys: nat)
    requires Holds(mem, t, root, lo, hi) && Node(2, Prefix(virt, 2)) in t.tables && phys < TWO52
    ensures t.tables[Node(2, Prefix(virt, 2))] + Index(virt, 2) * 8 + 8 <= |mem|
    ensures
      var mem' := Put64(mem, t.tables[Node(2, Prefix(virt, 2))] + Index(virt, 2) * 8, phys - phys % LARGE + 0x83);
      && Holds(mem', SetLarge(t, LargePage(virt), phys - phys % LARGE), root, lo, hi)
      && SameOutside(mem, mem', lo, hi)
  {
    var pa := phys - phys % LARGE;
    assert pa % LARGE == 0;
    hide Prefix, Index, Put64, SameOutside, Shape, EntryMatches;
    assert hi <= |mem|;
    hide Holds;
    PrefixStep(virt, 2);
    SetLargeHolds(mem, t, root, lo, hi, Node(2, Prefix(virt, 2)), Index(virt, 2), pa);
  }

  lemma SmallLeaf(mem: seq<byte>, t: Tree, root: nat, lo: nat, hi: nat, virt: nat, phys: nat)
    requires Holds(mem, t, root, lo, hi) && Node(3, Prefix(virt, 3)) in t.tables
    ensures t.tables[Node(3, Prefix(virt, 3))] + Index(virt, 3) * 8 + 8 <= |mem|
    ensures var mem' := Put64(mem, t.tables[Node(3, Prefix(virt, 3))] + Index(virt, 3) * 8, AddrBits(phys) + 3);
      && Holds(mem', SetSmall(t, SmallPage(virt), AddrBits(phys)), root, lo, hi)
      && SameOutside(mem, mem', lo, hi)
  {
    hide Prefix, Index, Put64, SameOutside, AddrBits, Shape, EntryMatches;
    assert hi <= |mem|;
    hide Holds;
    PrefixStep(virt, 3);
    SetSmallHolds(mem, t, root, lo, hi, Node(3, Prefix(virt, 3)), Index(virt, 3), AddrBits(phys));
  }

  lemma PresentEntry(mem: seq<byte>, t: Tree, x: Node, i: nat)
    requires x in t.tables && x.depth < 3 && EntrySound(mem, t, x, i) && Present(EntryOf(t, x, i))
    ensures
      var c := Node(x.depth + 1, x.n * 512 + i);
      if c in t.tables then AddrBits(EntryOf(t, x, i)) == t.tables[c]
      else x.depth == 2 && c.n in t.large && AddrBits(EntryOf(t, x, i)) == t.large[c.n]
  {
    var c := Node(x.depth + 1, x.n * 512 + i);
    ZeroEntry();
    hide AddrBits, Present;
    if c in t.tables {
      TableEntry(t.tables[c]);
    } else if x.depth == 2 && c.n in t.large {
      LargeEntry(t.large[c.n]);
    }
  }

  lemma AbsentEntry(mem: seq<byte>, t: Tree, x: Node, i: nat)
    requires x in t.tables && x.depth < 3 && EntrySound(mem, t, x, i) && !Present(EntryOf(t, x, i))
    ensures
      var c := Node(x.depth + 1, x.n * 512 + i);
      c !in t.tables && (x.depth == 2 ==> c.n !in t.large)
  {
    var c := Node(x.depth + 1, x.n * 512 + i);
    hide AddrBits, Present;
    if c in t.tables {
      TableEntry(t.tables[c]);
    } else if x.depth == 2 && c.n in t.large {
      LargeEntry(t.large[c.n]);
    }
  }
}
