/** Three pieces of code, one mapping: the tables `map_page` builds, the emulator's page walk, and the
    crash dump that walks the same tables, writes them as an ELF core and is read back. */
module Agreement {
  import opened Bytes
  import opened Wrappers
  import opened Mmu
  import PT = PageTables
  import Mapping
  import opened Runs
  import opened Dump
  import CoreFile

  /** A run list that describes the dump's view is, when large leaves are aligned, the emulator's
      translation of the higher half, address by address. */
  lemma RunsMatchTranslate(mem: seq<byte>, p: Paging, runs: seq<Run>, va: nat)
    requires LongModePaging(p) && LargeLeavesAligned(mem, AddrBits(p.cr3))
    requires Describes(View(mem, AddrBits(p.cr3)), runs, HIGHER_HALF, TWO64) && HIGHER_HALF <= va < TWO64
    ensures Translate(mem, p, va, Read, false).Mapped? <==> Covered(runs, va)
    ensures forall i | 0 <= i < |runs| && In(runs[i], va) ::
      Translate(mem, p, va, Read, false) == Mapped(runs[i].paddr + (va - runs[i].vaddr))
  {
    hide Search, Translate, LeafFrame, PageOffset, AddrBits, LongModePaging;
    var root := AddrBits(p.cr3);
    TranslateIsSearch(mem, p, va);
    assert View(mem, root)(va) == DumpView(mem, root, va);
    if Covered(runs, va) {
      var i :| 0 <= i < |runs| && In(runs[i], va);
      assert View(mem, root)(va) == Some(runs[i].paddr + (va - runs[i].vaddr));
    }
  }

  /** What reading one byte of the core at `va` should give: the byte of physical memory that the emulator
      translates it to, if that was captured. */
  function ByteAt(mem: seq<byte>, p: Paging, va: nat): Option<seq<byte>>
    requires CoreFile.CAP <= |mem|
  {
    match Translate(mem, p, va, Read, false)
    case PageFault(_, _) => None
    case Mapped(pa) => if pa < CoreFile.CAP then Some([mem[pa]]) else None
  }

  lemma LoadedByte(mem: seq<byte>, p: Paging, runs: seq<Run>, notes: seq<byte>, va: nat)
    requires LongModePaging(p) && LargeLeavesAligned(mem, AddrBits(p.cr3)) && CoreFile.CAP <= |mem|
    requires Describes(View(mem, AddrBits(p.cr3)), runs, HIGHER_HALF, TWO64) && HIGHER_HALF <= va < TWO64
    ensures
      var kept := CoreFile.Kept(runs);
      var f := CoreFile.CoreBytes(kept, notes, mem[..CoreFile.CAP]);
      var loads := CoreFile.LoadList(kept, CoreFile.DataOff(|kept|, |notes|));
      CoreFile.ReadAt(f, loads, va, 1) == ByteAt(mem, p, va)
  {
    hide Search, Translate, AddrBits, LongModePaging, LargeLeavesAligned, View, CoreFile.CoreBytes, CoreFile.LoadList,
      CoreFile.Kept, CoreFile.DataOff, CoreFile.ReadAt, Sound, Complete, Ordered;
    RunsMatchTranslate(mem, p, runs, va);
    if Covered(runs, va) {
      var i :| 0 <= i < |runs| && In(runs[i], va);
      var pa := runs[i].paddr + (va - runs[i].vaddr);
      CoreFile.CoreReads(runs, HIGHER_HALF, TWO64, notes, mem, va, 1, pa);
      if pa < CoreFile.CAP {
        assert CoreFile.Readable(runs, va, 1, pa);
        assert mem[pa..pa + 1] == [mem[pa]];
      } else {
        Unreadable(runs, i, va);
      }
    } else {
      CoreFile.CoreReads(runs, HIGHER_HALF, TWO64, notes, mem, va, 1, 0);
      assert forall q :: CoreFile.Readable(runs, va, 1, q) ==> Covered(runs, va);
    }
  }

  /** The program headers fit their count. */
  predicate Counted(runs: seq<Run>) { 1 + |CoreFile.Kept(runs)| < TWO16 }

  ghost predicate Good(mem: seq<byte>, p: Paging, runs: seq<Run>, notes: seq<byte>) {
    && LongModePaging(p) && LargeLeavesAligned(mem, AddrBits(p.cr3)) && CoreFile.CAP <= |mem|
    && Describes(View(mem, AddrBits(p.cr3)), runs, HIGHER_HALF, TWO64)
    && |notes| < TWO32
  }

  function CoreOf(mem: seq<byte>, runs: seq<Run>, notes: seq<byte>): seq<byte>
    requires CoreFile.CAP <= |mem|
  {
    CoreFile.CoreBytes(CoreFile.Kept(runs), notes, mem[..CoreFile.CAP])
  }

  /** The reader can parse the file of any runs, and what it finds are their loads if the count fits. */
  lemma Parses(mem: seq<byte>, p: Paging, runs: seq<Run>, notes: seq<byte>)
    requires Good(mem, p, runs, notes)
    ensures
      var kept, f := CoreFile.Kept(runs), CoreOf(mem, runs, notes);
      && CoreFile.Encodable(kept, |notes|) && 64 <= |f| && Get(f, 0x20, 8) + Get(f, 0x38, 2) * 56 <= |f|
      && (Counted(runs) ==> CoreFile.Found(f) == CoreFile.LoadList(kept, CoreFile.DataOff(|kept|, |notes|)))
  {
    CoreFile.RunsEncodable(runs, HIGHER_HALF, |notes|);
    hide CoreFile.CoreBytes, CoreFile.Kept, CoreFile.Encodable, CoreFile.LoadList, CoreFile.DataOff, Get, CoreFile.Loads;
    CoreFile.ParseRecovers(CoreFile.Kept(runs), notes, mem[..CoreFile.CAP]);
  }

  /** The dump read back: for every higher-half address, reading one byte through the headers parsed from
      the file gives the byte of physical memory that the emulator translates it to, exactly when the
      headers fit their 16-bit count. */
  lemma CoreByte(mem: seq<byte>, p: Paging, runs: seq<Run>, notes: seq<byte>)
    requires Good(mem, p, runs, notes)
    ensures
      var f := CoreOf(mem, runs, notes);
      && 64 <= |f| && Get(f, 0x20, 8) + Get(f, 0x38, 2) * 56 <= |f|
      && ((forall va | HIGHER_HALF <= va < TWO64 ::
             CoreFile.ReadAt(f, CoreFile.Found(f), va, 1) == ByteAt(mem, p, va)) <==> Counted(runs))
  {
    Parses(mem, p, runs, notes);
    var f := CoreOf(mem, runs, notes);
    hide CoreOf, CoreFile.ReadAt, ByteAt, CoreFile.Found, Counted, Get;
    if Counted(runs) {
      forall va | HIGHER_HALF <= va < TWO64
        ensures CoreFile.ReadAt(f, CoreFile.Found(f), va, 1) == ByteAt(mem, p, va)
      {
        CountedByte(mem, p, runs, notes, va);
      }
    } else {
      var va := LostByte(mem, p, runs, notes);
      assert CoreFile.ReadAt(f, CoreFile.Found(f), va, 1) != ByteAt(mem, p, va);
    }
  }

  lemma CountedByte(mem: seq<byte>, p: Paging, runs: seq<Run>, notes: seq<byte>, va: nat)
    requires Good(mem, p, runs, notes) && Counted(runs) && HIGHER_HALF <= va < TWO64
    ensures
      var f := CoreOf(mem, runs, notes);
      && 64 <= |f| && Get(f, 0x20, 8) + Get(f, 0x38, 2) * 56 <= |f|
      && CoreFile.ReadAt(f, CoreFile.Found(f), va, 1) == ByteAt(mem, p, va)
  {
    Parses(mem, p, runs, notes);
    hide ByteAt, CoreFile.Found, Counted, Get, CoreFile.CoreBytes, CoreFile.Kept, CoreFile.ReadAt, CoreFile.LoadList,
      CoreFile.DataOff;
    LoadedByte(mem, p, runs, notes, va);
  }

  lemma LostByte(mem: seq<byte>, p: Paging, runs: seq<Run>, notes: seq<byte>) returns (va: nat)
    requires Good(mem, p, runs, notes) && !Counted(runs)
    ensures
      var f := CoreOf(mem, runs, notes);
      && HIGHER_HALF <= va < TWO64 && 64 <= |f| && Get(f, 0x20, 8) + Get(f, 0x38, 2) * 56 <= |f|
      && CoreFile.ReadAt(f, CoreFile.Found(f), va, 1) == None && ByteAt(mem, p, va).Some?
  {
    hide CoreFile.CoreBytes, CoreFile.Kept, CoreFile.ReadAt, CoreFile.Found, Get, LargeLeavesAligned, LongModePaging, AddrBits,
      Translate, View, CoreFile.Encodable, Sound, Complete, Ordered;
    Parses(mem, p, runs, notes);
    var i := CoreFile.LostRun(runs, HIGHER_HALF, TWO64, notes, mem[..CoreFile.CAP]);
    va := runs[i].vaddr;
    RunsMatchTranslate(mem, p, runs, va);
  }

  /** Dump a machine and read the dump back: walk the tables, write the core, parse its headers, read. Every
      load's file range lies inside the file; one byte reads as the emulator translates it, and a longer
      read gives the bytes of the run it lies in. */
  method DumpAndRead(mem: seq<byte>, p: Paging, notes: seq<byte>, va: nat, n: nat)
    returns (runs: seq<Run>, file: seq<byte>, loads: seq<CoreFile.Load>, found: seq<CoreFile.Extent>, r: Option<seq<byte>>)
    requires LongModePaging(p) && LargeLeavesAligned(mem, AddrBits(p.cr3)) && CoreFile.CAP <= |mem| && |notes| < TWO32
    requires InRam(mem, AddrBits(p.cr3), 0, 256) && HIGHER_HALF <= va < TWO64
    ensures Describes(View(mem, AddrBits(p.cr3)), runs, HIGHER_HALF, TWO64)
    ensures Counted(runs) ==> CoreFile.InFile(loads, file)
    ensures Counted(runs) ==> |found| == 1 && found[0].off + found[0].size <= |file|
                              && file[found[0].off..found[0].off + found[0].size] == notes
    ensures Counted(runs) && n == 1 ==> r == ByteAt(mem, p, va)
    ensures Counted(runs) && n > 0 ==> CoreFile.ReadsRun(runs, mem, va, n, r)
  {
    hide LongModePaging, LargeLeavesAligned, AddrBits, InRam, View, ByteAt, CoreFile.CoreBytes, CoreFile.Kept,
      CoreFile.Loads, CoreFile.ReadAt, CoreFile.Readable, Get, Describes, CoreFile.LoadList, Counted, CoreFile.Notes;
    runs := WalkRuns(mem, p.cr3);
    file := CoreFile.WriteCore(runs, notes, mem);
    Parses(mem, p, runs, notes);
    loads, found := CoreFile.ParseCore(file);
    r := CoreFile.Read(file, loads, va, n);
    if Counted(runs) {
      CountedNotes(mem, p, runs, notes);
      CountedReads(mem, p, runs, notes, va, n);
    }
  }

  lemma CountedNotes(mem: seq<byte>, p: Paging, runs: seq<Run>, notes: seq<byte>)
    requires Good(mem, p, runs, notes) && Counted(runs)
    ensures
      var f := CoreOf(mem, runs, notes);
      && 64 <= |f| && Get(f, 0x20, 8) + Get(f, 0x38, 2) * 56 <= |f|
      && var found := CoreFile.Notes(f, Get(f, 0x20, 8), Get(f, 0x38, 2));
      |found| == 1 && found[0].off + found[0].size <= |f| && f[found[0].off..found[0].off + found[0].size] == notes
  {
    hide *;
    Parses(mem, p, runs, notes);
    GoodSize(mem, p, runs, notes);
    CountFits(runs);
    CoreFile.NotesFound(CoreFile.Kept(runs), notes, mem[..CoreFile.CAP]);
    CoreIs(mem, runs, notes);
  }

  lemma GoodSize(mem: seq<byte>, p: Paging, runs: seq<Run>, notes: seq<byte>)
    requires Good(mem, p, runs, notes)
    ensures CoreFile.CAP <= |mem|
  {
  }

  lemma CountFits(runs: seq<Run>)
    requires Counted(runs)
    ensures (1 + |CoreFile.Kept(runs)|) % TWO16 != 0
  {
    hide CoreFile.Kept;
  }

  lemma CoreIs(mem: seq<byte>, runs: seq<Run>, notes: seq<byte>)
    requires CoreFile.CAP <= |mem|
    ensures CoreOf(mem, runs, notes) == CoreFile.CoreBytes(CoreFile.Kept(runs), notes, mem[..CoreFile.CAP])
  {
    hide CoreFile.CoreBytes, CoreFile.Kept;
  }

  lemma CountedReads(mem: seq<byte>, p: Paging, runs: seq<Run>, notes: seq<byte>, va: nat, n: nat)
    requires Good(mem, p, runs, notes) && Counted(runs) && HIGHER_HALF <= va < TWO64
    ensures
      var f := CoreOf(mem, runs, notes);
      && 64 <= |f| && Get(f, 0x20, 8) + Get(f, 0x38, 2) * 56 <= |f| && CoreFile.InFile(CoreFile.Found(f), f)
      && (n == 1 ==> CoreFile.ReadAt(f, CoreFile.Found(f), va, n) == ByteAt(mem, p, va))
      && (n > 0 ==> CoreFile.ReadsRun(runs, mem, va, n, CoreFile.ReadAt(f, CoreFile.Found(f), va, n)))
  {
    hide ByteAt, CoreFile.Found, Counted, Get, CoreFile.CoreBytes, CoreFile.Kept, CoreFile.ReadAt, CoreFile.LoadList,
      CoreFile.DataOff, LargeLeavesAligned, LongModePaging, AddrBits, View, Sound, Complete, Ordered, CoreFile.InFile,
      CoreFile.ReadsRun;
    Parses(mem, p, runs, notes);
    CountedByte(mem, p, runs, notes, va);
    CoreFile.RangesInFile(CoreFile.Kept(runs), notes, mem[..CoreFile.CAP]);
    if n > 0 {
      CoreFile.ReadsRuns(runs, HIGHER_HALF, TWO64, notes, mem, va, n);
    }
  }

  lemma Unreadable(runs: seq<Run>, i: nat, va: nat)
    requires Ordered(runs, HIGHER_HALF, TWO64) && i < |runs| && In(runs[i], va)
    requires runs[i].paddr + (va - runs[i].vaddr) >= CoreFile.CAP
    ensures !exists q :: CoreFile.Readable(runs, va, 1, q)
  {
    forall q
      ensures !CoreFile.Readable(runs, va, 1, q)
    {
      CoreFile.ReadableIs(runs, HIGHER_HALF, TWO64, runs[i], va, 1, q);
    }
  }

  // --- tables built by map_page -----------------------------------------------------------------

  lemma {:induction false} BuiltInRam(mem: seq<byte>, t: PT.Tree, root: nat, lo: nat, hi: nat, x: PT.Node)
    requires PT.Holds(mem, t, root, lo, hi) && x in t.tables && x.depth < 4
    ensures InRam(mem, t.tables[x], x.depth, 0)
    decreases 4 - x.depth
  {
    var f := t.tables[x];
    assert PT.TableOk(t, x, lo, hi);
    hide Present, IsLeaf, AddrBits, PT.TableOk;
    if x.depth < 3 {
      forall i | 0 <= i < 512 && Present(EntryAt(mem, f, i)) && !IsLeaf(EntryAt(mem, f, i), x.depth)
        ensures InRam(mem, AddrBits(EntryAt(mem, f, i)), x.depth + 1, 0)
      {
        var c := PT.Node(x.depth + 1, x.n * 512 + i);
        PT.EntryIsSound(mem, t, root, lo, hi, x, i);
        ChildTable(mem, t, x, i);
        BuiltInRam(mem, t, root, lo, hi, c);
      }
    }
  }

  lemma ChildTable(mem: seq<byte>, t: PT.Tree, x: PT.Node, i: nat)
    requires x in t.tables && x.depth < 3 && PT.EntrySound(mem, t, x, i)
    requires Present(PT.EntryOf(t, x, i)) && !IsLeaf(PT.EntryOf(t, x, i), x.depth)
    ensures PT.Node(x.depth + 1, x.n * 512 + i) in t.tables
    ensures AddrBits(PT.EntryOf(t, x, i)) == t.tables[PT.Node(x.depth + 1, x.n * 512 + i)]
  {
    var c := PT.Node(x.depth + 1, x.n * 512 + i);
    PT.ZeroEntry();
    hide AddrBits, Present, PageSize;
    if c in t.tables {
      PT.TableEntry(t.tables[c]);
    } else if x.depth == 2 && c.n in t.large {
      PT.LargeEntry(t.large[c.n]);
    }
  }

  lemma BuiltAligned(mem: seq<byte>, t: PT.Tree, root: nat, lo: nat, hi: nat)
    requires PT.Holds(mem, t, root, lo, hi)
    ensures LargeLeavesAligned(mem, root)
  {
    hide Search, LeafFrame, AddrBits, WalkFrom, PT.Holds, PT.Prefix;
    forall va: nat | HIGHER_HALF <= va < TWO64 && Search(mem, root, 0, va).Hit?
      ensures var h := Search(mem, root, 0, va); LeafFrame(h.entry, h.level) == AddrBits(h.entry)
    {
      PT.WalkTree(mem, t, root, lo, hi, va, false);
      WalkSearches(mem, root, 0, va, FullRights, false);
      PT.PagesAreSound(mem, t, root, lo, hi, va);
      if PT.LargePage(va) in t.large {
        PT.LargeEntry(t.large[PT.LargePage(va)]);
      } else {
        PT.TableEntry(t.small[PT.SmallPage(va)]);
      }
    }
  }

  /** For every list of `map_page` requests, the runs the dump walks out of the tables are exactly the last
      mapping of each higher-half page among the requests that take effect. */
  lemma DumpOfRequests(mem: seq<byte>, rs: seq<Mapping.Request>, root: nat, next: nat, lo: nat, hi: nat,
                       runs: seq<Run>, va: nat)
    requires PT.Holds(mem, Mapping.MapAll(Mapping.Fresh(root, next), rs).tree, root, lo, hi)
    requires Describes(View(mem, root), runs, HIGHER_HALF, TWO64) && HIGHER_HALF <= va < TWO64
    ensures InRam(mem, root, 0, 256)
    ensures forall i | 0 <= i < |runs| && In(runs[i], va) ::
      Mapping.LastMapping(Mapping.Effective(rs), va) == Some(runs[i].paddr + (va - runs[i].vaddr))
    ensures Covered(runs, va) <==> Mapping.LastMapping(Mapping.Effective(rs), va).Some?
  {
    hide Mapping.MapAll, Mapping.LastMapping, Mapping.Effective, PT.Holds;
    var t := Mapping.MapAll(Mapping.Fresh(root, next), rs).tree;
    BuiltRoot(mem, t, root, lo, hi);
    BuiltAligned(mem, t, root, lo, hi);
    var p := Paging(0x8000_0001, root, 0x20, 0xD00);
    Mapping.RunTranslates(mem, rs, root, next, lo, hi, p, va, Read, false);
    hide Translate, AddrBits, LongModePaging, LargeLeavesAligned, View, InRam;
    RunsMatchTranslate(mem, p, runs, va);
  }

  lemma BuiltRoot(mem: seq<byte>, t: PT.Tree, root: nat, lo: nat, hi: nat)
    requires PT.Holds(mem, t, root, lo, hi)
    ensures InRam(mem, root, 0, 256) && root < TWO52 && AddrBits(root) == root
    ensures var p := Paging(0x8000_0001, root, 0x20, 0xD00); LongModePaging(p)
  {
    assert PT.TableOk(t, PT.Root, lo, hi);
    BuiltInRam(mem, t, root, lo, hi, PT.Root);
    InRamFrom(mem, root);
  }

  lemma InRamFrom(mem: seq<byte>, root: nat)
    requires InRam(mem, root, 0, 0)
    ensures InRam(mem, root, 0, 256)
  {
    hide Present, IsLeaf, AddrBits;
  }
}
