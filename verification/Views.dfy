/** The page tables under a string instruction or an interrupt (emu/src/lib.rs over emu/src/mmu.rs): every
    access is translated by the tables as they are then, and as long as no store meets an entry a walk
    reads, the addresses let through stay the same from the first element or push to the last. */
module Views {
  import opened Bytes
  import opened Mmu
  import opened PageTables
  import opened PageTableUpdates
  import opened Wrappers
  import Alu
  import S = StringOps
  import I = Interrupts

  // --- stores that meet no walk --------------------------------------------------------------

  /** None of the entries the walk for `va` reads lies in the `n` bytes at `a`. */
  ghost predicate Off(mem: seq<byte>, table: nat, level: nat, va: nat, a: nat, n: nat)
    requires level < 4
    decreases 4 - level
  {
    var slot := table + Index(va, level) * 8;
    && (slot + 8 <= a || a + n <= slot)
    && (slot + 8 <= |mem| && Present(Get64(mem, slot)) && !IsLeaf(Get64(mem, slot), level) ==>
          Off(mem, AddrBits(Get64(mem, slot)), level + 1, va, a, n))
  }

  lemma GetElsewhere(mem: seq<byte>, mem': seq<byte>, a: nat, n: nat, slot: nat)
    requires SameOutside(mem, mem', a, a + n) && (slot + 8 <= a || a + n <= slot) && slot + 8 <= |mem|
    ensures Get64(mem', slot) == Get64(mem, slot)
  {
    assert mem'[slot..slot + 8] == mem[slot..slot + 8];
  }

  /** A store off a walk leaves the walk as it was, and off whatever it was off. */
  lemma {:induction false} WalkKept(mem: seq<byte>, mem': seq<byte>, table: nat, level: nat, va: nat, r: Rights, nxe: bool,
                                    a: nat, n: nat, b: nat, m: nat)
    requires level < 4 && SameOutside(mem, mem', a, a + n) && Off(mem, table, level, va, a, n)
    ensures WalkFrom(mem', table, level, va, r, nxe) == WalkFrom(mem, table, level, va, r, nxe)
    ensures Off(mem', table, level, va, b, m) <==> Off(mem, table, level, va, b, m)
    decreases 4 - level
  {
    hide Index, AddrBits, Present, PageSize, Get64, Narrow, SameOutside;
    var slot := table + Index(va, level) * 8;
    SameSize(mem, mem', a, n);
    if slot + 8 <= |mem| {
      GetElsewhere(mem, mem', a, n, slot);
      var e := Get64(mem, slot);
      if Present(e) && !IsLeaf(e, level) {
        WalkKept(mem, mem', AddrBits(e), level + 1, va, Narrow(r, e, nxe), nxe, a, n, b, m);
      }
    }
  }

  lemma SameSize(mem: seq<byte>, mem': seq<byte>, a: nat, n: nat)
    requires SameOutside(mem, mem', a, a + n)
    ensures |mem'| == |mem|
  {
  }

  /** No walk reads these bytes. */
  ghost predicate OffAll(mem: seq<byte>, p: Paging, a: nat, n: nat) {
    forall va: nat {:trigger Off(mem, AddrBits(p.cr3), 0, va, a, n)} :: Off(mem, AddrBits(p.cr3), 0, va, a, n)
  }

  lemma OffAllKept(mem: seq<byte>, mem': seq<byte>, p: Paging, a: nat, n: nat, b: nat, m: nat)
    requires SameOutside(mem, mem', a, a + n) && OffAll(mem, p, a, n)
    ensures OffAll(mem', p, b, m) <==> OffAll(mem, p, b, m)
  {
    hide Off, SameOutside, AddrBits;
    forall va: nat
      ensures Off(mem', AddrBits(p.cr3), 0, va, b, m) <==> Off(mem, AddrBits(p.cr3), 0, va, b, m)
    {
      WalkKept(mem, mem', AddrBits(p.cr3), 0, va, FullRights, NxEnabled(p), a, n, b, m);
    }
  }

  lemma TranslateKept(mem: seq<byte>, mem': seq<byte>, p: Paging, a: nat, n: nat, va: nat, access: Access, user: bool)
    requires SameOutside(mem, mem', a, a + n) && OffAll(mem, p, a, n)
    ensures Translate(mem', p, va, access, user) == Translate(mem, p, va, access, user)
  {
    hide WalkFrom, Off, SameOutside, AddrBits, LeafFrame, PageOffset, LongModePaging, Canonical, NxEnabled;
    assert Off(mem, AddrBits(p.cr3), 0, va, a, n);
    WalkKept(mem, mem', AddrBits(p.cr3), 0, va, FullRights, NxEnabled(p), a, n, 0, 0);
  }

  /** In memory that holds a tree, a present entry that is no leaf leads to another of its tables. */
  lemma NextTable(mem: seq<byte>, t: Tree, x: Node, i: nat)
    requires x in t.tables && x.depth <= 3 && EntrySound(mem, t, x, i)
    ensures
      var e, c := Get64(mem, t.tables[x] + 8 * i), Node(x.depth + 1, x.n * 512 + i);
      Present(e) && !IsLeaf(e, x.depth) ==> x.depth < 3 && c in t.tables && AddrBits(e) == t.tables[c]
  {
    hide Get64, AddrBits, Present, Writable, User, PageSize, NoExecute, LeafFrame;
    var c := Node(x.depth + 1, x.n * 512 + i);
    ZeroEntry();
    if x.depth < 3 && c in t.tables {
      TableEntry(t.tables[c]);
    } else if x.depth == 2 && c.n in t.large {
      LargeEntry(t.large[c.n]);
    }
  }

  lemma {:induction false} OffTables(mem: seq<byte>, t: Tree, root: nat, lo: nat, hi: nat, x: Node, va: nat, a: nat, n: nat)
    requires Holds(mem, t, root, lo, hi) && x in t.tables && x.depth <= 3 && (a + n <= lo || hi <= a)
    ensures Off(mem, t.tables[x], x.depth, va, a, n)
    decreases 4 - x.depth
  {
    assert TableOk(t, x, lo, hi);
    hide Get64, AddrBits, Present, PageSize, Index, Holds, EntryOf;
    var i := Index(va, x.depth);
    EntryIsSound(mem, t, root, lo, hi, x, i);
    NextTable(mem, t, x, i);
    var e, c := Get64(mem, t.tables[x] + 8 * i), Node(x.depth + 1, x.n * 512 + i);
    if Present(e) && !IsLeaf(e, x.depth) {
      OffTables(mem, t, root, lo, hi, c, va, a, n);
    }
  }

  /** Tables built by `map_page` are read by no walk outside the frames they were given. */
  lemma BuiltApart(mem: seq<byte>, t: Tree, root: nat, lo: nat, hi: nat, p: Paging, a: nat, n: nat)
    requires Holds(mem, t, root, lo, hi) && AddrBits(p.cr3) == root && (a + n <= lo || hi <= a)
    ensures OffAll(mem, p, a, n)
  {
    hide Off, AddrBits;
    forall va: nat
      ensures Off(mem, AddrBits(p.cr3), 0, va, a, n)
    {
      OffTables(mem, t, root, lo, hi, Root, va, a, n);
    }
  }

  // --- the addresses let through -------------------------------------------------------------

  ghost function Through(mem: seq<byte>, p: Paging, access: Access, user: bool): (m: map<u64, nat>) {
    map a: u64 {:trigger Translate(mem, p, a, access, user)} | 0 <= a < TWO64 && Translate(mem, p, a, access, user).Mapped? ::
      Translate(mem, p, a, access, user).pa
  }

  /** What the tables let through now. */
  ghost function ViewNow(mem: seq<byte>, p: Paging, user: bool): S.View {
    S.View(Through(mem, p, Access.Read, user), Through(mem, p, Access.Write, user))
  }

  lemma ThroughKept(mem: seq<byte>, mem': seq<byte>, p: Paging, a: nat, n: nat, access: Access, user: bool)
    requires SameOutside(mem, mem', a, a + n) && OffAll(mem, p, a, n)
    ensures Through(mem', p, access, user) == Through(mem, p, access, user)
  {
    hide Translate, SameOutside, OffAll;
    forall va: u64
      ensures Translate(mem', p, va, access, user) == Translate(mem, p, va, access, user)
    {
      TranslateKept(mem, mem', p, a, n, va, access, user);
    }
  }

  lemma ViewKept(mem: seq<byte>, mem': seq<byte>, p: Paging, a: nat, n: nat, user: bool)
    requires SameOutside(mem, mem', a, a + n) && OffAll(mem, p, a, n)
    ensures ViewNow(mem', p, user) == ViewNow(mem, p, user)
  {
    hide Through, SameOutside, OffAll;
    ThroughKept(mem, mem', p, a, n, Access.Read, user);
    ThroughKept(mem, mem', p, a, n, Access.Write, user);
  }

  // --- string instructions -------------------------------------------------------------------

  predicate Storing(i: S.Insn) { i.op == S.Movs || i.op == S.Stos }

  /** None of the next `n` elements from `r` is stored over an entry a walk reads. */
  ghost predicate Safe(mem: seq<byte>, p: Paging, i: S.Insn, e: S.View, r: u64, n: nat)
    decreases n
  {
    n == 0 || ((r in e.write ==> OffAll(mem, p, e.write[r], i.size)) && Safe(mem, p, i, e, S.Next(i, r), n - 1))
  }

  lemma {:induction false} SafeKept(mem: seq<byte>, mem': seq<byte>, p: Paging, i: S.Insn, e: S.View, r: u64, n: nat,
                                    a: nat, m: nat)
    requires SameOutside(mem, mem', a, a + m) && OffAll(mem, p, a, m) && Safe(mem, p, i, e, r, n)
    ensures Safe(mem', p, i, e, r, n)
    decreases n
  {
    hide OffAll, SameOutside, S.Next;
    if n > 0 {
      if r in e.write {
        OffAllKept(mem, mem', p, a, m, e.write[r], i.size);
      }
      SafeKept(mem, mem', p, i, e, S.Next(i, r), n - 1, a, m);
    }
  }

  /** The loop with every element translated by the tables as they are when it is reached. */
  ghost function LoopNow(i: S.Insn, p: Paging, user: bool, s: S.State, count: u64): S.Outcome
    requires Alu.Width(i.size)
    decreases count
  {
    if count == 0 then S.Ended(s)
    else
      match S.Once(i, ViewNow(s.mem, p, user), s)
      case Stuck(a) => S.Faulted(a, s)
      case Done(t) =>
        var u := S.Counted(i, t, count - 1);
        if S.Stops(i, u.flags) then S.Ended(u) else LoopNow(i, p, user, u, count - 1)
  }

  /** What an element does to memory. */
  lemma OnceStores(i: S.Insn, e: S.View, s: S.State)
    requires Alu.Width(i.size) && S.Once(i, e, s).Done?
    ensures
      var t := S.Once(i, e, s).st;
      if Storing(i) then
        && t.rdi == S.Next(i, s.rdi) && s.rdi in e.write
        && SameOutside(s.mem, t.mem, e.write[s.rdi], e.write[s.rdi] + i.size)
      else t.mem == s.mem
  {
    hide S.Next, S.Merge, S.Compared, Get, Le;
  }

  /** Translating every element anew is the same as fixing the view at the start, when no element is stored
      over the tables. */
  lemma {:induction false} ViewStays(i: S.Insn, p: Paging, user: bool, s: S.State, count: u64)
    requires Alu.Width(i.size)
    requires Storing(i) ==> Safe(s.mem, p, i, ViewNow(s.mem, p, user), s.rdi, count)
    ensures LoopNow(i, p, user, s, count) == S.Loop(i, ViewNow(s.mem, p, user), s, count)
    decreases count
  {
    hide S.Once, ViewNow, SameOutside, OffAll, S.Next, Alu.Width, S.Stops;
    var e := ViewNow(s.mem, p, user);
    if count > 0 && S.Once(i, e, s).Done? {
      OnceStores(i, e, s);
      var t := S.Once(i, e, s).st;
      if Storing(i) {
        ViewKept(s.mem, t.mem, p, e.write[s.rdi], i.size, user);
        SafeKept(s.mem, t.mem, p, i, e, t.rdi, count - 1, e.write[s.rdi], i.size);
      }
      ViewStays(i, p, user, S.Counted(i, t, count - 1), count - 1);
    }
  }

  // --- interrupts ------------------------------------------------------------------------------

  /** None of the next `n` pushes below `rsp` meets an entry a walk reads. */
  ghost predicate SafePushes(mem: seq<byte>, p: Paging, c: I.Config, rsp: u64, n: nat)
    decreases n
  {
    n == 0
    || var a := I.Add(rsp, -8);
       (a in c.view ==> OffAll(mem, p, c.view[a], 8)) && SafePushes(mem, p, c, a, n - 1)
  }

  lemma {:induction false} SafePushesKept(mem: seq<byte>, mem': seq<byte>, p: Paging, c: I.Config, rsp: u64, n: nat,
                                          a: nat, m: nat)
    requires SameOutside(mem, mem', a, a + m) && OffAll(mem, p, a, m) && SafePushes(mem, p, c, rsp, n)
    ensures SafePushes(mem', p, c, rsp, n)
    decreases n
  {
    hide OffAll, SameOutside, I.Add;
    if n > 0 {
      var b := I.Add(rsp, -8);
      if b in c.view {
        OffAllKept(mem, mem', p, a, m, c.view[b], 8);
      }
      SafePushesKept(mem, mem', p, c, b, n - 1, a, m);
    }
  }

  lemma PushStores(c: I.Config, s: I.State, v: u64)
    ensures
      var (ok, t) := I.Push(c, s, v);
      var a := I.Add(s.rsp, -8);
      t.rsp == a && if ok then a in c.view && SameOutside(s.mem, t.mem, c.view[a], c.view[a] + 8) else t.mem == s.mem
  {
    hide I.Add, Le;
  }

  lemma {:induction false} PushesKeepView(c: I.Config, s: I.State, vs: seq<u64>, p: Paging, user: bool)
    requires SafePushes(s.mem, p, c, s.rsp, |vs|)
    ensures ViewNow(I.PushAll(c, s, vs).1.mem, p, user) == ViewNow(s.mem, p, user)
    decreases |vs|
  {
    hide ViewNow, SameOutside, OffAll, I.Add, I.Push;
    if vs != [] {
      PushStores(c, s, vs[0]);
      var (ok, t) := I.Push(c, s, vs[0]);
      if ok {
        var a := c.view[t.rsp];
        ViewKept(s.mem, t.mem, p, a, 8, user);
        SafePushesKept(s.mem, t.mem, p, c, t.rsp, |vs| - 1, a, 8);
        PushesKeepView(c, t, vs[1..], p, user);
      }
    }
  }

  /** A delivery, whether it succeeds or not, leaves every translation as it was when the frame is pushed
      clear of the tables. */
  lemma DeliverKeepsView(c: I.Config, s: I.State, vector: nat, error: Option<u64>, p: Paging, user: bool)
    requires
      var lo := I.Gate(c, s.mem, vector).0;
      lo.Some? ==> SafePushes(s.mem, p, c, I.Entered(c, s, I.Selector(lo.value) % 4).rsp, |I.Pushed(s, error)|)
    ensures ViewNow(I.Deliver(c, s, vector, error).1.mem, p, user) == ViewNow(s.mem, p, user)
  {
    hide ViewNow, SafePushes, I.PushAll, I.Pushed, I.Gate, I.KernelStack, I.ClearIf, I.Offset, I.TypeAttr, I.Selector;
    var lo := I.Gate(c, s.mem, vector).0;
    if lo.Some? {
      PushesKeepView(c, I.Entered(c, s, I.Selector(lo.value) % 4), I.Pushed(s, error), p, user);
    }
  }
}
