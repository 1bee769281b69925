/** What one write to a page table does to the tree it holds: adding a table, and setting a small or a
    large leaf. Each keeps `Holds`, so building tables for one page disturbs no other. */
module PageTableUpdates {
  import opened Bytes
  import opened Mmu
  import opened PageTables

  function AddTable(t: Tree, c: Node, f: nat): Tree {
    t.(tables := t.tables[c := f], owner := t.owner[f := c])
  }

  function SetSmall(t: Tree, v: nat, pa: nat): Tree {
    t.(small := t.small[v := pa])
  }

  /** A large leaf replaces whatever table its slot had: the 4 KiB mappings under it are gone. */
  function SetLarge(t: Tree, s: nat, pa: nat): Tree {
    t.(tables := t.tables - {Node(3, s)},
       small := map v | v in t.small && v / 512 != s :: t.small[v],
       large := t.large[s := pa])
  }

  /** The frame at `f` cleared. */
  function Zeroed(mem: seq<byte>, f: nat): (m: seq<byte>)
    requires f + PAGE <= |mem|
    ensures |m| == |mem|
    ensures forall k {:trigger m[k]} | 0 <= k < |mem| :: m[k] == if f <= k < f + PAGE then 0 else mem[k]
  {
    mem[..f] + seq(PAGE, _ => 0) + mem[f + PAGE..]
  }

  ghost predicate SameOutside(mem: seq<byte>, mem': seq<byte>, lo: nat, hi: nat) {
    && |mem'| == |mem|
    && forall k | 0 <= k < |mem| && !(lo <= k < hi) :: mem'[k] == mem[k]
  }

  lemma SameOutsideTwice(mem: seq<byte>, mem': seq<byte>, mem'': seq<byte>, lo: nat, mid: nat, hi: nat)
    requires SameOutside(mem, mem', lo, mid) && SameOutside(mem', mem'', lo, hi) && mid <= hi
    ensures SameOutside(mem, mem'', lo, hi)
  {
  }

  lemma SlotsDiffer(f: nat, i: nat, g: nat, j: nat)
    requires f % PAGE == 0 && g % PAGE == 0 && i < 512 && j < 512
    requires f != g || i != j
    ensures f + 8 * i + 8 <= g + 8 * j || g + 8 * j + 8 <= f + 8 * i
  {
    if f < g {
      assert f + PAGE <= g;
    } else if g < f {
      assert g + PAGE <= f;
    }
  }

  lemma ChildrenDiffer(m: nat, i: nat, n: nat, j: nat)
    requires i < 512 && j < 512 && m * 512 + i == n * 512 + j
    ensures m == n && i == j
  {
  }

  /** Writing one entry leaves every other entry of the tree as it was. */
  lemma OtherEntryKept(mem: seq<byte>, t: Tree, root: nat, lo: nat, hi: nat, x: Node, i: nat, v: nat, y: Node, j: nat)
    requires Shape(t, root, lo, hi) && hi <= |mem|
    requires x in t.tables && y in t.tables && i < 512 && j < 512 && (x != y || i != j)
    ensures t.tables[x] + 8 * i + 8 <= |mem| && t.tables[y] + 8 * j + 8 <= |mem|
    ensures Get64(Put64(mem, t.tables[x] + 8 * i, v), t.tables[y] + 8 * j) == Get64(mem, t.tables[y] + 8 * j)
  {
    hide Get64, Put64;
    assert TableOk(t, x, lo, hi) && TableOk(t, y, lo, hi);
    hide Shape, TableOk;
    SlotsDiffer(t.tables[x], i, t.tables[y], j);
    Get64Frame(mem, Put64(mem, t.tables[x] + 8 * i, v), t.tables[y] + 8 * j);
  }

  /** A write outside the tables leaves the tree as it was. */
  lemma HoldsFrame(mem: seq<byte>, mem': seq<byte>, t: Tree, root: nat, lo: nat, hi: nat)
    requires Holds(mem, t, root, lo, hi) && |mem'| == |mem|
    requires forall k | lo <= k < hi :: mem'[k] == mem[k]
    ensures Holds(mem', t, root, lo, hi)
  {
    forall x, i | x in t.tables && 0 <= i < 512
      ensures EntryMatches(mem', t, x, i)
    {
      assert TableOk(t, x, lo, hi) && EntryMatches(mem, t, x, i);
      Get64Frame(mem, mem', t.tables[x] + 8 * i);
    }
  }

  // --- a new table ------------------------------------------------------------------------------

  lemma AddTableShape(t: Tree, root: nat, lo: nat, hi: nat, x: Node, i: nat)
    requires Shape(t, root, lo, hi) && x in t.tables && x.depth < 3 && i < 512
    requires hi % PAGE == 0 && lo <= hi && hi + PAGE <= TWO52
    requires Node(x.depth + 1, x.n * 512 + i) !in t.tables
    requires x.depth == 2 ==> x.n * 512 + i !in t.large
    ensures Shape(AddTable(t, Node(x.depth + 1, x.n * 512 + i), hi), root, lo, hi + PAGE)
  {
    var c := Node(x.depth + 1, x.n * 512 + i);
    var t' := AddTable(t, c, hi);
    forall y | y in t'.tables
      ensures TableOk(t', y, lo, hi + PAGE)
    {
      if y == c {
        assert c.n / 512 == x.n;
      } else {
        assert TableOk(t, y, lo, hi);
      }
    }
    forall s | s in t'.large
      ensures LargeOk(t', s)
    {
      assert LargeOk(t, s);
    }
    forall v | v in t'.small
      ensures SmallOk(t', v)
    {
      assert SmallOk(t, v);
    }
  }

  /** A table that is not there yet has no children and no leaves. */
  lemma NewTableIsEmpty(t: Tree, root: nat, lo: nat, hi: nat, c: Node, j: nat)
    requires Shape(t, root, lo, hi) && c !in t.tables && 0 < c.depth <= 3 && j < 512
    ensures EntryOf(AddTable(t, c, hi), c, j) == 0
  {
    var k := Node(c.depth + 1, c.n * 512 + j);
    assert k.n / 512 == c.n;
    assert k in t.tables ==> TableOk(t, k, lo, hi);
    assert k.n in t.small ==> SmallOk(t, k.n);
    assert k.n in t.large ==> LargeOk(t, k.n);
  }

  lemma ZeroedEntry(mem: seq<byte>, f: nat, j: nat)
    requires f + PAGE <= |mem| && j < 512
    ensures Get64(Zeroed(mem, f), f + 8 * j) == 0
  {
    ZeroValue(Zeroed(mem, f)[f + 8 * j..f + 8 * j + 8]);
  }

  lemma AddTableEntryOf(t: Tree, x: Node, i: nat, f: nat, y: Node, j: nat)
    requires i < 512 && j < 512 && x.depth < 3 && y != Node(x.depth + 1, x.n * 512 + i)
    ensures EntryOf(AddTable(t, Node(x.depth + 1, x.n * 512 + i), f), y, j) ==
            if x == y && i == j then f + 3 else EntryOf(t, y, j)
  {
    if y.n * 512 + j == x.n * 512 + i {
      ChildrenDiffer(x.n, i, y.n, j);
    }
  }

  lemma AddTableEntry(mem: seq<byte>, t: Tree, root: nat, lo: nat, hi: nat, x: Node, i: nat, y: Node, j: nat)
    requires Holds(mem, t, root, lo, hi) && x in t.tables && i < 512 && j < 512
    requires hi + PAGE <= |mem| && t.tables[x] + 8 * i + 8 <= |mem| && hi + 3 < TWO64
    requires Node(x.depth + 1, x.n * 512 + i) !in t.tables && x.depth < 3 && y in t.tables
    ensures EntryMatches(Put64(Zeroed(mem, hi), t.tables[x] + 8 * i, hi + 3),
                         AddTable(t, Node(x.depth + 1, x.n * 512 + i), hi), y, j)
  {
    hide Get64, Put64, Zeroed;
    var t' := AddTable(t, Node(x.depth + 1, x.n * 512 + i), hi);
    HoldsFrame(mem, Zeroed(mem, hi), t, root, lo, hi);
    AddTableEntryOf(t, x, i, hi, y, j);
    WrittenEntry(Zeroed(mem, hi), t, root, lo, hi, x, i, hi + 3, t', y, j);
  }

  lemma NewTableEntry(mem: seq<byte>, t: Tree, root: nat, lo: nat, hi: nat, x: Node, i: nat, j: nat)
    requires Holds(mem, t, root, lo, hi) && x in t.tables && x.depth < 3 && i < 512 && j < 512
    requires hi + PAGE <= |mem| && t.tables[x] + 8 * i + 8 <= hi
    requires Node(x.depth + 1, x.n * 512 + i) !in t.tables
    ensures EntryMatches(Put64(Zeroed(mem, hi), t.tables[x] + 8 * i, hi + 3),
                         AddTable(t, Node(x.depth + 1, x.n * 512 + i), hi), Node(x.depth + 1, x.n * 512 + i), j)
  {
    hide Get64, Put64, Zeroed;
    var c := Node(x.depth + 1, x.n * 512 + i);
    ZeroedEntry(mem, hi, j);
    NewTableIsEmpty(t, root, lo, hi, c, j);
    hide Holds, EntryOf;
    Get64Frame(Zeroed(mem, hi), Put64(Zeroed(mem, hi), t.tables[x] + 8 * i, hi + 3), hi + 8 * j);
  }

  /** `ensure_table` when the entry is absent: a cleared frame at `hi`, then the entry pointing at it. */
  lemma AddTableHolds(mem: seq<byte>, t: Tree, root: nat, lo: nat, hi: nat, x: Node, i: nat)
    requires Holds(mem, t, root, lo, hi) && x in t.tables && x.depth < 3 && i < 512
    requires hi % PAGE == 0 && lo <= hi && hi + PAGE <= TWO52 && hi + PAGE <= |mem|
    requires Node(x.depth + 1, x.n * 512 + i) !in t.tables
    requires x.depth == 2 ==> x.n * 512 + i !in t.large
    ensures t.tables[x] + 8 * i + 8 <= hi
    ensures var mem' := Put64(Zeroed(mem, hi), t.tables[x] + 8 * i, hi + 3);
      && Holds(mem', AddTable(t, Node(x.depth + 1, x.n * 512 + i), hi), root, lo, hi + PAGE)
      && SameOutside(mem, mem', lo, hi + PAGE)
  {
    var c := Node(x.depth + 1, x.n * 512 + i);
    AddTableShape(t, root, lo, hi, x, i);
    assert TableOk(t, x, lo, hi);
    hide Put64, Zeroed, Get64;
    var t', mem' := AddTable(t, c, hi), Put64(Zeroed(mem, hi), t.tables[x] + 8 * i, hi + 3);
    forall y, j | y in t'.tables && 0 <= j < 512
      ensures EntryMatches(mem', t', y, j)
    {
      if y == c {
        NewTableEntry(mem, t, root, lo, hi, x, i, j);
      } else {
        AddTableEntry(mem, t, root, lo, hi, x, i, y, j);
      }
    }
  }

  // --- a small leaf -----------------------------------------------------------------------------

  lemma SetSmallEntryOf(t: Tree, x: Node, i: nat, pa: nat, y: Node, j: nat)
    requires x.depth == 3 && i < 512 && j < 512
    ensures EntryOf(SetSmall(t, x.n * 512 + i, pa), y, j) == if x == y && i == j then pa + 3 else EntryOf(t, y, j)
  {
    if y.n * 512 + j == x.n * 512 + i {
      ChildrenDiffer(x.n, i, y.n, j);
    }
  }

  lemma SetSmallShape(t: Tree, root: nat, lo: nat, hi: nat, x: Node, i: nat, pa: nat)
    requires Shape(t, root, lo, hi) && x in t.tables && x.depth == 3 && i < 512
    requires pa % PAGE == 0 && pa < TWO52
    ensures Shape(SetSmall(t, x.n * 512 + i, pa), root, lo, hi)
  {
    var v := x.n * 512 + i;
    var t' := SetSmall(t, v, pa);
    assert v / 512 == x.n;
    forall y | y in t'.tables
      ensures TableOk(t', y, lo, hi)
    {
      assert TableOk(t, y, lo, hi);
    }
    forall s | s in t'.large
      ensures LargeOk(t', s)
    {
      assert LargeOk(t, s);
    }
    forall w | w in t'.small
      ensures SmallOk(t', w)
    {
      assert w != v ==> SmallOk(t, w);
    }
  }

  lemma SetSmallHolds(mem: seq<byte>, t: Tree, root: nat, lo: nat, hi: nat, x: Node, i: nat, pa: nat)
    requires Holds(mem, t, root, lo, hi) && x in t.tables && x.depth == 3 && i < 512
    requires pa % PAGE == 0 && pa < TWO52
    ensures t.tables[x] + 8 * i + 8 <= hi
    ensures var mem' := Put64(mem, t.tables[x] + 8 * i, pa + 3);
      && Holds(mem', SetSmall(t, x.n * 512 + i, pa), root, lo, hi)
      && SameOutside(mem, mem', lo, hi)
  {
    assert TableOk(t, x, lo, hi);
    SetSmallShape(t, root, lo, hi, x, i, pa);
    hide Put64, Get64;
    var t', mem' := SetSmall(t, x.n * 512 + i, pa), Put64(mem, t.tables[x] + 8 * i, pa + 3);
    forall y, j | y in t'.tables && 0 <= j < 512
      ensures EntryMatches(mem', t', y, j)
    {
      SetSmallEntryOf(t, x, i, pa, y, j);
      WrittenEntry(mem, t, root, lo, hi, x, i, pa + 3, t', y, j);
    }
  }

  /** An entry matches the new tree if it is the one written and the tree says so, or if neither the
      write nor the tree touched it. */
  lemma WrittenEntry(mem: seq<byte>, t: Tree, root: nat, lo: nat, hi: nat, x: Node, i: nat, e: nat,
                     t': Tree, y: Node, j: nat)
    requires Holds(mem, t, root, lo, hi) && x in t.tables && y in t.tables && i < 512 && j < 512
    requires y in t'.tables && t'.tables[y] == t.tables[y] && e < TWO64
    requires t.tables[x] + 8 * i + 8 <= |mem|
    requires EntryOf(t', y, j) == if x == y && i == j then e else EntryOf(t, y, j)
    ensures EntryMatches(Put64(mem, t.tables[x] + 8 * i, e), t', y, j)
  {
    hide Get64, Put64, EntryOf;
    assert EntryMatches(mem, t, y, j);
    if x == y && i == j {
      Get64Put64(mem, t.tables[x] + 8 * i, e);
    } else {
      OtherEntryKept(mem, t, root, lo, hi, x, i, e, y, j);
    }
  }

  // --- a large leaf -----------------------------------------------------------------------------

  lemma SetLargeEntryOf(t: Tree, x: Node, i: nat, pa: nat, y: Node, j: nat)
    requires x.depth == 2 && i < 512 && j < 512 && y != Node(3, x.n * 512 + i)
    ensures EntryOf(SetLarge(t, x.n * 512 + i, pa), y, j) == if x == y && i == j then pa + 0x83 else EntryOf(t, y, j)
  {
    if y.n * 512 + j == x.n * 512 + i {
      ChildrenDiffer(x.n, i, y.n, j);
    }
    assert (y.n * 512 + j) / 512 == y.n;
  }

  lemma SetLargeShape(t: Tree, root: nat, lo: nat, hi: nat, x: Node, i: nat, pa: nat)
    requires Shape(t, root, lo, hi) && x in t.tables && x.depth == 2 && i < 512
    requires pa % LARGE == 0 && pa < TWO52
    ensures Shape(SetLarge(t, x.n * 512 + i, pa), root, lo, hi)
  {
    var s := x.n * 512 + i;
    var t' := SetLarge(t, s, pa);
    assert s / 512 == x.n;
    forall y | y in t'.tables
      ensures TableOk(t', y, lo, hi)
    {
      assert TableOk(t, y, lo, hi);
    }
    forall r | r in t'.large
      ensures LargeOk(t', r)
    {
      assert r != s ==> LargeOk(t, r);
    }
    forall w | w in t'.small
      ensures SmallOk(t', w)
    {
      assert SmallOk(t, w);
    }
  }

  lemma SetLargeHolds(mem: seq<byte>, t: Tree, root: nat, lo: nat, hi: nat, x: Node, i: nat, pa: nat)
    requires Holds(mem, t, root, lo, hi) && x in t.tables && x.depth == 2 && i < 512
    requires pa % LARGE == 0 && pa < TWO52
    ensures t.tables[x] + 8 * i + 8 <= hi
    ensures var mem' := Put64(mem, t.tables[x] + 8 * i, pa + 0x83);
      && Holds(mem', SetLarge(t, x.n * 512 + i, pa), root, lo, hi)
      && SameOutside(mem, mem', lo, hi)
  {
    assert TableOk(t, x, lo, hi);
    SetLargeShape(t, root, lo, hi, x, i, pa);
    hide Put64, Get64;
    var t', mem' := SetLarge(t, x.n * 512 + i, pa), Put64(mem, t.tables[x] + 8 * i, pa + 0x83);
    forall y, j | y in t'.tables && 0 <= j < 512
      ensures EntryMatches(mem', t', y, j)
    {
      SetLargeEntryOf(t, x, i, pa, y, j);
      WrittenEntry(mem, t, root, lo, hi, x, i, pa + 0x83, t', y, j);
    }
  }
}
