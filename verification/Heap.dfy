/** The C heap of `msvcrt/src/lib.rs`: `malloc`, `free` and `realloc` over raw block headers in memory.
    A block is its 16-byte header (total size at +0, free-list link at +8) and its payload. Addresses
    index the memory the arenas live in; null is 0. What `NtAllocateVirtualMemory` answers is a parameter. */
module Heap {
  import opened Bytes

  const CHUNK: nat := 0x1_0000

  function Align16(x: nat): nat { (x + 15) / 16 * 16 }

  /** The total size `malloc` asks for: the request and its header, in sixteens. */
  function Want(size: nat): nat { Align16(size + 16) }

  function ChunkFor(want: nat): nat { if want > CHUNK then Align16(want) else CHUNK }

  /** Header address to total size, for every block ever carved. */
  type Blocks = map<nat, nat>

  ghost predicate BlockOk(bs: Blocks, h: nat, limit: nat)
    requires h in bs
  {
    0 < h && h % 16 == 0 && 16 <= bs[h] && bs[h] % 16 == 0 && h + bs[h] <= limit && bs[h] < TWO64 && h < TWO64
  }

  predicate Apart(a: nat, an: nat, b: nat, bn: nat) { a + an <= b || b + bn <= a }

  ghost predicate Carved(bs: Blocks, limit: nat) {
    && (forall h {:trigger BlockOk(bs, h, limit)} | h in bs :: BlockOk(bs, h, limit))
    && (forall a, b {:trigger Apart(a, bs[a], b, bs[b])} | a in bs && b in bs && a != b :: Apart(a, bs[a], b, bs[b]))
  }

  /** No block reaches into the unused rest of the current arena. */
  ghost predicate Rest(bs: Blocks, bump: nat, bumpEnd: nat, limit: nat) {
    && bump <= bumpEnd <= limit && bump % 16 == 0
    && forall h | h in bs :: Apart(h, bs[h], bump, bumpEnd - bump)
  }

  /** Each header holds its block's size. */
  ghost predicate Headers(mem: seq<byte>, bs: Blocks) {
    forall h | h in bs :: h + 16 <= |mem| && Get64(mem, h) == bs[h]
  }

  function Link(free: seq<nat>, i: nat): nat { if i < |free| then free[i] else 0 }

  ghost predicate LinkOk(mem: seq<byte>, bs: Blocks, free: seq<nat>, i: nat)
    requires i < |free|
  {
    free[i] in bs && free[i] + 16 <= |mem| && Get64(mem, free[i] + 8) == Link(free, i + 1)
  }

  ghost predicate Distinct(s: seq<nat>) {
    forall i, j | 0 <= i < j < |s| :: s[i] != s[j]
  }

  /** The free list in memory is `free`. */
  ghost predicate Chained(mem: seq<byte>, bs: Blocks, free: seq<nat>, head: nat) {
    && head == Link(free, 0)
    && Distinct(free)
    && (forall i {:trigger LinkOk(mem, bs, free, i)} | 0 <= i < |free| :: LinkOk(mem, bs, free, i))
  }

  /** A write of a block's link field touches no size, no other link and no payload. */
  lemma LinkApart(bs: Blocks, limit: nat, b: nat, h: nat)
    requires Carved(bs, limit) && b in bs && h in bs
    ensures b + 16 <= limit && h + 16 <= limit
    ensures h + 8 <= b + 8 || b + 16 <= h
    ensures h != b ==> (h + 16 <= b + 8 || b + 16 <= h + 8)
  {
    assert BlockOk(bs, b, limit) && BlockOk(bs, h, limit);
    if h != b {
      assert Apart(h, bs[h], b, bs[b]);
    }
  }

  lemma LinkKeepsHeaders(mem: seq<byte>, bs: Blocks, b: nat, v: nat)
    requires Carved(bs, |mem|) && Headers(mem, bs) && b in bs && b + 16 <= |mem|
    ensures Headers(Put64(mem, b + 8, v), bs)
  {
    hide Get64, Put64, Carved;
    forall h | h in bs
      ensures h + 16 <= |mem| && Get64(Put64(mem, b + 8, v), h) == bs[h]
    {
      LinkApart(bs, |mem|, b, h);
      Get64Frame(mem, Put64(mem, b + 8, v), h);
    }
  }

  function Without(s: seq<nat>, i: nat): seq<nat>
    requires i < |s|
  {
    s[..i] + s[i + 1..]
  }

  lemma WithoutDistinct(s: seq<nat>, i: nat)
    requires Distinct(s) && i < |s|
    ensures Distinct(Without(s, i)) && s[i] !in Without(s, i)
    ensures forall x :: x in Without(s, i) <==> x in s && x != s[i]
  {
    var t := Without(s, i);
    forall j, k | 0 <= j < k < |t|
      ensures t[j] != t[k]
    {
      assert t[j] == s[if j < i then j else j + 1] && t[k] == s[if k < i then k else k + 1];
    }
    forall x
      ensures x in t <==> x in s && x != s[i]
    {
      if x in t {
        var j :| 0 <= j < |t| && t[j] == x;
        assert t[j] == s[if j < i then j else j + 1];
      }
      if x in s && x != s[i] {
        var j :| 0 <= j < |s| && s[j] == x;
        assert t[if j < i then j else j - 1] == x;
      }
    }
  }

  lemma WithoutAt(s: seq<nat>, i: nat, j: nat)
    requires i < |s| && j < |s| - 1
    ensures |Without(s, i)| == |s| - 1
    ensures Without(s, i)[j] == s[if j < i then j else j + 1]
    ensures Link(Without(s, i), j + 1) == if j + 1 == i then Link(s, i + 1) else Link(s, if j < i then j + 1 else j + 2)
  {
  }

  lemma DistinctAt(s: seq<nat>, j: nat, k: nat)
    requires Distinct(s) && j < |s| && k < |s| && j != k
    ensures s[j] != s[k]
  {
  }

  /** Unlinking the first block. */
  lemma UnlinkFirst(mem: seq<byte>, bs: Blocks, free: seq<nat>, head: nat)
    requires Chained(mem, bs, free, head) && free != []
    ensures Chained(mem, bs, Without(free, 0), Link(free, 1))
  {
    WithoutDistinct(free, 0);
    var t := Without(free, 0);
    assert |t| == |free| - 1 && Link(t, 0) == Link(free, 1);
    hide Distinct, Get64, Without, Link;
    forall i | 0 <= i < |t|
      ensures LinkOk(mem, bs, t, i)
    {
      WithoutAt(free, 0, i);
      assert LinkOk(mem, bs, free, i + 1);
    }
  }

  lemma RelinkedHere(mem: seq<byte>, bs: Blocks, free: seq<nat>, i: nat, t: seq<nat>)
    requires 0 < i < |free| && LinkOk(mem, bs, free, i - 1) && Link(free, i + 1) < TWO64
    requires |t| == |free| - 1 && t[i - 1] == free[i - 1] && Link(t, i) == Link(free, i + 1)
    ensures LinkOk(Put64(mem, free[i - 1] + 8, Link(free, i + 1)), bs, t, i - 1)
  {
    hide Get64, Put64, Link;
    Get64Put64(mem, free[i - 1] + 8, Link(free, i + 1));
  }

  /** Every other link. */
  lemma RelinkedElsewhere(mem: seq<byte>, bs: Blocks, free: seq<nat>, k: nat, b: nat, v: nat, t: seq<nat>, j: nat)
    requires Carved(bs, |mem|) && k < |free| && LinkOk(mem, bs, free, k) && b in bs && b != free[k] && b + 16 <= |mem|
    requires j < |t| && t[j] == free[k] && Link(t, j + 1) == Link(free, k + 1)
    ensures LinkOk(Put64(mem, b + 8, v), bs, t, j)
  {
    hide Get64, Put64, Link, Carved;
    LinkApart(bs, |mem|, b, free[k]);
    Get64Frame(mem, Put64(mem, b + 8, v), free[k] + 8);
  }

  lemma UnlinkedLink(mem: seq<byte>, bs: Blocks, free: seq<nat>, i: nat, j: nat)
    requires Carved(bs, |mem|) && Distinct(free) && 0 < i < |free| && Link(free, i + 1) < TWO64
    requires forall k {:trigger LinkOk(mem, bs, free, k)} | 0 <= k < |free| :: LinkOk(mem, bs, free, k)
    requires j < |Without(free, i)| == |free| - 1 && free[i - 1] in bs && free[i - 1] + 16 <= |mem|
    ensures LinkOk(Put64(mem, free[i - 1] + 8, Link(free, i + 1)), bs, Without(free, i), j)
  {
    hide Carved, Distinct, Get64, Put64, LinkOk, Without, Link;
    assert LinkOk(mem, bs, free, i - 1);
    WithoutAt(free, i, j);
    if j == i - 1 {
      RelinkedHere(mem, bs, free, i, Without(free, i));
    } else {
      var k := if j < i then j else j + 1;
      assert LinkOk(mem, bs, free, k);
      DistinctAt(free, k, i - 1);
      RelinkedElsewhere(mem, bs, free, k, free[i - 1], Link(free, i + 1), Without(free, i), j);
    }
  }

  /** Unlinking a later block by rewriting the link of the one before. */
  lemma UnlinkLater(mem: seq<byte>, bs: Blocks, free: seq<nat>, head: nat, i: nat)
    requires Carved(bs, |mem|) && Chained(mem, bs, free, head) && 0 < i < |free| && Link(free, i + 1) < TWO64
    ensures free[i - 1] + 16 <= |mem|
    ensures Chained(Put64(mem, free[i - 1] + 8, Link(free, i + 1)), bs, Without(free, i), head)
  {
    WithoutDistinct(free, i);
    assert LinkOk(mem, bs, free, i - 1);
    var t := Without(free, i);
    assert Link(t, 0) == Link(free, 0) && |t| == |free| - 1;
    hide Carved, Distinct, Get64, Put64, LinkOk, Without, Link;
    var mem' := Put64(mem, free[i - 1] + 8, Link(free, i + 1));
    forall j | 0 <= j < |t|
      ensures LinkOk(mem', bs, t, j)
    {
      UnlinkedLink(mem, bs, free, i, j);
    }
  }

  /** Pushing a block on the front. */
  lemma LinkFront(mem: seq<byte>, bs: Blocks, free: seq<nat>, head: nat, b: nat)
    requires Carved(bs, |mem|) && Chained(mem, bs, free, head) && b in bs && b !in free && b + 16 <= |mem| && head < TWO64
    ensures Chained(Put64(mem, b + 8, head), bs, [b] + free, b)
  {
    hide Carved, Get64, Put64;
    var mem', t := Put64(mem, b + 8, head), [b] + free;
    Get64Put64(mem, b + 8, head);
    assert Distinct(t);
    hide Distinct;
    forall j | 0 <= j < |t|
      ensures LinkOk(mem', bs, t, j)
    {
      if j > 0 {
        assert LinkOk(mem, bs, free, j - 1);
        FrontAt(b, free, j);
        RelinkedElsewhere(mem, bs, free, j - 1, b, head, t, j);
      } else {
        assert Link(t, 1) == Link(free, 0);
      }
    }
  }

  lemma FrontAt(b: nat, s: seq<nat>, j: nat)
    requires 0 < j <= |s|
    ensures ([b] + s)[j] == s[j - 1] && Link([b] + s, j + 1) == Link(s, j) && s[j - 1] in s
  {
  }

  // --- carving a block from the arena -----------------------------------------------------------

  lemma CarveShape(bs: Blocks, bump: nat, bumpEnd: nat, limit: nat, want: nat)
    requires Carved(bs, limit) && Rest(bs, bump, bumpEnd, limit) && limit < TWO64
    requires 0 < bump && bump + want <= bumpEnd && 16 <= want && want % 16 == 0
    ensures bump !in bs
    ensures Carved(bs[bump := want], limit) && Rest(bs[bump := want], bump + want, bumpEnd, limit)
  {
    var bs' := bs[bump := want];
    assert bump in bs ==> BlockOk(bs, bump, limit);
    forall h | h in bs'
      ensures BlockOk(bs', h, limit)
    {
      assert h != bump ==> BlockOk(bs, h, limit);
    }
    forall a, b | a in bs' && b in bs' && a != b
      ensures Apart(a, bs'[a], b, bs'[b])
    {
      if a != bump && b != bump {
        assert Apart(a, bs[a], b, bs[b]);
      }
    }
  }

  /** `mem'` has the same bytes in block `h`. */
  ghost predicate BytesKept(mem: seq<byte>, mem': seq<byte>, bs: Blocks, h: nat)
    requires h in bs
  {
    h + bs[h] <= |mem| && h + bs[h] <= |mem'| && forall k | h <= k < h + bs[h] :: mem'[k] == mem[k]
  }

  lemma BlockKept(mem: seq<byte>, mem': seq<byte>, bs: Blocks, h: nat)
    requires h in bs && BlockOk(bs, h, |mem|) && BytesKept(mem, mem', bs, h)
    ensures h + 16 <= |mem| && h + 16 <= |mem'|
    ensures Get64(mem', h) == Get64(mem, h) && Get64(mem', h + 8) == Get64(mem, h + 8)
  {
    hide Get64;
    Get64Frame(mem, mem', h);
    Get64Frame(mem, mem', h + 8);
  }

  /** The free list survives any write outside the blocks. */
  lemma ChainKept(mem: seq<byte>, mem': seq<byte>, bs: Blocks, bs': Blocks, free: seq<nat>, head: nat)
    requires Carved(bs, |mem|) && Chained(mem, bs, free, head)
    requires forall h {:trigger BytesKept(mem, mem', bs, h)} | h in bs :: h in bs' && BytesKept(mem, mem', bs, h)
    ensures Chained(mem', bs', free, head)
  {
    hide Get64, Distinct, BytesKept, BlockOk;
    forall i | 0 <= i < |free|
      ensures LinkOk(mem', bs', free, i)
    {
      assert LinkOk(mem, bs, free, i);
      assert BlockOk(bs, free[i], |mem|) && BytesKept(mem, mem', bs, free[i]);
      BlockKept(mem, mem', bs, free[i]);
    }
  }

  /** Writing the new header touches no byte of an earlier block. */
  lemma CarveBytes(mem: seq<byte>, bs: Blocks, bump: nat, bumpEnd: nat, want: nat, h: nat)
    requires Carved(bs, |mem|) && Rest(bs, bump, bumpEnd, |mem|) && bump + want <= bumpEnd && 16 <= want && h in bs
    ensures BytesKept(mem, Put64(mem, bump, want), bs, h)
  {
    hide Put64;
    assert BlockOk(bs, h, |mem|) && Apart(h, bs[h], bump, bumpEnd - bump);
  }

  lemma CarveKeeps(mem: seq<byte>, bs: Blocks, free: seq<nat>, head: nat, bump: nat, bumpEnd: nat, want: nat)
    requires Carved(bs, |mem|) && Rest(bs, bump, bumpEnd, |mem|) && |mem| < TWO64
    requires 0 < bump && bump + want <= bumpEnd && 16 <= want && want % 16 == 0
    requires Headers(mem, bs) && Chained(mem, bs, free, head)
    ensures Headers(Put64(mem, bump, want), bs[bump := want])
    ensures Chained(Put64(mem, bump, want), bs[bump := want], free, head)
  {
    var mem', bs' := Put64(mem, bump, want), bs[bump := want];
    assert bump + 16 <= |mem|;
    hide Get64, Put64, Distinct, BytesKept, Rest, Chained, BlockOk;
    forall h {:trigger BytesKept(mem, mem', bs, h)} | h in bs
      ensures h in bs' && BytesKept(mem, mem', bs, h)
    {
      CarveBytes(mem, bs, bump, bumpEnd, want, h);
    }
    ChainKept(mem, mem', bs, bs', free, head);
    forall h | h in bs'
      ensures h + 16 <= |mem| && Get64(mem', h) == bs'[h]
    {
      if h == bump {
        Get64Put64(mem, bump, want);
      } else {
        assert BlockOk(bs, h, |mem|) && BytesKept(mem, mem', bs, h);
        BlockKept(mem, mem', bs, h);
      }
    }
  }

  // --- payloads ---------------------------------------------------------------------------------

  ghost predicate PayloadKept(mem: seq<byte>, mem': seq<byte>, bs: Blocks, h: nat)
    requires h in bs
  {
    h + bs[h] <= |mem| && h + bs[h] <= |mem'| && forall k | h + 16 <= k < h + bs[h] :: mem'[k] == mem[k]
  }

  ghost predicate PayloadsKept(mem: seq<byte>, mem': seq<byte>, bs: Blocks) {
    forall h {:trigger PayloadKept(mem, mem', bs, h)} | h in bs :: PayloadKept(mem, mem', bs, h)
  }

  lemma PayloadsRefl(mem: seq<byte>, bs: Blocks)
    requires Carved(bs, |mem|)
    ensures PayloadsKept(mem, mem, bs)
  {
    forall h | h in bs
      ensures PayloadKept(mem, mem, bs, h)
    {
      assert BlockOk(bs, h, |mem|);
    }
  }

  lemma LinkKeepsPayloads(mem: seq<byte>, bs: Blocks, b: nat, v: nat)
    requires Carved(bs, |mem|) && b in bs && b + 16 <= |mem|
    ensures PayloadsKept(mem, Put64(mem, b + 8, v), bs)
  {
    hide Put64;
    forall h | h in bs
      ensures PayloadKept(mem, Put64(mem, b + 8, v), bs, h)
    {
      assert BlockOk(bs, h, |mem|) && BlockOk(bs, b, |mem|);
      assert h != b ==> Apart(h, bs[h], b, bs[b]);
    }
  }

  lemma CarveKeepsPayloads(mem: seq<byte>, bs: Blocks, bump: nat, bumpEnd: nat, want: nat)
    requires Carved(bs, |mem|) && Rest(bs, bump, bumpEnd, |mem|) && bump + want <= bumpEnd && 16 <= want
    ensures PayloadsKept(mem, Put64(mem, bump, want), bs)
  {
    hide Put64, Carved;
    forall h | h in bs
      ensures PayloadKept(mem, Put64(mem, bump, want), bs, h)
    {
      CarveBytes(mem, bs, bump, bumpEnd, want, h);
    }
  }

  /** The place of the first free block that is large enough, or the length of the list. */
  function FirstFit(bs: Blocks, free: seq<nat>, want: nat): (i: nat)
    requires AllFree(bs, free)
    ensures i <= |free| && (i < |free| ==> bs[free[i]] >= want) && forall j | 0 <= j < i :: bs[free[j]] < want
  {
    if free == [] then 0
    else if bs[free[0]] >= want then 0
    else
      var k := FirstFit(bs, free[1..], want);
      assert forall j | 0 <= j < k :: bs[free[1..][j]] < want;
      1 + k
  }

  ghost predicate AllFree(bs: Blocks, free: seq<nat>) {
    forall h | h in free :: h in bs && h > 0
  }

  ghost predicate NoFitBefore(bs: Blocks, free: seq<nat>, want: nat, i: nat)
    requires AllFree(bs, free) && i <= |free|
  {
    forall j | 0 <= j < i :: bs[free[j]] < want
  }

  lemma NoFitStart(bs: Blocks, free: seq<nat>, want: nat)
    requires AllFree(bs, free)
    ensures NoFitBefore(bs, free, want, 0)
  {
  }

  lemma NoFitStep(bs: Blocks, free: seq<nat>, want: nat, i: nat)
    requires AllFree(bs, free) && i < |free| && NoFitBefore(bs, free, want, i) && bs[free[i]] < want
    ensures NoFitBefore(bs, free, want, i + 1)
  {
  }

  lemma FirstFitIs(bs: Blocks, free: seq<nat>, want: nat, i: nat)
    requires AllFree(bs, free) && i <= |free| && (i < |free| ==> bs[free[i]] >= want) && NoFitBefore(bs, free, want, i)
    ensures FirstFit(bs, free, want) == i
  {
    hide FirstFit;
  }

  /** The block before place `i` of the list, or null for the head. */
  function Previous(free: seq<nat>, i: nat): nat { if 0 < i <= |free| then free[i - 1] else 0 }

  /** The walk of the free list: the first block of at least `want` bytes, and the one before it. */
  method FindFit(mem: seq<byte>, head: nat, want: nat, ghost bs: Blocks, ghost free: seq<nat>)
    returns (prev: nat, cur: nat, ghost i: nat)
    requires Carved(bs, |mem|) && Headers(mem, bs) && Chained(mem, bs, free, head)
    ensures AllFree(bs, free) && i == FirstFit(bs, free, want)
    ensures cur == Link(free, i) && prev == Previous(free, i) && (cur == 0 <==> i == |free|)
  {
    hide Carved, Chained, Get64, Headers, FirstFit, AllFree, Link, Previous;
    FreeBlocks(mem, bs, free, head);
    HeadIs(mem, bs, free, head);
    NoFitStart(bs, free, want);
    hide NoFitBefore;
    prev, cur, i := 0, head, 0;
    while cur != 0
      invariant i <= |free| && cur == Link(free, i) && prev == Previous(free, i)
      invariant NoFitBefore(bs, free, want, i)
      invariant cur == 0 <==> i == |free|
      decreases |free| - i
    {
      LinkReads(mem, bs, free, head, i);
      if Get64(mem, cur) >= want {
        FirstFitIs(bs, free, want, i);
        return;
      }
      NoFitStep(bs, free, want, i);
      prev := cur;
      cur := Get64(mem, cur + 8);
      i := i + 1;
    }
    FirstFitIs(bs, free, want, i);
  }

  class CHeap {
    const mem: array<byte>
    var bump: nat
    var bumpEnd: nat
    var freeHead: nat
    ghost var blocks: Blocks
    ghost var free: seq<nat>

    /** Everything carved is in the free list or live; the rest of the arena is untouched by both. */
    ghost predicate Valid()
      reads this, mem
    {
      && mem.Length < TWO64
      && Carved(blocks, mem.Length) && Rest(blocks, bump, bumpEnd, mem.Length)
      && Headers(mem[..], blocks) && Chained(mem[..], blocks, free, freeHead)
    }

    ghost function Live(): set<nat>
      reads this
    {
      set h | h in blocks && h !in free
    }

    /** Before the first call nothing is carved. */
    constructor (mem: array<byte>)
      requires mem.Length < TWO64
      ensures Valid() && Started() && blocks == map[] && free == [] && this.mem == mem
    {
      this.mem := mem;
      bump, bumpEnd, freeHead := 0, 0, 0;
      blocks, free := map[], [];
    }

    /** At every point of every run: the payload of a live block is sixteen-aligned and inside memory, and
        the block is clear of every other one, live or free, and of the rest of the arena. */
    lemma LiveBlocks(a: nat, b: nat)
      requires Valid() && a in Live() && b in blocks
      ensures (a + 16) % 16 == 0 && 16 <= blocks[a] && a + blocks[a] <= mem.Length
      ensures a != b ==> Apart(a, blocks[a], b, blocks[b])
      ensures Apart(a, blocks[a], bump, bumpEnd - bump)
    {
      assert BlockOk(blocks, a, mem.Length);
      hide Headers, Chained, BlockOk;
      if a != b {
        BlocksApart(blocks, a, b, mem.Length);
      }
    }

    /** Take block `cur` out of the list by rewriting the link that leads to it. */
    method Unlink(prev: nat, cur: nat, ghost i: nat)
      requires Valid() && i < |free| && cur == free[i] && prev == Previous(free, i)
      modifies this`freeHead, this`free, mem
      ensures Valid() && free == Without(old(free), i)
      ensures PayloadsKept(old(mem[..]), mem[..], blocks)
    {
      hide Carved, Rest, Chained, Headers, PayloadsKept, Get64, Put64, Without, Previous, Link;
      UnlinkEffect(mem[..], blocks, free, freeHead, i);
      var next := Get64(mem[..], cur + 8);
      if prev == 0 {
        freeHead := next;
      } else {
        Write64(mem, prev + 8, next);
      }
      free := Without(free, i);
    }

    /** Carve a block from the arena, asking for a new arena if it does not fit: `base` is what the
        system would answer, null for none. */
    method Carve(want: nat, base: nat) returns (p: nat)
      requires Valid() && 16 <= want && want % 16 == 0
      requires base != 0 ==> Rest(blocks, base, base + ChunkFor(want), mem.Length)
      requires bump == 0 ==> bumpEnd == 0
      modifies this`bump, this`bumpEnd, this`blocks, mem
      ensures Valid() && (bump == 0 ==> bumpEnd == 0)
      ensures ArenaAfter(old(bump), old(bumpEnd), want, base, bump, bumpEnd)
      ensures
        if old(bump) + want <= old(bumpEnd) then
          p == old(bump) + 16 && blocks == old(blocks)[old(bump) := want] && old(bump) !in old(blocks)
        else if base != 0 then
          p == base + 16 && blocks == old(blocks)[base := want] && base !in old(blocks)
        else p == 0 && blocks == old(blocks) && mem[..] == old(mem[..])
      ensures PayloadsKept(old(mem[..]), mem[..], old(blocks))
    {
      PayloadsRefl(mem[..], blocks);
      ChunkHolds(want);
      hide Carved, Rest, Chained, Headers, PayloadsKept, Put64, ChunkFor;
      if bump + want > bumpEnd {
        if base == 0 {
          return 0;
        }
        bump := base;
        bumpEnd := base + ChunkFor(want);
      }
      CarveEffect(mem[..], blocks, free, freeHead, bump, bumpEnd, want);
      var hdr := bump;
      bump := bump + want;
      Write64(mem, hdr, want);
      blocks := blocks[hdr := want];
      p := hdr + 16;
    }

    /** First fit from the free list, else carve. */
    method Malloc(size: nat, base: nat) returns (p: nat)
      requires Valid() && Started() && AnswerOk(size, base)
      modifies this`bump, this`bumpEnd, this`freeHead, this`blocks, this`free, mem
      ensures Valid() && Started()
      ensures AllFree(old(blocks), old(free)) && Allocated(old(blocks), old(free), old(bump), old(bumpEnd), size, base, p, blocks, free)
      ensures PayloadsKept(old(mem[..]), mem[..], old(blocks))
      ensures p == 0 ==> mem[..] == old(mem[..])
      ensures if |free| < |old(free)| then bump == old(bump) && bumpEnd == old(bumpEnd)
              else ArenaAfter(old(bump), old(bumpEnd), Want(size), base, bump, bumpEnd)
    {
      hide Carved, Rest, Chained, Headers, PayloadsKept, FirstFit, Want;
      WantIs(size);
      var want := Want(size);
      var prev, cur; ghost var i;
      prev, cur, i := FindFit(mem[..], freeHead, want, blocks, free);
      if cur != 0 {
        Unlink(prev, cur, i);
        p := cur + 16;
      } else {
        p := Carve(want, base);
      }
    }

    /** `free(p)`: nothing for null, else the block goes to the front of the list. */
    method Free(p: nat)
      requires Valid() && (p != 0 ==> p >= 16 && p - 16 in Live())
      modifies this`freeHead, this`free, mem
      ensures Valid()
      ensures free == if p == 0 then old(free) else [p - 16] + old(free)
      ensures PayloadsKept(old(mem[..]), mem[..], blocks)
    {
      hide Carved, Rest, Chained, Headers, PayloadsKept, Get64, Put64;
      PayloadsRefl(mem[..], blocks);
      if p == 0 {
        return;
      }
      FreeEffect(mem[..], blocks, free, freeHead, p - 16);
      Write64(mem, p - 16 + 8, freeHead);
      freeHead := p - 16;
      free := [p - 16] + free;
    }

    /** A program writing inside a live block. */
    method Store(p: nat, k: nat, v: byte)
      requires Valid() && p >= 16 && p - 16 in Live() && k < Capacity(blocks, p - 16)
      modifies mem
      ensures Valid() && p + k < mem.Length && mem[..] == old(mem[..])[p + k := v]
    {
      BlockFits(blocks, p - 16, mem.Length);
      hide Carved, Rest, Chained, Headers;
      ghost var mem0 := mem[..];
      mem[p + k] := v;
      assert mem[..] == mem0[p + k := v];
      PayloadWriteKeeps(mem0, mem[..], blocks, free, freeHead, p - 16);
    }

    /** `memcpy` between two live blocks. */
    method Copy(np: nat, p: nat, n: nat)
      requires Valid() && p >= 16 && np >= 16 && p - 16 in Live() && np - 16 in Live() && p != np
      requires n <= Capacity(blocks, p - 16) && n <= Capacity(blocks, np - 16)
      modifies mem
      ensures Valid()
      ensures SameRange(old(mem[..]), p, mem[..], np, n) && KeptBut(old(mem[..]), mem[..], blocks, np - 16)
    {
      CopyEffect(mem[..], blocks, free, freeHead, np, p, n);
      hide Carved, Rest, Chained, Headers, CopyBytes, Capacity, SameRange, KeptBut;
      CopyLoop(np, p, n);
    }

    method CopyLoop(np: nat, p: nat, n: nat)
      requires np + n <= mem.Length && p + n <= mem.Length && (np + n <= p || p + n <= np)
      modifies mem
      ensures mem[..] == CopyBytes(old(mem[..]), np, p, n)
    {
      ghost var mem0 := mem[..];
      for k := 0 to n
        invariant forall j | np <= j < np + k :: mem[j] == mem0[j - np + p]
        invariant forall j | 0 <= j < mem.Length && !(np <= j < np + k) :: mem[j] == mem0[j]
      {
        assert mem[p + k] == mem0[p + k];
        mem[np + k] := mem[p + k];
      }
      forall j | 0 <= j < mem.Length
        ensures mem[j] == CopyBytes(mem0, np, p, n)[j]
      {
        CopyBytesAt(mem0, np, p, n, j);
      }
      hide CopyBytes;
      assert mem[..] == CopyBytes(mem0, np, p, n);
    }

    /** `realloc`: a new block, the common prefix copied, the old block freed; if no new block can be
        had the old one stays as it was. `free1` is the free list after the inner `malloc`. */
    method Realloc(p: nat, size: nat, base: nat) returns (np: nat, ghost free1: seq<nat>)
      requires Valid() && Started() && AnswerOk(size, base) && (p != 0 ==> p >= 16 && p - 16 in Live())
      modifies this`bump, this`bumpEnd, this`freeHead, this`blocks, this`free, mem
      ensures Valid() && Started() && AllFree(old(blocks), old(free))
      ensures Allocated(old(blocks), old(free), old(bump), old(bumpEnd), size, base, np, blocks, free1)
      ensures free == if p == 0 || np == 0 then free1 else [p - 16] + free1
      ensures np != 0 ==> KeptBut(old(mem[..]), mem[..], old(blocks), np - 16)
      ensures p != 0 && np != 0 ==> PrefixMoved(old(mem[..]), p, mem[..], np, size, old(blocks)[p - 16])
      ensures np == 0 ==> mem[..] == old(mem[..])
      ensures if |free1| < |old(free)| then bump == old(bump) && bumpEnd == old(bumpEnd)
              else ArenaAfter(old(bump), old(bumpEnd), Want(size), base, bump, bumpEnd)
    {
      hide Valid, Live, Allocated, AnswerOk, AllFree, PayloadsKept, KeptBut, PrefixMoved, ArenaAfter;
      if p == 0 {
        np := Malloc(size, base);
        free1 := free;
        KeptAll(old(mem[..]), mem[..], old(blocks), np - 16);
      } else {
        np, free1 := ReallocLive(p, size, base);
      }
    }

    method ReallocLive(p: nat, size: nat, base: nat) returns (np: nat, ghost free1: seq<nat>)
      requires Valid() && Started() && AnswerOk(size, base) && p >= 16 && p - 16 in Live()
      modifies this`bump, this`bumpEnd, this`freeHead, this`blocks, this`free, mem
      ensures Valid() && Started() && AllFree(old(blocks), old(free))
      ensures Allocated(old(blocks), old(free), old(bump), old(bumpEnd), size, base, np, blocks, free1)
      ensures free == if np == 0 then free1 else [p - 16] + free1
      ensures np != 0 ==> KeptBut(old(mem[..]), mem[..], old(blocks), np - 16)
      ensures np != 0 ==> PrefixMoved(old(mem[..]), p, mem[..], np, size, old(blocks)[p - 16])
      ensures np == 0 ==> mem[..] == old(mem[..])
      ensures if |free1| < |old(free)| then bump == old(bump) && bumpEnd == old(bumpEnd)
              else ArenaAfter(old(bump), old(bumpEnd), Want(size), base, bump, bumpEnd)
    {
      hide Valid, Live, Allocated, AnswerOk, AllFree, PayloadsKept, KeptBut, SameRange, Capacity, Grown, PrefixMoved, ArenaAfter;
      var oldCap := OldCapacity(p);
      ghost var mem0, bs0 := mem[..], blocks;
      np := MallocBeside(p, size, base);
      free1 := free;
      if np != 0 {
        var n := if oldCap < size then oldCap else size;
        MoveFrom(np, p, n, mem0, bs0);
        RangeIsPrefix(mem0, p, mem[..], np, size, bs0[p - 16], n);
      }
    }

    method OldCapacity(p: nat) returns (n: nat)
      requires Valid() && p >= 16 && p - 16 in Live()
      ensures p - 16 in blocks && 16 <= blocks[p - 16] && n == Capacity(blocks, p - 16) == blocks[p - 16] - 16
      ensures p + n <= mem.Length
    {
      ReadsCapacity(p);
      var oldTotal := Get64(mem[..], p - 16);
      n := if oldTotal >= 16 then oldTotal - 16 else 0;
    }

    method MoveFrom(np: nat, p: nat, n: nat, ghost mem0: seq<byte>, ghost bs0: Blocks)
      requires Valid() && p >= 16 && np >= 16 && p - 16 in Live() && np - 16 in Live() && p != np
      requires n <= Capacity(bs0, p - 16) && n <= Capacity(blocks, np - 16) && n <= Capacity(blocks, p - 16)
      requires PayloadsKept(mem0, mem[..], bs0) && Grown(bs0, blocks) && p - 16 in bs0 && 16 <= bs0[p - 16]
      modifies this`freeHead, this`free, mem
      ensures Valid() && free == [p - 16] + old(free)
      ensures SameRange(mem0, p, mem[..], np, n) && KeptBut(mem0, mem[..], bs0, np - 16)
    {
      hide *;
      ghost var mem1 := mem[..];
      Move(np, p, n);
      MoveComposes(mem0, mem1, mem[..], bs0, blocks, p, np, n);
    }

    lemma ReadsCapacity(p: nat)
      requires Valid() && p >= 16 && p - 16 in Live()
      ensures p - 16 in blocks && 16 <= blocks[p - 16] && p - 16 + blocks[p - 16] <= mem.Length
      ensures Capacity(blocks, p - 16) == Get64(mem[..], p - 16) - 16
    {
      HeaderReads(mem[..], blocks, p - 16);
      BlockFits(blocks, p - 16, mem.Length);
    }

    /** `malloc` seen from a block that is live already. */
    method MallocBeside(p: nat, size: nat, base: nat) returns (np: nat)
      requires Valid() && Started() && AnswerOk(size, base) && p >= 16 && p - 16 in Live()
      modifies this`bump, this`bumpEnd, this`freeHead, this`blocks, this`free, mem
      ensures Valid() && Started() && AllFree(old(blocks), old(free))
      ensures Allocated(old(blocks), old(free), old(bump), old(bumpEnd), size, base, np, blocks, free)
      ensures np != 0 ==> np >= 16 && np != p && np - 16 in Live() && p - 16 in Live() && size <= Capacity(blocks, np - 16)
      ensures np != 0 ==> Grown(old(blocks), blocks) && Capacity(blocks, p - 16) == Capacity(old(blocks), p - 16)
      ensures PayloadsKept(old(mem[..]), mem[..], old(blocks))
      ensures np == 0 ==> mem[..] == old(mem[..])
      ensures if |free| < |old(free)| then bump == old(bump) && bumpEnd == old(bumpEnd)
              else ArenaAfter(old(bump), old(bumpEnd), Want(size), base, bump, bumpEnd)
    {
      FreeDistinct(mem[..], blocks, free, freeHead);
      LiveIs(p - 16);
      hide Valid, PayloadsKept, Live, Allocated, AnswerOk, Distinct, AllFree, Grown, ArenaAfter, Want;
      ghost var bs0, free0 := blocks, free;
      np := Malloc(size, base);
      if np != 0 {
        AllocatedIs(bs0, free0, old(bump), old(bumpEnd), size, base, np, blocks, free, p - 16);
        AllocatedGrows(bs0, free0, old(bump), old(bumpEnd), size, base, np, blocks, free);
        LiveIs(p - 16);
        LiveIs(np - 16);
      }
    }

    lemma LiveIs(h: nat)
      ensures h in Live() <==> h in blocks && h !in free
    {
    }

    /** The tail of `realloc`: copy, then free the old block. */
    method Move(np: nat, p: nat, n: nat)
      requires Valid() && p >= 16 && np >= 16 && p - 16 in Live() && np - 16 in Live() && p != np
      requires n <= Capacity(blocks, p - 16) && n <= Capacity(blocks, np - 16)
      modifies this`freeHead, this`free, mem
      ensures Valid() && free == [p - 16] + old(free)
      ensures SameRange(old(mem[..]), p, mem[..], np, n) && KeptBut(old(mem[..]), mem[..], blocks, np - 16)
    {
      ReadsCapacity(np);
      hide *;
      ghost var mem0 := mem[..];
      Copy(np, p, n);
      ghost var mem1 := mem[..];
      Free(p);
      FreeComposes(mem0, mem1, mem[..], blocks, p, np, n);
    }

    /** The arena variables start at null together. */
    ghost predicate Started()
      reads this
    {
      bump == 0 ==> bumpEnd == 0
    }

    /** The system answers with null or with room for the chunk that is free of every block. */
    ghost predicate AnswerOk(size: nat, base: nat)
      reads this
    {
      base != 0 ==> Rest(blocks, base, base + ChunkFor(Want(size)), mem.Length)
    }
  }

  /** The outcome of `malloc`: the first fitting free block, else the front of the arena or of a new
      one, else null with nothing changed. */
  ghost predicate Allocated(bs: Blocks, free: seq<nat>, bump: nat, bumpEnd: nat, size: nat, base: nat,
                            p: nat, bs': Blocks, free': seq<nat>)
    requires AllFree(bs, free)
  {
    var want, i := Want(size), FirstFit(bs, free, Want(size));
    if i < |free| then p == free[i] + 16 && bs' == bs && free' == Without(free, i)
    else
      && free' == free
      && if bump + want <= bumpEnd then p == bump + 16 && bump !in bs && bs' == bs[bump := want]
         else if base != 0 then p == base + 16 && base !in bs && bs' == bs[base := want]
         else p == 0 && bs' == bs
  }

  /** What carving leaves of the arena: the rest of it, or of a new chunk of 64 KiB or of `want` if that is
      more. */
  ghost predicate ArenaAfter(bump: nat, bumpEnd: nat, want: nat, base: nat, bump': nat, bumpEnd': nat) {
    if bump + want <= bumpEnd then bump' == bump + want && bumpEnd' == bumpEnd
    else if base != 0 then bump' == base + want && bumpEnd' == base + (if want > 0x1_0000 then want else 0x1_0000)
    else bump' == bump && bumpEnd' == bumpEnd
  }

  /** The payload size of a block. */
  function Capacity(bs: Blocks, h: nat): nat { if h in bs && bs[h] >= 16 then bs[h] - 16 else 0 }

  /** Memory with `n` bytes copied from `p` to `np`. */
  function CopyBytes(mem: seq<byte>, np: nat, p: nat, n: nat): (m: seq<byte>)
    requires np + n <= |mem| && p + n <= |mem|
    ensures |m| == |mem|
  {
    mem[..np] + mem[p..p + n] + mem[np + n..]
  }

  lemma CopyBytesAt(mem: seq<byte>, np: nat, p: nat, n: nat, k: nat)
    requires np + n <= |mem| && p + n <= |mem| && k < |mem|
    ensures CopyBytes(mem, np, p, n)[k] == if np <= k < np + n then mem[p + (k - np)] else mem[k]
  {
  }

  lemma BlockFits(bs: Blocks, h: nat, limit: nat)
    requires Carved(bs, limit) && h in bs
    ensures 0 < h && 16 <= bs[h] && h + bs[h] <= limit
  {
    assert BlockOk(bs, h, limit);
  }

  lemma FreeDistinct(mem: seq<byte>, bs: Blocks, free: seq<nat>, head: nat)
    requires Chained(mem, bs, free, head)
    ensures Distinct(free)
  {
  }

  lemma BlocksApart(bs: Blocks, a: nat, b: nat, limit: nat)
    requires Carved(bs, limit) && a in bs && b in bs && a != b
    ensures Apart(a, bs[a], b, bs[b])
  {
  }

  lemma HeaderReads(mem: seq<byte>, bs: Blocks, h: nat)
    requires Headers(mem, bs) && h in bs
    ensures h + 16 <= |mem| && Get64(mem, h) == bs[h]
  {
  }

  /** The `n` bytes at `b` of one memory are those at `a` of the other. */
  ghost predicate SameRange(mem: seq<byte>, a: nat, mem': seq<byte>, b: nat, n: nat) {
    a + n <= |mem| && b + n <= |mem'| && mem'[b..b + n] == mem[a..a + n]
  }

  /** The payload of a block of `total` bytes, as far as it goes and `size` bytes at most, is now at `np`. */
  ghost predicate PrefixMoved(mem: seq<byte>, p: nat, mem': seq<byte>, np: nat, size: nat, total: nat) {
    && total >= 16 && p + (total - 16) <= |mem|
    && forall k {:trigger mem[p..p + (total - 16)][k]} | 0 <= k < size && k < total - 16 ::
         np + k < |mem'| && mem'[np + k] == mem[p..p + (total - 16)][k]
  }

  lemma RangeIsPrefix(mem: seq<byte>, p: nat, mem': seq<byte>, np: nat, size: nat, total: nat, n: nat)
    requires total >= 16 && n == (if total - 16 < size then total - 16 else size)
    requires SameRange(mem, p, mem', np, n) && p + (total - 16) <= |mem|
    ensures PrefixMoved(mem, p, mem', np, size, total)
  {
    var from := mem[p..p + (total - 16)];
    forall k {:trigger from[k]} | 0 <= k < n
      ensures np + k < |mem'| && mem'[np + k] == from[k]
    {
      assert mem'[np..np + n][k] == mem[p..p + n][k];
    }
  }

  lemma SameRangeTwice(m1: seq<byte>, a: nat, m2: seq<byte>, b: nat, m3: seq<byte>, c: nat, n: nat)
    requires SameRange(m1, a, m2, b, n) && SameRange(m2, b, m3, c, n)
    ensures SameRange(m1, a, m3, c, n)
  {
  }

  /** Every payload but that of block `x` is the same in both memories. */
  ghost predicate KeptBut(mem: seq<byte>, mem': seq<byte>, bs: Blocks, x: int) {
    forall h | h in bs && h != x :: PayloadKept(mem, mem', bs, h)
  }

  /** Every block is still there, at the size it had. */
  ghost predicate Grown(bs: Blocks, bs': Blocks) {
    forall h | h in bs :: h in bs' && bs'[h] == bs[h]
  }

  lemma AllocatedGrows(bs: Blocks, free: seq<nat>, bump: nat, bumpEnd: nat, size: nat, base: nat,
                       p: nat, bs': Blocks, free': seq<nat>)
    requires AllFree(bs, free) && Allocated(bs, free, bump, bumpEnd, size, base, p, bs', free')
    ensures Grown(bs, bs')
  {
  }

  lemma KeptAll(mem: seq<byte>, mem': seq<byte>, bs: Blocks, x: int)
    requires PayloadsKept(mem, mem', bs)
    ensures KeptBut(mem, mem', bs, x)
  {
  }

  lemma KeptButTwice(m1: seq<byte>, m2: seq<byte>, m3: seq<byte>, bs: Blocks, x: nat)
    requires KeptBut(m1, m2, bs, x) && PayloadsKept(m2, m3, bs)
    ensures KeptBut(m1, m3, bs, x)
  {
    forall h | h in bs && h != x
      ensures PayloadKept(m1, m3, bs, h)
    {
      assert PayloadKept(m1, m2, bs, h) && PayloadKept(m2, m3, bs, h);
    }
  }

  lemma FreeComposes(m0: seq<byte>, m1: seq<byte>, m2: seq<byte>, bs: Blocks, p: nat, np: nat, n: nat)
    requires KeptBut(m0, m1, bs, np - 16) && PayloadsKept(m1, m2, bs) && np >= 16
    requires SameRange(m0, p, m1, np, n) && np - 16 in bs && 16 <= bs[np - 16] && n <= Capacity(bs, np - 16)
    ensures SameRange(m0, p, m2, np, n) && KeptBut(m0, m2, bs, np - 16)
  {
    hide *;
    PayloadSlice(m1, m2, bs, np - 16, n);
    SameRangeTwice(m0, p, m1, np, m2, np, n);
    KeptButTwice(m0, m1, m2, bs, np - 16);
  }

  lemma MoveComposes(m0: seq<byte>, m1: seq<byte>, m2: seq<byte>, bs: Blocks, bs': Blocks, p: nat, np: nat, n: nat)
    requires PayloadsKept(m0, m1, bs) && KeptBut(m1, m2, bs', np - 16) && Grown(bs, bs') && p >= 16 && np >= 16
    requires SameRange(m1, p, m2, np, n) && p - 16 in bs && 16 <= bs[p - 16] && n <= Capacity(bs, p - 16)
    ensures SameRange(m0, p, m2, np, n) && KeptBut(m0, m2, bs, np - 16)
  {
    PayloadSlice(m0, m1, bs, p - 16, n);
    hide SameRange, Capacity;
    SameRangeTwice(m0, p, m1, p, m2, np, n);
    forall h | h in bs && h != np - 16
      ensures PayloadKept(m0, m2, bs, h)
    {
      assert PayloadKept(m0, m1, bs, h) && PayloadKept(m1, m2, bs', h);
    }
  }

  lemma PayloadSlice(mem: seq<byte>, mem': seq<byte>, bs: Blocks, h: nat, n: nat)
    requires PayloadsKept(mem, mem', bs) && h in bs && 16 <= bs[h] && n <= Capacity(bs, h)
    ensures SameRange(mem, h + 16, mem', h + 16, n)
  {
    assert PayloadKept(mem, mem', bs, h);
  }

  lemma CopyEffect(mem: seq<byte>, bs: Blocks, free: seq<nat>, head: nat, np: nat, p: nat, n: nat)
    requires Carved(bs, |mem|) && Headers(mem, bs) && Chained(mem, bs, free, head)
    requires p >= 16 && np >= 16 && p - 16 in bs && np - 16 in bs && p != np
    requires n <= Capacity(bs, p - 16) && n <= Capacity(bs, np - 16)
    ensures np + n <= |mem| && p + n <= |mem| && (np + n <= p || p + n <= np)
    ensures var mem' := CopyBytes(mem, np, p, n);
      && Headers(mem', bs) && Chained(mem', bs, free, head)
      && SameRange(mem, p, mem', np, n) && KeptBut(mem, mem', bs, np - 16)
  {
    BlockFits(bs, p - 16, |mem|);
    BlockFits(bs, np - 16, |mem|);
    BlocksApart(bs, p - 16, np - 16, |mem|);
    hide Carved, Headers, Chained, SameRange, KeptBut, CopyBytes;
    var mem' := CopyBytes(mem, np, p, n);
    forall k | 0 <= k < |mem| && !(np <= k < np - 16 + bs[np - 16])
      ensures mem'[k] == mem[k]
    {
      CopyBytesAt(mem, np, p, n, k);
    }
    PayloadWriteKeeps(mem, mem', bs, free, head, np - 16);
    PayloadWriteOnly(mem, mem', bs, np - 16);
    CopiedRange(mem, np, p, n);
  }

  lemma PayloadWriteOnly(mem: seq<byte>, mem': seq<byte>, bs: Blocks, b: nat)
    requires Carved(bs, |mem|) && b in bs && |mem'| == |mem|
    requires forall k | 0 <= k < |mem| && !(b + 16 <= k < b + bs[b]) :: mem'[k] == mem[k]
    ensures KeptBut(mem, mem', bs, b)
  {
    forall h | h in bs && h != b
      ensures PayloadKept(mem, mem', bs, h)
    {
      BlockFits(bs, h, |mem|);
      BlocksApart(bs, b, h, |mem|);
      assert mem'[h + 16..h + bs[h]] == mem[h + 16..h + bs[h]];
    }
  }

  lemma CopiedRange(mem: seq<byte>, np: nat, p: nat, n: nat)
    requires np + n <= |mem| && p + n <= |mem|
    ensures SameRange(mem, p, CopyBytes(mem, np, p, n), np, n)
  {
    var m := CopyBytes(mem, np, p, n);
    forall k {:trigger m[np..np + n][k]} | 0 <= k < n
      ensures m[np..np + n][k] == mem[p..p + n][k]
    {
      CopyBytesAt(mem, np, p, n, np + k);
    }
    hide CopyBytes;
    assert m[np..np + n] == mem[p..p + n];
  }

  /** Writing inside one block's payload keeps every header and the free list. */
  lemma PayloadWriteKeeps(mem: seq<byte>, mem': seq<byte>, bs: Blocks, free: seq<nat>, head: nat, b: nat)
    requires Carved(bs, |mem|) && Headers(mem, bs) && Chained(mem, bs, free, head) && b in bs && |mem'| == |mem|
    requires forall k | 0 <= k < |mem| && !(b + 16 <= k < b + bs[b]) :: mem'[k] == mem[k]
    ensures Headers(mem', bs) && Chained(mem', bs, free, head)
  {
    hide Get64, Distinct;
    forall h | h in bs
      ensures h + 16 <= |mem'| && Get64(mem', h) == bs[h]
    {
      PayloadHeader(mem, mem', bs, b, h);
    }
    forall i | 0 <= i < |free|
      ensures LinkOk(mem', bs, free, i)
    {
      assert LinkOk(mem, bs, free, i);
      PayloadHeader(mem, mem', bs, b, free[i]);
    }
  }

  lemma PayloadHeader(mem: seq<byte>, mem': seq<byte>, bs: Blocks, b: nat, h: nat)
    requires Carved(bs, |mem|) && b in bs && h in bs && |mem'| == |mem|
    requires forall k | 0 <= k < |mem| && !(b + 16 <= k < b + bs[b]) :: mem'[k] == mem[k]
    ensures h + 16 <= |mem| && Get64(mem', h) == Get64(mem, h) && Get64(mem', h + 8) == Get64(mem, h + 8)
  {
    hide Get64;
    assert BlockOk(bs, h, |mem|) && BlockOk(bs, b, |mem|);
    assert h != b ==> Apart(h, bs[h], b, bs[b]);
    Get64Frame(mem, mem', h);
    Get64Frame(mem, mem', h + 8);
  }

  /** A block `malloc` returns is sixteen-aligned, new to the live ones, and large enough; what was live
      stays live and as it was, and what is carved is still live or free. */
  lemma AllocatedIs(bs: Blocks, free: seq<nat>, bump: nat, bumpEnd: nat, size: nat, base: nat,
                    p: nat, bs': Blocks, free': seq<nat>, h: nat)
    requires AllFree(bs, free) && Distinct(free) && Allocated(bs, free, bump, bumpEnd, size, base, p, bs', free')
    requires p != 0
    ensures p >= 16 && p - 16 in bs' && p - 16 !in free' && bs'[p - 16] >= size + 16
    ensures p - 16 in bs ==> p - 16 in free
    ensures h in bs && h !in free ==> h in bs' && h !in free' && bs'[h] == bs[h] && h != p - 16
    ensures h in bs' && h !in free' <==> h == p - 16 || (h in bs && h !in free)
  {
    WantIs(size);
    var i := FirstFit(bs, free, Want(size));
    if i < |free| {
      WithoutDistinct(free, i);
      assert free[i] in free;
    }
    hide FirstFit, Want, Without, Distinct;
  }

  lemma WantIs(size: nat)
    ensures Want(size) % 16 == 0 && size + 16 <= Want(size) < size + 32
  {
  }

  lemma FreeEffect(mem: seq<byte>, bs: Blocks, free: seq<nat>, head: nat, b: nat)
    requires Carved(bs, |mem|) && Headers(mem, bs) && Chained(mem, bs, free, head) && |mem| < TWO64 && b in bs && b !in free
    ensures b + 16 <= |mem|
    ensures var mem' := Put64(mem, b + 8, head);
      Chained(mem', bs, [b] + free, b) && Headers(mem', bs) && PayloadsKept(mem, mem', bs)
  {
    assert BlockOk(bs, b, |mem|);
    hide Carved, Chained, Headers, PayloadsKept, Get64, Put64, BlockOk;
    HeadBound(mem, bs, free, head);
    LinkFront(mem, bs, free, head, b);
    LinkKeepsHeaders(mem, bs, b, head);
    LinkKeepsPayloads(mem, bs, b, head);
  }

  lemma HeadBound(mem: seq<byte>, bs: Blocks, free: seq<nat>, head: nat)
    requires Carved(bs, |mem|) && Chained(mem, bs, free, head)
    ensures head < TWO64
  {
    if free != [] {
      assert LinkOk(mem, bs, free, 0) && BlockOk(bs, free[0], |mem|);
    }
  }

  lemma ChunkHolds(want: nat)
    requires want % 16 == 0
    ensures want <= ChunkFor(want) == if want > 0x1_0000 then want else 0x1_0000
  {
  }

  lemma CarveEffect(mem: seq<byte>, bs: Blocks, free: seq<nat>, head: nat, bump: nat, bumpEnd: nat, want: nat)
    requires Carved(bs, |mem|) && Rest(bs, bump, bumpEnd, |mem|) && |mem| < TWO64
    requires 0 < bump && bump + want <= bumpEnd && 16 <= want && want % 16 == 0
    requires Headers(mem, bs) && Chained(mem, bs, free, head)
    ensures bump !in bs && bump + want <= bumpEnd <= |mem|
    ensures Carved(bs[bump := want], |mem|) && Rest(bs[bump := want], bump + want, bumpEnd, |mem|)
    ensures var mem' := Put64(mem, bump, want);
      Headers(mem', bs[bump := want]) && Chained(mem', bs[bump := want], free, head) && PayloadsKept(mem, mem', bs)
  {
    hide Carved, Rest, Chained, Headers, PayloadsKept, Put64;
    RestFits(bs, bump, bumpEnd, |mem|);
    CarveShape(bs, bump, bumpEnd, |mem|, want);
    CarveKeeps(mem, bs, free, head, bump, bumpEnd, want);
    CarveKeepsPayloads(mem, bs, bump, bumpEnd, want);
  }

  lemma RestFits(bs: Blocks, bump: nat, bumpEnd: nat, limit: nat)
    requires Rest(bs, bump, bumpEnd, limit)
    ensures bump <= bumpEnd <= limit
  {
  }

  /** What unlinking place `i` writes, and what that keeps. */
  lemma UnlinkEffect(mem: seq<byte>, bs: Blocks, free: seq<nat>, head: nat, i: nat)
    requires Carved(bs, |mem|) && Headers(mem, bs) && Chained(mem, bs, free, head) && i < |free| && |mem| < TWO64
    ensures free[i] + 16 <= |mem| && Get64(mem, free[i] + 8) == Link(free, i + 1)
    ensures i == 0 <==> Previous(free, i) == 0
    ensures i == 0 ==> Chained(mem, bs, Without(free, i), Link(free, i + 1)) && PayloadsKept(mem, mem, bs)
    ensures i > 0 ==> Previous(free, i) + 16 <= |mem|
    ensures i > 0 ==>
      var mem' := Put64(mem, Previous(free, i) + 8, Link(free, i + 1));
      Chained(mem', bs, Without(free, i), head) && Headers(mem', bs) && PayloadsKept(mem, mem', bs)
  {
    hide Carved, Chained, Headers, PayloadsKept, Get64, Put64, Without, Previous, Link;
    LinkReads(mem, bs, free, head, i);
    PreviousIs(mem, bs, free, head, i);
    if i == 0 {
      PayloadsRefl(mem, bs);
      UnlinkFirst(mem, bs, free, head);
    } else {
      LinkReads(mem, bs, free, head, i - 1);
      UnlinkLater(mem, bs, free, head, i);
      LinkKeepsHeaders(mem, bs, free[i - 1], Link(free, i + 1));
      LinkKeepsPayloads(mem, bs, free[i - 1], Link(free, i + 1));
    }
  }

  lemma PreviousIs(mem: seq<byte>, bs: Blocks, free: seq<nat>, head: nat, i: nat)
    requires Carved(bs, |mem|) && Chained(mem, bs, free, head) && i < |free|
    ensures i == 0 ==> Previous(free, i) == 0
    ensures i > 0 ==> Previous(free, i) == free[i - 1] > 0
  {
    FreeBlocks(mem, bs, free, head);
    assert i > 0 ==> free[i - 1] in free;
  }

  lemma FreeBlocks(mem: seq<byte>, bs: Blocks, free: seq<nat>, head: nat)
    requires Carved(bs, |mem|) && Chained(mem, bs, free, head)
    ensures AllFree(bs, free)
  {
    forall h | h in free
      ensures h in bs && h > 0
    {
      var i :| 0 <= i < |free| && free[i] == h;
      assert LinkOk(mem, bs, free, i) && BlockOk(bs, h, |mem|);
    }
  }

  lemma HeadIs(mem: seq<byte>, bs: Blocks, free: seq<nat>, head: nat)
    requires Carved(bs, |mem|) && Chained(mem, bs, free, head)
    ensures head == Link(free, 0) && Previous(free, 0) == 0 && (head == 0 <==> |free| == 0)
  {
    FreeBlocks(mem, bs, free, head);
    assert free != [] ==> free[0] in free;
  }

  lemma LinkReads(mem: seq<byte>, bs: Blocks, free: seq<nat>, head: nat, i: nat)
    requires Carved(bs, |mem|) && Chained(mem, bs, free, head) && Headers(mem, bs) && i < |free|
    ensures free[i] in bs && free[i] + 16 <= |mem| && Link(free, i) == free[i] && Previous(free, i + 1) == free[i]
    ensures Get64(mem, free[i]) == bs[free[i]] && Get64(mem, free[i] + 8) == Link(free, i + 1)
    ensures Link(free, i + 1) == 0 <==> i + 1 == |free|
  {
    assert LinkOk(mem, bs, free, i);
    FreeBlocks(mem, bs, free, head);
    assert i + 1 < |free| ==> free[i + 1] in free;
  }
}
