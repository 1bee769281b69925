/** Paging as the manual states it (Intel SDM Vol. 3A sections 4.5 and 4.6), in numbers, against the walk of
    emu/src/mmu.rs; and `boot_long_mode` of emu/src/machine.rs, an identity map open to every privilege. */
module LongMode {
  import opened Bytes
  import opened Mmu
  import opened PageTableUpdates
  import PageTables

  // --- the architecture in numbers ---------------------------------------------------------------

  /** The bytes one entry of a level maps: 512 GiB, 1 GiB, 2 MiB, 4 KiB. */
  function Reach(level: nat): (r: nat)
    ensures r > 0
  {
    if level == 0 then 0x80_0000_0000 else if level == 1 then 0x4000_0000 else if level == 2 then 0x20_0000 else 0x1000
  }

  /** Bits 51 to 12. */
  function Pointer(e: nat): nat { e % 0x10_0000_0000_0000 / 0x1000 * 0x1000 }

  /** Entry `k` of a walk that starts at `table` and `level`: the word in its slot, with bit 0 on. Bit 7 ends
      the walk at levels 1 and 2, and level 3 always does. */
  ghost predicate EntryAt(mem: seq<byte>, table: nat, level: nat, va: nat, es: seq<nat>, k: nat)
    requires k < |es|
  {
    var slot := (if k == 0 then table else Pointer(es[k - 1])) + va / Reach(level + k) % 512 * 8;
    && slot + 8 <= |mem| && es[k] == Value(mem[slot..slot + 8]) && es[k] % 2 == 1
    && (k + 1 == |es| <==> level + k == 3 || (level + k != 0 && es[k] / 128 % 2 == 1))
  }

  ghost predicate Entries(mem: seq<byte>, table: nat, level: nat, va: nat, es: seq<nat>) {
    && es != [] && level + |es| <= 4
    && forall k: nat {:trigger EntryAt(mem, table, level, va, es, k)} | k < |es| :: EntryAt(mem, table, level, va, es, k)
  }

  /** The entries of a walk are its first one and those of the walk from there. */
  lemma EntriesStep(mem: seq<byte>, table: nat, level: nat, va: nat, es: seq<nat>)
    requires |es| > 1
    ensures Entries(mem, table, level, va, es) <==>
      EntryAt(mem, table, level, va, es, 0) && Entries(mem, Pointer(es[0]), level + 1, va, es[1..])
  {
    var rest := es[1..];
    hide EntryAt, Pointer;
    if Entries(mem, Pointer(es[0]), level + 1, va, rest) && EntryAt(mem, table, level, va, es, 0) {
      forall k: nat {:trigger EntryAt(mem, table, level, va, es, k)} | k < |es|
        ensures EntryAt(mem, table, level, va, es, k)
      {
        if k > 0 {
          EntryShifts(mem, table, level, va, es, k - 1);
        }
      }
    }
    if Entries(mem, table, level, va, es) {
      forall k: nat {:trigger EntryAt(mem, Pointer(es[0]), level + 1, va, rest, k)} | k < |rest|
        ensures EntryAt(mem, Pointer(es[0]), level + 1, va, rest, k)
      {
        EntryShifts(mem, table, level, va, es, k);
      }
      assert EntryAt(mem, table, level, va, es, 0);
    }
  }

  lemma EntryShifts(mem: seq<byte>, table: nat, level: nat, va: nat, es: seq<nat>, k: nat)
    requires k + 1 < |es|
    ensures EntryAt(mem, Pointer(es[0]), level + 1, va, es[1..], k) <==> EntryAt(mem, table, level, va, es, k + 1)
  {
    hide Pointer, Value, Reach;
    var rest := es[1..];
    assert |rest| == |es| - 1 && rest[k] == es[k + 1] && (k > 0 ==> rest[k - 1] == es[k]);
  }

  /** The names the walk uses, in numbers. */
  lemma Names(va: nat, level: nat, e: nat)
    requires level < 4
    ensures Index(va, level) == va / Reach(level) % 512 && AddrBits(e) == Pointer(e) && (Present(e) <==> e % 2 == 1)
    ensures IsLeaf(e, level) <==> level == 3 || (level != 0 && e / 128 % 2 == 1)
  {
  }

  /** The first entry, as the walk sees it. */
  lemma FirstEntry(mem: seq<byte>, table: nat, level: nat, va: nat, es: seq<nat>)
    requires level < 4 && es != []
    ensures EntryAt(mem, table, level, va, es, 0) <==>
      var slot := table + Index(va, level) * 8;
      slot + 8 <= |mem| && es[0] == Get64(mem, slot) && Present(es[0]) && (|es| == 1 <==> IsLeaf(es[0], level))
  {
    Names(va, level, es[0]);
    hide Index, Present, IsLeaf, Reach, Value;
  }

  /** The walk's path is the manual's. */
  lemma {:induction false} PathIsEntries(mem: seq<byte>, table: nat, level: nat, va: nat, es: seq<nat>)
    requires level < 4
    ensures IsPath(mem, table, level, va, es) <==> Entries(mem, table, level, va, es)
    decreases |es|
  {
    if es != [] && level + |es| <= 4 {
      FirstEntry(mem, table, level, va, es);
      Names(va, level, es[0]);
      hide Index, Present, AddrBits, Pointer, EntryAt, Get64;
      if |es| > 1 {
        EntriesStep(mem, table, level, va, es);
        PathIsEntries(mem, Pointer(es[0]), level + 1, va, es[1..]);
      } else {
        assert Entries(mem, table, level, va, es) <==> EntryAt(mem, table, level, va, es, 0);
      }
    }
  }

  /** Long mode: CR0.PG, CR4.PAE and EFER.LMA. */
  predicate Paged(p: Paging) {
    p.cr0 / 0x8000_0000 % 2 == 1 && p.cr4 / 0x20 % 2 == 1 && p.efer / 0x400 % 2 == 1
  }

  /** The error code without its lowest bit: 2 for a write, 4 from ring 3, 16 for a fetch. */
  function Code(access: Access, user: bool): nat {
    match access
    case Read => if user then 4 else 0
    case Write => if user then 6 else 2
    case Execute => if user then 20 else 16
  }

  /** Every entry on the way allows it: bit 1 for a write, bit 2 from ring 3, and bit 63 off for a fetch when
      EFER.NXE is on. */
  ghost predicate Open(es: seq<nat>, p: Paging, access: Access, user: bool) {
    forall k {:trigger es[k]} | 0 <= k < |es| ::
      && (access == Write ==> es[k] / 2 % 2 == 1) && (user ==> es[k] / 4 % 2 == 1)
      && (access == Execute && p.efer / 0x800 % 2 == 1 ==> es[k] / 0x8000_0000_0000_0000 % 2 == 0)
  }

  /** The page a leaf entry at a level names, and the place in it. */
  function Target(e: nat, level: nat, va: nat): nat {
    e % 0x10_0000_0000_0000 / Reach(level) * Reach(level) + va % Reach(level)
  }

  /** Clearing the bits below a page and then those below a larger page. */
  lemma Rounded(x: nat, size: nat, k: nat)
    requires size == k * 0x1000 && k > 0
    ensures x / 0x1000 * 0x1000 - x / 0x1000 * 0x1000 % size == x / size * size
  {
    var q, r := x / size, x % size;
    var small := r / 0x1000;
    assert x == q * size + r && r == small * 0x1000 + r % 0x1000;
    assert q * size == q * k * 0x1000;
    Euclid(x, 0x1000, q * k + small, r % 0x1000);
    assert (q * k + small) * 0x1000 == q * size + small * 0x1000;
    Euclid(q * size + small * 0x1000, size, q, small * 0x1000);
  }

  lemma TargetIs(e: nat, level: nat, va: nat)
    requires 0 < level < 4
    ensures LeafFrame(e, level) + PageOffset(va, level) == Target(e, level, va)
  {
    Rounded(e % TWO52, 0x4000_0000, 0x4_0000);
    Rounded(e % TWO52, 0x20_0000, 0x200);
  }

  lemma LastLevel(mem: seq<byte>, table: nat, va: nat, es: seq<nat>)
    requires Entries(mem, table, 0, va, es)
    ensures 2 <= |es| <= 4
  {
    assert EntryAt(mem, table, 0, va, es, 0);
  }

  lemma AllowsIs(es: seq<nat>, p: Paging, access: Access, user: bool)
    ensures Allows(es, access, user, NxEnabled(p)) <==> Open(es, p, access, user)
  {
  }

  lemma CodesAre(access: Access, user: bool)
    ensures FaultCode(false, access, user) == Code(access, user) && FaultCode(true, access, user) == 1 + Code(access, user)
  {
  }

  lemma CanonicalIs(va: nat)
    requires va < TWO64
    ensures Canonical(va) <==> va < 0x8000_0000_0000 || va >= 0xFFFF_8000_0000_0000
  {
  }

  /** The emulator's translation is the manual's: off, not canonical, allowed, refused, missing. */
  lemma TranslateIsManual(mem: seq<byte>, p: Paging, va: nat, access: Access, user: bool, es: seq<nat>)
    requires va < TWO64
    ensures !Paged(p) ==> Translate(mem, p, va, access, user) == Mapped(va)
    ensures Paged(p) && 0x8000_0000_0000 <= va < 0xFFFF_8000_0000_0000 ==>
      Translate(mem, p, va, access, user) == PageFault(va, Code(access, user))
    ensures Paged(p) && !(0x8000_0000_0000 <= va < 0xFFFF_8000_0000_0000) && Entries(mem, Pointer(p.cr3), 0, va, es) ==>
      Translate(mem, p, va, access, user)
      == if Open(es, p, access, user) then Mapped(Target(es[|es| - 1], |es| - 1, va)) else PageFault(va, 1 + Code(access, user))
    ensures
      && Paged(p) && !(0x8000_0000_0000 <= va < 0xFFFF_8000_0000_0000)
      && (forall other :: !Entries(mem, Pointer(p.cr3), 0, va, other))
      ==> Translate(mem, p, va, access, user) == PageFault(va, Code(access, user))
  {
    CodesAre(access, user);
    CanonicalIs(va);
    Names(va, 0, p.cr3);
    assert Paged(p) <==> LongModePaging(p);
    AllowsIs(es, p, access, user);
    hide Entries, IsPath, AddrBits, Pointer, Canonical, LongModePaging, Paged, FaultCode, Code, WalkFrom, Allows, Open, LeafFrame,
      PageOffset, Target, NxEnabled, Index, Present, IsLeaf, Reach;
    if Paged(p) && Canonical(va) {
      TranslateByPath(mem, p, va, access, user, es);
      forall other
        ensures IsPath(mem, Pointer(p.cr3), 0, va, other) <==> Entries(mem, Pointer(p.cr3), 0, va, other)
      {
        PathIsEntries(mem, Pointer(p.cr3), 0, va, other);
      }
      if Entries(mem, Pointer(p.cr3), 0, va, es) {
        LastLevel(mem, Pointer(p.cr3), va, es);
        TargetIs(es[|es| - 1], |es| - 1, va);
      }
    }
  }

  // --- boot_long_mode ------------------------------------------------------------------------------

  const PML4: nat := 0x1000
  const PDPT: nat := 0x2000
  const PD0: nat := 0x3000

  function Directory(k: nat): nat { PD0 + k * 0x1000 }

  /** The entry of directory `k` at `i`: a 2 MiB page, present, writable, for users too. */
  function LargeAt(k: nat, i: nat): nat { k * 0x4000_0000 + i * 0x20_0000 + 0x87 }

  ghost predicate DirectoryEntry(mem: seq<byte>, k: nat, i: nat) {
    Directory(k) + i * 8 + 8 <= |mem| && Get64(mem, Directory(k) + i * 8) == LargeAt(k, i)
  }

  ghost predicate PointerEntry(mem: seq<byte>, k: nat) {
    PDPT + k * 8 + 8 <= |mem| && Get64(mem, PDPT + k * 8) == Directory(k) + 7
  }

  /** A word of the two upper tables that stays zero. */
  ghost predicate Spare(mem: seq<byte>, i: nat) {
    |mem| >= 0x7000 && (0 < i < 512 ==> Get64(mem, PML4 + i * 8) == 0) && (4 <= i < 512 ==> Get64(mem, PDPT + i * 8) == 0)
  }

  ghost predicate AllSpare(mem: seq<byte>) { forall i: nat {:trigger Spare(mem, i)} | i < 512 :: Spare(mem, i) }

  /** The tables with `p` pointers, `k` whole directories and `n` entries of the next. */
  ghost predicate Mapping(mem: seq<byte>, p: nat, k: nat, n: nat) {
    && |mem| >= 0x7000 && Get64(mem, PML4) == PDPT + 7
    && (forall j: nat {:trigger PointerEntry(mem, j)} | j < p :: PointerEntry(mem, j))
    && (forall j: nat, i: nat {:trigger DirectoryEntry(mem, j, i)} | i < 512 && (j < k || (j == k && i < n)) ::
          DirectoryEntry(mem, j, i))
  }

  /** Writing one word leaves the others. */
  lemma OtherWord(mem: seq<byte>, a: nat, v: nat, b: nat)
    requires a + 8 <= |mem| && b + 8 <= |mem| && a % 8 == 0 && b % 8 == 0 && a != b
    ensures Get64(Put64(mem, a, v), b) == Get64(mem, b)
  {
    hide Get64, Put64;
    Get64Frame(mem, Put64(mem, a, v), b);
  }

  lemma PointerKept(mem: seq<byte>, a: nat, v: nat, j: nat)
    requires a + 8 <= |mem| && a % 8 == 0 && PointerEntry(mem, j) && a != PDPT + j * 8
    ensures PointerEntry(Put64(mem, a, v), j)
  {
    hide Get64, Put64, Directory;
    OtherWord(mem, a, v, PDPT + j * 8);
  }

  lemma EntryKept(mem: seq<byte>, a: nat, v: nat, j: nat, i: nat)
    requires a + 8 <= |mem| && a % 8 == 0 && DirectoryEntry(mem, j, i) && a != Directory(j) + i * 8
    ensures DirectoryEntry(Put64(mem, a, v), j, i)
  {
    assert (Directory(j) + i * 8) % 8 == 0;
    hide Get64, Put64, Directory, LargeAt;
    OtherWord(mem, a, v, Directory(j) + i * 8);
  }

  /** A word after the `p` pointers, or after the entries. */
  predicate Beyond(a: nat, p: nat, k: nat, n: nat) {
    a % 8 == 0 && ((PDPT + p * 8 <= a < PD0) || (p <= 4 && Directory(k) + n * 8 <= a))
  }

  lemma BeyondPointer(a: nat, p: nat, k: nat, n: nat, j: nat)
    requires Beyond(a, p, k, n) && j < p
    ensures a != PDPT + j * 8
  {
  }

  lemma BeyondEntry(a: nat, p: nat, k: nat, n: nat, j: nat, i: nat)
    requires Beyond(a, p, k, n) && i < 512 && (j < k || (j == k && i < n))
    ensures a != Directory(j) + i * 8
  {
    assert j < k ==> Directory(j) + 0x1000 <= Directory(k);
  }

  lemma MappingKept(mem: seq<byte>, a: nat, v: nat, p: nat, k: nat, n: nat)
    requires Mapping(mem, p, k, n) && a + 8 <= |mem| && Beyond(a, p, k, n)
    ensures Mapping(Put64(mem, a, v), p, k, n)
  {
    OtherWord(mem, a, v, PML4);
    hide Get64, Put64, PointerEntry, DirectoryEntry, Directory;
    var mem' := Put64(mem, a, v);
    forall j: nat {:trigger PointerEntry(mem', j)} | j < p
      ensures PointerEntry(mem', j)
    {
      assert PointerEntry(mem, j);
      BeyondPointer(a, p, k, n, j);
      PointerKept(mem, a, v, j);
    }
    forall j: nat, i: nat {:trigger DirectoryEntry(mem', j, i)} | i < 512 && (j < k || (j == k && i < n))
      ensures DirectoryEntry(mem', j, i)
    {
      assert DirectoryEntry(mem, j, i);
      BeyondEntry(a, p, k, n, j, i);
      EntryKept(mem, a, v, j, i);
    }
  }

  lemma MorePointers(mem: seq<byte>, k: nat)
    requires Mapping(mem, k, k, 0) && PointerEntry(mem, k)
    ensures Mapping(mem, k + 1, k, 0)
  {
    hide Get64, PointerEntry, DirectoryEntry;
  }

  lemma MoreEntries(mem: seq<byte>, p: nat, k: nat, n: nat)
    requires Mapping(mem, p, k, n) && DirectoryEntry(mem, k, n)
    ensures Mapping(mem, p, k, n + 1)
  {
    hide Get64, PointerEntry, DirectoryEntry;
  }

  lemma PutPointer(mem: seq<byte>, k: nat)
    requires Mapping(mem, k, k, 0) && k < 4
    ensures Mapping(Put64(mem, PDPT + k * 8, Directory(k) + 7), k + 1, k, 0)
  {
    var a, v := PDPT + k * 8, Directory(k) + 7;
    MappingSize(mem, k, k, 0);
    hide Mapping, Get64, Put64, DirectoryEntry, Directory;
    PointerPlace(k);
    Get64Put64(mem, a, v);
    MappingKept(mem, a, v, k, k, 0);
    MorePointers(Put64(mem, a, v), k);
  }

  lemma PointerPlace(k: nat)
    requires k < 4
    ensures Beyond(PDPT + k * 8, k, k, 0) && PDPT + k * 8 + 8 <= 0x7000 && Directory(k) + 7 < TWO64
  {
  }

  lemma EntryPlace(k: nat, n: nat)
    requires k < 4 && n < 512
    ensures Beyond(Directory(k) + n * 8, k + 1, k, n) && Directory(k) + n * 8 + 8 <= 0x7000 && LargeAt(k, n) < TWO64
    ensures PD0 <= Directory(k) + n * 8
  {
  }

  lemma PutEntry(mem: seq<byte>, k: nat, n: nat)
    requires Mapping(mem, k + 1, k, n) && k < 4 && n < 512
    ensures Mapping(Put64(mem, Directory(k) + n * 8, LargeAt(k, n)), k + 1, k, n + 1)
  {
    var a, v := Directory(k) + n * 8, LargeAt(k, n);
    MappingSize(mem, k + 1, k, n);
    hide Mapping, Get64, Put64, PointerEntry, Directory, LargeAt;
    EntryPlace(k, n);
    Get64Put64(mem, a, v);
    MappingKept(mem, a, v, k + 1, k, n);
    MoreEntries(Put64(mem, a, v), k + 1, k, n);
  }

  /** None of the words written is a spare one. */
  lemma SpareKept(mem: seq<byte>, a: nat, v: nat)
    requires |mem| >= 0x7000 && a % 8 == 0 && a + 8 <= |mem| && (a == PML4 || PDPT <= a < PDPT + 32 || PD0 <= a)
    ensures AllSpare(mem) ==> AllSpare(Put64(mem, a, v))
  {
    if AllSpare(mem) {
      hide Spare, Put64;
      forall i: nat {:trigger Spare(Put64(mem, a, v), i)} | i < 512
        ensures Spare(Put64(mem, a, v), i)
      {
        assert Spare(mem, i);
        SpareWord(mem, a, v, i);
      }
    }
  }

  lemma SpareWord(mem: seq<byte>, a: nat, v: nat, i: nat)
    requires |mem| >= 0x7000 && a % 8 == 0 && a + 8 <= |mem| && (a == PML4 || PDPT <= a < PDPT + 32 || PD0 <= a)
    requires i < 512 && Spare(mem, i)
    ensures Spare(Put64(mem, a, v), i)
  {
    hide Get64, Put64;
    if i > 0 {
      OtherWord(mem, a, v, PML4 + i * 8);
    }
    if i >= 4 {
      OtherWord(mem, a, v, PDPT + i * 8);
    }
  }

  /** What the CPU starts with. */
  datatype Start = Start(paging: Paging, idtrBase: nat, idtrLimit: nat, cpl: nat, rip: nat, rsp: nat, tssRsp0: nat)

  /** One of the words, all between 0x1000 and 0x7000. */
  method PutWord(ram: array<byte>, a: nat, v: nat, ghost was: seq<byte>)
    requires 0x7000 <= ram.Length && a % 8 == 0 && (a == PML4 || PDPT <= a < PDPT + 32 || PD0 <= a < 0x7000)
    requires SameOutside(was, ram[..], 0x1000, 0x7000)
    modifies ram
    ensures ram[..] == Put64(old(ram[..]), a, v) && SameOutside(was, ram[..], 0x1000, 0x7000)
    ensures AllSpare(old(ram[..])) ==> AllSpare(ram[..])
  {
    SpareKept(ram[..], a, v);
    hide AllSpare, Put64;
    Write64(ram, a, v);
  }

  method FillDirectory(ram: array<byte>, k: nat, ghost was: seq<byte>)
    requires k < 4 && Mapping(ram[..], k + 1, k, 0) && SameOutside(was, ram[..], 0x1000, 0x7000)
    modifies ram
    ensures Mapping(ram[..], k + 1, k + 1, 0) && SameOutside(was, ram[..], 0x1000, 0x7000)
    ensures AllSpare(old(ram[..])) ==> AllSpare(ram[..])
  {
    hide AllSpare, Put64, SameOutside, Mapping, LargeAt, Directory;
    for i := 0 to 512
      invariant Mapping(ram[..], k + 1, k, i) && SameOutside(was, ram[..], 0x1000, 0x7000)
      invariant AllSpare(old(ram[..])) ==> AllSpare(ram[..])
    {
      MappingSize(ram[..], k + 1, k, i);
      EntryPlace(k, i);
      PutEntry(ram[..], k, i);
      PutWord(ram, Directory(k) + i * 8, LargeAt(k, i), was);
    }
    NextDirectory(ram[..], k);
  }

  lemma MappingSize(mem: seq<byte>, p: nat, k: nat, n: nat)
    requires Mapping(mem, p, k, n)
    ensures |mem| >= 0x7000
  {
  }

  lemma NextDirectory(mem: seq<byte>, k: nat)
    requires Mapping(mem, k + 1, k, 512)
    ensures Mapping(mem, k + 1, k + 1, 0)
  {
    hide Get64;
  }

  /** The four tables of pages, filled in place. */
  method IdentityTables(ram: array<byte>)
    requires 0x7000 <= ram.Length
    modifies ram
    ensures Mapping(ram[..], 4, 4, 0) && SameOutside(old(ram[..]), ram[..], 0x1000, 0x7000)
    ensures AllSpare(old(ram[..])) ==> AllSpare(ram[..])
  {
    hide AllSpare, Put64, Mapping, SameOutside, Directory;
    ghost var was := ram[..];
    NothingYet(was);
    FirstWord(was);
    PutWord(ram, PML4, PDPT + 7, was);
    for k := 0 to 4
      invariant Mapping(ram[..], k, k, 0) && SameOutside(was, ram[..], 0x1000, 0x7000)
      invariant AllSpare(was) ==> AllSpare(ram[..])
    {
      MappingSize(ram[..], k, k, 0);
      PointerPlace(k);
      PutPointer(ram[..], k);
      PutWord(ram, PDPT + k * 8, Directory(k) + 7, was);
      FillDirectory(ram, k, was);
    }
  }

  lemma NothingYet(mem: seq<byte>)
    ensures SameOutside(mem, mem, 0x1000, 0x7000)
  {
  }

  lemma FirstWord(mem: seq<byte>)
    requires |mem| >= 0x7000
    ensures Mapping(Put64(mem, PML4, PDPT + 7), 0, 0, 0)
  {
    hide Get64, Put64;
    Get64Put64(mem, PML4, PDPT + 7);
  }

  /** The walk of an address below 4 GiB. */
  function Steps(va: nat): seq<nat> {
    [PDPT + 7, Directory(va / 0x4000_0000) + 7, LargeAt(va / 0x4000_0000, va / 0x20_0000 % 512)]
  }

  lemma LowIndices(va: nat)
    requires va < TWO32
    ensures va / 0x80_0000_0000 % 512 == 0 && va / 0x4000_0000 < 4 && va / 0x4000_0000 % 512 == va / 0x4000_0000
    ensures va / 0x20_0000 % 512 < 512
  {
  }

  lemma LowSum(va: nat)
    requires va < TWO32
    ensures va == va / 0x4000_0000 * 0x4000_0000 + va / 0x20_0000 % 512 * 0x20_0000 + va % 0x20_0000
  {
  }

  /** The bits of an entry are those of its low twelve, and its frame is the rest. */
  lemma Flagged(f: nat, flags: nat)
    requires f % 0x1000 == 0 && f < 0x1_0000_0000 && flags < 0x1000
    ensures
      var e := f + flags;
      && e % 2 == flags % 2 && e / 2 % 2 == flags / 2 % 2 && e / 4 % 2 == flags / 4 % 2 && e / 128 % 2 == flags / 128 % 2
      && e / 0x8000_0000_0000_0000 % 2 == 0 && Pointer(e) == f
  {
    var q := f / 0x1000;
    PageTables.FlagBit(q, flags, 1, 2048);
    PageTables.FlagBit(q, flags, 2, 1024);
    PageTables.FlagBit(q, flags, 4, 512);
    PageTables.FlagBit(q, flags, 128, 16);
    Euclid(f + flags, 0x1000, q, flags);
    Euclid(f + flags, 0x10_0000_0000_0000, 0, f + flags);
    Euclid(f + flags, 0x8000_0000_0000_0000, 0, f + flags);
  }

  function PageOf(k: nat, i: nat): nat { k * 0x4000_0000 + i * 0x20_0000 }

  lemma PageFits(k: nat, i: nat)
    requires k < 4 && i < 512
    ensures PageOf(k, i) % 0x1000 == 0 && PageOf(k, i) < 0x1_0000_0000 && LargeAt(k, i) == PageOf(k, i) + 0x87
    ensures Directory(k) % 0x1000 == 0 && Directory(k) < 0x1_0000_0000
  {
    Euclid(PageOf(k, i), 0x1000, k * 0x4_0000 + i * 512, 0);
    Euclid(Directory(k), 0x1000, 3 + k, 0);
  }

  lemma PageTarget(k: nat, i: nat)
    requires k < 4 && i < 512
    ensures LargeAt(k, i) % 0x10_0000_0000_0000 / 0x20_0000 * 0x20_0000 == PageOf(k, i)
  {
    Euclid(LargeAt(k, i), 0x10_0000_0000_0000, 0, LargeAt(k, i));
    Euclid(LargeAt(k, i), 0x20_0000, k * 512 + i, 0x87);
  }

  lemma WordIs(mem: seq<byte>, a: nat)
    requires a + 8 <= |mem|
    ensures Get64(mem, a) == Value(mem[a..a + 8])
  {
    hide Value;
  }

  lemma StepsLead(mem: seq<byte>, va: nat)
    requires Mapping(mem, 4, 4, 0) && va < TWO32
    ensures Entries(mem, PML4, 0, va, Steps(va))
  {
    hide *;
    LowIndices(va);
    StepsAre(va);
    LeadAt(mem, va, va / 0x4000_0000, va / 0x20_0000 % 512, Steps(va));
  }

  lemma LeadAt(mem: seq<byte>, va: nat, k: nat, i: nat, es: seq<nat>)
    requires Mapping(mem, 4, 4, 0) && k < 4 && i < 512
    requires va / 0x80_0000_0000 % 512 == 0 && va / 0x4000_0000 % 512 == k && va / 0x20_0000 % 512 == i
    requires es == [PDPT + 7, Directory(k) + 7, LargeAt(k, i)]
    ensures Entries(mem, PML4, 0, va, es)
  {
    hide *;
    MappingFirst(mem);
    MappingWords(mem, k, i);
    PageFits(k, i);
    FirstStep(mem, va, k, i, es);
    SecondStep(mem, va, k, i, es);
    ThirdStep(mem, va, es, Directory(k), PageOf(k, i));
    ThreeEntries(mem, va, es);
  }

  lemma StepsAre(va: nat)
    ensures
      var k, i := va / 0x4000_0000, va / 0x20_0000 % 512;
      Steps(va) == [PDPT + 7, Directory(k) + 7, LargeAt(k, i)]
  {
  }

  lemma MappingWords(mem: seq<byte>, k: nat, i: nat)
    requires Mapping(mem, 4, 4, 0) && k < 4 && i < 512
    ensures PointerEntry(mem, k) && Directory(k) + i * 8 + 8 <= |mem| && Get64(mem, Directory(k) + i * 8) == LargeAt(k, i)
  {
    hide Get64, Directory, LargeAt;
    assert DirectoryEntry(mem, k, i);
  }

  lemma ThreeEntries(mem: seq<byte>, va: nat, es: seq<nat>)
    requires |es| == 3
    requires EntryAt(mem, PML4, 0, va, es, 0) && EntryAt(mem, PML4, 0, va, es, 1) && EntryAt(mem, PML4, 0, va, es, 2)
    ensures Entries(mem, PML4, 0, va, es)
  {
    hide EntryAt;
  }

  lemma MappingFirst(mem: seq<byte>)
    requires Mapping(mem, 4, 4, 0)
    ensures |mem| >= 0x7000 && PML4 + 8 <= |mem| && Get64(mem, PML4) == PDPT + 7
  {
  }

  lemma FirstStep(mem: seq<byte>, va: nat, k: nat, i: nat, es: seq<nat>)
    requires va / 0x80_0000_0000 % 512 == 0 && PML4 + 8 <= |mem| && Get64(mem, PML4) == PDPT + 7
    requires es == [PDPT + 7, Directory(k) + 7, LargeAt(k, i)]
    ensures EntryAt(mem, PML4, 0, va, es, 0)
  {
    WordIs(mem, PML4);
    Flagged(PDPT, 7);
    hide Get64, Value, Directory, LargeAt, Pointer;
  }

  lemma SecondStep(mem: seq<byte>, va: nat, k: nat, i: nat, es: seq<nat>)
    requires va / 0x4000_0000 % 512 == k && PointerEntry(mem, k) && Directory(k) % 0x1000 == 0 && Directory(k) < 0x1_0000_0000
    requires es == [PDPT + 7, Directory(k) + 7, LargeAt(k, i)]
    ensures EntryAt(mem, PML4, 0, va, es, 1)
  {
    WordIs(mem, PDPT + k * 8);
    hide Get64, Value, Directory, LargeAt, Pointer;
    Flagged(PDPT, 7);
    Flagged(Directory(k), 7);
  }

  lemma ThirdStep(mem: seq<byte>, va: nat, es: seq<nat>, d: nat, f: nat)
    requires |es| == 3 && es[1] == d + 7 && d % 0x1000 == 0 && d < 0x1_0000_0000
    requires es[2] == f + 0x87 && f % 0x1000 == 0 && f < 0x1_0000_0000
    requires
      var slot := d + va / 0x20_0000 % 512 * 8;
      slot + 8 <= |mem| && Get64(mem, slot) == es[2]
    ensures EntryAt(mem, PML4, 0, va, es, 2)
  {
    hide EntryAt;
    WordIs(mem, d + va / 0x20_0000 % 512 * 8);
    Flagged(d, 7);
    LargeBits(f);
    LastStep(mem, va, es, d);
  }

  lemma LargeBits(f: nat)
    requires f % 0x1000 == 0 && f < 0x1_0000_0000
    ensures (f + 0x87) % 2 == 1 && (f + 0x87) / 128 % 2 == 1 && Free(f + 0x87)
  {
    hide Pointer;
    Flagged(f, 0x87);
    assert 0x87 % 2 == 1 && 0x87 / 2 % 2 == 1 && 0x87 / 4 % 2 == 1 && 0x87 / 128 % 2 == 1;
  }

  lemma TableBits(f: nat)
    requires f % 0x1000 == 0 && f < 0x1_0000_0000
    ensures Free(f + 7)
  {
    Flagged(f, 7);
  }

  lemma LastStep(mem: seq<byte>, va: nat, es: seq<nat>, d: nat)
    requires |es| == 3 && Pointer(es[1]) == d && es[2] % 2 == 1 && es[2] / 128 % 2 == 1
    requires
      var slot := d + va / 0x20_0000 % 512 * 8;
      slot + 8 <= |mem| && es[2] == Value(mem[slot..slot + 8])
    ensures EntryAt(mem, PML4, 0, va, es, 2)
  {
    hide Pointer, Value;
  }

  ghost predicate Free(e: nat) { e / 2 % 2 == 1 && e / 4 % 2 == 1 && e / 0x8000_0000_0000_0000 % 2 == 0 }

  lemma FreeOpens(es: seq<nat>, p: Paging, access: Access, user: bool)
    requires forall k {:trigger es[k]} | 0 <= k < |es| :: Free(es[k])
    ensures Open(es, p, access, user)
  {
  }

  lemma AllFree(d: nat, f: nat, p: Paging, access: Access, user: bool)
    requires d % 0x1000 == 0 && d < 0x1_0000_0000 && f % 0x1000 == 0 && f < 0x1_0000_0000
    ensures Open([PDPT + 7, d + 7, f + 0x87], p, access, user)
  {
    hide Free, Open;
    TableBits(PDPT);
    TableBits(d);
    LargeBits(f);
    FreeOpens([PDPT + 7, d + 7, f + 0x87], p, access, user);
  }

  lemma StepsOpen(va: nat, p: Paging, access: Access, user: bool)
    requires va < TWO32
    ensures Open(Steps(va), p, access, user)
  {
    hide *;
    LowIndices(va);
    StepsAre(va);
    var k, i := va / 0x4000_0000, va / 0x20_0000 % 512;
    PageFits(k, i);
    AllFree(Directory(k), PageOf(k, i), p, access, user);
  }

  lemma StepsTarget(va: nat)
    requires va < TWO32
    ensures Target(Steps(va)[2], 2, va) == va
  {
    hide *;
    LowIndices(va);
    LowSum(va);
    StepsAre(va);
    LargeTarget(va, va / 0x4000_0000, va / 0x20_0000 % 512);
  }

  lemma LargeTarget(va: nat, k: nat, i: nat)
    requires k < 4 && i < 512 && va == k * 0x4000_0000 + i * 0x20_0000 + va % 0x20_0000
    ensures Target(LargeAt(k, i), 2, va) == va
  {
    hide LargeAt;
    PageTarget(k, i);
  }

  /** Below 4 GiB every access from every privilege goes to its own address. */
  lemma Identity(mem: seq<byte>, p: Paging, va: nat, access: Access, user: bool)
    requires Mapping(mem, 4, 4, 0) && Paged(p) && Pointer(p.cr3) == PML4 && va < TWO32
    ensures Translate(mem, p, va, access, user) == Mapped(va)
  {
    hide Mapping, Entries, Open, Target, Translate, Paged, Pointer, LargeAt, Directory;
    StepsLead(mem, va);
    StepsOpen(va, p, access, user);
    StepsTarget(va);
    TranslateIsManual(mem, p, va, access, user, Steps(va));
  }

  lemma HighIndices(va: nat)
    requires TWO32 <= va < TWO64 && !(0x8000_0000_0000 <= va < 0xFFFF_8000_0000_0000)
    ensures va / 0x80_0000_0000 % 512 > 0 || 4 <= va / 0x4000_0000 % 512
  {
    if va < 0x8000_0000_0000 {
      assert va / 0x80_0000_0000 < 256;
      if va / 0x80_0000_0000 == 0 {
        assert va / 0x4000_0000 < 512;
      }
    } else {
      var q := va / 0x80_0000_0000;
      assert 0x1FF_FF00 <= q < 0x200_0000;
      Euclid(q, 512, 0xFFFF, q - 0x1FF_FE00);
    }
  }

  lemma NoFirst(mem: seq<byte>, va: nat, es: seq<nat>)
    requires AllSpare(mem) && va / 0x80_0000_0000 % 512 > 0 && es != []
    ensures !EntryAt(mem, PML4, 0, va, es, 0)
  {
    var i := va / 0x80_0000_0000 % 512;
    assert Spare(mem, i);
    WordIs(mem, PML4 + i * 8);
    hide Get64, Value, Pointer;
  }

  lemma NoSecond(mem: seq<byte>, va: nat, es: seq<nat>)
    requires AllSpare(mem) && 4 <= va / 0x4000_0000 % 512 && |es| > 1 && es[0] == PDPT + 7
    ensures !EntryAt(mem, PML4, 0, va, es, 1)
  {
    var j := va / 0x4000_0000 % 512;
    assert Spare(mem, j);
    WordIs(mem, PDPT + j * 8);
    Flagged(PDPT, 7);
    hide Get64, Value, Pointer;
  }

  lemma OnlyFirst(mem: seq<byte>, va: nat, es: seq<nat>)
    requires |mem| >= 0x7000 && Get64(mem, PML4) == PDPT + 7 && va / 0x80_0000_0000 % 512 == 0
    requires es != [] && EntryAt(mem, PML4, 0, va, es, 0)
    ensures es[0] == PDPT + 7 && |es| > 1
  {
    WordIs(mem, PML4);
    Flagged(PDPT, 7);
    hide Get64, Value, Pointer;
  }

  lemma NoEntries(mem: seq<byte>, va: nat, es: seq<nat>)
    requires Mapping(mem, 4, 4, 0) && AllSpare(mem) && TWO32 <= va < TWO64
    requires !(0x8000_0000_0000 <= va < 0xFFFF_8000_0000_0000)
    ensures !Entries(mem, PML4, 0, va, es)
  {
    HighIndices(va);
    MappingFirst(mem);
    hide EntryAt, Mapping, AllSpare, Get64;
    if es != [] {
      if va / 0x80_0000_0000 % 512 > 0 {
        NoFirst(mem, va, es);
      } else if EntryAt(mem, PML4, 0, va, es, 0) {
        OnlyFirst(mem, va, es);
        NoSecond(mem, va, es);
      }
    }
  }

  /** In memory that started blank nothing else is mapped. */
  lemma NothingElse(mem: seq<byte>, p: Paging, va: nat, access: Access, user: bool)
    requires Mapping(mem, 4, 4, 0) && AllSpare(mem) && Paged(p) && Pointer(p.cr3) == PML4 && TWO32 <= va < TWO64
    ensures Translate(mem, p, va, access, user) == PageFault(va, Code(access, user))
  {
    hide Mapping, AllSpare, Entries, Translate, Paged, Pointer, Code, Open, Target;
    if !(0x8000_0000_0000 <= va < 0xFFFF_8000_0000_0000) {
      forall es
        ensures !Entries(mem, PML4, 0, va, es)
      {
        NoEntries(mem, va, es);
      }
    }
    TranslateIsManual(mem, p, va, access, user, []);
  }

  /** Nothing in the frames of the two upper tables yet. */
  ghost predicate Blank(mem: seq<byte>) { |mem| >= 0x7000 && forall k {:trigger mem[k]} | 0x1000 <= k < 0x3000 :: mem[k] == 0 }

  lemma BlankWord(mem: seq<byte>, a: nat)
    requires Blank(mem) && 0x1000 <= a && a + 8 <= 0x3000
    ensures Get64(mem, a) == 0
  {
    ZeroValue(mem[a..a + 8]);
  }

  lemma BlankSpares(mem: seq<byte>)
    ensures Blank(mem) ==> AllSpare(mem)
  {
    hide Get64;
    if Blank(mem) {
      forall i: nat {:trigger Spare(mem, i)} | i < 512
        ensures Spare(mem, i)
      {
        BlankWord(mem, PML4 + i * 8);
        BlankWord(mem, PDPT + i * 8);
      }
    }
  }

  /** `boot_long_mode`: tables for the low 4 GiB, and a CPU in ring 0 that pages through them. */
  method BootLongMode(ram: array<byte>, entry: nat, rsp: nat) returns (s: Start)
    requires 0x7000 <= ram.Length
    modifies ram
    ensures s.idtrBase == 0x1_0000 && s.idtrLimit == 0xFFF && s.cpl == 0 && s.rip == entry && s.rsp == rsp && s.tssRsp0 == rsp
    ensures SameOutside(old(ram[..]), ram[..], 0x1000, 0x7000)
    ensures forall va: u64, access, user | va < TWO32 :: Translate(ram[..], s.paging, va, access, user) == Mapped(va)
    ensures Blank(old(ram[..])) ==> forall va: u64, access, user | va >= TWO32 ::
      Translate(ram[..], s.paging, va, access, user) == PageFault(va, Code(access, user))
  {
    BlankSpares(ram[..]);
    IdentityTables(ram);
    var p := Paging(0x8000_0001, PML4, 0x20, 0xD00);
    s := Start(p, 0x1_0000, 256 * 16 - 1, 0, entry, rsp, rsp);
    assert Paged(p) && Pointer(p.cr3) == PML4;
    hide Mapping, AllSpare, Translate, Code, Paged, Pointer, SameOutside, Blank;
    forall va: u64, access, user | va < TWO32
      ensures Translate(ram[..], p, va, access, user) == Mapped(va)
    {
      Identity(ram[..], p, va, access, user);
    }
    if Blank(old(ram[..])) {
      forall va: u64, access, user | va >= TWO32
        ensures Translate(ram[..], p, va, access, user) == PageFault(va, Code(access, user))
      {
        NothingElse(ram[..], p, va, access, user);
      }
    }
  }
}
