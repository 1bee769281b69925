/** The long-mode page walk (Intel SDM Vol. 3A section 4.5): `emu/src/mmu.rs`. */
module Mmu {
  import opened Bytes

  datatype Paging = Paging(cr0: u64, cr3: u64, cr4: u64, efer: u64)
  datatype Access = Read | Write | Execute
  datatype Translation = Mapped(pa: nat) | PageFault(addr: nat, code: nat)

  const FAULT_P: nat := 1
  const FAULT_WR: nat := 2
  const FAULT_US: nat := 4
  const FAULT_ID: nat := 16

  const TWO52: nat := 0x10_0000_0000_0000
  const TWO48: nat := 0x1_0000_0000_0000
  const TWO47: nat := 0x8000_0000_0000
  const PAGE: nat := 0x1000
  const LARGE: nat := 0x20_0000
  const HUGE: nat := 0x4000_0000

  predicate Present(e: nat) { e % 2 == 1 }
  predicate Writable(e: nat) { e / 2 % 2 == 1 }
  predicate User(e: nat) { e / 4 % 2 == 1 }
  predicate PageSize(e: nat) { e / 128 % 2 == 1 }
  predicate NoExecute(e: nat) { e / 0x8000_0000_0000_0000 % 2 == 1 }

  /** `e & ADDR_MASK`: bits 51:12. */
  function AddrBits(e: nat): (f: nat)
    ensures f % PAGE == 0 && f <= e && f < TWO52
  {
    e % TWO52 / PAGE * PAGE
  }

  predicate LongModePaging(p: Paging) {
    && p.cr0 / 0x8000_0000 % 2 == 1
    && p.cr4 / 0x20 % 2 == 1
    && p.efer / 0x400 % 2 == 1
  }

  predicate NxEnabled(p: Paging) { p.efer / 0x800 % 2 == 1 }

  /** Bits 63:47 all equal. */
  predicate Canonical(va: nat) {
    va / TWO47 == 0 || va / TWO47 == 0x1_FFFF
  }

  /** The 9-bit table index at a level: `(va >> (39 - 9 * level)) & 0x1FF`. */
  function Index(va: nat, level: nat): (i: nat)
    requires level < 4
    ensures i < 512
  {
    if level == 0 then va / 0x80_0000_0000 % 512
    else if level == 1 then va / HUGE % 512
    else if level == 2 then va / LARGE % 512
    else va / PAGE % 512
  }

  predicate IsLeaf(e: nat, level: nat) {
    level == 3 || (PageSize(e) && (level == 1 || level == 2))
  }

  datatype Rights = Rights(writable: bool, user: bool, executable: bool)

  function Narrow(r: Rights, e: nat, nxe: bool): Rights {
    Rights(r.writable && Writable(e), r.user && User(e), r.executable && !(nxe && NoExecute(e)))
  }

  /** Where a walk from `table` at `level` ends: nowhere, or at a leaf entry with the rights
      accumulated on the way. */
  datatype Walk = Missing | Leaf(entry: nat, level: nat, rights: Rights)

  function WalkFrom(mem: seq<byte>, table: nat, level: nat, va: nat, r: Rights, nxe: bool): (w: Walk)
    requires level < 4
    ensures w.Leaf? ==> level <= w.level < 4 && IsLeaf(w.entry, w.level)
    decreases 4 - level
  {
    var slot := table + Index(va, level) * 8;
    if slot + 8 > |mem| then Missing
    else
      var e := Get64(mem, slot);
      if !Present(e) then Missing
      else
        var r' := Narrow(r, e, nxe);
        if IsLeaf(e, level) then Leaf(e, level, r')
        else WalkFrom(mem, AddrBits(e), level + 1, va, r', nxe)
  }

  function FaultCode(present: bool, access: Access, user: bool): nat {
    (if present then FAULT_P else 0) + (if access.Write? then FAULT_WR else 0) +
    (if user then FAULT_US else 0) + (if access.Execute? then FAULT_ID else 0)
  }

  predicate Permits(r: Rights, access: Access, user: bool) {
    && (access.Write? ==> r.writable)
    && (user ==> r.user)
    && (access.Execute? ==> r.executable)
  }

  /** The frame a leaf names, low bits below the page size cleared. */
  function LeafFrame(e: nat, level: nat): (f: nat)
    requires level < 4
    ensures f <= AddrBits(e)
  {
    if level == 1 then AddrBits(e) - AddrBits(e) % HUGE
    else if level == 2 then AddrBits(e) - AddrBits(e) % LARGE
    else AddrBits(e)
  }

  function PageOffset(va: nat, level: nat): (o: nat)
    requires level < 4
  {
    if level == 1 then va % HUGE else if level == 2 then va % LARGE else va % PAGE
  }

  const FullRights := Rights(true, true, true)

  /** The translation `mmu::translate` computes. */
  function Translate(mem: seq<byte>, p: Paging, va: nat, access: Access, user: bool): (t: Translation)
  {
    if !LongModePaging(p) then Mapped(va)
    else if !Canonical(va) then PageFault(va, FaultCode(false, access, user))
    else
      match WalkFrom(mem, AddrBits(p.cr3), 0, va, FullRights, NxEnabled(p))
      case Missing => PageFault(va, FaultCode(false, access, user))
      case Leaf(e, level, r) =>
        if Permits(r, access, user) then Mapped(LeafFrame(e, level) + PageOffset(va, level))
        else PageFault(va, FaultCode(true, access, user))
  }

  /** The loop of `mmu::translate` over the four levels, narrowing the rights as it descends. */
  method WalkLoop(mem: array<byte>, root: nat, va: u64, nxe: bool) returns (w: Walk)
    ensures w == WalkFrom(mem[..], root, 0, va, FullRights, nxe)
  {
    hide Index, AddrBits, Present, Writable, User, PageSize, NoExecute;
    var rights := FullRights;
    var table: nat, level: nat := root, 0;
    while true
      invariant level < 4
      invariant WalkFrom(mem[..], root, 0, va, FullRights, nxe) == WalkFrom(mem[..], table, level, va, rights, nxe)
      decreases 4 - level
    {
      var slot := table + Index(va, level) * 8;
      if slot + 8 > mem.Length {
        return Missing;
      }
      var e := Get64(mem[..], slot);
      if !Present(e) {
        return Missing;
      }
      rights := rights.(writable := rights.writable && Writable(e), user := rights.user && User(e));
      if nxe {
        rights := rights.(executable := rights.executable && !NoExecute(e));
      }
      if level == 3 || (PageSize(e) && (level == 1 || level == 2)) {
        return Leaf(e, level, rights);
      }
      table := AddrBits(e);
      level := level + 1;
    }
  }

  /** `mmu::translate` itself: the permission checks at the leaf, in the source's order. */
  method TranslateLoop(mem: array<byte>, p: Paging, va: u64, access: Access, user: bool) returns (t: Translation)
    ensures t == Translate(mem[..], p, va, access, user)
  {
    hide WalkFrom, AddrBits, LeafFrame, PageOffset;
    if !LongModePaging(p) {
      return Mapped(va);
    }
    if !Canonical(va) {
      return PageFault(va, FaultCode(false, access, user));
    }
    var w := WalkLoop(mem, AddrBits(p.cr3), va, NxEnabled(p));
    if w.Missing? {
      return PageFault(va, FaultCode(false, access, user));
    }
    if access == Write && !w.rights.writable {
      return PageFault(va, FaultCode(true, access, user));
    }
    if user && !w.rights.user {
      return PageFault(va, FaultCode(true, access, user));
    }
    if access == Execute && !w.rights.executable {
      return PageFault(va, FaultCode(true, access, user));
    }
    return Mapped(LeafFrame(w.entry, w.level) + PageOffset(va, w.level));
  }

  // --- permissions ------------------------------------------------------------------------

  /** The entries a walk passes, from the one in `table` at `level` down to a leaf, all present. */
  ghost predicate IsPath(mem: seq<byte>, table: nat, level: nat, va: nat, es: seq<nat>)
    decreases |es|
  {
    && level < 4 && es != [] && level + |es| <= 4
    && var slot := table + Index(va, level) * 8;
    && slot + 8 <= |mem| && es[0] == Get64(mem, slot) && Present(es[0])
    && if IsLeaf(es[0], level) then |es| == 1 else IsPath(mem, AddrBits(es[0]), level + 1, va, es[1..])
  }

  /** Every entry of the path allows the access. */
  ghost predicate Allows(es: seq<nat>, access: Access, user: bool, nxe: bool) {
    forall k {:trigger es[k]} | 0 <= k < |es| ::
      && (access == Write ==> Writable(es[k])) && (user ==> User(es[k]))
      && (access == Execute && nxe ==> !NoExecute(es[k]))
  }

  lemma {:induction false} WalkFollowsPath(mem: seq<byte>, table: nat, level: nat, va: nat, r: Rights, nxe: bool,
                                           es: seq<nat>, access: Access, user: bool)
    requires IsPath(mem, table, level, va, es)
    ensures
      var w := WalkFrom(mem, table, level, va, r, nxe);
      && w.Leaf? && w.entry == es[|es| - 1] && w.level == level + |es| - 1
      && (Permits(w.rights, access, user) <==> Permits(r, access, user) && Allows(es, access, user, nxe))
    decreases |es|
  {
    hide Index, AddrBits, Present, PageSize, Get64, Allows, Narrow, Permits, IsLeaf;
    NarrowPermits(r, es, access, user, nxe);
    if !IsLeaf(es[0], level) {
      WalkFollowsPath(mem, AddrBits(es[0]), level + 1, va, Narrow(r, es[0], nxe), nxe, es[1..], access, user);
    }
  }

  lemma NarrowPermits(r: Rights, es: seq<nat>, access: Access, user: bool, nxe: bool)
    requires es != []
    ensures
      Permits(Narrow(r, es[0], nxe), access, user) && (|es| > 1 ==> Allows(es[1..], access, user, nxe))
      <==> Permits(r, access, user) && Allows(es, access, user, nxe)
  {
    hide Writable, User, NoExecute;
    assert es == [es[0]] + es[1..];
  }

  lemma {:induction false} WalkHasPath(mem: seq<byte>, table: nat, level: nat, va: nat, r: Rights, nxe: bool)
    returns (es: seq<nat>)
    requires level < 4
    ensures WalkFrom(mem, table, level, va, r, nxe).Leaf? ==> IsPath(mem, table, level, va, es)
    decreases 4 - level
  {
    hide Index, AddrBits, Present, Writable, User, PageSize, NoExecute, Get64;
    es := [];
    if WalkFrom(mem, table, level, va, r, nxe).Leaf? {
      var e := Get64(mem, table + Index(va, level) * 8);
      es := [e];
      if !IsLeaf(e, level) {
        var rest := WalkHasPath(mem, AddrBits(e), level + 1, va, Narrow(r, e, nxe), nxe);
        es := [e] + rest;
        assert es[1..] == rest;
      }
    }
  }

  /** A canonical address translates exactly when its walk ends at a leaf and every entry on the way allows
      the access; the fault code tells the two failures apart by its present bit. */
  lemma TranslateByPath(mem: seq<byte>, p: Paging, va: nat, access: Access, user: bool, es: seq<nat>)
    requires LongModePaging(p) && Canonical(va)
    ensures IsPath(mem, AddrBits(p.cr3), 0, va, es) ==>
      Translate(mem, p, va, access, user) ==
        if Allows(es, access, user, NxEnabled(p))
        then Mapped(LeafFrame(es[|es| - 1], |es| - 1) + PageOffset(va, |es| - 1))
        else PageFault(va, FaultCode(true, access, user))
    ensures (forall es' :: !IsPath(mem, AddrBits(p.cr3), 0, va, es')) ==>
      Translate(mem, p, va, access, user) == PageFault(va, FaultCode(false, access, user))
  {
    hide WalkFrom, LongModePaging, NxEnabled, Canonical, AddrBits, LeafFrame, PageOffset, Allows;
    if IsPath(mem, AddrBits(p.cr3), 0, va, es) {
      WalkFollowsPath(mem, AddrBits(p.cr3), 0, va, FullRights, NxEnabled(p), es, access, user);
    } else {
      var found := WalkHasPath(mem, AddrBits(p.cr3), 0, va, FullRights, NxEnabled(p));
    }
  }
}
