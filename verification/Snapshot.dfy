/** Saving a machine and bringing it back (emu/src/machine.rs): `snapshot` writes every captured register,
    device field and queue and the non-zero pages of RAM; `restore` reads them with a moving cursor. */
module Snapshot {
  import opened Bytes
  import Codec

  datatype Cpu = Cpu(
    regs: seq<nat>, rip: nat, rflags: nat, gsBase: nat, fsBase: nat, xmm: seq<nat>,
    cr0: nat, cr3: nat, cr4: nat, efer: nat, cr2: nat, cr8: nat, cpl: nat,
    idtrBase: nat, idtrLimit: nat, gdtrBase: nat, gdtrLimit: nat,
    star: nat, lstar: nat, sfmask: nat, kernelGsBase: nat, tssRsp0: nat, trBase: nat, icount: nat)

  datatype Uart = Uart(tx: seq<byte>, rx: seq<byte>, ier: nat, lcr: nat, mcr: nat)

  datatype Apic = Apic(
    id: nat, svr: nat, tpr: nat, lvtTimer: nat, initialCount: nat, currentCount: nat, divideConfig: nat, irr: seq<nat>)

  datatype Devices = Devices(uart: Uart, apic: Apic, ps2: seq<byte>)

  /** What a snapshot captures. */
  datatype Image = Image(cpu: Cpu, dev: Devices, ram: seq<byte>)

  /** A page with its index. */
  datatype Saved = Saved(index: nat, bytes: seq<byte>)

  /** What a blob says: registers, devices, a size of RAM, pages in any order, and bytes nothing reads. */
  datatype Content = Content(cpu: Cpu, dev: Devices, len: nat, saved: seq<Saved>, rest: seq<byte>)

  // --- the layout of a blob ---------------------------------------------------------

  datatype Part = Words(vs: seq<nat>, width: nat) | Queue(q: seq<byte>) | Raw(bytes: seq<byte>)

  function WordBytes(vs: seq<nat>, w: nat): (s: seq<byte>)
    ensures |s| == |vs| * w
  {
    if vs == [] then [] else
      assert |vs| * w == w + (|vs| - 1) * w;
      Le(vs[0], w) + WordBytes(vs[1..], w)
  }

  function PartBytes(p: Part): seq<byte> {
    match p
    case Words(vs, w) => WordBytes(vs, w)
    case Queue(q) => Le(|q|, 4) + q
    case Raw(b) => b
  }

  function Flatten(ps: seq<Part>): seq<byte> {
    if ps == [] then [] else PartBytes(ps[0]) + Flatten(ps[1..])
  }

  const PAGE: nat := 4096
  const MAGIC: seq<byte> := [0x4E, 0x58, 0x53, 0x31]

  /** The number of whole pages in `len` bytes. */
  function PagesIn(len: nat): (n: nat)
    ensures n * PAGE <= len < (n + 1) * PAGE
  {
    len / 4096
  }

  function Page(ram: seq<byte>, i: nat): seq<byte>
    requires (i + 1) * PAGE <= |ram|
  {
    ram[i * PAGE..(i + 1) * PAGE]
  }

  predicate Zero(s: seq<byte>) { forall k | 0 <= k < |s| :: s[k] == 0 }

  /** The pages among the first `n` that are not all zero. */
  function Touched(ram: seq<byte>, n: nat): (idx: seq<nat>)
    requires n * PAGE <= |ram|
    ensures |idx| <= n && forall i {:trigger i in idx} :: i in idx <==> 0 <= i < n && !Zero(Page(ram, i))
  {
    if n == 0 then [] else Touched(ram, n - 1) + (if Zero(Page(ram, n - 1)) then [] else [n - 1])
  }

  ghost predicate InRam(ram: seq<byte>, idx: seq<nat>) {
    forall k {:trigger idx[k]} | 0 <= k < |idx| :: (idx[k] + 1) * PAGE <= |ram|
  }

  function SavedOf(ram: seq<byte>, idx: seq<nat>): (sv: seq<Saved>)
    requires InRam(ram, idx)
    ensures |sv| == |idx| && forall k {:trigger sv[k]} | 0 <= k < |idx| :: sv[k] == Saved(idx[k], Page(ram, idx[k]))
  {
    seq(|idx|, (k: nat) requires k < |idx| && InRam(ram, idx) => Saved(idx[k], Page(ram, idx[k])))
  }

  /** The index and contents of each of some pages. */
  function SavedBytes(sv: seq<Saved>): seq<byte> {
    if sv == [] then [] else (Le(sv[0].index, 4) + sv[0].bytes) + SavedBytes(sv[1..])
  }

  lemma TouchedInRam(ram: seq<byte>, n: nat)
    requires n * PAGE <= |ram|
    ensures InRam(ram, Touched(ram, n))
  {
    var idx := Touched(ram, n);
    forall k {:trigger idx[k]} | 0 <= k < |idx|
      ensures (idx[k] + 1) * PAGE <= |ram|
    {
      assert idx[k] in idx;
    }
  }

  /** The pages of RAM that are not all zero. */
  function RamPages(ram: seq<byte>): seq<Saved> {
    TouchedInRam(ram, PagesIn(|ram|));
    SavedOf(ram, Touched(ram, PagesIn(|ram|)))
  }

  /** Part `k` of a blob. */
  function PartAt(x: Content, k: nat): Part {
    var c, u, a := x.cpu, x.dev.uart, x.dev.apic;
    match k
    case 0 => Raw(MAGIC)
    case 1 => Words([x.len], 4)
    case 2 => Words(c.regs, 8)
    case 3 => Words([c.rip, c.rflags, c.gsBase, c.fsBase], 8)
    case 4 => Words(c.xmm, 16)
    case 5 => Words([c.cr0, c.cr3, c.cr4, c.efer, c.cr2, c.cr8], 8)
    case 6 => Words([c.cpl], 1)
    case 7 => Words([c.idtrBase], 8)
    case 8 => Words([c.idtrLimit], 2)
    case 9 => Words([c.gdtrBase], 8)
    case 10 => Words([c.gdtrLimit], 2)
    case 11 => Words([c.star, c.lstar, c.sfmask, c.kernelGsBase, c.tssRsp0, c.trBase, c.icount], 8)
    case 12 => Queue(u.tx)
    case 13 => Queue(u.rx)
    case 14 => Words([u.ier, u.lcr, u.mcr], 1)
    case 15 => Words([a.id, a.svr, a.tpr, a.lvtTimer, a.initialCount, a.currentCount, a.divideConfig], 4)
    case 16 => Words(a.irr, 8)
    case 17 => Queue(x.dev.ps2)
    case 18 => Words([|x.saved|], 4)
    case _ => Raw(SavedBytes(x.saved) + x.rest)
  }

  function Parts(x: Content): (ps: seq<Part>)
    ensures |ps| == 20 && forall k {:trigger ps[k]} | 0 <= k < 20 :: ps[k] == PartAt(x, k)
  {
    seq(20, (k: nat) => PartAt(x, k))
  }

  function Encoded(x: Content): seq<byte> { Flatten(Parts(x)) }

  /** What a snapshot of `m` says. */
  function ContentOf(m: Image): Content { Content(m.cpu, m.dev, |m.ram|, RamPages(m.ram), []) }

  function Blob(m: Image): seq<byte> { Encoded(ContentOf(m)) }

  // --- widths -----------------------------------------------------------------------

  ghost predicate AllFit(vs: seq<nat>, w: nat) { forall k {:trigger vs[k]} | 0 <= k < |vs| :: vs[k] < Pow256(w) }

  ghost predicate PartFits(p: Part) {
    match p
    case Words(vs, w) => AllFit(vs, w)
    case Queue(q) => |q| < Pow256(4)
    case Raw(_) => true
  }

  ghost predicate PageFits(sv: Saved) { sv.index < TWO32 && |sv.bytes| == PAGE }

  ghost predicate PagesFit(sv: seq<Saved>) { forall k {:trigger sv[k]} | 0 <= k < |sv| :: PageFits(sv[k]) }

  /** Every field fits its width, there are sixteen general and sixteen vector registers and four words
      of pending interrupts, and the pages have the size of a page. */
  ghost predicate Fits(x: Content) {
    && |x.cpu.regs| == 16 && |x.cpu.xmm| == 16 && |x.dev.apic.irr| == 4 && PagesFit(x.saved)
    && forall k {:trigger PartAt(x, k)} | 0 <= k < 19 :: PartFits(PartAt(x, k))
  }

  /** The same of a machine, whose RAM is smaller than 4 GiB. */
  ghost predicate Wellformed(m: Image) {
    && |m.cpu.regs| == 16 && |m.cpu.xmm| == 16 && |m.dev.apic.irr| == 4 && |m.ram| < TWO32
    && forall k {:trigger PartAt(ContentOf(m), k)} | 0 <= k < 18 :: PartFits(PartAt(ContentOf(m), k))
  }

  lemma WellformedFits(m: Image)
    requires Wellformed(m)
    ensures Fits(ContentOf(m))
  {
    var x := ContentOf(m);
    RamPagesFit(m.ram);
    Pow256Constants();
    hide Pow256, RamPages, PageFits;
    forall k {:trigger PartAt(x, k)} | 0 <= k < 19
      ensures PartFits(PartAt(x, k))
    {
      if k == 18 {
        assert PartAt(x, 18) == Words([|x.saved|], 4);
      }
    }
  }

  lemma RamPagesFit(ram: seq<byte>)
    requires |ram| < TWO32
    ensures PagesFit(RamPages(ram)) && |RamPages(ram)| <= |ram|
  {
    var idx := Touched(ram, PagesIn(|ram|));
    TouchedInRam(ram, PagesIn(|ram|));
    hide Touched, Page;
    var sv := SavedOf(ram, idx);
    forall k {:trigger sv[k]} | 0 <= k < |sv|
      ensures PageFits(sv[k])
    {
      PageSize(ram, idx[k]);
    }
  }

  // --- reading ------------------------------------------------------------------------

  lemma FlattenFrom(ps: seq<Part>, k: nat)
    requires k < |ps|
    ensures Flatten(ps[k..]) == PartBytes(ps[k]) + Flatten(ps[k + 1..])
  {
    assert ps[k..][0] == ps[k] && ps[k..][1..] == ps[k + 1..];
  }

  lemma HeadOf(a: seq<byte>, b: seq<byte>)
    ensures (a + b)[..|a|] == a && (a + b)[|a|..] == b
  {
  }

  /** A fixed-width integer off the front. */
  method Take(c: seq<byte>, w: nat, ghost v: nat, ghost rest: seq<byte>) returns (r: nat, c': seq<byte>)
    requires c == Le(v, w) + rest && v < Pow256(w)
    ensures r == v && c' == rest
  {
    HeadOf(Le(v, w), rest);
    ValueOfLe(v, w);
    hide Le, Value, Pow256;
    r, c' := Value(c[..w]), c[w..];
  }

  /** `n` integers off the front. */
  method TakeWords(c: seq<byte>, n: nat, w: nat, ghost vs: seq<nat>, ghost rest: seq<byte>)
    returns (r: seq<nat>, c': seq<byte>)
    requires c == WordBytes(vs, w) + rest && |vs| == n && AllFit(vs, w)
    ensures r == vs && c' == rest
  {
    r, c' := [], c;
    hide Le, Pow256, AllFit;
    assert vs[0..] == vs;
    for k := 0 to n
      invariant r == vs[..k] && c' == WordBytes(vs[k..], w) + rest
    {
      WordsFrom(vs, w, k, rest);
      var v;
      v, c' := Take(c', w, vs[k], WordBytes(vs[k + 1..], w) + rest);
      r := r + [v];
    }
    assert vs[n..] == [];
  }

  lemma WordsFrom(vs: seq<nat>, w: nat, k: nat, rest: seq<byte>)
    requires k < |vs| && AllFit(vs, w)
    ensures WordBytes(vs[k..], w) + rest == Le(vs[k], w) + (WordBytes(vs[k + 1..], w) + rest)
    ensures vs[k] < Pow256(w)
  {
    hide Le, Pow256;
    assert vs[k..][0] == vs[k] && vs[k..][1..] == vs[k + 1..];
  }

  /** A queue off the front: a length, then that many bytes. */
  method TakeQueue(c: seq<byte>, ghost q: seq<byte>, ghost rest: seq<byte>) returns (r: seq<byte>, c': seq<byte>)
    requires c == (Le(|q|, 4) + q) + rest && |q| < Pow256(4)
    ensures r == q && c' == rest
  {
    hide Le, Pow256;
    assert c == Le(|q|, 4) + (q + rest);
    var n;
    n, c' := Take(c, 4, |q|, q + rest);
    r := [];
    for k := 0 to n
      invariant r == q[..k] && c' == q[k..] + rest
    {
      assert c'[0] == q[k] && c'[1..] == q[k + 1..] + rest;
      r := r + [c'[0]];
      c' := c'[1..];
    }
    assert q[n..] == [];
  }

  // --- pages of RAM ----------------------------------------------------------------------

  /** The length of the whole pages in `len` bytes. */
  function Whole(len: nat): (w: nat)
    ensures w <= len
  {
    PagesIn(len) * PAGE
  }

  function Zeros(n: nat): (s: seq<byte>)
    ensures |s| == n && Zero(s)
  {
    seq(n, _ => 0)
  }

  /** Page `p` of `ram` is the source's if it has been copied, and zero if not. */
  ghost predicate PageOk(ram: seq<byte>, was: seq<byte>, done: seq<nat>, p: nat) {
    && (p + 1) * PAGE <= |ram| && (p + 1) * PAGE <= |was|
    && Page(ram, p) == if p in done then Page(was, p) else Zeros(PAGE)
  }

  /** RAM with the pages `done` copied from `was`, and zero elsewhere. */
  ghost predicate Filled(ram: seq<byte>, was: seq<byte>, done: seq<nat>) {
    && |ram| == |was| && (forall p: nat {:trigger PageOk(ram, was, done, p)} | p < PagesIn(|was|) :: PageOk(ram, was, done, p))
    && ram[Whole(|was|)..] == Zeros(|was| - Whole(|was|))
  }

  function CopyPage(ram: seq<byte>, i: nat, page: seq<byte>): (r: seq<byte>)
    requires |page| == PAGE && (i + 1) * PAGE <= |ram|
    ensures |r| == |ram|
  {
    ram[..i * PAGE] + page + ram[(i + 1) * PAGE..]
  }

  ghost predicate AllIn(len: nat, sv: seq<Saved>) {
    forall k {:trigger sv[k]} | 0 <= k < |sv| :: |sv[k].bytes| == PAGE && (sv[k].index + 1) * PAGE <= len
  }

  /** Pages written in order, the later over the earlier. */
  ghost function Written(ram: seq<byte>, sv: seq<Saved>): (r: seq<byte>)
    requires AllIn(|ram|, sv)
    ensures |r| == |ram|
    decreases |sv|
  {
    if sv == [] then ram
    else
      var n := |sv| - 1;
      CopyPage(Written(ram, sv[..n]), sv[n].index, sv[n].bytes)
  }

  /** How many pages lie in RAM before the first that does not. */
  function Upto(len: nat, sv: seq<Saved>): (n: nat)
    ensures n <= |sv| && (n < |sv| ==> (sv[n].index + 1) * PAGE > len)
    ensures forall k {:trigger sv[k]} | 0 <= k < n :: (sv[k].index + 1) * PAGE <= len
    decreases |sv|
  {
    if sv == [] || (sv[0].index + 1) * PAGE > len then 0
    else
      assert forall k | 0 < k < |sv| :: sv[k] == sv[1..][k - 1];
      1 + Upto(len, sv[1..])
  }

  /** Writing the pages of a snapshot onto cleared RAM. */
  lemma {:induction false} WrittenFills(was: seq<byte>, idx: seq<nat>)
    requires InRam(was, idx)
    ensures AllIn(|was|, SavedOf(was, idx)) && Filled(Written(Zeros(|was|), SavedOf(was, idx)), was, idx)
    decreases |idx|
  {
    hide Filled, Page, CopyPage, Zeros, PagesIn;
    var sv := SavedOf(was, idx);
    SavedIn(was, idx);
    if idx == [] {
      FilledNone(Zeros(|was|), was);
    } else {
      var n := |idx| - 1;
      WrittenFills(was, idx[..n]);
      assert sv[..n] == SavedOf(was, idx[..n]);
      assert AllIn(|was|, sv[..n]);
      IndexFits(was, idx[n]);
      FilledMore(Written(Zeros(|was|), sv[..n]), was, idx[..n], idx[n]);
      assert idx[..n] + [idx[n]] == idx;
    }
  }

  lemma SavedIn(was: seq<byte>, idx: seq<nat>)
    requires InRam(was, idx)
    ensures AllIn(|was|, SavedOf(was, idx))
  {
    var sv := SavedOf(was, idx);
    forall k {:trigger sv[k]} | 0 <= k < |sv|
      ensures |sv[k].bytes| == PAGE && (sv[k].index + 1) * PAGE <= |was|
    {
      PageSize(was, idx[k]);
    }
  }

  /** A snapshot's pages on cleared RAM are what it kept. */
  lemma WrittenKept(ram: seq<byte>)
    ensures AllIn(|ram|, RamPages(ram)) && Written(Zeros(|ram|), RamPages(ram)) == Kept(ram)
  {
    hide Written, Kept, Filled, Touched, AllIn;
    TouchedInRam(ram, PagesIn(|ram|));
    WrittenFills(ram, Touched(ram, PagesIn(|ram|)));
    FilledAll(Written(Zeros(|ram|), RamPages(ram)), ram);
  }

  lemma CopyPageOther(ram: seq<byte>, i: nat, page: seq<byte>, p: nat)
    requires |page| == PAGE && (i + 1) * PAGE <= |ram| && (p + 1) * PAGE <= |ram|
    ensures Page(CopyPage(ram, i, page), p) == if p == i then page else Page(ram, p)
  {
    var r := CopyPage(ram, i, page);
    if p < i {
      assert Page(r, p) == Page(ram, p);
    } else if p > i {
      assert Page(r, p) == Page(ram, p);
    }
  }

  lemma PageOkMore(ram: seq<byte>, was: seq<byte>, done: seq<nat>, i: nat, p: nat)
    requires |ram| == |was| && (i + 1) * PAGE <= |was| && PageOk(ram, was, done, p)
    ensures PageOk(CopyPage(ram, i, Page(was, i)), was, done + [i], p)
  {
    CopyPageOther(ram, i, Page(was, i), p);
    hide CopyPage, Page, Zeros;
  }

  lemma FilledMore(ram: seq<byte>, was: seq<byte>, done: seq<nat>, i: nat)
    requires Filled(ram, was, done) && i < PagesIn(|was|)
    ensures (i + 1) * PAGE <= |was| && Filled(CopyPage(ram, i, Page(was, i)), was, done + [i])
  {
    var r, n := CopyPage(ram, i, Page(was, i)), PagesIn(|was|);
    CopyPageOther(ram, i, Page(was, i), i);
    forall p: nat {:trigger PageOk(r, was, done + [i], p)} | p < n
      ensures PageOk(r, was, done + [i], p)
    {
      assert PageOk(ram, was, done, p);
      PageOkMore(ram, was, done, i, p);
    }
    hide PageOk, Page, Zeros;
    assert r[n * PAGE..] == ram[n * PAGE..];
  }

  lemma FilledNone(ram: seq<byte>, was: seq<byte>)
    requires |ram| == |was| && Zero(ram)
    ensures Filled(ram, was, [])
  {
    forall p: nat {:trigger PageOk(ram, was, [], p)} | p < PagesIn(|was|)
      ensures PageOk(ram, was, [], p)
    {
      assert (p + 1) * PAGE <= |was|;
      assert Page(ram, p) == Zeros(PAGE);
    }
    assert ram[Whole(|was|)..] == Zeros(|was| - Whole(|was|));
  }

  /** What a snapshot keeps of RAM: its whole pages, and zeros after them. */
  function Kept(ram: seq<byte>): seq<byte> {
    ram[..Whole(|ram|)] + Zeros(|ram| - Whole(|ram|))
  }

  lemma SamePages(a: seq<byte>, b: seq<byte>, n: nat)
    requires n * PAGE <= |a| && n * PAGE <= |b| && forall p: nat {:trigger Page(a, p)} | p < n :: Page(a, p) == Page(b, p)
    ensures a[..n * PAGE] == b[..n * PAGE]
  {
    if n > 0 {
      SamePages(a, b, n - 1);
      assert a[..n * PAGE] == a[..(n - 1) * PAGE] + Page(a, n - 1);
      assert b[..n * PAGE] == b[..(n - 1) * PAGE] + Page(b, n - 1);
      assert Page(a, n - 1) == Page(b, n - 1);
    }
  }

  lemma PageBack(ram: seq<byte>, was: seq<byte>, n: nat, p: nat)
    requires n * PAGE <= |was| && p < n && PageOk(ram, was, Touched(was, n), p)
    ensures Page(ram, p) == Page(was, p)
  {
    if p !in Touched(was, n) {
      assert Zero(Page(was, p));
      assert Page(was, p) == Zeros(PAGE);
    }
  }

  lemma AllBack(ram: seq<byte>, was: seq<byte>, n: nat)
    requires n * PAGE <= |was| && |ram| == |was|
    requires forall p: nat {:trigger PageOk(ram, was, Touched(was, n), p)} | p < n :: PageOk(ram, was, Touched(was, n), p)
    ensures ram[..n * PAGE] == was[..n * PAGE]
  {
    hide Touched, PageOk, Zeros;
    forall p: nat {:trigger Page(ram, p)} | p < n
      ensures Page(ram, p) == Page(was, p)
    {
      PageBack(ram, was, n, p);
    }
    hide Page;
    SamePages(ram, was, n);
  }

  lemma FilledIs(ram: seq<byte>, was: seq<byte>, done: seq<nat>)
    requires Filled(ram, was, done)
    ensures |ram| == |was| && ram[Whole(|was|)..] == Zeros(|was| - Whole(|was|))
    ensures forall p: nat {:trigger PageOk(ram, was, done, p)} | p < PagesIn(|was|) :: PageOk(ram, was, done, p)
  {
  }

  lemma WholeIs(len: nat)
    ensures Whole(len) == PagesIn(len) * PAGE
  {
  }

  lemma FilledWhole(ram: seq<byte>, was: seq<byte>)
    requires Filled(ram, was, Touched(was, PagesIn(|was|)))
    ensures |ram| == |was| && ram[..Whole(|was|)] == was[..Whole(|was|)]
    ensures ram[Whole(|was|)..] == Zeros(|was| - Whole(|was|))
  {
    hide *;
    FilledIs(ram, was, Touched(was, PagesIn(|was|)));
    WholeIs(|was|);
    AllBack(ram, was, PagesIn(|was|));
  }

  /** Once every touched page is back, RAM is what the snapshot kept. */
  lemma FilledAll(ram: seq<byte>, was: seq<byte>)
    requires Filled(ram, was, Touched(was, PagesIn(|was|)))
    ensures ram == Kept(was)
  {
    hide *;
    FilledWhole(ram, was);
    Halves(ram, Whole(|was|));
    KeptIs(was);
  }

  lemma KeptIs(ram: seq<byte>)
    ensures Kept(ram) == ram[..Whole(|ram|)] + Zeros(|ram| - Whole(|ram|))
  {
  }

  lemma Halves(s: seq<byte>, i: nat)
    requires i <= |s|
    ensures s == s[..i] + s[i..]
  {
  }

  /** That is RAM itself exactly when the bytes past the last whole page are zero. */
  lemma KeptIsRam(ram: seq<byte>)
    ensures Kept(ram) == ram <==> Zero(ram[Whole(|ram|)..])
    ensures |ram| % PAGE == 0 ==> Kept(ram) == ram
    ensures |Kept(ram)| == |ram| && RamPages(Kept(ram)) == RamPages(ram)
  {
    var n := PagesIn(|ram|);
    assert ram == ram[..n * PAGE] + ram[n * PAGE..];
    assert Kept(ram)[n * PAGE..] == Zeros(|ram| - n * PAGE);
    if Kept(ram) == ram {
      assert ram[n * PAGE..] == Zeros(|ram| - n * PAGE);
    }
    if Zero(ram[n * PAGE..]) {
      assert ram[n * PAGE..] == Zeros(|ram| - n * PAGE);
    }
    KeptPages(ram);
    SameTouched(ram, Kept(ram), n);
    TouchedInRam(ram, n);
    SameEntries(ram, Kept(ram), n, Touched(ram, n));
  }

  lemma {:induction false} SameTouched(a: seq<byte>, b: seq<byte>, n: nat)
    requires n * PAGE <= |a| && n * PAGE <= |b| && forall p: nat {:trigger Page(a, p)} | p < n :: Page(a, p) == Page(b, p)
    ensures Touched(a, n) == Touched(b, n)
  {
    if n > 0 {
      SameTouched(a, b, n - 1);
      assert Page(a, n - 1) == Page(b, n - 1);
    }
  }

  lemma SameEntries(a: seq<byte>, b: seq<byte>, n: nat, idx: seq<nat>)
    requires n * PAGE <= |a| && n * PAGE <= |b| && forall p: nat {:trigger Page(a, p)} | p < n :: Page(a, p) == Page(b, p)
    requires forall k {:trigger idx[k]} | 0 <= k < |idx| :: idx[k] < n
    ensures InRam(a, idx) && InRam(b, idx) && SavedOf(a, idx) == SavedOf(b, idx)
  {
    hide Page;
    assert InRam(a, idx) && InRam(b, idx);
    var sa, sb := SavedOf(a, idx), SavedOf(b, idx);
    forall k | 0 <= k < |idx|
      ensures sa[k] == sb[k]
    {
      assert Page(a, idx[k]) == Page(b, idx[k]);
    }
  }

  // --- the machine ---------------------------------------------------------------------------

  method PutWords(o: seq<byte>, vs: seq<nat>, w: nat) returns (o': seq<byte>)
    ensures o' == o + WordBytes(vs, w)
  {
    o' := o;
    assert vs[0..] == vs;
    hide Le;
    for k := 0 to |vs|
      invariant o' + WordBytes(vs[k..], w) == o + WordBytes(vs, w)
    {
      assert vs[k..][0] == vs[k] && vs[k..][1..] == vs[k + 1..];
      o' := o' + Le(vs[k], w);
    }
    assert vs[|vs|..] == [];
  }

  lemma FlattenMore(ps: seq<Part>, k: nat)
    requires k < |ps|
    ensures Flatten(ps[..k + 1]) == Flatten(ps[..k]) + PartBytes(ps[k])
  {
    FlattenSum(ps[..k], ps[k]);
    assert ps[..k + 1] == ps[..k] + [ps[k]];
  }

  lemma {:induction false} FlattenSum(ps: seq<Part>, p: Part)
    ensures Flatten(ps + [p]) == Flatten(ps) + PartBytes(p)
  {
    hide PartBytes;
    if ps == [] {
      assert (ps + [p])[1..] == [];
    } else {
      assert (ps + [p])[1..] == ps[1..] + [p];
      FlattenSum(ps[1..], p);
    }
  }

  /** Append part `k`. */
  method Emit(o: seq<byte>, vs: seq<nat>, w: nat, ghost ps: seq<Part>, ghost k: nat) returns (o': seq<byte>)
    requires k < |ps| && ps[k] == Words(vs, w) && o == Flatten(ps[..k])
    ensures o' == Flatten(ps[..k + 1])
  {
    FlattenMore(ps, k);
    o' := PutWords(o, vs, w);
  }

  method EmitQueue(o: seq<byte>, q: seq<byte>, ghost ps: seq<Part>, ghost k: nat) returns (o': seq<byte>)
    requires k < |ps| && ps[k] == Queue(q) && o == Flatten(ps[..k])
    ensures o' == Flatten(ps[..k + 1])
  {
    FlattenMore(ps, k);
    o' := PutQueue(o, q);
  }

  method PutQueue(o: seq<byte>, q: seq<byte>) returns (o': seq<byte>)
    ensures o' == o + (Le(|q|, 4) + q)
  {
    hide Le;
    o' := o + Le(|q|, 4);
    ghost var start := o';
    for k := 0 to |q|
      invariant o' == start + q[..k]
    {
      o' := o' + [q[k]];
    }
    assert q[..|q|] == q;
  }

  lemma {:induction false} SavedMore(sv: seq<Saved>, x: Saved)
    ensures SavedBytes(sv + [x]) == SavedBytes(sv) + (Le(x.index, 4) + x.bytes)
  {
    hide Le;
    var more := sv + [x];
    if sv == [] {
      assert more == [x] && more[1..] == [];
      assert SavedBytes(more[1..]) == [];
    } else {
      SavedMore(sv[1..], x);
      assert more[1..] == sv[1..] + [x] && more[0] == sv[0];
    }
  }

  lemma PagesMore(ram: seq<byte>, idx: seq<nat>, i: nat)
    requires InRam(ram, idx) && (i + 1) * PAGE <= |ram|
    ensures InRam(ram, idx + [i]) && SavedBytes(SavedOf(ram, idx + [i])) == SavedBytes(SavedOf(ram, idx)) + (Le(i, 4) + Page(ram, i))
  {
    hide Le, Page, SavedBytes;
    assert InRam(ram, idx + [i]);
    assert SavedOf(ram, idx + [i]) == SavedOf(ram, idx) + [Saved(i, Page(ram, i))];
    SavedMore(SavedOf(ram, idx), Saved(i, Page(ram, i)));
  }

  /** The pages of RAM that are not all zero, and how many. */
  method PutPages(ram: seq<byte>) returns (o: seq<byte>, count: nat)
    ensures count == |RamPages(ram)| && o == SavedBytes(RamPages(ram))
  {
    hide Le, Page, Zero, SavedBytes, SavedOf;
    o, count := [], 0;
    var pages := PagesIn(|ram|);
    NoPages(ram);
    for i := 0 to pages
      invariant count == |Touched(ram, i)| && InRam(ram, Touched(ram, i)) && o == SavedBytes(SavedOf(ram, Touched(ram, i)))
    {
      var page := Page(ram, i);
      PagesMore(ram, Touched(ram, i), i);
      assert Touched(ram, i) + [] == Touched(ram, i);
      if !Zero(page) {
        o := o + (Le(i, 4) + page);
        count := count + 1;
      }
    }
  }

  lemma NoPages(ram: seq<byte>)
    ensures InRam(ram, []) && SavedBytes(SavedOf(ram, [])) == []
  {
  }

  class Machine {
    var cpu: Cpu
    var dev: Devices
    const ram: array<byte>

    constructor (cpu: Cpu, dev: Devices, ram: array<byte>)
      ensures this.cpu == cpu && this.dev == dev && this.ram == ram
    {
      this.cpu, this.dev, this.ram := cpu, dev, ram;
    }

    function Captured(): Image
      reads this, ram
    {
      Image(cpu, dev, ram[..])
    }

    method SnapshotCpu(o: seq<byte>, ghost ps: seq<Part>) returns (r: seq<byte>)
      requires ps == Parts(ContentOf(Captured())) && o == Flatten(ps[..2])
      ensures r == Flatten(ps[..12])
    {
      hide Flatten, Parts, RamPages;
      r := Emit(o, cpu.regs, 8, ps, 2);
      r := Emit(r, [cpu.rip, cpu.rflags, cpu.gsBase, cpu.fsBase], 8, ps, 3);
      r := Emit(r, cpu.xmm, 16, ps, 4);
      r := Emit(r, [cpu.cr0, cpu.cr3, cpu.cr4, cpu.efer, cpu.cr2, cpu.cr8], 8, ps, 5);
      r := Emit(r, [cpu.cpl], 1, ps, 6);
      r := Emit(r, [cpu.idtrBase], 8, ps, 7);
      r := Emit(r, [cpu.idtrLimit], 2, ps, 8);
      r := Emit(r, [cpu.gdtrBase], 8, ps, 9);
      r := Emit(r, [cpu.gdtrLimit], 2, ps, 10);
      r := Emit(r, [cpu.star, cpu.lstar, cpu.sfmask, cpu.kernelGsBase, cpu.tssRsp0, cpu.trBase, cpu.icount], 8, ps, 11);
    }

    method SnapshotDevices(o: seq<byte>, ghost ps: seq<Part>) returns (r: seq<byte>)
      requires ps == Parts(ContentOf(Captured())) && o == Flatten(ps[..12])
      ensures r == Flatten(ps[..18])
    {
      hide Flatten, Parts, RamPages;
      var u, a := dev.uart, dev.apic;
      r := EmitQueue(o, u.tx, ps, 12);
      r := EmitQueue(r, u.rx, ps, 13);
      r := Emit(r, [u.ier, u.lcr, u.mcr], 1, ps, 14);
      r := Emit(r, [a.id, a.svr, a.tpr, a.lvtTimer, a.initialCount, a.currentCount, a.divideConfig], 4, ps, 15);
      r := Emit(r, a.irr, 8, ps, 16);
      r := EmitQueue(r, dev.ps2, ps, 17);
    }

    /** `snapshot`. */
    method Save() returns (blob: seq<byte>)
      ensures blob == Blob(Captured())
    {
      ghost var x := ContentOf(Captured());
      ghost var ps := Parts(x);
      StartOf(x, ps);
      hide Flatten, Parts, RamPages, SavedBytes, Le;
      blob := MAGIC;
      blob := Emit(blob, [ram.Length], 4, ps, 1);
      blob := SnapshotCpu(blob, ps);
      blob := SnapshotDevices(blob, ps);
      ghost var head := blob;
      var at := |blob|;
      blob := blob + Le(0, 4);
      var pages, count := PutPages(ram[..]);
      blob := blob + pages;
      Patched(head, pages, count);
      blob := Put(blob, at, count, 4);
      EndOf(x, ps, head);
    }

    method Clear()
      modifies ram
      ensures Zero(ram[..])
    {
      for i := 0 to ram.Length
        invariant forall k | 0 <= k < i :: ram[k] == 0
      {
        ram[i] := 0;
      }
    }

    /** `restore` of a blob that is not cut short, or that does not start like one. It succeeds exactly when
        the sizes of RAM agree and every page lies in RAM; then every captured register, device field and
        queue is the blob's and RAM is its pages, in order, on zeros. A page outside RAM stops it after the
        pages before; without the magic bytes, or with another size of RAM, nothing changes. */
    method Restore(blob: seq<byte>, ghost x: Content) returns (ok: bool)
      requires |blob| >= 8 && blob[..4] == MAGIC ==> blob == Encoded(x) && Fits(x)
      modifies this, ram
      ensures
        if |blob| >= 8 && blob[..4] == MAGIC && x.len == ram.Length then
          var n := Upto(ram.Length, x.saved);
          && (ok <==> n == |x.saved|) && cpu == x.cpu && dev == x.dev
          && AllIn(ram.Length, x.saved[..n]) && ram[..] == Written(Zeros(ram.Length), x.saved[..n])
        else !ok && Captured() == old(Captured())
    {
      hide Fits, Parts, Flatten, Upto, AllIn, Written, Zeros;
      if |blob| < 8 || blob[..4] != MAGIC {
        return false;
      }
      ghost var ps := Parts(x);
      var c := blob[4..];
      var len;
      len, c := RestoreHeader(c, blob, x, ps);
      if len != ram.Length {
        return false;
      }
      ok := RestoreBody(c, x, ps);
    }

    method RestoreBody(c0: seq<byte>, ghost x: Content, ghost ps: seq<Part>) returns (ok: bool)
      requires Fits(x) && ps == Parts(x) && c0 == Flatten(ps[2..])
      modifies this, ram
      ensures
        var n := Upto(ram.Length, x.saved);
        && (ok <==> n == |x.saved|) && cpu == x.cpu && dev == x.dev
        && AllIn(ram.Length, x.saved[..n]) && ram[..] == Written(Zeros(ram.Length), x.saved[..n])
    {
      hide Fits, Parts, Flatten, SavedBytes, PartFits, PartAt, Zero, Upto, AllIn, Written, Zeros, PagesFit;
      Sizes(x);
      var c, ps2, uart, apic, count;
      cpu, c := RestoreRegisters(c0, cpu, x, ps);
      cpu, c := RestoreTables(c, cpu, x, ps);
      assert cpu == x.cpu;
      uart, c := RestoreUart(c, x, ps);
      apic, c := RestoreApic(c, x, ps);
      ps2, count, c := RestoreRest(c, x, ps);
      dev := Devices(uart, apic, ps2);
      Clear();
      ok := RestorePages(c, count, ram, x.saved, x.rest);
    }
  }

  /** The size of RAM, after the four magic bytes. */
  method RestoreHeader(c: seq<byte>, ghost blob: seq<byte>, ghost x: Content, ghost ps: seq<Part>)
    returns (len: nat, c': seq<byte>)
    requires Fits(x) && ps == Parts(x) && |blob| >= 4 && blob == Flatten(ps) && c == blob[4..]
    ensures len == x.len && c' == Flatten(ps[2..])
  {
    FlattenFrom(ps, 0);
    FitsAt(x, 1);
    assert ps[0..] == ps;
    HeadOf(MAGIC, Flatten(ps[1..]));
    hide Flatten, Parts, PartFits, Fits, SavedBytes;
    var words;
    words, c' := Consume(c, 1, 4, ps, 1);
    len := words[0];
  }

  /** The keyboard queue and the number of saved pages; the pages follow. */
  method RestoreRest(c: seq<byte>, ghost x: Content, ghost ps: seq<Part>)
    returns (ps2: seq<byte>, count: nat, c': seq<byte>)
    requires Fits(x) && ps == Parts(x) && c == Flatten(ps[17..])
    ensures ps2 == x.dev.ps2 && count == |x.saved| && c' == SavedBytes(x.saved) + x.rest
  {
    LastBytes(x, ps);
    TailParts(x);
    hide *;
    var words;
    ps2, c' := ConsumeQueue(c, ps, 17);
    words, c' := Consume(c', 1, 4, ps, 18);
    count := words[0];
  }

  lemma TailParts(x: Content)
    requires Fits(x)
    ensures Parts(x)[17] == Queue(x.dev.ps2) && PartFits(Parts(x)[17])
    ensures Parts(x)[18] == Words([|x.saved|], 4) && PartFits(Parts(x)[18])
  {
    FitsAt(x, 17);
    FitsAt(x, 18);
    hide PartFits, SavedBytes;
  }

  lemma LastBytes(x: Content, ps: seq<Part>)
    requires ps == Parts(x)
    ensures Flatten(ps[19..]) == SavedBytes(x.saved) + x.rest
  {
    hide *;
    FlattenFrom(ps, 19);
    LastParts(x);
    FlattenNone(ps);
  }

  lemma FlattenNone(ps: seq<Part>)
    ensures Flatten(ps[|ps|..]) == []
  {
  }

  lemma StartOf(x: Content, ps: seq<Part>)
    requires ps == Parts(x)
    ensures Flatten(ps[..1]) == MAGIC
  {
    FlattenMore(ps, 0);
  }

  lemma Patched(head: seq<byte>, pages: seq<byte>, count: nat)
    ensures Put(head + Le(0, 4) + pages, |head|, count, 4) == head + Le(count, 4) + pages
  {
    hide Le;
  }

  lemma OneWord(v: nat, w: nat)
    ensures WordBytes([v], w) == Le(v, w)
  {
    hide Le;
    assert [v][1..] == [];
    assert WordBytes([], w) == [];
  }

  lemma LastParts(x: Content)
    ensures PartBytes(PartAt(x, 18)) == Le(|x.saved|, 4) && PartBytes(PartAt(x, 19)) == SavedBytes(x.saved) + x.rest
  {
    OneWord(|x.saved|, 4);
    hide Le, WordBytes, SavedBytes;
  }

  lemma EndOf(x: Content, ps: seq<Part>, head: seq<byte>)
    requires ps == Parts(x) && head == Flatten(ps[..18]) && x.rest == []
    ensures head + Le(|x.saved|, 4) + SavedBytes(x.saved) == Flatten(ps)
  {
    hide *;
    FlattenMore(ps, 18);
    FlattenMore(ps, 19);
    LastParts(x);
    assert ps[..20] == ps;
    assert SavedBytes(x.saved) + [] == SavedBytes(x.saved);
  }

  // --- restoring -------------------------------------------------------------------------------

  /** Part `k` off the front. */
  method Consume(c: seq<byte>, n: nat, w: nat, ghost ps: seq<Part>, ghost k: nat) returns (r: seq<nat>, c': seq<byte>)
    requires k < |ps| && c == Flatten(ps[k..]) && ps[k].Words? && ps[k].width == w && |ps[k].vs| == n && PartFits(ps[k])
    ensures r == ps[k].vs && c' == Flatten(ps[k + 1..])
  {
    FlattenFrom(ps, k);
    hide Flatten, AllFit, WordBytes;
    r, c' := TakeWords(c, n, w, ps[k].vs, Flatten(ps[k + 1..]));
  }

  method ConsumeQueue(c: seq<byte>, ghost ps: seq<Part>, ghost k: nat) returns (r: seq<byte>, c': seq<byte>)
    requires k < |ps| && c == Flatten(ps[k..]) && ps[k].Queue? && PartFits(ps[k])
    ensures r == ps[k].q && c' == Flatten(ps[k + 1..])
  {
    FlattenFrom(ps, k);
    hide Flatten, Le, Pow256;
    r, c' := TakeQueue(c, ps[k].q, Flatten(ps[k + 1..]));
  }

  lemma FitsAt(x: Content, k: nat)
    requires Fits(x) && k < 19
    ensures Parts(x)[k] == PartAt(x, k) && PartFits(PartAt(x, k))
  {
  }

  /** The general, control and vector registers. */
  method RestoreRegisters(c: seq<byte>, cpu0: Cpu, ghost x: Content, ghost ps: seq<Part>) returns (cpu: Cpu, c': seq<byte>)
    requires Fits(x) && ps == Parts(x) && c == Flatten(ps[2..])
    ensures c' == Flatten(ps[7..])
    ensures cpu == cpu0.(regs := x.cpu.regs, rip := x.cpu.rip, rflags := x.cpu.rflags, gsBase := x.cpu.gsBase,
                         fsBase := x.cpu.fsBase, xmm := x.cpu.xmm, cr0 := x.cpu.cr0, cr3 := x.cpu.cr3, cr4 := x.cpu.cr4,
                         efer := x.cpu.efer, cr2 := x.cpu.cr2, cr8 := x.cpu.cr8, cpl := x.cpu.cpl)
  {
    Sizes(x);
    FitsAt(x, 2);
    FitsAt(x, 3);
    FitsAt(x, 4);
    FitsAt(x, 5);
    FitsAt(x, 6);
    hide Flatten, Parts, PartFits, Fits, SavedBytes;
    var regs, rip, xmm, cr, cpl;
    regs, c' := Consume(c, 16, 8, ps, 2);
    rip, c' := Consume(c', 4, 8, ps, 3);
    xmm, c' := Consume(c', 16, 16, ps, 4);
    cr, c' := Consume(c', 6, 8, ps, 5);
    cpl, c' := Consume(c', 1, 1, ps, 6);
    cpu := cpu0.(regs := regs, rip := rip[0], rflags := rip[1], gsBase := rip[2], fsBase := rip[3], xmm := xmm,
                 cr0 := cr[0], cr3 := cr[1], cr4 := cr[2], efer := cr[3], cr2 := cr[4], cr8 := cr[5], cpl := cpl[0]);
  }

  /** The descriptor-table and model-specific registers. */
  method RestoreTables(c: seq<byte>, cpu0: Cpu, ghost x: Content, ghost ps: seq<Part>) returns (cpu: Cpu, c': seq<byte>)
    requires Fits(x) && ps == Parts(x) && c == Flatten(ps[7..])
    ensures c' == Flatten(ps[12..])
    ensures cpu == cpu0.(idtrBase := x.cpu.idtrBase, idtrLimit := x.cpu.idtrLimit, gdtrBase := x.cpu.gdtrBase,
                         gdtrLimit := x.cpu.gdtrLimit, star := x.cpu.star, lstar := x.cpu.lstar, sfmask := x.cpu.sfmask,
                         kernelGsBase := x.cpu.kernelGsBase, tssRsp0 := x.cpu.tssRsp0, trBase := x.cpu.trBase,
                         icount := x.cpu.icount)
  {
    Sizes(x);
    FitsAt(x, 7);
    FitsAt(x, 8);
    FitsAt(x, 9);
    FitsAt(x, 10);
    FitsAt(x, 11);
    hide Flatten, Parts, PartFits, Fits, SavedBytes;
    var ib, il, gb, gl, msrs;
    ib, c' := Consume(c, 1, 8, ps, 7);
    il, c' := Consume(c', 1, 2, ps, 8);
    gb, c' := Consume(c', 1, 8, ps, 9);
    gl, c' := Consume(c', 1, 2, ps, 10);
    msrs, c' := Consume(c', 7, 8, ps, 11);
    cpu := cpu0.(idtrBase := ib[0], idtrLimit := il[0], gdtrBase := gb[0], gdtrLimit := gl[0], star := msrs[0],
                 lstar := msrs[1], sfmask := msrs[2], kernelGsBase := msrs[3], tssRsp0 := msrs[4], trBase := msrs[5],
                 icount := msrs[6]);
  }

  lemma Sizes(x: Content)
    requires Fits(x)
    ensures PagesFit(x.saved) && |x.cpu.regs| == 16 && |x.cpu.xmm| == 16 && |x.dev.apic.irr| == 4
  {
  }

  lemma UartParts(x: Content)
    requires Fits(x)
    ensures
      var u := x.dev.uart;
      && Parts(x)[12] == Queue(u.tx) && Parts(x)[13] == Queue(u.rx) && Parts(x)[14] == Words([u.ier, u.lcr, u.mcr], 1)
      && PartFits(Parts(x)[12]) && PartFits(Parts(x)[13]) && PartFits(Parts(x)[14])
  {
    FitsAt(x, 12);
    FitsAt(x, 13);
    FitsAt(x, 14);
    hide PartFits, SavedBytes;
  }

  method RestoreUart(c: seq<byte>, ghost x: Content, ghost ps: seq<Part>) returns (uart: Uart, c': seq<byte>)
    requires Fits(x) && ps == Parts(x) && c == Flatten(ps[12..])
    ensures uart == x.dev.uart && c' == Flatten(ps[15..])
  {
    UartParts(x);
    hide *;
    var tx, rx, lines;
    tx, c' := ConsumeQueue(c, ps, 12);
    rx, c' := ConsumeQueue(c', ps, 13);
    lines, c' := Consume(c', 3, 1, ps, 14);
    uart := Uart(tx, rx, lines[0], lines[1], lines[2]);
  }

  lemma ApicParts(x: Content)
    requires Fits(x)
    ensures
      var a := x.dev.apic;
      && Parts(x)[15]
         == Words([a.id, a.svr, a.tpr, a.lvtTimer, a.initialCount, a.currentCount, a.divideConfig], 4)
      && Parts(x)[16] == Words(a.irr, 8) && |a.irr| == 4 && PartFits(Parts(x)[15]) && PartFits(Parts(x)[16])
  {
    FitsAt(x, 15);
    FitsAt(x, 16);
    hide PartFits, SavedBytes;
  }

  method RestoreApic(c: seq<byte>, ghost x: Content, ghost ps: seq<Part>) returns (apic: Apic, c': seq<byte>)
    requires Fits(x) && ps == Parts(x) && c == Flatten(ps[15..])
    ensures apic == x.dev.apic && c' == Flatten(ps[17..])
  {
    ApicParts(x);
    hide *;
    var a, irr;
    a, c' := Consume(c, 7, 4, ps, 15);
    irr, c' := Consume(c', 4, 8, ps, 16);
    apic := Apic(a[0], a[1], a[2], a[3], a[4], a[5], a[6], irr);
  }

  method WritePage(ram: array<byte>, i: nat, page: seq<byte>)
    requires |page| == PAGE && (i + 1) * PAGE <= ram.Length
    modifies ram
    ensures ram[..] == CopyPage(old(ram[..]), i, page)
  {
    ghost var was := ram[..];
    forall k | 0 <= k < PAGE {
      ram[i * PAGE + k] := page[k];
    }
    assert ram[..i * PAGE] == was[..i * PAGE];
    assert ram[i * PAGE..(i + 1) * PAGE] == page;
    assert ram[(i + 1) * PAGE..] == was[(i + 1) * PAGE..];
    assert ram[..] == ram[..i * PAGE] + ram[i * PAGE..(i + 1) * PAGE] + ram[(i + 1) * PAGE..];
  }

  lemma PageSize(ram: seq<byte>, i: nat)
    requires (i + 1) * PAGE <= |ram|
    ensures |Page(ram, i)| == PAGE
  {
  }

  lemma IndexFits(was: seq<byte>, i: nat)
    requires (i + 1) * PAGE <= |was|
    ensures i < PagesIn(|was|)
  {
  }

  lemma SavedFrom(sv: seq<Saved>, j: nat, rest: seq<byte>)
    requires j < |sv|
    ensures SavedBytes(sv[j..]) + rest == Le(sv[j].index, 4) + (sv[j].bytes + (SavedBytes(sv[j + 1..]) + rest))
  {
    hide Le;
    assert sv[j..][0] == sv[j] && sv[j..][1..] == sv[j + 1..];
  }

  lemma FitsNow(sv: seq<Saved>, j: nat)
    requires PagesFit(sv) && j < |sv|
    ensures sv[j].index < Pow256(4) && |sv[j].bytes| == PAGE
  {
    assert PageFits(sv[j]);
    Pow256Constants();
    hide Pow256;
  }

  lemma WrittenMore(ram: seq<byte>, sv: seq<Saved>, j: nat)
    requires j < |sv| && AllIn(|ram|, sv[..j]) && |sv[j].bytes| == PAGE && (sv[j].index + 1) * PAGE <= |ram|
    ensures AllIn(|ram|, sv[..j + 1])
    ensures Written(ram, sv[..j + 1]) == CopyPage(Written(ram, sv[..j]), sv[j].index, sv[j].bytes)
  {
    hide CopyPage;
    var more := sv[..j + 1];
    assert more[..j] == sv[..j] && more[j] == sv[j];
    assert forall k | 0 <= k < j :: more[k] == sv[..j][k];
  }

  lemma UptoIs(len: nat, sv: seq<Saved>, j: nat)
    requires j <= |sv| && AllIn(len, sv[..j])
    ensures j == |sv| || (sv[j].index + 1) * PAGE > len ==> Upto(len, sv) == j
  {
    assert forall k | 0 <= k < j :: sv[..j][k] == sv[k];
    assert forall k | 0 <= k < j :: (sv[k].index + 1) * PAGE <= len;
  }

  /** One saved page, unless it lies outside RAM. */
  method RestorePage(c: seq<byte>, ram: array<byte>, ghost start: seq<byte>, ghost sv: seq<Saved>, ghost rest: seq<byte>,
                     ghost j: nat) returns (ok: bool, c': seq<byte>)
    requires PagesFit(sv) && j < |sv| && |start| == ram.Length && AllIn(|start|, sv[..j]) && ram[..] == Written(start, sv[..j])
    requires c == SavedBytes(sv[j..]) + rest
    modifies ram
    ensures ok <==> (sv[j].index + 1) * PAGE <= |start|
    ensures if ok then
              AllIn(|start|, sv[..j + 1]) && ram[..] == Written(start, sv[..j + 1]) && c' == SavedBytes(sv[j + 1..]) + rest
            else ram[..] == old(ram[..])
  {
    FitsNow(sv, j);
    SavedFrom(sv, j, rest);
    hide AllIn, Written, PagesFit, SavedBytes, Le, CopyPage, Pow256;
    ghost var more := SavedBytes(sv[j + 1..]) + rest;
    var i;
    i, c' := Take(c, 4, sv[j].index, sv[j].bytes + more);
    if i * PAGE + PAGE > ram.Length {
      return false, c';
    }
    HeadOf(sv[j].bytes, more);
    WrittenMore(start, sv, j);
    WritePage(ram, i, c'[..PAGE]);
    c' := c'[PAGE..];
    ok := true;
  }

  /** The saved pages, onto RAM that has been cleared, up to the first outside it. */
  method RestorePages(c: seq<byte>, count: nat, ram: array<byte>, ghost sv: seq<Saved>, ghost rest: seq<byte>)
    returns (ok: bool)
    requires PagesFit(sv) && count == |sv| && Zero(ram[..]) && c == SavedBytes(sv) + rest
    modifies ram
    ensures
      var n := Upto(ram.Length, sv);
      (ok <==> n == |sv|) && AllIn(ram.Length, sv[..n]) && ram[..] == Written(Zeros(ram.Length), sv[..n])
  {
    ghost var start := Zeros(ram.Length);
    assert ram[..] == start;
    assert sv[0..] == sv && sv[..0] == [];
    assert AllIn(|start|, []) && Written(start, []) == start;
    hide AllIn, Written, PagesFit, SavedBytes, Upto, Zeros, Zero;
    var left := c;
    for j := 0 to count
      invariant AllIn(|start|, sv[..j]) && ram[..] == Written(start, sv[..j]) && left == SavedBytes(sv[j..]) + rest
    {
      UptoIs(|start|, sv, j);
      ok, left := RestorePage(left, ram, start, sv, rest, j);
      if !ok {
        return;
      }
    }
    UptoIs(|start|, sv, count);
    ok := true;
  }

  // --- the layout in numbers ---------------------------------------------------------------------------

  /** Where part `k` starts. */
  function Start(x: Content, k: nat): nat
    requires k <= 20
  {
    |Flatten(Parts(x)[..k])|
  }

  lemma StartNext(x: Content, k: nat)
    requires k < 20
    ensures Start(x, 0) == 0 && Start(x, k + 1) == Start(x, k) + |PartBytes(PartAt(x, k))|
  {
    FlattenMore(Parts(x), k);
    assert Parts(x)[..0] == [];
    hide Flatten, PartBytes, PartAt;
  }

  lemma {:induction false} FlattenSplit(ps: seq<Part>, k: nat)
    requires k <= |ps|
    ensures Flatten(ps) == Flatten(ps[..k]) + Flatten(ps[k..])
  {
    hide PartBytes;
    if k == 0 {
      assert ps[..0] == [] && ps[0..] == ps;
    } else {
      FlattenSplit(ps[1..], k - 1);
      assert ps[..k][0] == ps[0] && ps[..k][1..] == ps[1..][..k - 1] && ps[1..][k - 1..] == ps[k..];
    }
  }

  lemma PartHere(x: Content, k: nat)
    requires k < 20
    ensures
      var f, o, b := Encoded(x), Start(x, k), PartBytes(PartAt(x, k));
      o + |b| <= |f| && f[o..o + |b|] == b
  {
    var ps := Parts(x);
    FlattenSplit(ps, k);
    FlattenFrom(ps, k);
    hide Flatten, PartBytes, PartAt, Parts;
    Middle(Flatten(ps[..k]), PartBytes(ps[k]), Flatten(ps[k + 1..]));
  }

  lemma Middle(a: seq<byte>, b: seq<byte>, c: seq<byte>)
    ensures (a + (b + c))[|a|..|a| + |b|] == b
  {}

  lemma {:induction false} WordsAt(vs: seq<nat>, w: nat, i: nat)
    requires AllFit(vs, w) && i < |vs|
    ensures i * w + w <= |WordBytes(vs, w)| && WordBytes(vs, w)[i * w..i * w + w] == Le(vs[i], w)
    decreases i
  {
    hide Le, Pow256;
    var head, rest := Le(vs[0], w), WordBytes(vs[1..], w);
    assert WordBytes(vs, w) == head + rest;
    if i > 0 {
      assert forall k {:trigger vs[1..][k]} | 0 <= k < |vs| - 1 :: vs[1..][k] == vs[k + 1];
      WordsAt(vs[1..], w, i - 1);
      var o := (i - 1) * w;
      assert i * w == o + w;
      PastHead(head, rest, o, w);
    }
  }

  /** Skipping the first entry of a table skips its width. */
  lemma PastHead(head: seq<byte>, rest: seq<byte>, o: nat, w: nat)
    requires |head| == w && o + w <= |rest|
    ensures (head + rest)[o + w..o + w + w] == rest[o..o + w]
  {}

  /** Integer `i` of a part of integers. */
  lemma WordHere(x: Content, k: nat, i: nat)
    requires Fits(x) && k < 19 && PartAt(x, k).Words? && i < |PartAt(x, k).vs|
    ensures
      var w, o := PartAt(x, k).width, Start(x, k) + i * PartAt(x, k).width;
      o + w <= |Encoded(x)| && Get(Encoded(x), o, w) == PartAt(x, k).vs[i]
  {
    hide Le, Pow256, WordBytes, PartAt, Start, Encoded, Fits, Parts, Get;
    FitsAt(x, k);
    PartHere(x, k);
    var p := PartAt(x, k);
    WordsAt(p.vs, p.width, i);
    WordInside(Encoded(x), Start(x, k), WordBytes(p.vs, p.width), i * p.width, p.vs[i], p.width);
  }

  lemma WordInside(f: seq<byte>, o: nat, b: seq<byte>, i: nat, v: nat, w: nat)
    requires o + |b| <= |f| && f[o..o + |b|] == b && i + w <= |b| && b[i..i + w] == Le(v, w) && v < Pow256(w)
    ensures Get(f, o + i, w) == v
  {
    hide Le, Pow256, Get;
    Codec.SliceOfSlice(f, o, o + |b|, i, i + w);
    Codec.GetEncoded(f, o + i, v, w);
  }

  /** The fixed part of a blob ends at 549, where the first queue starts. */
  lemma Offsets(x: Content)
    requires Fits(x)
    ensures Start(x, 1) == 4 && Start(x, 2) == 8 && Start(x, 3) == 136 && Start(x, 4) == 168 && Start(x, 5) == 424
    ensures Start(x, 6) == 472 && Start(x, 7) == 473 && Start(x, 8) == 481 && Start(x, 9) == 483 && Start(x, 10) == 491
    ensures Start(x, 11) == 493 && Start(x, 12) == 549
  {
    Sizes(x);
    LowerSteps(x);
    hide Start, Fits, PartAt;
  }

  lemma LowerSteps(x: Content)
    requires |x.cpu.regs| == 16 && |x.cpu.xmm| == 16
    ensures Start(x, 1) == 4 && Start(x, 2) == Start(x, 1) + 4 && Start(x, 3) == Start(x, 2) + 128
    ensures Start(x, 4) == Start(x, 3) + 32 && Start(x, 5) == Start(x, 4) + 256 && Start(x, 6) == Start(x, 5) + 48
    ensures Start(x, 7) == Start(x, 6) + 1 && Start(x, 8) == Start(x, 7) + 8 && Start(x, 9) == Start(x, 8) + 2
    ensures Start(x, 10) == Start(x, 9) + 8 && Start(x, 11) == Start(x, 10) + 2 && Start(x, 12) == Start(x, 11) + 56
  {
    hide Start, WordBytes;
    StartNext(x, 0);
    StartNext(x, 1);
    StartNext(x, 2);
    StartNext(x, 3);
    StartNext(x, 4);
    StartNext(x, 5);
    StartNext(x, 6);
    StartNext(x, 7);
    StartNext(x, 8);
    StartNext(x, 9);
    StartNext(x, 10);
    StartNext(x, 11);
  }

  /** The processor in a blob, field by field: the size of RAM, sixteen general registers, RIP, RFLAGS, the GS and FS
      bases, sixteen vector registers, the control registers, the privilege level, the descriptor tables and the
      model-specific registers. */
  ghost predicate RegistersHere(f: seq<byte>, c: Cpu, i: nat)
    requires |c.regs| == 16 && |c.xmm| == 16
  {
    && 424 <= |f| && (i < 16 ==> Get(f, 8 + i * 8, 8) == c.regs[i] && Get(f, 168 + i * 16, 16) == c.xmm[i])
    && Get(f, 136, 8) == c.rip && Get(f, 144, 8) == c.rflags && Get(f, 152, 8) == c.gsBase && Get(f, 160, 8) == c.fsBase
  }

  ghost predicate ControlsHere(f: seq<byte>, c: Cpu) {
    && 473 <= |f| && Get(f, 424, 8) == c.cr0 && Get(f, 432, 8) == c.cr3 && Get(f, 440, 8) == c.cr4 && Get(f, 448, 8) == c.efer
    && Get(f, 456, 8) == c.cr2 && Get(f, 464, 8) == c.cr8 && Get(f, 472, 1) == c.cpl
  }

  ghost predicate TablesHere(f: seq<byte>, c: Cpu) {
    && 549 <= |f| && Get(f, 473, 8) == c.idtrBase && Get(f, 481, 2) == c.idtrLimit && Get(f, 483, 8) == c.gdtrBase
    && Get(f, 491, 2) == c.gdtrLimit && Get(f, 493, 8) == c.star && Get(f, 501, 8) == c.lstar && Get(f, 509, 8) == c.sfmask
    && Get(f, 517, 8) == c.kernelGsBase && Get(f, 525, 8) == c.tssRsp0 && Get(f, 533, 8) == c.trBase && Get(f, 541, 8) == c.icount
  }

  lemma CpuInNumbers(x: Content, i: nat)
    requires Fits(x)
    ensures |x.cpu.regs| == 16 && |x.cpu.xmm| == 16
    ensures RegistersHere(Encoded(x), x.cpu, i) && ControlsHere(Encoded(x), x.cpu) && TablesHere(Encoded(x), x.cpu)
  {
    Sizes(x);
    hide *;
    RegistersIn(x, i);
    ControlsIn(x);
    TablesIn(x);
  }

  lemma RegistersIn(x: Content, i: nat)
    requires Fits(x) && |x.cpu.regs| == 16 && |x.cpu.xmm| == 16
    ensures RegistersHere(Encoded(x), x.cpu, i)
  {
    hide Start, Fits, Encoded, Get;
    Offsets(x);
    PartHere(x, 5);
    if i < 16 {
      WordHere(x, 2, i);
      WordHere(x, 4, i);
    }
    WordHere(x, 3, 0);
    WordHere(x, 3, 1);
    WordHere(x, 3, 2);
    WordHere(x, 3, 3);
  }

  lemma ControlsIn(x: Content)
    requires Fits(x)
    ensures ControlsHere(Encoded(x), x.cpu)
  {
    hide Start, Fits, Encoded, Get;
    Offsets(x);
    WordHere(x, 5, 0);
    WordHere(x, 5, 1);
    WordHere(x, 5, 2);
    WordHere(x, 5, 3);
    WordHere(x, 5, 4);
    WordHere(x, 5, 5);
    WordHere(x, 6, 0);
  }

  lemma TablesIn(x: Content)
    requires Fits(x)
    ensures TablesHere(Encoded(x), x.cpu)
  {
    hide Start, Fits, Encoded, Get;
    Offsets(x);
    WordHere(x, 7, 0);
    WordHere(x, 8, 0);
    WordHere(x, 9, 0);
    WordHere(x, 10, 0);
    WordHere(x, 11, 0);
    WordHere(x, 11, 1);
    WordHere(x, 11, 2);
    WordHere(x, 11, 3);
    WordHere(x, 11, 4);
    WordHere(x, 11, 5);
    WordHere(x, 11, 6);
  }

  /** A queue at o: its length and its bytes. */
  ghost predicate QueueAt(f: seq<byte>, o: nat, q: seq<byte>) {
    o + 4 + |q| <= |f| && Get(f, o, 4) == |q| && f[o + 4..o + 4 + |q|] == q
  }

  ghost predicate ApicAt(f: seq<byte>, o: nat, a: Apic, i: nat)
    requires |a.irr| == 4
  {
    && o + 60 <= |f| && Get(f, o, 4) == a.id && Get(f, o + 4, 4) == a.svr && Get(f, o + 8, 4) == a.tpr
    && Get(f, o + 12, 4) == a.lvtTimer && Get(f, o + 16, 4) == a.initialCount && Get(f, o + 20, 4) == a.currentCount
    && Get(f, o + 24, 4) == a.divideConfig && (i < 4 ==> Get(f, o + 28 + i * 8, 8) == a.irr[i])
  }

  /** The head of a blob and its devices: the mark, the size of RAM, two serial queues, the three line registers, the
      interrupt controller, the keyboard queue, and the number of pages. */
  lemma DevicesInNumbers(x: Content, i: nat)
    requires Fits(x)
    ensures |x.dev.apic.irr| == 4
    ensures
      var f, u, q := Encoded(x), x.dev.uart, x.dev.ps2;
      var o1 := 553 + |u.tx|;
      var o2 := o1 + 4 + |u.rx|;
      && o2 + 71 + |q| <= |f| && f[..4] == [0x4E, 0x58, 0x53, 0x31] && Get(f, 4, 4) == x.len
      && QueueAt(f, 549, u.tx) && QueueAt(f, o1, u.rx)
      && Get(f, o2, 1) == u.ier && Get(f, o2 + 1, 1) == u.lcr && Get(f, o2 + 2, 1) == u.mcr
      && ApicAt(f, o2 + 3, x.dev.apic, i)
      && QueueAt(f, o2 + 63, q) && Get(f, o2 + 67 + |q|, 4) == |x.saved|
  {
    Sizes(x);
    hide *;
    HeadIn(x);
    Places(x);
    QueuesIn(x);
    LinesIn(x);
    ApicIn(x, i);
  }

  lemma Places(x: Content)
    requires Fits(x) && |x.dev.apic.irr| == 4
    ensures
      var o1 := 553 + |x.dev.uart.tx|;
      var o2 := o1 + 4 + |x.dev.uart.rx|;
      && Start(x, 12) == 549 && Start(x, 13) == o1 && Start(x, 14) == o2 && Start(x, 15) == o2 + 3 && Start(x, 16) == o2 + 31
      && Start(x, 17) == o2 + 63 && Start(x, 18) == o2 + 67 + |x.dev.ps2|
  {
    hide *;
    Offsets(x);
    UpperSteps(x);
  }

  lemma HeadIn(x: Content)
    requires Fits(x)
    ensures var f := Encoded(x); 8 <= |f| && f[..4] == [0x4E, 0x58, 0x53, 0x31] && Get(f, 4, 4) == x.len
  {
    hide Start, Fits, Encoded, Get;
    Offsets(x);
    StartNext(x, 0);
    PartHere(x, 0);
    WordHere(x, 1, 0);
  }

  lemma LinesIn(x: Content)
    requires Fits(x)
    ensures
      var f, u, o, k := Encoded(x), x.dev.uart, Start(x, 14), Start(x, 18);
      && o + 3 <= |f| && Get(f, o, 1) == u.ier && Get(f, o + 1, 1) == u.lcr && Get(f, o + 2, 1) == u.mcr
      && k + 4 <= |f| && Get(f, k, 4) == |x.saved|
  {
    hide Start, Fits, Encoded, Get;
    WordHere(x, 14, 0);
    WordHere(x, 14, 1);
    WordHere(x, 14, 2);
    WordHere(x, 18, 0);
  }

  lemma QueuesIn(x: Content)
    requires Fits(x)
    ensures QueueAt(Encoded(x), Start(x, 12), x.dev.uart.tx) && QueueAt(Encoded(x), Start(x, 13), x.dev.uart.rx)
    ensures QueueAt(Encoded(x), Start(x, 17), x.dev.ps2)
  {
    hide Start, Fits, Encoded, Get, QueueAt;
    QueueHere(x, 12);
    QueueHere(x, 13);
    QueueHere(x, 17);
  }

  lemma ApicIn(x: Content, i: nat)
    requires Fits(x) && |x.dev.apic.irr| == 4 && Start(x, 16) == Start(x, 15) + 28
    ensures ApicAt(Encoded(x), Start(x, 15), x.dev.apic, i)
  {
    hide Start, Fits, Encoded, Get;
    WordHere(x, 15, 0);
    WordHere(x, 15, 1);
    WordHere(x, 15, 2);
    WordHere(x, 15, 3);
    WordHere(x, 15, 4);
    WordHere(x, 15, 5);
    WordHere(x, 15, 6);
    WordHere(x, 16, 3);
    if i < 4 {
      WordHere(x, 16, i);
    }
  }

  lemma UpperSteps(x: Content)
    requires |x.dev.apic.irr| == 4
    ensures Start(x, 13) == Start(x, 12) + 4 + |x.dev.uart.tx| && Start(x, 14) == Start(x, 13) + 4 + |x.dev.uart.rx|
    ensures Start(x, 15) == Start(x, 14) + 3 && Start(x, 16) == Start(x, 15) + 28 && Start(x, 17) == Start(x, 16) + 32
    ensures Start(x, 18) == Start(x, 17) + 4 + |x.dev.ps2|
  {
    hide Start, WordBytes;
    StartNext(x, 12);
    StartNext(x, 13);
    StartNext(x, 14);
    StartNext(x, 15);
    StartNext(x, 16);
    StartNext(x, 17);
  }

  lemma QueueHere(x: Content, k: nat)
    requires Fits(x) && k < 19 && PartAt(x, k).Queue?
    ensures QueueAt(Encoded(x), Start(x, k), PartAt(x, k).q)
  {
    FitsAt(x, k);
    PartHere(x, k);
    hide Le, Pow256, PartAt, Start, Encoded, Fits, Parts, Get, QueueAt;
    QueueInside(Encoded(x), Start(x, k), PartAt(x, k).q);
  }

  lemma QueueInside(f: seq<byte>, o: nat, q: seq<byte>)
    requires o + 4 + |q| <= |f| && f[o..o + 4 + |q|] == Le(|q|, 4) + q && |q| < Pow256(4)
    ensures QueueAt(f, o, q)
  {
    hide Le, Pow256, Get;
    Codec.SliceOfSlice(f, o, o + 4 + |q|, 0, 4);
    Codec.SliceOfSlice(f, o, o + 4 + |q|, 4, 4 + |q|);
    QueueHalves(Le(|q|, 4), q);
    Codec.GetEncoded(f, o, |q|, 4);
  }

  lemma QueueHalves(a: seq<byte>, b: seq<byte>)
    ensures (a + b)[0..|a|] == a && (a + b)[|a|..|a| + |b|] == b
  {}

  ghost predicate PageHere(f: seq<byte>, o: nat, p: Saved) {
    o + 4100 <= |f| && Get(f, o, 4) == p.index && f[o + 4..o + 4100] == p.bytes
  }

  /** Page i of a blob: its index and its 4096 bytes, 4100 bytes after the page before. */
  lemma PageInNumbers(x: Content, i: nat)
    requires Fits(x) && i < |x.saved|
    ensures PageHere(Encoded(x), 628 + |x.dev.uart.tx| + |x.dev.uart.rx| + |x.dev.ps2| + i * 4100, x.saved[i])
  {
    hide *;
    PageSized(x, i);
    LastPart(x);
    PageStarts(x);
    PageAt(x.saved, i);
    PageInside(Encoded(x), Start(x, 19), SavedBytes(x.saved), x.rest, i * 4100, x.saved[i]);
  }

  lemma PageSized(x: Content, i: nat)
    requires Fits(x) && i < |x.saved|
    ensures PagesFit(x.saved) && PageFits(x.saved[i]) && |x.dev.apic.irr| == 4
  {
    Sizes(x);
  }

  lemma LastPart(x: Content)
    requires Fits(x)
    ensures
      var f, o, b := Encoded(x), Start(x, 19), SavedBytes(x.saved) + x.rest;
      o + |b| <= |f| && f[o..o + |b|] == b
  {
    hide Start, Encoded, Fits, SavedBytes;
    PartHere(x, 19);
  }

  lemma PageStarts(x: Content)
    requires Fits(x) && |x.dev.apic.irr| == 4
    ensures Start(x, 19) == 628 + |x.dev.uart.tx| + |x.dev.uart.rx| + |x.dev.ps2|
  {
    hide Fits, Encoded, Start, WordBytes;
    Places(x);
    StartNext(x, 18);
  }

  lemma {:induction false} PageAt(sv: seq<Saved>, i: nat)
    requires PagesFit(sv) && i < |sv|
    ensures i * 4100 + 4100 <= |SavedBytes(sv)|
    ensures SavedBytes(sv)[i * 4100..i * 4100 + 4100] == Le(sv[i].index, 4) + sv[i].bytes
    decreases i
  {
    hide Le, Pow256;
    var head, rest := Le(sv[0].index, 4) + sv[0].bytes, SavedBytes(sv[1..]);
    assert PageFits(sv[0]);
    if i > 0 {
      assert forall k {:trigger sv[1..][k]} | 0 <= k < |sv| - 1 :: sv[1..][k] == sv[k + 1];
      PageAt(sv[1..], i - 1);
      PastHead(head, rest, (i - 1) * 4100, 4100);
    }
  }

  lemma PageInside(f: seq<byte>, o: nat, b: seq<byte>, c: seq<byte>, i: nat, p: Saved)
    requires o + |b + c| <= |f| && f[o..o + |b + c|] == b + c && i + 4100 <= |b| && PageFits(p)
    requires b[i..i + 4100] == Le(p.index, 4) + p.bytes
    ensures PageHere(f, o + i, p)
  {
    hide Le, Pow256, Get;
    Pow256Constants();
    Codec.SliceOfSlice(f, o, o + |b + c|, i, i + 4100);
    assert (b + c)[i..i + 4100] == b[i..i + 4100];
    Codec.SliceOfSlice(f, o + i, o + i + 4100, 0, 4);
    Codec.SliceOfSlice(f, o + i, o + i + 4100, 4, 4100);
    QueueHalves(Le(p.index, 4), p.bytes);
    Codec.GetEncoded(f, o + i, p.index, 4);
  }

  /** A restored machine saves the same bytes again. */
  lemma SavesTheSame(m: Image)
    ensures Blob(m.(ram := Kept(m.ram))) == Blob(m)
  {
    KeptIsRam(m.ram);
    hide Kept, RamPages, Encoded;
  }

  lemma KeptPages(ram: seq<byte>)
    ensures |Kept(ram)| == |ram|
    ensures forall p: nat {:trigger Page(ram, p)} | p < PagesIn(|ram|) :: Page(ram, p) == Page(Kept(ram), p)
  {
    forall p: nat {:trigger Page(ram, p)} | p < PagesIn(|ram|)
      ensures Page(ram, p) == Page(Kept(ram), p)
    {
      KeptPage(ram, p);
    }
  }

  lemma KeptPage(ram: seq<byte>, p: nat)
    requires p < PagesIn(|ram|)
    ensures |Kept(ram)| == |ram| && Page(ram, p) == Page(Kept(ram), p)
  {
    var w := Whole(|ram|);
    assert (p + 1) * PAGE <= w;
    SliceOfPrefix(ram, Zeros(|ram| - w), w, p * PAGE, (p + 1) * PAGE);
  }

  lemma SliceOfPrefix(s: seq<byte>, z: seq<byte>, w: nat, lo: nat, hi: nat)
    requires lo <= hi <= w <= |s|
    ensures s[lo..hi] == (s[..w] + z)[lo..hi]
  {}

  /** Saving one machine and restoring another of the same RAM size makes their captured state equal, up to
      a part page at the end of RAM, and both save the same bytes. */
  method Transplant(a: Machine, b: Machine) returns (ok: bool, saved: seq<byte>, again: seq<byte>)
    requires a != b && a.ram != b.ram && Wellformed(a.Captured())
    modifies b, b.ram
    ensures a.Captured() == old(a.Captured()) && saved == Blob(a.Captured())
    ensures ok <==> a.ram.Length == b.ram.Length
    ensures ok ==> again == saved && b.cpu == a.cpu && b.dev == a.dev && b.ram[..] == Kept(a.ram[..])
    ensures ok && (a.ram.Length % PAGE == 0) ==> b.Captured() == a.Captured()
  {
    saved := a.Save();
    ghost var m := a.Captured();
    StartsRight(m);
    WellformedFits(m);
    WrittenKept(m.ram);
    AllUpto(m.ram);
    hide Wellformed, Fits, Kept, Encoded, Written, Upto, AllIn, RamPages;
    ok := b.Restore(saved, ContentOf(m));
    again := b.Save();
    SavesTheSame(m);
    KeptIsRam(m.ram);
  }

  lemma AllUpto(ram: seq<byte>)
    ensures Upto(|ram|, RamPages(ram)) == |RamPages(ram)|
    ensures RamPages(ram)[..|RamPages(ram)|] == RamPages(ram)
  {
    WrittenKept(ram);
    hide RamPages, Written;
    assert RamPages(ram)[..|RamPages(ram)|] == RamPages(ram);
    UptoIs(|ram|, RamPages(ram), |RamPages(ram)|);
  }

  lemma StartsRight(m: Image)
    ensures |Blob(m)| >= 8 && Blob(m)[..4] == MAGIC
  {
    var ps := Parts(ContentOf(m));
    FlattenFrom(ps, 0);
    FlattenFrom(ps, 1);
    assert ps[0..] == ps;
    HeadOf(MAGIC, Flatten(ps[1..]));
    hide Flatten, RamPages, Parts;
    OneWord(|m.ram|, 4);
  }

  /** A RAM of one byte, which is no whole page, comes back cleared. */
  lemma PartPageLost()
    ensures Kept([1]) == [0]
  {
    assert PagesIn(1) == 0 && Whole(1) == 0;
    assert Zeros(1) == [0];
  }
}
