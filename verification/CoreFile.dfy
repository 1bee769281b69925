/** The ELF core: the layout and program headers `write_core` emits (`kernel/src/dump.rs`) and the
    reader of `tools/kdbg_check.py`. */
module CoreFile {
  import opened Bytes
  import opened Wrappers
  import opened Codec
  import opened Runs

  const CAP: nat := 0x200_0000
  const PAGE: nat := 0x1000

  datatype Load = Load(vaddr: nat, memsz: nat, off: nat, filesz: nat)

  /** A stretch of the file. */
  datatype Extent = Extent(off: nat, size: nat)

  function PhdrTail(paddr: nat, filesz: nat, memsz: nat, align: nat): Fields {
    Field(paddr, 8, Field(filesz, 8, Field(memsz, 8, Field(align, 8, End))))
  }

  function PhdrFields(kind: nat, flags: nat, off: nat, vaddr: nat, paddr: nat, filesz: nat, memsz: nat, align: nat): Fields {
    Field(kind, 4, Field(flags, 4, Field(off, 8, Field(vaddr, 8, PhdrTail(paddr, filesz, memsz, align)))))
  }

  function Phdr(kind: nat, flags: nat, off: nat, vaddr: nat, paddr: nat, filesz: nat, memsz: nat, align: nat): (s: seq<byte>)
    ensures |s| == 56
  {
    PhdrSize(kind, flags, off, vaddr, paddr, filesz, memsz, align);
    Encode(PhdrFields(kind, flags, off, vaddr, paddr, filesz, memsz, align))
  }

  lemma PhdrSize(kind: nat, flags: nat, off: nat, vaddr: nat, paddr: nat, filesz: nat, memsz: nat, align: nat)
    ensures Size(PhdrFields(kind, flags, off, vaddr, paddr, filesz, memsz, align)) == 56
  {
    var t1 := Field(align, 8, End);
    var t2 := Field(memsz, 8, t1);
    var t3 := Field(filesz, 8, t2);
    var t4 := Field(paddr, 8, t3);
    assert Size(t1) == 8 && Size(t2) == 16 && Size(t3) == 24 && Size(t4) == 32;
    var t5 := Field(vaddr, 8, t4);
    var t6 := Field(off, 8, t5);
    assert Size(t5) == 40 && Size(t6) == 48 && Size(Field(flags, 4, t6)) == 52;
  }

  /** The ELF64 header (its identification as two words); the header count is cut to 16 bits. */
  function EhdrTail(phnum: nat): Fields {
    Field(64, 2, Field(56, 2, Field(phnum % TWO16, 2, Field(0, 2, Field(0, 2, Field(0, 2, End))))))
  }

  function EhdrFields(phnum: nat): Fields {
    Field(0x00_01_01_02_46_4C_45_7F, 8, Field(0, 8, Field(4, 2, Field(62, 2, Field(1, 4, Field(0, 8,
    Field(64, 8, Field(0, 8, Field(0, 4, EhdrTail(phnum))))))))))
  }

  function Ehdr(phnum: nat): (s: seq<byte>)
    ensures |s| == 64
  {
    EhdrSize(phnum);
    Encode(EhdrFields(phnum))
  }

  lemma EhdrTailSize(phnum: nat)
    ensures Size(EhdrTail(phnum)) == 12 && Fit(EhdrTail(phnum))
  {
    Pow256Constants();
    assert Fit(End) && Size(End) == 0;
    hide Pow256, Size, Fit;
    FieldOf(0, 2, End);
    var t1 := Field(0, 2, End);
    FieldOf(0, 2, t1);
    var t2 := Field(0, 2, t1);
    FieldOf(0, 2, t2);
    var t3 := Field(0, 2, t2);
    FieldOf(phnum % TWO16, 2, t3);
    var t4 := Field(phnum % TWO16, 2, t3);
    FieldOf(56, 2, t4);
    FieldOf(64, 2, Field(56, 2, t4));
  }

  lemma EhdrSize(phnum: nat)
    ensures Size(EhdrFields(phnum)) == 64 && Fit(EhdrFields(phnum))
  {
    EhdrTailSize(phnum);
    Pow256Constants();
    hide Pow256, Size, Fit;
    var t0 := EhdrTail(phnum);
    FieldOf(0, 4, t0);
    var t1 := Field(0, 4, t0);
    FieldOf(0, 8, t1);
    var t2 := Field(0, 8, t1);
    FieldOf(64, 8, t2);
    var t3 := Field(64, 8, t2);
    FieldOf(0, 8, t3);
    var t4 := Field(0, 8, t3);
    FieldOf(1, 4, t4);
    var t5 := Field(1, 4, t4);
    FieldOf(62, 2, t5);
    var t6 := Field(62, 2, t5);
    FieldOf(4, 2, t6);
    var t7 := Field(4, 2, t6);
    FieldOf(0, 8, t7);
    FieldOf(0x00_01_01_02_46_4C_45_7F, 8, Field(0, 8, t7));
  }

  function Min(a: nat, b: nat): nat { if a < b then a else b }

  function LoadOf(r: Run, dataOff: nat): Load
    requires r.paddr < CAP
  {
    Load(r.vaddr, r.size, dataOff + r.paddr, Min(CAP - r.paddr, r.size))
  }

  function LoadPhdr(r: Run, dataOff: nat): (s: seq<byte>)
    requires r.paddr < CAP
    ensures |s| == 56
  {
    Phdr(1, 7, dataOff + r.paddr, r.vaddr, r.paddr, Min(CAP - r.paddr, r.size), r.size, PAGE)
  }

  predicate Captured(runs: seq<Run>) { forall r | r in runs :: r.paddr < CAP }

  function LoadPhdrs(runs: seq<Run>, dataOff: nat): (s: seq<byte>)
    requires Captured(runs)
    ensures |s| == 56 * |runs|
  {
    if runs == [] then []
    else LoadPhdrs(runs[..|runs| - 1], dataOff) + LoadPhdr(runs[|runs| - 1], dataOff)
  }

  function NoteOff(n: nat): nat { 64 + 56 * (1 + n) }
  function DataOff(n: nat, notes: nat): nat { (NoteOff(n) + notes + PAGE - 1) / PAGE * PAGE }

  function Zeros(n: nat): (s: seq<byte>)
    ensures |s| == n && forall k {:trigger s[k]} | 0 <= k < n :: s[k] == 0
  {
    seq(n, _ => 0)
  }

  /** The whole file: headers, notes, padding to a page, the physical image. */
  function CoreBytes(runs: seq<Run>, notes: seq<byte>, image: seq<byte>): (s: seq<byte>)
    requires Captured(runs)
    ensures |s| == DataOff(|runs|, |notes|) + |image|
  {
    Ehdr(1 + |runs|) + (NotePhdr(|runs|, |notes|) + (LoadPhdrs(runs, DataOff(|runs|, |notes|)) + CoreTail(|runs|, notes, image)))
  }

  function NotePhdr(n: nat, notes: nat): (s: seq<byte>)
    ensures |s| == 56
  {
    Phdr(4, 0, NoteOff(n), 0, 0, notes, notes, 4)
  }

  /** The notes, padded to a page, and the physical image. */
  function CoreTail(n: nat, notes: seq<byte>, image: seq<byte>): (s: seq<byte>)
    ensures |image| <= |s| == DataOff(n, |notes|) - NoteOff(n) + |image|
    ensures s[|s| - |image|..] == image
  {
    assert NoteOff(n) + |notes| <= DataOff(n, |notes|);
    notes + (Zeros(DataOff(n, |notes|) - NoteOff(n) - |notes|) + image)
  }

  /** The runs that start in the captured window. */
  function Kept(runs: seq<Run>): (k: seq<Run>)
    ensures Captured(k)
  {
    if runs == [] then []
    else
      var k := Kept(runs[..|runs| - 1]);
      if runs[|runs| - 1].paddr < CAP then k + [runs[|runs| - 1]] else k
  }

  lemma RoundsUp(n: nat, notes: nat)
    ensures NoteOff(n) + notes <= DataOff(n, notes) < NoteOff(n) + notes + PAGE && DataOff(n, notes) % PAGE == 0
  {
  }

  method KeptRuns(runs: seq<Run>) returns (k: seq<Run>)
    ensures k == Kept(runs)
  {
    k := [];
    for i := 0 to |runs|
      invariant k == Kept(runs[..i])
    {
      assert runs[..i + 1][..i] == runs[..i];
      if runs[i].paddr < CAP {
        k := k + [runs[i]];
      }
    }
    assert runs[..|runs|] == runs;
  }

  /** The layout and header part of `write_core`, with the bytes streamed in order. */
  method WriteCore(walked: seq<Run>, notes: seq<byte>, phys: seq<byte>) returns (file: seq<byte>)
    requires |phys| >= CAP
    ensures file == CoreBytes(Kept(walked), notes, phys[..CAP])
  {
    hide Phdr, Ehdr, Zeros, DataOff;
    var runs := KeptRuns(walked);
    var phnum := 1 + |runs|;
    var noteOff := 64 + 56 * phnum;
    var dataOff := DataOff(|runs|, |notes|);
    var hdr := Ehdr(phnum) + Phdr(4, 0, noteOff, 0, 0, |notes|, |notes|, 4);
    ghost var start := hdr;
    for i := 0 to |runs|
      invariant hdr == start + LoadPhdrs(runs[..i], dataOff)
    {
      assert runs[..i + 1][..i] == runs[..i];
      var filesz := Min(CAP - runs[i].paddr, runs[i].size);
      hdr := hdr + Phdr(1, 7, dataOff + runs[i].paddr, runs[i].vaddr, runs[i].paddr, filesz, runs[i].size, PAGE);
    }
    assert runs[..|runs|] == runs;
    assert NoteOff(|runs|) + |notes| <= dataOff by { RoundsUp(|runs|, |notes|); }
    var pad := Zeros(dataOff - |hdr| - |notes|);
    file := hdr + notes + pad + phys[..CAP];
    Reassociate(Ehdr(phnum), Phdr(4, 0, noteOff, 0, 0, |notes|, |notes|, 4), LoadPhdrs(runs, dataOff), notes, pad, phys[..CAP]);
  }

  // --- the reader -------------------------------------------------------------------------------

  function LoadAt(d: seq<byte>, o: nat): Load
    requires o + 56 <= |d|
  {
    Load(Get(d, o + 16, 8), Get(d, o + 40, 8), Get(d, o + 8, 8), Get(d, o + 32, 8))
  }

  /** The `PT_LOAD` headers among the first `n`. */
  function Loads(d: seq<byte>, phoff: nat, n: nat): seq<Load>
    requires phoff + n * 56 <= |d|
  {
    if n == 0 then []
    else
      var o := phoff + (n - 1) * 56;
      Loads(d, phoff, n - 1) + if Get(d, o, 4) == 1 then [LoadAt(d, o)] else []
  }

  /** The `PT_NOTE` headers among the first `n`: where their bytes lie. */
  function Notes(d: seq<byte>, phoff: nat, n: nat): seq<Extent>
    requires phoff + n * 56 <= |d|
  {
    if n == 0 then []
    else
      var o := phoff + (n - 1) * 56;
      Notes(d, phoff, n - 1) + if Get(d, o, 4) == 4 then [Extent(Get(d, o + 8, 8), Get(d, o + 32, 8))] else []
  }

  /** The constructor of the reader's `Core`. */
  method ParseCore(d: seq<byte>) returns (loads: seq<Load>, notes: seq<Extent>)
    requires 64 <= |d| && Get(d, 0x20, 8) + Get(d, 0x38, 2) * 56 <= |d|
    ensures loads == Loads(d, Get(d, 0x20, 8), Get(d, 0x38, 2)) && notes == Notes(d, Get(d, 0x20, 8), Get(d, 0x38, 2))
  {
    hide Get;
    var phoff, phnum := Get(d, 0x20, 8), Get(d, 0x38, 2);
    loads, notes := [], [];
    for i := 0 to phnum
      invariant loads == Loads(d, phoff, i) && notes == Notes(d, phoff, i)
    {
      var o := phoff + i * 56;
      var kind, off, filesz := Get(d, o, 4), Get(d, o + 8, 8), Get(d, o + 32, 8);
      if kind == 1 {
        loads := loads + [Load(Get(d, o + 16, 8), Get(d, o + 40, 8), off, filesz)];
      } else if kind == 4 {
        notes := notes + [Extent(off, filesz)];
      }
    }
  }

  predicate Holds(l: Load, va: nat) { l.vaddr <= va < l.vaddr + l.memsz }

  /** A slice cut to what there is, as the reader's language cuts it. */
  function Cut(d: seq<byte>, i: nat, j: nat): seq<byte>
    requires i <= j
  {
    d[Min(i, |d|)..Min(j, |d|)]
  }

  /** What the reader returns for `n` bytes at `va`: from the first load holding `va`, or nothing. */
  function ReadAt(d: seq<byte>, loads: seq<Load>, va: nat, n: nat): Option<seq<byte>> {
    if loads == [] then None
    else if !Holds(loads[0], va) then ReadAt(d, loads[1..], va, n)
    else
      var l := loads[0];
      var fo := l.off + (va - l.vaddr);
      if va - l.vaddr + n <= l.filesz then Some(Cut(d, fo, fo + n)) else None
  }

  method Read(d: seq<byte>, loads: seq<Load>, va: nat, n: nat) returns (r: Option<seq<byte>>)
    ensures r == ReadAt(d, loads, va, n)
  {
    for i := 0 to |loads|
      invariant ReadAt(d, loads, va, n) == ReadAt(d, loads[i..], va, n)
    {
      var l := loads[i];
      assert l in loads && loads[i..][1..] == loads[i + 1..];
      if l.vaddr <= va < l.vaddr + l.memsz {
        var fo := l.off + (va - l.vaddr);
        if va - l.vaddr + n <= l.filesz {
          return Some(Cut(d, fo, fo + n));
        }
        return None;
      }
    }
    r := None;
  }

  // --- round trip -------------------------------------------------------------------------------

  lemma Reassociate(a: seq<byte>, b: seq<byte>, c: seq<byte>, d: seq<byte>, e: seq<byte>, f: seq<byte>)
    ensures a + b + c + d + e + f == a + (b + (c + (d + (e + f))))
  {
    assert d + e + f == d + (e + f);
    assert c + (d + (e + f)) == c + d + e + f;
    assert a + b + (c + d + e + f) == a + b + c + d + e + f;
  }

  lemma DecodePhdr(d: seq<byte>, o: nat, kind: nat, flags: nat, off: nat, vaddr: nat, paddr: nat, filesz: nat, memsz: nat, align: nat)
    requires o + 56 <= |d| && d[o..o + 56] == Phdr(kind, flags, off, vaddr, paddr, filesz, memsz, align)
    requires kind < TWO32 && flags < TWO32 && off < TWO64 && vaddr < TWO64 && paddr < TWO64
    requires filesz < TWO64 && memsz < TWO64 && align < TWO64
    ensures Get(d, o, 4) == kind && LoadAt(d, o) == Load(vaddr, memsz, off, filesz)
    ensures Get(d, o + 4, 4) == flags && Get(d, o + 24, 8) == paddr && Get(d, o + 48, 8) == align
  {
    Pow256Constants();
    hide Get, Encode, Pow256;
    PhdrSize(kind, flags, off, vaddr, paddr, filesz, memsz, align);
    var f0 := PhdrFields(kind, flags, off, vaddr, paddr, filesz, memsz, align);
    PhdrFit(kind, flags, off, vaddr, paddr, filesz, memsz, align);
    EncodeDecodes(d, o, f0);
    var f4 := PhdrTail(paddr, filesz, memsz, align);
    var f3 := Field(vaddr, 8, f4);
    var f2 := Field(off, 8, f3);
    assert Decodes(d, o + 4, Field(flags, 4, f2));
    assert Decodes(d, o + 8, f2);
    assert Decodes(d, o + 16, f3);
    assert Decodes(d, o + 24, f4);
    var f6 := Field(memsz, 8, Field(align, 8, End));
    assert Decodes(d, o + 32, Field(filesz, 8, f6));
    assert Decodes(d, o + 40, f6);
    assert Decodes(d, o + 48, Field(align, 8, End));
  }

  lemma PhdrFit(kind: nat, flags: nat, off: nat, vaddr: nat, paddr: nat, filesz: nat, memsz: nat, align: nat)
    requires kind < TWO32 && flags < TWO32 && off < TWO64 && vaddr < TWO64 && paddr < TWO64
    requires filesz < TWO64 && memsz < TWO64 && align < TWO64
    ensures Fit(PhdrFields(kind, flags, off, vaddr, paddr, filesz, memsz, align))
  {
    Pow256Constants();
    hide Pow256;
    var t1 := Field(align, 8, End);
    var t2 := Field(memsz, 8, t1);
    var t3 := Field(filesz, 8, t2);
    var t4 := Field(paddr, 8, t3);
    assert Fit(t1) && Fit(t2) && Fit(t3) && Fit(t4);
    var t5 := Field(vaddr, 8, t4);
    var t6 := Field(off, 8, t5);
    assert Fit(t5) && Fit(t6) && Fit(Field(flags, 4, t6));
  }

  /** An ELF64 core file for x86-64 in numbers: identification, type, machine, version, the program headers
      after this header and no sections. */
  ghost predicate IsCoreHeader(d: seq<byte>, phnum: nat) {
    && 64 <= |d| && d[..8] == [0x7F, 0x45, 0x4C, 0x46, 2, 1, 1, 0] && Get(d, 8, 8) == 0
    && Get(d, 0x10, 2) == 4 && Get(d, 0x12, 2) == 62 && Get(d, 0x14, 4) == 1 && Get(d, 0x18, 8) == 0
    && Get(d, 0x20, 8) == 64 && Get(d, 0x28, 8) == 0 && Get(d, 0x30, 4) == 0
    && Get(d, 0x34, 2) == 64 && Get(d, 0x36, 2) == 56 && Get(d, 0x38, 2) == phnum % TWO16
    && Get(d, 0x3A, 2) == 0 && Get(d, 0x3C, 2) == 0 && Get(d, 0x3E, 2) == 0
  }

  lemma DecodeEhdr(d: seq<byte>, phnum: nat)
    requires 64 <= |d| && d[..64] == Ehdr(phnum)
    ensures IsCoreHeader(d, phnum)
  {
    EhdrSize(phnum);
    assert d[0..64] == d[..64];
    hide Get, Encode, Fit, Size;
    EncodeDecodes(d, 0, EhdrFields(phnum));
    var t := Field(64, 8, Field(0, 8, Field(0, 4, EhdrTail(phnum))));
    assert Decodes(d, 8, Field(0, 8, Field(4, 2, Field(62, 2, Field(1, 4, Field(0, 8, t))))));
    assert Decodes(d, 16, Field(4, 2, Field(62, 2, Field(1, 4, Field(0, 8, t)))));
    assert Decodes(d, 18, Field(62, 2, Field(1, 4, Field(0, 8, t))));
    assert Decodes(d, 20, Field(1, 4, Field(0, 8, t)));
    assert Decodes(d, 24, Field(0, 8, t));
    assert Decodes(d, 32, t);
    assert Decodes(d, 40, Field(0, 8, Field(0, 4, EhdrTail(phnum))));
    assert Decodes(d, 48, Field(0, 4, EhdrTail(phnum)));
    assert Decodes(d, 52, EhdrTail(phnum));
    hide EhdrFields;
    DecodeEhdrTail(d, phnum);
    Identification(d);
  }

  lemma DecodeEhdrTail(d: seq<byte>, phnum: nat)
    requires 64 <= |d| && Decodes(d, 52, EhdrTail(phnum))
    ensures Get(d, 0x34, 2) == 64 && Get(d, 0x36, 2) == 56 && Get(d, 0x38, 2) == phnum % TWO16
    ensures Get(d, 0x3A, 2) == 0 && Get(d, 0x3C, 2) == 0 && Get(d, 0x3E, 2) == 0
  {
    hide Get;
    var t3 := Field(0, 2, Field(0, 2, Field(0, 2, End)));
    assert Decodes(d, 54, Field(56, 2, Field(phnum % TWO16, 2, t3)));
    assert Decodes(d, 56, Field(phnum % TWO16, 2, t3));
    assert Decodes(d, 58, t3);
    assert Decodes(d, 60, Field(0, 2, Field(0, 2, End)));
    assert Decodes(d, 62, Field(0, 2, End));
  }

  /** The first eight bytes, from the word they make. */
  lemma Identification(d: seq<byte>)
    requires 8 <= |d| && Get(d, 0, 8) == 0x00_01_01_02_46_4C_45_7F
    ensures d[..8] == [0x7F, 0x45, 0x4C, 0x46, 2, 1, 1, 0]
  {
    var id: seq<byte> := [0x7F, 0x45, 0x4C, 0x46, 2, 1, 1, 0];
    assert d[0..8] == d[..8];
    LeOfValue(d[..8]);
    LeOfValue(id);
    IdentificationValue();
    hide Le, Value, Pow256;
  }

  lemma IdentificationValue()
    ensures Value([0x7F, 0x45, 0x4C, 0x46, 2, 1, 1, 0]) == 0x00_01_01_02_46_4C_45_7F
  {
    var id: seq<byte> := [0x7F, 0x45, 0x4C, 0x46, 2, 1, 1, 0];
    assert id[4..] == [2, 1, 1, 0] && id[1..][1..][1..][1..] == id[4..];
    assert Value([2, 1, 1, 0]) == 0x01_01_02;
    assert Value(id[4..]) == 0x01_01_02;
  }

  /** The header of each run, where the reader looks for it. */
  lemma {:induction false} LoadPhdrsAt(runs: seq<Run>, dataOff: nat, i: nat)
    requires Captured(runs) && i < |runs|
    ensures LoadPhdrs(runs, dataOff)[56 * i..56 * i + 56] == LoadPhdr(runs[i], dataOff)
  {
    hide LoadPhdr;
    var n := |runs| - 1;
    var rest, last := LoadPhdrs(runs[..n], dataOff), LoadPhdr(runs[n], dataOff);
    if i < n {
      LoadPhdrsAt(runs[..n], dataOff, i);
      SliceLeft(rest, last, 56 * i, 56 * i + 56);
    }
  }

  lemma FileHeaders(runs: seq<Run>, notes: seq<byte>, image: seq<byte>)
    requires Captured(runs)
    ensures
      var f := CoreBytes(runs, notes, image);
      && |f| >= NoteOff(|runs|)
      && f[..64] == Ehdr(1 + |runs|)
      && f[64..120] == NotePhdr(|runs|, |notes|)
      && f[120..120 + 56 * |runs|] == LoadPhdrs(runs, DataOff(|runs|, |notes|))
  {
    hide NotePhdr, Ehdr, LoadPhdrs, CoreTail, DataOff;
    ThreeHeads(Ehdr(1 + |runs|), NotePhdr(|runs|, |notes|), LoadPhdrs(runs, DataOff(|runs|, |notes|)),
               CoreTail(|runs|, notes, image));
  }

  lemma FileImage(runs: seq<Run>, notes: seq<byte>, image: seq<byte>)
    requires Captured(runs)
    ensures CoreBytes(runs, notes, image)[DataOff(|runs|, |notes|)..] == image
  {
    hide NotePhdr, Ehdr, LoadPhdrs, CoreTail, DataOff;
    var a, b := Ehdr(1 + |runs|), NotePhdr(|runs|, |notes|);
    var c, d := LoadPhdrs(runs, DataOff(|runs|, |notes|)), CoreTail(|runs|, notes, image);
    var k := |d| - |image|;
    Suffix(c, d, k);
    Suffix(b, c + d, |c| + k);
    Suffix(a, b + (c + d), |b| + |c| + k);
  }

  lemma ThreeHeads(a: seq<byte>, b: seq<byte>, c: seq<byte>, rest: seq<byte>)
    ensures
      var f := a + (b + (c + rest));
      f[..|a|] == a && f[|a|..|a| + |b|] == b && f[|a| + |b|..|a| + |b| + |c|] == c
  {
    SliceRight(a, b + (c + rest), |a|, |a| + |b|);
    SliceLeft(b, c + rest, 0, |b|);
    SliceRight(a, b + (c + rest), |a| + |b|, |a| + |b| + |c|);
    SliceRight(b, c + rest, |b|, |b| + |c|);
    SliceLeft(c, rest, 0, |c|);
  }

  lemma Suffix(a: seq<byte>, b: seq<byte>, k: nat)
    requires k <= |b|
    ensures (a + b)[|a| + k..] == b[k..]
  {
  }

  function LoadList(runs: seq<Run>, dataOff: nat): (l: seq<Load>)
    requires Captured(runs)
    ensures |l| == |runs| && forall i | 0 <= i < |runs| :: l[i] == LoadOf(runs[i], dataOff)
  {
    seq(|runs|, i requires 0 <= i < |runs| => LoadOf(runs[i], dataOff))
  }

  /** Every number of the headers fits its field. */
  predicate Encodable(runs: seq<Run>, notes: nat) {
    DataOff(|runs|, notes) + CAP < TWO64 && forall r | r in runs :: r.vaddr < TWO64 && r.size < TWO64
  }

  lemma LoadHeaderDecodes(runs: seq<Run>, notes: seq<byte>, image: seq<byte>, i: nat)
    requires Captured(runs) && Encodable(runs, |notes|) && i < |runs|
    ensures
      var f, o := CoreBytes(runs, notes, image), 64 + (i + 1) * 56;
      && o + 56 <= |f| && Get(f, o, 4) == 1 && LoadAt(f, o) == LoadOf(runs[i], DataOff(|runs|, |notes|))
      && Get(f, o + 4, 4) == 7 && Get(f, o + 24, 8) == runs[i].paddr && Get(f, o + 48, 8) == PAGE
  {
    hide CoreBytes, LoadPhdrs, DataOff, Ehdr, Phdr, Get, LoadPhdr, LoadAt;
    var f, off := CoreBytes(runs, notes, image), DataOff(|runs|, |notes|);
    assert runs[i] in runs;
    FileHeaders(runs, notes, image);
    LoadPhdrsAt(runs, off, i);
    SliceOfSlice(f, 120, 120 + 56 * |runs|, 56 * i, 56 * i + 56);
    DecodeLoad(f, 120 + 56 * i, runs[i], off);
  }

  lemma DecodeLoad(d: seq<byte>, o: nat, r: Run, off: nat)
    requires o + 56 <= |d| && r.paddr < CAP && d[o..o + 56] == LoadPhdr(r, off)
    requires off + CAP < TWO64 && r.vaddr < TWO64 && r.size < TWO64
    ensures Get(d, o, 4) == 1 && LoadAt(d, o) == LoadOf(r, off)
    ensures Get(d, o + 4, 4) == 7 && Get(d, o + 24, 8) == r.paddr && Get(d, o + 48, 8) == PAGE
  {
    hide Phdr, Get;
    DecodePhdr(d, o, 1, 7, off + r.paddr, r.vaddr, r.paddr, Min(CAP - r.paddr, r.size), r.size, PAGE);
  }

  lemma NoteHeaderDecodes(runs: seq<Run>, notes: seq<byte>, image: seq<byte>)
    requires Captured(runs) && Encodable(runs, |notes|)
    ensures
      var f := CoreBytes(runs, notes, image);
      && 120 <= |f| && Get(f, 64, 4) == 4 && Get(f, 68, 4) == 0 && Get(f, 88, 8) == 0 && Get(f, 112, 8) == 4
      && LoadAt(f, 64) == Load(0, |notes|, NoteOff(|runs|), |notes|)
  {
    var f := CoreBytes(runs, notes, image);
    FileHeaders(runs, notes, image);
    assert NoteOff(|runs|) + |notes| <= DataOff(|runs|, |notes|);
    hide CoreBytes, LoadPhdrs, DataOff, Ehdr, Phdr, Get;
    DecodePhdr(f, 64, 4, 0, NoteOff(|runs|), 0, 0, |notes|, |notes|, 4);
  }

  lemma {:induction false} ParsePrefix(runs: seq<Run>, notes: seq<byte>, image: seq<byte>, m: nat)
    requires Captured(runs) && Encodable(runs, |notes|) && m <= 1 + |runs|
    ensures
      var f := CoreBytes(runs, notes, image);
      && 64 + m * 56 <= |f|
      && Loads(f, 64, m) == if m == 0 then [] else LoadList(runs, DataOff(|runs|, |notes|))[..m - 1]
  {
    hide CoreBytes, DataOff, Get, LoadList, LoadOf;
    NoteHeaderDecodes(runs, notes, image);
    if m > 0 {
      ParsePrefix(runs, notes, image, m - 1);
      if m > 1 {
        LoadHeaderDecodes(runs, notes, image, m - 2);
        var l := LoadList(runs, DataOff(|runs|, |notes|));
        assert l[..m - 1] == l[..m - 2] + [l[m - 2]];
      }
    }
  }

  /** The reader finds the note header first, and no other. */
  lemma {:induction false} NotesPrefix(runs: seq<Run>, notes: seq<byte>, image: seq<byte>, m: nat)
    requires Captured(runs) && Encodable(runs, |notes|) && m <= 1 + |runs|
    ensures
      var f := CoreBytes(runs, notes, image);
      && 64 + m * 56 <= |f|
      && Notes(f, 64, m) == if m == 0 then [] else [Extent(NoteOff(|runs|), |notes|)]
  {
    hide CoreBytes, DataOff, Get, LoadOf, NoteOff;
    NoteHeaderDecodes(runs, notes, image);
    if m > 0 {
      NotesPrefix(runs, notes, image, m - 1);
      if m > 1 {
        LoadHeaderDecodes(runs, notes, image, m - 2);
      }
    }
  }

  /** The bytes of the notes and of the padding after them. */
  lemma FileNotes(runs: seq<Run>, notes: seq<byte>, image: seq<byte>)
    requires Captured(runs)
    ensures
      var f, o, e := CoreBytes(runs, notes, image), NoteOff(|runs|), DataOff(|runs|, |notes|);
      && o + |notes| <= e <= |f| && e < o + |notes| + PAGE && e % PAGE == 0
      && f[o..o + |notes|] == notes && forall k {:trigger f[k]} | o + |notes| <= k < e :: f[k] == 0
  {
    RoundsUp(|runs|, |notes|);
    hide NotePhdr, Ehdr, LoadPhdrs, DataOff;
    var a, b := Ehdr(1 + |runs|), NotePhdr(|runs|, |notes|);
    var c := LoadPhdrs(runs, DataOff(|runs|, |notes|));
    var pad := Zeros(DataOff(|runs|, |notes|) - NoteOff(|runs|) - |notes|);
    FourthPart(a, b, c, notes, pad + image);
    FifthPart(a, b, c, notes, pad, image);
  }

  lemma FourthPart(a: seq<byte>, b: seq<byte>, c: seq<byte>, d: seq<byte>, rest: seq<byte>)
    ensures
      var f, o := a + (b + (c + (d + rest))), |a| + |b| + |c|;
      f[o..o + |d|] == d
  {
    Suffix(a, b + (c + (d + rest)), |b| + |c|);
    Suffix(b, c + (d + rest), |c|);
    Suffix(c, d + rest, 0);
    var f, o := a + (b + (c + (d + rest))), |a| + |b| + |c|;
    assert f[o..] == (d + rest)[0..];
    assert f[o..o + |d|] == f[o..][..|d|];
  }

  lemma FifthPart(a: seq<byte>, b: seq<byte>, c: seq<byte>, d: seq<byte>, e: seq<byte>, rest: seq<byte>)
    ensures
      var f, o := a + (b + (c + (d + (e + rest)))), |a| + |b| + |c| + |d|;
      forall k {:trigger f[k]} | o <= k < o + |e| :: f[k] == e[k - o]
  {
  }

  /** The file header and the note header of a written core in numbers. */
  lemma NoteInNumbers(runs: seq<Run>, notes: seq<byte>, image: seq<byte>)
    requires Captured(runs) && Encodable(runs, |notes|)
    ensures
      var f := CoreBytes(runs, notes, image);
      && IsCoreHeader(f, 1 + |runs|) && 120 <= |f|
      && Get(f, 64, 4) == 4 && Get(f, 68, 4) == 0 && Get(f, 72, 8) == 64 + 56 * (1 + |runs|) && Get(f, 80, 8) == 0
      && Get(f, 88, 8) == 0 && Get(f, 96, 8) == |notes| && Get(f, 104, 8) == |notes| && Get(f, 112, 8) == 4
  {
    hide CoreBytes, DataOff, Get, Ehdr, LoadPhdrs, Phdr, IsCoreHeader;
    FileHeaders(runs, notes, image);
    DecodeEhdr(CoreBytes(runs, notes, image), 1 + |runs|);
    NoteHeaderDecodes(runs, notes, image);
  }

  /** The header of a run: readable, writable and executable, its bytes up to the end of the window, its physical
      address, page alignment. */
  lemma LoadInNumbers(runs: seq<Run>, notes: seq<byte>, image: seq<byte>, i: nat)
    requires Captured(runs) && Encodable(runs, |notes|) && i < |runs|
    ensures
      var f, o, r := CoreBytes(runs, notes, image), 120 + 56 * i, runs[i];
      && r in runs && o + 56 <= |f| && Get(f, o, 4) == 1 && Get(f, o + 4, 4) == 7
      && Get(f, o + 8, 8) == DataOff(|runs|, |notes|) + r.paddr && Get(f, o + 16, 8) == r.vaddr && Get(f, o + 24, 8) == r.paddr
      && Get(f, o + 32, 8) == (if r.paddr + r.size <= 0x200_0000 then r.size else 0x200_0000 - r.paddr)
      && Get(f, o + 40, 8) == r.size && Get(f, o + 48, 8) == 0x1000
  {
    hide CoreBytes, DataOff, Get;
    LoadHeaderDecodes(runs, notes, image, i);
  }

  /** The reader finds one stretch of notes, the ones written, exactly when the count it reads is not 0. */
  lemma NotesFound(runs: seq<Run>, notes: seq<byte>, image: seq<byte>)
    requires Captured(runs) && Encodable(runs, |notes|)
    ensures
      var f := CoreBytes(runs, notes, image);
      && 64 <= |f| && Get(f, 0x20, 8) + Get(f, 0x38, 2) * 56 <= |f|
      && var found := Notes(f, Get(f, 0x20, 8), Get(f, 0x38, 2));
      if (1 + |runs|) % TWO16 == 0 then found == []
      else
        && |found| == 1 && found[0].off + found[0].size <= |f|
        && f[found[0].off..found[0].off + found[0].size] == notes
  {
    hide CoreBytes, DataOff, Get, Notes, NoteOff;
    CountDecodes(runs, notes, image);
    CountAtMost(1 + |runs|);
    NotesPrefix(runs, notes, image, (1 + |runs|) % TWO16);
    FileNotes(runs, notes, image);
  }

  lemma CountAtMost(n: nat)
    ensures n % TWO16 <= n
  {
  }

  /** Parsing the file recovers every run that was written exactly when the 16-bit header count holds
      them all. */
  lemma ParseRecovers(runs: seq<Run>, notes: seq<byte>, image: seq<byte>)
    requires Captured(runs) && Encodable(runs, |notes|)
    ensures
      var f := CoreBytes(runs, notes, image);
      && 64 <= |f| && Get(f, 0x20, 8) + Get(f, 0x38, 2) * 56 <= |f|
      && (Loads(f, Get(f, 0x20, 8), Get(f, 0x38, 2)) == LoadList(runs, DataOff(|runs|, |notes|)) <==>
          runs == [] || 1 + |runs| < TWO16)
  {
    hide CoreBytes, DataOff, Get, LoadList, LoadOf, Ehdr, LoadPhdrs, Phdr, Loads;
    var f := CoreBytes(runs, notes, image);
    CountDecodes(runs, notes, image);
    ParsePrefix(runs, notes, image, 1 + |runs|);
    ParsePrefix(runs, notes, image, (1 + |runs|) % TWO16);
  }

  lemma CountDecodes(runs: seq<Run>, notes: seq<byte>, image: seq<byte>)
    requires Captured(runs)
    ensures
      var f := CoreBytes(runs, notes, image);
      64 <= |f| && Get(f, 0x20, 8) == 64 && Get(f, 0x38, 2) == (1 + |runs|) % TWO16
  {
    hide CoreBytes, Get, Ehdr, LoadPhdrs, Phdr, DataOff;
    FileHeaders(runs, notes, image);
    DecodeEhdr(CoreBytes(runs, notes, image), 1 + |runs|);
  }

  // --- reading memory through the core ------------------------------------------------------------

  lemma {:induction false} ReadFrom(d: seq<byte>, loads: seq<Load>, va: nat, n: nat, i: nat)
    requires i < |loads| && Holds(loads[i], va) && forall j | 0 <= j < i :: !Holds(loads[j], va)
    ensures ReadAt(d, loads, va, n) ==
      var fo := loads[i].off + (va - loads[i].vaddr);
      if va - loads[i].vaddr + n <= loads[i].filesz then Some(Cut(d, fo, fo + n)) else None
  {
    if i > 0 {
      ReadFrom(d, loads[1..], va, n, i - 1);
    }
  }

  lemma {:induction false} ReadNowhere(d: seq<byte>, loads: seq<Load>, va: nat, n: nat)
    requires forall j | 0 <= j < |loads| :: !Holds(loads[j], va)
    ensures ReadAt(d, loads, va, n) == None
  {
    if loads != [] {
      ReadNowhere(d, loads[1..], va, n);
    }
  }

  lemma {:induction false} KeptRunsOf(runs: seq<Run>, r: Run)
    ensures r in Kept(runs) <==> r in runs && r.paddr < CAP
  {
    if runs != [] {
      KeptRunsOf(runs[..|runs| - 1], r);
      assert runs == runs[..|runs| - 1] + [runs[|runs| - 1]];
    }
  }

  lemma {:induction false} KeptOrdered(runs: seq<Run>, lo: nat, hi: nat)
    requires Ordered(runs, lo, hi)
    ensures forall i, j | 0 <= i < j < |Kept(runs)| :: Before(Kept(runs)[i], Kept(runs)[j])
  {
    if runs != [] {
      var n := |runs| - 1;
      KeptOrdered(runs[..n], lo, hi);
      forall r | r in Kept(runs[..n])
        ensures Before(r, runs[n])
      {
        KeptRunsOf(runs[..n], r);
      }
    }
  }

  /** The bytes of memory a read at `va` should return: `n` bytes inside one run, all captured. */
  ghost predicate Readable(runs: seq<Run>, va: nat, n: nat, pa: nat) {
    exists r :: r in runs && In(r, va) && va + n <= r.vaddr + r.size && pa == r.paddr + (va - r.vaddr) && pa + n <= CAP
  }

  lemma CoreSlice(f: seq<byte>, off: nat, phys: seq<byte>, x: nat, n: nat)
    requires off <= |f| && CAP <= |phys| && f[off..] == phys[..CAP] && x + n <= CAP
    ensures off + x + n <= |f| && f[off + x..off + x + n] == phys[x..x + n]
  {
    assert |f| == off + CAP;
    assert f[off..|f|] == f[off..] == phys[0..CAP];
    SliceOfSlice(f, off, |f|, x, x + n);
    SliceOfSlice(phys, 0, CAP, x, x + n);
  }

  lemma ReadableIs(runs: seq<Run>, lo: nat, hi: nat, r: Run, va: nat, n: nat, pa: nat)
    requires Ordered(runs, lo, hi) && r in runs && In(r, va)
    ensures Readable(runs, va, n, pa) <==> va + n <= r.vaddr + r.size && pa == r.paddr + (va - r.vaddr) && pa + n <= CAP
  {
    var i :| 0 <= i < |runs| && runs[i] == r;
    if Readable(runs, va, n, pa) {
      var q :| q in runs && In(q, va) && va + n <= q.vaddr + q.size && pa == q.paddr + (va - q.vaddr) && pa + n <= CAP;
      var j :| 0 <= j < |runs| && runs[j] == q;
      OneRun(runs, lo, hi, i, j, va);
    }
  }

  lemma ReadableKept(runs: seq<Run>, va: nat, n: nat, pa: nat)
    requires n > 0 && Readable(runs, va, n, pa)
    ensures exists i :: 0 <= i < |Kept(runs)| && In(Kept(runs)[i], va)
  {
    hide Kept;
    var r :| r in runs && In(r, va) && va + n <= r.vaddr + r.size && pa == r.paddr + (va - r.vaddr) && pa + n <= CAP;
    KeptRunsOf(runs, r);
  }

  /** Reading the parsed core: a read succeeds exactly when its bytes lie in one run and below the
      captured limit, and then returns the bytes of physical memory there. */
  lemma CoreReads(runs: seq<Run>, lo: nat, hi: nat, notes: seq<byte>, phys: seq<byte>, va: nat, n: nat, pa: nat)
    requires Ordered(runs, lo, hi) && |phys| >= CAP && n > 0
    ensures
      var f := CoreBytes(Kept(runs), notes, phys[..CAP]);
      var loads := LoadList(Kept(runs), DataOff(|Kept(runs)|, |notes|));
      && (Readable(runs, va, n, pa) ==> ReadAt(f, loads, va, n) == Some(phys[pa..pa + n]))
      && (ReadAt(f, loads, va, n).Some? ==> exists pa :: Readable(runs, va, n, pa))
  {
    var kept, off := Kept(runs), DataOff(|Kept(runs)|, |notes|);
    var f, loads := CoreBytes(kept, notes, phys[..CAP]), LoadList(kept, off);
    KeptOrdered(runs, lo, hi);
    FileImage(kept, notes, phys[..CAP]);
    hide CoreBytes, DataOff, Kept, Ordered;
    if i :| 0 <= i < |kept| && In(kept[i], va) {
      forall j | 0 <= j < i
        ensures !Holds(loads[j], va)
      {
        assert Before(kept[j], kept[i]);
      }
      ReadOneRun(runs, lo, hi, kept, loads, f, off, phys, va, n, pa, i);
    } else {
      ReadNowhere(f, loads, va, n);
      if Readable(runs, va, n, pa) {
        ReadableKept(runs, va, n, pa);
      }
    }
  }

  lemma ReadOneRun(runs: seq<Run>, lo: nat, hi: nat, kept: seq<Run>, loads: seq<Load>, f: seq<byte>, off: nat,
                   phys: seq<byte>, va: nat, n: nat, pa: nat, i: nat)
    requires Ordered(runs, lo, hi) && kept == Kept(runs) && loads == LoadList(kept, off)
    requires off <= |f| && CAP <= |phys| && f[off..] == phys[..CAP]
    requires i < |kept| && In(kept[i], va) && forall j | 0 <= j < i :: !Holds(loads[j], va)
    ensures Readable(runs, va, n, pa) ==> ReadAt(f, loads, va, n) == Some(phys[pa..pa + n])
    ensures ReadAt(f, loads, va, n).Some? ==> exists pa :: Readable(runs, va, n, pa)
  {
    var r := kept[i];
    var x := r.paddr + (va - r.vaddr);
    KeptRunsOf(runs, r);
    hide Kept, LoadList, Ordered;
    ReadFrom(f, loads, va, n, i);
    ReadableIs(runs, lo, hi, r, va, n, pa);
    ReadableIs(runs, lo, hi, r, va, n, x);
    hide Readable;
    assert loads[i] == LoadOf(r, off);
    if x + n <= CAP {
      CoreSlice(f, off, phys, x, n);
    }
  }

  // --- the file as a whole --------------------------------------------------------------------------

  /** Every load's file range lies inside the file. */
  ghost predicate InFile(loads: seq<Load>, f: seq<byte>) { forall l | l in loads :: l.off + l.filesz <= |f| }

  lemma RangesInFile(runs: seq<Run>, notes: seq<byte>, image: seq<byte>)
    requires Captured(runs) && |image| == CAP
    ensures InFile(LoadList(runs, DataOff(|runs|, |notes|)), CoreBytes(runs, notes, image))
  {
    var off := DataOff(|runs|, |notes|);
    hide DataOff, CoreBytes;
    forall l | l in LoadList(runs, off)
      ensures l.off + l.filesz <= off + |image|
    {
      var i :| 0 <= i < |runs| && LoadList(runs, off)[i] == l;
      assert l == LoadOf(runs[i], off);
    }
  }

  /** A read gives the bytes of physical memory where they lie in one run and were captured, and nothing
      where they do not. */
  ghost predicate ReadsRun(runs: seq<Run>, phys: seq<byte>, va: nat, n: nat, r: Option<seq<byte>>) {
    && (forall pa: nat | Readable(runs, va, n, pa) :: pa + n <= |phys| && r == Some(phys[pa..pa + n]))
    && (r.Some? ==> exists pa: nat :: Readable(runs, va, n, pa))
  }

  lemma ReadsRuns(runs: seq<Run>, lo: nat, hi: nat, notes: seq<byte>, phys: seq<byte>, va: nat, n: nat)
    requires Ordered(runs, lo, hi) && |phys| >= CAP && n > 0
    ensures
      var f := CoreBytes(Kept(runs), notes, phys[..CAP]);
      var loads := LoadList(Kept(runs), DataOff(|Kept(runs)|, |notes|));
      ReadsRun(runs, phys, va, n, ReadAt(f, loads, va, n))
  {
    var f := CoreBytes(Kept(runs), notes, phys[..CAP]);
    var loads := LoadList(Kept(runs), DataOff(|Kept(runs)|, |notes|));
    hide CoreBytes, Kept, LoadList, DataOff, ReadAt, Ordered;
    forall pa: nat | Readable(runs, va, n, pa)
      ensures pa + n <= |phys| && ReadAt(f, loads, va, n) == Some(phys[pa..pa + n])
    {
      CoreReads(runs, lo, hi, notes, phys, va, n, pa);
    }
    CoreReads(runs, lo, hi, notes, phys, va, n, 0);
  }

  lemma {:induction false} AtMostBytes(runs: seq<Run>, lo: nat, hi: nat)
    requires Ordered(runs, lo, hi)
    ensures |runs| > 0 ==> lo + |runs| <= runs[|runs| - 1].vaddr + runs[|runs| - 1].size <= hi
  {
    if |runs| > 0 {
      var n := |runs| - 1;
      assert Within(runs[n], lo, hi);
      if n > 0 {
        AtMostBytes(runs[..n], lo, hi);
        assert Before(runs[n - 1], runs[n]);
      }
    }
  }

  lemma {:induction false} KeptFewer(runs: seq<Run>)
    ensures |Kept(runs)| <= |runs|
  {
    if runs != [] {
      KeptFewer(runs[..|runs| - 1]);
    }
  }

  /** The runs of the higher half always fit the fields of their headers. */
  lemma RunsEncodable(runs: seq<Run>, lo: nat, notes: nat)
    requires Ordered(runs, lo, TWO64) && lo >= TWO64 - 0x8000_0000_0000 && notes < TWO32
    ensures Encodable(Kept(runs), notes)
  {
    hide Kept;
    KeptFewer(runs);
    AtMostBytes(runs, lo, TWO64);
    forall r | r in Kept(runs)
      ensures r.vaddr < TWO64 && r.size < TWO64
    {
      KeptRunsOf(runs, r);
    }
    OffsetBound(|Kept(runs)|, notes);
  }

  lemma OffsetBound(n: nat, notes: nat)
    requires n <= 0x8000_0000_0000 && notes < TWO32
    ensures DataOff(n, notes) + CAP < TWO64
  {
  }

  /** The loads the reader finds in a file: those of the first runs, as many as the header count says. */
  ghost function Found(f: seq<byte>): seq<Load>
    requires 64 <= |f| && Get(f, 0x20, 8) + Get(f, 0x38, 2) * 56 <= |f|
  {
    Loads(f, Get(f, 0x20, 8), Get(f, 0x38, 2))
  }

  /** Runs beyond what 16 bits count are lost: the reader has nothing at the first byte of the last one. */
  lemma LostRun(runs: seq<Run>, lo: nat, hi: nat, notes: seq<byte>, image: seq<byte>) returns (i: nat)
    requires Ordered(runs, lo, hi) && Encodable(Kept(runs), |notes|) && 1 + |Kept(runs)| >= TWO16
    ensures i < |runs| && lo <= runs[i].vaddr < hi && In(runs[i], runs[i].vaddr) && runs[i].paddr < CAP
    ensures
      var f := CoreBytes(Kept(runs), notes, image);
      && 64 <= |f| && Get(f, 0x20, 8) + Get(f, 0x38, 2) * 56 <= |f| && ReadAt(f, Found(f), runs[i].vaddr, 1) == None
  {
    hide CoreBytes, Get, Found, Kept, Ordered, Encodable, ReadAt, DataOff, LoadList, Captured;
    var kept := Kept(runs);
    i := LastKept(runs, lo, hi);
    FirstLoads(kept, notes, image);
    KeptReadsNothing(runs, lo, hi, DataOff(|kept|, |notes|), CoreBytes(kept, notes, image));
  }

  lemma KeptReadsNothing(runs: seq<Run>, lo: nat, hi: nat, off: nat, f: seq<byte>)
    requires Ordered(runs, lo, hi) && 1 + |Kept(runs)| >= TWO16
    ensures
      var kept, m := Kept(runs), (1 + |Kept(runs)|) % TWO16;
      m <= |kept| && ReadAt(f, if m == 0 then [] else LoadList(kept, off)[..m - 1], kept[|kept| - 1].vaddr, 1) == None
  {
    KeptOrdered(runs, lo, hi);
    hide Kept, ReadAt, LoadList, Ordered, Captured;
    CountLess(1 + |Kept(runs)|);
    ReadsNothing(Kept(runs), off, (1 + |Kept(runs)|) % TWO16, f);
  }

  lemma CountLess(n: nat)
    requires n >= TWO16
    ensures n % TWO16 < n
  {
  }

  lemma LastKept(runs: seq<Run>, lo: nat, hi: nat) returns (i: nat)
    requires Ordered(runs, lo, hi) && Kept(runs) != []
    ensures i < |runs| && runs[i] == Kept(runs)[|Kept(runs)| - 1]
    ensures lo <= runs[i].vaddr < hi && In(runs[i], runs[i].vaddr) && runs[i].paddr < CAP
  {
    var last := Kept(runs)[|Kept(runs)| - 1];
    hide Kept;
    KeptRunsOf(runs, last);
    i :| 0 <= i < |runs| && runs[i] == last;
    assert Within(runs[i], lo, hi);
  }

  /** The reader sees the first of the loads, as many as the count cut to 16 bits says. */
  lemma FirstLoads(runs: seq<Run>, notes: seq<byte>, image: seq<byte>)
    requires Captured(runs) && Encodable(runs, |notes|)
    ensures
      var f, m := CoreBytes(runs, notes, image), (1 + |runs|) % TWO16;
      && 64 <= |f| && Get(f, 0x20, 8) + Get(f, 0x38, 2) * 56 <= |f| && m <= 1 + |runs|
      && Found(f) == if m == 0 then [] else LoadList(runs, DataOff(|runs|, |notes|))[..m - 1]
  {
    hide CoreBytes, DataOff, Get, LoadList, Loads, Encodable;
    CountDecodes(runs, notes, image);
    ParsePrefix(runs, notes, image, (1 + |runs|) % TWO16);
  }

  lemma ReadsNothing(kept: seq<Run>, off: nat, m: nat, f: seq<byte>)
    requires Captured(kept) && m <= |kept| && kept != [] && forall i, j | 0 <= i < j < |kept| :: Before(kept[i], kept[j])
    ensures ReadAt(f, if m == 0 then [] else LoadList(kept, off)[..m - 1], kept[|kept| - 1].vaddr, 1) == None
  {
    var loads := if m == 0 then [] else LoadList(kept, off)[..m - 1];
    var va := kept[|kept| - 1].vaddr;
    forall j | 0 <= j < |loads|
      ensures !Holds(loads[j], va)
    {
      assert loads[j] == LoadOf(kept[j], off) && Before(kept[j], kept[|kept| - 1]);
    }
    ReadNowhere(f, loads, va, 1);
  }

  /** 65535 runs, one more than the headers can count beside the notes: the count is 0 and the reader sees none. */
  function ManyRuns(): seq<Run> { seq(0xFFFF, i requires 0 <= i => Run(0xFFFF_8000_0000_0000 + i * 0x2000, 0, 0x1000)) }

  lemma TooManyRuns(image: seq<byte>)
    ensures
      var runs := ManyRuns();
      && Captured(runs) && Encodable(runs, 0)
      && var f := CoreBytes(runs, [], image);
      && 64 <= |f| && Get(f, 0x20, 8) + Get(f, 0x38, 2) * 56 <= |f| && Found(f) == []
  {
    var runs := ManyRuns();
    assert Captured(runs) && Encodable(runs, 0) by { OffsetBound(0xFFFF, 0); hide DataOff; }
    assert |runs| == 0xFFFF;
    hide ManyRuns, Captured, Encodable, CoreBytes, Get, LoadList;
    FirstLoads(runs, [], image);
  }
}
