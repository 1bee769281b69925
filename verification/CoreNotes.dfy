/** The notes of the core: `note` of kernel/src/dump.rs, and `vmcoreinfo` of tools/kdbg_check.py. */
module CoreNotes {
  import opened Bytes
  import opened Codec
  import opened CoreFile
  import opened Runs
  import opened Wrappers

  datatype Note = Note(name: seq<byte>, kind: nat, desc: seq<byte>)

  /** Up to the next multiple of four. */
  function Up4(n: nat): (r: nat)
    ensures r % 4 == 0 && n <= r < n + 4
  {
    (n + 3) / 4 * 4
  }

  /** A name with its NUL, padded, and a descriptor, padded. */
  function NameBytes(name: seq<byte>): (s: seq<byte>)
    ensures |s| == Up4(|name| + 1) && s[..|name| + 1] == name + [0]
  {
    name + [0] + Zeros(Up4(|name| + 1) - (|name| + 1))
  }

  function DescBytes(desc: seq<byte>): (s: seq<byte>)
    ensures |s| == Up4(|desc|) && s[..|desc|] == desc
  {
    desc + Zeros(Up4(|desc|) - |desc|)
  }

  function HeadBytes(n: Note): (s: seq<byte>)
    ensures |s| == 12
  {
    Le(|n.name| + 1, 4) + Le(|n.desc|, 4) + Le(n.kind, 4)
  }

  /** A note: sizes and type, the name, the descriptor. */
  function NoteBytes(n: Note): (s: seq<byte>)
    ensures |s| == 12 + Up4(|n.name| + 1) + Up4(|n.desc|)
  {
    HeadBytes(n) + (NameBytes(n.name) + DescBytes(n.desc))
  }

  function AllBytes(ns: seq<Note>): (s: seq<byte>) {
    if ns == [] then [] else NoteBytes(ns[0]) + AllBytes(ns[1..])
  }

  lemma {:induction false} AllBytesMore(ns: seq<Note>, n: Note)
    ensures AllBytes(ns + [n]) == AllBytes(ns) + NoteBytes(n)
  {
    hide NoteBytes;
    if ns == [] {
      assert (ns + [n])[1..] == [];
    } else {
      assert (ns + [n])[1..] == ns[1..] + [n];
      AllBytesMore(ns[1..], n);
    }
  }

  lemma {:induction false} AllAligned(ns: seq<Note>)
    ensures |AllBytes(ns)| % 4 == 0
  {
    hide NoteBytes;
    if ns != [] {
      AllAligned(ns[1..]);
      NoteAligned(ns[0]);
      Sum4(|NoteBytes(ns[0])|, |AllBytes(ns[1..])|);
    }
  }

  lemma NoteAligned(n: Note)
    ensures |NoteBytes(n)| % 4 == 0
  {
    hide NoteBytes, Up4;
    Sum4(12, Up4(|n.name| + 1));
    Sum4(12 + Up4(|n.name| + 1), Up4(|n.desc|));
  }

  lemma Sum4(a: nat, b: nat)
    requires a % 4 == 0 && b % 4 == 0
    ensures (a + b) % 4 == 0
  {
  }

  /** Zeros up to a multiple of four. */
  method Pad(out: seq<byte>) returns (out': seq<byte>)
    ensures out' == out + Zeros(Up4(|out|) - |out|)
  {
    out' := out;
    while |out'| % 4 != 0
      invariant |out| <= |out'| <= Up4(|out|) && out' == out + Zeros(|out'| - |out|)
      decreases Up4(|out|) - |out'|
    {
      out' := out' + [0];
    }
  }

  /** `note`. */
  method PutNote(out: seq<byte>, n: Note) returns (out': seq<byte>)
    requires |out| % 4 == 0
    ensures out' == out + NoteBytes(n)
  {
    hide Le, Zeros, Up4;
    var head := out + HeadBytes(n);
    out' := Pad(head + n.name + [0]);
    PadShift(|head|, |n.name| + 1);
    assert out' == head + NameBytes(n.name);
    ghost var named := out';
    out' := Pad(out' + n.desc);
    PadShift(|named|, |n.desc|);
    assert out' == named + DescBytes(n.desc);
  }

  lemma NoBytes()
    ensures AllBytes([]) == []
  {
  }

  /** The notes one after another. */
  method PutNotes(ns: seq<Note>) returns (out: seq<byte>)
    ensures out == AllBytes(ns)
  {
    hide AllBytes, NoteBytes;
    out := [];
    NoBytes();
    for i := 0 to |ns|
      invariant out == AllBytes(ns[..i])
    {
      AllAligned(ns[..i]);
      AllBytesMore(ns[..i], ns[i]);
      assert ns[..i] + [ns[i]] == ns[..i + 1];
      out := PutNote(out, ns[i]);
    }
    assert ns[..|ns|] == ns;
  }

  lemma PadShift(a: nat, n: nat)
    requires a % 4 == 0
    ensures Up4(a + n) == a + Up4(n)
  {
  }

  // --- the reader ----------------------------------------------------------------------------------

  const KEY: seq<byte> := [0x56, 0x4D, 0x43, 0x4F, 0x52, 0x45, 0x49, 0x4E, 0x46, 0x4F]

  predicate StartsWith(s: seq<byte>, key: seq<byte>) { |key| <= |s| && s[..|key|] == key }

  /** The descriptors of the notes in a blob from `p` on whose name starts with the key. */
  function InfoFrom(blob: seq<byte>, p: nat): seq<byte>
    decreases |blob| + 12 - p
  {
    if p + 12 > |blob| then []
    else
      var namesz, descsz := Get(blob, p, 4), Get(blob, p + 4, 4);
      var q := p + 12 + Up4(namesz);
      (if StartsWith(Cut(blob, p + 12, p + 12 + namesz), KEY) then Cut(blob, q, q + descsz) else [])
      + InfoFrom(blob, q + Up4(descsz))
  }

  /** `vmcoreinfo`: over every stretch of notes. */
  function Info(d: seq<byte>, notes: seq<Extent>): seq<byte> {
    if notes == [] then []
    else
      var e := notes[|notes| - 1];
      Info(d, notes[..|notes| - 1]) + InfoFrom(Cut(d, e.off, e.off + e.size), 0)
  }

  method VmcoreInfo(d: seq<byte>, notes: seq<Extent>) returns (text: seq<byte>)
    ensures text == Info(d, notes)
  {
    hide Cut, Get, Up4, StartsWith;
    text := [];
    for i := 0 to |notes|
      invariant text == Info(d, notes[..i])
    {
      assert notes[..i + 1][..i] == notes[..i];
      var blob := Cut(d, notes[i].off, notes[i].off + notes[i].size);
      ghost var before := text;
      var p := 0;
      while p + 12 <= |blob|
        invariant text + InfoFrom(blob, p) == before + InfoFrom(blob, 0)
        decreases |blob| + 12 - p
      {
        var namesz, descsz := Get(blob, p, 4), Get(blob, p + 4, 4);
        var name := Cut(blob, p + 12, p + 12 + namesz);
        var q := p + 12 + Up4(namesz);
        if StartsWith(name, KEY) {
          text := text + Cut(blob, q, q + descsz);
        }
        p := q + Up4(descsz);
      }
      assert text + [] == text;
    }
    assert notes[..|notes|] == notes;
  }

  // --- what is read is what was written -----------------------------------------------------------------

  ghost predicate NoteFits(n: Note) { |n.name| + 1 < TWO32 && |n.desc| < TWO32 && n.kind < TWO32 }

  /** The descriptors of the notes whose name starts with the key. */
  ghost function Wanted(ns: seq<Note>): seq<byte> {
    if ns == [] then [] else (if StartsWith(ns[0].name, KEY) then ns[0].desc else []) + Wanted(ns[1..])
  }

  /** The NUL after a name does not matter to the key. */
  lemma NulIgnored(name: seq<byte>)
    ensures StartsWith(name + [0], KEY) <==> StartsWith(name, KEY)
  {
    if |name| + 1 == |KEY| {
      assert (name + [0])[..|KEY|][9] == 0;
    } else if |KEY| <= |name| {
      assert (name + [0])[..|KEY|] == name[..|KEY|];
    }
  }

  /** A note at the front of what is left of a blob, as the reader cuts it. */
  lemma NoteReads(blob: seq<byte>, p: nat, n: Note, rest: seq<byte>)
    requires p <= |blob| && blob[p..] == NoteBytes(n) + rest && NoteFits(n)
    ensures p + 12 <= |blob| && Get(blob, p, 4) == |n.name| + 1 && Get(blob, p + 4, 4) == |n.desc| && Get(blob, p + 8, 4) == n.kind
    ensures Cut(blob, p + 12, p + 12 + |n.name| + 1) == n.name + [0]
    ensures
      var q := p + 12 + Up4(|n.name| + 1);
      Cut(blob, q, q + |n.desc|) == n.desc && q + Up4(|n.desc|) <= |blob| && blob[q + Up4(|n.desc|)..] == rest
  {
    hide Up4, Get, HeadBytes, NameBytes, DescBytes;
    var a, b, c := HeadBytes(n), NameBytes(n.name), DescBytes(n.desc);
    assert |blob| == p + |NoteBytes(n)| + |rest|;
    assert blob[p..] == a + (b + (c + rest));
    Parts(blob, p, a, b, c, rest);
    HeadReads(blob, p, n);
    SliceOfSlice(blob, p + 12, p + 12 + |b|, 0, |n.name| + 1);
    SliceOfSlice(blob, p + 12 + |b|, p + 12 + |b| + |c|, 0, |n.desc|);
  }

  lemma Parts(blob: seq<byte>, p: nat, a: seq<byte>, b: seq<byte>, c: seq<byte>, rest: seq<byte>)
    requires p <= |blob| && blob[p..] == a + (b + (c + rest))
    ensures |blob| == p + |a| + |b| + |c| + |rest|
    ensures blob[p..p + |a|] == a && blob[p + |a|..p + |a| + |b|] == b
    ensures blob[p + |a| + |b|..p + |a| + |b| + |c|] == c && blob[p + |a| + |b| + |c|..] == rest
  {
    var s := blob[p..];
    assert |blob| == p + |s|;
    ThreeHeads(a, b, c, rest);
    Suffix(a, b + (c + rest), |b| + |c|);
    Suffix(b, c + rest, |c|);
    Suffix(c, rest, 0);
    assert blob[p..|blob|] == s;
    SliceOfSlice(blob, p, |blob|, 0, |a|);
    SliceOfSlice(blob, p, |blob|, |a|, |a| + |b|);
    SliceOfSlice(blob, p, |blob|, |a| + |b|, |a| + |b| + |c|);
    SliceOfSlice(blob, p, |blob|, |a| + |b| + |c|, |s|);
    assert s[|a| + |b| + |c|..|s|] == rest;
  }

  lemma HeadReads(blob: seq<byte>, p: nat, n: Note)
    requires p + 12 <= |blob| && blob[p..p + 12] == HeadBytes(n) && NoteFits(n)
    ensures Get(blob, p, 4) == |n.name| + 1 && Get(blob, p + 4, 4) == |n.desc| && Get(blob, p + 8, 4) == n.kind
  {
    Pow256Constants();
    hide Le, Get, Pow256;
    SliceOfSlice(blob, p, p + 12, 0, 4);
    SliceOfSlice(blob, p, p + 12, 4, 8);
    GetEncoded(blob, p, |n.name| + 1, 4);
    SliceOfSlice(blob, p, p + 12, 8, 12);
    GetEncoded(blob, p + 4, |n.desc|, 4);
    GetEncoded(blob, p + 8, n.kind, 4);
  }

  lemma {:induction false} ReadsFrom(blob: seq<byte>, p: nat, ns: seq<Note>)
    requires p <= |blob| && blob[p..] == AllBytes(ns) && forall n | n in ns :: NoteFits(n)
    ensures InfoFrom(blob, p) == Wanted(ns)
    decreases |ns|
  {
    hide NoteBytes, NoteFits, InfoFrom, Up4;
    if ns != [] {
      var n := ns[0];
      InfoStep(blob, p, n, AllBytes(ns[1..]));
      ReadsFrom(blob, p + 12 + Up4(|n.name| + 1) + Up4(|n.desc|), ns[1..]);
    } else {
      InfoEnd(blob, p);
    }
  }

  lemma InfoEnd(blob: seq<byte>, p: nat)
    requires p == |blob|
    ensures InfoFrom(blob, p) == []
  {
  }

  lemma InfoStep(blob: seq<byte>, p: nat, n: Note, rest: seq<byte>)
    requires p <= |blob| && blob[p..] == NoteBytes(n) + rest && NoteFits(n)
    ensures
      var next := p + 12 + Up4(|n.name| + 1) + Up4(|n.desc|);
      && next <= |blob| && blob[next..] == rest
      && InfoFrom(blob, p) == (if StartsWith(n.name, KEY) then n.desc else []) + InfoFrom(blob, next)
  {
    hide Cut, Get, Up4, NoteBytes, StartsWith, NoteFits;
    NoteReads(blob, p, n, rest);
    NulIgnored(n.name);
  }

  /** The reader's text is the descriptors written under its key, in order, whatever other notes there are. */
  lemma NotesReadBack(d: seq<byte>, e: Extent, ns: seq<Note>)
    requires (forall n | n in ns :: NoteFits(n)) && e.off + e.size <= |d| && d[e.off..e.off + e.size] == AllBytes(ns)
    ensures Info(d, [e]) == Wanted(ns)
  {
    hide AllBytes, Wanted, NoteFits, InfoFrom;
    assert [e][..0] == [] && Info(d, []) == [];
    var blob := Cut(d, e.off, e.off + e.size);
    assert blob == AllBytes(ns) && blob[0..] == blob;
    ReadsFrom(blob, 0, ns);
    assert [] + InfoFrom(blob, 0) == InfoFrom(blob, 0);
  }

  // --- numbers in the text --------------------------------------------------------------------------

  function HexDigit(d: nat): byte
    requires d < 16
  {
    if d < 10 then 0x30 + d else 0x61 + d - 10
  }

  function HexDigits(v: nat): (s: seq<byte>)
    ensures |s| > 0
    decreases v
  {
    (if v < 16 then [] else HexDigits(v / 16)) + [HexDigit(v % 16)]
  }

  /** `{:#x}`. */
  function Hex(v: nat): seq<byte> { [0x30, 0x78] + HexDigits(v) }

  function DigitValue(c: byte): nat {
    if 0x30 <= c <= 0x39 then c - 0x30
    else if 0x61 <= c <= 0x66 then c - 0x61 + 10
    else if 0x41 <= c <= 0x46 then c - 0x41 + 10
    else 16
  }

  predicate AllDigits(s: seq<byte>) { forall k {:trigger s[k]} | 0 <= k < |s| :: DigitValue(s[k]) < 16 }

  function DigitsValue(s: seq<byte>): nat {
    if s == [] then 0 else DigitsValue(s[..|s| - 1]) * 16 + DigitValue(s[|s| - 1])
  }

  /** `int(s, 16)` of digits, with or without `0x` in front; nothing for anything else. */
  function ParseHex(s: seq<byte>): Option<nat> {
    var t := if |s| >= 2 && s[0] == 0x30 && (s[1] == 0x78 || s[1] == 0x58) then s[2..] else s;
    if t != [] && AllDigits(t) then Some(DigitsValue(t)) else None
  }

  lemma DigitReads(d: nat)
    requires d < 16
    ensures DigitValue(HexDigit(d)) == d
  {
  }

  lemma DigitAppended(s: seq<byte>, c: byte)
    ensures DigitsValue(s + [c]) == DigitsValue(s) * 16 + DigitValue(c)
    ensures AllDigits(s + [c]) <==> AllDigits(s) && DigitValue(c) < 16
  {
    hide DigitValue;
    var t := s + [c];
    assert t[..|t| - 1] == s && t[|t| - 1] == c;
    assert forall k | 0 <= k < |s| :: t[k] == s[k];
  }

  lemma NoDigits()
    ensures DigitsValue([]) == 0 && AllDigits([])
  {
  }

  lemma {:induction false} HexDigitsRead(v: nat)
    ensures AllDigits(HexDigits(v)) && DigitsValue(HexDigits(v)) == v
    decreases v
  {
    hide DigitsValue, AllDigits, DigitValue, HexDigit;
    var front: seq<byte> := if v < 16 then [] else HexDigits(v / 16);
    DigitReads(v % 16);
    DigitAppended(front, HexDigit(v % 16));
    NoDigits();
    if v >= 16 {
      HexDigitsRead(v / 16);
    }
  }

  lemma HexReads(v: nat)
    ensures ParseHex(Hex(v)) == Some(v)
  {
    HexDigitsRead(v);
    hide HexDigits, DigitsValue, AllDigits;
    assert Hex(v)[2..] == HexDigits(v);
  }

  // --- anchors -----------------------------------------------------------------------------------------

  /** The characters the reader ends a line at. */
  predicate Break(c: byte) { c in {0x0A, 0x0B, 0x0C, 0x0D, 0x1C, 0x1D, 0x1E, 0x85} }

  predicate LineStart(text: seq<byte>, i: nat)
    requires i <= |text|
  {
    i == 0 || Break(text[i - 1])
  }

  /** The end of the line that position `i` is in. */
  function LineEnd(text: seq<byte>, i: nat): (e: nat)
    requires i <= |text|
    ensures i <= e <= |text|
    decreases |text| - i
  {
    if i == |text| || Break(text[i]) then i else LineEnd(text, i + 1)
  }

  /** `anchor`: the number after the first line that starts with `mark`. */
  function Anchor(text: seq<byte>, mark: seq<byte>, i: nat): Option<nat>
    requires i <= |text|
    decreases |text| - i
  {
    if LineStart(text, i) && StartsWith(text[i..], mark) then ParseHex(text[i + |mark|..LineEnd(text, i + |mark|)])
    else if i == |text| then None
    else Anchor(text, mark, i + 1)
  }

  method FindAnchor(text: seq<byte>, mark: seq<byte>) returns (r: Option<nat>)
    ensures r == Anchor(text, mark, 0)
  {
    hide ParseHex, StartsWith, LineEnd, LineStart;
    var i := 0;
    while i <= |text|
      invariant i <= |text| + 1 && (i <= |text| ==> Anchor(text, mark, i) == Anchor(text, mark, 0))
      invariant i == |text| + 1 ==> Anchor(text, mark, 0) == None
    {
      if LineStart(text, i) && StartsWith(text[i..], mark) {
        var e := LineEnd(text, i + |mark|);
        return ParseHex(text[i + |mark|..e]);
      }
      i := i + 1;
    }
    r := None;
  }

  lemma {:induction false} LineEnds(text: seq<byte>, i: nat, e: nat)
    requires i <= e <= |text| && (forall k {:trigger text[k]} | i <= k < e :: !Break(text[k])) && (e < |text| ==> Break(text[e]))
    ensures LineEnd(text, i) == e
    decreases e - i
  {
    hide Break;
    if i < e {
      LineEnds(text, i + 1, e);
    }
  }

  /** No line that starts before `n` starts with the mark. */
  ghost predicate NoneBefore(text: seq<byte>, mark: seq<byte>, n: nat) {
    n <= |text| && forall i: nat {:trigger LineStart(text, i)} | i < n && LineStart(text, i) :: !StartsWith(text[i..], mark)
  }

  lemma {:induction false} AnchorSkips(text: seq<byte>, mark: seq<byte>, i: nat, n: nat)
    requires NoneBefore(text, mark, n) && i <= n
    ensures Anchor(text, mark, i) == Anchor(text, mark, n)
    decreases n - i
  {
    hide ParseHex, StartsWith, LineEnd, LineStart;
    if i < n {
      AnchorSkips(text, mark, i + 1, n);
    }
  }

  lemma HexOnOneLine(v: nat)
    ensures forall k {:trigger Hex(v)[k]} | 0 <= k < |Hex(v)| :: !Break(Hex(v)[k])
  {
    HexDigitsRead(v);
    hide HexDigits, DigitsValue;
    assert forall k | 2 <= k < |Hex(v)| :: Hex(v)[k] == HexDigits(v)[k - 2];
  }

  /** The first line that starts with the mark and a number gives the number back. */
  lemma AnchorReads(text: seq<byte>, mark: seq<byte>, n: nat, v: nat, post: seq<byte>)
    requires NoneBefore(text, mark, n) && LineStart(text, n) && text[n..] == mark + (Hex(v) + post)
    requires post == [] || Break(post[0])
    ensures Anchor(text, mark, 0) == Some(v)
  {
    hide Hex, ParseHex, LineEnd, LineStart, Break;
    AnchorSkips(text, mark, 0, n);
    var a := n + |mark|;
    var e := a + |Hex(v)|;
    ThreeParts(text, n, mark, Hex(v), post);
    HexOnOneLine(v);
    forall k {:trigger text[k]} | a <= k < e
      ensures !Break(text[k])
    {
      assert text[a..e][k - a] == Hex(v)[k - a];
    }
    assert e < |text| ==> text[e] == text[e..][0];
    LineEnds(text, a, e);
    HexReads(v);
  }

  lemma ThreeParts(text: seq<byte>, n: nat, a: seq<byte>, b: seq<byte>, c: seq<byte>)
    requires n <= |text| && text[n..] == a + (b + c)
    ensures |text| == n + |a| + |b| + |c| && StartsWith(text[n..], a)
    ensures text[n + |a|..n + |a| + |b|] == b && text[n + |a| + |b|..] == c
  {
    Parts(text, n, a, b, c, []);
    assert a + (b + (c + [])) == a + (b + c);
    assert text[n..][..|a|] == a;
  }

  /** Lines of text, each ended by a newline. */
  function Lines(ls: seq<seq<byte>>): seq<byte> {
    if ls == [] then [] else Lines(ls[..|ls| - 1]) + (ls[|ls| - 1] + [0x0A])
  }

  predicate OneLine(s: seq<byte>) { forall k {:trigger s[k]} | 0 <= k < |s| :: !Break(s[k]) }

  /** Lines that do not start with the mark hide no anchor. */
  lemma {:induction false} LinesSkipped(ls: seq<seq<byte>>, mark: seq<byte>, rest: seq<byte>)
    requires OneLine(mark) && forall l | l in ls :: OneLine(l) && !StartsWith(l, mark)
    ensures NoneBefore(Lines(ls) + rest, mark, |Lines(ls)|) && LineStart(Lines(ls) + rest, |Lines(ls)|)
    decreases |ls|
  {
    if ls != [] {
      var n := |ls| - 1;
      var front, l := Lines(ls[..n]), ls[n];
      var text := Lines(ls) + rest;
      assert l in ls;
      LinesSkipped(ls[..n], mark, l + [0x0A] + rest);
      assert text == front + (l + [0x0A] + rest);
      OneMoreLine(text, front, l, mark, rest);
      assert |Lines(ls)| == |front| + |l| + 1;
    }
  }

  lemma OneMoreLine(text: seq<byte>, front: seq<byte>, l: seq<byte>, mark: seq<byte>, rest: seq<byte>)
    requires text == front + (l + [0x0A] + rest) && NoneBefore(text, mark, |front|)
    requires OneLine(mark) && OneLine(l) && !StartsWith(l, mark)
    ensures NoneBefore(text, mark, |front| + |l| + 1) && LineStart(text, |front| + |l| + 1)
  {
    var a := |front|;
    assert text[a..] == l + [0x0A] + rest && text[a + |l|] == 0x0A;
    assert forall k {:trigger text[k]} | a <= k < a + |l| :: text[k] == l[k - a];
    LineStays(text[a..], l, mark);
    forall i: nat {:trigger LineStart(text, i)} | i < a + |l| + 1
      ensures LineStart(text, i) ==> !StartsWith(text[i..], mark)
    {
      if a < i {
        assert text[i - 1] == l[i - 1 - a];
      }
    }
  }

  lemma LineStays(tail: seq<byte>, l: seq<byte>, mark: seq<byte>)
    requires |l| < |tail| && tail[..|l|] == l && tail[|l|] == 0x0A && OneLine(mark)
    ensures StartsWith(tail, mark) ==> StartsWith(l, mark)
  {
    if |mark| <= |l| {
      assert l[..|mark|] == tail[..|mark|];
    } else if |mark| <= |tail| {
      assert tail[..|mark|][|l|] == 0x0A;
    }
  }

  /** The kernel's text: some lines, the anchor, more text. */
  lemma TextAnchors(ls: seq<seq<byte>>, mark: seq<byte>, v: nat, more: seq<byte>)
    requires OneLine(mark) && forall l | l in ls :: OneLine(l) && !StartsWith(l, mark)
    ensures Anchor(Lines(ls) + (mark + (Hex(v) + ([0x0A] + more))), mark, 0) == Some(v)
  {
    hide Lines, OneLine, StartsWith, Hex, Anchor, NoneBefore, LineStart;
    var rest := mark + (Hex(v) + ([0x0A] + more));
    LinesSkipped(ls, mark, rest);
    assert (Lines(ls) + rest)[|Lines(ls)|..] == rest;
    AnchorReads(Lines(ls) + rest, mark, |Lines(ls)|, v, [0x0A] + more);
  }

  /** Notes written into a core, and an anchor looked up in the file: the one the notes under the key have, unless
      the header count wraps to 0. */
  method WriteAndFind(walked: seq<Run>, ns: seq<Note>, phys: seq<byte>, mark: seq<byte>) returns (file: seq<byte>, r: Option<nat>)
    requires |phys| >= CAP && (forall n | n in ns :: NoteFits(n)) && Encodable(Kept(walked), |AllBytes(ns)|)
    ensures r == if (1 + |Kept(walked)|) % TWO16 == 0 then Anchor([], mark, 0) else Anchor(Wanted(ns), mark, 0)
  {
    hide Encodable, CoreBytes, Kept, AllBytes, NoteFits, Wanted, Anchor, Get, Info;
    var notes := PutNotes(ns);
    file := WriteCore(walked, notes, phys);
    NotesFound(Kept(walked), notes, phys[..CAP]);
    var loads, found := ParseCore(file);
    var text := VmcoreInfo(file, found);
    NoInfo(file);
    if (1 + |Kept(walked)|) % TWO16 != 0 {
      assert found == [found[0]];
      NotesReadBack(file, found[0], ns);
    }
    r := FindAnchor(text, mark);
  }

  lemma NoInfo(d: seq<byte>)
    ensures Info(d, []) == []
  {
  }
}
