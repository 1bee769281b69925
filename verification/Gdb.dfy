/** The debugger stub (emu/src/gdb.rs): cutting a byte stream into packets, framing replies, and the
    register packets. What a packet does to the machine is a parameter. */
module Gdb {
  import opened Bytes
  import opened Wrappers

  const DOLLAR: byte := 0x24
  const HASH: byte := 0x23
  const PLUS: byte := 0x2B
  const CTRL_C: byte := 0x03

  /** Everything but the input buffer: queued replies, whether the target runs, the acknowledgement mode
      and the machine. */
  datatype Effects<M> = Effects(out: seq<byte>, running: bool, noAck: bool, machine: M)

  /** What a packet body does. */
  type Dispatch<!M> = (Effects<M>, seq<byte>) -> Effects<M>

  // --- framing -----------------------------------------------------------------------

  function Sum(body: seq<byte>): byte {
    if body == [] then 0 else (Sum(body[..|body| - 1]) + body[|body| - 1]) % 256
  }

  function Digit(n: nat): (b: byte)
    requires n < 16
    ensures b != HASH && b != DOLLAR && b != CTRL_C
  {
    if n < 10 then 0x30 + n else 0x61 + n - 10
  }

  function HexByte(b: byte): (s: seq<byte>)
    ensures |s| == 2
  {
    [Digit(b / 16), Digit(b % 16)]
  }

  /** A body as it is sent. */
  function Frame(body: seq<byte>): seq<byte> { [DOLLAR] + (body + ([HASH] + HexByte(Sum(body)))) }

  /** A reply appended to the output. */
  function Sent<M>(e: Effects<M>, body: seq<byte>): Effects<M> { e.(out := e.out + Frame(body)) }

  /** "T02thread:01;", the reply to an interrupt. */
  const STOPPED: seq<byte> := [0x54, 0x30, 0x32, 0x74, 0x68, 0x72, 0x65, 0x61, 0x64, 0x3A, 0x30, 0x31, 0x3B]

  function Interrupted<M>(e: Effects<M>): Effects<M> { Sent(e.(running := false), STOPPED) }

  function Handled<M>(d: Dispatch<M>, e: Effects<M>, body: seq<byte>): Effects<M> {
    d(if e.noAck then e else e.(out := e.out + [PLUS]), body)
  }

  // --- cutting packets out of the input ------------------------------------------------

  /** The first position of a byte, or the length. */
  function Find(s: seq<byte>, b: byte): (k: nat)
    ensures k <= |s|
  {
    if s == [] then 0 else if s[0] == b then 0 else 1 + Find(s[1..], b)
  }

  lemma {:induction false} FindIs(s: seq<byte>, b: byte)
    ensures Find(s, b) < |s| ==> s[Find(s, b)] == b
    ensures forall i | 0 <= i < Find(s, b) :: s[i] != b
  {
    if s != [] && s[0] != b {
      FindIs(s[1..], b);
      forall i | 0 <= i < Find(s, b)
        ensures s[i] != b
      {
        if i > 0 {
          assert s[i] == s[1..][i - 1];
        }
      }
    }
  }

  lemma {:induction false} FindAt(s: seq<byte>, b: byte, k: nat)
    requires k < |s| && s[k] == b && forall i | 0 <= i < k :: s[i] != b
    ensures Find(s, b) == k
  {
    if k > 0 {
      FindAt(s[1..], b, k - 1);
    }
  }

  /** A packet that starts the input is all there. */
  predicate Ready(s: seq<byte>) { s != [] && s[0] == DOLLAR && Find(s, HASH) + 3 <= |s| }

  function Body(s: seq<byte>): seq<byte>
    requires Ready(s)
  {
    NotFirst(s);
    s[1..Find(s, HASH)]
  }

  lemma NotFirst(s: seq<byte>)
    requires s != [] && s[0] == DOLLAR
    ensures Find(s, HASH) > 0
  {
  }

  /** All that can be done with the input; what is left of it, and the effects. */
  function Drain<M>(d: Dispatch<M>, s: seq<byte>, e: Effects<M>): (seq<byte>, Effects<M>)
    decreases |s|
  {
    if s == [] then (s, e)
    else if s[0] == DOLLAR then
      if Ready(s) then Drain(d, s[Find(s, HASH) + 3..], Handled(d, e, Body(s))) else (s, e)
    else Drain(d, s[1..], if s[0] == CTRL_C then Interrupted(e) else e)
  }

  lemma ReadyMore(a: seq<byte>, b: seq<byte>)
    requires Ready(a)
    ensures Ready(a + b) && Body(a + b) == Body(a) && Find(a + b, HASH) == Find(a, HASH)
  {
    var k := Find(a, HASH);
    FindIs(a, HASH);
    FindAt(a + b, HASH, k);
    assert (a + b)[1..k] == a[1..k];
  }

  /** Input that comes in two pieces is drained as if it came in one. */
  lemma {:induction false} DrainTwice<M>(d: Dispatch<M>, a: seq<byte>, b: seq<byte>, e: Effects<M>)
    ensures
      var (left, f) := Drain(d, a, e);
      Drain(d, a + b, e) == Drain(d, left + b, f)
    decreases |a|
  {
    var s := a + b;
    if a == [] {
    } else if a[0] != DOLLAR {
      assert s[1..] == a[1..] + b;
      DrainTwice(d, a[1..], b, if a[0] == CTRL_C then Interrupted(e) else e);
    } else if Ready(a) {
      ReadyMore(a, b);
      var k := Find(a, HASH) + 3;
      assert s[k..] == a[k..] + b;
      hide Handled, Body;
      DrainTwice(d, a[k..], b, Handled(d, e, Body(a)));
    }
  }

  function Concat(chunks: seq<seq<byte>>): seq<byte> {
    if chunks == [] then [] else chunks[0] + Concat(chunks[1..])
  }

  /** The stub fed one chunk after another. */
  function Feed<M>(d: Dispatch<M>, left: seq<byte>, e: Effects<M>, chunks: seq<seq<byte>>): (seq<byte>, Effects<M>)
    decreases |chunks|
  {
    if chunks == [] then (left, e)
    else
      var (left', e') := Drain(d, left + chunks[0], e);
      Feed(d, left', e', chunks[1..])
  }

  /** However a stream is split, the stub queues the same replies, does the same to the machine and is
      left with the same input as if fed the whole at once. */
  lemma {:induction false} SplitInvariance<M>(d: Dispatch<M>, left: seq<byte>, e: Effects<M>, chunks: seq<seq<byte>>)
    requires Drain(d, left, e) == (left, e)
    ensures Feed(d, left, e, chunks) == Drain(d, left + Concat(chunks), e)
    decreases |chunks|
  {
    if chunks == [] {
      assert left + [] == left;
    } else {
      var a, b := left + chunks[0], Concat(chunks[1..]);
      var (left', e') := Drain(d, a, e);
      DrainTwice(d, a, b, e);
      assert left + Concat(chunks) == a + b;
      DrainStops(d, a, e);
      SplitInvariance(d, left', e', chunks[1..]);
    }
  }

  /** What is left over stays until more comes. */
  lemma {:induction false} DrainStops<M>(d: Dispatch<M>, s: seq<byte>, e: Effects<M>)
    ensures
      var (left, f) := Drain(d, s, e);
      Drain(d, left, f) == (left, f) && (left == [] || (left[0] == DOLLAR && !Ready(left)))
    decreases |s|
  {
    hide Handled, Body;
    if s != [] {
      if s[0] != DOLLAR {
        DrainStops(d, s[1..], if s[0] == CTRL_C then Interrupted(e) else e);
      } else if Ready(s) {
        DrainStops(d, s[Find(s, HASH) + 3..], Handled(d, e, Body(s)));
      }
    }
  }

  // --- packets on the wire --------------------------------------------------------------

  /** Bytes that are no packet and no interrupt: acknowledgements and strays. */
  ghost predicate Noise(s: seq<byte>) { forall i | 0 <= i < |s| :: s[i] != DOLLAR && s[i] != CTRL_C }

  lemma {:induction false} SkipsNoise<M>(d: Dispatch<M>, noise: seq<byte>, s: seq<byte>, e: Effects<M>)
    requires Noise(noise)
    ensures Drain(d, noise + s, e) == Drain(d, s, e)
    decreases |noise|
  {
    if noise == [] {
      assert noise + s == s;
    } else {
      assert (noise + s)[1..] == noise[1..] + s;
      SkipsNoise(d, noise[1..], s, e);
    }
  }

  /** The first packet cut from a sent body is the body up to its first `#`; so it is the whole body
      exactly when the body has none. */
  lemma FrameReads(body: seq<byte>, rest: seq<byte>)
    ensures
      var s, k := Frame(body) + rest, Find(body, HASH);
      && Ready(s) && Body(s) == body[..k]
      && (Body(s) == body <==> HASH !in body)
      && (HASH !in body ==> s[Find(s, HASH) + 3..] == rest)
  {
    var s, k, h := Frame(body) + rest, Find(body, HASH), HexByte(Sum(body));
    hide HexByte, Sum;
    FindIs(body, HASH);
    assert s == [DOLLAR] + body + [HASH] + h + rest;
    forall i | 0 <= i < k + 1
      ensures s[i] != HASH
    {
      if i > 0 {
        assert s[i] == body[i - 1];
      }
    }
    FindAt(s, HASH, k + 1);
    assert s[1..k + 1] == body[..k];
    if HASH !in body {
      assert k == |body|;
    } else {
      var i :| 0 <= i < |body| && body[i] == HASH;
      assert k <= i;
    }
  }

  datatype Item = Item(noise: seq<byte>, body: seq<byte>)

  function Wire(items: seq<Item>): seq<byte> {
    if items == [] then [] else items[0].noise + (Frame(items[0].body) + Wire(items[1..]))
  }

  function HandleAll<M>(d: Dispatch<M>, e: Effects<M>, items: seq<Item>): Effects<M>
    decreases |items|
  {
    if items == [] then e else HandleAll(d, Handled(d, e, items[0].body), items[1..])
  }

  /** Any list of bodies without `#`, sent one after another with acknowledgements or strays between, is
      dispatched body by body in order, and nothing is left. */
  lemma {:induction false} FramingRecovers<M>(d: Dispatch<M>, e: Effects<M>, items: seq<Item>)
    requires forall i {:trigger items[i]} | 0 <= i < |items| :: Noise(items[i].noise) && HASH !in items[i].body
    ensures Drain(d, Wire(items), e) == ([], HandleAll(d, e, items))
    decreases |items|
  {
    if items != [] {
      var rest := Wire(items[1..]);
      SkipsNoise(d, items[0].noise, Frame(items[0].body) + rest, e);
      FrameReads(items[0].body, rest);
      hide Handled, Frame;
      FramingRecovers(d, Handled(d, e, items[0].body), items[1..]);
    }
  }

  // --- the wire in numbers (GDB Remote Serial Protocol, "Overview") -----------------------------------

  /** All bytes added up. */
  function Total(body: seq<byte>): nat { if body == [] then 0 else Total(body[..|body| - 1]) + body[|body| - 1] }

  lemma {:induction false} SumIs(body: seq<byte>)
    ensures Sum(body) == Total(body) % 256
  {
    if body != [] {
      var n := |body| - 1;
      SumIs(body[..n]);
      var t, b := Total(body[..n]), body[n];
      var q, r := (t % 256 + b) / 256, (t % 256 + b) % 256;
      Euclid(t + b, 256, t / 256 + q, r);
    }
  }

  /** A lower-case hexadecimal digit. */
  function LowerHex(n: nat): nat { if n < 10 then 0x30 + n else 0x57 + n }

  /** A frame: a dollar sign, the body, a hash sign, and the sum of the body modulo 256 in two lower-case digits. */
  lemma FrameInNumbers(body: seq<byte>)
    ensures
      var f, n, t := Frame(body), |body|, Total(body);
      && |f| == n + 4 && f[0] == 0x24 && f[1..n + 1] == body && f[n + 1] == 0x23
      && f[n + 2] == LowerHex(t / 16 % 16) && f[n + 3] == LowerHex(t % 16)
  {
    SumIs(body);
    LowByte(Total(body));
    hide Sum, Total;
  }

  lemma LowByte(t: nat)
    ensures t % 256 / 16 == t / 16 % 16 && t % 256 % 16 == t % 16
  {
    var q, r := t / 256, t % 256;
    Euclid(t, 16, 16 * q + r / 16, r % 16);
    Euclid(16 * q + r / 16, 16, q, r / 16);
  }

  /** One packet: acknowledged with a plus sign unless that is off, then handed on; nothing is left. */
  lemma OnePacket<M>(d: Dispatch<M>, e: Effects<M>, body: seq<byte>)
    requires 0x23 !in body
    ensures Drain(d, Frame(body), e) == ([], d(e.(out := e.out + if e.noAck then [] else [0x2B]), body))
  {
    var items := [Item([], body)];
    FramingRecovers(d, e, items);
    assert items[1..] == [] && Wire([]) == [];
    assert Wire(items) == [] + (Frame(body) + []) == Frame(body);
    assert HandleAll(d, e, items) == HandleAll(d, Handled(d, e, body), []);
    assert e.out + [] == e.out;
    hide Drain, Frame;
  }

  /** A control-C stops the target and is answered with `T02thread:01;`, whose bytes add up to 4 modulo 256. */
  lemma InterruptReply<M>(d: Dispatch<M>, e: Effects<M>)
    ensures Drain(d, [0x03], e) == ([], e.(running := false,
      out := e.out + [0x24, 0x54, 0x30, 0x32, 0x74, 0x68, 0x72, 0x65, 0x61, 0x64, 0x3A, 0x30, 0x31, 0x3B, 0x23, 0x30, 0x34]))
  {
    StoppedSum();
    var s: seq<byte> := [0x03];
    assert s[1..] == [];
    hide Sum;
    assert Frame(STOPPED)
        == [0x24, 0x54, 0x30, 0x32, 0x74, 0x68, 0x72, 0x65, 0x61, 0x64, 0x3A, 0x30, 0x31, 0x3B, 0x23, 0x30, 0x34];
  }

  lemma StoppedSum()
    ensures Sum(STOPPED) == 4
  {
    hide Total, Sum;
    SumIs(STOPPED);
    FourBytes(0x54, 0x30, 0x32, 0x74);
    FourBytes(0x68, 0x72, 0x65, 0x61);
    FourBytes(0x64, 0x3A, 0x30, 0x31);
    OneByte(0x3B);
    var a, b, c: seq<byte> := [0x54, 0x30, 0x32, 0x74], [0x68, 0x72, 0x65, 0x61], [0x64, 0x3A, 0x30, 0x31];
    TotalSum(a, b);
    TotalSum(a + b, c);
    TotalSum(a + b + c, [0x3B]);
    assert STOPPED == a + b + c + [0x3B];
  }

  lemma {:induction false} TotalSum(a: seq<byte>, b: seq<byte>)
    ensures Total(a + b) == Total(a) + Total(b)
    decreases |b|
  {
    if b == [] {
      assert a + b == a;
    } else {
      TotalSum(a, b[..|b| - 1]);
      assert (a + b)[..|a + b| - 1] == a + b[..|b| - 1];
    }
  }

  lemma OneByte(a: byte)
    ensures Total([a]) == a
  {
    assert [a][..0] == [];
  }

  lemma FourBytes(a: byte, b: byte, c: byte, d: byte)
    ensures Total([a, b, c, d]) == a + b + c + d
  {
    hide Total;
    OneByte(a);
    OneByte(b);
    OneByte(c);
    OneByte(d);
    TotalSum([a], [b]);
    TotalSum([a, b], [c]);
    TotalSum([a, b, c], [d]);
    assert [a] + [b] == [a, b] && [a, b] + [c] == [a, b, c] && [a, b, c] + [d] == [a, b, c, d];
  }

  // --- the stub ----------------------------------------------------------------------------

  class Stub<M> {
    var inbuf: seq<byte>
    var out: seq<byte>
    var running: bool
    var noAck: bool
    var machine: M
    const dispatch: Dispatch<M>

    constructor (dispatch: Dispatch<M>, machine: M)
      ensures this.dispatch == dispatch && inbuf == [] && State() == Effects([], false, false, machine)
    {
      inbuf, out, running, noAck := [], [], false, false;
      this.machine, this.dispatch := machine, dispatch;
    }

    function State(): Effects<M>
      reads this
    {
      Effects(out, running, noAck, machine)
    }

    /** `send`: the body between `$` and `#`, then its checksum. */
    method Send(body: seq<byte>)
      modifies this`out
      ensures out == old(out) + Frame(body)
    {
      hide HexByte;
      out := out + [DOLLAR];
      ghost var start := out;
      var sum: byte := 0;
      for k := 0 to |body|
        invariant out == start + body[..k] && sum == Sum(body[..k])
      {
        assert body[..k + 1][..k] == body[..k];
        out := out + [body[k]];
        sum := (sum + body[k]) % 256;
      }
      assert body[..|body|] == body;
      out := out + [HASH];
      out := out + HexByte(sum);
    }

    /** The loop that drops acknowledgements and strays and serves interrupts until a packet starts. */
    method Skip()
      modifies this`inbuf, this`out, this`running
      ensures Drain(dispatch, inbuf, State()) == Drain(dispatch, old(inbuf), old(State()))
      ensures (inbuf == [] || inbuf[0] == DOLLAR) && |inbuf| <= |old(inbuf)|
    {
      hide Frame, Ready;
      while inbuf != [] && inbuf[0] != DOLLAR
        invariant Drain(dispatch, inbuf, State()) == Drain(dispatch, old(inbuf), old(State()))
        invariant |inbuf| <= |old(inbuf)|
        decreases |inbuf|
      {
        if inbuf[0] == CTRL_C {
          inbuf := inbuf[1..];
          running := false;
          Send(STOPPED);
        } else {
          inbuf := inbuf[1..];
        }
      }
    }

    method Apply(body: seq<byte>)
      modifies this`out, this`running, this`noAck, this`machine
      ensures State() == Handled(dispatch, old(State()), body)
    {
      if !noAck {
        out := out + [PLUS];
      }
      var e := dispatch(State(), body);
      out, running, noAck, machine := e.out, e.running, e.noAck, e.machine;
    }

    method DrainPackets()
      modifies this
      ensures (inbuf, State()) == Drain(dispatch, old(inbuf), old(State()))
    {
      hide Handled, Body;
      while true
        invariant Drain(dispatch, inbuf, State()) == Drain(dispatch, old(inbuf), old(State()))
        decreases |inbuf|
      {
        Skip();
        if inbuf == [] {
          return;
        }
        var hash := Find(inbuf, HASH);
        if hash == |inbuf| || |inbuf| < hash + 3 {
          return;
        }
        NotFirst(inbuf);
        BodyIs(inbuf);
        var body := inbuf[1..hash];
        inbuf := inbuf[hash + 3..];
        Apply(body);
      }
    }

    /** `on_input`. */
    method OnInput(bytes: seq<byte>)
      modifies this
      ensures (inbuf, State()) == Drain(dispatch, old(inbuf) + bytes, old(State()))
    {
      inbuf := inbuf + bytes;
      DrainPackets();
    }
  }

  lemma BodyIs(s: seq<byte>)
    requires Ready(s)
    ensures Find(s, HASH) > 0 && Body(s) == s[1..Find(s, HASH)]
  {
    NotFirst(s);
  }

  // --- hexadecimal ------------------------------------------------------------------------

  function HexVal(b: byte): (r: Option<nat>)
    ensures r.Some? ==> r.value < 16
  {
    if 0x30 <= b <= 0x39 then Some(b - 0x30)
    else if 0x61 <= b <= 0x66 then Some(b - 0x61 + 10)
    else if 0x41 <= b <= 0x46 then Some(b - 0x41 + 10)
    else None
  }

  function Hex(s: seq<byte>): (h: seq<byte>)
    ensures |h| == 2 * |s|
  {
    if s == [] then [] else HexByte(s[0]) + Hex(s[1..])
  }

  /** `decode_hex`: pairs of digits up to the first that is not one. */
  method DecodeHex(h: seq<byte>) returns (s: seq<byte>)
    ensures s == Decoded(h)
  {
    s := [];
    var i := 0;
    while i + 1 < |h|
      invariant i <= |h| && s + Decoded(h[i..]) == Decoded(h)
    {
      var hi, lo := HexVal(h[i]), HexVal(h[i + 1]);
      assert h[i..][0] == h[i] && h[i..][1] == h[i + 1] && h[i..][2..] == h[i + 2..];
      if hi.None? || lo.None? {
        return;
      }
      s := s + [hi.value * 16 + lo.value];
      i := i + 2;
    }
  }

  function Decoded(h: seq<byte>): seq<byte> {
    if |h| < 2 || HexVal(h[0]).None? || HexVal(h[1]).None? then []
    else [HexVal(h[0]).value * 16 + HexVal(h[1]).value] + Decoded(h[2..])
  }

  lemma {:induction false} DecodesHex(s: seq<byte>)
    ensures Decoded(Hex(s)) == s
  {
    if s != [] {
      var h := Hex(s);
      assert h[0] == Digit(s[0] / 16) && h[1] == Digit(s[0] % 16) && h[2..] == Hex(s[1..]);
      DecodesHex(s[1..]);
    }
  }

  // --- the register packets ------------------------------------------------------------------

  /** Where the debugger's register `i` is kept: it lists them rax, rbx, rcx, rdx, rsi, rdi, rbp, rsp, and
      the machine in encoding order rax, rcx, rdx, rbx, rsp, rbp, rsi, rdi. */
  function Kept(i: nat): (k: nat)
    requires i < 16
    ensures k < 16
  {
    match i
    case 1 => 3
    case 2 => 1
    case 3 => 2
    case 4 => 6
    case 5 => 7
    case 6 => 5
    case 7 => 4
    case _ => i
  }

  /** The debugger's number for register `k`. */
  function Shown(k: nat): (i: nat)
    requires k < 16
    ensures i < 16 && Kept(i) == k
  {
    match k
    case 3 => 1
    case 1 => 2
    case 2 => 3
    case 6 => 4
    case 7 => 5
    case 5 => 6
    case 4 => 7
    case _ => k
  }

  datatype Registers = Registers(regs: seq<u64>, rip: u64, rflags: u64, cpl: nat)

  function Words(vs: seq<u64>): (s: seq<byte>)
    ensures |s| == |vs| * 8
  {
    if vs == [] then [] else Le(vs[0], 8) + Words(vs[1..])
  }

  lemma FirstWord(v: u64, rest: seq<byte>)
    ensures Get(Le(v, 8) + rest, 0, 8) == v
  {
    Pow256Constants();
    ValueOfLe(v, 8);
    hide Le, Value, Pow256;
    assert (Le(v, 8) + rest)[0..8] == Le(v, 8);
  }

  lemma LaterWord(a: seq<byte>, b: seq<byte>, k: nat)
    requires |a| == 8 && k + 8 <= |b|
    ensures Get(a + b, k + 8, 8) == Get(b, k, 8)
  {
    hide Value;
    assert (a + b)[k + 8..k + 16] == b[k..k + 8];
  }

  lemma WordsStep(vs: seq<u64>, rest: seq<byte>)
    requires vs != []
    ensures Words(vs) + rest == Le(vs[0], 8) + (Words(vs[1..]) + rest)
  {
    hide Le;
  }

  lemma {:induction false} WordAt(vs: seq<u64>, rest: seq<byte>, k: nat)
    requires k < |vs|
    ensures Get(Words(vs) + rest, k * 8, 8) == vs[k]
    decreases |vs|
  {
    hide Le, Words, Get;
    WordsStep(vs, rest);
    if k == 0 {
      FirstWord(vs[0], Words(vs[1..]) + rest);
    } else {
      WordAt(vs[1..], rest, k - 1);
      LaterWord(Le(vs[0], 8), Words(vs[1..]) + rest, (k - 1) * 8);
    }
  }

  /** The six selectors' bytes shown for a privilege level. */
  function Segments(cpl: nat): seq<byte> {
    Le(if cpl == 0 then 0x10 else 0x33, 4) + Le(if cpl == 0 then 0x18 else 0x2B, 4) + seq(16, _ => 0)
  }

  /** The body of a `g` reply, before hexadecimal: sixteen registers, RIP, the low half of RFLAGS, selectors. */
  function Payload(r: Registers): seq<byte>
    requires |r.regs| == 16
  {
    Words(seq(16, i requires 0 <= i < 16 => r.regs[Kept(i)]) + [r.rip]) + (Le(r.rflags % TWO32, 4) + Segments(r.cpl))
  }

  /** The reply to `g`. */
  method ReadRegs(r: Registers) returns (body: seq<byte>)
    requires |r.regs| == 16
    ensures body == Hex(Payload(r))
  {
    var vs: seq<u64> := [];
    for i := 0 to 16
      invariant vs == seq(i, k requires 0 <= k < i => r.regs[Kept(k)])
    {
      vs := vs + [r.regs[Kept(i)]];
    }
    body := Hex(Words(vs + [r.rip]) + (Le(r.rflags % TWO32, 4) + Segments(r.cpl)));
  }

  /** The effect of `G`: too few bytes change nothing and are refused. */
  method WriteRegs(r: Registers, hex: seq<byte>) returns (ok: bool, r': Registers)
    requires |r.regs| == 16
    ensures |r'.regs| == 16 && ok == (|Decoded(hex)| >= 140) && (!ok ==> r' == r)
    ensures ok ==>
      && (forall k | 0 <= k < 16 :: r'.regs[k] == Get64(Decoded(hex), Shown(k) * 8))
      && r'.rip == Get64(Decoded(hex), 128) && r'.rflags == Get(Decoded(hex), 136, 4) && r'.cpl == r.cpl
  {
    hide Decoded, Get64, Get;
    var bytes := DecodeHex(hex);
    if |bytes| < 140 {
      return false, r;
    }
    var regs := r.regs;
    for i := 0 to 16
      invariant |regs| == 16 && forall k | 0 <= k < 16 && Shown(k) < i :: regs[k] == Get64(bytes, Shown(k) * 8)
    {
      regs := regs[Kept(i) := Get64(bytes, i * 8)];
    }
    Get32Fits(bytes, 136);
    r' := Registers(regs, Get64(bytes, 128), Get(bytes, 136, 4), r.cpl);
    ok := true;
  }

  lemma Get32Fits(s: seq<byte>, a: nat)
    requires a + 4 <= |s|
    ensures Get(s, a, 4) < TWO64
  {
    LeOfValue(s[a..a + 4]);
    Pow256Constants();
    hide Value, Le, Pow256;
  }

  /** Writing back the registers a read returned restores every one of them; RFLAGS exactly when it fits
      the 32 bits the packet has for it. */
  method ReadThenWrite(r: Registers, other: Registers) returns (r': Registers)
    requires |r.regs| == 16 && |other.regs| == 16
    ensures r' == r.(rflags := r.rflags % TWO32, cpl := other.cpl)
    ensures r'.rflags == r.rflags <==> r.rflags < TWO32
  {
    hide Payload, Hex, Decoded, Get64, Get;
    var body := ReadRegs(r);
    DecodesHex(Payload(r));
    var ok;
    PayloadHolds(r);
    ok, r' := WriteRegs(other, body);
    SameRegisters(r, r');
  }

  lemma SameRegisters(r: Registers, r': Registers)
    requires |r.regs| == 16 && |r'.regs| == 16 && |Payload(r)| == 164
    requires forall k | 0 <= k < 16 :: r'.regs[k] == Get64(Payload(r), Shown(k) * 8)
    ensures r'.regs == r.regs
  {
    PayloadHolds(r);
    hide Payload, Get64;
    forall k | 0 <= k < 16
      ensures r'.regs[k] == r.regs[k]
    {
      assert Kept(Shown(k)) == k;
    }
  }

  lemma PayloadHolds(r: Registers)
    requires |r.regs| == 16
    ensures |Payload(r)| == 164
    ensures forall i | 0 <= i < 16 :: Get64(Payload(r), i * 8) == r.regs[Kept(i)]
    ensures Get64(Payload(r), 128) == r.rip && Get(Payload(r), 136, 4) == r.rflags % TWO32
  {
    var vs := seq(16, i requires 0 <= i < 16 => r.regs[Kept(i)]) + [r.rip];
    var rest := Le(r.rflags % TWO32, 4) + Segments(r.cpl);
    var p := Payload(r);
    assert p == Words(vs) + rest;
    FlagsAt(Words(vs), r.rflags % TWO32, Segments(r.cpl));
    hide Payload, Segments, Le, Words;
    forall i | 0 <= i < 17
      ensures Get64(p, i * 8) == vs[i]
    {
      WordAt(vs, rest, i);
    }
    assert vs[16] == r.rip && Get64(p, 16 * 8) == vs[16];
    forall i | 0 <= i < 16
      ensures Get64(p, i * 8) == r.regs[Kept(i)]
    {
      assert vs[i] == r.regs[Kept(i)];
    }
  }

  lemma FlagsAt(head: seq<byte>, v: nat, tail: seq<byte>)
    requires |head| == 136 && v < TWO32
    ensures Get(head + (Le(v, 4) + tail), 136, 4) == v
  {
    var s := head + (Le(v, 4) + tail);
    Pow256Constants();
    ValueOfLe(v, 4);
    hide Le, Value, Pow256;
    assert s[136..140] == Le(v, 4);
  }

  /** The reply to `g`, register by register in the debugger's order: rax, rbx, rcx, rdx, rsi, rdi, rbp, rsp, r8 to
      r15, rip, eflags, cs, ss and four zero selectors. */
  lemma RegisterPlaces(r: Registers)
    requires |r.regs| == 16
    ensures |Payload(r)| == 164
    ensures
      var p, g := Payload(r), r.regs;
      && Get64(p, 0) == g[0] && Get64(p, 8) == g[3] && Get64(p, 16) == g[1] && Get64(p, 24) == g[2]
      && Get64(p, 32) == g[6] && Get64(p, 40) == g[7] && Get64(p, 48) == g[5] && Get64(p, 56) == g[4]
    ensures forall i {:trigger r.regs[i]} | 8 <= i < 16 :: Get64(Payload(r), i * 8) == r.regs[i]
    ensures Get64(Payload(r), 128) == r.rip && Get(Payload(r), 136, 4) == r.rflags % 0x1_0000_0000
    ensures Payload(r)[140..144] == [if r.cpl == 0 then 0x10 else 0x33, 0, 0, 0]
    ensures Payload(r)[144..148] == [if r.cpl == 0 then 0x18 else 0x2B, 0, 0, 0]
    ensures forall k {:trigger Payload(r)[k]} | 148 <= k < 164 :: Payload(r)[k] == 0
  {
    PayloadHolds(r);
    SelectorBytes(r);
    hide Payload, Get64, Get;
    var p := Payload(r);
    assert Get64(p, 0 * 8) == r.regs[Kept(0)] && Get64(p, 1 * 8) == r.regs[Kept(1)] && Get64(p, 2 * 8) == r.regs[Kept(2)];
    assert Get64(p, 3 * 8) == r.regs[Kept(3)] && Get64(p, 4 * 8) == r.regs[Kept(4)] && Get64(p, 5 * 8) == r.regs[Kept(5)];
    assert Get64(p, 6 * 8) == r.regs[Kept(6)] && Get64(p, 7 * 8) == r.regs[Kept(7)];
  }

  lemma SelectorBytes(r: Registers)
    requires |r.regs| == 16
    ensures |Payload(r)| == 164
    ensures Payload(r)[140..144] == [if r.cpl == 0 then 0x10 else 0x33, 0, 0, 0]
    ensures Payload(r)[144..148] == [if r.cpl == 0 then 0x18 else 0x2B, 0, 0, 0]
    ensures forall k {:trigger Payload(r)[k]} | 148 <= k < 164 :: Payload(r)[k] == 0
  {
    var vs := seq(16, i requires 0 <= i < 16 => r.regs[Kept(i)]) + [r.rip];
    var cs, ss := if r.cpl == 0 then 0x10 else 0x33, if r.cpl == 0 then 0x18 else 0x2B;
    SmallLe(cs);
    SmallLe(ss);
    hide Words, Le;
    var a, b, c, d, e := Words(vs), Le(r.rflags % TWO32, 4), Le(cs, 4), Le(ss, 4), seq(16, _ => 0);
    assert Payload(r) == a + (b + (c + d + e));
    hide Payload;
    LastFields(a, b, c, d, e);
  }

  lemma LastFields(a: seq<byte>, b: seq<byte>, c: seq<byte>, d: seq<byte>, e: seq<byte>)
    requires |a| == 136 && |b| == 4 && |c| == 4 && |d| == 4 && |e| == 16 && forall k | 0 <= k < 16 :: e[k] == 0
    ensures
      var p := a + (b + (c + d + e));
      && |p| == 164 && p[140..144] == c && p[144..148] == d && forall k {:trigger p[k]} | 148 <= k < 164 :: p[k] == 0
  {
    var p := a + (b + (c + d + e));
    assert forall k | 140 <= k < 144 :: p[k] == c[k - 140];
    assert forall k | 144 <= k < 148 :: p[k] == d[k - 144];
    assert forall k | 148 <= k < 164 :: p[k] == e[k - 148];
  }

  lemma SmallLe(v: byte)
    ensures Le(v, 4) == [v, 0, 0, 0]
  {
    assert Le(0, 2) == [0, 0];
  }

  /** RFLAGS with bit 32 set: the packet carries the rest of it only. */
  lemma HighFlagLost(regs: seq<u64>)
    requires |regs| == 16
    ensures
      var r := Registers(regs, 0, 0x1_0000_0002, 0);
      |Payload(r)| == 164 && Get(Payload(r), 136, 4) == 2
  {
    PayloadHolds(Registers(regs, 0, 0x1_0000_0002, 0));
    hide Payload, Get;
  }
}
