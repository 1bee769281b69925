/** Little-endian integers in byte memory: what `to_le_bytes`/`from_le_bytes`, `put64` and `get64`
    compute, with the read-after-write laws everything else rests on. Unsigned machine words are
    naturals with explicit bounds; `x & mask` for a contiguous mask is division and remainder, and
    `|` of disjoint fields is addition. */
module Bytes {

  type byte = x: int | 0 <= x < 256
  type u64 = x: int | 0 <= x < 0x1_0000_0000_0000_0000

  const TWO16: nat := 0x1_0000
  const TWO32: nat := 0x1_0000_0000
  const TWO64: nat := 0x1_0000_0000_0000_0000

  function Pow256(n: nat): (p: nat)
    ensures p > 0
  {
    if n == 0 then 1 else 256 * Pow256(n - 1)
  }

  /** The `n` low bytes of `v`, least significant first. */
  function Le(v: nat, n: nat): (s: seq<byte>)
    ensures |s| == n
    decreases n
  {
    if n == 0 then [] else [v % 256] + Le(v / 256, n - 1)
  }

  /** The value of a little-endian byte string. */
  function Value(s: seq<byte>): (v: nat)
  {
    if s == [] then 0 else s[0] + 256 * Value(s[1..])
  }

  lemma {:induction false} ValueOfLe(v: nat, n: nat)
    requires v < Pow256(n)
    ensures Value(Le(v, n)) == v
    decreases n
  {
    if n > 0 {
      ValueOfLe(v / 256, n - 1);
      assert Le(v, n)[1..] == Le(v / 256, n - 1);
    }
  }

  lemma {:induction false} LeOfValue(s: seq<byte>)
    ensures Value(s) < Pow256(|s|)
    ensures Le(Value(s), |s|) == s
  {
    if s != [] {
      LeOfValue(s[1..]);
      Euclid(Value(s), 256, Value(s[1..]), s[0]);
      assert s == [s[0]] + s[1..];
    }
  }

  lemma Pow256Constants()
    ensures Pow256(1) == 256 && Pow256(2) == TWO16 && Pow256(4) == TWO32 && Pow256(8) == TWO64
  {
    assert Pow256(3) == 256 * Pow256(2);
    assert Pow256(5) == 256 * Pow256(4);
    assert Pow256(6) == 256 * Pow256(5);
    assert Pow256(7) == 256 * Pow256(6);
  }

  function Get(mem: seq<byte>, a: nat, n: nat): (v: nat)
    requires a + n <= |mem|
  {
    Value(mem[a..a + n])
  }

  function Put(mem: seq<byte>, a: nat, v: nat, n: nat): (m: seq<byte>)
    requires a + n <= |mem|
    ensures |m| == |mem|
    ensures forall k {:trigger m[k]} | 0 <= k < |mem| && !(a <= k < a + n) :: m[k] == mem[k]
  {
    mem[..a] + Le(v, n) + mem[a + n..]
  }

  function Get64(mem: seq<byte>, a: nat): (v: nat)
    requires a + 8 <= |mem|
    ensures v < TWO64
  {
    LeOfValue(mem[a..a + 8]); Pow256Constants();
    Get(mem, a, 8)
  }

  function Put64(mem: seq<byte>, a: nat, v: nat): (m: seq<byte>)
    requires a + 8 <= |mem|
    ensures |m| == |mem|
    ensures forall k {:trigger m[k]} | 0 <= k < |mem| && !(a <= k < a + 8) :: m[k] == mem[k]
  {
    Put(mem, a, v, 8)
  }

  /** `put64`: eight little-endian bytes into memory. */
  method Write64(mem: array<byte>, a: nat, v: nat)
    requires a + 8 <= mem.Length
    modifies mem
    ensures mem[..] == Put64(old(mem[..]), a, v)
  {
    hide Le;
    var bytes := Le(v, 8);
    forall k | 0 <= k < 8 {
      mem[a + k] := bytes[k];
    }
    assert mem[..] == old(mem[..])[..a] + bytes + old(mem[..])[a + 8..];
  }

  /** Reading back what was just written. */
  lemma GetPut(mem: seq<byte>, a: nat, v: nat, n: nat)
    requires a + n <= |mem| && v < Pow256(n)
    ensures Get(Put(mem, a, v, n), a, n) == v
  {
    ValueOfLe(v, n);
    assert Put(mem, a, v, n)[a..a + n] == Le(v, n);
  }

  lemma Get64Put64(mem: seq<byte>, a: nat, v: nat)
    requires a + 8 <= |mem| && v < TWO64
    ensures Get64(Put64(mem, a, v), a) == v
  {
    Pow256Constants();
    GetPut(mem, a, v, 8);
  }

  /** Reads agree wherever two memories agree on the bytes read. */
  lemma Get64Frame(mem: seq<byte>, mem': seq<byte>, b: nat)
    requires b + 8 <= |mem| && b + 8 <= |mem'|
    requires forall k | b <= k < b + 8 :: mem[k] == mem'[k]
    ensures Get64(mem', b) == Get64(mem, b)
  {
    assert mem[b..b + 8] == mem'[b..b + 8];
  }

  lemma {:induction false} ZeroValue(s: seq<byte>)
    requires forall k | 0 <= k < |s| :: s[k] == 0
    ensures Value(s) == 0
  {
    if s != [] {
      ZeroValue(s[1..]);
    }
  }

  lemma AtLeastOnce(k: int, d: int)
    requires k >= 1 && d > 0
    ensures k * d >= d
  {
  }

  lemma MulMono(a: int, b: int, m: int)
    requires a <= b && m >= 0
    ensures a * m <= b * m
  {
    assert (b - a) * m == b * m - a * m;
    assert (b - a) * m >= 0;
  }

  lemma MulLess(a: int, b: int, m: int)
    requires m > 0 && a * m < b * m
    ensures a < b
  {
    if b <= a {
      MulMono(b, a, m);
    }
  }

  /** A quotient by at least `c` of a number below `c * p` is below `p`. */
  lemma Shrinks(v: nat, d: nat, c: nat, p: nat)
    requires 0 < c <= d && v < c * p
    ensures v / d < p
  {
    var q := v / d;
    assert v == q * d + v % d;
    MulMono(c, d, q);
    assert q * c == c * q && q * d == d * q && p * c == c * p;
    MulLess(q, p, c);
  }

  /** Quotient and remainder are the only ones there are. */
  lemma Euclid(a: int, d: int, q: int, r: int)
    requires d > 0 && a == q * d + r && 0 <= r < d
    ensures a / d == q && a % d == r
  {
    var k := a / d - q;
    assert k * d == r - a % d;
    if k >= 1 {
      AtLeastOnce(k, d);
    } else if -k >= 1 {
      AtLeastOnce(-k, d);
    }
  }
}
