/** Fixed-width little-endian fields one after another: encoding them, and decoding them back at an
    offset. */
module Codec {
  import opened Bytes

  datatype Fields = End | Field(value: nat, width: nat, rest: Fields)

  function Size(fs: Fields): nat {
    match fs
    case End => 0
    case Field(_, w, rest) => w + Size(rest)
  }

  function Encode(fs: Fields): (s: seq<byte>)
    ensures |s| == Size(fs)
  {
    match fs
    case End => []
    case Field(v, w, rest) => Le(v, w) + Encode(rest)
  }

  /** Every value fits its width. */
  predicate Fit(fs: Fields) {
    fs.Field? ==> fs.value < Pow256(fs.width) && Fit(fs.rest)
  }

  lemma FieldOf(v: nat, w: nat, rest: Fields)
    requires v < Pow256(w) && Fit(rest)
    ensures Fit(Field(v, w, rest)) && Size(Field(v, w, rest)) == w + Size(rest)
  {
  }

  /** Reading the fields in turn from offset `o` gives these values. */
  predicate Decodes(d: seq<byte>, o: nat, fs: Fields)
    decreases fs
  {
    fs.Field? ==> o + fs.width <= |d| && Get(d, o, fs.width) == fs.value && Decodes(d, o + fs.width, fs.rest)
  }

  lemma {:induction false} EncodeDecodes(d: seq<byte>, o: nat, fs: Fields)
    requires Fit(fs) && o + Size(fs) <= |d| && d[o..o + Size(fs)] == Encode(fs)
    ensures Decodes(d, o, fs)
    decreases fs
  {
    if fs.Field? {
      hide Le, Encode, Value, Pow256, Get;
      var w, n := fs.width, Size(fs);
      EncodeStep(fs);
      SliceOfSlice(d, o, o + n, 0, w);
      SliceOfSlice(d, o, o + n, w, n);
      GetEncoded(d, o, fs.value, w);
      EncodeDecodes(d, o + w, fs.rest);
    }
  }

  lemma EncodeStep(fs: Fields)
    requires fs.Field?
    ensures Size(fs) == fs.width + Size(fs.rest)
    ensures Encode(fs)[0..fs.width] == Le(fs.value, fs.width) && Encode(fs)[fs.width..Size(fs)] == Encode(fs.rest)
  {
    hide Le;
  }

  lemma GetEncoded(d: seq<byte>, o: nat, v: nat, w: nat)
    requires o + w <= |d| && d[o..o + w] == Le(v, w) && v < Pow256(w)
    ensures Get(d, o, w) == v
  {
    ValueOfLe(v, w);
  }

  /** A part of a concatenation that lies in its first half, or in its second. */
  lemma SliceLeft(a: seq<byte>, b: seq<byte>, i: nat, j: nat)
    requires i <= j <= |a|
    ensures (a + b)[i..j] == a[i..j]
  {
  }

  lemma SliceRight(a: seq<byte>, b: seq<byte>, i: nat, j: nat)
    requires |a| <= i <= j <= |a| + |b|
    ensures (a + b)[i..j] == b[i - |a|..j - |a|]
  {
  }

  lemma SliceOfSlice(d: seq<byte>, o: nat, e: nat, i: nat, j: nat)
    requires o <= e <= |d| && i <= j <= e - o
    ensures d[o..e][i..j] == d[o + i..o + j]
  {
    var a, b := d[o..e][i..j], d[o + i..o + j];
    assert |a| == |b|;
    forall k | 0 <= k < |a|
      ensures a[k] == b[k]
    {
      assert a[k] == d[o..e][i + k];
    }
  }
}
