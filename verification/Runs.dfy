/** Coalescing a mapping into runs: the `push` closure of `walk_runs` (`kernel/src/dump.rs`) over any
    partial map from virtual to physical addresses. */
module Runs {
  import opened Wrappers

  datatype Run = Run(vaddr: nat, paddr: nat, size: nat)

  predicate In(r: Run, va: nat) { r.vaddr <= va < r.vaddr + r.size }

  /** Extend the last run, or start a new one. */
  function Push(runs: seq<Run>, va: nat, pa: nat, sz: nat): seq<Run> {
    if |runs| > 0 && runs[|runs| - 1].vaddr + runs[|runs| - 1].size == va && runs[|runs| - 1].paddr + runs[|runs| - 1].size == pa
    then runs[..|runs| - 1] + [runs[|runs| - 1].(size := runs[|runs| - 1].size + sz)]
    else runs + [Run(va, pa, sz)]
  }

  /** `b` starts after `a` ends. */
  predicate Before(a: Run, b: Run) { a.vaddr + a.size <= b.vaddr }

  /** `b` goes on where `a` ends, virtually and physically. */
  predicate Continues(a: Run, b: Run) { a.vaddr + a.size == b.vaddr && a.paddr + a.size == b.paddr }

  predicate Within(r: Run, lo: nat, hi: nat) { lo <= r.vaddr && r.size > 0 && r.vaddr + r.size <= hi }

  /** The runs lie between `lo` and `hi`, ascend without overlap, and no two neighbours could be one. */
  ghost predicate Ordered(runs: seq<Run>, lo: nat, hi: nat) {
    && (forall i | 0 <= i < |runs| :: Within(runs[i], lo, hi))
    && (forall i, j | 0 <= i < j < |runs| :: Before(runs[i], runs[j]))
    && (forall i, j | 0 <= i < j < |runs| && j == i + 1 :: !Continues(runs[i], runs[j]))
  }

  /** Each address of a run is mapped where the run says. */
  ghost predicate Sound(view: nat -> Option<nat>, runs: seq<Run>) {
    forall i, va: nat | 0 <= i < |runs| && In(runs[i], va) :: view(va) == Some(runs[i].paddr + (va - runs[i].vaddr))
  }

  ghost predicate Covered(runs: seq<Run>, va: nat) {
    exists i :: 0 <= i < |runs| && In(runs[i], va)
  }

  /** Each mapped address between `lo` and `hi` is in a run. */
  ghost predicate Complete(view: nat -> Option<nat>, runs: seq<Run>, lo: nat, hi: nat) {
    forall va | lo <= va < hi && view(va).Some? :: Covered(runs, va)
  }

  ghost predicate Describes(view: nat -> Option<nat>, runs: seq<Run>, lo: nat, hi: nat) {
    Ordered(runs, lo, hi) && Sound(view, runs) && Complete(view, runs, lo, hi)
  }

  lemma PushOrdered(runs: seq<Run>, lo: nat, hi: nat, pa: nat, sz: nat)
    requires Ordered(runs, lo, hi) && lo <= hi && sz > 0
    ensures Ordered(Push(runs, hi, pa, sz), lo, hi + sz)
  {
    var out := Push(runs, hi, pa, sz);
    forall i, j | 0 <= i < j < |out|
      ensures Before(out[i], out[j]) && (j == i + 1 ==> !Continues(out[i], out[j]))
    {
      assert out[i] == runs[i];
      if j < |runs| {
        assert Before(runs[i], runs[j]);
      } else {
        assert Within(runs[i], lo, hi);
      }
    }
  }

  lemma PushCovers(runs: seq<Run>, hi: nat, pa: nat, sz: nat, va: nat)
    requires Covered(runs, va) || hi <= va < hi + sz
    ensures Covered(Push(runs, hi, pa, sz), va)
  {
    var out := Push(runs, hi, pa, sz);
    if hi <= va < hi + sz {
      assert In(out[|out| - 1], va);
    } else {
      var i :| 0 <= i < |runs| && In(runs[i], va);
      assert In(out[i], va);
    }
  }

  lemma PushSound(view: nat -> Option<nat>, runs: seq<Run>, hi: nat, pa: nat, sz: nat)
    requires Sound(view, runs)
    requires forall va | hi <= va < hi + sz :: view(va) == Some(pa + (va - hi))
    ensures Sound(view, Push(runs, hi, pa, sz))
  {
    var out := Push(runs, hi, pa, sz);
    forall i, va: nat | 0 <= i < |out| && In(out[i], va)
      ensures view(va) == Some(out[i].paddr + (va - out[i].vaddr))
    {
      if hi <= va < hi + sz && i == |out| - 1 {
      } else {
        assert In(runs[i], va);
      }
    }
  }

  /** A block mapped contiguously at `hi` extends the description. */
  lemma PushDescribes(view: nat -> Option<nat>, runs: seq<Run>, lo: nat, hi: nat, pa: nat, sz: nat)
    requires Describes(view, runs, lo, hi) && lo <= hi && sz > 0
    requires forall va | hi <= va < hi + sz :: view(va) == Some(pa + (va - hi))
    ensures Describes(view, Push(runs, hi, pa, sz), lo, hi + sz)
  {
    PushOrdered(runs, lo, hi, pa, sz);
    PushSound(view, runs, hi, pa, sz);
    forall va | lo <= va < hi + sz && view(va).Some?
      ensures Covered(Push(runs, hi, pa, sz), va)
    {
      PushCovers(runs, hi, pa, sz, va);
    }
  }

  /** An unmapped stretch extends it too, with nothing pushed. */
  lemma SkipDescribes(view: nat -> Option<nat>, runs: seq<Run>, lo: nat, hi: nat, hi': nat)
    requires Describes(view, runs, lo, hi) && hi <= hi'
    requires forall va | hi <= va < hi' :: view(va) == None
    ensures Describes(view, runs, lo, hi')
  {
  }

  /** An address is in at most one run. */
  lemma OneRun(runs: seq<Run>, lo: nat, hi: nat, i: nat, j: nat, va: nat)
    requires Ordered(runs, lo, hi) && i < |runs| && j < |runs| && In(runs[i], va) && In(runs[j], va)
    ensures i == j
  {
  }

  /** Only one run list describes a view: coalescing leaves no choice. */
  lemma {:induction false} Unique(view: nat -> Option<nat>, a: seq<Run>, b: seq<Run>, lo: nat, hi: nat)
    requires Describes(view, a, lo, hi) && Describes(view, b, lo, hi)
    ensures a == b
  {
    if a != [] || b != [] {
      SameFirst(view, a, b, lo, hi);
      var next := a[0].vaddr + a[0].size;
      DropFirst(view, a, lo, hi);
      DropFirst(view, b, lo, hi);
      Unique(view, a[1..], b[1..], next, hi);
    }
  }

  lemma SameFirst(view: nat -> Option<nat>, a: seq<Run>, b: seq<Run>, lo: nat, hi: nat)
    requires Describes(view, a, lo, hi) && Describes(view, b, lo, hi) && (a != [] || b != [])
    ensures a != [] && b != [] && a[0] == b[0]
  {
    if a != [] { FirstIn(view, a, b, lo, hi); }
    if b != [] { FirstIn(view, b, a, lo, hi); }
    NotShorter(view, a, b, lo, hi);
    NotShorter(view, b, a, lo, hi);
  }

  lemma FirstIn(view: nat -> Option<nat>, a: seq<Run>, b: seq<Run>, lo: nat, hi: nat)
    requires Describes(view, a, lo, hi) && Describes(view, b, lo, hi) && a != []
    ensures b != [] && b[0].vaddr <= a[0].vaddr && (b[0].vaddr == a[0].vaddr ==> b[0].paddr == a[0].paddr)
  {
    var v := a[0].vaddr;
    assert In(a[0], v);
    assert view(v).Some?;
    assert Covered(b, v);
    assert b[0].vaddr == v ==> In(b[0], v);
  }

  lemma NotShorter(view: nat -> Option<nat>, a: seq<Run>, b: seq<Run>, lo: nat, hi: nat)
    requires Describes(view, a, lo, hi) && Describes(view, b, lo, hi) && a != [] && b != []
    requires a[0].vaddr == b[0].vaddr && a[0].paddr == b[0].paddr
    ensures a[0].size >= b[0].size
  {
    EndsThere(view, a, lo, hi);
    if a[0].size < b[0].size {
      assert In(b[0], a[0].vaddr + a[0].size);
    }
  }

  /** A run cannot stop where the view goes on contiguously. */
  lemma EndsThere(view: nat -> Option<nat>, a: seq<Run>, lo: nat, hi: nat)
    requires Describes(view, a, lo, hi) && a != []
    ensures a[0].vaddr + a[0].size < hi ==> view(a[0].vaddr + a[0].size) != Some(a[0].paddr + a[0].size)
  {
    var v := a[0].vaddr + a[0].size;
    if v < hi && view(v).Some? {
      assert Covered(a, v);
      var i :| 0 <= i < |a| && In(a[i], v);
      assert Within(a[0], lo, hi) && i > 0 && Before(a[0], a[i]);
      assert Before(a[0], a[1]) && Within(a[1], lo, hi);
      assert i == 1 && a[1].vaddr == v;
    }
  }

  lemma DropFirst(view: nat -> Option<nat>, a: seq<Run>, lo: nat, hi: nat)
    requires Describes(view, a, lo, hi) && a != []
    ensures Describes(view, a[1..], a[0].vaddr + a[0].size, hi)
  {
    var next := a[0].vaddr + a[0].size;
    DropFirstOrdered(a, lo, hi);
    forall i, va: nat | 0 <= i < |a[1..]| && In(a[1..][i], va)
      ensures view(va) == Some(a[1..][i].paddr + (va - a[1..][i].vaddr))
    {
      assert In(a[i + 1], va);
    }
    forall va | next <= va < hi && view(va).Some?
      ensures Covered(a[1..], va)
    {
      assert Covered(a, va);
      var i :| 0 <= i < |a| && In(a[i], va);
      assert i > 0;
      assert In(a[1..][i - 1], va);
    }
  }

  lemma DropFirstOrdered(a: seq<Run>, lo: nat, hi: nat)
    requires Ordered(a, lo, hi) && a != []
    ensures Ordered(a[1..], a[0].vaddr + a[0].size, hi)
  {
    var t := a[1..];
    forall i | 0 <= i < |t|
      ensures Within(t[i], a[0].vaddr + a[0].size, hi)
    {
      assert Before(a[0], a[i + 1]) && Within(a[i + 1], lo, hi);
    }
    forall i, j | 0 <= i < j < |t|
      ensures Before(t[i], t[j]) && (j == i + 1 ==> !Continues(t[i], t[j]))
    {
      assert Before(a[i + 1], a[j + 1]);
    }
  }
}
