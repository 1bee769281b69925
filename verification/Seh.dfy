/** `__C_specific_handler` (msvcrt/src/lib.rs): the scope-table walk that runs `__except` filters and
    `__finally` blocks, innermost scope first. */
module Seh {

  const U32_MAX: nat := 0xFFFF_FFFF

  /** A scope-table entry; `handler` 0 marks a `__finally`. The fields are 32-bit offsets into the image. */
  datatype Scope = Scope(begin: nat, end: nat, filter: nat, handler: nat)

  /** What the walk does besides deciding: call a filter, call a finally block, redirect the context. */
  datatype Event = Filter(scope: nat) | Finally(scope: nat) | Resume(scope: nat)

  /** What a filter answers may depend on everything that ran before it. */
  type Answers = (seq<Event>, nat) -> int

  const CONTINUE_EXECUTION := 0
  const CONTINUE_SEARCH := 1

  function Min(a: nat, b: nat): nat { if a < b then a else b }

  ghost predicate Covers(table: seq<Scope>, rva: int, i: nat) {
    i < |table| && table[i].begin <= rva < table[i].end
  }

  function Span(table: seq<Scope>, i: nat): int
    requires i < |table|
  {
    table[i].end - table[i].begin
  }

  /** A scope the walk can visit: covering, in the first thirty-two, and of a span the search can beat. */
  ghost predicate Visitable(table: seq<Scope>, rva: int, i: nat) {
    i < 32 && Covers(table, rva, i) && Span(table, i) < U32_MAX
  }

  /** `i` is inside `j`, or as large and earlier in the table. */
  ghost predicate Inner(table: seq<Scope>, i: nat, j: nat)
    requires i < |table| && j < |table|
  {
    Span(table, i) < Span(table, j) || (Span(table, i) == Span(table, j) && i < j)
  }

  /** `v` holds visitable scopes, innermost first, and every other one comes after them. */
  ghost predicate IsInitial(table: seq<Scope>, rva: int, v: seq<nat>) {
    && (forall k {:trigger v[k]} | 0 <= k < |v| :: Visitable(table, rva, v[k]))
    && (forall k, l {:trigger v[k], v[l]} | 0 <= k < l < |v| :: Inner(table, v[k], v[l]))
    && (forall i, k {:trigger Visitable(table, rva, i), v[k]} |
          0 <= k < |v| && Visitable(table, rva, i) && i !in v :: Inner(table, v[k], i))
  }

  ghost predicate Complete(table: seq<Scope>, rva: int, v: seq<nat>) {
    forall i: nat {:trigger Visitable(table, rva, i)} | Visitable(table, rva, i) :: i in v
  }

  /** The finally blocks among some scopes. */
  function Finallys(table: seq<Scope>, order: seq<nat>): seq<Event>
    requires InTable(table, order)
  {
    if order == [] then []
    else
      var rest := Finallys(table, order[..|order| - 1]);
      var i := order[|order| - 1];
      if table[i].handler == 0 then rest + [Finally(i)] else rest
  }

  /** The filters among some scopes. */
  function Filters(table: seq<Scope>, order: seq<nat>): seq<Event>
    requires InTable(table, order)
  {
    if order == [] then []
    else
      var rest := Filters(table, order[..|order| - 1]);
      var i := order[|order| - 1];
      if table[i].handler != 0 then rest + [Filter(i)] else rest
  }

  /** Visits are determined by the table: of two initial stretches one extends the other. */
  lemma VisitsDetermined(table: seq<Scope>, rva: int, a: seq<nat>, b: seq<nat>)
    requires IsInitial(table, rva, a) && IsInitial(table, rva, b) && |a| <= |b|
    ensures a <= b
  {
    for k := 0 to |a|
      invariant a[..k] == b[..k]
    {
      SameNext(table, rva, a, b, k);
    }
    assert a == a[..|a|];
  }

  lemma NotEarlier(table: seq<Scope>, rva: int, a: seq<nat>, b: seq<nat>, k: nat)
    requires IsInitial(table, rva, a) && k < |a| && k <= |b| && a[..k] == b[..k]
    ensures forall l | 0 <= l < k :: b[l] != a[k]
  {
    forall l | 0 <= l < k
      ensures b[l] != a[k]
    {
      assert b[l] == b[..k][l] == a[l];
      assert Inner(table, a[l], a[k]);
    }
  }

  lemma NextIsFirst(table: seq<Scope>, rva: int, a: seq<nat>, b: seq<nat>, k: nat)
    requires IsInitial(table, rva, a) && IsInitial(table, rva, b) && k < |a| && k < |b| && a[..k] == b[..k]
    ensures Visitable(table, rva, a[k]) && Visitable(table, rva, b[k])
    ensures a[k] == b[k] || Inner(table, b[k], a[k])
  {
    assert Visitable(table, rva, a[k]) && Visitable(table, rva, b[k]);
    if a[k] in b {
      var l :| 0 <= l < |b| && b[l] == a[k];
      NotEarlier(table, rva, a, b, k);
      assert l >= k;
    }
  }

  lemma SameNext(table: seq<Scope>, rva: int, a: seq<nat>, b: seq<nat>, k: nat)
    requires IsInitial(table, rva, a) && IsInitial(table, rva, b) && k < |a| && k < |b| && a[..k] == b[..k]
    ensures a[k] == b[k]
  {
    NextIsFirst(table, rva, a, b, k);
    NextIsFirst(table, rva, b, a, k);
  }

  // --- the walk -----------------------------------------------------------------------

  ghost predicate InTable(table: seq<Scope>, v: seq<nat>) { forall k {:trigger v[k]} | 0 <= k < |v| :: v[k] < |table| }

  /** No filter among the first `n` visits accepted or dismissed the exception. */
  ghost predicate Refused(table: seq<Scope>, answers: Answers, v: seq<nat>, n: nat)
    requires InTable(table, v) && n <= |v|
  {
    forall k {:trigger v[k]} | 0 <= k < n && table[v[k]].handler != 0 ::
      answers(Filters(table, v[..k]), v[k]) != 1 && answers(Filters(table, v[..k]), v[k]) != -1
  }

  /** The outcome of the pass that looks for a handler, having visited `v`. */
  ghost predicate Searched(table: seq<Scope>, rva: int, answers: Answers, v: seq<nat>, dispo: int, trace: seq<Event>)
    requires InTable(table, v)
  {
    if dispo == 1 then
      Complete(table, rva, v) && Refused(table, answers, v, |v|) && trace == Filters(table, v)
    else
      && v != [] && dispo == 0 && Refused(table, answers, v, |v| - 1)
      && var last := v[|v| - 1];
      && table[last].handler != 0
      && var answer := answers(Filters(table, v[..|v| - 1]), last);
      && (answer == 1 || answer == -1)
      && trace == Filters(table, v) + (if answer == 1 then Finallys(table, v) + [Resume(last)] else [])
  }

  /** `done` marks the visited scopes. */
  ghost predicate Marked(done: seq<bool>, v: seq<nat>) {
    |done| == 32 && forall i: nat {:trigger done[i]} | i < 32 :: done[i] <==> i in v
  }

  /** `pick` has the smallest span of those not done, and is the earliest of equals. */
  ghost predicate Best(table: seq<Scope>, rva: int, done: seq<bool>, pick: nat)
    requires |done| == 32
  {
    && Visitable(table, rva, pick) && !done[pick]
    && forall i: nat {:trigger Visitable(table, rva, i)} | Visitable(table, rva, i) && !done[i] && i != pick ::
         Inner(table, pick, i)
  }

  ghost predicate Exhausted(table: seq<Scope>, rva: int, done: seq<bool>)
    requires |done| == 32
  {
    forall i: nat {:trigger Visitable(table, rva, i)} | Visitable(table, rva, i) :: done[i]
  }

  method Pick(table: seq<Scope>, pc: nat, base: nat, done: array<bool>) returns (pick: nat, found: bool)
    requires done.Length == 32
    ensures if found then Best(table, pc - base, done[..], pick) else Exhausted(table, pc - base, done[..])
  {
    pick, found := 0, false;
    var pickSpan := U32_MAX;
    var n := Min(|table|, 32);
    for i := 0 to n
      invariant !found ==> pickSpan == U32_MAX
      invariant found ==>
        pick < i && Visitable(table, pc - base, pick) && !done[pick] && pickSpan == Span(table, pick)
      invariant forall j: nat {:trigger Visitable(table, pc - base, j)} |
          Visitable(table, pc - base, j) && j < i && !done[j] :: found && (j == pick || Inner(table, pick, j))
    {
      if done[i] {
        continue;
      }
      var e := table[i];
      var covered := pc >= base + e.begin && pc < base + e.end;
      if covered && e.end - e.begin < pickSpan {
        pick, found, pickSpan := i, true, e.end - e.begin;
      }
    }
  }

  lemma VisitMore(table: seq<Scope>, rva: int, v: seq<nat>, done: seq<bool>, pick: nat)
    requires IsInitial(table, rva, v) && Marked(done, v) && Best(table, rva, done, pick)
    ensures pick < 32 && pick < |table|
    ensures IsInitial(table, rva, v + [pick]) && InTable(table, v + [pick]) && Marked(done[pick := true], v + [pick])
    ensures |v| < 32
  {
    InitialMore(table, rva, v, pick);
    VisitsBound(table, rva, v + [pick]);
  }

  lemma EventsMore(table: seq<Scope>, v: seq<nat>, pick: nat)
    requires InTable(table, v + [pick])
    ensures InTable(table, v) && pick < |table|
    ensures Finallys(table, v + [pick]) == Finallys(table, v) + (if table[pick].handler == 0 then [Finally(pick)] else [])
    ensures Filters(table, v + [pick]) == Filters(table, v) + (if table[pick].handler == 0 then [] else [Filter(pick)])
  {
    var w := v + [pick];
    assert forall k | 0 <= k < |v| :: w[k] == v[k];
    assert w[|v|] == pick && w[..|v|] == v;
  }

  lemma RefusedMore(table: seq<Scope>, answers: Answers, v: seq<nat>, pick: nat)
    requires pick < |table| && InTable(table, v + [pick]) && InTable(table, v) && Refused(table, answers, v, |v|)
    ensures Refused(table, answers, v + [pick], |v|)
    ensures
      table[pick].handler == 0 || (answers(Filters(table, v), pick) != 1 && answers(Filters(table, v), pick) != -1) ==>
        Refused(table, answers, v + [pick], |v| + 1)
  {
    var w := v + [pick];
    hide Filters;
    assert w[..|v|] == v;
    forall k | 0 <= k < |v|
      ensures w[k] == v[k] && w[..k] == v[..k]
    {
    }
  }

  lemma SearchedAll(table: seq<Scope>, rva: int, answers: Answers, v: seq<nat>, done: seq<bool>)
    requires InTable(table, v) && Marked(done, v) && Exhausted(table, rva, done)
    ensures Complete(table, rva, v)
    ensures Refused(table, answers, v, |v|) ==> Searched(table, rva, answers, v, CONTINUE_SEARCH, Filters(table, v))
  {
  }

  lemma SearchedStop(table: seq<Scope>, rva: int, answers: Answers, v: seq<nat>, w: seq<nat>, pick: nat, tail: seq<Event>)
    requires w == v + [pick] && InTable(table, w) && InTable(table, v) && Refused(table, answers, w, |v|)
    requires pick < |table| && table[pick].handler != 0
    requires answers(Filters(table, v), pick) == 1 ==> tail == Finallys(table, w) + [Resume(pick)]
    requires answers(Filters(table, v), pick) != 1 ==> answers(Filters(table, v), pick) == -1 && tail == []
    ensures Searched(table, rva, answers, w, CONTINUE_EXECUTION, Filters(table, w) + tail)
  {
    hide Filters, Finallys, Refused;
    assert w[|w| - 1] == pick && w[..|w| - 1] == v;
  }

  lemma InitialMore(table: seq<Scope>, rva: int, v: seq<nat>, pick: nat)
    requires IsInitial(table, rva, v) && Visitable(table, rva, pick) && pick !in v
    requires forall i: nat {:trigger Visitable(table, rva, i)} | Visitable(table, rva, i) && i !in v && i != pick ::
      Inner(table, pick, i)
    ensures IsInitial(table, rva, v + [pick])
  {
    var w := v + [pick];
    assert forall i :: i in w <==> i in v || i == pick;
  }

  /** `__C_specific_handler`. The search pass calls filters innermost first until one accepts (1) or
      dismisses (-1) the exception; only then do finally blocks run, exactly those visited before, and
      the context is redirected. The unwind pass runs every covering finally block and no filter. */
  method Handle(table: seq<Scope>, pc: nat, base: nat, unwinding: bool, answers: Answers)
    returns (dispo: int, trace: seq<Event>, visited: seq<nat>)
    ensures IsInitial(table, pc - base, visited) && InTable(table, visited)
    ensures unwinding ==>
      dispo == 1 && Complete(table, pc - base, visited) && trace == Finallys(table, visited)
    ensures !unwinding ==> Searched(table, pc - base, answers, visited, dispo, trace)
  {
    hide IsInitial, InTable, Marked, Best, Exhausted, Complete, Refused, Searched, Filters, Finallys;
    var done := new bool[32](_ => false);
    ghost var rva := pc - base;
    visited, trace := [], [];
    Started(table, rva, answers, done[..]);
    while true
      invariant IsInitial(table, rva, visited) && InTable(table, visited) && Marked(done[..], visited)
      invariant trace == if unwinding then Finallys(table, visited) else Filters(table, visited)
      invariant !unwinding ==> Refused(table, answers, visited, |visited|)
      decreases 32 - |visited|
    {
      var pick, found := Pick(table, pc, base, done);
      if !found {
        SearchedAll(table, rva, answers, visited, done[..]);
        break;
      }
      VisitMore(table, rva, visited, done[..], pick);
      EventsMore(table, visited, pick);
      ghost var was, before := done[..], visited;
      visited := visited + [pick];
      done[pick] := true;
      assert done[..] == was[pick := true];
      var e := table[pick];
      if !unwinding {
        RefusedMore(table, answers, before, pick);
      }
      if e.handler == 0 {
        if unwinding {
          trace := trace + [Finally(pick)];
        }
        continue;
      }
      if unwinding {
        continue;
      }
      var verdict := answers(trace, pick);
      trace := trace + [Filter(pick)];
      if verdict == 1 {
        var ran := RunFinallys(table, visited);
        ran := ran + [Resume(pick)];
        SearchedStop(table, rva, answers, before, visited, pick, ran);
        trace := trace + ran;
        dispo := CONTINUE_EXECUTION;
        return;
      }
      if verdict == -1 {
        SearchedStop(table, rva, answers, before, visited, pick, []);
        assert trace + [] == trace;
        dispo := CONTINUE_EXECUTION;
        return;
      }
    }
    dispo := CONTINUE_SEARCH;
  }

  lemma Started(table: seq<Scope>, rva: int, answers: Answers, done: seq<bool>)
    requires |done| == 32 && forall i | 0 <= i < 32 :: !done[i]
    ensures IsInitial(table, rva, []) && InTable(table, []) && Marked(done, [])
    ensures Finallys(table, []) == [] && Filters(table, []) == [] && Refused(table, answers, [], 0)
  {
  }

  method RunFinallys(table: seq<Scope>, picked: seq<nat>) returns (ran: seq<Event>)
    requires InTable(table, picked)
    ensures ran == Finallys(table, picked)
  {
    ran := [];
    for k := 0 to |picked|
      invariant ran == Finallys(table, picked[..k])
    {
      assert picked[..k + 1][..k] == picked[..k];
      if table[picked[k]].handler == 0 {
        ran := ran + [Finally(picked[k])];
      }
    }
    assert picked[..|picked|] == picked;
  }

  /** Visits are different scopes below thirty-two, so there are at most thirty-two. */
  lemma VisitsBound(table: seq<Scope>, rva: int, v: seq<nat>)
    requires IsInitial(table, rva, v)
    ensures |v| <= 32
  {
    forall k, l | 0 <= k < l < |v|
      ensures v[k] != v[l]
    {
      assert Inner(table, v[k], v[l]);
    }
    Pigeonhole(v, 32);
  }

  lemma {:induction false} Pigeonhole(v: seq<nat>, n: nat)
    requires forall k | 0 <= k < |v| :: v[k] < n
    requires forall k, l | 0 <= k < l < |v| :: v[k] != v[l]
    ensures |v| <= n
  {
    var s := set k | 0 <= k < |v| :: v[k];
    Elements(v, s);
    Below(s, n);
  }

  lemma {:induction false} Elements(v: seq<nat>, s: set<nat>)
    requires s == set k | 0 <= k < |v| :: v[k]
    requires forall k, l | 0 <= k < l < |v| :: v[k] != v[l]
    ensures |s| == |v|
  {
    if v != [] {
      var w, last := v[..|v| - 1], v[|v| - 1];
      var t := set k | 0 <= k < |w| :: w[k];
      Elements(w, t);
      assert s == t + {last} by {
        forall x | x in s
          ensures x in t + {last}
        {
          var k :| 0 <= k < |v| && v[k] == x;
          assert k < |w| ==> w[k] in t;
        }
      }
      assert last !in t;
    }
  }

  lemma {:induction false} Below(s: set<nat>, n: nat)
    requires forall x | x in s :: x < n
    ensures |s| <= n
  {
    if n == 0 {
      assert s == {};
    } else {
      Below(s - {n - 1}, n - 1);
    }
  }

  /** The finally blocks run are those of the visited scopes, once each. */
  lemma {:induction false} FinallysOnce(table: seq<Scope>, rva: int, v: seq<nat>, i: nat)
    requires IsInitial(table, rva, v) && InTable(table, v)
    ensures multiset(Finallys(table, v))[Finally(i)] == if i in v && table[i].handler == 0 then 1 else 0
  {
    if v != [] {
      var w, last := v[..|v| - 1], v[|v| - 1];
      assert v == w + [last];
      InitialLess(table, rva, v);
      FinallysOnce(table, rva, w, i);
      forall k | 0 <= k < |w|
        ensures w[k] != last
      {
        assert Inner(table, v[k], v[|v| - 1]);
      }
    }
  }

  lemma InitialLess(table: seq<Scope>, rva: int, v: seq<nat>)
    requires IsInitial(table, rva, v) && v != []
    ensures IsInitial(table, rva, v[..|v| - 1]) && InTable(table, v[..|v| - 1])
  {
    var w, last := v[..|v| - 1], v[|v| - 1];
    forall k | 0 <= k < |w|
      ensures Visitable(table, rva, w[k]) && Inner(table, w[k], last)
    {
      assert w[k] == v[k] && Inner(table, v[k], v[|v| - 1]);
    }
    forall i: nat, k | 0 <= k < |w| && Visitable(table, rva, i) && i !in w
      ensures Inner(table, w[k], i)
    {
      assert w[k] == v[k];
      assert i == last || i !in v;
    }
  }

  ghost predicate OfKind(table: seq<Scope>, v: seq<nat>, handled: bool, k: nat) {
    k < |v| && v[k] < |table| && (table[v[k]].handler != 0) == handled
  }

  /** The visits to scopes with a handler, or to those without. */
  ghost function Kind(table: seq<Scope>, v: seq<nat>, handled: bool): set<nat> {
    set k: nat | k < |v| && OfKind(table, v, handled, k)
  }

  lemma KindMore(table: seq<Scope>, v: seq<nat>, pick: nat, handled: bool)
    requires pick < |table|
    ensures
      |Kind(table, v + [pick], handled)| == |Kind(table, v, handled)| + if (table[pick].handler != 0) == handled then 1 else 0
  {
    var w, n := v + [pick], |v|;
    forall k: nat | k < n
      ensures OfKind(table, w, handled, k) <==> OfKind(table, v, handled, k)
    {
    }
    assert OfKind(table, w, handled, n) <==> (table[pick].handler != 0) == handled;
    hide OfKind;
    if OfKind(table, w, handled, n) {
      assert Kind(table, w, handled) == Kind(table, v, handled) + {n};
    } else {
      assert Kind(table, w, handled) == Kind(table, v, handled);
    }
  }

  /** A pass gives as many events as it makes visits of the kind. */
  lemma {:induction false} EventsCounted(table: seq<Scope>, v: seq<nat>)
    requires InTable(table, v)
    ensures |Filters(table, v)| == |Kind(table, v, true)| && |Finallys(table, v)| == |Kind(table, v, false)|
  {
    if v == [] {
      assert Kind(table, v, true) == {} && Kind(table, v, false) == {};
    } else {
      var w, last := v[..|v| - 1], v[|v| - 1];
      assert v == w + [last];
      EventsMore(table, w, last);
      EventsCounted(table, w);
      KindMore(table, w, last, true);
      KindMore(table, w, last, false);
    }
  }

  /** Visit `k` gives the event whose place is the number of visits of its kind before it. */
  lemma {:induction false} EventPlace(table: seq<Scope>, v: seq<nat>, k: nat)
    requires InTable(table, v) && k < |v|
    ensures
      var events, n := Filters(table, v), |Kind(table, v[..k], true)|;
      table[v[k]].handler != 0 ==> n < |events| && events[n] == Filter(v[k])
    ensures
      var events, n := Finallys(table, v), |Kind(table, v[..k], false)|;
      table[v[k]].handler == 0 ==> n < |events| && events[n] == Finally(v[k])
    decreases |v|
  {
    hide Kind, Filters, Finallys;
    var w, last := v[..|v| - 1], v[|v| - 1];
    assert v == w + [last];
    EventsMore(table, w, last);
    if k < |w| {
      assert v[..k] == w[..k];
      EventPlace(table, w, k);
    } else {
      assert v[..k] == w;
      EventsCounted(table, w);
    }
  }

  /** A pass that visits everything it can leaves out a covering scope exactly when the scope is past the
      thirty-second entry or spans the largest 32-bit number, which no search starts above. */
  lemma LeftOut(table: seq<Scope>, rva: int, v: seq<nat>, i: nat)
    requires IsInitial(table, rva, v) && Complete(table, rva, v) && Covers(table, rva, i)
    requires table[i].end <= U32_MAX
    ensures i !in v <==> i >= 32 || (table[i].begin == 0 && table[i].end == U32_MAX)
  {
    if i in v {
      var k :| 0 <= k < |v| && v[k] == i;
      assert Visitable(table, rva, v[k]);
    } else {
      assert !Visitable(table, rva, i);
    }
  }

  /** A scope from the first byte to the last a 32-bit number can name covers its frame and is never visited. */
  lemma WidestScopeLeftOut()
    ensures
      var table := [Scope(0, U32_MAX, 1, 0)];
      Covers(table, 5, 0) && IsInitial(table, 5, []) && Complete(table, 5, [])
  {
  }
}
