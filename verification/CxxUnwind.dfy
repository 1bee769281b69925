/** The C++ frame handler (msvcrt/src/lib.rs): state lookup, the unwind-map walk of
    `__CxxFrameHandler3` and `unwind_to_state`, and the choice of a catch. */
module CxxUnwind {

  /** An unwind-map entry: the state below this one and the destructor to run, 0 for none. */
  datatype Entry = Entry(toState: int, action: nat)

  datatype IpEntry = IpEntry(ip: nat, state: int)

  /** A try block: the states of its body and the types its catches take, 0 for `catch (...)`. */
  datatype TryBlock = TryBlock(low: int, high: int, catches: seq<nat>)

  datatype Outcome = Search | Caught(block: nat, clause: nat)

  // --- the chain of states ---------------------------------------------------------

  /** The states passed on the way down from `state` to `target`; an entry that does not lead downwards
      ends the walk. */
  function Visits(entries: seq<Entry>, state: int, target: int): seq<nat>
    requires state < |entries|
    decreases state
  {
    if state <= target || state < 0 then []
    else
      var next := entries[state].toState;
      if next >= state then [state] else [state] + Visits(entries, next, target)
  }

  /** The state the walk is left in. */
  function End(entries: seq<Entry>, state: int, target: int): (e: int)
    requires state < |entries|
    ensures e < |entries|
    decreases state
  {
    if state <= target || state < 0 || entries[state].toState >= state then state
    else End(entries, entries[state].toState, target)
  }

  ghost predicate InMap(entries: seq<Entry>, v: seq<nat>) { forall k {:trigger v[k]} | 0 <= k < |v| :: v[k] < |entries| }

  /** The destructors of some states. */
  function Destructors(entries: seq<Entry>, v: seq<nat>): seq<nat>
    requires InMap(entries, v)
  {
    if v == [] then []
    else (if entries[v[0]].action != 0 then [v[0]] else []) + Destructors(entries, v[1..])
  }

  /** State `x` can be reached from `state` by links that lead downwards. */
  ghost predicate OnChain(entries: seq<Entry>, state: int, x: int)
    requires state < |entries|
    decreases state
  {
    state == x || (state >= 0 && entries[state].toState < state && OnChain(entries, entries[state].toState, x))
  }

  /** `v` goes strictly down, from `high` at most to above `low`. */
  ghost predicate Downward(v: seq<nat>, low: int, high: int) {
    && (forall k {:trigger v[k]} | 0 <= k < |v| :: low < v[k] <= high)
    && (forall k, l {:trigger v[k], v[l]} | 0 <= k < l < |v| :: v[k] > v[l])
  }

  lemma DownwardMore(x: nat, v: seq<nat>, low: int, high: int)
    requires low < x && high < x && Downward(v, low, high)
    ensures Downward([x] + v, low, x)
  {
    var w := [x] + v;
    assert forall k | 0 < k < |w| :: w[k] == v[k - 1];
  }

  /** The walk goes strictly down, so it passes no state twice. */
  lemma {:induction false} VisitsDescend(entries: seq<Entry>, state: int, target: int)
    requires state < |entries|
    ensures Downward(Visits(entries, state, target), target, state) && InMap(entries, Visits(entries, state, target))
    decreases state
  {
    if state > target && state >= 0 && entries[state].toState < state {
      VisitsDescend(entries, entries[state].toState, target);
      DownwardMore(state, Visits(entries, entries[state].toState, target), target, entries[state].toState);
    }
  }

  /** The walk passes exactly the states on the chain above the target. */
  lemma {:induction false} VisitsAreChain(entries: seq<Entry>, state: int, target: int, x: nat)
    requires state < |entries|
    ensures x in Visits(entries, state, target) <==> x > target && OnChain(entries, state, x)
    decreases state
  {
    if state > target && state >= 0 && entries[state].toState < state {
      VisitsAreChain(entries, entries[state].toState, target, x);
    } else {
      ChainBelow(entries, state, x);
    }
  }

  lemma {:induction false} ChainStops(entries: seq<Entry>, state: int, target: int)
    requires state < |entries| && (state <= target || state < 0 || entries[state].toState >= state)
    ensures forall x: nat :: x > target && OnChain(entries, state, x) <==> x == state && state > target
  {
    forall x: nat
      ensures x > target && OnChain(entries, state, x) <==> x == state && state > target
    {
      ChainBelow(entries, state, x);
    }
  }

  lemma {:induction false} ChainBelow(entries: seq<Entry>, state: int, x: int)
    requires state < |entries|
    ensures OnChain(entries, state, x) ==> x <= state
    decreases state
  {
    if state >= 0 && entries[state].toState < state {
      ChainBelow(entries, entries[state].toState, x);
    }
  }

  /** Every entry on the way down leads downwards. */
  ghost predicate Descends(entries: seq<Entry>, state: int, target: int)
    requires state < |entries|
  {
    forall x: nat {:trigger OnChain(entries, state, x)} | target < x < |entries| && OnChain(entries, state, x) :: entries[x].toState < x
  }

  lemma DescendsRest(entries: seq<Entry>, state: int, target: int)
    requires target < state < |entries| && state >= 0 && entries[state].toState < state
    ensures Descends(entries, state, target) <==> Descends(entries, entries[state].toState, target)
  {
    var next := entries[state].toState;
    assert forall x: nat :: OnChain(entries, state, x) <==> x == state || OnChain(entries, next, x);
  }

  lemma DescendsBase(entries: seq<Entry>, state: int, target: int)
    requires state < |entries| && (state <= target || state < 0 || entries[state].toState >= state)
    ensures Descends(entries, state, target) <==> state <= target || state < 0
  {
    ChainStops(entries, state, target);
    if state > target && state >= 0 {
      assert OnChain(entries, state, state);
    }
  }

  /** Unwinding to one target and from there to a lower one is unwinding to the lower one at once,
      exactly when no entry passed on the way to the first leads up or to itself. */
  lemma {:induction false} UnwindComposes(entries: seq<Entry>, state: int, t1: int, t2: int)
    requires state < |entries| && t2 <= t1
    ensures Visits(entries, state, t2) == Visits(entries, state, t1) + Visits(entries, End(entries, state, t1), t2)
       <==> Descends(entries, state, t1)
    decreases state
  {
    hide OnChain, Descends;
    var direct, first := Visits(entries, state, t2), Visits(entries, state, t1);
    var second := Visits(entries, End(entries, state, t1), t2);
    if state > t1 && state >= 0 && entries[state].toState < state {
      var next := entries[state].toState;
      DescendsRest(entries, state, t1);
      UnwindComposes(entries, next, t1, t2);
      var d', f' := Visits(entries, next, t2), Visits(entries, next, t1);
      assert first + second == [state] + (f' + second);
      assert direct == [state] + d';
      Tail(state, d', f' + second);
    } else {
      DescendsBase(entries, state, t1);
    }
  }

  /** One entry that leads to itself: unwinding twice to the same target runs its destructor twice. */
  lemma LoopedEntryRunsTwice()
    ensures
      var entries := [Entry(0, 1)];
      Visits(entries, 0, -1) == [0] && Visits(entries, 0, -1) + Visits(entries, End(entries, 0, -1), -1) == [0, 0]
  {
    var entries := [Entry(0, 1)];
    assert Visits(entries, 0, -1) == [0] && End(entries, 0, -1) == 0;
  }

  lemma Tail(x: nat, a: seq<nat>, b: seq<nat>)
    ensures [x] + a == [x] + b <==> a == b
  {
    assert ([x] + a)[1..] == a && ([x] + b)[1..] == b;
  }

  // --- the handler -------------------------------------------------------------------------

  /** The destructors of the states passed. */
  ghost function Cleanup(entries: seq<Entry>, state: int, target: int): seq<nat>
    requires state < |entries|
  {
    VisitsDescend(entries, state, target);
    Destructors(entries, Visits(entries, state, target))
  }

  lemma CleanupStep(entries: seq<Entry>, s: int, target: int)
    requires s < |entries|
    ensures s <= target || s < 0 ==> Cleanup(entries, s, target) == []
    ensures s > target && s >= 0 ==>
      var next, own := entries[s].toState, if entries[s].action != 0 then [s] else [];
      Cleanup(entries, s, target) == if next >= s then own else own + Cleanup(entries, next, target)
  {
    if s > target && s >= 0 {
      VisitsDescend(entries, s, target);
      var next := entries[s].toState;
      var rest: seq<nat> := if next < s then Visits(entries, next, target) else [];
      if next < s {
        VisitsDescend(entries, next, target);
      }
      assert Visits(entries, s, target) == [s] + rest;
      hide Visits;
      DestructorsFirst(entries, s, rest);
    }
  }

  lemma DestructorsFirst(entries: seq<Entry>, s: nat, rest: seq<nat>)
    requires InMap(entries, [s] + rest) && InMap(entries, rest)
    ensures s < |entries|
    ensures Destructors(entries, [s] + rest) == (if entries[s].action != 0 then [s] else []) + Destructors(entries, rest)
    ensures rest == [] ==> Destructors(entries, [s] + rest) == if entries[s].action != 0 then [s] else []
  {
    assert ([s] + rest)[0] == s && ([s] + rest)[1..] == rest;
  }

  /** The destructors run are those of the states on the chain above the target that have one, and they
      run from the highest state down: which ones and in which order is settled by the map alone. */
  lemma {:induction false} CleanupIs(entries: seq<Entry>, state: int, target: int, x: nat)
    requires state < |entries|
    ensures x in Cleanup(entries, state, target)
       <==> target < x < |entries| && OnChain(entries, state, x) && entries[x].action != 0
    ensures Downward(Cleanup(entries, state, target), target, state)
  {
    VisitsDescend(entries, state, target);
    VisitsAreChain(entries, state, target, x);
    ChainBelow(entries, state, x);
    var v := Visits(entries, state, target);
    hide Visits, OnChain;
    DestructorsIn(entries, v, x);
    DestructorsDescend(entries, v, target, state);
  }

  lemma {:induction false} DestructorsIn(entries: seq<Entry>, v: seq<nat>, x: nat)
    requires InMap(entries, v)
    ensures x in Destructors(entries, v) <==> x in v && x < |entries| && entries[x].action != 0
  {
    if v != [] {
      DestructorsIn(entries, v[1..], x);
      assert v == [v[0]] + v[1..];
    }
  }

  lemma {:induction false} DestructorsDescend(entries: seq<Entry>, v: seq<nat>, low: int, high: int)
    requires InMap(entries, v) && Downward(v, low, high)
    ensures Downward(Destructors(entries, v), low, high)
  {
    if v != [] {
      var x: int, rest := v[0], v[1..];
      assert forall k {:trigger rest[k]} | 0 <= k < |rest| :: rest[k] == v[k + 1];
      DestructorsDescend(entries, rest, low, x - 1);
      if entries[x].action != 0 {
        DownwardMore(x, Destructors(entries, rest), low, x - 1);
      }
    }
  }

  /** The walk ends at a state of the chain, at or below the target, or negative, or where the map leads no further
      down. */
  lemma {:induction false} EndIs(entries: seq<Entry>, state: int, target: int)
    requires state < |entries|
    ensures
      var e := End(entries, state, target);
      OnChain(entries, state, e) && (e <= target || e < 0 || entries[e].toState >= e)
    ensures forall x {:trigger OnChain(entries, state, x)} | OnChain(entries, state, x) && x > End(entries, state, target) ::
      x > target
    decreases state
  {
    if state > target && state >= 0 && entries[state].toState < state {
      EndIs(entries, entries[state].toState, target);
    } else {
      forall x | OnChain(entries, state, x)
        ensures x <= state
      {
        ChainBelow(entries, state, x);
      }
    }
  }

  /** `unwind_to_state`: run the destructors of the states passed. */
  method UnwindToState(entries: seq<Entry>, state: int, target: int) returns (ran: seq<nat>)
    requires state < |entries|
    ensures ran == Cleanup(entries, state, target)
  {
    hide Cleanup;
    var s := state;
    ran := [];
    CleanupStep(entries, s, target);
    while s > target && s >= 0
      invariant s < |entries| && ran + Cleanup(entries, s, target) == Cleanup(entries, state, target)
      decreases s
    {
      CleanupStep(entries, s, target);
      if entries[s].action != 0 {
        ran := ran + [s];
      }
      var next := entries[s].toState;
      if next >= s {
        return;
      }
      s := next;
    }
    CleanupStep(entries, s, target);
  }

  /** The handler's own loop over the unwind map, which checks its bounds: for a state in the map it does
      what `unwind_to_state` does with target -1, and outside it nothing. */
  method UnwindPass(entries: seq<Entry>, state: int) returns (ran: seq<nat>)
    ensures ran == if state < |entries| then Cleanup(entries, state, -1) else []
  {
    hide Cleanup;
    ran := [];
    if state >= |entries| {
      return;
    }
    var us := state;
    while us >= 0 && us < |entries|
      invariant us < |entries| && ran + Cleanup(entries, us, -1) == Cleanup(entries, state, -1)
      decreases us
    {
      CleanupStep(entries, us, -1);
      if entries[us].action != 0 {
        ran := ran + [us];
      }
      var next := entries[us].toState;
      if next >= us {
        return;
      }
      us := next;
    }
    CleanupStep(entries, us, -1);
  }

  /** The state of an address: that of the last leading entry at or below it, -1 for none. */
  method CurrentState(ips: seq<IpEntry>, rva: nat) returns (state: int, n: nat)
    ensures n <= |ips| && (forall k | 0 <= k < n :: ips[k].ip <= rva) && (n < |ips| ==> ips[n].ip > rva)
    ensures state == if n == 0 then -1 else ips[n - 1].state
  {
    state, n := -1, 0;
    while n < |ips|
      invariant n <= |ips| && (forall k | 0 <= k < n :: ips[k].ip <= rva)
      invariant state == if n == 0 then -1 else ips[n - 1].state
    {
      if ips[n].ip > rva {
        return;
      }
      state, n := ips[n].state, n + 1;
    }
  }

  /** In a map sorted by address, that entry is the one with the greatest address at or below. */
  lemma GreatestAtOrBelow(ips: seq<IpEntry>, rva: nat, n: nat, k: nat)
    requires forall i, j | 0 <= i < j < |ips| :: ips[i].ip <= ips[j].ip
    requires n <= |ips| && (forall i | 0 <= i < n :: ips[i].ip <= rva) && (n < |ips| ==> ips[n].ip > rva) && k < |ips|
    ensures ips[k].ip <= rva <==> k < n
    ensures k < n ==> ips[k].ip <= ips[n - 1].ip
  {
  }

  predicate Takes(clause: nat, types: seq<nat>) { clause == 0 || clause in types }

  ghost predicate Handles(blocks: seq<TryBlock>, state: int, types: seq<nat>, t: nat, c: nat) {
    t < |blocks| && blocks[t].low <= state <= blocks[t].high && c < |blocks[t].catches| && Takes(blocks[t].catches[c], types)
  }

  ghost predicate FirstHandler(blocks: seq<TryBlock>, state: int, types: seq<nat>, t: nat, c: nat) {
    && Handles(blocks, state, types, t, c)
    && forall t': nat, c': nat {:trigger Handles(blocks, state, types, t', c')} |
         Handles(blocks, state, types, t', c') :: t < t' || (t == t' && c <= c')
  }

  /** A catch in this state unwinds from it, and the unwind map is read there without a bounds check. */
  ghost predicate InRange(entries: seq<Entry>, blocks: seq<TryBlock>, state: int, types: seq<nat>) {
    state < |entries| || forall t: nat, c: nat :: !Handles(blocks, state, types, t, c)
  }

  /** A C++ throw: the first try block around the state with a clause for one of the thrown types, its
      first such clause, and before it the destructors of the states of the body. */
  method Throw(entries: seq<Entry>, blocks: seq<TryBlock>, state: int, types: seq<nat>)
    returns (o: Outcome, ran: seq<nat>)
    requires InRange(entries, blocks, state, types)
    ensures o.Search? ==> ran == [] && forall t: nat, c: nat :: !Handles(blocks, state, types, t, c)
    ensures o.Caught? ==>
      && state < |entries| && FirstHandler(blocks, state, types, o.block, o.clause)
      && ran == Cleanup(entries, state, blocks[o.block].low - 1)
  {
    hide Cleanup;
    o, ran := Search, [];
    for t := 0 to |blocks|
      invariant forall t': nat, c: nat {:trigger Handles(blocks, state, types, t', c)} |
          t' < t :: !Handles(blocks, state, types, t', c)
    {
      var tb := blocks[t];
      if tb.low <= state <= tb.high {
        for c := 0 to |tb.catches|
          invariant forall c': nat {:trigger Handles(blocks, state, types, t, c')} |
              c' < c :: !Handles(blocks, state, types, t, c')
        {
          if Takes(tb.catches[c], types) {
            assert Handles(blocks, state, types, t, c);
            ran := UnwindToState(entries, state, tb.low - 1);
            o := Caught(t, c);
            return;
          }
        }
      }
    }
  }

  /** `__CxxFrameHandler3`: an unwind, or an exception of another kind, runs the frame's destructors and
      searches on; a C++ throw looks for a catch. */
  method FrameHandler(entries: seq<Entry>, blocks: seq<TryBlock>, ips: seq<IpEntry>, rva: nat, unwinding: bool,
                      cxx: bool, types: seq<nat>) returns (o: Outcome, ran: seq<nat>, n: nat)
    requires !unwinding && cxx ==>
      forall k {:trigger ips[k]} | 0 <= k < |ips| :: InRange(entries, blocks, ips[k].state, types)
    ensures n <= |ips| && (forall k | 0 <= k < n :: ips[k].ip <= rva) && (n < |ips| ==> ips[n].ip > rva)
    ensures
      var state := if n == 0 then -1 else ips[n - 1].state;
      if unwinding || !cxx then o == Search && ran == if state < |entries| then Cleanup(entries, state, -1) else []
      else if o.Search? then ran == [] && forall t: nat, c: nat :: !Handles(blocks, state, types, t, c)
      else
        && state < |entries| && FirstHandler(blocks, state, types, o.block, o.clause)
        && ran == Cleanup(entries, state, blocks[o.block].low - 1)
  {
    var state;
    state, n := CurrentState(ips, rva);
    if unwinding || !cxx {
      ran := UnwindPass(entries, state);
      o := Search;
    } else {
      o, ran := Throw(entries, blocks, state, types);
    }
  }
}
