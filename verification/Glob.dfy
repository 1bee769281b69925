/** `host_glob` (kernel/src/syscalls.rs): the recursive wildcard matcher, against the language of a
    pattern. */
module Glob {
  import opened Bytes

  const STAR: byte := 0x2A
  const QUERY: byte := 0x3F

  function Lower(b: byte): byte { if 0x41 <= b <= 0x5A then b + 32 else b }

  // --- the language of a pattern ------------------------------------------------------

  /** A piece of a name stands for one byte of a pattern. */
  ghost predicate Stands(p: byte, piece: seq<byte>) {
    p == STAR || (|piece| == 1 && (p == QUERY || Lower(p) == Lower(piece[0])))
  }

  function Concat(pieces: seq<seq<byte>>): seq<byte> {
    if pieces == [] then [] else pieces[0] + Concat(pieces[1..])
  }

  /** The name cut into one piece for each byte of the pattern. */
  ghost predicate Cuts(pat: seq<byte>, pieces: seq<seq<byte>>, name: seq<byte>) {
    && |pieces| == |pat| && Concat(pieces) == name
    && forall i {:trigger pieces[i]} | 0 <= i < |pat| :: Stands(pat[i], pieces[i])
  }

  ghost predicate Matches(pat: seq<byte>, name: seq<byte>) { exists pieces :: Cuts(pat, pieces, name) }

  lemma CutsHead(pat: seq<byte>, pieces: seq<seq<byte>>, name: seq<byte>)
    requires pat != [] && Cuts(pat, pieces, name)
    ensures |pieces[0]| <= |name| && pieces[0] == name[..|pieces[0]|] && Stands(pat[0], pieces[0])
    ensures Cuts(pat[1..], pieces[1..], name[|pieces[0]|..])
  {
  }

  lemma CutsJoin(p: byte, rest: seq<byte>, piece: seq<byte>, pieces: seq<seq<byte>>, name: seq<byte>)
    requires Stands(p, piece) && Cuts(rest, pieces, name)
    ensures Cuts([p] + rest, [piece] + pieces, piece + name)
  {
    var more := [piece] + pieces;
    assert more[0] == piece && more[1..] == pieces;
  }

  /** A pattern matches when its first byte stands for some start of the name and the rest for the rest. */
  lemma MatchesStep(pat: seq<byte>, name: seq<byte>)
    requires pat != []
    ensures Matches(pat, name)
       <==> exists k {:trigger name[k..]} :: 0 <= k <= |name| && Stands(pat[0], name[..k]) && Matches(pat[1..], name[k..])
  {
    if Matches(pat, name) {
      var pieces :| Cuts(pat, pieces, name);
      CutsHead(pat, pieces, name);
      var k := |pieces[0]|;
      assert Stands(pat[0], name[..k]) && Matches(pat[1..], name[k..]);
    }
    if k :| 0 <= k <= |name| && Stands(pat[0], name[..k]) && Matches(pat[1..], name[k..]) {
      var pieces :| Cuts(pat[1..], pieces, name[k..]);
      CutsJoin(pat[0], pat[1..], name[..k], pieces, name[k..]);
      assert [pat[0]] + pat[1..] == pat && name[..k] + name[k..] == name;
    }
  }

  lemma MatchesEmpty(name: seq<byte>)
    ensures Matches([], name) <==> name == []
  {
    if name == [] {
      assert Cuts([], [], []);
    }
  }

  lemma MatchesOne(pat: seq<byte>, name: seq<byte>)
    requires pat != [] && pat[0] != STAR
    ensures Matches(pat, name)
       <==> name != [] && (pat[0] == QUERY || Lower(pat[0]) == Lower(name[0])) && Matches(pat[1..], name[1..])
  {
    MatchesStep(pat, name);
    if Matches(pat, name) {
      var k :| 0 <= k <= |name| && Stands(pat[0], name[..k]) && Matches(pat[1..], name[k..]);
      assert k == 1 && name[..1][0] == name[0];
    } else if name != [] {
      assert name[..1][0] == name[0];
      assert !(0 <= 1 <= |name| && Stands(pat[0], name[..1]) && Matches(pat[1..], name[1..]));
    }
  }

  lemma MatchesStar(pat: seq<byte>, name: seq<byte>)
    requires pat != [] && pat[0] == STAR
    ensures Matches(pat, name) <==> exists k {:trigger name[k..]} :: 0 <= k <= |name| && Matches(pat[1..], name[k..])
  {
    MatchesStep(pat, name);
  }

  // --- the matcher --------------------------------------------------------------------------

  /** The inner function: accepts exactly the names of the pattern's language. */
  method Accepts(pat: seq<byte>, name: seq<byte>) returns (ok: bool)
    ensures ok == Matches(pat, name)
    decreases |pat|
  {
    hide Matches;
    if pat == [] {
      MatchesEmpty(name);
      return name == [];
    }
    var rest := pat[1..];
    if pat[0] == STAR {
      MatchesStar(pat, name);
      var k := 0;
      assert name[0..] == name;
      while true
        invariant k <= |name| && forall j {:trigger name[j..]} | 0 <= j < k :: !Matches(rest, name[j..])
        decreases |name| - k
      {
        ok := Accepts(rest, name[k..]);
        if ok {
          return;
        }
        if k == |name| {
          return false;
        }
        k := k + 1;
      }
    } else {
      MatchesOne(pat, name);
      if name == [] {
        return false;
      }
      if pat[0] == QUERY || Lower(pat[0]) == Lower(name[0]) {
        ok := Accepts(rest, name[1..]);
      } else {
        ok := false;
      }
    }
  }

  /** `host_glob`: an empty pattern accepts everything. */
  method HostGlob(pat: seq<byte>, name: seq<byte>) returns (ok: bool)
    ensures ok == (pat == [] || Matches(pat, name))
  {
    ok := Accepts(pat, name);
    ok := pat == [] || ok;
  }

  // --- what never changes the answer ---------------------------------------------------------

  /** A run of stars is one star, anywhere in a pattern. */
  lemma {:induction false} StarsCollapse(a: seq<byte>, b: seq<byte>, name: seq<byte>)
    ensures Matches(a + [STAR, STAR] + b, name) <==> Matches(a + [STAR] + b, name)
    decreases |a|
  {
    var two, one := a + [STAR, STAR] + b, a + [STAR] + b;
    if a == [] {
      assert two[1..] == one;
      TwoStars(two, one, b, name);
    } else {
      assert two[1..] == a[1..] + [STAR, STAR] + b && one[1..] == a[1..] + [STAR] + b;
      MatchesStep(two, name);
      MatchesStep(one, name);
      hide Matches;
      forall k | 0 <= k <= |name|
        ensures Matches(two[1..], name[k..]) <==> Matches(one[1..], name[k..])
      {
        StarsCollapse(a[1..], b, name[k..]);
      }
    }
  }

  lemma TwoStars(two: seq<byte>, one: seq<byte>, b: seq<byte>, name: seq<byte>)
    requires two != [] && one != [] && two[0] == one[0] == STAR && two[1..] == one && one[1..] == b
    ensures Matches(two, name) <==> Matches(one, name)
  {
    hide Matches;
    MatchesStar(two, name);
    MatchesStar(one, name);
    assert name[0..] == name;
    if Matches(two, name) {
      var k :| 0 <= k <= |name| && Matches(one, name[k..]);
      MatchesStar(one, name[k..]);
      var j :| 0 <= j <= |name[k..]| && Matches(b, name[k..][j..]);
      assert name[k..][j..] == name[k + j..];
    }
  }

  /** The same byte, or the two cases of one of the letters A to Z. */
  ghost predicate SameLetter(a: byte, b: byte) {
    a == b || (0x41 <= a <= 0x5A && b == a + 0x20) || (0x41 <= b <= 0x5A && a == b + 0x20)
  }

  ghost predicate SameButCase(a: seq<byte>, b: seq<byte>) {
    |a| == |b| && forall i | 0 <= i < |a| :: SameLetter(a[i], b[i])
  }

  lemma LowerIs(a: byte, b: byte)
    ensures Lower(a) == Lower(b) <==> SameLetter(a, b)
  {}

  /** A pattern without wildcards matches exactly the names that differ from it in case only. */
  lemma {:induction false} LiteralMatches(pat: seq<byte>, name: seq<byte>)
    requires STAR !in pat && QUERY !in pat
    ensures Matches(pat, name) <==> SameButCase(pat, name)
    decreases |pat|
  {
    hide Matches, Lower;
    if pat == [] {
      MatchesEmpty(name);
    } else {
      MatchesOne(pat, name);
      if name != [] {
        LowerIs(pat[0], name[0]);
        LiteralMatches(pat[1..], name[1..]);
        SameCaseStep(pat, name);
      }
    }
  }

  lemma SameCaseStep(a: seq<byte>, b: seq<byte>)
    requires a != [] && b != []
    ensures SameButCase(a, b) <==> SameLetter(a[0], b[0]) && SameButCase(a[1..], b[1..])
  {
    if SameLetter(a[0], b[0]) && SameButCase(a[1..], b[1..]) {
      forall i | 0 <= i < |a|
        ensures SameLetter(a[i], b[i])
      {
        assert i > 0 ==> a[1..][i - 1] == a[i] && b[1..][i - 1] == b[i];
      }
    }
  }

  /** A pattern of question marks matches exactly the names of its length. */
  lemma {:induction false} QueriesCount(pat: seq<byte>, name: seq<byte>)
    requires forall i | 0 <= i < |pat| :: pat[i] == 0x3F
    ensures Matches(pat, name) <==> |name| == |pat|
    decreases |pat|
  {
    hide Matches;
    if pat == [] {
      MatchesEmpty(name);
    } else {
      MatchesOne(pat, name);
      if name != [] {
        QueriesCount(pat[1..], name[1..]);
      }
    }
  }

  /** A name starts with `a` and ends with `b`, without overlap, up to case. */
  ghost predicate Around(a: seq<byte>, b: seq<byte>, name: seq<byte>) {
    |a| + |b| <= |name| && SameButCase(a, name[..|a|]) && SameButCase(b, name[|name| - |b|..])
  }

  /** A star between two wildcard-free texts matches the names that start with the one and end with the other, without
      overlap. */
  lemma {:induction false} StarBetween(a: seq<byte>, b: seq<byte>, name: seq<byte>)
    requires STAR !in a && QUERY !in a && STAR !in b && QUERY !in b
    ensures Matches(a + [0x2A] + b, name) <==> Around(a, b, name)
    decreases |a|
  {
    hide *;
    var pat := a + [0x2A] + b;
    if a == [] {
      assert pat == [0x2A] + b;
      StarFirst(b, name);
      BeforeNothing(a, b, name);
    } else {
      assert pat == [a[0]] + (a[1..] + [0x2A] + b);
      OneFirst(a[0], a[1..] + [0x2A] + b, name);
      if name != [] {
        StarBetween(a[1..], b, name[1..]);
      }
      OneMore(a, b, name);
    }
  }

  lemma BeforeNothing(a: seq<byte>, b: seq<byte>, name: seq<byte>)
    requires a == []
    ensures Around(a, b, name) <==> |b| <= |name| && SameButCase(b, name[|name| - |b|..])
  {}

  lemma OneMore(a: seq<byte>, b: seq<byte>, name: seq<byte>)
    requires a != []
    ensures Around(a, b, name) <==> name != [] && SameLetter(a[0], name[0]) && Around(a[1..], b, name[1..])
  {
    hide SameButCase, SameLetter;
    if |a| + |b| <= |name| {
      SameCaseStep(a, name[..|a|]);
      assert name[..|a|][1..] == name[1..][..|a| - 1];
      assert name[1..][|name[1..]| - |b|..] == name[|name| - |b|..];
    }
  }

  lemma OneFirst(p: byte, rest: seq<byte>, name: seq<byte>)
    requires p != STAR && p != QUERY
    ensures Matches([p] + rest, name) <==> name != [] && SameLetter(p, name[0]) && Matches(rest, name[1..])
  {
    hide Matches, Lower, SameLetter;
    var pat := [p] + rest;
    assert pat[0] == p && pat[1..] == rest;
    MatchesOne(pat, name);
    if name != [] {
      LowerIs(p, name[0]);
    }
  }

  lemma StarFirst(b: seq<byte>, name: seq<byte>)
    requires STAR !in b && QUERY !in b
    ensures Matches([0x2A] + b, name) <==> |b| <= |name| && SameButCase(b, name[|name| - |b|..])
  {
    hide Matches, SameLetter;
    var pat := [0x2A] + b;
    assert pat[0] == STAR && pat[1..] == b;
    MatchesStar(pat, name);
    forall k {:trigger name[k..]} | 0 <= k <= |name|
      ensures Matches(b, name[k..]) <==> SameButCase(b, name[k..])
    {
      LiteralMatches(b, name[k..]);
    }
  }

  lemma SameStands(p: byte, p': byte, piece: seq<byte>, piece': seq<byte>)
    requires SameLetter(p, p') && SameButCase(piece, piece') && Stands(p, piece)
    ensures Stands(p', piece')
  {
    LowerIs(p, p');
    if p != STAR {
      LowerIs(piece[0], piece'[0]);
    }
  }

  /** Changing the case of ASCII letters in the pattern or the name never changes the answer. */
  lemma {:induction false} CaseIgnored(pat: seq<byte>, pat': seq<byte>, name: seq<byte>, name': seq<byte>)
    requires SameButCase(pat, pat') && SameButCase(name, name') && Matches(pat, name)
    ensures Matches(pat', name')
    decreases |pat|
  {
    if pat == [] {
      MatchesEmpty(name);
      MatchesEmpty(name');
    } else {
      MatchesStep(pat, name);
      MatchesStep(pat', name');
      hide Matches;
      var k :| 0 <= k <= |name| && Stands(pat[0], name[..k]) && Matches(pat[1..], name[k..]);
      SameStands(pat[0], pat'[0], name[..k], name'[..k]);
      CaseIgnored(pat[1..], pat'[1..], name[k..], name'[k..]);
      assert Stands(pat'[0], name'[..k]);
    }
  }
}
