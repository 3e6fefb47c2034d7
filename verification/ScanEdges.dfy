// The list of active edges, kept in the order of their crossings with the current subsample.
module ScanEdges {
  import opened ScanCoverage

  // An edge of the outline, with y growing from y0 to y1.
  datatype Edge = Edge(x0: real, y0: real, x1: real, y1: real, dir: int)

  // nsvg__addActive, over real numbers
  function Entered(e: Edge, at: real): Active
    requires e.y0 < e.y1
  {
    var slope := (e.x1 - e.x0) / (e.y1 - e.y0);
    Active((1024.0 * (e.x0 + slope * (at - e.y0))).Floor,
           if slope < 0.0 then -((1024.0 * -slope).Floor) else (1024.0 * slope).Floor, e.y1, e.dir)
  }

  // Edges that end above the subsample leave; the others move on.
  function MovedOn(z: Active, at: real): seq<Active> {
    if z.ey <= at then [] else [z.(x := z.x + z.dx)]
  }

  function Advanced(active: seq<Active>, at: real): seq<Active> {
    if active == [] then [] else Advanced(active[..|active| - 1], at) + MovedOn(active[|active| - 1], at)
  }

  method Advance(active: seq<Active>, at: real) returns (now: seq<Active>)
    ensures now == Advanced(active, at)
  {
    now := [];
    for i: nat := 0 to |active|
      invariant now == Advanced(active[..i], at)
    {
      var z := active[i];
      assert active[..i + 1][..i] == active[..i];
      if z.ey > at {
        now := now + [z.(x := z.x + z.dx)];
      }
    }
    assert active[..|active|] == active;
  }

  // ----- Resorting -----

  function Swapped(s: seq<Active>, i: nat): seq<Active>
    requires i + 1 < |s|
  {
    s[i := s[i + 1]][i + 1 := s[i]]
  }

  lemma SwapPermutes(s: seq<Active>, i: nat)
    requires i + 1 < |s|
    ensures multiset(Swapped(s, i)) == multiset(s)
  {
  }

  function Below(x: int, s: seq<Active>): nat {
    if s == [] then 0 else (if s[0].x < x then 1 else 0) + Below(x, s[1..])
  }

  // Pairs in the wrong order.
  function Inversions(s: seq<Active>): nat {
    if s == [] then 0 else Below(s[0].x, s[1..]) + Inversions(s[1..])
  }

  lemma {:induction false} SwapBelow(x: int, s: seq<Active>, i: nat)
    requires i + 1 < |s|
    ensures Below(x, Swapped(s, i)) == Below(x, s)
  {
    var t := Swapped(s, i);
    if i == 0 {
      assert t[1..][1..] == s[1..][1..];
    } else {
      assert t[1..] == Swapped(s[1..], i - 1);
      SwapBelow(x, s[1..], i - 1);
    }
  }

  // Swapping neighbours in the wrong order leaves one such pair less.
  lemma {:induction false} SwapHelps(s: seq<Active>, i: nat)
    requires i + 1 < |s| && s[i].x > s[i + 1].x
    ensures Inversions(Swapped(s, i)) == Inversions(s) - 1
  {
    hide Below;
    var t := Swapped(s, i);
    if i == 0 {
      assert t[1..][1..] == s[1..][1..];
      FrontPair(s[0], s[1], s[2..]);
      assert s == [s[0], s[1]] + s[2..] && t == [s[1], s[0]] + s[2..];
    } else {
      assert t[1..] == Swapped(s[1..], i - 1);
      SwapHelps(s[1..], i - 1);
      SwapBelow(s[0].x, s[1..], i - 1);
    }
  }

  lemma FrontPair(a: Active, b: Active, rest: seq<Active>)
    requires a.x > b.x
    ensures Inversions([a, b] + rest) == Inversions([b, a] + rest) + 1
  {
    var s, t := [a, b] + rest, [b, a] + rest;
    assert s[1..] == [b] + rest && t[1..] == [a] + rest;
    assert s[1..][1..] == rest && t[1..][1..] == rest;
  }

  // One pass of the bubble sort, and the loop that repeats it until nothing changes.
  method Resort(active: seq<Active>) returns (s: seq<Active>)
    ensures Sorted(s) && multiset(s) == multiset(active)
  {
    s := active;
    var changed := true;
    while changed
      invariant multiset(s) == multiset(active)
      invariant !changed ==> Sorted(s)
      decreases Inversions(s), changed
    {
      s, changed := ResortPass(s);
    }
  }

  method ResortPass(active: seq<Active>) returns (s: seq<Active>, changed: bool)
    ensures multiset(s) == multiset(active)
    ensures changed ==> Inversions(s) < Inversions(active)
    ensures !changed ==> s == active && Sorted(s)
  {
    hide Inversions;
    s, changed := active, false;
    var i := 0;
    while i + 1 < |s|
      invariant i >= 0 && |s| == |active| && multiset(s) == multiset(active)
      invariant changed ==> Inversions(s) < Inversions(active)
      invariant !changed ==> s == active && forall j :: 0 <= j < i && j + 1 < |s| ==> s[j].x <= s[j + 1].x
    {
      if s[i].x > s[i + 1].x {
        SwapPermutes(s, i);
        SwapHelps(s, i);
        s := s[i := s[i + 1]][i + 1 := s[i]];
        changed := true;
      }
      i := i + 1;
    }
    if !changed { StepwiseSorted(s); }
  }

  lemma {:induction false} StepwiseSorted(s: seq<Active>)
    requires forall j :: 0 <= j && j + 1 < |s| ==> s[j].x <= s[j + 1].x
    ensures Sorted(s)
  {
    if |s| > 1 {
      StepwiseSorted(s[1..]);
      forall i, j | 0 <= i < j < |s|
        ensures s[i].x <= s[j].x
      {
        assert s[1..][j - 1] == s[j];
        if i > 0 { assert s[1..][i - 1] == s[i]; } else { assert s[1..][0] == s[1]; }
      }
    }
  }

  // ----- Entering -----

  // `all` holds the entries of a and of b, in some order.
  ghost predicate Joined(all: seq<Active>, a: seq<Active>, b: seq<Active>) {
    multiset(all) == multiset(a) + multiset(b)
  }

  lemma JoinedInside(l: seq<Active>, z: Active, r: seq<Active>)
    ensures Joined(l + [z] + r, l + r, [z])
  {
  }

  lemma JoinedMore(was: seq<Active>, now: seq<Active>, a: seq<Active>, b: seq<Active>, z: Active)
    requires Joined(was, a, b) && Joined(now, was, [z])
    ensures Joined(now, a, b + [z])
  {
  }

  lemma JoinedNothing(a: seq<Active>)
    ensures Joined(a, a, [])
  {
  }

  // The new edge goes in front of the first one that is not left of it, but behind the head
  // unless it is left of that.
  method InsertEdge(active: seq<Active>, z: Active) returns (now: seq<Active>)
    requires Sorted(active)
    ensures Sorted(now) && Joined(now, active, [z])
  {
    hide Joined, Sorted;
    var p := 0;
    if active == [] {
      now := [z];
    } else if z.x < active[0].x {
      now := [z] + active;
    } else {
      while p + 1 < |active| && active[p + 1].x < z.x
        invariant 0 <= p < |active| && active[p].x <= z.x
      {
        p := p + 1;
      }
      p := p + 1;
      now := active[..p] + [z] + active[p..];
    }
    assert now == active[..p] + [z] + active[p..];
    assert active == active[..p] + active[p..];
    InsertedSorted(active[..p], z, active[p..]);
    JoinedInside(active[..p], z, active[p..]);
  }

  lemma InsertedSorted(l: seq<Active>, z: Active, r: seq<Active>)
    requires Sorted(l + r) && (l != [] ==> l[|l| - 1].x <= z.x) && (r != [] ==> z.x <= r[0].x)
    ensures Sorted(l + [z] + r)
  {
    var s, t := l + r, l + [z] + r;
    forall i, j | 0 <= i < j < |t|
      ensures t[i].x <= t[j].x
    {
      var a, b := if i < |l| then i else i - 1, if j < |l| then j else j - 1;
      if i != |l| && j != |l| {
        assert t[i] == s[a] && t[j] == s[b];
      } else if j == |l| {
        assert s[i].x <= s[|l| - 1].x;
      } else {
        assert s[|l|].x <= s[j - 1].x;
      }
    }
  }

  function EnteredIf(e: Edge, at: real): seq<Active>
    requires e.y0 <= at
  {
    if e.y1 > at then [Entered(e, at)] else []
  }

  // The edges numbered from..upto-1 that reach past the subsample, as they enter it.
  function Entering(edges: seq<Edge>, from: nat, upto: nat, at: real): seq<Active>
    requires from <= upto <= |edges| && (forall i :: from <= i < upto ==> edges[i].y0 <= at)
    decreases upto
  {
    if from == upto then [] else Entering(edges, from, upto - 1, at) + EnteredIf(edges[upto - 1], at)
  }

  // Which edges have started by `at`.
  ghost predicate Started(edges: seq<Edge>, from: nat, upto: nat, at: real) {
    && from <= upto <= |edges| && (forall i :: from <= i < upto ==> edges[i].y0 <= at)
    && (upto < |edges| ==> edges[upto].y0 > at)
  }

  lemma EnteringNext(edges: seq<Edge>, from: nat, upto: nat, at: real)
    requires from <= upto < |edges| && (forall i :: from <= i <= upto ==> edges[i].y0 <= at)
    ensures Entering(edges, from, upto + 1, at) == Entering(edges, from, upto, at) + EnteredIf(edges[upto], at)
  {
  }

  method Enter(active: seq<Active>, edges: seq<Edge>, e: nat, at: real) returns (now: seq<Active>, next: nat)
    requires Sorted(active) && e <= |edges|
    ensures Started(edges, e, next, at)
    ensures Sorted(now) && Joined(now, active, Entering(edges, e, next, at))
  {
    hide Entered, Sorted, Joined, Entering;
    now, next := active, e;
    JoinedNothing(active);
    NoneEntering(edges, e, at);
    while next < |edges| && edges[next].y0 <= at
      invariant e <= next <= |edges| && forall i :: e <= i < next ==> edges[i].y0 <= at
      invariant Sorted(now) && Joined(now, active, Entering(edges, e, next, at))
    {
      EnteringNext(edges, e, next, at);
      if edges[next].y1 > at {
        ghost var was := now;
        now := InsertEdge(now, Entered(edges[next], at));
        JoinedMore(was, now, active, Entering(edges, e, next, at), Entered(edges[next], at));
      } else {
        assert Entering(edges, e, next, at) + [] == Entering(edges, e, next, at);
      }
      next := next + 1;
    }
  }

  lemma NoneEntering(edges: seq<Edge>, e: nat, at: real)
    requires e <= |edges|
    ensures Entering(edges, e, e, at) == []
  {
  }

  // One subsample's step of the list, up to the order of edges with the same position.
  ghost predicate Stepped(was: seq<Active>, now: seq<Active>, edges: seq<Edge>, e: nat, next: nat, at: real) {
    && Started(edges, e, next, at) && Sorted(now)
    && Joined(now, Advanced(was, at), Entering(edges, e, next, at))
  }

  method Step(active: seq<Active>, edges: seq<Edge>, e: nat, at: real) returns (now: seq<Active>, next: nat)
    requires e <= |edges|
    ensures Stepped(active, now, edges, e, next, at)
  {
    hide Entered, Sorted, Advanced, Entering;
    now := Advance(active, at);
    now := Resort(now);
    now, next := Enter(now, edges, e, at);
  }
}
