// Coverage of one scanline: spans between edges, in 10-bit fixed point, added to bytes.
module ScanCoverage {
  import opened Bytes

  const FIX: int := 1024
  const SUBSAMPLES: nat := 5

  // A crossing edge: position, step per subsample, last position, winding direction.
  datatype Active = Active(x: int, dx: int, ey: real, dir: int)

  datatype Rule = NonZero | EvenOdd

  datatype Span = Span(x0: int, x1: int)

  function Max(a: int, b: int): int { if a > b then a else b }

  function Min(a: int, b: int): int { if a < b then a else b }

  // How much of pixel k, in 1024ths, lies between x0 and x1.
  function Overlap(x0: int, x1: int, k: int): nat {
    Max(0, Min(x1, (k + 1) * FIX) - Max(x0, k * FIX))
  }

  // The weight that pixel k gets from the span.
  function Share(x0: int, x1: int, k: int, weight: nat): nat {
    Overlap(x0, x1, k) * weight / FIX
  }

  lemma ShareBelow(x0: int, x1: int, k: int, weight: nat)
    ensures Overlap(x0, x1, k) <= FIX
    ensures Share(x0, x1, k, weight) <= weight
    ensures Share(x0, x1, k, weight) * FIX <= Overlap(x0, x1, k) * weight
  {
    var o := Overlap(x0, x1, k);
    Products(o, FIX, weight);
    assert o * weight == o * weight / FIX * FIX + o * weight % FIX;
  }

  lemma Products(a: nat, b: nat, weight: nat)
    requires a <= b
    ensures a * weight <= b * weight
  {
  }

  // What a pixel inside, or outside, the span gets.
  lemma ShareInside(x0: int, x1: int, k: int, weight: nat)
    requires x0 <= x1
    ensures k < x0 / FIX || k > x1 / FIX ==> Share(x0, x1, k, weight) == 0
    ensures x0 / FIX < k < x1 / FIX ==> Share(x0, x1, k, weight) == weight
    ensures k == x0 / FIX < x1 / FIX ==> Share(x0, x1, k, weight) == (FIX - x0 % FIX) * weight / FIX
    ensures x0 / FIX < x1 / FIX == k ==> Share(x0, x1, k, weight) == x1 % FIX * weight / FIX
    ensures x0 / FIX == k == x1 / FIX ==> Share(x0, x1, k, weight) == (x1 - x0) * weight / FIX
  {
    if k < x0 / FIX || k > x1 / FIX {
      assert Overlap(x0, x1, k) == 0;
    } else if x0 / FIX < k < x1 / FIX {
      assert Overlap(x0, x1, k) == FIX;
    }
  }

  function Added(was: Byte, more: int): Byte {
    (was + more) % 256
  }

  // nsvg__fillScanline: every pixel gets its share of the span, modulo a byte.
  method FillScanline(scanline: array<Byte>, len: nat, x0: int, x1: int, maxWeight: nat, xmin: int, xmax: int)
    returns (lo: int, hi: int)
    requires len <= scanline.Length && x0 <= x1 && maxWeight < 256
    modifies scanline
    ensures lo == Min(xmin, x0 / FIX) && hi == Max(xmax, x1 / FIX)
    ensures forall k :: 0 <= k < len ==> scanline[k] == Added(old(scanline[k]), Share(x0, x1, k, maxWeight))
    ensures forall k :: len <= k < scanline.Length ==> scanline[k] == old(scanline[k])
  {
    hide Share, Added;
    var i, j := x0 / FIX, x1 / FIX;
    lo, hi := xmin, xmax;
    if i < lo { lo := i; }
    if j > hi { hi := j; }
    AllShares(x0, x1, maxWeight);
    NothingAdded();
    if i < len && j >= 0 {
      if i == j {
        scanline[i] := Added(scanline[i], (x1 - x0) * maxWeight / FIX);
      } else {
        if i >= 0 {
          scanline[i] := Added(scanline[i], (FIX - x0 % FIX) * maxWeight / FIX);
        } else {
          i := -1;
        }
        if j < len {
          scanline[j] := Added(scanline[j], x1 % FIX * maxWeight / FIX);
        } else {
          j := len;
        }
        ghost var before := scanline[..];
        i := i + 1;
        ghost var start := i;
        while i < j
          invariant start <= i <= j
          invariant forall k :: 0 <= k < scanline.Length ==>
            scanline[k] == if start <= k < i then Added(before[k], maxWeight) else before[k]
        {
          scanline[i] := Added(scanline[i], maxWeight);
          i := i + 1;
        }
      }
    }
  }

  lemma AllShares(x0: int, x1: int, weight: nat)
    requires x0 <= x1
    ensures forall k {:trigger Share(x0, x1, k, weight)} :: ShareFacts(x0, x1, k, weight)
  {
    hide Share;
    forall k
      ensures ShareFacts(x0, x1, k, weight)
    {
      ShareInside(x0, x1, k, weight);
    }
  }

  lemma NothingAdded()
    ensures forall b: Byte :: Added(b, 0) == b
  {
  }

  ghost predicate ShareFacts(x0: int, x1: int, k: int, weight: nat) {
    && (k < x0 / FIX || k > x1 / FIX ==> Share(x0, x1, k, weight) == 0)
    && (x0 / FIX < k < x1 / FIX ==> Share(x0, x1, k, weight) == weight)
    && (k == x0 / FIX < x1 / FIX ==> Share(x0, x1, k, weight) == (FIX - x0 % FIX) * weight / FIX)
    && (x0 / FIX < x1 / FIX == k ==> Share(x0, x1, k, weight) == x1 % FIX * weight / FIX)
    && (x0 / FIX == k == x1 / FIX ==> Share(x0, x1, k, weight) == (x1 - x0) * weight / FIX)
  }

  // ----- Spans -----

  // The spans that the edges from here on close, with winding w open since x0.
  function SpansFrom(edges: seq<Active>, rule: Rule, x0: int, w: int): seq<Span> {
    if edges == [] then []
    else
      var e, rest := edges[0], edges[1..];
      if w == 0 then SpansFrom(rest, rule, e.x, if rule.NonZero? then e.dir else 1)
      else
        var now := if rule.NonZero? then w + e.dir else 0;
        (if now == 0 then [Span(x0, e.x)] else []) + SpansFrom(rest, rule, x0, now)
  }

  function Spans(edges: seq<Active>, rule: Rule): seq<Span> {
    SpansFrom(edges, rule, 0, 0)
  }

  function ShareSum(spans: seq<Span>, k: int, weight: nat): nat {
    if spans == [] then 0 else Share(spans[0].x0, spans[0].x1, k, weight) + ShareSum(spans[1..], k, weight)
  }

  function OverlapSum(spans: seq<Span>, k: int): nat {
    if spans == [] then 0 else Overlap(spans[0].x0, spans[0].x1, k) + OverlapSum(spans[1..], k)
  }

  predicate Sorted(edges: seq<Active>) {
    forall i, j :: 0 <= i < j < |edges| ==> edges[i].x <= edges[j].x
  }

  // The part of pixel k at or behind `from`.
  function Room(from: int, k: int): nat {
    Max(0, Min(FIX, (k + 1) * FIX - from))
  }

  lemma RoomShrinks(a: int, b: int, k: int)
    requires a <= b
    ensures Room(b, k) <= Room(a, k)
    ensures Overlap(a, b, k) + Room(b, k) <= Room(a, k)
  {
  }

  lemma SortedTail(edges: seq<Active>)
    requires Sorted(edges) && edges != []
    ensures Sorted(edges[1..]) && (|edges| > 1 ==> edges[0].x <= edges[1..][0].x)
  {
  }

  // Between sorted edges, spans are disjoint: together they take no more than the pixel has left.
  lemma {:induction false} SpansFit(edges: seq<Active>, rule: Rule, x0: int, w: int, from: int, k: int)
    requires Sorted(edges) && (edges != [] ==> from <= edges[0].x) && (w != 0 ==> from == x0)
    ensures OverlapSum(SpansFrom(edges, rule, x0, w), k) <= Room(from, k)
    decreases |edges|
  {
    hide Room, Overlap, Sorted;
    if edges != [] {
      var e, rest := edges[0], edges[1..];
      SortedTail(edges);
      RoomShrinks(from, e.x, k);
      if w == 0 {
        SpansFit(rest, rule, e.x, if rule.NonZero? then e.dir else 1, e.x, k);
      } else {
        var now := if rule.NonZero? then w + e.dir else 0;
        var more := SpansFrom(rest, rule, x0, now);
        if now == 0 {
          SpansFit(rest, rule, x0, 0, e.x, k);
          assert ([Span(x0, e.x)] + more)[1..] == more;
        } else {
          assert [] + more == more;
          SpansFit(rest, rule, x0, now, x0, k);
        }
      }
    }
  }

  predicate Forward(spans: seq<Span>) {
    forall i :: 0 <= i < |spans| ==> spans[i].x0 <= spans[i].x1
  }

  // And each of them runs from left to right.
  lemma {:induction false} SpansForward(edges: seq<Active>, rule: Rule, x0: int, w: int)
    requires Sorted(edges) && (w != 0 && edges != [] ==> x0 <= edges[0].x)
    ensures Forward(SpansFrom(edges, rule, x0, w))
    decreases |edges|
  {
    hide Sorted;
    if edges != [] {
      var e, rest := edges[0], edges[1..];
      SortedTail(edges);
      if w == 0 {
        SpansForward(rest, rule, e.x, if rule.NonZero? then e.dir else 1);
      } else {
        SpansForward(rest, rule, x0, if rule.NonZero? then w + e.dir else 0);
      }
    }
  }

  lemma {:induction false} ShareWithin(spans: seq<Span>, k: int, weight: nat)
    ensures ShareSum(spans, k, weight) * FIX <= OverlapSum(spans, k) * weight
  {
    hide Share, Overlap;
    if spans != [] {
      ShareWithin(spans[1..], k, weight);
      ShareBelow(spans[0].x0, spans[0].x1, k, weight);
      Distributes(Overlap(spans[0].x0, spans[0].x1, k), OverlapSum(spans[1..], k), weight);
    }
  }

  lemma Distributes(a: nat, b: nat, weight: nat)
    ensures (a + b) * weight == a * weight + b * weight
  {
  }

  // One subsample adds at most its weight to any pixel.
  lemma SubsampleBudget(edges: seq<Active>, rule: Rule, k: int, weight: nat)
    requires Sorted(edges)
    ensures ShareSum(Spans(edges, rule), k, weight) <= weight
  {
    hide SpansFrom;
    SpansFit(edges, rule, 0, 0, if edges == [] then 0 else edges[0].x, k);
    ShareWithin(Spans(edges, rule), k, weight);
    Products(OverlapSum(Spans(edges, rule), k), FIX, weight);
  }

  // The pixels that the spans touch are within what the fill reports.
  ghost predicate Reached(spans: seq<Span>, lo: int, hi: int) {
    forall i :: 0 <= i < |spans| ==> lo <= spans[i].x0 / FIX && spans[i].x1 / FIX <= hi
  }

  lemma {:induction false} UnreachedIsBare(spans: seq<Span>, lo: int, hi: int, k: int, weight: nat)
    requires Reached(spans, lo, hi) && (k < lo || k > hi) && Forward(spans)
    ensures ShareSum(spans, k, weight) == 0
  {
    hide Share;
    if spans != [] {
      ShareInside(spans[0].x0, spans[0].x1, k, weight);
      UnreachedIsBare(spans[1..], lo, hi, k, weight);
    }
  }

  lemma {:induction false} ShareSumAppend(a: seq<Span>, s: Span, k: int, weight: nat)
    ensures ShareSum(a + [s], k, weight) == ShareSum(a, k, weight) + Share(s.x0, s.x1, k, weight)
  {
    hide Share;
    if a == [] {
      assert a + [s] == [s] && [s][1..] == [];
    } else {
      ShareSumAppend(a[1..], s, k, weight);
      assert (a + [s])[1..] == a[1..] + [s];
    }
  }

  // Every pixel of the line has its shares of the spans added, modulo a byte.
  ghost predicate Painted(now: seq<Byte>, was: seq<Byte>, len: nat, spans: seq<Span>, weight: nat) {
    && |now| == |was| && len <= |now|
    && (forall k: nat {:trigger now[k]} :: k < len ==> now[k] == Added(was[k], ShareSum(spans, k, weight)))
    && (forall k: nat {:trigger now[k]} :: len <= k < |now| ==> now[k] == was[k])
  }

  // One more span.
  method FillSpan(scanline: array<Byte>, len: nat, x0: int, x1: int, maxWeight: nat, xmin: int, xmax: int,
                  ghost was: seq<Byte>, ghost done: seq<Span>)
    returns (lo: int, hi: int)
    requires len <= scanline.Length && x0 <= x1 && maxWeight < 256
    requires Painted(scanline[..], was, len, done, maxWeight) && Reached(done, xmin, xmax)
    modifies scanline
    ensures lo <= xmin && hi >= xmax && Reached(done + [Span(x0, x1)], lo, hi)
    ensures Painted(scanline[..], was, len, done + [Span(x0, x1)], maxWeight)
  {
    hide Share, ShareSum, Added;
    ghost var before := scanline[..];
    lo, hi := FillScanline(scanline, len, x0, x1, maxWeight, xmin, xmax);
    forall k: nat | k < len
      ensures scanline[k] == Added(was[k], ShareSum(done + [Span(x0, x1)], k, maxWeight))
    {
      ShareSumAppend(done, Span(x0, x1), k, maxWeight);
      assert before[k] == Added(was[k], ShareSum(done, k, maxWeight));
      AddedTwice(was[k], ShareSum(done, k, maxWeight), Share(x0, x1, k, maxWeight));
    }
    forall k: nat | len <= k < scanline.Length
      ensures scanline[k] == was[k]
    {
      assert before[k] == was[k];
    }
  }

  // nsvg__fillActiveEdges: every pixel gets its shares of all spans.
  method FillActiveEdges(scanline: array<Byte>, len: nat, edges: seq<Active>, maxWeight: nat, xmin: int, xmax: int, rule: Rule)
    returns (lo: int, hi: int)
    requires len <= scanline.Length && maxWeight < 256 && Sorted(edges)
    modifies scanline
    ensures lo <= xmin && hi >= xmax && Reached(Spans(edges, rule), lo, hi)
    ensures Painted(scanline[..], old(scanline[..]), len, Spans(edges, rule), maxWeight)
  {
    hide Painted, SpansFrom, Reached;
    var x0, w := 0, 0;
    lo, hi := xmin, xmax;
    ghost var was := scanline[..];
    ghost var done: seq<Span> := [];
    UnpaintedLine(was, len, maxWeight, lo, hi);
    assert edges[0..] == edges;
    var i := 0;
    while i < |edges|
      invariant 0 <= i <= |edges|
      invariant w != 0 ==> forall j :: i <= j < |edges| ==> x0 <= edges[j].x
      invariant Spans(edges, rule) == done + SpansFrom(edges[i..], rule, x0, w)
      invariant lo <= xmin && hi >= xmax && Reached(done, lo, hi)
      invariant Painted(scanline[..], was, len, done, maxWeight)
    {
      var e := edges[i];
      NextSpans(edges, i, rule, x0, w);
      if w == 0 {
        x0 := e.x;
        w := if rule.NonZero? then w + e.dir else 1;
      } else {
        var x1 := e.x;
        w := if rule.NonZero? then w + e.dir else 0;
        if w == 0 {
          lo, hi := FillSpan(scanline, len, x0, x1, maxWeight, lo, hi, was, done);
          done := done + [Span(x0, x1)];
        }
      }
      i := i + 1;
    }
    NoMoreSpans(edges, rule, x0, w);
    assert Spans(edges, rule) == done;
  }

  lemma NextSpans(edges: seq<Active>, i: nat, rule: Rule, x0: int, w: int)
    requires i < |edges|
    ensures var e := edges[i];
      var now := if rule.NonZero? then w + e.dir else if w == 0 then 1 else 0;
      SpansFrom(edges[i..], rule, x0, w) ==
        if w == 0 then SpansFrom(edges[i + 1..], rule, e.x, now)
        else (if now == 0 then [Span(x0, e.x)] else []) + SpansFrom(edges[i + 1..], rule, x0, now)
  {
    assert edges[i..][1..] == edges[i + 1..];
  }

  lemma NoMoreSpans(edges: seq<Active>, rule: Rule, x0: int, w: int)
    ensures SpansFrom(edges[|edges|..], rule, x0, w) == []
  {
  }

  lemma UnpaintedLine(bytes: seq<Byte>, len: nat, weight: nat, lo: int, hi: int)
    requires len <= |bytes|
    ensures Painted(bytes, bytes, len, [], weight) && Reached([], lo, hi)
  {
  }

  lemma AddedTwice(was: Byte, a: nat, b: nat)
    ensures Added(Added(was, a), b) == Added(was, a + b)
  {
  }
}
