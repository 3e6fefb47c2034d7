// Rasterising sorted edges: five subsamples of coverage for each line, then one blend.
module ScanRaster {
  import opened Bytes
  import opened ScanCoverage
  import opened ScanEdges
  import opened ScanBlend

  const WEIGHT: nat := 51

  // ----- The active lists of all subsamples so far -----

  function ListBefore(lists: seq<seq<Active>>, i: nat): seq<Active>
    requires i <= |lists|
  {
    if i == 0 then [] else lists[i - 1]
  }

  ghost predicate TraceAt(edges: seq<Edge>, lists: seq<seq<Active>>, marks: seq<nat>, i: nat)
    requires i < |lists| && |marks| == |lists| + 1
  {
    Stepped(ListBefore(lists, i), lists[i], edges, marks[i], marks[i + 1], i as real + 0.5)
  }

  // Subsample i, at height i + 1/2, steps the list and takes in the edges from marks[i] up to marks[i + 1].
  ghost predicate Trace(edges: seq<Edge>, lists: seq<seq<Active>>, marks: seq<nat>) {
    && |marks| == |lists| + 1 && marks[0] == 0 && marks[|lists|] <= |edges|
    && forall i: nat {:trigger TraceAt(edges, lists, marks, i)} :: i < |lists| ==> TraceAt(edges, lists, marks, i)
  }

  lemma TraceGrows(edges: seq<Edge>, lists: seq<seq<Active>>, marks: seq<nat>, now: seq<Active>, next: nat)
    requires Trace(edges, lists, marks)
    requires Stepped(ListBefore(lists, |lists|), now, edges, marks[|lists|], next, |lists| as real + 0.5)
    ensures Trace(edges, lists + [now], marks + [next])
  {
    hide Stepped;
    var l, m := lists + [now], marks + [next];
    forall i: nat | i < |l|
      ensures TraceAt(edges, l, m, i)
    {
      assert ListBefore(l, i) == ListBefore(lists, i);
      if i < |lists| { assert TraceAt(edges, lists, marks, i); }
    }
    assert next <= |edges| by { StepMark(ListBefore(lists, |lists|), now, edges, marks[|lists|], next, |lists| as real + 0.5); }
  }

  lemma StepMark(was: seq<Active>, now: seq<Active>, edges: seq<Edge>, e: nat, next: nat, at: real)
    requires Stepped(was, now, edges, e, next, at)
    ensures next <= |edges| && Sorted(now)
  {
  }

  // What the subsamples of one line add to pixel k.
  function RowSum(lists: seq<seq<Active>>, rule: Rule, k: int): nat {
    if lists == [] then 0
    else RowSum(lists[..|lists| - 1], rule, k) + ShareSum(Spans(lists[|lists| - 1], rule), k, WEIGHT)
  }

  ghost predicate AllSorted(lists: seq<seq<Active>>) {
    forall i :: 0 <= i < |lists| ==> Sorted(lists[i])
  }

  // The budget: n subsamples add at most 51 n, so five of them at most 255.
  lemma {:induction false} RowBudget(lists: seq<seq<Active>>, rule: Rule, k: int)
    requires AllSorted(lists)
    ensures RowSum(lists, rule, k) <= WEIGHT * |lists|
  {
    hide ShareSum, Sorted;
    if lists != [] {
      RowBudget(lists[..|lists| - 1], rule, k);
      SubsampleBudget(lists[|lists| - 1], rule, k, WEIGHT);
    }
  }

  // The line holds the sums themselves: no byte has wrapped. What is outside lo..hi is bare.
  ghost predicate Covered(line: seq<Byte>, width: nat, lists: seq<seq<Active>>, rule: Rule, lo: int, hi: int) {
    && width <= |line|
    && (forall k: nat {:trigger line[k]} :: k < width ==> line[k] == RowSum(lists, rule, k))
    && (forall k: nat {:trigger line[k]} :: k < width && (k < lo || k > hi) ==> line[k] == 0)
  }

  lemma OneMoreCovered(was: seq<Byte>, line: seq<Byte>, width: nat, lists: seq<seq<Active>>, now: seq<Active>, rule: Rule,
                       lo: int, hi: int, lo': int, hi': int)
    requires Covered(was, width, lists, rule, lo, hi) && Painted(line, was, width, Spans(now, rule), WEIGHT)
    requires lo' <= lo && hi' >= hi && Reached(Spans(now, rule), lo', hi')
    requires AllSorted(lists) && Sorted(now) && |lists| < SUBSAMPLES
    ensures Covered(line, width, lists + [now], rule, lo', hi') && AllSorted(lists + [now])
  {
    hide ShareSum, Sorted, SpansFrom, Reached, Forward;
    assert (lists + [now])[..|lists|] == lists;
    SpansForward(now, rule, 0, 0);
    assert AllSorted(lists + [now]);
    forall k: nat | k < width
      ensures line[k] == RowSum(lists + [now], rule, k)
      ensures k < lo' || k > hi' ==> line[k] == 0
    {
      RowBudget(lists + [now], rule, k);
      assert was[k] == RowSum(lists, rule, k);
      if k < lo' || k > hi' { UnreachedIsBare(Spans(now, rule), lo', hi', k, WEIGHT); }
    }
  }

  lemma NothingCovered(line: seq<Byte>, width: nat, rule: Rule, lo: int, hi: int)
    requires width <= |line| && forall k: nat :: k < width ==> line[k] == 0
    ensures Covered(line, width, [], rule, lo, hi)
  {
  }

  lemma NoEdgesNoSpans(line: seq<Byte>, width: nat, rule: Rule, lo: int, hi: int)
    requires width <= |line|
    ensures Painted(line, line, width, Spans([], rule), WEIGHT) && Reached(Spans([], rule), lo, hi)
  {
  }

  class Rasterizer {
    const width: nat
    const height: nat
    const stride: nat
    const edges: seq<Edge>
    const scanline: array<Byte>
    const bitmap: array<Byte>

    ghost predicate Valid() {
      width <= scanline.Length && 4 * width <= stride && height * stride <= bitmap.Length && scanline != bitmap
    }

    constructor (width: nat, height: nat, stride: nat, edges: seq<Edge>, bitmap: array<Byte>)
      requires 4 * width <= stride && height * stride <= bitmap.Length
      ensures Valid() && this.bitmap == bitmap && this.edges == edges && fresh(scanline)
      ensures this.width == width && this.height == height && this.stride == stride
    {
      this.width, this.height, this.stride := width, height, stride;
      this.edges, this.bitmap := edges, bitmap;
      this.scanline := new Byte[width];
    }

    // The subsamples of line y.
    method CoverRow(y: nat, rule: Rule, active: seq<Active>, e: nat, ghost lists: seq<seq<Active>>, ghost marks: seq<nat>)
      returns (now: seq<Active>, next: nat, xmin: int, xmax: int, ghost all: seq<seq<Active>>, ghost ends: seq<nat>)
      requires Valid() && Trace(edges, lists, marks) && |lists| == SUBSAMPLES * y
      requires active == ListBefore(lists, |lists|) && e == marks[|lists|]
      modifies scanline
      ensures Trace(edges, all, ends) && |all| == SUBSAMPLES * (y + 1) && lists <= all
      ensures now == ListBefore(all, |all|) && next == ends[|all|]
      ensures Covered(scanline[..], width, all[SUBSAMPLES * y..], rule, xmin, xmax) && AllSorted(all[SUBSAMPLES * y..])
    {
      hide Covered, Stepped, Painted, SpansFrom, Reached, Trace, Sorted;
      for k := 0 to scanline.Length
        invariant forall i :: 0 <= i < k ==> scanline[i] == 0
      {
        scanline[k] := 0;
      }
      xmin, xmax := width, 0;
      now, next, all, ends := active, e, lists, marks;
      ghost var row: seq<seq<Active>> := [];
      NothingCovered(scanline[..], width, rule, xmin, xmax);
      TraceMark(edges, lists, marks);
      for s: nat := 0 to SUBSAMPLES
        invariant Trace(edges, all, ends) && all == lists + row && |row| == s && |ends| == |all| + 1
        invariant now == ListBefore(all, |all|) && next == ends[|all|] && next <= |edges|
        invariant Covered(scanline[..], width, row, rule, xmin, xmax) && AllSorted(row)
      {
        var scany := (y * SUBSAMPLES + s) as real + 0.5;
        assert |all| == y * SUBSAMPLES + s;
        ghost var line, lo, hi, last := scanline[..], xmin, xmax, next;
        now, next := Step(now, edges, next, scany);
        StepMark(ListBefore(all, |all|), now, edges, last, next, scany);
        TraceGrows(edges, all, ends, now, next);
        NoEdgesNoSpans(scanline[..], width, rule, xmin, xmax);
        if now != [] {
          xmin, xmax := FillActiveEdges(scanline, width, now, WEIGHT, xmin, xmax, rule);
        }
        OneMoreCovered(line, scanline[..], width, row, now, rule, lo, hi, xmin, xmax);
        all, ends, row := all + [now], ends + [next], row + [now];
      }
      assert all[SUBSAMPLES * y..] == row;
    }

    // nsvg__rasterizeSortedEdges for a single colour: each pixel is the colour blended over
    // what was there, weighed by the exact sum of its shares.
    method RasterizeSortedEdges(colour: Pixel, rule: Rule) returns (ghost lists: seq<seq<Active>>, ghost marks: seq<nat>)
      requires Valid()
      modifies scanline, bitmap
      ensures Trace(edges, lists, marks) && |lists| == SUBSAMPLES * height
      ensures RowsPainted(bitmap[..], old(bitmap[..]), lists, height, stride, width, rule, colour)
      ensures Untouched(bitmap[..], old(bitmap[..]), height, stride, width)
    {
      hide Untouched, Covered, Trace, RowPainted, RowsPainted, OnlyRow, SameFrom, Blended;
      var active: seq<Active>, e: nat, at: nat := [], 0, 0;
      ghost var was := bitmap[..];
      lists, marks := [], [0];
      NoTrace(edges);
      NothingPainted(was, lists, stride, width, rule, colour);
      for y: nat := 0 to height
        invariant Trace(edges, lists, marks) && |lists| == SUBSAMPLES * y && |marks| == |lists| + 1
        invariant active == ListBefore(lists, |lists|) && e == marks[|lists|] && at == y * stride
        invariant RowsPainted(bitmap[..], was, lists, y, stride, width, rule, colour) && SameFrom(bitmap[..], was, at)
        invariant Untouched(bitmap[..], was, y, stride, width)
      {
        ghost var before, seen := bitmap[..], lists;
        var xmin, xmax;
        active, e, xmin, xmax, lists, marks := CoverRow(y, rule, active, e, lists, marks);
        RowFits(y, height, stride, width);
        TraceMark(edges, lists, marks);
        ghost var row := Row(lists, y);
        assert row == lists[SUBSAMPLES * y..];
        ghost var lo, hi := xmin, xmax;
        if xmin < 0 { xmin := 0; }
        if xmax > width - 1 { xmax := width - 1; }
        if xmin <= xmax {
          ScanlineSolid(bitmap, at + xmin * 4, xmax - xmin + 1, scanline, xmin, colour);
          BlitPaints(bitmap[..], before, at, width, scanline[..], row, rule, lo, hi, xmin, xmax, colour);
        } else {
          NoBlitPaints(before, at, width, scanline[..], row, rule, lo, hi, colour);
        }
        PaddingStays(bitmap[..], before, was, y, stride, width);
        RowsStay(bitmap[..], before, was, seen, lists, y, stride, width, rule, colour);
        at := at + stride;
      }
    }
  }

  lemma NoTrace(edges: seq<Edge>)
    ensures Trace(edges, [], [0])
  {
  }

  lemma TraceMark(edges: seq<Edge>, lists: seq<seq<Active>>, marks: seq<nat>)
    requires Trace(edges, lists, marks)
    ensures |marks| == |lists| + 1 && marks[|lists|] <= |edges|
  {
  }

  // The lists of line y.
  ghost function Row(lists: seq<seq<Active>>, y: nat): seq<seq<Active>> {
    if SUBSAMPLES * (y + 1) <= |lists| then lists[SUBSAMPLES * y..SUBSAMPLES * (y + 1)] else []
  }

  lemma RowFits(y: nat, height: nat, stride: nat, width: nat)
    requires y < height && 4 * width <= stride
    ensures y * stride + 4 * width <= (y + 1) * stride <= height * stride
    ensures (y + 1) * stride == y * stride + stride
  {
  }

  ghost predicate PaintedAt(now: seq<Byte>, was: seq<Byte>, at: nat, x: nat, row: seq<seq<Active>>, rule: Rule, colour: Pixel) {
    && at + 4 * x + 4 <= |was| == |now| && RowSum(row, rule, x) < 256
    && PixelAt(now, at + 4 * x) == Blend(RowSum(row, rule, x), colour, PixelAt(was, at + 4 * x))
  }

  // Every pixel of a line is the colour blended by its coverage over what was there.
  ghost predicate RowPainted(now: seq<Byte>, was: seq<Byte>, at: nat, width: nat, row: seq<seq<Active>>, rule: Rule, colour: Pixel) {
    forall x: nat {:trigger PaintedAt(now, was, at, x, row, rule, colour)} :: x < width ==> PaintedAt(now, was, at, x, row, rule, colour)
  }

  predicate InRow(k: nat, y: nat, stride: nat, width: nat) {
    y * stride <= k < y * stride + 4 * width
  }

  // No byte outside the pixels of the first lines has changed.
  ghost predicate Untouched(now: seq<Byte>, was: seq<Byte>, lines: nat, stride: nat, width: nat) {
    && |now| == |was|
    && forall k: nat {:trigger now[k]} :: k < |now| && (forall y: nat {:trigger InRow(k, y, stride, width)} :: y < lines ==> !InRow(k, y, stride, width)) ==>
         now[k] == was[k]
  }

  // The first lines are painted.
  ghost predicate RowsPainted(now: seq<Byte>, was: seq<Byte>, lists: seq<seq<Active>>, lines: nat, stride: nat, width: nat,
                              rule: Rule, colour: Pixel) {
    forall y: nat {:trigger Row(lists, y)} :: y < lines ==> RowPainted(now, was, y * stride, width, Row(lists, y), rule, colour)
  }

  // Nothing from a place on has changed, or nothing outside one line.
  predicate SameFrom(now: seq<Byte>, was: seq<Byte>, from: nat) {
    |now| == |was| && forall k: nat :: from <= k < |was| ==> now[k] == was[k]
  }

  predicate OnlyRow(now: seq<Byte>, was: seq<Byte>, at: nat, width: nat) {
    |now| == |was| && forall k: nat {:trigger now[k]} :: k < |now| && (k < at || k >= at + 4 * width) ==> now[k] == was[k]
  }

  lemma NothingPainted(was: seq<Byte>, lists: seq<seq<Active>>, stride: nat, width: nat, rule: Rule, colour: Pixel)
    ensures Untouched(was, was, 0, stride, width) && RowsPainted(was, was, lists, 0, stride, width, rule, colour) && SameFrom(was, was, 0)
  {
  }

  lemma PaddingStays(now: seq<Byte>, before: seq<Byte>, was: seq<Byte>, y: nat, stride: nat, width: nat)
    requires Untouched(before, was, y, stride, width) && OnlyRow(now, before, y * stride, width)
    ensures Untouched(now, was, y + 1, stride, width)
  {
    forall k: nat | k < |now| && (forall r: nat {:trigger InRow(k, r, stride, width)} :: r < y + 1 ==> !InRow(k, r, stride, width))
      ensures now[k] == was[k]
    {
      assert !InRow(k, y, stride, width);
      assert before[k] == was[k];
    }
  }

  lemma BlitPaints(now: seq<Byte>, was: seq<Byte>, at: nat, width: nat, line: seq<Byte>, row: seq<seq<Active>>, rule: Rule,
                   lo: int, hi: int, xmin: nat, xmax: nat, colour: Pixel)
    requires at + 4 * width <= |was| == |now| && Covered(line, width, row, rule, lo, hi)
    requires xmin == Max(lo, 0) && xmax == Min(hi, width - 1) && xmin <= xmax
    requires Blended(now, was, at + xmin * 4, xmax - xmin + 1, line, xmin, colour)
    ensures RowPainted(now, was, at, width, row, rule, colour) && OnlyRow(now, was, at, width)
  {
    hide Blend, RowSum;
    forall x: nat | x < width
      ensures PaintedAt(now, was, at, x, row, rule, colour)
    {
      assert line[x] == RowSum(row, rule, x);
      if xmin <= x <= xmax {
        assert BlendedAt(now, was, at + xmin * 4, x - xmin, line, xmin, colour);
      } else {
        assert line[x] == 0;
        BlendEnds(colour, PixelAt(was, at + 4 * x));
        assert PixelAt(now, at + 4 * x) == PixelAt(was, at + 4 * x);
      }
    }
  }

  lemma NoBlitPaints(was: seq<Byte>, at: nat, width: nat, line: seq<Byte>, row: seq<seq<Active>>, rule: Rule,
                     lo: int, hi: int, colour: Pixel)
    requires at + 4 * width <= |was| && Covered(line, width, row, rule, lo, hi) && Max(lo, 0) > Min(hi, width - 1)
    ensures RowPainted(was, was, at, width, row, rule, colour) && OnlyRow(was, was, at, width)
  {
    hide Blend, RowSum;
    forall x: nat | x < width
      ensures PaintedAt(was, was, at, x, row, rule, colour)
    {
      assert line[x] == RowSum(row, rule, x) && line[x] == 0;
      BlendEnds(colour, PixelAt(was, at + 4 * x));
    }
  }

  // A finished line is not touched again, and the new line was as it was at the start.
  lemma RowsStay(now: seq<Byte>, before: seq<Byte>, was: seq<Byte>, seen: seq<seq<Active>>, lists: seq<seq<Active>>, y: nat,
                 stride: nat, width: nat, rule: Rule, colour: Pixel)
    requires |now| == |before| == |was| && 4 * width <= stride && (y + 1) * stride <= |was|
    requires seen <= lists && |seen| == SUBSAMPLES * y && |lists| == SUBSAMPLES * (y + 1)
    requires RowsPainted(before, was, seen, y, stride, width, rule, colour) && SameFrom(before, was, y * stride)
    requires RowPainted(now, before, y * stride, width, Row(lists, y), rule, colour) && OnlyRow(now, before, y * stride, width)
    ensures RowsPainted(now, was, lists, y + 1, stride, width, rule, colour) && SameFrom(now, was, (y + 1) * stride)
  {
    hide RowPainted, Row;
    RowFits(y, y + 1, stride, width);
    forall r: nat | r < y + 1
      ensures RowPainted(now, was, r * stride, width, Row(lists, r), rule, colour)
    {
      if r < y {
        SameRow(seen, lists, r);
        RowsApart(r, y, stride, width);
        RowKept(now, before, was, r * stride, width, Row(lists, r), rule, colour);
      } else {
        RowUnder(now, before, was, y * stride, width, Row(lists, r), rule, colour);
      }
    }
  }

  lemma SameRow(seen: seq<seq<Active>>, lists: seq<seq<Active>>, r: nat)
    requires seen <= lists && SUBSAMPLES * (r + 1) <= |seen|
    ensures Row(seen, r) == Row(lists, r)
  {
  }

  lemma RowsApart(r: nat, y: nat, stride: nat, width: nat)
    requires r < y && 4 * width <= stride
    ensures r * stride + 4 * width <= y * stride
  {
    RowFits(r, y, stride, width);
  }

  lemma RowKept(now: seq<Byte>, before: seq<Byte>, was: seq<Byte>, at: nat, width: nat, row: seq<seq<Active>>, rule: Rule, colour: Pixel)
    requires |now| == |before| && RowPainted(before, was, at, width, row, rule, colour)
    requires forall k: nat :: at <= k < at + 4 * width && k < |now| ==> now[k] == before[k]
    ensures RowPainted(now, was, at, width, row, rule, colour)
  {
    hide Blend, RowSum;
    forall x: nat | x < width
      ensures PaintedAt(now, was, at, x, row, rule, colour)
    {
      assert PaintedAt(before, was, at, x, row, rule, colour);
    }
  }

  lemma RowUnder(now: seq<Byte>, before: seq<Byte>, was: seq<Byte>, at: nat, width: nat, row: seq<seq<Active>>, rule: Rule, colour: Pixel)
    requires |was| == |before| && RowPainted(now, before, at, width, row, rule, colour)
    requires forall k: nat :: at <= k < |was| ==> before[k] == was[k]
    ensures RowPainted(now, was, at, width, row, rule, colour)
  {
    hide Blend, RowSum;
    forall x: nat | x < width
      ensures PaintedAt(now, was, at, x, row, rule, colour)
    {
      assert PaintedAt(now, before, at, x, row, rule, colour);
    }
  }

  // So a premultiplied line stays premultiplied.
  lemma RowStaysPremultiplied(now: seq<Byte>, was: seq<Byte>, at: nat, width: nat, row: seq<seq<Active>>, rule: Rule, colour: Pixel, x: nat)
    requires RowPainted(now, was, at, width, row, rule, colour) && x < width && at + 4 * width <= |was| == |now|
    requires Premultiplied(PixelAt(was, at + 4 * x))
    ensures Premultiplied(PixelAt(now, at + 4 * x))
  {
    hide RowSum, Blend;
    assert PaintedAt(now, was, at, x, row, rule, colour);
    BlendPremultiplied(RowSum(row, rule, x), colour, PixelAt(was, at + 4 * x));
  }
}
