// Blending a scanline of one colour into premultiplied pixels, and undoing premultiplication.
module ScanBlend {
  import opened Bytes
  import opened ScanCoverage

  // nsvg__div255
  function Div255(x: int): int { (x + 1) * 257 / 65536 }

  // The shift stands for an exact division by 255 on every product of two bytes.
  lemma Div255Exact(x: int)
    requires 0 <= x <= 65025
    ensures Div255(x) == x / 255
  {
    var q, r := x / 255, x % 255;
    assert x == 255 * q + r;
    assert (x + 1) * 257 == 65536 * q + (257 * (r + 1) - q);
  }

  // A cast to unsigned char.
  function Cast(x: int): Byte { x % 256 }

  datatype Pixel = Pixel(r: Byte, g: Byte, b: Byte, a: Byte)

  predicate Premultiplied(p: Pixel) {
    p.r <= p.a && p.g <= p.a && p.b <= p.a
  }

  // The paint's alpha under a coverage byte, and one channel painted over what is there.
  function PaintAlpha(cover: Byte, colour: Pixel): int { Div255(cover * colour.a) }

  function Over(paint: int, alpha: int, was: int): int {
    paint + Div255((255 - alpha) * was)
  }

  // The solid branch of nsvg__scanlineSolid, for one pixel.
  function Blend(cover: Byte, colour: Pixel, was: Pixel): Pixel {
    var a := PaintAlpha(cover, colour);
    Pixel(Cast(Over(Div255(colour.r * a), a, was.r)), Cast(Over(Div255(colour.g * a), a, was.g)),
          Cast(Over(Div255(colour.b * a), a, was.b)), Cast(Over(a, a, was.a)))
  }

  lemma ProductBound(x: int, y: int, m: int, n: int)
    requires 0 <= x <= m && 0 <= y <= n
    ensures 0 <= x * y <= m * n
  {
  }

  // Both products are of bytes; the painted alpha leaves room for what is under it.
  lemma OverBound(paint: int, alpha: int, was: int, cap: int)
    requires 0 <= alpha <= 255 && 0 <= paint <= alpha && 0 <= was <= cap <= 255
    ensures 0 <= Over(paint, alpha, was) <= Over(alpha, alpha, cap) <= 255
  {
    hide Div255;
    ProductBound(255 - alpha, was, 255, 255);
    ProductBound(255 - alpha, cap, 255, 255);
    Div255Exact((255 - alpha) * was);
    Div255Exact((255 - alpha) * cap);
    ProductMonotone(255 - alpha, was, cap);
    ProductMonotone(255 - alpha, cap, 255);
  }

  lemma ProductMonotone(x: int, a: int, b: int)
    requires 0 <= x && 0 <= a <= b
    ensures x * a <= x * b && x * a / 255 <= x * b / 255 && x * 255 / 255 == x
  {
  }

  lemma PaintBound(channel: int, alpha: int)
    requires 0 <= channel <= 255 && 0 <= alpha <= 255
    ensures 0 <= Div255(channel * alpha) <= alpha
    ensures Div255(channel * alpha) == channel * alpha / 255
  {
    hide Div255;
    ProductBound(channel, alpha, 255, 255);
    Div255Exact(channel * alpha);
    ProductMonotone(alpha, channel, 255);
    assert channel * alpha == alpha * channel;
  }

  // Blending keeps pixels premultiplied, and no cast loses anything: every channel is the
  // paint's share plus what shows through, each rounded down.
  lemma BlendPremultiplied(cover: Byte, colour: Pixel, was: Pixel)
    requires Premultiplied(was)
    ensures Premultiplied(Blend(cover, colour, was))
    ensures var a := cover * colour.a / 255;
      && PaintAlpha(cover, colour) == a
      && Blend(cover, colour, was).a == Over(a, a, was.a)
      && Blend(cover, colour, was).r == Over(Div255(colour.r * a), a, was.r)
      && Blend(cover, colour, was).g == Over(Div255(colour.g * a), a, was.g)
      && Blend(cover, colour, was).b == Over(Div255(colour.b * a), a, was.b)
  {
    hide Div255, Over;
    PaintBound(cover, colour.a);
    assert cover * colour.a == colour.a * cover;
    PaintBound(colour.a, cover);
    var a := PaintAlpha(cover, colour);
    PaintBound(colour.r, a);
    PaintBound(colour.g, a);
    PaintBound(colour.b, a);
    OverBound(Div255(colour.r * a), a, was.r, was.a);
    OverBound(Div255(colour.g * a), a, was.g, was.a);
    OverBound(Div255(colour.b * a), a, was.b, was.a);
    OverBound(a, a, was.a, was.a);
  }

  lemma OverEnds(x: Byte)
    ensures Over(0, 0, x) == x && Div255(x * 0) == 0 && Div255(0 * x) == 0
    ensures Over(x, 255, 0) == x && Div255(x * 255) == x && Div255(255 * x) == x
    ensures forall y: Byte :: Over(y, 255, x) == y
  {
    hide Div255;
    Div255Exact(255 * x);
    Div255Exact(0);
  }

  // Nothing painted changes nothing; full coverage of an opaque colour replaces the pixel.
  lemma BlendEnds(colour: Pixel, was: Pixel)
    ensures Blend(0, colour, was) == was
    ensures colour.a == 255 ==> Blend(255, colour, was) == colour
  {
    hide Div255, Over;
    OverEnds(colour.r);
    OverEnds(colour.g);
    OverEnds(colour.b);
    OverEnds(colour.a);
    OverEnds(was.r);
    OverEnds(was.g);
    OverEnds(was.b);
    OverEnds(was.a);
    assert PaintAlpha(0, colour) == 0;
    if colour.a == 255 { assert PaintAlpha(255, colour) == 255; }
  }

  ghost function PixelAt(bytes: seq<Byte>, at: nat): Pixel
    requires at + 4 <= |bytes|
  {
    Pixel(bytes[at], bytes[at + 1], bytes[at + 2], bytes[at + 3])
  }

  ghost predicate BlendedAt(now: seq<Byte>, was: seq<Byte>, at: nat, i: nat, cover: seq<Byte>, from: nat, colour: Pixel)
    requires at + 4 * i + 4 <= |was| == |now| && from + i < |cover|
  {
    PixelAt(now, at + 4 * i) == Blend(cover[from + i], colour, PixelAt(was, at + 4 * i))
  }

  // The bytes after blending `done` pixels from `at` on.
  ghost predicate Blended(now: seq<Byte>, was: seq<Byte>, at: nat, done: nat, cover: seq<Byte>, from: nat, colour: Pixel)
    requires at + 4 * done <= |was| == |now| && from + done <= |cover|
  {
    && (forall i: nat {:trigger BlendedAt(now, was, at, i, cover, from, colour)} :: i < done ==>
          BlendedAt(now, was, at, i, cover, from, colour))
    && (forall k: nat {:trigger now[k]} :: k < |now| && (k < at || k >= at + 4 * done) ==> now[k] == was[k])
  }

  // nsvg__scanlineSolid for a single colour
  method ScanlineSolid(dst: array<Byte>, at: nat, count: nat, cover: array<Byte>, from: nat, colour: Pixel)
    requires at + 4 * count <= dst.Length && from + count <= cover.Length && dst != cover
    modifies dst
    ensures Blended(dst[..], old(dst[..]), at, count, cover[..], from, colour)
  {
    hide Blend;
    ghost var was := dst[..];
    for i: nat := 0 to count
      invariant Blended(dst[..], was, at, i, cover[..], from, colour)
    {
      ghost var before := dst[..];
      var d, c := at + 4 * i, cover[from + i];
      var blend := Blend(c, colour, Pixel(dst[d], dst[d + 1], dst[d + 2], dst[d + 3]));
      dst[d], dst[d + 1], dst[d + 2], dst[d + 3] := blend.r, blend.g, blend.b, blend.a;
      OneMoreBlended(before, dst[..], was, at, i, cover[..], from, colour);
    }
  }

  lemma OneMoreBlended(before: seq<Byte>, now: seq<Byte>, was: seq<Byte>, at: nat, i: nat, cover: seq<Byte>, from: nat, colour: Pixel)
    requires at + 4 * i + 4 <= |was| == |now| == |before| && from + i < |cover|
    requires Blended(before, was, at, i, cover, from, colour)
    requires PixelAt(now, at + 4 * i) == Blend(cover[from + i], colour, PixelAt(before, at + 4 * i))
    requires forall k: nat :: k < |now| && (k < at + 4 * i || k >= at + 4 * i + 4) ==> now[k] == before[k]
    ensures Blended(now, was, at, i + 1, cover, from, colour)
  {
    hide Blend;
    forall j: nat | j < i
      ensures BlendedAt(now, was, at, j, cover, from, colour)
    {
      assert BlendedAt(before, was, at, j, cover, from, colour);
      assert PixelAt(now, at + 4 * j) == PixelAt(before, at + 4 * j);
    }
    assert PixelAt(before, at + 4 * i) == PixelAt(was, at + 4 * i);
    assert BlendedAt(now, was, at, i, cover, from, colour);
  }

  // ----- Undoing premultiplication -----

  // nsvg__unpremultiplyAlpha, for one pixel
  function Straight(p: Pixel): Pixel {
    if p.a == 0 then p else Pixel(Cast(p.r * 255 / p.a), Cast(p.g * 255 / p.a), Cast(p.b * 255 / p.a), p.a)
  }

  lemma ProductSteps(x: int, y: int, a: int)
    requires x <= y && a > 0
    ensures x * a <= y * a
  {
  }

  // A channel of a premultiplied pixel fits a byte after the division, and multiplying back
  // returns it to within one.
  lemma StraightChannel(c: int, a: int)
    requires 0 <= c <= a <= 255 && a > 0
    ensures var q := c * 255 / a;
      && 0 <= q <= 255 && Cast(q) == q
      && c - 1 <= q * a / 255 <= c
  {
    var q := c * 255 / a;
    assert q * a <= c * 255 < (q + 1) * a;
    assert (q + 1) * a == q * a + a;
    if q > 255 { ProductSteps(256, q, a); }
    if q < 0 { ProductSteps(q + 1, 0, a); }
  }

  lemma StraightFits(p: Pixel)
    requires Premultiplied(p) && p.a != 0
    ensures Straight(p).r == p.r * 255 / p.a && Straight(p).g == p.g * 255 / p.a && Straight(p).b == p.b * 255 / p.a
    ensures Straight(p).a == p.a
  {
    StraightChannel(p.r, p.a);
    StraightChannel(p.g, p.a);
    StraightChannel(p.b, p.a);
  }

  ghost predicate StraightAt(now: seq<Byte>, was: seq<Byte>, at: nat, i: nat)
    requires at + 4 * i + 4 <= |was| == |now|
  {
    PixelAt(now, at + 4 * i) == Straight(PixelAt(was, at + 4 * i))
  }

  ghost predicate Straightened(now: seq<Byte>, was: seq<Byte>, at: nat, done: nat)
    requires at + 4 * done <= |was| == |now|
  {
    && (forall i: nat {:trigger StraightAt(now, was, at, i)} :: i < done ==> StraightAt(now, was, at, i))
    && (forall k: nat {:trigger now[k]} :: k < |now| && (k < at || k >= at + 4 * done) ==> now[k] == was[k])
  }

  // One row of nsvg__unpremultiplyAlpha.
  method UnpremultiplyRow(image: array<Byte>, at: nat, w: nat)
    requires at + 4 * w <= image.Length
    modifies image
    ensures Straightened(image[..], old(image[..]), at, w)
  {
    hide Straight;
    ghost var was := image[..];
    for x: nat := 0 to w
      invariant Straightened(image[..], was, at, x)
    {
      ghost var before := image[..];
      var d := at + 4 * x;
      var p := Straight(Pixel(image[d], image[d + 1], image[d + 2], image[d + 3]));
      StraightKeepsAlpha(PixelAt(before, d));
      image[d], image[d + 1], image[d + 2] := p.r, p.g, p.b;
      OneMoreStraight(before, image[..], was, at, x);
    }
  }

  lemma StraightKeepsAlpha(p: Pixel)
    ensures Straight(p).a == p.a
  {
  }

  lemma OneMoreStraight(before: seq<Byte>, now: seq<Byte>, was: seq<Byte>, at: nat, i: nat)
    requires at + 4 * i + 4 <= |was| == |now| == |before|
    requires Straightened(before, was, at, i)
    requires PixelAt(now, at + 4 * i) == Straight(PixelAt(before, at + 4 * i))
    requires forall k: nat :: k < |now| && (k < at + 4 * i || k >= at + 4 * i + 4) ==> now[k] == before[k]
    ensures Straightened(now, was, at, i + 1)
  {
    hide Straight;
    forall j: nat | j < i
      ensures StraightAt(now, was, at, j)
    {
      assert StraightAt(before, was, at, j);
      assert PixelAt(now, at + 4 * j) == PixelAt(before, at + 4 * j);
    }
    assert PixelAt(before, at + 4 * i) == PixelAt(was, at + 4 * i);
    assert StraightAt(now, was, at, i);
  }
}
