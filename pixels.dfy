/**
 * Pixel values of an "RGB" Pillow image and the two per-pixel transforms of
 * the editor, stated on values: brightness reduction and channel isolation.
 */
module Pixels {

  /** One 8-bit colour channel. */
  type Channel = c: int | 0 <= c <= 255

  /** Number of channels of a pixel in an "RGB" image. */
  const ChannelCount: nat := 3

  /** An (R, G, B) tuple. */
  datatype Pixel = Pixel(r: Channel, g: Channel, b: Channel) {

    /** The channel at position `k` of the tuple. */
    function Get(k: nat): Channel
      requires k < ChannelCount
    {
      if k == 0 then r else if k == 1 then g else b
    }
  }

  /**
   * A width x height raster. `columns[x][y]` is the pixel at column x and
   * row y, addressed in the same (x, y) order as Pillow's pixel access.
   */
  datatype Raster = Raster(width: nat, height: nat, columns: seq<seq<Pixel>>) {

    predicate WellFormed() {
      |columns| == width && forall x :: 0 <= x < width ==> |columns[x]| == height
    }

    function At(x: nat, y: nat): Pixel
      requires WellFormed() && x < width && y < height
    {
      columns[x][y]
    }
  }

  /** Two well-formed rasters are equal when their sizes and all their pixels agree. */
  lemma {:induction false} RasterExtensionality(s: Raster, t: Raster)
    requires s.WellFormed() && t.WellFormed()
    requires s.width == t.width && s.height == t.height
    requires forall x: nat, y: nat :: x < s.width && y < s.height ==> s.At(x, y) == t.At(x, y)
    ensures s == t
  {
    forall x | 0 <= x < s.width
      ensures s.columns[x] == t.columns[x]
    {
      assert forall y: nat :: y < s.height ==> s.columns[x][y] == s.At(x, y);
    }
  }

  // ---------------------------------------------------------------------
  // Brightness reduction
  // ---------------------------------------------------------------------

  /** One channel reduced by `v`, never below zero: max(0, c - v). */
  function DimChannel(c: Channel, v: nat): (d: Channel)
    ensures d <= c
    ensures d >= c - v
    ensures d == 0 || d == c - v
  {
    if c - v > 0 then c - v else 0
  }

  /** Every channel of the tuple reduced by `v`. */
  function DimPixel(p: Pixel, v: nat): (q: Pixel)
    ensures forall k :: 0 <= k < ChannelCount ==> q.Get(k) == DimChannel(p.Get(k), v)
  {
    Pixel(DimChannel(p.r, v), DimChannel(p.g, v), DimChannel(p.b, v))
  }

  /** The raster with every pixel reduced by `v`; the size is kept. */
  function Dimmed(r: Raster, v: nat): (d: Raster)
    requires r.WellFormed()
    ensures d.WellFormed() && d.width == r.width && d.height == r.height
    ensures forall x: nat, y: nat :: x < d.width && y < d.height ==> d.At(x, y) == DimPixel(r.At(x, y), v)
  {
    Raster(r.width, r.height,
      seq(r.width, x requires 0 <= x < r.width =>
        seq(r.height, y requires 0 <= y < r.height => DimPixel(r.columns[x][y], v))))
  }

  /** Each channel of each pixel becomes exactly max(0, c - v). */
  lemma DimmedChannel(r: Raster, v: nat, x: nat, y: nat, k: nat)
    requires r.WellFormed() && x < r.width && y < r.height && k < ChannelCount
    ensures Dimmed(r, v).At(x, y).Get(k) == if r.At(x, y).Get(k) >= v then r.At(x, y).Get(k) - v else 0
  {
  }

  /** No channel grows: every channel ends in [0, c] for its old value c. */
  lemma DimmedNeverBrightens(r: Raster, v: nat)
    requires r.WellFormed()
    ensures forall x: nat, y: nat, k: nat :: x < r.width && y < r.height && k < ChannelCount ==>
      0 <= Dimmed(r, v).At(x, y).Get(k) <= r.At(x, y).Get(k)
  {
  }

  /** Reducing by zero leaves the raster as it was. */
  lemma {:induction false} DimmedByZero(r: Raster)
    requires r.WellFormed()
    ensures Dimmed(r, 0) == r
  {
    RasterExtensionality(Dimmed(r, 0), r);
  }

  /** Reducing by `a` and then by `b` is reducing by `a + b`. */
  lemma {:induction false} DimmedTwice(r: Raster, a: nat, b: nat)
    requires r.WellFormed()
    ensures Dimmed(Dimmed(r, a), b) == Dimmed(r, a + b)
  {
    var once := Dimmed(r, a);
    forall x: nat, y: nat | x < r.width && y < r.height
      ensures Dimmed(once, b).At(x, y) == Dimmed(r, a + b).At(x, y)
    {
      var p := r.At(x, y);
      assert once.At(x, y) == DimPixel(p, a);
      assert DimPixel(DimPixel(p, a), b).r == DimChannel(p.r, a + b);
      assert DimPixel(DimPixel(p, a), b).g == DimChannel(p.g, a + b);
      assert DimPixel(DimPixel(p, a), b).b == DimChannel(p.b, a + b);
    }
    RasterExtensionality(Dimmed(once, b), Dimmed(r, a + b));
  }

  // ---------------------------------------------------------------------
  // Channel isolation
  // ---------------------------------------------------------------------

  /** One channel plane of a raster, `plane[x][y]` as for the raster itself. */
  type Plane = seq<seq<Channel>>

  predicate PlaneOfSize(p: Plane, w: nat, h: nat) {
    |p| == w && forall x :: 0 <= x < w ==> |p[x]| == h
  }

  /** Plane `k` of `image.split()`: channel k of every pixel. */
  function Split(r: Raster, k: nat): (p: Plane)
    requires r.WellFormed() && k < ChannelCount
    ensures PlaneOfSize(p, r.width, r.height)
    ensures forall x: nat, y: nat :: x < r.width && y < r.height ==> p[x][y] == r.At(x, y).Get(k)
  {
    seq(r.width, x requires 0 <= x < r.width =>
      seq(r.height, y requires 0 <= y < r.height => r.columns[x][y].Get(k)))
  }

  /** `plane.point(lambda _: 0)`: a plane of the same size holding only zeros. */
  function Blank(p: Plane): (z: Plane)
    ensures |z| == |p|
    ensures forall x :: 0 <= x < |p| ==> |z[x]| == |p[x]| && forall y :: 0 <= y < |p[x]| ==> z[x][y] == 0
  {
    seq(|p|, x requires 0 <= x < |p| => seq(|p[x]|, _ => 0))
  }

  /** `Image.merge("RGB", (red, green, blue))`: the planes become the channels of one raster. */
  function Merge(w: nat, h: nat, red: Plane, green: Plane, blue: Plane): (m: Raster)
    requires PlaneOfSize(red, w, h) && PlaneOfSize(green, w, h) && PlaneOfSize(blue, w, h)
    ensures m.WellFormed() && m.width == w && m.height == h
    ensures forall x: nat, y: nat :: x < w && y < h ==> m.At(x, y) == Pixel(red[x][y], green[x][y], blue[x][y])
  {
    Raster(w, h, seq(w, x requires 0 <= x < w =>
      seq(h, y requires 0 <= y < h => Pixel(red[x][y], green[x][y], blue[x][y]))))
  }

  /**
   * The list `[red_merge, green_merge, blue_merge]`: for each channel, the
   * raster that keeps that channel's plane and zeroes the other two.
   */
  function ChannelImages(r: Raster): (images: seq<Raster>)
    requires r.WellFormed()
    ensures |images| == ChannelCount
  {
    var red, green, blue := Split(r, 0), Split(r, 1), Split(r, 2);
    var empty := Blank(red);
    [ Merge(r.width, r.height, red, empty, empty),
      Merge(r.width, r.height, empty, green, empty),
      Merge(r.width, r.height, empty, empty, blue) ]
  }

  /**
   * Channel image `k` has the size of the source, holds the source's channel
   * k unchanged and zero in the other two channels.
   */
  lemma ChannelImageIsolates(r: Raster, k: nat)
    requires r.WellFormed() && k < ChannelCount
    ensures ChannelImages(r)[k].WellFormed()
    ensures ChannelImages(r)[k].width == r.width && ChannelImages(r)[k].height == r.height
    ensures forall x: nat, y: nat, j: nat :: x < r.width && y < r.height && j < ChannelCount ==>
      ChannelImages(r)[k].At(x, y).Get(j) == if j == k then r.At(x, y).Get(j) else 0
  {
  }

  /** Isolating a channel of a channel image gives that channel image back. */
  lemma {:induction false} ChannelImageIdempotent(r: Raster, k: nat)
    requires r.WellFormed() && k < ChannelCount
    ensures ChannelImages(r)[k].WellFormed()
    ensures ChannelImages(ChannelImages(r)[k])[k] == ChannelImages(r)[k]
  {
    var m := ChannelImages(r)[k];
    ChannelImageIsolates(r, k);
    ChannelImageIsolates(m, k);
    var mm := ChannelImages(m)[k];
    forall x: nat, y: nat | x < r.width && y < r.height
      ensures mm.At(x, y) == m.At(x, y)
    {
      assert forall j: nat :: j < ChannelCount ==> mm.At(x, y).Get(j) == m.At(x, y).Get(j);
      assert mm.At(x, y).Get(0) == m.At(x, y).Get(0);
      assert mm.At(x, y).Get(1) == m.At(x, y).Get(1);
      assert mm.At(x, y).Get(2) == m.At(x, y).Get(2);
    }
    RasterExtensionality(mm, m);
  }

  /** Merging the kept plane of each of the three channel images restores the source. */
  lemma {:induction false} ChannelImagesRecombine(r: Raster)
    requires r.WellFormed()
    ensures forall k :: 0 <= k < ChannelCount ==> ChannelImages(r)[k].WellFormed()
    ensures Merge(r.width, r.height,
                  Split(ChannelImages(r)[0], 0), Split(ChannelImages(r)[1], 1), Split(ChannelImages(r)[2], 2)) == r
  {
    ChannelImageIsolates(r, 0);
    ChannelImageIsolates(r, 1);
    ChannelImageIsolates(r, 2);
    var images := ChannelImages(r);
    var m := Merge(r.width, r.height, Split(images[0], 0), Split(images[1], 1), Split(images[2], 2));
    forall x: nat, y: nat | x < r.width && y < r.height
      ensures m.At(x, y) == r.At(x, y)
    {
      assert m.At(x, y).Get(0) == r.At(x, y).Get(0);
      assert m.At(x, y).Get(1) == r.At(x, y).Get(1);
      assert m.At(x, y).Get(2) == r.At(x, y).Get(2);
    }
    RasterExtensionality(m, r);
  }
}
