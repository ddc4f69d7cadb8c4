/**
 * The image editor: one current image that may be absent, a brightness
 * reduction that rewrites its pixel buffer in place, a channel view derived
 * without touching it, and the geometry of the circle annotation.
 */
module Editor {
  import opened Wrappers
  import opened Pixels

  /** The raster held in a pixel buffer `a`, read as `a[x, y]`. */
  function Snapshot(a: array2<Pixel>): (r: Raster)
    reads a
    ensures r.WellFormed() && r.width == a.Length0 && r.height == a.Length1
    ensures forall x: nat, y: nat :: x < a.Length0 && y < a.Length1 ==> r.At(x, y) == a[x, y]
  {
    Raster(a.Length0, a.Length1,
      seq(a.Length0, x requires 0 <= x < a.Length0 reads a =>
        seq(a.Length1, y requires 0 <= y < a.Length1 reads a => a[x, y])))
  }

  /** Python's `items[i]`: a negative index counts from the end, anything else out of range is an IndexError. */
  function ListIndex<T>(items: seq<T>, i: int): (r: Option<T>)
    ensures r.Some? <==> -|items| <= i < |items|
    ensures 0 <= i < |items| ==> r == Some(items[i])
    ensures -|items| <= i < 0 ==> r == Some(items[|items| + i])
    ensures r.Some? ==> r.value == items[i % |items|]
  {
    if 0 <= i < |items| then Some(items[i])
    else if -|items| <= i < 0 then Some(items[|items| + i])
    else None
  }

  datatype Point = Point(x: int, y: int)

  /** The arguments the circle annotation hands to the ellipse drawing call. */
  datatype Ellipse = Ellipse(topLeft: Point, bottomRight: Point, outline: Pixel, strokeWidth: nat)

  /** Outline colour of the circle annotation: red. */
  const CircleColour: Pixel := Pixel(255, 0, 0)

  /** Stroke width of the circle annotation, in pixels. */
  const CircleStroke: nat := 2

  class ImageEd {

    /** The current image; `null` stands for Python's `None`. */
    var image: array2?<Pixel>

    /** A fresh editor holds no image. */
    constructor ()
      ensures image == null
    {
      image := null;
    }

    /**
     * Loading: `decoded` is what the codec produced for the file, `None` when
     * opening or decoding failed. On failure the current image stays.
     */
    method LoadImage(decoded: Option<Raster>)
      requires decoded.Some? ==> decoded.value.WellFormed()
      modifies this
      ensures decoded.None? ==> image == old(image)
      ensures decoded.Some? ==> image != null && fresh(image) && Snapshot(image) == decoded.value
    {
      if decoded.Some? {
        var r := decoded.value;
        image := new Pixel[r.width, r.height]((x, y) requires 0 <= x < r.width && 0 <= y < r.height => r.columns[x][y]);
        RasterExtensionality(Snapshot(image), r);
      }
    }

    /**
     * Reduce brightness by `value`: above 255 nothing happens; otherwise
     * every channel c of every pixel becomes max(0, c - value), in place,
     * row by row.
     */
    method DecreaseBrightness(value: int)
      requires value > 255 || (0 <= value && image != null)
      modifies image
      ensures image != null && value > 255 ==> Snapshot(image) == old(Snapshot(image))
      ensures image != null && value <= 255 ==> Snapshot(image) == Dimmed(old(Snapshot(image)), value)
      ensures image != null && value <= 255 ==> forall x, y :: 0 <= x < image.Length0 && 0 <= y < image.Length1 ==>
        image[x, y] == DimPixel(old(image[x, y]), value)
    {
      if value > 255 {
        return;
      }
      var pixels := image;
      var width, height := pixels.Length0, pixels.Length1;
      for y := 0 to height
        invariant forall i, j :: 0 <= i < width && 0 <= j < y ==> pixels[i, j] == DimPixel(old(pixels[i, j]), value)
        invariant forall i, j :: 0 <= i < width && y <= j < height ==> pixels[i, j] == old(pixels[i, j])
      {
        for x := 0 to width
          invariant forall i, j :: 0 <= i < width && 0 <= j < y ==> pixels[i, j] == DimPixel(old(pixels[i, j]), value)
          invariant forall i :: 0 <= i < x ==> pixels[i, y] == DimPixel(old(pixels[i, y]), value)
          invariant forall i, j :: 0 <= i < width && y <= j < height && (j > y || i >= x) ==> pixels[i, j] == old(pixels[i, j])
        {
          pixels[x, y] := DimPixel(pixels[x, y], value);
        }
      }
      RasterExtensionality(Snapshot(pixels), Dimmed(old(Snapshot(pixels)), value));
    }

    /**
     * The view of one channel: for `channel` in 0..2 (or -3..-1, counted
     * from the end) a new raster keeping only that channel; `None` when
     * there is no image or the index is out of range.
     */
    function ImageChannel(channel: int): (r: Option<Raster>)
      reads this, image
      ensures r.Some? <==> image != null && -3 <= channel < 3
      ensures r.Some? ==> r.value.WellFormed() && r.value.width == image.Length0 && r.value.height == image.Length1
      ensures r.Some? ==> forall x: nat, y: nat, j: nat :: x < image.Length0 && y < image.Length1 && j < ChannelCount ==>
        r.value.At(x, y).Get(j) == if j == channel % ChannelCount then image[x, y].Get(j) else 0
    {
      if image == null then None
      else
        var source := Snapshot(image);
        var selected := ListIndex(ChannelImages(source), channel);
        if selected.Some? then
          ChannelImageIsolates(source, channel % ChannelCount);
          selected
        else
          selected
    }

    /**
     * The ellipse call of the circle annotation: the square box centred on
     * (centerX, centerY) with half-side `radius`, red outline, width 2.
     */
    function DrawCircle(centerX: int, centerY: int, radius: int): (e: Ellipse)
      reads this
      requires image != null
      ensures e.topLeft.x + e.bottomRight.x == 2 * centerX && e.topLeft.y + e.bottomRight.y == 2 * centerY
      ensures e.bottomRight.x - e.topLeft.x == 2 * radius && e.bottomRight.y - e.topLeft.y == 2 * radius
      ensures e.outline == Pixel(255, 0, 0) && e.strokeWidth == 2
    {
      Ellipse(Point(centerX - radius, centerY - radius), Point(centerX + radius, centerY + radius),
              CircleColour, CircleStroke)
    }
  }

  /** A square is never negative. */
  lemma SquareNonNegative(d: int)
    ensures d * d >= 0
  {
    if d < 0 {
      assert d * d == (-d) * (-d);
    }
  }

  /** Beyond the radius on either side, the square exceeds the radius squared. */
  lemma SquareBeyond(r: int, d: int)
    requires r >= 0
    ensures d > r ==> r * r < d * d
    ensures d < -r ==> r * r < d * d
  {
    if d > r {
      assert r * r <= r * d < d * d;
    } else if d < -r {
      assert r * r <= r * (-d) < (-d) * (-d);
    }
  }

  /**
   * Every point of the closed disc of radius `radius` around the centre lies
   * inside the box that DrawCircle hands to the ellipse call.
   */
  lemma {:induction false} CircleInsideBox(editor: ImageEd, cx: int, cy: int, radius: int, px: int, py: int)
    requires editor.image != null && radius >= 0
    requires (px - cx) * (px - cx) + (py - cy) * (py - cy) <= radius * radius
    ensures editor.DrawCircle(cx, cy, radius).topLeft.x <= px <= editor.DrawCircle(cx, cy, radius).bottomRight.x
    ensures editor.DrawCircle(cx, cy, radius).topLeft.y <= py <= editor.DrawCircle(cx, cy, radius).bottomRight.y
  {
    SquareNonNegative(px - cx);
    SquareNonNegative(py - cy);
    SquareBeyond(radius, px - cx);
    SquareBeyond(radius, py - cy);
  }

  /**
   * The editor's usual sequence: load a 4 x 4 white image, reduce brightness
   * by 50, then view the red channel.
   */
  method LoadDimAndIsolate()
  {
    var editor := new ImageEd();
    var white := Pixel(255, 255, 255);
    editor.LoadImage(Some(Raster(4, 4, seq(4, _ => seq(4, _ => white)))));
    editor.DecreaseBrightness(50);
    assert forall x, y :: 0 <= x < 4 && 0 <= y < 4 ==> editor.image[x, y] == Pixel(205, 205, 205);
    var red := editor.ImageChannel(0);
    assert red.Some?;
    forall x: nat, y: nat | x < 4 && y < 4
      ensures red.value.At(x, y) == Pixel(205, 0, 0)
    {
      assert red.value.At(x, y).Get(0) == 205;
      assert red.value.At(x, y).Get(1) == 0;
      assert red.value.At(x, y).Get(2) == 0;
    }
    var none := editor.ImageChannel(3);
    assert none.None?;
  }
}
