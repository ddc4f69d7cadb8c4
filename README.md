# IMAGEd editing core in Dafny

A model of `ImageEd`, the editing class of the IMAGEd desktop image editor.
The editor holds one current image, which may be absent. The image is an
"RGB" raster: a width x height grid of (R, G, B) pixels with 8-bit channels.
The model covers:

- the editor's state: a fresh editor has no image, and loading replaces the
  image only when decoding succeeded;
- brightness reduction: a row-by-row double loop that rewrites every pixel
  of the image's own buffer in place;
- the channel view: a new raster that keeps one channel and zeroes the other
  two, built from the image's split planes without touching the image;
- the circle annotation: the square box, colour and stroke width that the
  editor hands to the ellipse drawing call.

Files:

- `wrappers.dfy`: module `Wrappers`, the `Option` type that stands for Python's `None`.
- `pixels.dfy`: module `Pixels`. It defines channels, pixels and rasters as
  values. It also holds the brightness function `Dimmed`, the split/merge
  functions behind the channel view, and the lemmas about them.
- `editor.dfy`: module `Editor`. It holds class `ImageEd`, whose `image` field
  is an `array2?<Pixel>` read as `image[x, y]`, with `null` for `None`. It
  also holds the circle geometry lemma and `LoadDimAndIsolate`. That method
  is a client: it loads a 4 x 4 white image, reduces brightness by 50 and
  views the red channel, using only the contracts.

Three behaviours of the code that a reader might not expect, all followed by the model:

- The channel index goes straight into a Python list. So -1, -2 and -3 select
  blue, green and red, and only indices below -3 or above 2 give `None`.
- Calling the channel view with no image raises `AttributeError` inside the
  `try`, and the `except` catches it, so the result is `None` rather than a
  failure.
- A brightness amount above 255 does nothing, even when no image is loaded.
  An amount of 255 or less with no image is a crash, so the model requires an
  image in that case.

## Model

| member | source | states |
|---|---|---|
| `Editor.ImageEd.constructor` | IMAGEd.py:9-14 | a new editor holds no image |
| `Editor.ImageEd.LoadImage` | IMAGEd.py:16-26 | a successful decode replaces the image with a new buffer holding exactly the decoded raster; a failed one leaves the image as it was |
| `Editor.Snapshot` | IMAGEd.py:81-82 | the raster read from a pixel buffer has the buffer's width and height, and its pixel (x, y) is the buffer's `[x, y]` |
| `Editor.ImageEd.DecreaseBrightness` | IMAGEd.py:74-88 | above 255 the image is unchanged; otherwise the buffer, in place, becomes `Dimmed` of its old contents: every pixel (x, y) is dimmed exactly once at its own coordinates, and width, height and channel count are kept |
| `Pixels.DimChannel` | IMAGEd.py:87 | the new channel is at most the old one, at least the old one minus the amount, never negative, and either 0 or exactly the old one minus the amount, so it is max(0, c - value) |
| `Pixels.DimPixel` | IMAGEd.py:87 | each of the three channels of the tuple is dimmed on its own |
| `Pixels.Dimmed` | IMAGEd.py:84-88 | the dimmed raster has the source's size and, at every (x, y), the dimmed source pixel |
| `Pixels.DimmedChannel` | IMAGEd.py:84-88 | every channel c of every pixel becomes exactly c - value when c >= value, and 0 otherwise |
| `Pixels.DimmedNeverBrightens` | IMAGEd.py:87 | every channel ends in [0, c_old]: no channel ever increases |
| `Pixels.DimmedByZero` | IMAGEd.py:87 | an amount of 0 gives back the same raster |
| `Pixels.DimmedTwice` | IMAGEd.py:87 | reducing by a and then by b gives the same raster as reducing by a + b |
| `Pixels.Split` | IMAGEd.py:63 | plane k of `split()` has the raster's size and holds channel k of every pixel |
| `Pixels.Blank` | IMAGEd.py:64 | `point(lambda _: 0)` gives a plane of the same shape holding only zeros |
| `Pixels.Merge` | IMAGEd.py:65-67 | merging three planes of one size gives a raster of that size whose pixel (x, y) is made of the three planes' values at (x, y) |
| `Pixels.ChannelImages` | IMAGEd.py:65-68 | the list of channel images has one entry per channel |
| `Pixels.ChannelImageIsolates` | IMAGEd.py:62-68 | channel image k has the source's size, holds the source's channel k unchanged, and is 0 in the other two channels everywhere |
| `Pixels.ChannelImageIdempotent` | IMAGEd.py:62-68 | isolating channel k of channel image k gives channel image k again |
| `Pixels.ChannelImagesRecombine` | IMAGEd.py:63-68 | merging the kept plane of the red, green and blue channel images restores the source raster |
| `Editor.ListIndex` | IMAGEd.py:69-72 | Python list indexing: an index in [-n, n) yields an element, with a negative index counting from the end; any other index is the caught `IndexError`, so the result is `None` |
| `Editor.ImageEd.ImageChannel` | IMAGEd.py:57-72 | the result is a raster exactly when an image is loaded and the index is in [-3, 3); that raster has the image's size, carries the image's channel (index mod 3) and is 0 in the other two channels; the image is only read |
| `Editor.ImageEd.DrawCircle` | IMAGEd.py:90-100 | the ellipse box is centred on (centerX, centerY) with side 2 * radius on both axes; the outline is (255, 0, 0) and the stroke width is 2 |
| `Editor.CircleInsideBox` | IMAGEd.py:98-100 | every point within `radius` of the centre lies inside the box that DrawCircle passes to the drawing call |

## Left out

- Pixel rasterisation of the circle: which pixels the two-pixel red outline covers is decided by Pillow's `ImageDraw.ellipse`, whose code is not part of this model. So `DrawCircle` does not change the buffer, and clipping of a box outside the image is not modelled.
- Editor.ImageEd.DrawCircle: the box is modelled as given for any radius. For a negative radius the box is inverted, and what Pillow does then is not modelled.
- Editor.ImageEd.DecreaseBrightness: requires a non-negative amount. A negative amount would push channels above 255, and how Pillow stores such values is library behaviour. The input field that feeds it only accepts 0 to 255 (GUI.py:89).
- Editor.ImageEd.LoadImage: file reading and decoding are a parameter (`decoded`). The path where opening succeeds but the RGB conversion fails, which leaves the unconverted image in place, is not modelled, because the model only holds RGB rasters.
- `save_image` (IMAGEd.py:102-107): encoding and writing a file through Pillow is I/O with nothing to compute.
- `load_photo` (IMAGEd.py:29-55): camera capture through OpenCV is device I/O.
- The `image_backup` field (IMAGEd.py:14): it is set to `None` and never used again.
- Resizing: the window calls a `resizer` method that `ImageEd` does not define, so there is no code to model.
- The "RGB" conversion in the channel view (IMAGEd.py:62): the model only holds RGB rasters, so it is an unchanged copy here. Images in other modes are not modelled.
- Printing of caught exceptions (IMAGEd.py:25, IMAGEd.py:72): console output only.
- The window, its widgets and input validation (GUI.py) and the application start-up (main.py).
