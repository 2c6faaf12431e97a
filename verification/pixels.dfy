/** Addressing the flat RGBA buffer returned by a canvas `getImageData`:
    pixel `i` occupies bytes `4i .. 4i + 3` in R, G, B, A order, and pixel
    `(x, y)` is pixel `y * width + x` (row-major). */
module Pixels {
  import opened Wrappers

  /** One element of the `Uint8ClampedArray` behind an ImageData. */
  type Byte = b: int | 0 <= b < 256

  const CHANNELS: nat := 4
  const ALPHA: nat := 3

  /** `ctx.getImageData(0, 0, width, height)`: the dimensions and the raster. */
  datatype ImageData = ImageData(width: nat, height: nat, data: seq<Byte>) {
    /** The buffer holds exactly four bytes for each of the width * height pixels. */
    predicate Valid()
    {
      |data| == CHANNELS * (width * height)
    }

    predicate Contains(x: int, y: int)
    {
      0 <= x < width && 0 <= y < height
    }
  }

  /** Indexing a typed array: a position outside the buffer reads `undefined`. */
  function ByteAt(data: seq<Byte>, i: int): (r: Option<Byte>)
    ensures r.Some? <==> 0 <= i < |data|
    ensures r.Some? ==> r.value == data[i]
  {
    if 0 <= i < |data| then Some(data[i]) else None
  }

  /** The row-major pixel index of `(x, y)`. */
  function PixelIndex(width: int, x: int, y: int): int
  {
    y * width + x
  }

  /** `getPixel(data, index)`: the four channels `[R, G, B, A]` of pixel `index`. */
  function GetPixel(data: seq<Byte>, index: int): (px: seq<Option<Byte>>)
    ensures |px| == CHANNELS
    ensures forall c :: 0 <= c < CHANNELS ==> (px[c].Some? <==> 0 <= CHANNELS * index + c < |data|)
    ensures forall c :: 0 <= c < CHANNELS && px[c].Some? ==> px[c].value == data[CHANNELS * index + c]
  {
    var i := index * 4;
    [ByteAt(data, i), ByteAt(data, i + 1), ByteAt(data, i + 2), ByteAt(data, i + 3)]
  }

  /** `getPixelXY(data, x, y)`: pixel `(x, y)` of a row-major image; every
      channel of a pixel inside a well-formed image is defined. */
  function GetPixelXY(img: ImageData, x: int, y: int): (px: seq<Option<Byte>>)
    ensures |px| == CHANNELS
    ensures img.Valid() && img.Contains(x, y) ==> forall c :: 0 <= c < CHANNELS ==> px[c].Some?
  {
    var index := PixelIndex(img.width, x, y);
    assert img.Valid() && img.Contains(x, y) ==> CHANNELS * index + ALPHA < |img.data| by {
      if img.Valid() && img.Contains(x, y) {
        PixelIndexInBounds(img.width, img.height, x, y);
      }
    }
    GetPixel(img.data, index)
  }

  /** `getPixelA(data, x, y)`: the alpha channel of pixel `(x, y)`. */
  function GetPixelA(img: ImageData, x: int, y: int): Option<Byte>
  {
    GetPixelXY(img, x, y)[ALPHA]
  }

  /** The byte offset of the alpha channel of pixel `(x, y)`. */
  function AlphaOffset(width: int, x: int, y: int): int
  {
    CHANNELS * PixelIndex(width, x, y) + ALPHA
  }

  /** Every pixel of a `width` x `height` image has an index below `width * height`. */
  lemma PixelIndexInBounds(width: nat, height: nat, x: int, y: int)
    requires 0 <= x < width && 0 <= y < height
    ensures 0 <= PixelIndex(width, x, y) < width * height
  {
    assert y * width <= (height - 1) * width;
  }

  /** A nonzero multiple of `w` is at least `w` away from zero. */
  lemma ProductMagnitude(d: int, w: int)
    requires w >= 0
    ensures d == 0 || d * w >= w || d * w <= -w
  {
    if d > 0 {
      assert (d - 1) * w >= 0;
    } else if d < 0 {
      assert (-d - 1) * w >= 0;
    }
  }

  /** Two pixels of one row width with the same index are the same pixel. */
  lemma PixelIndexInjective(width: nat, x1: int, y1: int, x2: int, y2: int)
    requires 0 <= x1 < width && 0 <= x2 < width && 0 <= y1 && 0 <= y2
    requires PixelIndex(width, x1, y1) == PixelIndex(width, x2, y2)
    ensures x1 == x2 && y1 == y2
  {
    assert (y1 - y2) * width == x2 - x1;
    ProductMagnitude(y1 - y2, width);
  }

  /** Every index below `width * height` is the index of a pixel of the image. */
  lemma PixelIndexSurjective(width: nat, height: nat, i: int) returns (x: int, y: int)
    requires 0 <= i < width * height
    ensures 0 <= x < width && 0 <= y < height
    ensures PixelIndex(width, x, y) == i
  {
    x, y := i % width, i / width;
  }

  /** Reading a buffer pixel by pixel recovers every byte: byte `k` is channel
      `k % 4` of pixel `k / 4`. */
  lemma PixelViewCoversBuffer(data: seq<Byte>)
    ensures forall k :: 0 <= k < |data| ==> GetPixel(data, k / CHANNELS)[k % CHANNELS] == Some(data[k])
  {
    forall k | 0 <= k < |data|
      ensures GetPixel(data, k / CHANNELS)[k % CHANNELS] == Some(data[k])
    {
      assert CHANNELS * (k / CHANNELS) + k % CHANNELS == k;
    }
  }

  /** Channel `c` of pixel `(x, y)` is the byte at `4 * (y * width + x) + c`. */
  lemma PixelAt(img: ImageData, x: int, y: int)
    requires img.Valid() && img.Contains(x, y)
    ensures forall c :: 0 <= c < CHANNELS ==>
              0 <= CHANNELS * PixelIndex(img.width, x, y) + c < |img.data| &&
              GetPixelXY(img, x, y)[c] == Some(img.data[CHANNELS * PixelIndex(img.width, x, y) + c])
  {
    PixelIndexInBounds(img.width, img.height, x, y);
  }

  /** `getPixelA(data, x, y)` is the byte at `4 * (y * width + x) + 3`, which
      lies inside the buffer of a well-formed image. */
  lemma AlphaAt(img: ImageData, x: int, y: int)
    requires img.Valid() && img.Contains(x, y)
    ensures 0 <= AlphaOffset(img.width, x, y) < |img.data|
    ensures GetPixelA(img, x, y) == Some(img.data[AlphaOffset(img.width, x, y)])
  {
    PixelIndexInBounds(img.width, img.height, x, y);
  }
}
