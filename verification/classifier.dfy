/** `isSuitable`: an image is usable for layering when all four of its corner
    pixels are fully transparent, a cheap sign of an isolated subject with no
    background. */
module Classifier {
  import opened Wrappers
  import opened Pixels

  const FULLY_TRANSPARENT: Byte := 0

  datatype Point = Point(x: int, y: int)

  /** Top-left, bottom-left, top-right and bottom-right, as the check visits them. */
  function Corners(width: nat, height: nat): set<Point>
  {
    {Point(0, 0), Point(0, height - 1), Point(width - 1, 0), Point(width - 1, height - 1)}
  }

  /** The corner test of `isSuitable`, reading alpha through `getPixelA`. */
  function CornersTransparent(img: ImageData): bool
  {
    && GetPixelA(img, 0, 0) == Some(FULLY_TRANSPARENT)
    && GetPixelA(img, 0, img.height - 1) == Some(FULLY_TRANSPARENT)
    && GetPixelA(img, img.width - 1, 0) == Some(FULLY_TRANSPARENT)
    && GetPixelA(img, img.width - 1, img.height - 1) == Some(FULLY_TRANSPARENT)
  }

  /** Every corner's alpha byte, read straight from the buffer, lies inside it and is 0. */
  predicate CornerAlphaZero(img: ImageData)
  {
    forall p :: p in Corners(img.width, img.height) ==>
      var offset := AlphaOffset(img.width, p.x, p.y);
      0 <= offset < |img.data| && img.data[offset] == FULLY_TRANSPARENT
  }

  /** For a non-empty image the verdict is true exactly when the alpha byte of
      each of the four corners is 0; one opaque or translucent corner makes it false. */
  lemma CornerVerdict(img: ImageData)
    requires img.Valid() && img.width > 0 && img.height > 0
    ensures CornersTransparent(img) <==> CornerAlphaZero(img)
  {
    var w, h := img.width, img.height;
    AlphaAt(img, 0, 0);
    AlphaAt(img, 0, h - 1);
    AlphaAt(img, w - 1, 0);
    AlphaAt(img, w - 1, h - 1);
  }

  /** A single corner whose alpha is not 0 rejects the image. */
  lemma OpaqueCornerRejects(img: ImageData, p: Point)
    requires img.Valid() && img.width > 0 && img.height > 0
    requires p in Corners(img.width, img.height)
    requires 0 <= AlphaOffset(img.width, p.x, p.y) < |img.data|
    requires img.data[AlphaOffset(img.width, p.x, p.y)] != FULLY_TRANSPARENT
    ensures !CornersTransparent(img)
  {
    CornerVerdict(img);
  }

  /** An image with no pixels has no defined corner alpha, so it is never suitable. */
  lemma EmptyImageUnsuitable(img: ImageData)
    requires img.Valid() && (img.width == 0 || img.height == 0)
    ensures !CornersTransparent(img)
  {
    assert |img.data| == 0;
  }

  /** Two images of the same size whose corner alpha bytes agree get the same verdict. */
  lemma VerdictDependsOnlyOnCornerAlpha(a: ImageData, b: ImageData)
    requires a.Valid() && b.Valid() && a.width == b.width && a.height == b.height
    requires forall p :: p in Corners(a.width, a.height) && 0 <= AlphaOffset(a.width, p.x, p.y) < |a.data| ==>
               a.data[AlphaOffset(a.width, p.x, p.y)] == b.data[AlphaOffset(a.width, p.x, p.y)]
    ensures CornersTransparent(a) == CornersTransparent(b)
  {
    if a.width == 0 || a.height == 0 {
      EmptyImageUnsuitable(a);
      EmptyImageUnsuitable(b);
    } else {
      CornerVerdict(a);
      CornerVerdict(b);
      var w, h := a.width, a.height;
      forall p | p in Corners(w, h)
        ensures 0 <= AlphaOffset(w, p.x, p.y) < |a.data|
      {
        AlphaAt(a, p.x, p.y);
      }
    }
  }

  /** Overwriting a red, green or blue byte never changes the verdict. */
  lemma ColourEditKeepsVerdict(img: ImageData, i: int, v: Byte)
    requires img.Valid() && 0 <= i < |img.data| && i % CHANNELS != ALPHA
    ensures CornersTransparent(img.(data := img.data[i := v])) == CornersTransparent(img)
  {
    var edited := img.(data := img.data[i := v]);
    forall p | p in Corners(img.width, img.height) && 0 <= AlphaOffset(img.width, p.x, p.y) < |img.data|
      ensures img.data[AlphaOffset(img.width, p.x, p.y)] == edited.data[AlphaOffset(img.width, p.x, p.y)]
    {
      assert AlphaOffset(img.width, p.x, p.y) % CHANNELS == ALPHA;
    }
    VerdictDependsOnlyOnCornerAlpha(img, edited);
  }

  /** Overwriting any byte of a pixel that is not a corner never changes the verdict. */
  lemma InteriorEditKeepsVerdict(img: ImageData, i: int, v: Byte)
    requires img.Valid() && 0 <= i < |img.data|
    requires forall p :: p in Corners(img.width, img.height) ==> i / CHANNELS != PixelIndex(img.width, p.x, p.y)
    ensures CornersTransparent(img.(data := img.data[i := v])) == CornersTransparent(img)
  {
    var edited := img.(data := img.data[i := v]);
    forall p | p in Corners(img.width, img.height) && 0 <= AlphaOffset(img.width, p.x, p.y) < |img.data|
      ensures img.data[AlphaOffset(img.width, p.x, p.y)] == edited.data[AlphaOffset(img.width, p.x, p.y)]
    {
      assert AlphaOffset(img.width, p.x, p.y) / CHANNELS == PixelIndex(img.width, p.x, p.y);
    }
    VerdictDependsOnlyOnCornerAlpha(img, edited);
  }

  /** What reading the downloaded file produced. */
  datatype FileOutcome =
    | ReadFailed                  // fs.readFile reported an error
    | Undecodable                 // the image's onerror handler fired
    | Loaded(image: ImageData)    // onload: the raster drawn onto a same-size canvas

  /** `isSuitable(path)`: `None` when the promise rejects (the file could not be
      read), otherwise the verdict it resolves to. A file that does not decode
      resolves to false rather than failing. */
  function IsSuitable(file: FileOutcome): (v: Option<bool>)
    ensures v.None? <==> file.ReadFailed?
    ensures v == Some(true) <==> file.Loaded? && CornersTransparent(file.image)
  {
    match file
    case ReadFailed => None
    case Undecodable => Some(false)
    case Loaded(image) => Some(CornersTransparent(image))
  }

  /** An image judged suitable has at least one row and one column. */
  lemma SuitableImageIsNonEmpty(img: ImageData)
    requires img.Valid() && CornersTransparent(img)
    ensures img.width > 0 && img.height > 0
  {
    if img.width == 0 || img.height == 0 {
      EmptyImageUnsuitable(img);
    }
  }
}
