/** The per-image step of `makeImage`: every chosen image is scaled so its
    longest side becomes a size drawn from 90..150 and rotated by one angle
    shared by the whole collage. */
module Transforms {
  import opened Random

  const MIN_SIZE: int := 90
  const MAX_SIZE: int := 150
  const MAX_ROTATION: int := 60

  datatype Size = Size(width: nat, height: nat)

  /** The factor handed to `image.scale`. JavaScript divides by zero without
      failing: a zero longest side gives an infinite factor. */
  datatype Scale = Finite(factor: real) | Infinite

  datatype Transform = Transform(rotation: int, scale: Scale)

  /** `Math.max(image.width, image.height)`. */
  function LongestSide(size: Size): nat
  {
    if size.width >= size.height then size.width else size.height
  }

  /** `maxSize / size`: the factor that takes the longest side to exactly
      `maxSize`, so that neither side ends up longer than `maxSize`. */
  function ScaleFor(maxSize: int, size: Size): (s: Scale)
    requires MIN_SIZE <= maxSize <= MAX_SIZE
    ensures s.Finite? <==> size.width > 0 || size.height > 0
    ensures s.Finite? ==> s.factor > 0.0
    ensures s.Finite? ==> s.factor * LongestSide(size) as real == maxSize as real
    ensures s.Finite? ==> size.width as real * s.factor <= maxSize as real
    ensures s.Finite? ==> size.height as real * s.factor <= maxSize as real
  {
    var longest := LongestSide(size);
    if longest == 0 then Infinite
    else
      var factor := maxSize as real / longest as real;
      assert size.width as real * factor <= longest as real * factor;
      assert size.height as real * factor <= longest as real * factor;
      Finite(factor)
  }

  /** The scaled longest side lies in the band the size is drawn from. */
  predicate InBand(size: Size, t: Transform)
  {
    t.scale.Finite? ==> MIN_SIZE as real <= t.scale.factor * LongestSide(size) as real <= MAX_SIZE as real
  }

  /** The transform image `i` receives: its own `maxSize`, drawn from `u`, and the shared angle. */
  function TransformFor(size: Size, rotation: int, u: real): Transform
    requires IsUnit(u)
  {
    Transform(rotation, ScaleFor(RandomInt(MIN_SIZE, MAX_SIZE, u), size))
  }

  /** The `_.times(images.length, ...)` loop: image `i` draws its own `maxSize`
      from `sizeDraws[i]` and takes the one rotation angle of the run. */
  method ApplyTransforms(sizes: seq<Size>, rotation: int, sizeDraws: seq<real>) returns (ts: seq<Transform>)
    requires |sizes| <= |sizeDraws| && AllUnit(sizeDraws)
    ensures |ts| == |sizes|
    ensures forall i :: 0 <= i < |ts| ==> ts[i].rotation == rotation
    ensures forall i :: 0 <= i < |ts| ==> (ts[i].scale.Finite? <==> LongestSide(sizes[i]) > 0)
    ensures forall i :: 0 <= i < |ts| ==> InBand(sizes[i], ts[i])
    ensures forall i :: 0 <= i < |ts| ==> ts[i] == TransformFor(sizes[i], rotation, sizeDraws[i])
  {
    ts := [];
    var i := 0;
    while i < |sizes|
      invariant 0 <= i <= |sizes|
      invariant |ts| == i
      invariant forall k :: 0 <= k < i ==> ts[k] == TransformFor(sizes[k], rotation, sizeDraws[k])
    {
      ts := ts + [TransformFor(sizes[i], rotation, sizeDraws[i])];
      i := i + 1;
    }
  }
}
