/** `makeImage` up to the hand-off to the layout grid: search, sample up to
    ten URLs, probe them, sample one to three of the suitable images, and give
    each a scale and the run's shared rotation. Every `Math.random()` draw,
    the search response and the outcome of every download are inputs. */
module Pipeline {
  import opened Wrappers
  import opened Sequences
  import opened Random
  import opened Pixels
  import opened Classifier
  import opened Search
  import opened CandidatePool
  import opened Transforms

  /** At most this many search results are downloaded and probed. */
  const PROBE_LIMIT: nat := 10
  /** The collage uses between one and this many images. */
  const MAX_IMAGES: int := 3

  /** Why a run ends without a collage: the search request failed, the
      download or file read of the probe at this position threw, or (in the
      corrected run only) no image passed the corner check. */
  datatype RunError = SearchFailed | ProbeFailed(at: nat) | NoCandidates

  /** The `Math.random()` draws of one run, grouped by the call that consumes them. */
  datatype Draws = Draws(
    urlShuffle: seq<real>,     // _.sample(urls, 10)
    rotation: real,            // _.random(-60, 60)
    imageCount: real,          // _.random(1, 3)
    imageShuffle: seq<real>,   // _.sample(candidates, count)
    sizes: seq<real>)          // _.random(90, 150), once per chosen image
  {
    predicate Valid()
    {
      && |urlShuffle| >= PROBE_LIMIT && AllUnit(urlShuffle)
      && IsUnit(rotation) && IsUnit(imageCount)
      && |imageShuffle| >= MAX_IMAGES && AllUnit(imageShuffle)
      && |sizes| >= MAX_IMAGES && AllUnit(sizes)
    }
  }

  /** One image of the set handed to the layout grid, with the transform applied to it. */
  datatype Layer = Layer(path: string, image: ImageData, transform: Transform)

  function LayerPath(l: Layer): string
  {
    l.path
  }

  /** The raster a probe's file decoded to; the image set loads the same file
      again from its path. A probe with no image yields an empty raster. */
  function LoadedImage(p: Probe): ImageData
  {
    if p.Downloaded? && p.file.Loaded? then p.file.image else ImageData(0, 0, [])
  }

  function SizeOf(img: ImageData): Size
  {
    Size(img.width, img.height)
  }

  /** The rasters every decoded file produces are well formed. */
  predicate WellFormedProbes(probes: seq<Probe>)
  {
    forall k :: 0 <= k < |probes| && probes[k].Downloaded? && probes[k].file.Loaded? ==>
      probes[k].file.image.Valid()
  }

  /** A layer whose image passed the corner check and whose scaled longest side
      lies in the size band. */
  predicate GoodLayer(l: Layer)
  {
    && CornersTransparent(l.image)
    && l.image.width > 0 && l.image.height > 0
    && l.transform.scale.Finite?
    && InBand(SizeOf(l.image), l.transform)
  }

  /** A probe drawn from the kept ones carries a well-formed image that passed
      the corner check. */
  lemma KeptProbeImage(probes: seq<Probe>, p: Probe)
    requires WellFormedProbes(probes)
    requires p in Filter(probes, KeptBy(IsSuitable))
    ensures CornersTransparent(LoadedImage(p))
    ensures LoadedImage(p).width > 0 && LoadedImage(p).height > 0
  {
    FilterMember(probes, KeptBy(IsSuitable), p);
    assert Kept(IsSuitable, p);
    SuitableImageIsNonEmpty(p.file.image);
  }

  /** Every element of a sub-multiset of `xs` occurs in `xs`. */
  lemma SubMultisetMembers<T>(chosen: seq<T>, xs: seq<T>)
    requires multiset(chosen) <= multiset(xs)
    ensures forall i :: 0 <= i < |chosen| ==> chosen[i] in xs
  {
    forall i | 0 <= i < |chosen|
      ensures chosen[i] in xs
    {
      assert chosen[i] in multiset(chosen);
    }
  }

  /** The probes whose images `_.sample(candidates, count)` picks, in pick order. */
  function ChosenProbes(probes: seq<Probe>, count: nat, draws: Draws): seq<Probe>
    requires draws.Valid() && count <= MAX_IMAGES
  {
    Sample(Filter(probes, KeptBy(IsSuitable)), count, draws.imageShuffle)
  }

  /** Layer `i` shows the raster of the `i`-th probe `_.sample(candidates, count)`
      picks, scaled by the `i`-th size draw and turned by `rotation`. */
  predicate LayersFrom(layers: seq<Layer>, probes: seq<Probe>, count: nat, rotation: int, draws: Draws)
    requires draws.Valid() && count <= MAX_IMAGES
  {
    var chosen := ChosenProbes(probes, count, draws);
    && |layers| == |chosen|
    && forall i :: 0 <= i < |layers| ==>
         && layers[i].image == LoadedImage(chosen[i])
         && layers[i].transform == TransformFor(SizeOf(layers[i].image), rotation, draws.sizes[i])
  }

  /** The probes are the downloads of `_.sample(urls, 10)`, in order, so at
      most ten URLs are probed, none more often than the search returned it,
      and each is the `MediaUrl` of a result that is not a JPEG. */
  lemma ProbedUrls(results: seq<SearchResult>, probes: seq<Probe>, draws: Draws)
    requires draws.Valid()
    requires Map(probes, UrlOf) == Sample(CandidateUrls(results), PROBE_LIMIT, draws.urlShuffle)
    ensures |probes| == Min(PROBE_LIMIT, |CandidateUrls(results)|)
    ensures multiset(Map(probes, UrlOf)) <= multiset(CandidateUrls(results))
    ensures forall k :: 0 <= k < |probes| ==> ReturnedUrl(results, probes[k].url)
  {
    var urls := CandidateUrls(results);
    var probed := Map(probes, UrlOf);
    SamplePermutes(urls, PROBE_LIMIT, draws.urlShuffle);
    SubMultisetMembers(probed, urls);
    forall k | 0 <= k < |probes|
      ensures ReturnedUrl(results, probes[k].url)
    {
      assert probed[k] == probes[k].url;
      var j' :| 0 <= j' < |urls| && urls[j'] == probed[k];
    }
  }

  /** The part of `makeImage` after probing: sample `count` of the candidates
      and transform each one, all with the same `rotation`. Layer `i` shows
      the raster of the `i`-th probe picked and is scaled by the `i`-th size draw. */
  method ChooseLayers(probes: seq<Probe>, rotation: int, count: int, draws: Draws) returns (layers: seq<Layer>)
    requires draws.Valid() && 1 <= count <= MAX_IMAGES
    requires WellFormedProbes(probes)
    ensures |layers| == Min(count, |Candidates(probes, IsSuitable)|)
    ensures Map(layers, LayerPath) == Sample(Candidates(probes, IsSuitable), count, draws.imageShuffle)
    ensures forall i :: 0 <= i < |layers| ==> GoodLayer(layers[i]) && layers[i].transform.rotation == rotation
    ensures LayersFrom(layers, probes, count, rotation, draws)
  {
    var kept := Filter(probes, KeptBy(IsSuitable));
    var chosen := Sample(kept, count, draws.imageShuffle);
    SamplePermutes(kept, count, draws.imageShuffle);
    SampleCommutesWithMap(kept, count, draws.imageShuffle, PathOf);
    SubMultisetMembers(chosen, kept);
    forall i | 0 <= i < |chosen|
      ensures CornersTransparent(LoadedImage(chosen[i]))
      ensures LoadedImage(chosen[i]).width > 0 && LoadedImage(chosen[i]).height > 0
    {
      KeptProbeImage(probes, chosen[i]);
    }
    var images := Map(chosen, LoadedImage);
    var ts := ApplyTransforms(Map(images, SizeOf), rotation, draws.sizes);
    layers := seq(|chosen|, i requires 0 <= i < |chosen| => Layer(chosen[i].path, images[i], ts[i]));
    assert Map(layers, LayerPath) == Map(chosen, PathOf);
  }

  /** A whole run of `makeImage` up to the layout grid. The probes are the
      downloads of `_.sample(urls, 10)`, in order. A failed search or a
      throwing probe ends the run; otherwise the result is the layers handed
      to the grid, in selection order. Finding no suitable image does not end
      the run: it yields no layers. */
  method MakeCollage(search: Option<seq<SearchResult>>, probes: seq<Probe>, draws: Draws)
    returns (r: Result<seq<Layer>, RunError>)
    requires draws.Valid()
    requires search.Some? ==> Map(probes, UrlOf) == Sample(CandidateUrls(search.value), PROBE_LIMIT, draws.urlShuffle)
    requires WellFormedProbes(probes)
    ensures search.None? <==> r == Failure(SearchFailed)
    ensures search.Some? ==> |probes| == Min(PROBE_LIMIT, |CandidateUrls(search.value)|)
    ensures search.Some? ==> forall k :: 0 <= k < |probes| ==> ReturnedUrl(search.value, probes[k].url)
    ensures search.Some? ==> (r.Failure? <==> exists k :: 0 <= k < |probes| && Throws(IsSuitable, probes[k]))
    ensures r.Failure? ==> !r.error.NoCandidates?
    ensures r.Failure? && r.error.ProbeFailed? ==>
              && r.error.at < |probes| && Throws(IsSuitable, probes[r.error.at])
              && forall k :: 0 <= k < r.error.at ==> !Throws(IsSuitable, probes[k])
    ensures r.Success? ==>
              && |Candidates(probes, IsSuitable)| <= |probes| <= PROBE_LIMIT
              && |r.value| <= MAX_IMAGES
              && (|r.value| == 0 <==> |Candidates(probes, IsSuitable)| == 0)
              && Map(r.value, LayerPath) ==
                   Sample(Candidates(probes, IsSuitable), RandomInt(1, MAX_IMAGES, draws.imageCount), draws.imageShuffle)
    ensures r.Success? ==> forall i :: 0 <= i < |r.value| ==> GoodLayer(r.value[i])
    ensures r.Success? ==> forall i :: 0 <= i < |r.value| ==>
              r.value[i].transform.rotation == RandomInt(-MAX_ROTATION, MAX_ROTATION, draws.rotation)
    ensures r.Success? ==> LayersFrom(r.value, probes, RandomInt(1, MAX_IMAGES, draws.imageCount),
                                      RandomInt(-MAX_ROTATION, MAX_ROTATION, draws.rotation), draws)
  {
    if search.None? {
      return Failure(SearchFailed);
    }
    ProbedUrls(search.value, probes, draws);
    var collected := CollectCandidates(probes, IsSuitable);
    if collected.Failure? {
      return Failure(ProbeFailed(collected.error));
    }
    var rotation := RandomInt(-MAX_ROTATION, MAX_ROTATION, draws.rotation);
    var count := RandomInt(1, MAX_IMAGES, draws.imageCount);
    assert |Candidates(probes, IsSuitable)| <= |probes|;
    var layers := ChooseLayers(probes, rotation, count, draws);
    return Success(layers);
  }

  /** With a single URL, `_.sample(urls, 10)` returns it whatever the draws. */
  lemma SingleUrlSampled(results: seq<SearchResult>, probes: seq<Probe>, zeros: seq<real>)
    requires results == [SearchResult("image/png", "http://example.com/a.png")]
    requires probes == [Downloaded("http://example.com/a.png", "./out/1.png", Undecodable)]
    requires zeros == seq(PROBE_LIMIT, i => 0.0)
    ensures Map(probes, UrlOf) == Sample(CandidateUrls(results), PROBE_LIMIT, zeros)
  {
    var urls := CandidateUrls(results);
    assert urls == ["http://example.com/a.png"];
    var sampled := Sample(urls, PROBE_LIMIT, zeros);
    SamplePermutes(urls, PROBE_LIMIT, zeros);
    assert sampled[0] in multiset(urls);
  }

  /** One run that goes ahead with no images: a single non-JPEG result whose
      download does not decode. */
  method EmptyCollageExample() returns (r: Result<seq<Layer>, RunError>)
    ensures r == Success([])
  {
    var results := [SearchResult("image/png", "http://example.com/a.png")];
    var probes := [Downloaded("http://example.com/a.png", "./out/1.png", Undecodable)];
    var zeros := seq(PROBE_LIMIT, i => 0.0);
    SingleUrlSampled(results, probes, zeros);
    assert Filter(probes, KeptBy(IsSuitable)) == [] by {
      FilterMember(probes, KeptBy(IsSuitable), probes[0]);
    }
    r := MakeCollage(Some(results), probes, Draws(zeros, 0.0, 0.0, zeros, zeros));
  }

  /** `makeImage` as evidently intended: a run that finds no suitable image
      fails instead of composing a collage with nothing on it. */
  method MakeCollageChecked(search: Option<seq<SearchResult>>, probes: seq<Probe>, draws: Draws)
    returns (r: Result<seq<Layer>, RunError>)
    requires draws.Valid()
    requires search.Some? ==> Map(probes, UrlOf) == Sample(CandidateUrls(search.value), PROBE_LIMIT, draws.urlShuffle)
    requires WellFormedProbes(probes)
    ensures search.None? <==> r == Failure(SearchFailed)
    ensures r == Failure(NoCandidates) <==>
              && search.Some?
              && (forall k :: 0 <= k < |probes| ==> !Throws(IsSuitable, probes[k]))
              && Candidates(probes, IsSuitable) == []
    ensures r.Success? ==> 1 <= |r.value| <= MAX_IMAGES
    ensures r.Success? ==> forall i :: 0 <= i < |r.value| ==> GoodLayer(r.value[i])
  {
    r := MakeCollage(search, probes, draws);
    if r.Success? && r.value == [] {
      r := Failure(NoCandidates);
    }
  }

  method EmptyCollageExampleChecked() returns (r: Result<seq<Layer>, RunError>)
    ensures r == Failure(NoCandidates)
  {
    var results := [SearchResult("image/png", "http://example.com/a.png")];
    var probes := [Downloaded("http://example.com/a.png", "./out/1.png", Undecodable)];
    var zeros := seq(PROBE_LIMIT, i => 0.0);
    SingleUrlSampled(results, probes, zeros);
    assert Filter(probes, KeptBy(IsSuitable)) == [] by {
      FilterMember(probes, KeptBy(IsSuitable), probes[0]);
    }
    r := MakeCollageChecked(Some(results), probes, Draws(zeros, 0.0, 0.0, zeros, zeros));
  }
}
