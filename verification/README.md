# poisson-fields: a Dafny model of the collage bot's selection logic

`poisson-fields.js` is a bot that builds and posts a small collage. It picks a
random noun and searches Bing for "transparent <noun>". It drops the JPEG
results, downloads up to ten of the rest, and keeps each image whose four corner
pixels are fully transparent. Then it chooses one to three of the kept images,
scales each one so that its longest side is a random 90–150 px, and rotates
them all by one shared random angle. The layout grid places and draws them.

This project models the pure logic behind that flow, in Dafny:

- `Pixels` (`pixels.dfy`) addresses the flat RGBA buffer of a canvas
  `ImageData`. This covers `getPixel`, `getPixelXY` and `getPixelA`, with
  JavaScript's `undefined` for reads outside the buffer.
- `Classifier` (`classifier.dfy`) holds the corner-transparency test and the
  three ways `isSuitable` settles: reject, `false` and the corner verdict.
- `Search` (`search.dfy`) is the JPEG filter and the `MediaUrl` projection of `search`.
- `CandidatePool` (`candidates.dfy`) is the download-and-classify loop of
  `makeImage`. The verdict is a parameter of the loop.
- `Transforms` (`transforms.dfy`) is the per-image scale factor and the shared rotation.
- `Random` (`random.dfy`) covers lodash's `_.random` and `_.sample`. Each
  `Math.random()` draw is an input in [0, 1).
- `Pipeline` (`pipeline.dfy`) composes the stages into one run of `makeImage`,
  up to the call into the layout grid.
- `Sequences` (`sequences.dfy`) and `Wrappers` (`wrappers.dfy`) hold the
  order-preserving filter/map and the `Option`/`Result` types.

I/O is replaced by inputs:

- The Bing response is `Option<seq<SearchResult>>`, where `None` means the request failed.
- Each download and file read is a `Probe`. It records the URL requested,
  the saved path and whether the download failed, the read failed, the file did not decode, or
  which raster it decoded to.
- Every random draw is a real in [0, 1).

Numbers are unbounded integers and exact reals, so there is no float rounding.

Three behaviours of the code are easy to miss; the model follows the code:

- A failed download or file read rejects a promise. The `await` inside the
  loop then throws, and `makeImage`'s `catch` ends the whole run. One bad asset
  therefore does not just drop out of the pool: the run fails, and
  `CollectCandidates` reports the position of the first probe that threw.
- An empty candidate list is not an error in the code. `_.sample([], k)` is
  empty and the run carries on with no images. See "## Findings".
- Candidates are not deduplicated. Every path pushed is the path a download
  wrote.

## Model

| member | source | states |
|---|---|---|
| `Pixels.GetPixel` | poisson-fields.js:26-36 | Channel `c` (R, G, B, A for c = 0..3) of pixel `index` is the byte at `4*index + c`. A channel is `undefined` exactly when that offset falls outside the buffer. |
| `Pixels.PixelViewCoversBuffer` | poisson-fields.js:26-36 | Reading pixel by pixel loses nothing: byte `k` of any buffer is channel `k % 4` of pixel `k / 4`. |
| `Pixels.GetPixelXY` | poisson-fields.js:38-40 | For a buffer of `4*W*H` bytes, every channel of a pixel `(x, y)` with `0 <= x < W` and `0 <= y < H` is defined. |
| `Pixels.PixelAt` | poisson-fields.js:38-40 | In a well-formed image, channel `c` of the in-image pixel `(x, y)` is the byte at `4*(y*W + x) + c`, and that offset is inside the buffer. Pixels are laid out row-major. |
| `Pixels.PixelIndexInBounds` | poisson-fields.js:38-40 | The row-major index `y*W + x` of a pixel inside a `W`×`H` image is in `[0, W*H)`. |
| `Pixels.PixelIndexInjective` | poisson-fields.js:38-40 | Two in-row coordinates with the same row-major index are the same pixel. |
| `Pixels.PixelIndexSurjective` | poisson-fields.js:38-40 | Every index in `[0, W*H)` is the row-major index of some pixel `(x, y)` of the image. With injectivity, `(x, y) -> y*W + x` is a bijection. |
| `Pixels.AlphaAt` | poisson-fields.js:42-44 | For a well-formed image and an in-image pixel, `getPixelA(data, x, y)` is the byte at `4*(y*W + x) + 3`, and that offset is inside the buffer. |
| `Classifier.CornerVerdict` | poisson-fields.js:69-73 | For a non-empty image, the corner test is true iff the alpha bytes at (0,0), (0,H-1), (W-1,0) and (W-1,H-1), read straight from the buffer, all equal `FULLY_TRANSPARENT` (0). |
| `Classifier.OpaqueCornerRejects` | poisson-fields.js:69-73 | A nonzero alpha at any one corner makes the verdict false. |
| `Classifier.EmptyImageUnsuitable` | poisson-fields.js:62-73 | The corner test on an image with zero width or height, whose buffer is empty, is false: its corner reads are `undefined`, which is never `=== 0`. |
| `Classifier.VerdictDependsOnlyOnCornerAlpha` | poisson-fields.js:69-73 | Two same-size images whose four corner alpha bytes agree get the same verdict. |
| `Classifier.ColourEditKeepsVerdict` | poisson-fields.js:69-73 | Overwriting any R, G or B byte leaves the verdict unchanged. |
| `Classifier.InteriorEditKeepsVerdict` | poisson-fields.js:69-73 | Overwriting any byte of a non-corner pixel leaves the verdict unchanged. |
| `Classifier.IsSuitable` | poisson-fields.js:46-81 | The promise rejects iff the file read fails. It resolves to true iff the file decodes and the corner test passes, so an undecodable file resolves to false. |
| `Classifier.SuitableImageIsNonEmpty` | poisson-fields.js:62-75 | A well-formed image judged suitable has width and height of at least 1. |
| `Search.CandidateUrls` | poisson-fields.js:90-95 | No more URLs than results. The URL of every result whose `ContentType` is neither `image/jpeg` nor `image/jpg` is among them. Every URL comes from such a result. |
| `Search.CandidateUrlsInOrder` | poisson-fields.js:90-95 | The URLs are the `MediaUrl`s of exactly the non-JPEG results, one each, at strictly increasing result positions. |
| `Search.JpegResultIgnored` | poisson-fields.js:90-93 | Removing a JPEG result anywhere in the response leaves the URL list unchanged. |
| `Random.RandomInt` | poisson-fields.js:152 | `_.random(lo, hi)` returns an integer in `[lo, hi]` for every draw. |
| `Random.RandomIntCovers` | poisson-fields.js:163 | Every integer of `[lo, hi]`, e.g. every `maxSize` from 90 to 150, is returned for some draw. |
| `Random.Sample` | poisson-fields.js:127 | `_.sample(xs, n)` returns as many elements as the smaller of `n` and the length of `xs`: the first ones of lodash 3's partial Fisher–Yates shuffle. |
| `Random.SamplePermutes` | poisson-fields.js:127 | The sample is a sub-multiset of `xs`, so nothing is picked more often than it occurs. When `n` is at least the length of `xs` it is a permutation of `xs`. |
| `Random.ShufflePermutes` | poisson-fields.js:127 | The partial shuffle behind `_.sample` only permutes its input. |
| `Random.SampleCommutesWithMap` | poisson-fields.js:154 | Sampling depends on positions only: sampling the paths of the kept probes picks the paths of the probes that sampling the probes picks. |
| `CandidatePool.CandidatesStep` | poisson-fields.js:134-138 | Probing one more URL appends its path iff its verdict is true, and otherwise leaves the candidates unchanged. |
| `CandidatePool.CollectCandidates` | poisson-fields.js:129-139 | The loop fails iff some probe throws, and then at the first one that throws. Otherwise it returns the order-preserving filter of the probed paths whose verdict is true. |
| `CandidatePool.CandidatesInOrder` | poisson-fields.js:127-139 | The candidates are the paths of exactly the probes judged suitable, one each, at strictly increasing probe positions. There are no more of them than probes. |
| `Transforms.ScaleFor` | poisson-fields.js:163-166 | For `90 <= maxSize <= 150` and a non-empty image, the factor is positive, times the longest side it gives exactly `maxSize`, and neither side scales beyond `maxSize`. A 0×0 image gets an infinite factor. |
| `Transforms.ApplyTransforms` | poisson-fields.js:160-170 | Image `i` gets the shared rotation and the factor `_.random(90, 150) / max(w, h)`, where the random value is drawn from size draw `i` and `w`×`h` is that image's size. So a non-empty image gets a finite factor that puts its scaled longest side in [90, 150]. A 0×0 image gets an infinite one. |
| `Pipeline.ChooseLayers` | poisson-fields.js:152-170 | The chosen layers' paths are `_.sample(candidates, count)`, in order. Layer `i` shows the raster of the `i`-th probe picked. Its transform is the shared rotation plus the scale drawn from size draw `i` for that raster's size. Each layer's image passed the corner check, is non-empty, and has its longest side scaled into [90, 150]. |
| `Pipeline.ProbedUrls` | poisson-fields.js:127-130 | The probes are the downloads of `_.sample(urls, 10)` of the search's URLs, in order. As many are probed as the smaller of 10 and the number of URLs, and none more often than the search returned it. Each URL probed is the `MediaUrl` of a result that is not a JPEG. |
| `Pipeline.MakeCollage` | poisson-fields.js:120-176 | The probed URLs are `_.sample(urls, 10)` of the search's non-JPEG URLs: at most 10, each the `MediaUrl` of a non-JPEG result. A failed search or a throwing probe ends the run, the latter at the first probe that throws. Otherwise the candidates are no more than the probes. The layers are `_.sample(candidates, _.random(1, 3))`, so there are at most 3, and none only when no candidate was found. All layers share one rotation in [-60, 60], and every layer is suitable and scaled into the band. Layer `i` shows the raster of the `i`-th probe sampled and is scaled by size draw `i`. |
| `Pipeline.EmptyCollageExample` | poisson-fields.js:127-154 | A response with one PNG result that fails to decode yields a successful run with no layers. |
| `Pipeline.MakeCollageChecked` | poisson-fields.js:120-176 | The corrected run fails with `NoCandidates` exactly when no probe throws and no candidate was found. Every successful run has between 1 and 3 layers. |
| `Pipeline.EmptyCollageExampleChecked` | poisson-fields.js:127-154 | On the same input, the corrected run fails with `NoCandidates`. |

## Findings

| source | as written | input that shows it | evidently intended | confidence | as-written member | corrected member |
|---|---|---|---|---|---|---|
| poisson-fields.js:129-176 | If no download passes the corner check, `candidates` is `[]`. `_.sample([], k)` is then `[]`, and the run goes on to draw and return a collage with no images on it. | One non-JPEG search result whose file does not decode, so `isSuitable` resolves to false. | The run fails for lack of candidates rather than publishing an empty background. | medium; not executed | `Pipeline.EmptyCollageExample` | `Pipeline.MakeCollageChecked` |

## Left out

- `PoissonImageGrid` and `SequentialImageSet` come from `canvas-utilities`, which is not part of this model. Positions, the non-overlap constraint, retry caps, fallback placement and draw order are therefore not modelled. The model ends with the layers handed to the grid.
- Canvas creation, `drawImage`, the background image and `toBuffer` are rendering calls into a native library. The raster a decoded file yields is an input.
- The Bing request, the `request` download, `fs.readFile` and the `./out/N.png` path counter are network and file I/O. Their outcomes are `Probe` inputs, and the path is carried by the probe.
- Image decoding is an input: a file either decodes to an `ImageData` or takes the `onerror` path.
- The noun choice (`_.sample(nouns)`), the tweet text, `_.percentChance`, Twitter posting and the `commander` CLI are outside the collage logic.
- What the `catch` does with the error (it calls the posting callback) is not modelled. A thrown probe or failed search is a `Failure` result.
- `async`/`await` sequencing is not modelled. Probes are processed strictly in order, as the `await` inside the loop forces.
- lodash is not part of this model. `Random.RandomInt` and `Random.Sample` follow lodash 3.10's `baseRandom` (`lo + floor(u * (hi - lo + 1))`) and partial Fisher–Yates shuffle. Under lodash 2.x, which also has `_.pluck`, `_.sample(xs, n)` shuffles all of `xs` and then cuts, so the same draws can pick a different sample. The length, sub-multiset and commutes-with-map properties hold under either version.
- Random.Sample: states no probability distribution. The draws are inputs, so uniformity is out of reach; only the index ranges and the permutation property are proved.
- Search.CandidateUrls: `ContentType` and `MediaUrl` are modelled as always-present strings. A result missing either field (where JavaScript would compare or pluck `undefined`) is not modelled.
- Classifier.EmptyImageUnsuitable: the model assumes a decoded 0-width or 0-height image yields an empty buffer that reaches the corner test. In the program, `getImageData` on a zero-size rectangle throws inside `onload`, so `isSuitable` never settles for such an image; that hang is not modelled.
- Pipeline.LayersFrom: the model assumes the raster the image set draws is the raster that was classified. `download` resolves on the request's `'end'` event, not on the write stream's `'finish'`, so `fs.readFile` may read a partly written file and the later reload may see a different one. Each probe's classification outcome is an arbitrary input, so the classification side is covered; only the identity of the two rasters is assumed.
- Floating-point rounding of `maxSize / size` and of the scaled sides is not modelled; the model uses exact reals.
