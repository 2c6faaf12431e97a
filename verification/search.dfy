/** The filtering half of `search`: Bing image results minus the JPEGs (which
    cannot be transparent), projected to their media URLs. */
module Search {
  import opened Sequences

  datatype SearchResult = SearchResult(contentType: string, mediaUrl: string)

  /** The two content types `search` rejects, compared exactly as JavaScript's `!==` does. */
  predicate IsJpeg(contentType: string)
  {
    contentType == "image/jpeg" || contentType == "image/jpg"
  }

  predicate NotJpeg(result: SearchResult)
  {
    !IsJpeg(result.contentType)
  }

  function MediaUrl(result: SearchResult): string
  {
    result.mediaUrl
  }

  /** `url` is the media URL of some result that is not a JPEG. */
  predicate ReturnedUrl(results: seq<SearchResult>, url: string)
  {
    exists j :: 0 <= j < |results| && NotJpeg(results[j]) && results[j].mediaUrl == url
  }

  /** `_.pluck(results.filter(not JPEG), 'MediaUrl')`. */
  function CandidateUrls(results: seq<SearchResult>): (urls: seq<string>)
    ensures |urls| <= |results|
    ensures forall j :: 0 <= j < |urls| ==> exists k :: 0 <= k < |results| && NotJpeg(results[k]) && results[k].mediaUrl == urls[j]
    ensures forall k :: 0 <= k < |results| && NotJpeg(results[k]) ==> results[k].mediaUrl in urls
  {
    var kept := Filter(results, NotJpeg);
    var idx := KeptIndices(results, NotJpeg);
    FilterAtKeptIndices(results, NotJpeg);
    var urls := Map(kept, MediaUrl);
    assert forall j :: 0 <= j < |urls| ==> urls[j] == results[idx[j]].mediaUrl;
    assert forall k :: 0 <= k < |results| && NotJpeg(results[k]) ==>
      exists j :: 0 <= j < |idx| && idx[j] == k && urls[j] == results[k].mediaUrl;
    urls
  }

  /** The URLs are those of the non-JPEG results, one each, in result order:
      `idx` lists the positions kept, strictly increasing, and covers every
      non-JPEG result. */
  lemma CandidateUrlsInOrder(results: seq<SearchResult>) returns (idx: seq<nat>)
    ensures |idx| == |CandidateUrls(results)|
    ensures forall j, j' :: 0 <= j < j' < |idx| ==> idx[j] < idx[j']
    ensures forall j :: 0 <= j < |idx| ==>
              idx[j] < |results| && NotJpeg(results[idx[j]]) && CandidateUrls(results)[j] == results[idx[j]].mediaUrl
    ensures forall k :: 0 <= k < |results| && NotJpeg(results[k]) ==> k in idx
  {
    idx := KeptIndices(results, NotJpeg);
    FilterAtKeptIndices(results, NotJpeg);
  }

  /** A JPEG result contributes nothing: dropping it leaves the URLs unchanged. */
  lemma JpegResultIgnored(before: seq<SearchResult>, r: SearchResult, after: seq<SearchResult>)
    requires IsJpeg(r.contentType)
    ensures CandidateUrls(before + [r] + after) == CandidateUrls(before + after)
  {
    FilterSkipsRejected(before, r, after, NotJpeg);
  }
}
