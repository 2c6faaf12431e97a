/** The probing loop of `makeImage`: download each sampled URL, ask
    `isSuitable` about the saved file, and keep the paths judged suitable.
    The verdict is a parameter, so the loop is stated for any classifier;
    the collage pipeline passes `Classifier.IsSuitable`. */
module CandidatePool {
  import opened Wrappers
  import opened Sequences
  import opened Classifier

  /** What happened to one sampled URL: the URL requested, the path the
      download wrote to, and the outcome. `download` names the target path
      before it starts the request, so a failed download still has a path. */
  datatype Probe =
    | DownloadFailed(url: string, path: string)
    | Downloaded(url: string, path: string, file: FileOutcome)

  /** A verdict in the shape of `isSuitable`: `None` when its promise rejects. */
  type Verdict = FileOutcome -> Option<bool>

  /** The probe's awaited promise rejects: the download or the file read failed. */
  predicate Throws(verdict: Verdict, p: Probe)
  {
    p.DownloadFailed? || verdict(p.file).None?
  }

  /** The probe's path is pushed onto the candidates. */
  predicate Kept(verdict: Verdict, p: Probe)
  {
    p.Downloaded? && verdict(p.file) == Some(true)
  }

  function KeptBy(verdict: Verdict): Probe -> bool
  {
    p => Kept(verdict, p)
  }

  function PathOf(p: Probe): string
  {
    p.path
  }

  function UrlOf(p: Probe): string
  {
    p.url
  }

  /** The candidate paths a run with these probes collects, when none throws. */
  function Candidates(probes: seq<Probe>, verdict: Verdict): seq<string>
  {
    Map(Filter(probes, KeptBy(verdict)), PathOf)
  }

  /** Probing one more URL appends its path exactly when it is kept. */
  lemma CandidatesStep(probes: seq<Probe>, i: nat, verdict: Verdict)
    requires i < |probes|
    ensures Candidates(probes[..i + 1], verdict) ==
              if Kept(verdict, probes[i]) then Candidates(probes[..i], verdict) + [probes[i].path]
              else Candidates(probes[..i], verdict)
  {
    FilterPrefixStep(probes, i, KeptBy(verdict));
    MapSnoc(Filter(probes[..i], KeptBy(verdict)), probes[i], PathOf);
  }

  /** The `for (let url of urls)` loop. An exception from an awaited download
      or `isSuitable` leaves the loop and ends the run, reported here as the
      position of the probe that threw. */
  method CollectCandidates(probes: seq<Probe>, verdict: Verdict) returns (r: Result<seq<string>, nat>)
    ensures r.Failure? <==> exists k :: 0 <= k < |probes| && Throws(verdict, probes[k])
    ensures r.Failure? ==> r.error < |probes| && Throws(verdict, probes[r.error])
    ensures r.Failure? ==> forall k :: 0 <= k < r.error ==> !Throws(verdict, probes[k])
    ensures r.Success? ==> r.value == Candidates(probes, verdict)
  {
    var candidates: seq<string> := [];
    var i := 0;
    while i < |probes|
      invariant 0 <= i <= |probes|
      invariant forall k :: 0 <= k < i ==> !Throws(verdict, probes[k])
      invariant candidates == Candidates(probes[..i], verdict)
    {
      CandidatesStep(probes, i, verdict);
      match probes[i]
      case DownloadFailed(_, _) =>
        return Failure(i);
      case Downloaded(_, path, file) =>
        var suitable := verdict(file);
        if suitable.None? {
          return Failure(i);
        }
        if suitable.value {
          candidates := candidates + [path];
        }
      i := i + 1;
    }
    assert probes[..i] == probes;
    return Success(candidates);
  }

  /** The candidates are the paths of the suitable probes, one each, in probe
      order: `idx` lists the positions kept, strictly increasing, and covers
      every probe judged suitable. */
  lemma CandidatesInOrder(probes: seq<Probe>, verdict: Verdict) returns (idx: seq<nat>)
    ensures |Candidates(probes, verdict)| == |idx| <= |probes|
    ensures forall j, j' :: 0 <= j < j' < |idx| ==> idx[j] < idx[j']
    ensures forall j :: 0 <= j < |idx| ==>
              idx[j] < |probes| && Kept(verdict, probes[idx[j]]) &&
              Candidates(probes, verdict)[j] == probes[idx[j]].path
    ensures forall k :: 0 <= k < |probes| && Kept(verdict, probes[k]) ==> k in idx
  {
    idx := KeptIndices(probes, KeptBy(verdict));
    FilterAtKeptIndices(probes, KeptBy(verdict));
  }
}
