/**
 * Threshold policy and binarisation of the experiments: the algorithm name is
 * derived from the prediction file name, a name containing "Ghosal" (a
 * RANSAC-based method whose scores are not bounded to [0, 1]) is cut at 0,
 * every other algorithm at 0.5, and a score strictly above the threshold
 * means "s" (song), anything else "i" (instrumental).
 */
module Threshold {
  import opened Strings

  const GhosalMarker: string := "Ghosal"
  const GhosalThreshold: real := 0.0
  const DefaultThreshold: real := 0.5

  /** `path.split("/")[-1]`: the last `/`-separated component. */
  function LastComponent(path: string): (r: string)
    ensures '/' !in r
  {
    var parts := Split(path, '/');
    parts[|parts| - 1]
  }

  /** `pred_file.split("/")[-1][:-4]`: the file name without its four-character extension. */
  function AlgoName(predFile: string): (r: string)
    ensures '/' !in r
  {
    DropLast(LastComponent(predFile), 4)
  }

  /** The threshold the experiments use for an algorithm. */
  function ThresholdFor(algoName: string): (r: real)
    ensures r == GhosalThreshold || r == DefaultThreshold
  {
    if Contains(algoName, GhosalMarker) then GhosalThreshold else DefaultThreshold
  }

  /** A score strictly above the threshold is a song, anything else instrumental. */
  function Binarise(score: real, threshold: real): (r: string)
    ensures r == "s" || r == "i"
  {
    if score > threshold then "s" else "i"
  }

  /** A prediction file `dir/name.ext` (four-character extension) names algorithm `name`. */
  lemma AlgoNameOfFile(dir: string, name: string, ext: string)
    requires '/' !in name && '/' !in ext && |ext| == 4
    ensures AlgoName(name + ext) == name
    ensures AlgoName(dir + "/" + name + ext) == name
  {
    assert '/' !in name + ext;
    SplitNoSep(name + ext, '/');
    assert dir + "/" + name + ext == dir + ['/'] + (name + ext);
    SplitAround(dir, '/', name + ext);
    assert (name + ext)[..|name + ext| - 4] == name;
  }

  /** An algorithm name with "Ghosal" anywhere in it gets threshold 0; any other, 0.5. */
  lemma ThresholdPolicy(prefix: string, suffix: string, other: string)
    requires !Contains(other, GhosalMarker)
    ensures ThresholdFor(prefix + GhosalMarker + suffix) == GhosalThreshold
    ensures ThresholdFor(other) == DefaultThreshold
  {
    var name := prefix + GhosalMarker + suffix;
    assert name[|prefix|..|prefix| + |GhosalMarker|] == GhosalMarker;
    ContainsAt(name, GhosalMarker, |prefix|);
  }

  /** The two examples of the policy: "Ghosal_v1" and "AnyOtherAlgo". */
  lemma ThresholdExamples()
    ensures ThresholdFor("Ghosal_v1") == 0.0
    ensures ThresholdFor("AnyOtherAlgo") == 0.5
  {
    ThresholdPolicy("", "_v1", "");
    assert "" + GhosalMarker + "_v1" == "Ghosal_v1";
    NotContainsFirstChar("AnyOtherAlgo", GhosalMarker);
  }

  /** Binarisation yields one of the two labels, "s" exactly above the threshold,
      so a score equal to the threshold is instrumental. */
  lemma BinariseSpec(score: real, threshold: real)
    ensures Binarise(score, threshold) in {"s", "i"}
    ensures Binarise(score, threshold) == "s" <==> score > threshold
    ensures Binarise(threshold, threshold) == "i"
  {
  }
}
