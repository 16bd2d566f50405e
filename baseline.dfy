/**
 * The "Random" baseline of experiments 2 and 3: the ground truth is rebuilt as
 * all of its "s" tags followed by all of its "i" tags, and the predictions
 * alternate "s", "i", ..., with one extra "s" when the length is odd.
 */
module Baseline {
  import opened Lists
  import opened Partition
  import opened Predictions

  /** `["s", "i"] * n`. */
  function Alternating(n: nat): (r: seq<string>)
    ensures |r| == 2 * n
  {
    if n == 0 then [] else Alternating(n - 1) + [Song, Instrumental]
  }

  /** The baseline's ground truth and predictions, built from the tags `gts` of the last
      prediction file read. */
  function RandomBaseline(gts: seq<string>): (r: Labelled)
    ensures |r.truths| == |r.preds|
  {
    var truths := Repeat(Song, Count(gts, Song)) + Repeat(Instrumental, Count(gts, Instrumental));
    var preds := Alternating(|truths| / 2) + (if |truths| % 2 == 1 then [Song] else []);
    Labelled(truths, preds)
  }

  /** Even positions of the alternation are "s", odd ones "i". */
  lemma {:induction false} AlternatingAt(n: nat, j: nat)
    requires j < 2 * n
    ensures Alternating(n)[j] == if j % 2 == 0 then Song else Instrumental
    decreases n
  {
    if j < 2 * (n - 1) {
      AlternatingAt(n - 1, j);
    }
  }

  /** The rebuilt ground truth keeps the number of "s" and of "i" tags, with every "s" first. */
  lemma BaselineTruths(gts: seq<string>)
    ensures var t := RandomBaseline(gts).truths;
      && |t| == Count(gts, Song) + Count(gts, Instrumental)
      && Count(t, Song) == Count(gts, Song)
      && Count(t, Instrumental) == Count(gts, Instrumental)
      && (forall j :: 0 <= j < Count(gts, Song) ==> t[j] == Song)
      && (forall j :: Count(gts, Song) <= j < |t| ==> t[j] == Instrumental)
  {
    var s, i := Repeat(Song, Count(gts, Song)), Repeat(Instrumental, Count(gts, Instrumental));
    CountAppend(s, i, Song);
    CountAppend(s, i, Instrumental);
    CountRepeat(Song, Count(gts, Song), Song);
    CountRepeat(Song, Count(gts, Song), Instrumental);
    CountRepeat(Instrumental, Count(gts, Instrumental), Song);
    CountRepeat(Instrumental, Count(gts, Instrumental), Instrumental);
  }

  /** The predictions are exactly as long as the ground truth, "s" at even and "i" at odd positions. */
  lemma BaselinePreds(gts: seq<string>)
    ensures var b := RandomBaseline(gts);
      && |b.preds| == |b.truths|
      && forall j :: 0 <= j < |b.preds| ==> (b.preds[j] == Song <==> j % 2 == 0)
  {
    var b := RandomBaseline(gts);
    var n := |b.truths| / 2;
    forall j | 0 <= j < |b.preds| ensures b.preds[j] == Song <==> j % 2 == 0 {
      if j < 2 * n {
        AlternatingAt(n, j);
      }
    }
  }
}
