/**
 * Per-group scoring of experiment 2: each group is the instrumental pool
 * followed by one song chunk, scored by accuracy (the fraction of positions
 * where the prediction equals the ground truth). The summary line needs a
 * mean and a sample standard deviation, so fewer than two groups abort the run.
 */
module Metrics {
  import opened Wrappers
  import opened Lists
  import opened Strings
  import opened Partition
  import opened Threshold

  /** The run stops before anything is written: no mean (0 groups) or no sample deviation (1 group). */
  datatype SummaryError = TooFewGroups(groups: nat)

  /** The number of positions where the prediction equals the ground truth. */
  function Matches(truths: seq<string>, preds: seq<string>): (r: nat)
    requires |truths| == |preds|
    ensures r <= |truths|
    decreases |truths|
  {
    if |truths| == 0 then 0
    else
      var n := |truths| - 1;
      Matches(truths[..n], preds[..n]) + (if truths[n] == preds[n] then 1 else 0)
  }

  /** Accuracy: matches over length; an empty group has no accuracy (the library gives no number). */
  function Accuracy(truths: seq<string>, preds: seq<string>): (r: Option<real>)
    requires |truths| == |preds|
    ensures r.Some? <==> |truths| > 0
  {
    if |truths| == 0 then None else Some(Matches(truths, preds) as real / |truths| as real)
  }

  /** Every position matches exactly when the match count is the length. */
  lemma {:induction false} MatchesAllIff(truths: seq<string>, preds: seq<string>)
    requires |truths| == |preds|
    ensures Matches(truths, preds) == |truths| <==> forall j :: 0 <= j < |truths| ==> truths[j] == preds[j]
    decreases |truths|
  {
    if |truths| > 0 {
      var n := |truths| - 1;
      MatchesAllIff(truths[..n], preds[..n]);
      if Matches(truths, preds) == |truths| {
        forall j | 0 <= j < |truths| ensures truths[j] == preds[j] {
          if j < n {
            assert truths[..n][j] == truths[j] && preds[..n][j] == preds[j];
          }
        }
      }
      if forall j :: 0 <= j < |truths| ==> truths[j] == preds[j] {
        forall j | 0 <= j < n ensures truths[..n][j] == preds[..n][j] {
          assert truths[j] == preds[j];
        }
      }
    }
  }

  /** Accuracy lies between 0 and 1, and is exactly 1 when every prediction equals its label. */
  lemma AccuracySpec(truths: seq<string>, preds: seq<string>)
    requires |truths| == |preds| && |truths| > 0
    ensures Accuracy(truths, preds).Some?
    ensures 0.0 <= Accuracy(truths, preds).value <= 1.0
    ensures Accuracy(truths, preds).value == 1.0 <==> forall j :: 0 <= j < |truths| ==> truths[j] == preds[j]
  {
    MatchesAllIff(truths, preds);
    var m, n := Matches(truths, preds) as real, |truths| as real;
    var a := m / n;
    assert Accuracy(truths, preds).value == a;
    assert a * n == m;
    if a > 1.0 {
      MulPositive(a - 1.0, n);
    }
    if a == 1.0 {
      assert m == n;
      assert Matches(truths, preds) == |truths|;
    }
    if Matches(truths, preds) == |truths| {
      UnitFactor(a, n);
    }
    if a < 0.0 {
      MulPositive(-a, n);
    }
  }

  /** A factor that leaves a positive number unchanged is 1. */
  lemma UnitFactor(x: real, y: real)
    requires y > 0.0 && x * y == y
    ensures x == 1.0
  {
    if x > 1.0 {
      MulPositive(x - 1.0, y);
    } else if x < 1.0 {
      MulPositive(1.0 - x, y);
    }
  }

  lemma MulPositive(x: real, y: real)
    requires x > 0.0 && y > 0.0
    ensures x * y > 0.0
  {
  }

  /** The scoring loop: one accuracy per group, in group order. */
  method GroupAccuracies(instruGts: seq<string>, instruPred: seq<string>,
                         songGts: seq<seq<string>>, songPred: seq<seq<string>>)
    returns (acc: seq<Option<real>>)
    requires |instruGts| == |instruPred| && |songGts| == |songPred|
    requires forall g :: 0 <= g < |songGts| ==> |songGts[g]| == |songPred[g]|
    ensures |acc| == |songGts|
    ensures forall g :: 0 <= g < |acc| ==>
      acc[g] == Accuracy(instruGts + songGts[g], instruPred + songPred[g])
  {
    acc := [];
    var index := 0;
    while index < |songGts|
      invariant 0 <= index <= |songGts|
      invariant |acc| == index
      invariant forall g :: 0 <= g < index ==>
        acc[g] == Accuracy(instruGts + songGts[g], instruPred + songPred[g])
    {
      var groundtruths := instruGts + songGts[index];
      var predictions := instruPred + songPred[index];
      acc := acc + [Accuracy(groundtruths, predictions)];
      index := index + 1;
    }
  }

  /** The number of groups the scan emits. */
  function GroupCount(predictions: seq<string>, groundtruths: seq<string>): (r: nat)
    requires |groundtruths| <= |predictions|
    ensures r <= |groundtruths|
  {
    |Chunks(SongPreds(groundtruths, predictions), NbInstru(groundtruths))|
  }

  /** The ground truths of every group: the pool's "i" tags, then `nb_instru` "s" tags. */
  function GroupTruths(predictions: seq<string>, groundtruths: seq<string>): (r: seq<string>)
    requires |groundtruths| <= |predictions|
    ensures |r| == |InstruPreds(groundtruths, predictions)| + NbInstru(groundtruths)
    ensures forall j :: 0 <= j < |r| ==> (r[j] == Instrumental <==> j < |InstruPreds(groundtruths, predictions)|)
  {
    Repeat(Instrumental, |InstruPreds(groundtruths, predictions)|) + Repeat(Song, NbInstru(groundtruths))
  }

  /** The predictions of group `g`: the pool's predictions, then those of song chunk `g`. */
  function GroupPreds(predictions: seq<string>, groundtruths: seq<string>, g: nat): (r: seq<string>)
    requires |groundtruths| <= |predictions|
    requires g < GroupCount(predictions, groundtruths)
    ensures |r| == |GroupTruths(predictions, groundtruths)|
  {
    ChunkAt(SongPreds(groundtruths, predictions), NbInstru(groundtruths), g);
    InstruPreds(groundtruths, predictions) + Chunks(SongPreds(groundtruths, predictions), NbInstru(groundtruths))[g]
  }

  /** `results_experiment_2` up to the written rows: partition, score every group, and
      give the row of accuracies, or fail when there are fewer than two groups. */
  method ResultsExperiment2(predictions: seq<string>, groundtruths: seq<string>)
    returns (r: Result<seq<Option<real>>, SummaryError>)
    requires |groundtruths| <= |predictions|
    ensures GroupCount(predictions, groundtruths) ==
            |SongPreds(groundtruths, predictions)| / (NbInstru(groundtruths) + 1)
    ensures r.Err? <==> GroupCount(predictions, groundtruths) < 2
    ensures r.Err? ==> r.error == TooFewGroups(GroupCount(predictions, groundtruths))
    ensures r.Ok? ==> |r.value| == GroupCount(predictions, groundtruths)
    ensures r.Ok? ==> forall g :: 0 <= g < |r.value| ==>
      r.value[g] == Accuracy(GroupTruths(predictions, groundtruths), GroupPreds(predictions, groundtruths, g))
  {
    var instruGts, instruPred, songGts, songPred := PartitionScan(predictions, groundtruths);
    ChunkCount(SongPreds(groundtruths, predictions), NbInstru(groundtruths));
    forall g | 0 <= g < |songGts| ensures |songGts[g]| == |songPred[g]| {
      ChunkAt(SongPreds(groundtruths, predictions), NbInstru(groundtruths), g);
    }
    var acc := GroupAccuracies(instruGts, instruPred, songGts, songPred);
    if |acc| < 2 {
      return Err(TooFewGroups(|acc|));
    }
    r := Ok(acc);
  }
  /** "i" is an instrumental tag and "s" is not. */
  lemma LabelTests()
    ensures IsInstrumental(Instrumental)
    ensures !IsInstrumental(Song)
  {
    NotContainsFirstChar(Song, Instrumental);
  }

  /** With "i"/"s" tags and every prediction equal to its tag, the pool predicts only "i"
      and the song items predict only "s". */
  lemma {:induction false} PerfectPools(gts: seq<string>, preds: seq<string>)
    requires |gts| <= |preds|
    requires forall j :: 0 <= j < |gts| ==> (gts[j] == Instrumental || gts[j] == Song) && preds[j] == gts[j]
    ensures InstruPreds(gts, preds) == Repeat(Instrumental, |InstruPreds(gts, preds)|)
    ensures SongPreds(gts, preds) == Repeat(Song, |SongPreds(gts, preds)|)
    decreases |gts|
  {
    if |gts| > 0 {
      var n := |gts| - 1;
      PerfectPools(gts[..n], preds);
      LabelTests();
    }
  }

  /** Perfect predictions give every group the prediction list equal to its labels,
      hence accuracy 1 for every non-empty group. */
  lemma PerfectPredictionsScoreOne(gts: seq<string>, preds: seq<string>, g: nat)
    requires |gts| <= |preds|
    requires forall j :: 0 <= j < |gts| ==> (gts[j] == Instrumental || gts[j] == Song) && preds[j] == gts[j]
    requires g < GroupCount(preds, gts)
    ensures GroupPreds(preds, gts, g) == GroupTruths(preds, gts)
    ensures |GroupTruths(preds, gts)| > 0 ==> Accuracy(GroupTruths(preds, gts), GroupPreds(preds, gts, g)) == Some(1.0)
  {
    var k := NbInstru(gts);
    var songs := SongPreds(gts, preds);
    PerfectPools(gts, preds);
    ChunkAt(songs, k, g);
    assert Chunks(songs, k)[g] == Repeat(Song, k);
    if |GroupTruths(preds, gts)| > 0 {
      AccuracySpec(GroupTruths(preds, gts), GroupPreds(preds, gts, g));
    }
  }
  /** When every tag is "i" or "s", every group has `2 * nb_instru` items, half of them
      tagged "i" and half "s". */
  lemma BalancedGroupSize(gts: seq<string>, preds: seq<string>, g: nat)
    requires |gts| <= |preds|
    requires forall j :: 0 <= j < |gts| ==> gts[j] == Instrumental || gts[j] == Song
    requires g < GroupCount(preds, gts)
    ensures GroupTruths(preds, gts) == Repeat(Instrumental, NbInstru(gts)) + Repeat(Song, NbInstru(gts))
    ensures |GroupTruths(preds, gts)| == 2 * NbInstru(gts)
    ensures |GroupPreds(preds, gts, g)| == 2 * NbInstru(gts)
  {
    BalancedWhenTagsAreLabels(gts, preds);
  }

  /** The worked example: tags i, i, s, s, s, s with predictions s, i, s, i, s, i (the
      scores 0.9, 0.1, 0.6, 0.4, 0.8, 0.2 cut at 0.5). */
  const ExampleTags: seq<string> := [Instrumental, Instrumental, Song, Song, Song, Song]
  const ExamplePreds: seq<string> := [Song, Instrumental, Song, Instrumental, Song, Instrumental]

  /** The example's predictions are the scores 0.9, 0.1, 0.6, 0.4, 0.8, 0.2 binarised at the
      threshold of an algorithm whose name does not contain `Ghosal`. */
  lemma WorkedExampleBinarised()
    ensures var t := ThresholdFor("AnyOtherAlgo");
      ExamplePreds == [Binarise(0.9, t), Binarise(0.1, t), Binarise(0.6, t),
                       Binarise(0.4, t), Binarise(0.8, t), Binarise(0.2, t)]
  {
    ThresholdExamples();
  }

  /** In the worked example `nb_instru` is 2, the pool predicts (s, i) and the song items (s, i, s, i). */
  lemma WorkedExampleScan()
    ensures NbInstru(ExampleTags) == 2
    ensures InstruPreds(ExampleTags, ExamplePreds) == [Song, Instrumental]
    ensures SongPreds(ExampleTags, ExamplePreds) == [Song, Instrumental, Song, Instrumental]
  {
    var gts, preds := ExampleTags, ExamplePreds;
    LabelTests();
    var g1, g2, g3 := gts[..1], gts[..2], gts[..3];
    var g4, g5 := gts[..4], gts[..5];
    assert g1[..0] == [] && g2[..1] == g1 && g3[..2] == g2;
    assert g4[..3] == g3 && g5[..4] == g4 && gts[..5] == g5;
    assert Count(g1, Instrumental) == 1 && Count(g2, Instrumental) == 2;
    assert Count(g3, Instrumental) == 2 && Count(g4, Instrumental) == 2;
    assert Count(g5, Instrumental) == 2;
    assert InstruPreds(g1, preds) == [Song] && SongPreds(g1, preds) == [];
    assert InstruPreds(g2, preds) == [Song, Instrumental] && SongPreds(g2, preds) == [];
    assert InstruPreds(g3, preds) == [Song, Instrumental] && SongPreds(g3, preds) == [Song];
    assert InstruPreds(g4, preds) == [Song, Instrumental] && SongPreds(g4, preds) == [Song, Instrumental];
    assert InstruPreds(g5, preds) == [Song, Instrumental];
    assert SongPreds(g5, preds) == [Song, Instrumental, Song];
  }

  /** The fifth item closes the first chunk and is dropped, the sixth stays in the open
      chunk: exactly one group, pool (s, i) followed by chunk (s, i). */
  lemma WorkedExampleGroups()
    ensures GroupCount(ExamplePreds, ExampleTags) == 1
    ensures GroupTruths(ExamplePreds, ExampleTags) == [Instrumental, Instrumental, Song, Song]
    ensures GroupPreds(ExamplePreds, ExampleTags, 0) == [Song, Instrumental, Song, Instrumental]
  {
    WorkedExampleScan();
    var songs := [Song, Instrumental, Song, Instrumental];
    assert songs[..2] == [Song, Instrumental];
    assert songs[3..] == [Instrumental];
    assert Chunks([Instrumental], 2) == [];
    assert Chunks(songs, 2) == [[Song, Instrumental]];
  }

  /** Two of the four positions of that group match: accuracy 1/2. */
  lemma WorkedExampleAccuracy()
    ensures GroupCount(ExamplePreds, ExampleTags) == 1
    ensures Accuracy(GroupTruths(ExamplePreds, ExampleTags), GroupPreds(ExamplePreds, ExampleTags, 0)) == Some(0.5)
  {
    WorkedExampleGroups();
    var truths := [Instrumental, Instrumental, Song, Song];
    var p := [Song, Instrumental, Song, Instrumental];
    LabelTests();
    assert truths[..1] == [Instrumental] && p[..1] == [Song];
    assert truths[..2] == [Instrumental, Instrumental] && p[..2] == [Song, Instrumental];
    assert truths[..3] == [Instrumental, Instrumental, Song] && p[..3] == [Song, Instrumental, Song];
    assert truths[..1][..0] == [] && p[..1][..0] == [];
    assert truths[..2][..1] == truths[..1] && p[..2][..1] == p[..1];
    assert truths[..3][..2] == truths[..2] && p[..3][..2] == p[..2];
    assert Matches(truths[..1], p[..1]) == 0;
    assert Matches(truths[..2], p[..2]) == 1;
    assert Matches(truths[..3], p[..3]) == 2;
    assert Matches(truths, p) == 2;
  }
}
