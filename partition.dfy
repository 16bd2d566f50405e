/**
 * The balanced-group partition of experiment 2 (`results_experiment_2`).
 * Every instrumental item goes to one shared pool; the song items are cut, in
 * order, into chunks of exactly `nb_instru` items, where `nb_instru` is the
 * number of tags equal to "i". The song item that arrives when a chunk is full
 * closes that chunk and is itself dropped, and a trailing short chunk is never
 * emitted. Note the two label tests: the count uses equality with "i", the scan
 * uses containment of "i".
 */
module Partition {
  import opened Strings
  import opened Lists

  const Instrumental: string := "i"
  const Song: string := "s"

  /** The scan's test: the tag contains the letter `i`. */
  predicate IsInstrumental(tag: string)
    ensures IsInstrumental(tag) <==> 'i' in tag
  {
    ContainsChar(tag, 'i');
    Contains(tag, Instrumental)
  }

  /** `nb_instru`: the number of tags equal to "i"; also the size of every chunk. */
  function NbInstru(gts: seq<string>): (r: nat)
    ensures r <= |gts|
  {
    Count(gts, Instrumental)
  }

  /** The predictions at instrumental positions, in input order. */
  function InstruPreds(gts: seq<string>, preds: seq<string>): (r: seq<string>)
    requires |gts| <= |preds|
    ensures |r| <= |gts|
    decreases |gts|
  {
    if |gts| == 0 then []
    else
      var n := |gts| - 1;
      InstruPreds(gts[..n], preds) + (if IsInstrumental(gts[n]) then [preds[n]] else [])
  }

  /** The predictions at song (non-instrumental) positions, in input order. */
  function SongPreds(gts: seq<string>, preds: seq<string>): (r: seq<string>)
    requires |gts| <= |preds|
    ensures |r| <= |gts|
    decreases |gts|
  {
    if |gts| == 0 then []
    else
      var n := |gts| - 1;
      SongPreds(gts[..n], preds) + (if IsInstrumental(gts[n]) then [] else [preds[n]])
  }

  /** The chunks the scan emits from the song items `s` with chunk size `k`:
      `k` items are kept, the next one closes the chunk and is dropped. */
  function Chunks<T>(s: seq<T>, k: nat): (r: seq<seq<T>>)
    ensures forall c :: 0 <= c < |r| ==> |r[c]| == k
    ensures |r| <= |s|
    decreases |s|
  {
    if |s| <= k then [] else [s[..k]] + Chunks(s[k + 1..], k)
  }

  /** The items of the chunk still open when the song items `s` run out. */
  function Residue<T>(s: seq<T>, k: nat): (r: seq<T>)
    ensures |r| <= k
    decreases |s|
  {
    if |s| <= k then s else Residue(s[k + 1..], k)
  }

  /** One more song item either closes a full open chunk (and is dropped) or joins it. */
  lemma {:induction false} ChunksSnoc<T>(s: seq<T>, x: T, k: nat)
    ensures |Residue(s, k)| == k ==>
      Chunks(s + [x], k) == Chunks(s, k) + [Residue(s, k)] && Residue(s + [x], k) == []
    ensures |Residue(s, k)| < k ==>
      Chunks(s + [x], k) == Chunks(s, k) && Residue(s + [x], k) == Residue(s, k) + [x]
    decreases |s|
  {
    var t := s + [x];
    if |s| <= k {
      if |s| == k {
        assert t[..k] == s;
        assert t[k + 1..] == [];
      }
    } else {
      assert t[..k] == s[..k];
      assert t[k + 1..] == s[k + 1..] + [x];
      ChunksSnoc(s[k + 1..], x, k);
    }
  }

  /** The scan of `results_experiment_2`: builds the instrumental pool and the song chunks. */
  method PartitionScan(predictions: seq<string>, groundtruths: seq<string>)
    returns (instruGts: seq<string>, instruPred: seq<string>,
             songGts: seq<seq<string>>, songPred: seq<seq<string>>)
    requires |groundtruths| <= |predictions|
    ensures instruPred == InstruPreds(groundtruths, predictions)
    ensures instruGts == Repeat(Instrumental, |instruPred|)
    ensures songPred == Chunks(SongPreds(groundtruths, predictions), NbInstru(groundtruths))
    ensures |songGts| == |songPred|
    ensures forall g :: 0 <= g < |songGts| ==> songGts[g] == Repeat(Song, NbInstru(groundtruths))
  {
    instruGts, instruPred, songGts, songPred := [], [], [], [];
    var songTmpGts: seq<string> := [];
    var songTmpPred: seq<string> := [];
    var cpt := 0;
    var nbInstru := Count(groundtruths, Instrumental);
    var index := 0;
    while index < |groundtruths|
      invariant 0 <= index <= |groundtruths|
      invariant instruPred == InstruPreds(groundtruths[..index], predictions)
      invariant instruGts == Repeat(Instrumental, |instruPred|)
      invariant songPred == Chunks(SongPreds(groundtruths[..index], predictions), nbInstru)
      invariant songTmpPred == Residue(SongPreds(groundtruths[..index], predictions), nbInstru)
      invariant cpt == |songTmpPred|
      invariant songTmpGts == Repeat(Song, cpt)
      invariant |songGts| == |songPred|
      invariant forall g :: 0 <= g < |songGts| ==> songGts[g] == Repeat(Song, nbInstru)
    {
      assert groundtruths[..index + 1][..index] == groundtruths[..index];
      ghost var songs := SongPreds(groundtruths[..index], predictions);
      ChunksSnoc(SongPreds(groundtruths[..index], predictions), predictions[index], nbInstru);
      if IsInstrumental(groundtruths[index]) {
        instruGts := instruGts + [Instrumental];
        instruPred := instruPred + [predictions[index]];
        assert SongPreds(groundtruths[..index + 1], predictions) == songs;
      } else {
        assert SongPreds(groundtruths[..index + 1], predictions) == songs + [predictions[index]];
        if cpt == nbInstru {
          songGts := songGts + [songTmpGts];
          songPred := songPred + [songTmpPred];
          songTmpGts := [];
          songTmpPred := [];
          cpt := 0;
        } else {
          songTmpGts := songTmpGts + [Song];
          songTmpPred := songTmpPred + [predictions[index]];
          cpt := cpt + 1;
        }
      }
      index := index + 1;
    }
    assert groundtruths[..index] == groundtruths;
  }
  /** The `g`-th chunk is the `k` song items starting at `g * (k + 1)`, so it has exactly
      `k` items, keeps their input order, and the item after it (the one that closed it) exists. */
  lemma {:induction false} ChunkAt<T>(s: seq<T>, k: nat, g: nat)
    requires g < |Chunks(s, k)|
    ensures g * (k + 1) + k < |s|
    ensures Chunks(s, k)[g] == s[g * (k + 1)..g * (k + 1) + k]
    ensures |Chunks(s, k)[g]| == k
    decreases g
  {
    if g > 0 {
      ChunkAt(s[k + 1..], k, g - 1);
      var a := (g - 1) * (k + 1);
      MulSucc(g - 1, k + 1);
      assert s[k + 1..][a..a + k] == s[a + k + 1..a + k + 1 + k];
    }
  }

  /** The number of song items taken by the emitted chunks, closing items included. */
  function Consumed<T>(s: seq<T>, k: nat): nat
    decreases |s|
  {
    if |s| <= k then 0 else k + 1 + Consumed(s[k + 1..], k)
  }

  /** The song items consumed by the emitted chunks (`k` kept and one closing item each)
      are followed by the items of the open chunk, which is never emitted. */
  lemma {:induction false} ChunkDecomposition<T>(s: seq<T>, k: nat)
    ensures Consumed(s, k) == |Chunks(s, k)| * (k + 1)
    ensures |s| == Consumed(s, k) + |Residue(s, k)|
    ensures Residue(s, k) == s[Consumed(s, k)..]
    decreases |s|
  {
    if |s| > k {
      var rest := s[k + 1..];
      ChunkDecomposition(rest, k);
      MulSucc(|Chunks(rest, k)|, k + 1);
      assert rest[Consumed(rest, k)..] == s[k + 1 + Consumed(rest, k)..];
    }
  }

  lemma MulSucc(c: nat, m: nat)
    ensures (c + 1) * m == c * m + m
  {
  }

  /** With `n` song items there are `n div (k + 1)` chunks and `n mod (k + 1)` items
      are left in the open chunk. */
  lemma ChunkCount<T>(s: seq<T>, k: nat)
    ensures |Chunks(s, k)| == |s| / (k + 1)
    ensures |Residue(s, k)| == |s| % (k + 1)
  {
    ChunkDecomposition(s, k);
    DivUnique(|s|, k + 1, |Chunks(s, k)|, |Residue(s, k)|);
  }

  /** Quotient and remainder are determined by `n == q * m + r` with `r < m`. */
  lemma DivUnique(n: nat, m: nat, q: nat, r: nat)
    requires m > 0 && r < m && n == q * m + r
    ensures q == n / m && r == n % m
  {
    var q', r' := n / m, n % m;
    assert n == q' * m + r';
    if q > q' {
      assert (q - q') * m == r' - r;
      MulAtLeast(q - q', m);
    } else if q < q' {
      assert (q' - q) * m == r - r';
      MulAtLeast(q' - q, m);
    }
  }

  lemma MulAtLeast(a: nat, m: nat)
    requires a >= 1
    ensures a * m >= m
  {
    assert a * m == (a - 1) * m + m;
  }

  /** With no tag equal to "i", every song item closes an empty chunk: one empty group per song item. */
  lemma ZeroInstrumentalChunks<T>(s: seq<T>)
    ensures Chunks(s, 0) == Repeat([], |s|)
  {
    ChunkCount(s, 0);
    forall g | 0 <= g < |Chunks(s, 0)| ensures Chunks(s, 0)[g] == [] {
      ChunkAt(s, 0, g);
    }
  }

  /** At least two chunks (needed for a sample standard deviation) exactly when there
      are at least `2 * (k + 1)` song items. */
  lemma TwoChunksIff<T>(s: seq<T>, k: nat)
    ensures |Chunks(s, k)| >= 2 <==> |s| >= 2 * (k + 1)
  {
    ChunkDecomposition(s, k);
    var c := |Chunks(s, k)|;
    if c >= 2 {
      MulAtLeast(c - 1, k + 1);
      MulSucc(c - 1, k + 1);
    } else if c == 1 {
      assert |s| < 2 * (k + 1);
    } else {
      assert |s| < 2 * (k + 1);
    }
  }

  /** Every input item goes either to the pool or to the song items, and the pool holds
      at least `nb_instru` items (a tag equal to "i" also contains "i"). */
  lemma {:induction false} PoolAndSongs(gts: seq<string>, preds: seq<string>)
    requires |gts| <= |preds|
    ensures |InstruPreds(gts, preds)| + |SongPreds(gts, preds)| == |gts|
    ensures NbInstru(gts) <= |InstruPreds(gts, preds)|
    decreases |gts|
  {
    if |gts| > 0 {
      var n := |gts| - 1;
      PoolAndSongs(gts[..n], preds);
      assert gts == gts[..n] + [gts[n]];
      CountAppend(gts[..n], [gts[n]], Instrumental);
      if gts[n] == Instrumental {
        assert IsInstrumental(gts[n]);
      }
    }
  }

  /** When every tag is "i" or "s", the pool has exactly `nb_instru` items and every
      "s" tag is a song item: each group is then balanced, `nb_instru` of each. */
  lemma {:induction false} BalancedWhenTagsAreLabels(gts: seq<string>, preds: seq<string>)
    requires |gts| <= |preds|
    requires forall j :: 0 <= j < |gts| ==> gts[j] == Instrumental || gts[j] == Song
    ensures |InstruPreds(gts, preds)| == NbInstru(gts)
    ensures |SongPreds(gts, preds)| == Count(gts, Song)
    decreases |gts|
  {
    if |gts| > 0 {
      var n := |gts| - 1;
      BalancedWhenTagsAreLabels(gts[..n], preds);
      assert gts == gts[..n] + [gts[n]];
      CountAppend(gts[..n], [gts[n]], Instrumental);
      CountAppend(gts[..n], [gts[n]], Song);
      if gts[n] == Instrumental {
        assert IsInstrumental(gts[n]);
      } else {
        NotContainsFirstChar(Song, Instrumental);
      }
    }
  }
}
