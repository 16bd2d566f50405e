/**
 * Reading one algorithm's prediction file (the loop shared by experiments 2
 * and 3): lines whose id is in the ground truth are kept in file order, each
 * giving its ground-truth tag and its binarised score.
 */
module Predictions {
  import opened Wrappers
  import opened Strings
  import opened Threshold

  /** One line of a prediction file: the id (first field) and the score (second field
      read as a number); `None` when there is no second field or it does not read as a
      number. */
  datatype ScoreRecord = ScoreRecord(id: string, score: Option<real>)

  /** `line[:-1].split(",")`: the last character (the newline) is cut before splitting. */
  function LineFields(line: string): (r: seq<string>)
    ensures |r| >= 1
  {
    Split(DropLast(line, 1), ',')
  }

  /** The record of one line: `row[0]` and `float(row[1])`, the reading of a number being
      `readScore` (`None` for text that is not a number). */
  function RecordOf(line: string, readScore: string -> Option<real>): (r: ScoreRecord)
    ensures r.id == LineFields(line)[0]
    ensures |LineFields(line)| < 2 ==> r.score.None?
  {
    var row := LineFields(line);
    ScoreRecord(row[0], if |row| >= 2 then readScore(row[1]) else None)
  }

  /** The records of the lines of a prediction file, in file order. */
  function Records(lines: seq<string>, readScore: string -> Option<real>): (r: seq<ScoreRecord>)
    ensures |r| == |lines|
    ensures forall i :: 0 <= i < |lines| ==> r[i] == RecordOf(lines[i], readScore)
  {
    seq(|lines|, i requires 0 <= i < |lines| => RecordOf(lines[i], readScore))
  }

  /** A line `id,score\n` (no comma in either) has id `id` and the number `score` reads as. */
  lemma RecordOfWellFormed(id: string, text: string, readScore: string -> Option<real>)
    requires ',' !in id && ',' !in text
    ensures RecordOf(id + "," + text + "\n", readScore) == ScoreRecord(id, readScore(text))
  {
    var line := id + "," + text + "\n";
    assert DropLast(line, 1) == id + [','] + text;
    SplitAround(id, ',', text);
    SplitNoSep(id, ',');
    SplitNoSep(text, ',');
  }

  /** A last line without its newline loses the last character of its score text
      (`t6,0.9` reads the text `0.`). */
  lemma RecordOfUnterminated(id: string, text: string, readScore: string -> Option<real>)
    requires ',' !in id && ',' !in text && |text| >= 1
    ensures RecordOf(id + "," + text, readScore) == ScoreRecord(id, readScore(text[..|text| - 1]))
  {
    var line := id + "," + text;
    assert DropLast(line, 1) == id + [','] + text[..|text| - 1];
    SplitAround(id, ',', text[..|text| - 1]);
    SplitNoSep(id, ',');
    assert ',' !in text[..|text| - 1];
    SplitNoSep(text[..|text| - 1], ',');
  }

  /** A line without a comma has no score, and its id loses its last character. */
  lemma RecordOfNoComma(line: string, readScore: string -> Option<real>)
    requires ',' !in line
    ensures RecordOf(line, readScore) == ScoreRecord(DropLast(line, 1), None)
  {
    assert ',' !in DropLast(line, 1);
    SplitNoSep(DropLast(line, 1), ',');
  }

  /** Reading aborts at the first kept line whose score cannot be read. */
  datatype ReadError = UnreadableScore(line: nat)

  /** The two lists built side by side: ground-truth tags and predicted labels. */
  datatype Labelled = Labelled(truths: seq<string>, preds: seq<string>)

  /** The line raises when read: its id is in the ground truth, but it has no readable score. */
  predicate Unreadable(r: ScoreRecord, gts: map<string, string>)
  {
    r.id in gts && r.score.None?
  }

  /** The lines whose id is in the ground truth, in file order. */
  function Kept(records: seq<ScoreRecord>, gts: map<string, string>): (k: seq<ScoreRecord>)
    ensures |k| <= |records|
    ensures forall x :: x in k <==> x in records && x.id in gts
    decreases |records|
  {
    if |records| == 0 then []
    else
      var last := records[|records| - 1];
      var init := records[..|records| - 1];
      assert records == init + [last];
      Kept(init, gts) + (if last.id in gts then [last] else [])
  }

  /** Keeping distributes over concatenation: the kept lines of a file are the kept
      lines of its first part followed by those of its second, so file order is kept. */
  lemma {:induction false} KeptAppend(a: seq<ScoreRecord>, b: seq<ScoreRecord>, gts: map<string, string>)
    ensures Kept(a + b, gts) == Kept(a, gts) + Kept(b, gts)
    decreases |b|
  {
    if |b| == 0 {
      assert a + b == a;
    } else {
      var n := |b| - 1;
      assert (a + b)[..|a + b| - 1] == a + b[..n];
      assert (a + b)[|a + b| - 1] == b[n];
      KeptAppend(a, b[..n], gts);
    }
  }

  /** A single line is kept exactly when its id is in the ground truth. */
  lemma KeptSingle(x: ScoreRecord, gts: map<string, string>)
    ensures Kept([x], gts) == if x.id in gts then [x] else []
  {
    assert [x][..0] == [];
  }

  /** The reading loop over the split lines: keeps the lines whose id has a ground
      truth, fails on the first kept line whose score does not parse, and binarises
      every kept score. */
  method ScanRecords(records: seq<ScoreRecord>, gts: map<string, string>, threshold: real)
    returns (r: Result<Labelled, ReadError>)
    ensures r.Err? <==> exists i :: 0 <= i < |records| && Unreadable(records[i], gts)
    ensures r.Err? ==>
      && r.error.line < |records|
      && Unreadable(records[r.error.line], gts)
      && forall i :: 0 <= i < r.error.line ==> !Unreadable(records[i], gts)
    ensures r.Ok? ==>
      var k := Kept(records, gts);
      && |r.value.truths| == |k|
      && |r.value.preds| == |k|
      && forall j :: 0 <= j < |k| ==>
           && k[j].id in gts
           && k[j].score.Some?
           && r.value.truths[j] == gts[k[j].id]
           && r.value.preds[j] == Binarise(k[j].score.value, threshold)
  {
    var testGroundtruths: seq<string> := [];
    var predictions: seq<string> := [];
    var i := 0;
    while i < |records|
      invariant 0 <= i <= |records|
      invariant forall j :: 0 <= j < i ==> !Unreadable(records[j], gts)
      invariant |testGroundtruths| == |Kept(records[..i], gts)|
      invariant |predictions| == |Kept(records[..i], gts)|
      invariant forall j :: 0 <= j < |Kept(records[..i], gts)| ==>
        var x := Kept(records[..i], gts)[j];
        && x.id in gts
        && x.score.Some?
        && testGroundtruths[j] == gts[x.id]
        && predictions[j] == Binarise(x.score.value, threshold)
    {
      var rec := records[i];
      assert records[..i + 1][..i] == records[..i];
      if rec.id in gts {
        if rec.score.None? {
          return Err(UnreadableScore(i));
        }
        testGroundtruths := testGroundtruths + [gts[rec.id]];
        predictions := predictions + [Binarise(rec.score.value, threshold)];
      }
      i := i + 1;
    }
    assert records[..i] == records;
    r := Ok(Labelled(testGroundtruths, predictions));
  }

  /** Reading a prediction file: every line is cut and split as `RecordOf` says, then
      scanned; an error names the index of the offending line. */
  method ReadPredictions(lines: seq<string>, readScore: string -> Option<real>,
                         gts: map<string, string>, threshold: real)
    returns (r: Result<Labelled, ReadError>)
    ensures r.Err? <==>
      exists i :: 0 <= i < |lines| && Unreadable(RecordOf(lines[i], readScore), gts)
    ensures r.Err? ==>
      && r.error.line < |lines|
      && Unreadable(RecordOf(lines[r.error.line], readScore), gts)
      && forall i :: 0 <= i < r.error.line ==> !Unreadable(RecordOf(lines[i], readScore), gts)
    ensures r.Ok? ==>
      var k := Kept(Records(lines, readScore), gts);
      && |r.value.truths| == |k|
      && |r.value.preds| == |k|
      && forall j :: 0 <= j < |k| ==>
           && k[j].id in gts
           && k[j].score.Some?
           && r.value.truths[j] == gts[k[j].id]
           && r.value.preds[j] == Binarise(k[j].score.value, threshold)
  {
    var records := Records(lines, readScore);
    r := ScanRecords(records, gts, threshold);
    if r.Err? {
      assert records[r.error.line] == RecordOf(lines[r.error.line], readScore);
    } else {
      forall i | 0 <= i < |lines|
        ensures !Unreadable(RecordOf(lines[i], readScore), gts)
      {
        assert records[i] == RecordOf(lines[i], readScore);
      }
    }
  }
}
