/**
 * Ground-truth loading (`read_item_tag`): every line `id,tag\n` of the
 * ground-truth table becomes one entry `id -> tag` of a dictionary.
 * The file is given as its sequence of lines, each with its line terminator.
 */
module GroundTruth {
  import opened Wrappers
  import opened Strings

  /** Loading aborts at the first line without a comma, where `line[1]` raises. */
  datatype LoadError = MissingTag(row: nat)

  /** The line has a second comma field. */
  predicate HasTag(row: string)
  {
    |Split(row, ',')| >= 2
  }

  /** The key of a line: its first comma field. */
  function RowKey(row: string): (r: string)
    ensures ',' !in r
  {
    Split(row, ',')[0]
  }

  /** The tag of a line: its second comma field without its last character (the newline). */
  function RowTag(row: string): (r: string)
    requires HasTag(row)
    ensures ',' !in r
  {
    DropLast(Split(row, ',')[1], 1)
  }

  /** The dictionary after reading `rows` in order; a later key overwrites an earlier one. */
  function ItemTags(rows: seq<string>): (r: Result<map<string, string>, LoadError>)
    ensures r.Err? ==> r.error.row < |rows|
    decreases |rows|
  {
    if |rows| == 0 then Ok(map[])
    else
      var prev := ItemTags(rows[..|rows| - 1]);
      var row := rows[|rows| - 1];
      if prev.Err? then prev
      else if !HasTag(row) then Err(MissingTag(|rows| - 1))
      else Ok(prev.value[RowKey(row) := RowTag(row)])
  }

  /** The loop of `read_item_tag`: fills the dictionary line by line. */
  method ReadItemTag(rows: seq<string>) returns (r: Result<map<string, string>, LoadError>)
    ensures r == ItemTags(rows)
  {
    var groundtruths: map<string, string> := map[];
    var i := 0;
    while i < |rows|
      invariant 0 <= i <= |rows|
      invariant ItemTags(rows[..i]) == Ok(groundtruths)
    {
      assert rows[..i + 1][..i] == rows[..i];
      var line := Split(rows[i], ',');
      if |line| < 2 {
        ErrorSticks(rows, i + 1);
        return Err(MissingTag(i));
      }
      groundtruths := groundtruths[line[0] := DropLast(line[1], 1)];
      i := i + 1;
    }
    assert rows[..i] == rows;
    r := Ok(groundtruths);
  }

  /** Once a prefix has failed, reading more lines does not change the error. */
  lemma {:induction false} ErrorSticks(rows: seq<string>, n: nat)
    requires n <= |rows|
    requires ItemTags(rows[..n]).Err?
    ensures ItemTags(rows) == ItemTags(rows[..n])
    decreases |rows| - n
  {
    if n < |rows| {
      assert rows[..n + 1][..n] == rows[..n];
      ErrorSticks(rows, n + 1);
    } else {
      assert rows[..n] == rows;
    }
  }

  /** A line of the documented shape `id,tag\n` yields exactly `id` and `tag`. */
  lemma WellFormedRow(id: string, tag: string)
    requires ',' !in id && ',' !in tag
    ensures HasTag(id + "," + tag + "\n")
    ensures RowKey(id + "," + tag + "\n") == id
    ensures RowTag(id + "," + tag + "\n") == tag
  {
    var row := id + "," + tag + "\n";
    assert row == id + [','] + (tag + "\n");
    SplitAround(id, ',', tag + "\n");
    SplitNoSep(id, ',');
    assert ',' !in tag + "\n";
    SplitNoSep(tag + "\n", ',');
  }

  /** An unterminated last line `id,tag` loses the last character of its tag
      (`t6,i` gives the tag `""`). */
  lemma UnterminatedRow(id: string, tag: string)
    requires ',' !in id && ',' !in tag
    ensures HasTag(id + "," + tag)
    ensures RowKey(id + "," + tag) == id
    ensures RowTag(id + "," + tag) == DropLast(tag, 1)
  {
    assert id + "," + tag == id + [','] + tag;
    SplitAround(id, ',', tag);
    SplitNoSep(id, ',');
    SplitNoSep(tag, ',');
  }

  /** A line has a tag exactly when it contains a comma. */
  lemma HasTagIff(row: string)
    ensures HasTag(row) <==> ',' in row
  {
    SplitHasSecond(row, ',');
  }

  /** Loading fails exactly when some line lacks a comma, and it reports the first such line. */
  lemma {:induction false} ItemTagsFails(rows: seq<string>)
    ensures ItemTags(rows).Err? <==> exists i :: 0 <= i < |rows| && !HasTag(rows[i])
    ensures ItemTags(rows).Err? ==>
      var e := ItemTags(rows).error.row;
      e < |rows| && !HasTag(rows[e]) && forall j :: 0 <= j < e ==> HasTag(rows[j])
    decreases |rows|
  {
    if |rows| > 0 {
      var init := rows[..|rows| - 1];
      ItemTagsFails(init);
      assert forall i :: 0 <= i < |init| ==> init[i] == rows[i];
      if ItemTags(init).Err? {
        var e := ItemTags(init).error.row;
        assert !HasTag(rows[e]);
      }
    }
  }

  /** Exactly the keys of the lines end up in the dictionary. */
  lemma {:induction false} ItemTagsKeys(rows: seq<string>, k: string)
    requires ItemTags(rows).Ok?
    ensures k in ItemTags(rows).value <==> exists i :: 0 <= i < |rows| && RowKey(rows[i]) == k
    decreases |rows|
  {
    if |rows| > 0 {
      var init := rows[..|rows| - 1];
      ItemTagsKeys(init, k);
      assert forall i :: 0 <= i < |init| ==> init[i] == rows[i];
      if k in ItemTags(init).value {
        var i :| 0 <= i < |init| && RowKey(init[i]) == k;
        assert RowKey(rows[i]) == k;
      }
    }
  }

  /** The last line with a given key decides its tag. */
  lemma {:induction false} ItemTagsLastWins(rows: seq<string>, i: nat)
    requires i < |rows|
    requires forall j :: i < j < |rows| ==> RowKey(rows[j]) != RowKey(rows[i])
    requires ItemTags(rows).Ok?
    ensures HasTag(rows[i])
    ensures RowKey(rows[i]) in ItemTags(rows).value
    ensures ItemTags(rows).value[RowKey(rows[i])] == RowTag(rows[i])
    decreases |rows|
  {
    var init := rows[..|rows| - 1];
    if i < |rows| - 1 {
      assert init[i] == rows[i];
      forall j | i < j < |init| ensures RowKey(init[j]) != RowKey(init[i]) {
        assert init[j] == rows[j];
      }
      ItemTagsLastWins(init, i);
    }
  }
}
