/**
 * The handful of Python `str` operations the evaluation engine relies on:
 * substring test (`pat in s`), `s.split(sep)` for a one-character separator,
 * negative-bound slicing (`s[:-n]`) and `s.replace(a, b)` for single characters.
 */
module Strings {

  /** Python's `pat in s`: `pat` occurs contiguously somewhere in `s`. */
  predicate Contains(s: string, pat: string)
    ensures Contains(s, pat) ==> |pat| <= |s|
    decreases |s|
  {
    if |pat| > |s| then false
    else if s[..|pat|] == pat then true
    else Contains(s[1..], pat)
  }

  /** `pat` occurs in `s` starting at position `i`. */
  predicate OccursAt(s: string, pat: string, i: int)
  {
    0 <= i && i + |pat| <= |s| && s[i..i + |pat|] == pat
  }

  /** An occurrence past the first position is an occurrence in the tail. */
  lemma OccursShift(s: string, pat: string, i: int)
    requires i >= 1 && |s| >= 1
    ensures OccursAt(s, pat, i) <==> OccursAt(s[1..], pat, i - 1)
  {
    if i + |pat| <= |s| {
      var a, b := s[i..i + |pat|], s[1..][i - 1..i - 1 + |pat|];
      forall j | 0 <= j < |pat| ensures a[j] == b[j] { }
      assert a == b;
    }
  }

  /** `Contains` agrees with the positional definition of a substring. */
  lemma {:induction false} ContainsIff(s: string, pat: string)
    ensures Contains(s, pat) <==> exists i :: OccursAt(s, pat, i)
    decreases |s|
  {
    if |pat| > |s| {
    } else if s[..|pat|] == pat {
      assert OccursAt(s, pat, 0);
    } else {
      ContainsIff(s[1..], pat);
      if Contains(s, pat) {
        var i :| OccursAt(s[1..], pat, i);
        OccursShift(s, pat, i + 1);
      } else {
        forall i | 0 <= i ensures !OccursAt(s, pat, i) {
          if i > 0 {
            OccursShift(s, pat, i);
          }
        }
      }
    }
  }

  /** An occurrence at a known position is enough for `Contains`. */
  lemma ContainsAt(s: string, pat: string, i: int)
    requires OccursAt(s, pat, i)
    ensures Contains(s, pat)
  {
    ContainsIff(s, pat);
  }

  /** A pattern cannot occur where its first character does not. */
  lemma {:induction false} NotContainsFirstChar(s: string, pat: string)
    requires |pat| > 0 && pat[0] !in s
    ensures !Contains(s, pat)
    decreases |s|
  {
    if |pat| <= |s| {
      assert s[..|pat|][0] == s[0] != pat[0];
      assert pat[0] !in s[1..];
      NotContainsFirstChar(s[1..], pat);
    }
  }

  /** A one-character pattern occurs exactly when the character does. */
  lemma ContainsChar(s: string, c: char)
    ensures Contains(s, [c]) <==> c in s
  {
    ContainsIff(s, [c]);
    if c in s {
      var i :| 0 <= i < |s| && s[i] == c;
      assert OccursAt(s, [c], i);
    }
    if Contains(s, [c]) {
      var i :| OccursAt(s, [c], i);
      assert s[i..i + 1] == [c];
      assert s[i] in s;
    }
  }

  /** Python's `s.split(sep)`: the maximal runs of `s` between separators, in order. */
  function Split(s: string, sep: char): (r: seq<string>)
    ensures |r| >= 1
    ensures forall k :: 0 <= k < |r| ==> sep !in r[k]
    decreases |s|
  {
    if |s| == 0 then [""]
    else if s[0] == sep then [""] + Split(s[1..], sep)
    else
      var t := Split(s[1..], sep);
      [[s[0]] + t[0]] + t[1..]
  }

  /** Python's `sep.join(fields)`. */
  function Join(fields: seq<string>, sep: char): string
  {
    if |fields| == 0 then ""
    else if |fields| == 1 then fields[0]
    else fields[0] + [sep] + Join(fields[1..], sep)
  }

  /** Splitting loses nothing: joining the fields back gives the original string. */
  lemma {:induction false} JoinSplit(s: string, sep: char)
    ensures Join(Split(s, sep), sep) == s
    decreases |s|
  {
    if |s| == 0 {
    } else if s[0] == sep {
      JoinSplit(s[1..], sep);
      assert s == [sep] + s[1..];
    } else {
      JoinSplit(s[1..], sep);
      var t := Split(s[1..], sep);
      if |t| == 1 {
        assert s == [s[0]] + t[0];
      } else {
        assert Join(t, sep) == t[0] + [sep] + Join(t[1..], sep);
        assert s == [s[0]] + s[1..];
      }
    }
  }

  /** A string without the separator is one field. */
  lemma {:induction false} SplitNoSep(s: string, sep: char)
    requires sep !in s
    ensures Split(s, sep) == [s]
    decreases |s|
  {
    if |s| > 0 {
      SplitNoSep(s[1..], sep);
      assert s == [s[0]] + s[1..];
    }
  }

  /** A separator in the middle splits the fields of each side apart. */
  lemma {:induction false} SplitAround(a: string, sep: char, b: string)
    ensures Split(a + [sep] + b, sep) == Split(a, sep) + Split(b, sep)
    decreases |a|
  {
    var s := a + [sep] + b;
    if |a| == 0 {
      assert s == [sep] + b;
      assert s[1..] == b;
    } else {
      assert s[1..] == a[1..] + [sep] + b;
      SplitAround(a[1..], sep, b);
    }
  }

  /** There are at least two fields exactly when the separator occurs. */
  lemma {:induction false} SplitHasSecond(s: string, sep: char)
    ensures |Split(s, sep)| >= 2 <==> sep in s
    decreases |s|
  {
    if |s| > 0 && s[0] != sep {
      SplitHasSecond(s[1..], sep);
      assert sep in s <==> sep in s[1..];
    }
  }

  /** Python's `s[:-n]` for `n >= 1`: all but the last `n` characters, empty if `s` is shorter. */
  function DropLast(s: string, n: nat): (r: string)
    ensures |r| == if |s| <= n then 0 else |s| - n
    ensures r <= s
  {
    if |s| <= n then "" else s[..|s| - n]
  }

  /** Python's `s.replace(a, b)` for single characters `a` and `b`. */
  function ReplaceChar(s: string, a: char, b: char): (r: string)
    ensures |r| == |s|
    ensures forall i :: 0 <= i < |s| ==> r[i] == if s[i] == a then b else s[i]
  {
    if |s| == 0 then "" else [if s[0] == a then b else s[0]] + ReplaceChar(s[1..], a, b)
  }
}
