/**
 * The renaming rule of `clean_filenames`: spaces, commas and parentheses in a
 * track file name each become an underscore (the rename itself is not modelled).
 */
module Filenames {
  import opened Strings

  /** The characters the rule replaces. */
  predicate Unsafe(c: char)
  {
    c == ' ' || c == ',' || c == '(' || c == ')'
  }

  /** The chain of four `replace` calls. */
  function CleanFilename(name: string): (r: string)
    ensures |r| == |name|
  {
    var n := ReplaceChar(name, ' ', '_');
    var n := ReplaceChar(n, ',', '_');
    var n := ReplaceChar(n, '(', '_');
    ReplaceChar(n, ')', '_')
  }

  /** Character by character: unsafe characters become '_', all others stay. */
  lemma CleanFilenameAt(name: string)
    ensures |CleanFilename(name)| == |name|
    ensures forall i :: 0 <= i < |name| ==>
      CleanFilename(name)[i] == if Unsafe(name[i]) then '_' else name[i]
  {
  }

  /** The result has no unsafe character, and cleaning twice changes nothing more. */
  lemma CleanFilenameIdempotent(name: string)
    ensures forall i :: 0 <= i < |CleanFilename(name)| ==> !Unsafe(CleanFilename(name)[i])
    ensures CleanFilename(CleanFilename(name)) == CleanFilename(name)
  {
    CleanFilenameAt(name);
    CleanFilenameAt(CleanFilename(name));
  }
}
