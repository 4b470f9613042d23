/** Patch normalisation (`extract_patch`, commit_to_md.py lines 59-64): the
    patch of one changed file, with the lines saying that the file lacks a
    final newline taken out. */
module Patch {
  import opened Types
  import opened Text

  /** The marker line unified diffs emit after a last line without newline. */
  const NoNewlineMarker: string := "\\ No newline at end of file"

  /** A line is dropped when, stripped of surrounding whitespace, it is the
      marker. */
  predicate IsMarker(line: string)
  {
    Strip(line) == NoNewlineMarker
  }

  /** The lines that the comprehension keeps, in their order. */
  function KeepLines(lines: seq<string>): (kept: seq<string>)
    ensures |kept| <= |lines|
    ensures forall i :: 0 <= i < |kept| ==> !IsMarker(kept[i])
  {
    if lines == [] then []
    else (if IsMarker(lines[0]) then [] else [lines[0]]) + KeepLines(lines[1..])
  }

  /** `extract_patch(file)`: no `patch` key gives the empty string;
      otherwise the patch is split on newlines, marker lines are dropped and
      the rest is joined with newlines again. */
  function ExtractPatch(file: FileChange): string
  {
    match file.patch
    case None => ""
    case Some(p) => Join(KeepLines(Split(p, '\n')), '\n')
  }

  /** `a` can be obtained from `b` by deleting elements, so it keeps their
      relative order. */
  predicate IsSubsequence<T(==)>(a: seq<T>, b: seq<T>)
  {
    if a == [] then true
    else if b == [] then false
    else (a[0] == b[0] && IsSubsequence(a[1..], b[1..])) || IsSubsequence(a, b[1..])
  }

  /** The kept lines are the input's lines in their original order. */
  lemma {:induction false} KeepLinesOrder(lines: seq<string>)
    ensures IsSubsequence(KeepLines(lines), lines)
  {
    if lines != [] {
      KeepLinesOrder(lines[1..]);
      var kept := KeepLines(lines);
      if !IsMarker(lines[0]) {
        assert kept[0] == lines[0] && kept[1..] == KeepLines(lines[1..]);
      } else {
        assert kept == KeepLines(lines[1..]);
      }
    }
  }

  /** Every line that is not a marker is kept as often as it occurs, and no
      marker is kept. */
  lemma {:induction false} KeepLinesCounts(lines: seq<string>)
    ensures forall l :: multiset(KeepLines(lines))[l] == if IsMarker(l) then 0 else multiset(lines)[l]
  {
    if lines != [] {
      KeepLinesCounts(lines[1..]);
      assert lines == [lines[0]] + lines[1..];
      var head := if IsMarker(lines[0]) then [] else [lines[0]];
      assert multiset(KeepLines(lines)) == multiset(head) + multiset(KeepLines(lines[1..]));
      assert multiset(lines) == multiset([lines[0]]) + multiset(lines[1..]);
    }
  }

  /** A list without marker lines passes through unchanged. */
  lemma {:induction false} KeepLinesIdentity(lines: seq<string>)
    requires forall i :: 0 <= i < |lines| ==> !IsMarker(lines[i])
    ensures KeepLines(lines) == lines
  {
    if lines != [] {
      KeepLinesIdentity(lines[1..]);
      assert lines == [lines[0]] + lines[1..];
    }
  }

  /** The lines of the extracted patch are exactly the kept lines of the
      original patch (one empty line when none is kept), so the result holds
      no marker line. A file without a patch gives the empty string. */
  lemma ExtractPatchLines(file: FileChange)
    ensures file.patch.None? ==> ExtractPatch(file) == ""
    ensures file.patch.Some? ==>
      var kept := KeepLines(Split(file.patch.value, '\n'));
      Split(ExtractPatch(file), '\n') == if kept == [] then [""] else kept
    ensures forall l :: l in Split(ExtractPatch(file), '\n') ==> !IsMarker(l)
  {
    assert Strip("") == "";
    if file.patch.Some? {
      var kept := KeepLines(Split(file.patch.value, '\n'));
      if kept != [] {
        forall i | 0 <= i < |kept| ensures '\n' !in kept[i] {
          KeepLinesCounts(Split(file.patch.value, '\n'));
          assert kept[i] in multiset(kept);
          assert kept[i] in Split(file.patch.value, '\n');
        }
        SplitJoin(kept, '\n');
      }
    }
  }

  /** A patch without marker lines comes out exactly as it went in. */
  lemma ExtractPatchIdentity(file: FileChange)
    requires file.patch.Some?
    requires forall l :: l in Split(file.patch.value, '\n') ==> !IsMarker(l)
    ensures ExtractPatch(file) == file.patch.value
  {
    var lines := Split(file.patch.value, '\n');
    KeepLinesIdentity(lines);
    JoinSplit(file.patch.value, '\n');
  }
}
