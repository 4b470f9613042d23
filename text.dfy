/** The Python string operations the program relies on: `str.split` and
    `str.join` on a one-character separator, `str.strip()`, `str.rstrip(c)`
    and `str.replace` of one character by another. */
module Text {

  /** `s.split(d)`: the pieces of `s` between occurrences of `d`. There is
      always at least one piece, no piece contains `d`, and `s` splits into
      itself alone exactly when it holds no `d`. */
  function Split(s: string, d: char): (r: seq<string>)
    ensures |r| >= 1
    ensures forall i :: 0 <= i < |r| ==> d !in r[i]
    ensures d !in s <==> r == [s]
  {
    if s == [] then [[]]
    else
      var rest := Split(s[1..], d);
      if s[0] == d then [[]] + rest
      else
        assert s == [s[0]] + s[1..];
        var r := [[s[0]] + rest[0]] + rest[1..];
        assert d !in s ==> rest == [s[1..]] && r == [s];
        assert r[0] == [s[0]] + rest[0] && ([s[0]] + rest[0])[1..] == rest[0];
        assert r == [s] ==> rest == [rest[0]] && rest[0] == s[1..] && d !in s;
        r
  }

  /** `d.join(parts)`. */
  function Join(parts: seq<string>, d: char): string
  {
    if |parts| == 0 then []
    else if |parts| == 1 then parts[0]
    else parts[0] + [d] + Join(parts[1..], d)
  }

  /** Joining the pieces of a split gives the string back. */
  lemma {:induction false} JoinSplit(s: string, d: char)
    ensures Join(Split(s, d), d) == s
  {
    if s != [] {
      var rest := Split(s[1..], d);
      JoinSplit(s[1..], d);
      if s[0] != d {
        var r := Split(s, d);
        assert r[0] == [s[0]] + rest[0] && r[1..] == rest[1..];
        if |rest| >= 2 {
          assert Join(rest, d) == rest[0] + [d] + Join(rest[1..], d);
        }
        assert s == [s[0]] + s[1..];
      }
    }
  }

  /** Splitting at a separator that sits between `a` and `b` splits each side
      on its own. */
  lemma {:induction false} SplitAround(a: string, b: string, d: char)
    ensures Split(a + [d] + b, d) == Split(a, d) + Split(b, d)
  {
    var s := a + [d] + b;
    if a == [] {
      assert s[1..] == b;
    } else {
      assert s[1..] == a[1..] + [d] + b;
      SplitAround(a[1..], b, d);
    }
  }

  /** Splitting a join gives the parts back, when no part holds the
      separator and there is at least one part. */
  lemma {:induction false} SplitJoin(parts: seq<string>, d: char)
    requires |parts| >= 1
    requires forall i :: 0 <= i < |parts| ==> d !in parts[i]
    ensures Split(Join(parts, d), d) == parts
  {
    if |parts| >= 2 {
      SplitJoin(parts[1..], d);
      SplitAround(parts[0], Join(parts[1..], d), d);
      assert parts == [parts[0]] + parts[1..];
    }
  }

  /** A join of two or more parts is the join of all but the last, the
      separator, and the last part. */
  lemma {:induction false} JoinLast(parts: seq<string>, d: char)
    requires |parts| >= 2
    ensures Join(parts, d) == Join(parts[..|parts| - 1], d) + [d] + parts[|parts| - 1]
  {
    if |parts| > 2 {
      JoinLast(parts[1..], d);
      assert parts[1..][..|parts| - 2] == parts[..|parts| - 1][1..];
    }
  }

  /** `s.lstrip(chars)`, the characters to drop given as a predicate. */
  function LStrip(s: string, drop: char -> bool): string
  {
    if |s| > 0 && drop(s[0]) then LStrip(s[1..], drop) else s
  }

  /** `s.rstrip(chars)`. */
  function RStrip(s: string, drop: char -> bool): string
  {
    if |s| > 0 && drop(s[|s| - 1]) then RStrip(s[..|s| - 1], drop) else s
  }

  /** `lstrip` keeps the longest suffix of `s` that does not start with a
      dropped character. */
  lemma {:induction false} LStripShape(s: string, drop: char -> bool)
    ensures var r := LStrip(s, drop);
      && |r| <= |s| && r == s[|s| - |r|..]
      && (forall i :: 0 <= i < |s| - |r| ==> drop(s[i]))
      && (r == [] || !drop(r[0]))
  {
    if |s| > 0 && drop(s[0]) {
      LStripShape(s[1..], drop);
    }
  }

  /** `rstrip` keeps the longest prefix of `s` that does not end with a
      dropped character. */
  lemma {:induction false} RStripShape(s: string, drop: char -> bool)
    ensures var r := RStrip(s, drop);
      && |r| <= |s| && r == s[..|r|]
      && (forall i :: |r| <= i < |s| ==> drop(s[i]))
      && (r == [] || !drop(r[|r| - 1]))
  {
    if |s| > 0 && drop(s[|s| - 1]) {
      RStripShape(s[..|s| - 1], drop);
    }
  }

  /** Adding dropped characters at the end does not change what `rstrip`
      keeps. */
  lemma {:induction false} RStripIgnoresTail(s: string, tail: string, drop: char -> bool)
    requires forall i :: 0 <= i < |tail| ==> drop(tail[i])
    ensures RStrip(s + tail, drop) == RStrip(s, drop)
  {
    if tail != [] {
      var t := tail[..|tail| - 1];
      assert (s + tail)[..|s + tail| - 1] == s + t;
      assert (s + tail)[|s + tail| - 1] == tail[|tail| - 1];
      assert forall i :: 0 <= i < |t| ==> t[i] == tail[i];
      assert RStrip(s + tail, drop) == RStrip(s + t, drop);
      RStripIgnoresTail(s, t, drop);
    } else {
      assert s + tail == s;
    }
  }

  /** The characters Python's `str.isspace` accepts, so the ones
      `str.strip()` with no argument removes. */
  predicate IsSpace(c: char)
  {
    || ('\t' <= c <= '\r')
    || ('\U{1C}' <= c <= ' ')
    || c == '\U{85}' || c == '\U{A0}' || c == '\U{1680}'
    || ('\U{2000}' <= c <= '\U{200A}')
    || c == '\U{2028}' || c == '\U{2029}' || c == '\U{202F}'
    || c == '\U{205F}' || c == '\U{3000}'
  }

  /** `s.strip(chars)`. */
  function StripWith(s: string, drop: char -> bool): string
  {
    RStrip(LStrip(s, drop), drop)
  }

  /** `s.strip()`. */
  function Strip(s: string): string
  {
    StripWith(s, IsSpace)
  }

  /** `strip()` removes a run of whitespace at each end and nothing else:
      what it keeps is a slice of `s` with only whitespace around it, and
      neither starts nor ends with whitespace. */
  lemma StripShape(s: string)
    ensures exists a, b :: && 0 <= a <= b <= |s| && Strip(s) == s[a..b]
                          && (forall i :: 0 <= i < a ==> IsSpace(s[i]))
                          && (forall i :: b <= i < |s| ==> IsSpace(s[i]))
    ensures Strip(s) == [] || (!IsSpace(Strip(s)[0]) && !IsSpace(Strip(s)[|Strip(s)| - 1]))
  {
    var l := LStrip(s, IsSpace);
    LStripShape(s, IsSpace);
    var r := RStrip(l, IsSpace);
    RStripShape(l, IsSpace);
    var a := |s| - |l|;
    var b := a + |r|;
    assert r == s[a..b];
    assert forall i :: b <= i < |s| ==> s[i] == l[i - a];
  }

  /** `s.replace(from, to)` for single characters. */
  function ReplaceChar(s: string, from: char, to: char): string
  {
    if s == [] then []
    else (if s[0] == from then [to] else [s[0]]) + ReplaceChar(s[1..], from, to)
  }

  /** Replacing keeps the length and every position, except that each
      `from` becomes `to`. */
  lemma {:induction false} ReplaceCharShape(s: string, from: char, to: char)
    ensures |ReplaceChar(s, from, to)| == |s|
    ensures forall i :: 0 <= i < |s| ==> ReplaceChar(s, from, to)[i] == if s[i] == from then to else s[i]
  {
    if s != [] {
      ReplaceCharShape(s[1..], from, to);
    }
  }
}
