/**
 * `splitLines` from the IOS-XR test program: cut a transcript at every
 * newline, dropping the empty piece a trailing newline would leave, and
 * returning no lines at all for the empty string.
 */
module SplitLines {
  import opened Text

  /** The number of newline characters in `s`. */
  function NewlineCount(s: string): (n: nat)
    ensures n <= |s|
  {
    if s == [] then 0
    else NewlineCount(s[..|s| - 1]) + (if s[|s| - 1] == '\n' then 1 else 0)
  }

  /** `s` is empty or ends in a newline: nothing follows the last cut. */
  predicate EndsClean(s: string) {
    s == [] || s[|s| - 1] == '\n'
  }

  /** What the loop knows after scanning `s[..i]`, with the current line starting at `start`. */
  predicate Scanned(s: string, lines: seq<string>, start: nat, i: nat) {
    start <= i <= |s|
    && (forall k :: 0 <= k < |lines| ==> '\n' !in lines[k])
    && (forall k :: start <= k < i ==> s[k] != '\n')
    && (lines == [] <==> start == 0)
    && (lines != [] ==> JoinLines(lines) + "\n" == s[..start] && s[start - 1] == '\n')
    && |lines| == NewlineCount(s[..i])
  }

  /** The pieces of `s` from `start` to `end` hold no newline. */
  lemma NoNewlineBetween(s: string, start: nat, end: nat)
    requires start <= end <= |s| && forall k :: start <= k < end ==> s[k] != '\n'
    ensures '\n' !in s[start..end]
  {
    forall k | 0 <= k < end - start ensures s[start..end][k] != '\n' {
      assert s[start..end][k] == s[start + k];
    }
  }

  /** One step of the loop keeps what it knows. */
  lemma ScanStep(s: string, lines: seq<string>, start: nat, i: nat)
    requires Scanned(s, lines, start, i) && i < |s|
    ensures s[i] != '\n' ==> Scanned(s, lines, start, i + 1)
    ensures s[i] == '\n' ==> Scanned(s, lines + [s[start..i]], i + 1, i + 1)
  {
    assert s[..i + 1][..i] == s[..i];
    if s[i] == '\n' {
      var piece := s[start..i];
      NoNewlineBetween(s, start, i);
      if lines != [] {
        JoinLinesSnoc(lines, piece);
        assert s[..i + 1] == s[..start] + piece + "\n";
      } else {
        assert s[..i + 1] == piece + "\n";
      }
    }
  }

  /** After the loop: a non-empty tail becomes the last line. */
  lemma ScanDone(s: string, lines: seq<string>, start: nat)
    requires Scanned(s, lines, start, |s|)
    ensures var r := if start < |s| then lines + [s[start..]] else lines;
            (forall k :: 0 <= k < |r| ==> '\n' !in r[k])
            && JoinLines(r) + (if EndsClean(s) && s != [] then "\n" else "") == s
            && |r| == NewlineCount(s) + (if EndsClean(s) then 0 else 1)
            && (s == [] ==> r == [])
            && Lines(s) == r + (if EndsClean(s) then [""] else [])
  {
    assert s[..|s|] == s;
    if start < |s| {
      var tail := s[start..];
      NoNewlineBetween(s, start, |s|);
      assert s[|s| - 1] == tail[|tail| - 1];
      if lines != [] {
        JoinLinesSnoc(lines, tail);
        assert s == s[..start] + tail;
      }
      SplitMatchesLines(s, lines + [tail]);
    } else if lines != [] {
      JoinLinesSnoc(lines, "");
      SplitMatchesLines(s, lines + [""]);
    }
  }

  /** The source's loop: remember where the current line started, cut at each newline, keep a non-empty tail. */
  method Split(s: string) returns (lines: seq<string>)
    ensures forall k :: 0 <= k < |lines| ==> '\n' !in lines[k]
    ensures JoinLines(lines) + (if EndsClean(s) && s != [] then "\n" else "") == s
    ensures |lines| == NewlineCount(s) + (if EndsClean(s) then 0 else 1)
    ensures s == [] ==> lines == []
    ensures Lines(s) == lines + (if EndsClean(s) then [""] else [])
  {
    lines := [];
    var start := 0;
    var i := 0;
    while i < |s|
      invariant Scanned(s, lines, start, i)
    {
      ScanStep(s, lines, start, i);
      if s[i] == '\n' {
        lines := lines + [s[start..i]];
        start := i + 1;
      }
      i := i + 1;
    }
    ScanDone(s, lines, start);
    if start < |s| {
      lines := lines + [s[start..]];
    }
  }

  /** Go's `strings.Split` on "\n" sees the same pieces. */
  lemma SplitMatchesLines(s: string, ls: seq<string>)
    requires |ls| >= 1 && forall k :: 0 <= k < |ls| ==> '\n' !in ls[k]
    requires JoinLines(ls) == s
    ensures Lines(s) == ls
  {
    LinesOfJoinLines(ls);
  }
}
