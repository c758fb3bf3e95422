/**
 * `cleanIOSXROutput` of the migration validation toolkit: strip terminal
 * escape sequences and carriage returns from an IOS-XR session transcript,
 * then drop the blank lines, the `terminal length` echo and the line after
 * it, the command echo, prompts, `exit` and the "Building configuration"
 * banner.
 */
module XrCleaner {
  import opened Common
  import opened Text

  // ---------------------------------------------------------------- escape sequences

  const ESC: char := '\U{1B}'

  /** `[0-9;]`: a character of an escape sequence's parameter list. */
  predicate AnsiParam(c: char) {
    IsDigit(c) || c == ';'
  }

  /** `[a-zA-Z]`: the final character of an escape sequence. */
  predicate AsciiLetter(c: char) {
    'a' <= c <= 'z' || 'A' <= c <= 'Z'
  }

  /** `ESC [ params letter` occupies exactly `s[..m]`. */
  predicate EscapeShape(s: string, m: nat) {
    3 <= m <= |s| && s[0] == ESC && s[1] == '[' && AsciiLetter(s[m - 1])
    && forall i :: 2 <= i < m - 1 ==> AnsiParam(s[i])
  }

  function ParamRun(s: string): (n: nat)
    ensures n <= |s|
    ensures forall i :: 0 <= i < n ==> AnsiParam(s[i])
    ensures n == |s| || !AnsiParam(s[n])
  {
    if s == [] || !AnsiParam(s[0]) then 0 else 1 + ParamRun(s[1..])
  }

  /** The length of the escape sequence `\x1b\[[0-9;]*[a-zA-Z]` starting at the front of `s`, if any. */
  function EscapeAt(s: string): (r: Option<nat>)
    ensures r.Some? ==> EscapeShape(s, r.value)
  {
    if |s| >= 2 && s[0] == ESC && s[1] == '[' then
      var k := 2 + ParamRun(s[2..]);
      if k < |s| && AsciiLetter(s[k]) then Some(k + 1) else None
    else None
  }

  /** Any escape sequence at the front is the one `EscapeAt` finds: the parameters cannot hold the final letter. */
  lemma EscapeAtComplete(s: string, m: nat)
    requires EscapeShape(s, m)
    ensures EscapeAt(s) == Some(m)
  {
  }

  /** `ReplaceAllString` with "": each escape sequence met while scanning left to right is cut out. */
  function StripAnsi(s: string): (r: string)
    ensures multiset(r) <= multiset(s)
    ensures ESC !in s ==> r == s
    decreases |s|
  {
    if s == [] then []
    else
      match EscapeAt(s)
      case Some(m) =>
        assert s == s[..m] + s[m..];
        StripAnsi(s[m..])
      case None =>
        assert s == [s[0]] + s[1..];
        [s[0]] + StripAnsi(s[1..])
  }

  /** An escape sequence at the front disappears, and the scan resumes right after it. */
  lemma StripAnsiSkips(e: string, rest: string)
    requires EscapeShape(e, |e|)
    ensures StripAnsi(e + rest) == StripAnsi(rest)
  {
    var s := e + rest;
    assert EscapeShape(s, |e|) by {
      assert forall i :: 0 <= i < |e| ==> s[i] == e[i];
    }
    EscapeAtComplete(s, |e|);
    assert s[|e|..] == rest;
  }

  /** `strings.ReplaceAll(output, "\r", "")`. */
  function DropCr(s: string): (r: string)
    ensures '\r' !in r
    ensures multiset(r) <= multiset(s)
    ensures '\r' !in s ==> r == s
  {
    if s == [] then []
    else
      assert s == [s[0]] + s[1..];
      (if s[0] == '\r' then [] else [s[0]]) + DropCr(s[1..])
  }

  // ---------------------------------------------------------------- the line filter

  /** The first ten characters of the command, which an echoed command line starts with. */
  function EchoPrefix(cmd: string): (p: string)
    ensures |p| <= 10 && HasPrefix(cmd, p)
    ensures |cmd| >= 10 ==> |p| == 10
  {
    if |cmd| < 10 then cmd else cmd[..10]
  }

  /** A non-blank trimmed line the cleaner drops without looking further. */
  predicate Noise(t: string, prefix: string) {
    HasPrefix(t, prefix) || HasSuffix(t, "#") || HasSuffix(t, ">") || t == "exit"
    || Contains(t, "Building configuration")
  }

  /** What a kept line looks like once trimmed. */
  predicate KeptShape(t: string, prefix: string) {
    t != "" && !Contains(t, "terminal length") && !Noise(t, prefix)
  }

  /**
   * The loop over the lines, with `skipNext` set by a `terminal length`
   * line and cleared by the next non-blank line, which is dropped.
   */
  function XrFilter(lines: seq<string>, prefix: string, skipNext: bool): (r: seq<string>)
    ensures |r| <= |lines|
    ensures forall k :: 0 <= k < |r| ==> r[k] in lines && KeptShape(TrimSpace(r[k]), prefix)
  {
    if lines == [] then []
    else
      var t := TrimSpace(lines[0]);
      var rest := lines[1..];
      if t == "" then XrFilter(rest, prefix, skipNext)
      else if Contains(t, "terminal length") then XrFilter(rest, prefix, true)
      else if skipNext then XrFilter(rest, prefix, false)
      else if Noise(t, prefix) then XrFilter(rest, prefix, false)
      else [lines[0]] + XrFilter(rest, prefix, false)
  }

  /** The line after a `terminal length` line is dropped whatever it holds. */
  lemma TerminalLengthSkipsNext(a: string, b: string, rest: seq<string>, prefix: string, skipNext: bool)
    requires Contains(TrimSpace(a), "terminal length")
    requires TrimSpace(b) != "" && !Contains(TrimSpace(b), "terminal length")
    ensures XrFilter([a, b] + rest, prefix, skipNext) == XrFilter(rest, prefix, false)
  {
    var ls := [a, b] + rest;
    assert ls[0] == a && ls[1..] == [b] + rest;
    assert ([b] + rest)[0] == b && ([b] + rest)[1..] == rest;
    assert TrimSpace(a) != "";
  }

  /** A line that is kept outright survives with its original spacing. */
  lemma PlainLineKept(a: string, rest: seq<string>, prefix: string)
    requires KeptShape(TrimSpace(a), prefix)
    ensures XrFilter([a] + rest, prefix, false) == [a] + XrFilter(rest, prefix, false)
  {
    assert ([a] + rest)[0] == a && ([a] + rest)[1..] == rest;
  }

  /** With an empty command every line counts as its echo, so nothing is kept. */
  lemma {:induction false} EmptyCommandKeepsNothing(lines: seq<string>, skipNext: bool)
    ensures XrFilter(lines, "", skipNext) == []
  {
    if lines != [] {
      EmptyCommandKeepsNothing(lines[1..], false);
      EmptyCommandKeepsNothing(lines[1..], true);
      EmptyCommandKeepsNothing(lines[1..], skipNext);
      assert HasPrefix(TrimSpace(lines[0]), "");
    }
  }

  // ---------------------------------------------------------------- cleanIOSXROutput

  /** The kept lines of a transcript. */
  function KeptLines(output: string, cmd: string): (r: seq<string>)
    ensures forall k :: 0 <= k < |r| ==> '\n' !in r[k] && '\r' !in r[k] && KeptShape(TrimSpace(r[k]), EchoPrefix(cmd))
  {
    var text := DropCr(StripAnsi(output));
    var lines := Lines(text);
    LinesFreeOf(text, '\r');
    XrFilter(lines, EchoPrefix(cmd), false)
  }

  function CleanXrOutput(output: string, cmd: string): (r: string) {
    JoinLines(KeptLines(output, cmd))
  }

  /** The cleaned output holds no carriage return. */
  lemma CleanXrOutputNoCr(output: string, cmd: string)
    ensures '\r' !in CleanXrOutput(output, cmd)
  {
    JoinLinesFreeOf(KeptLines(output, cmd), '\r');
  }

  /** Every line of a non-empty cleaned output is a kept line: not blank, no prompt, no echo. */
  lemma CleanXrOutputLines(output: string, cmd: string)
    ensures var r := CleanXrOutput(output, cmd);
            r == "" || forall k :: 0 <= k < |Lines(r)| ==> KeptShape(TrimSpace(Lines(r)[k]), EchoPrefix(cmd))
  {
    var kept := KeptLines(output, cmd);
    if kept != [] {
      LinesOfJoinLines(kept);
    }
  }

  /** A character missing from a text is missing from each of its lines. */
  lemma {:induction false} LinesFreeOf(s: string, c: char)
    requires c !in s
    ensures forall k :: 0 <= k < |Lines(s)| ==> c !in Lines(s)[k]
  {
    if s != [] {
      LinesFreeOf(s[1..], c);
      var rest := Lines(s[1..]);
      if s[0] != '\n' {
        assert Lines(s)[0] == [s[0]] + rest[0];
        assert forall k :: 1 <= k < |Lines(s)| ==> Lines(s)[k] == rest[k];
      } else {
        assert forall k :: 1 <= k < |Lines(s)| ==> Lines(s)[k] == rest[k - 1];
      }
    }
  }

  /** Joining lines that lack a character other than the newline does not bring it in. */
  lemma {:induction false} JoinLinesFreeOf(ls: seq<string>, c: char)
    requires c != '\n' && forall k :: 0 <= k < |ls| ==> c !in ls[k]
    ensures c !in JoinLines(ls)
  {
    if |ls| >= 2 {
      JoinLinesFreeOf(ls[1..], c);
    }
  }
}
