/**
 * Running several show commands in one interactive session and splitting the
 * transcript back into per-command outputs, as the health checks v2.2 and
 * v2.3 and the lab logger do: the session script with its echo markers, the
 * marker search, and the line filters that strip prompts, markers, terminal
 * settings and banners from each piece.
 *
 * The session itself (ssh with a forced terminal) is not modelled: the
 * transcript it produces is an input.
 */
module Demux {
  import opened Common
  import opened Text

  /** The three programs that use the technique; they differ in marker text, placeholder and cleaner. */
  datatype Dialect = V22 | V23 | Lab

  /** `===START_%d===` in the health checks, `===CMD_%d_START===` in the lab logger. */
  function StartMarker(d: Dialect, i: nat): string {
    MarkerHead(d, true) + NatToString(i) + MarkerTail(d, true)
  }

  /** `===END_%d===` in the health checks, `===CMD_%d_END===` in the lab logger. */
  function EndMarker(d: Dialect, i: nat): string {
    MarkerHead(d, false) + NatToString(i) + MarkerTail(d, false)
  }

  /** The marker text before the command number. */
  function MarkerHead(d: Dialect, start: bool): string {
    match d
    case Lab => "===CMD_"
    case _ => if start then "===START_" else "===END_"
  }

  /** The marker text after the command number. */
  function MarkerTail(d: Dialect, start: bool): string {
    match d
    case Lab => if start then "_START===" else "_END==="
    case _ => "==="
  }

  /** The script lines that make the device print a marker. */
  function EchoStart(d: Dialect, i: nat): string {
    "echo " + StartMarker(d, i)
  }

  function EchoEnd(d: Dialect, i: nat): string {
    "echo " + EndMarker(d, i)
  }

  lemma MarkersAreLines(d: Dialect, i: nat)
    ensures '\n' !in StartMarker(d, i) && '\n' !in EndMarker(d, i)
    ensures HasPrefix(EndMarker(d, i), "===")
    ensures d == Lab ==> HasPrefix(EndMarker(d, i), "===CMD_")
  {
    var n := NatToString(i);
    assert forall k :: 0 <= k < |n| ==> IsDigit(n[k]);
  }

  // ---------------------------------------------------------------- the script

  /** One block per command, numbered from `from`: the line echoing its start marker, the command, the line echoing its end marker. */
  function Blocks(open: nat -> string, close: nat -> string, cmds: seq<string>, from: nat): (r: seq<string>)
    ensures |r| == 3 * |cmds|
    decreases |cmds|
  {
    if cmds == [] then []
    else [open(from), cmds[0], close(from)] + Blocks(open, close, cmds[1..], from + 1)
  }

  /** Command `i` sits between its two echo lines. */
  lemma {:induction false} BlockAt(open: nat -> string, close: nat -> string, cmds: seq<string>, from: nat, i: nat)
    requires i < |cmds|
    ensures Blocks(open, close, cmds, from)[3 * i] == open(from + i)
    ensures Blocks(open, close, cmds, from)[3 * i + 1] == cmds[i]
    ensures Blocks(open, close, cmds, from)[3 * i + 2] == close(from + i)
    decreases i
  {
    if i > 0 {
      var rest := Blocks(open, close, cmds[1..], from + 1);
      BlockAt(open, close, cmds[1..], from + 1, i - 1);
      assert cmds[1..][i - 1] == cmds[i];
      assert from + 1 + (i - 1) == from + i;
      assert Blocks(open, close, cmds, from)[3 * i..] == rest[3 * (i - 1)..];
    }
  }

  /** The blocks keep the commands in the order given. */
  lemma BlocksLayout(open: nat -> string, close: nat -> string, cmds: seq<string>, from: nat)
    ensures forall i :: 0 <= i < |cmds| ==>
              Blocks(open, close, cmds, from)[3 * i] == open(from + i)
              && Blocks(open, close, cmds, from)[3 * i + 1] == cmds[i]
              && Blocks(open, close, cmds, from)[3 * i + 2] == close(from + i)
  {
    forall i | 0 <= i < |cmds|
      ensures Blocks(open, close, cmds, from)[3 * i] == open(from + i)
              && Blocks(open, close, cmds, from)[3 * i + 1] == cmds[i]
              && Blocks(open, close, cmds, from)[3 * i + 2] == close(from + i)
    {
      BlockAt(open, close, cmds, from, i);
    }
  }

  /** No line of the blocks holds a newline unless a command or an echo line does. */
  lemma {:induction false} BlocksAreLines(open: nat -> string, close: nat -> string, cmds: seq<string>, from: nat)
    requires forall i :: 0 <= i < |cmds| ==> '\n' !in cmds[i]
    requires forall n: nat :: '\n' !in open(n) && '\n' !in close(n)
    ensures forall k :: 0 <= k < |Blocks(open, close, cmds, from)| ==> '\n' !in Blocks(open, close, cmds, from)[k]
    decreases |cmds|
  {
    if cmds != [] {
      var r := Blocks(open, close, cmds, from);
      BlocksAreLines(open, close, cmds[1..], from + 1);
      assert forall k :: 3 <= k < |r| ==> r[k] == Blocks(open, close, cmds[1..], from + 1)[k - 3];
    }
  }

  /** The lines written to the session: terminal settings, one marked block per command, `exit`. */
  function ScriptLines(d: Dialect, cmds: seq<string>): (r: seq<string>)
    ensures |r| == 3 * |cmds| + 3
    ensures r[0] == "terminal length 0" && r[1] == "terminal width 512" && r[|r| - 1] == "exit"
    ensures forall i :: 0 <= i < |cmds| ==>
              r[3 * i + 2] == EchoStart(d, i)
              && r[3 * i + 3] == cmds[i]
              && r[3 * i + 4] == EchoEnd(d, i)
  {
    BlocksLayout((n: nat) => EchoStart(d, n), (n: nat) => EchoEnd(d, n), cmds, 0);
    ["terminal length 0", "terminal width 512"] + Blocks((n: nat) => EchoStart(d, n), (n: nat) => EchoEnd(d, n), cmds, 0) + ["exit"]
  }

  /** The text written to the session's standard input: every script line ends in a newline. */
  function Script(d: Dialect, cmds: seq<string>): string {
    JoinLines(ScriptLines(d, cmds)) + "\n"
  }

  /**
   * As long as no command holds a newline, the device reads the script back
   * as exactly its lines (the final newline leaves an empty last piece).
   */
  lemma ScriptSplits(d: Dialect, cmds: seq<string>)
    requires forall i :: 0 <= i < |cmds| ==> '\n' !in cmds[i]
    ensures Lines(Script(d, cmds)) == ScriptLines(d, cmds) + [""]
  {
    var ls := ScriptLines(d, cmds);
    JoinLinesSnoc(ls, "");
    assert JoinLines(ls) + "\n" + "" == Script(d, cmds);
    var open, close := (n: nat) => EchoStart(d, n), (n: nat) => EchoEnd(d, n);
    forall n: nat ensures '\n' !in open(n) && '\n' !in close(n) {
      MarkersAreLines(d, n);
    }
    BlocksAreLines(open, close, cmds, 0);
    var b := Blocks(open, close, cmds, 0);
    assert forall k :: 2 <= k < |ls| - 1 ==> ls[k] == b[k - 2];
    LinesOfJoinLines(ls + [""]);
  }

  // ---------------------------------------------------------------- finding the markers

  /** Where one command's markers fall in the transcript. */
  datatype Span =
    | NoStart                     // the start marker never appears
    | Unclosed(from: nat)         // the text after the first start marker holds no end marker
    | Closed(from: nat, to: nat)  // the first end marker after `from` begins at `to`

  lemma ShiftedOccurrences(text: string, sub: string, from: nat)
    requires from <= |text|
    ensures forall j :: 0 <= j ==> (OccursAt(text[from..], sub, j) <==> OccursAt(text, sub, from + j))
    ensures forall j :: from <= j ==> (OccursAt(text, sub, j) <==> OccursAt(text[from..], sub, j - from))
  {
    forall j | 0 <= j
      ensures OccursAt(text[from..], sub, j) <==> OccursAt(text, sub, from + j)
    {
      if from + j + |sub| <= |text| {
        assert text[from..][j..j + |sub|] == text[from + j..from + j + |sub|];
      }
    }
  }

  /** `strings.Index` for the start marker, then `strings.Index` for the end marker in the rest. */
  function Locate(text: string, startM: string, endM: string): (r: Span)
    ensures r.NoStart? <==> !Contains(text, startM)
    ensures !r.NoStart? ==>
              |startM| <= r.from <= |text|
              && OccursAt(text, startM, r.from - |startM|)
              && forall j :: 0 <= j < r.from - |startM| ==> !OccursAt(text, startM, j)
    ensures r.Unclosed? ==> !Contains(text[r.from..], endM)
    ensures r.Closed? ==>
              r.from <= r.to && OccursAt(text, endM, r.to)
              && forall j :: r.from <= j < r.to ==> !OccursAt(text, endM, j)
  {
    var a := IndexOf(text, startM);
    if a < 0 then NoStart
    else
      var from := a + |startM|;
      var b := IndexOf(text[from..], endM);
      if b < 0 then Unclosed(from)
      else
        ShiftedOccurrences(text, endM, from);
        Closed(from, from + b)
  }

  /** Given the first start marker at `a` and the first end marker after it, `Locate` finds exactly those. */
  lemma LocateFirst(text: string, startM: string, endM: string, a: nat, e: nat)
    requires OccursAt(text, startM, a) && forall j :: 0 <= j < a ==> !OccursAt(text, startM, j)
    requires a + |startM| <= e && OccursAt(text, endM, e)
    requires forall j :: a + |startM| <= j < e ==> !OccursAt(text, endM, j)
    ensures Locate(text, startM, endM) == Closed(a + |startM|, e)
  {
    var r := Locate(text, startM, endM);
    assert Contains(text, startM);
    var from := a + |startM|;
    assert r.from - |startM| >= a;
    assert r.from - |startM| <= a;
    ShiftedOccurrences(text, endM, from);
    assert OccursAt(text[from..], endM, e - from);
    assert r.Closed?;
    assert r.to >= e;
    assert r.to <= e;
  }

  /** Given the first start marker at `a` and no end marker after it, `Locate` reports the rest as unclosed. */
  lemma LocateUnclosed(text: string, startM: string, endM: string, a: nat)
    requires OccursAt(text, startM, a) && forall j :: 0 <= j < a ==> !OccursAt(text, startM, j)
    requires !Contains(text[a + |startM|..], endM)
    ensures Locate(text, startM, endM) == Unclosed(a + |startM|)
  {
    var r := Locate(text, startM, endM);
    assert Contains(text, startM);
    assert r.from - |startM| >= a;
    assert r.from - |startM| <= a;
    ShiftedOccurrences(text, endM, r.from);
    assert !r.Closed?;
  }

  /** The text between the markers never contains the end marker. */
  lemma BetweenHasNoEnd(text: string, startM: string, endM: string)
    ensures endM != [] ==>
              match Locate(text, startM, endM)
              case NoStart => true
              case Unclosed(from) => !Contains(text[from..], endM)
              case Closed(from, to) => !Contains(text[from..to], endM)
  {
    if endM != [] {
      BetweenHasNoEndCases(text, startM, endM);
    }
  }

  lemma BetweenHasNoEndCases(text: string, startM: string, endM: string)
    requires endM != []
    ensures match Locate(text, startM, endM)
            case NoStart => true
            case Unclosed(from) => !Contains(text[from..], endM)
            case Closed(from, to) => !Contains(text[from..to], endM)
  {
    match Locate(text, startM, endM)
    case NoStart =>
    case Unclosed(_) =>
    case Closed(from, to) =>
      ShiftedOccurrences(text[..to], endM, from);
      forall j | 0 <= j ensures !OccursAt(text[from..to], endM, j) {
        if from + j + |endM| <= to {
          assert text[..to][from + j..from + j + |endM|] == text[from + j..from + j + |endM|];
          assert !OccursAt(text, endM, from + j);
        }
      }
      assert text[..to][from..] == text[from..to];
  }

  /** The lab logger's `extractBetweenMarkers`. */
  function ExtractBetweenMarkers(text: string, startM: string, endM: string): (r: string)
    ensures !Contains(text, startM) ==> r == ""
    ensures endM != [] ==> !Contains(r, endM)
    ensures |r| <= |text|
  {
    BetweenHasNoEnd(text, startM, endM);
    match Locate(text, startM, endM)
    case NoStart => ""
    case Unclosed(from) => text[from..]
    case Closed(from, to) => text[from..to]
  }

  /** With both markers present, the extract is exactly the text between them. */
  lemma ExtractBetween(text: string, startM: string, endM: string, a: nat, e: nat)
    requires OccursAt(text, startM, a) && forall j :: 0 <= j < a ==> !OccursAt(text, startM, j)
    requires a + |startM| <= e && OccursAt(text, endM, e)
    requires forall j :: a + |startM| <= j < e ==> !OccursAt(text, endM, j)
    ensures ExtractBetweenMarkers(text, startM, endM) == text[a + |startM|..e]
  {
    LocateFirst(text, startM, endM, a, e);
  }

  /** With the end marker missing, the extract is everything after the start marker. */
  lemma ExtractUnclosed(text: string, startM: string, endM: string, a: nat)
    requires OccursAt(text, startM, a) && forall j :: 0 <= j < a ==> !OccursAt(text, startM, j)
    requires !Contains(text[a + |startM|..], endM)
    ensures ExtractBetweenMarkers(text, startM, endM) == text[a + |startM|..]
  {
    LocateUnclosed(text, startM, endM, a);
  }

  // ---------------------------------------------------------------- prompt patterns

  /** The length of the run of `[A-Za-z0-9_-]` characters at the start of `t`. */
  function WordRun(t: string): (n: nat)
    ensures n <= |t|
    ensures forall k :: 0 <= k < n ==> IsWordChar(t[k])
    ensures n == |t| || !IsWordChar(t[n])
  {
    if t == [] || !IsWordChar(t[0]) then 0 else 1 + WordRun(t[1..])
  }

  predicate PromptChar(c: char) {
    c == '#' || c == '>'
  }

  /** `^[A-Za-z0-9_-]+[#>]`: a host name followed by a prompt character. */
  predicate PromptPrefix(t: string) {
    var n := WordRun(t);
    1 <= n < |t| && PromptChar(t[n])
  }

  /** `^[A-Za-z0-9_-]+[#>]$`: a prompt and nothing after it. */
  predicate BarePrompt(t: string) {
    PromptPrefix(t) && |t| == WordRun(t) + 1
  }

  /** `^[A-Za-z0-9_-]+[#>]\s*$`: a prompt followed by nothing but regular-expression white space. */
  predicate LabPrompt(t: string) {
    PromptPrefix(t) && forall k :: WordRun(t) < k < |t| ==> IsRegexSpace(t[k])
  }

  /** What the regular expression means: some non-empty run of word characters, then a prompt character at `n`. */
  ghost predicate PromptEndsAt(t: string, n: nat) {
    1 <= n < |t| && (forall k :: 0 <= k < n ==> IsWordChar(t[k])) && PromptChar(t[n])
  }

  /** The scanners agree with the patterns' meaning, whichever word run the matcher would try. */
  lemma PromptMeaning(t: string)
    ensures PromptPrefix(t) <==> exists n: nat :: PromptEndsAt(t, n)
    ensures BarePrompt(t) <==> |t| >= 1 && PromptEndsAt(t, |t| - 1)
    ensures LabPrompt(t) <==> exists n: nat :: PromptEndsAt(t, n) && forall k :: n < k < |t| ==> IsRegexSpace(t[k])
  {
    var m := WordRun(t);
    forall n | PromptEndsAt(t, n) ensures n == m {
      assert n >= m;
      assert n <= m;
    }
    if PromptPrefix(t) {
      assert PromptEndsAt(t, m);
    }
  }

  /** At `p`, one or more digits followed by `c`: the position just after `c`. */
  function DigitsThen(t: string, p: nat, c: char): (r: Option<nat>)
    ensures r.Some? ==> p + 2 <= r.value <= |t| && t[r.value - 1] == c
  {
    if p > |t| then None
    else
      var d := DigitRun(t[p..]);
      if d == 0 || p + d >= |t| || t[p + d] != c then None else Some(p + d + 1)
  }

  /**
   * The length of a leading `RP/\d+/(RSP)?\d+/CPU\d+:` route-processor
   * prefix. Each digit run is followed by a non-digit, so the match, when
   * there is one, is unique.
   */
  function RpPrefix(t: string): (r: Option<nat>)
    ensures r.Some? ==> 12 <= r.value <= |t| && HasPrefix(t, "RP/") && t[r.value - 1] == ':'
  {
    if !HasPrefix(t, "RP/") then None
    else
      match DigitsThen(t, 3, '/')
      case None => None
      case Some(q) =>
        var c := if HasPrefix(t[q..], "RSP") then q + 3 else q;
        match DigitsThen(t, c, '/')
        case None => None
        case Some(e) => if HasPrefix(t[e..], "CPU") then DigitsThen(t, e + 3, ':') else None
  }

  /** Host-name characters at `p` followed by `#`. */
  predicate HashPromptAt(t: string, p: nat)
    requires p <= |t|
  {
    var n := WordRun(t[p..]);
    1 <= n && p + n < |t| && t[p + n] == '#'
  }

  /** `^(RP/\d+/(RSP)?\d+/CPU\d+:)?[A-Za-z0-9_-]+#`: an IOS-XR prompt, with or without the route-processor prefix. */
  predicate XrPrompt(t: string) {
    HashPromptAt(t, 0) || (RpPrefix(t).Some? && HashPromptAt(t, RpPrefix(t).value))
  }

  /** A word run stops at the first character that is not a word character. */
  lemma {:induction false} WordRunOf(w: string, x: string)
    requires (forall k :: 0 <= k < |w| ==> IsWordChar(w[k])) && (x == [] || !IsWordChar(x[0]))
    ensures WordRun(w + x) == |w|
    decreases |w|
  {
    if w != [] {
      assert (w + x)[1..] == w[1..] + x;
      WordRunOf(w[1..], x);
    }
  }

  /** A host name followed by `#` is an IOS-XR prompt. */
  lemma XrPromptPlain(host: string, rest: string)
    requires host != [] && forall k :: 0 <= k < |host| ==> IsWordChar(host[k])
    ensures XrPrompt(host + "#" + rest)
  {
    assert host + "#" + rest == host + ("#" + rest);
    WordRunOf(host, "#" + rest);
  }

  /** Without a `#` there is no IOS-XR prompt, whatever the prefix. */
  lemma XrPromptNeedsHash(t: string)
    requires '#' !in t
    ensures !XrPrompt(t)
  {
  }

  // ---------------------------------------------------------------- v2.2 and v2.3 cleaners

  /** v2.2 `cleanOutput`: the lines that survive, judged on their trimmed text. */
  predicate KeepV22(line: string) {
    var t := TrimSpace(line);
    !(t == "" || HasPrefix(t, "terminal ") || Contains(t, "===") || Contains(t, "Pseudo-terminal") || BarePrompt(t))
  }

  /** The IOS.sh notices v2.3 drops. */
  const SHELL_NOTICES: seq<string> := [
    "IOS.sh", "shell is currently disabled", "term shell", "shell processing full", "man command",
    "man IOS.sh", "The command you have entered", "You can enable", "You can also enable",
    "For more information", "However, the shell", "There is additional information"]

  /** v2.3 `cleanOutput`: the v2.2 rules, the shell notices, and prompts echoing a `show` command. */
  predicate KeepV23(line: string) {
    var t := TrimSpace(line);
    KeepV22(line) && !AnyContains(t, SHELL_NOTICES) && !(PromptPrefix(t) && Contains(t, "show "))
  }

  /** The surviving lines are a filtered subsequence of the input's lines; none of them is blank. */
  lemma KeptLines(s: string, keep: string -> bool, kept: seq<string>)
    requires kept == Filter(Lines(s), keep)
    requires forall l :: keep(l) ==> TrimSpace(l) != ""
    ensures forall i :: 0 <= i < |kept| ==> '\n' !in kept[i] && !Blank(kept[i])
    ensures kept == [] <==> forall i :: 0 <= i < |Lines(s)| ==> !keep(Lines(s)[i])
  {
    forall i | 0 <= i < |kept| ensures '\n' !in kept[i] && !Blank(kept[i]) {
      TrimSpaceEmptyIff(kept[i]);
    }
    if kept == [] {
      assert forall i :: 0 <= i < |Lines(s)| && keep(Lines(s)[i]) ==> Lines(s)[i] in kept;
    } else {
      assert kept[0] in Lines(s);
    }
  }

  /** Keeps the lines `keep` accepts, joins them and trims the result: never blank at either end, and empty only when nothing survives. */
  function CleanLines(s: string, keep: string -> bool): (r: string)
    requires forall l :: keep(l) ==> TrimSpace(l) != ""
    ensures r == [] || (!IsSpace(r[0]) && !IsSpace(r[|r| - 1]))
    ensures r == "" <==> forall i :: 0 <= i < |Lines(s)| ==> !keep(Lines(s)[i])
  {
    var kept := Filter(Lines(s), keep);
    TrimmedJoinOfKept(s, keep, kept);
    TrimSpace(JoinLines(kept))
  }

  lemma TrimmedJoinOfKept(s: string, keep: string -> bool, kept: seq<string>)
    requires kept == Filter(Lines(s), keep)
    requires forall l :: keep(l) ==> TrimSpace(l) != ""
    ensures var r := TrimSpace(JoinLines(kept));
            (r == [] || (!IsSpace(r[0]) && !IsSpace(r[|r| - 1])))
            && (r == "" <==> forall i :: 0 <= i < |Lines(s)| ==> !keep(Lines(s)[i]))
  {
    KeptLines(s, keep, kept);
    TrimSpaceShape(JoinLines(kept));
    TrimJoinEmpty(kept);
    if kept != [] {
      assert !Blank(kept[0]);
    }
  }

  /** No line `keep` accepts holds `w` once trimmed. */
  ghost predicate FreeOf(keep: string -> bool, w: string) {
    forall l :: keep(l) ==> !Contains(TrimSpace(l), w)
  }

  /** A word fit to be searched for line by line: not empty, no newline, no space at either end. */
  predicate LineWord(w: string) {
    w != [] && '\n' !in w && !IsSpace(w[0]) && !IsSpace(w[|w| - 1])
  }

  /** A word no surviving line holds (once trimmed) is absent from the cleaned text. */
  lemma FreeOfKept(s: string, keep: string -> bool, w: string)
    requires forall l :: keep(l) ==> TrimSpace(l) != ""
    requires LineWord(w) && FreeOf(keep, w)
    ensures !Contains(CleanLines(s, keep), w)
  {
    var kept := Filter(Lines(s), keep);
    assert forall i :: 0 <= i < |kept| ==> kept[i] in Lines(s) && keep(kept[i]);
    TrimmedJoinFree(kept, w);
  }

  /** v2.2 `cleanOutput`. */
  function CleanV22(s: string): string {
    CleanLines(s, KeepV22)
  }

  /** v2.3 `cleanOutput`. */
  function CleanV23(s: string): string {
    CleanLines(s, KeepV23)
  }

  /** v2.2 output never holds a marker fragment or the pseudo-terminal warning. */
  lemma CleanV22Free(s: string)
    ensures !Contains(CleanV22(s), "===") && !Contains(CleanV22(s), "Pseudo-terminal")
  {
    FreeOfKept(s, KeepV22, "===");
    FreeOfKept(s, KeepV22, "Pseudo-terminal");
  }

  /** v2.3 output additionally never holds the IOS.sh notice. */
  lemma CleanV23Free(s: string)
    ensures !Contains(CleanV23(s), "===") && !Contains(CleanV23(s), "Pseudo-terminal")
    ensures !Contains(CleanV23(s), "IOS.sh")
  {
    FreeOfKept(s, KeepV23, "===");
    FreeOfKept(s, KeepV23, "Pseudo-terminal");
    assert FreeOf(KeepV23, "IOS.sh") by {
      forall l | KeepV23(l) ensures !Contains(TrimSpace(l), "IOS.sh") {
        assert !Contains(TrimSpace(l), SHELL_NOTICES[0]);
      }
    }
    FreeOfKept(s, KeepV23, "IOS.sh");
  }

  /** Every line v2.3 keeps, v2.2 keeps too. */
  lemma V23KeepsLess(line: string)
    ensures KeepV23(line) ==> KeepV22(line)
  {
  }

  // ---------------------------------------------------------------- the IOS-XR cleaner

  const LICENSE_PHRASES: seq<string> := [
    "End User License", "License Agreement", "cisco.com/go/terms", "demonstration and evaluation",
    "non-production environment", "Downloading, installing", "binding yourself", "unwilling to license",
    "return the Software", "Please login with", "configured user/password"]

  /** v2.3 `cleanIOSXRCommandOutput`: a trimmed line that is markers, prompts, settings, ssh chatter or the XRv licence banner. */
  predicate NoiseXr(t: string) {
    Contains(t, "__MARKER_START_") || Contains(t, "__MARKER_END_") || HasPrefix(t, "echo __MARKER")
    || XrPrompt(t)
    || HasPrefix(t, "terminal length") || HasPrefix(t, "terminal width")
    || (Contains(t, "Warning:") && Contains(t, "known hosts"))
    || Contains(t, "Pseudo-terminal")
    || (Contains(t, "Connection to") && Contains(t, "closed"))
    || (Contains(t, "IMPORTANT:") && Contains(t, "READ CAREFULLY"))
    || Contains(t, "Demo Version") || (Contains(t, "XRv") && Contains(t, "Software"))
    || AnyContains(t, LICENSE_PHRASES)
  }

  predicate NotNoiseXr(line: string) {
    !NoiseXr(TrimSpace(line))
  }

  /** A line that may open the output: kept and not blank. */
  predicate Opens(keep: string -> bool, line: string) {
    keep(line) && TrimSpace(line) != ""
  }

  /** No line of `lines` opens the output. */
  predicate NoneOpens(lines: seq<string>, keep: string -> bool) {
    forall i :: 0 <= i < |lines| ==> !Opens(keep, lines[i])
  }

  /** The source loop: blank lines are skipped only while nothing has been kept. */
  function KeptFrom(lines: seq<string>, keep: string -> bool, started: bool): (r: seq<string>)
    ensures forall i :: 0 <= i < |r| ==> keep(r[i]) && r[i] in lines
    ensures !started && r != [] ==> Opens(keep, r[0])
  {
    if lines == [] then []
    else if !started && TrimSpace(lines[0]) == "" then KeptFrom(lines[1..], keep, started)
    else if !keep(lines[0]) then KeptFrom(lines[1..], keep, started)
    else [lines[0]] + KeptFrom(lines[1..], keep, true)
  }

  /** Once a line has been kept, the loop is a plain filter. */
  lemma {:induction false} KeptFromStarted(lines: seq<string>, keep: string -> bool)
    ensures KeptFrom(lines, keep, true) == Filter(lines, keep)
  {
    if lines != [] {
      KeptFromStarted(lines[1..], keep);
    }
  }

  /** The loop keeps every accepted line from the first opening line `f` onward, and nothing before it. */
  lemma {:induction false} KeptFromFirst(lines: seq<string>, keep: string -> bool, f: nat)
    requires f < |lines| && Opens(keep, lines[f])
    requires forall j :: 0 <= j < f ==> !Opens(keep, lines[j])
    ensures KeptFrom(lines, keep, false) == Filter(lines[f..], keep)
    decreases f
  {
    if f == 0 {
      KeptFromStarted(lines[1..], keep);
      assert lines[0..] == lines;
    } else {
      assert forall j :: 0 <= j < f - 1 ==> lines[1..][j] == lines[j + 1];
      KeptFromFirst(lines[1..], keep, f - 1);
      assert lines[1..][f - 1..] == lines[f..];
    }
  }

  /** Without an opening line nothing is kept. */
  lemma {:induction false} KeptFromNone(lines: seq<string>, keep: string -> bool)
    requires forall j :: 0 <= j < |lines| ==> !Opens(keep, lines[j])
    ensures KeptFrom(lines, keep, false) == []
  {
    if lines != [] {
      assert forall j :: 0 <= j < |lines| - 1 ==> lines[1..][j] == lines[j + 1];
      KeptFromNone(lines[1..], keep);
    }
  }

  /** Something survives exactly when some line opens the output, and what survives first is not blank. */
  lemma KeptFromEmpty(lines: seq<string>, keep: string -> bool)
    ensures KeptFrom(lines, keep, false) == [] <==> NoneOpens(lines, keep)
    ensures KeptFrom(lines, keep, false) != [] ==> !Blank(KeptFrom(lines, keep, false)[0])
  {
    var kept := KeptFrom(lines, keep, false);
    if exists i :: 0 <= i < |lines| && Opens(keep, lines[i]) {
      var f := FirstOpening(lines, keep);
      KeptFromFirst(lines, keep, f);
      assert lines[f..][0] == lines[f];
      assert lines[f] in kept;
    } else {
      KeptFromNone(lines, keep);
    }
    if kept != [] {
      TrimSpaceEmptyIff(kept[0]);
    }
  }

  /** The kept lines, joined and trimmed: never blank at either end, and empty exactly when no line opens the output. */
  lemma KeptFromTrimmed(lines: seq<string>, keep: string -> bool)
    ensures var r := TrimSpace(JoinLines(KeptFrom(lines, keep, false)));
            (r == [] || (!IsSpace(r[0]) && !IsSpace(r[|r| - 1])))
            && (r == "" <==> NoneOpens(lines, keep))
  {
    var kept := KeptFrom(lines, keep, false);
    TrimSpaceShape(JoinLines(kept));
    TrimJoinEmpty(kept);
    KeptFromEmpty(lines, keep);
    if kept != [] {
      assert !Blank(kept[0]);
    }
  }

  /** The first opening line, when there is one. */
  lemma FirstOpening(lines: seq<string>, keep: string -> bool) returns (f: nat)
    requires exists i :: 0 <= i < |lines| && Opens(keep, lines[i])
    ensures f < |lines| && Opens(keep, lines[f])
    ensures forall j :: 0 <= j < f ==> !Opens(keep, lines[j])
  {
    f := 0;
    while !Opens(keep, lines[f])
      invariant f < |lines|
      invariant forall j :: 0 <= j < f ==> !Opens(keep, lines[j])
      invariant exists i :: f <= i < |lines| && Opens(keep, lines[i])
      decreases |lines| - f
    {
      f := f + 1;
    }
  }

  /** A word no kept line holds (once trimmed) is absent from the kept lines, joined and trimmed. */
  lemma KeptFromFree(lines: seq<string>, keep: string -> bool, w: string)
    requires forall i :: 0 <= i < |lines| ==> '\n' !in lines[i]
    requires LineWord(w) && FreeOf(keep, w)
    ensures !Contains(TrimSpace(JoinLines(KeptFrom(lines, keep, false))), w)
  {
    var kept := KeptFrom(lines, keep, false);
    assert forall i :: 0 <= i < |kept| ==> kept[i] in lines && keep(kept[i]);
    TrimmedJoinFree(kept, w);
  }

  /** v2.3 `cleanIOSXRCommandOutput`. */
  function CleanIosXr(output: string): (r: string)
    ensures r == [] || (!IsSpace(r[0]) && !IsSpace(r[|r| - 1]))
    ensures r == "" <==> NoneOpens(Lines(output), NotNoiseXr)
  {
    KeptFromTrimmed(Lines(output), NotNoiseXr);
    TrimSpace(JoinLines(KeptFrom(Lines(output), NotNoiseXr, false)))
  }

  /** A line that is not noise holds no marker and no pseudo-terminal warning once trimmed. */
  lemma NotNoiseXrFree(line: string)
    requires NotNoiseXr(line)
    ensures !Contains(TrimSpace(line), "__MARKER_START_") && !Contains(TrimSpace(line), "__MARKER_END_")
    ensures !Contains(TrimSpace(line), "Pseudo-terminal")
  {
  }

  /** The IOS-XR output never holds a marker or the pseudo-terminal warning. */
  lemma CleanIosXrFree(output: string)
    ensures !Contains(CleanIosXr(output), "__MARKER_START_") && !Contains(CleanIosXr(output), "__MARKER_END_")
    ensures !Contains(CleanIosXr(output), "Pseudo-terminal")
  {
    forall l | NotNoiseXr(l)
      ensures !Contains(TrimSpace(l), "__MARKER_START_") && !Contains(TrimSpace(l), "__MARKER_END_")
      ensures !Contains(TrimSpace(l), "Pseudo-terminal")
    {
      NotNoiseXrFree(l);
    }
    assert FreeOf(NotNoiseXr, "__MARKER_START_") && FreeOf(NotNoiseXr, "__MARKER_END_");
    assert FreeOf(NotNoiseXr, "Pseudo-terminal");
    KeptFromFree(Lines(output), NotNoiseXr, "__MARKER_START_");
    KeptFromFree(Lines(output), NotNoiseXr, "__MARKER_END_");
    KeptFromFree(Lines(output), NotNoiseXr, "Pseudo-terminal");
  }

  // ---------------------------------------------------------------- the lab cleaner

  /** The lab logger's `cleanCommandOutput`: the lines that survive for `command`. */
  predicate KeepLab(line: string, command: string) {
    var t := TrimSpace(line);
    !(t == ""
      || (Contains(t, command) && |t| < |command| + 20)
      || HasPrefix(t, "echo ===CMD_")
      || (Contains(t, "===CMD_") && Contains(t, "==="))
      || HasPrefix(t, "terminal length") || HasPrefix(t, "terminal width")
      || LabPrompt(t)
      || (Contains(t, "Warning:") && Contains(t, "known hosts"))
      || Contains(t, "Pseudo-terminal")
      || (Contains(t, "Connection to") && Contains(t, "closed")))
  }

  /** A kept lab line is not blank and holds no lab marker. */
  lemma KeepLabClean(line: string, command: string)
    requires KeepLab(line, command)
    ensures !Blank(line) && !Contains(line, "===CMD_") && !LabPrompt(TrimSpace(line))
  {
    TrimSpaceEmptyIff(line);
    var t := TrimSpace(line);
    if Contains(t, "===CMD_") {
      ContainsPrefixOf(t, "===CMD_", "===");
    }
    TrimmedContains(line, "===CMD_");
  }

  /** The lab logger's `cleanCommandOutput`; it joins the survivors without trimming. */
  function CleanLab(output: string, command: string): (r: string)
    ensures r == "" <==> forall i :: 0 <= i < |Lines(output)| ==> !KeepLab(Lines(output)[i], command)
    ensures r != "" ==> forall i :: 0 <= i < |Lines(r)| ==> KeepLab(Lines(r)[i], command)
    ensures forall i :: 0 <= i < |Lines(output)| && KeepLab(Lines(output)[i], command) ==> Lines(output)[i] in Lines(r)
  {
    var keep := l => KeepLab(l, command);
    var kept := Filter(Lines(output), keep);
    KeptLines(output, keep, kept);
    JoinOfKept(kept);
    JoinLines(kept)
  }

  /** Joining non-blank newline-free lines: empty only when there are none, and split back into them. */
  lemma JoinOfKept(kept: seq<string>)
    requires forall i :: 0 <= i < |kept| ==> '\n' !in kept[i] && !Blank(kept[i])
    ensures JoinLines(kept) == "" <==> kept == []
    ensures kept != [] ==> Lines(JoinLines(kept)) == kept
  {
    if kept != [] {
      LinesOfJoinLines(kept);
      JoinLinesBlank(kept);
    }
  }

  /** No line of the lab output is blank, a marker or a prompt. */
  lemma CleanLabLines(output: string, command: string)
    ensures var r := CleanLab(output, command);
            forall i :: 0 <= i < |Lines(r)| && r != "" ==>
              !Blank(Lines(r)[i]) && !Contains(Lines(r)[i], "===CMD_") && !LabPrompt(TrimSpace(Lines(r)[i]))
    ensures !Contains(CleanLab(output, command), "===CMD_")
  {
    var r := CleanLab(output, command);
    if r != "" {
      forall i | 0 <= i < |Lines(r)|
        ensures !Blank(Lines(r)[i]) && !Contains(Lines(r)[i], "===CMD_") && !LabPrompt(TrimSpace(Lines(r)[i]))
      {
        KeepLabClean(Lines(r)[i], command);
      }
      if Contains(r, "===CMD_") {
        ContainsInSomeLine(r, "===CMD_");
      }
    } else {
      MissingChar(r, "===CMD_", '=');
    }
  }

  // ---------------------------------------------------------------- per-command output

  /** What v2.2 and v2.3 report for a command whose start marker is missing; the lab reports nothing. */
  function Placeholder(d: Dialect): string {
    match d
    case V22 => "(no output captured)"
    case V23 => "(no output)"
    case Lab => ""
  }

  /** The cleaner each program applies to the text between a command's markers. */
  function Clean(d: Dialect, text: string, command: string): string {
    match d
    case V22 => CleanV22(text)
    case V23 => CleanV23(text)
    case Lab => CleanLab(text, command)
  }

  /**
   * The output recorded for the `i`-th command. v2.2 and v2.3 trim an
   * unclosed remainder without cleaning it; the lab logger cleans whatever
   * `extractBetweenMarkers` returns.
   */
  function CommandOutput(d: Dialect, full: string, command: string, i: nat): (r: string)
    ensures !Contains(full, StartMarker(d, i)) ==> r == Placeholder(d)
    ensures !Contains(r, EndMarker(d, i))
  {
    var startM := StartMarker(d, i);
    var endM := EndMarker(d, i);
    MarkersAreLines(d, i);
    BetweenHasNoEnd(full, startM, endM);
    if d == Lab then
      CleanHasNoEnd(d, ExtractBetweenMarkers(full, startM, endM), command, i);
      Clean(d, ExtractBetweenMarkers(full, startM, endM), command)
    else
      match Locate(full, startM, endM)
      case NoStart =>
        MissingChar(Placeholder(d), endM, '=');
        Placeholder(d)
      case Unclosed(from) =>
        TrimKeepsAbsent(full[from..], endM);
        TrimSpace(full[from..])
      case Closed(from, to) =>
        CleanHasNoEnd(d, full[from..to], command, i);
        Clean(d, full[from..to], command)
  }

  /** No cleaner lets a command's end marker through. */
  lemma CleanHasNoEnd(d: Dialect, text: string, command: string, i: nat)
    ensures !Contains(Clean(d, text, command), EndMarker(d, i))
  {
    MarkersAreLines(d, i);
    match d
    case V22 =>
      CleanV22Free(text);
      ContainsEndViaPrefix(CleanV22(text), EndMarker(d, i), "===");
    case V23 =>
      CleanV23Free(text);
      ContainsEndViaPrefix(CleanV23(text), EndMarker(d, i), "===");
    case Lab =>
      CleanLabLines(text, command);
      ContainsEndViaPrefix(CleanLab(text, command), EndMarker(d, i), "===CMD_");
  }

  lemma TrimKeepsAbsent(s: string, w: string)
    requires !Contains(s, w)
    ensures !Contains(TrimSpace(s), w)
  {
    var r := TrimSpace(s);
    TrimSpaceShape(s);
    if Contains(r, w) {
      ContainsSlice(s, TrimOffset(s), TrimOffset(s) + |r|, w);
    }
  }

  lemma ContainsEndViaPrefix(r: string, endM: string, p: string)
    requires HasPrefix(endM, p) && !Contains(r, p)
    ensures !Contains(r, endM)
  {
    if Contains(r, endM) {
      ContainsPrefixOf(r, endM, p);
    }
  }

  /** With both markers present, the output is the cleaned text strictly between them. */
  lemma CommandOutputBetween(d: Dialect, full: string, command: string, i: nat, a: nat, e: nat)
    requires OccursAt(full, StartMarker(d, i), a) && forall j :: 0 <= j < a ==> !OccursAt(full, StartMarker(d, i), j)
    requires a + |StartMarker(d, i)| <= e && OccursAt(full, EndMarker(d, i), e)
    requires forall j :: a + |StartMarker(d, i)| <= j < e ==> !OccursAt(full, EndMarker(d, i), j)
    ensures CommandOutput(d, full, command, i) == Clean(d, full[a + |StartMarker(d, i)|..e], command)
  {
    LocateFirst(full, StartMarker(d, i), EndMarker(d, i), a, e);
    ExtractBetween(full, StartMarker(d, i), EndMarker(d, i), a, e);
  }

  /** With the end marker missing, v2.2 and v2.3 keep the trimmed remainder, uncleaned. */
  lemma CommandOutputUnclosed(d: Dialect, full: string, command: string, i: nat, a: nat)
    requires d != Lab
    requires OccursAt(full, StartMarker(d, i), a) && forall j :: 0 <= j < a ==> !OccursAt(full, StartMarker(d, i), j)
    requires !Contains(full[a + |StartMarker(d, i)|..], EndMarker(d, i))
    ensures CommandOutput(d, full, command, i) == TrimSpace(full[a + |StartMarker(d, i)|..])
  {
    LocateUnclosed(full, StartMarker(d, i), EndMarker(d, i), a);
  }

  /** A table filled in order, one write per key. */
  function Tabulate(keys: seq<string>, value: (string, nat) -> string): (r: map<string, string>)
    ensures forall c :: c in r <==> c in keys
    decreases |keys|
  {
    if keys == [] then map[]
    else
      var n := |keys| - 1;
      assert keys == keys[..n] + [keys[n]];
      Tabulate(keys[..n], value)[keys[n] := value(keys[n], n)]
  }

  /** A key written twice keeps the value of its last write. */
  lemma {:induction false} TabulateLast(keys: seq<string>, value: (string, nat) -> string, i: nat)
    requires i < |keys| && forall j :: i < j < |keys| ==> keys[j] != keys[i]
    ensures keys[i] in Tabulate(keys, value) && Tabulate(keys, value)[keys[i]] == value(keys[i], i)
    decreases |keys|
  {
    var n := |keys| - 1;
    if i < n {
      assert keys[n] != keys[i];
      assert keys[..n][i] == keys[i];
      assert forall j :: i < j < n ==> keys[..n][j] == keys[j];
      TabulateLast(keys[..n], value, i);
    }
  }

  /**
   * The results map: one entry per distinct command; a command listed twice
   * gets the output of its last occurrence, since later writes overwrite.
   */
  function Results(d: Dialect, full: string, cmds: seq<string>): (r: map<string, string>)
    ensures forall c :: c in r <==> c in cmds
  {
    Tabulate(cmds, (c: string, n: nat) => CommandOutput(d, full, c, n))
  }

  /** Each command's entry is the output between its own markers, numbered by its last position. */
  lemma ResultsLast(d: Dialect, full: string, cmds: seq<string>, i: nat)
    requires i < |cmds| && forall j :: i < j < |cmds| ==> cmds[j] != cmds[i]
    ensures Results(d, full, cmds)[cmds[i]] == CommandOutput(d, full, cmds[i], i)
  {
    TabulateLast(cmds, (c: string, n: nat) => CommandOutput(d, full, c, n), i);
  }
}
