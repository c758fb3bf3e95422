/**
 * The parts of Go's `strings` and `strconv` packages that the device-output
 * parsers rely on, written over `string` (a sequence of characters).
 */
module Text {
  import opened Common

  // ---------------------------------------------------------------- characters

  /** Go's `unicode.IsSpace`: the characters `strings.TrimSpace` and `strings.Fields` treat as blanks. */
  predicate IsSpace(c: char) {
    c == ' ' || c == '\t' || c == '\n' || c == '\U{B}' || c == '\U{C}' || c == '\r'
    || c == '\U{85}' || c == '\U{A0}' || c == '\U{1680}'
    || ('\U{2000}' <= c <= '\U{200A}')
    || c == '\U{2028}' || c == '\U{2029}' || c == '\U{202F}' || c == '\U{205F}' || c == '\U{3000}'
  }

  /** The regular-expression class `\s` (RE2 / Perl): tab, newline, form feed, carriage return, space. */
  predicate IsRegexSpace(c: char) {
    c == ' ' || c == '\t' || c == '\n' || c == '\U{C}' || c == '\r'
  }

  predicate IsDigit(c: char) { '0' <= c <= '9' }

  /** The regular-expression class `[A-Za-z0-9_-]` used by the prompt patterns. */
  predicate IsWordChar(c: char) {
    ('A' <= c <= 'Z') || ('a' <= c <= 'z') || IsDigit(c) || c == '_' || c == '-'
  }

  predicate AllSpace(s: string) {
    forall i :: 0 <= i < |s| ==> IsSpace(s[i])
  }

  predicate AllDigits(s: string) {
    forall i :: 0 <= i < |s| ==> IsDigit(s[i])
  }

  /** A line counts as blank when `strings.TrimSpace` leaves nothing of it. */
  predicate Blank(s: string) {
    AllSpace(s)
  }

  // ---------------------------------------------------------------- searching

  predicate HasPrefix(s: string, p: string) {
    |p| <= |s| && s[..|p|] == p
  }

  predicate HasSuffix(s: string, p: string) {
    |p| <= |s| && s[|s| - |p|..] == p
  }

  /** `sub` occurs in `s` starting at index `i`. */
  predicate OccursAt(s: string, sub: string, i: int) {
    0 <= i && i + |sub| <= |s| && s[i..i + |sub|] == sub
  }

  /** Go's `strings.Contains`. */
  predicate Contains(s: string, sub: string) {
    exists i :: 0 <= i <= |s| && OccursAt(s, sub, i)
  }

  function FindFrom(s: string, sub: string, i: nat): (r: int)
    requires i <= |s|
    decreases |s| - i
    ensures r == -1 || (i <= r && OccursAt(s, sub, r))
    ensures r == -1 ==> forall j :: i <= j ==> !OccursAt(s, sub, j)
    ensures r >= 0 ==> forall j :: i <= j < r ==> !OccursAt(s, sub, j)
  {
    if OccursAt(s, sub, i) then i
    else if i == |s| then -1
    else FindFrom(s, sub, i + 1)
  }

  /** Go's `strings.Index`: the first position of `sub` in `s`, or -1. */
  function IndexOf(s: string, sub: string): (r: int)
    ensures r == -1 <==> !Contains(s, sub)
    ensures r >= 0 ==> OccursAt(s, sub, r)
    ensures r >= 0 ==> forall j :: 0 <= j < r ==> !OccursAt(s, sub, j)
  {
    FindFrom(s, sub, 0)
  }

  lemma PrefixContained(s: string, sub: string)
    requires HasPrefix(s, sub)
    ensures Contains(s, sub)
  {
    assert OccursAt(s, sub, 0);
  }

  /** Whatever contains a string contains each of its prefixes. */
  lemma ContainsPrefixOf(s: string, sub: string, p: string)
    requires Contains(s, sub) && HasPrefix(sub, p)
    ensures Contains(s, p)
  {
    var i :| 0 <= i <= |s| && OccursAt(s, sub, i);
    assert s[i..i + |p|] == s[i..i + |sub|][..|p|];
    assert OccursAt(s, p, i);
  }

  /** An occurrence inside a slice is an occurrence in the whole string. */
  lemma ContainsSlice(s: string, a: nat, b: nat, sub: string)
    requires a <= b <= |s|
    requires Contains(s[a..b], sub)
    ensures Contains(s, sub)
  {
    var t := s[a..b];
    var i :| 0 <= i <= |t| && OccursAt(t, sub, i);
    assert i + |sub| <= |t|;
    var j := a + i;
    forall k | 0 <= k < |sub| ensures s[j..j + |sub|][k] == sub[k] {
      assert sub[k] == t[i..i + |sub|][k] == t[i + k] == s[j + k];
    }
    assert s[j..j + |sub|] == sub;
    assert OccursAt(s, sub, a + i);
  }

  /** Go's `strings.Contains(s, p1) || strings.Contains(s, p2) || ...`. */
  predicate AnyContains(s: string, patterns: seq<string>) {
    exists i :: 0 <= i < |patterns| && Contains(s, patterns[i])
  }

  /** A string lacking one of the characters of `sub` does not contain `sub`. */
  lemma MissingChar(s: string, sub: string, c: char)
    requires c in sub && c !in s
    ensures !Contains(s, sub)
  {
    var k :| 0 <= k < |sub| && sub[k] == c;
    forall i | 0 <= i <= |s| ensures !OccursAt(s, sub, i) {
      if i + |sub| <= |s| {
        assert s[i..i + |sub|][k] == s[i + k] != c;
      }
    }
  }

  // ---------------------------------------------------------------- trimming

  function TrimLeft(s: string): (r: string)
    ensures |r| <= |s|
  {
    if s == [] || !IsSpace(s[0]) then s else TrimLeft(s[1..])
  }

  /** `TrimLeft` removes a run of white space and stops at the first other character. */
  lemma {:induction false} TrimLeftShape(s: string)
    ensures TrimLeft(s) == s[|s| - |TrimLeft(s)|..]
    ensures AllSpace(s[..|s| - |TrimLeft(s)|])
    ensures TrimLeft(s) == [] || !IsSpace(TrimLeft(s)[0])
  {
    if s != [] && IsSpace(s[0]) {
      TrimLeftShape(s[1..]);
      var n := |s| - |TrimLeft(s)|;
      assert s[1..][..n - 1] == s[1..n];
      forall i | 0 <= i < n ensures IsSpace(s[..n][i]) {
        if i > 0 { assert s[..n][i] == s[1..][..n - 1][i - 1]; }
      }
    }
  }

  function TrimRight(s: string): (r: string)
    ensures |r| <= |s|
  {
    if s == [] || !IsSpace(s[|s| - 1]) then s else TrimRight(s[..|s| - 1])
  }

  /** `TrimRight` removes a run of trailing white space and stops at the last other character. */
  lemma {:induction false} TrimRightShape(s: string)
    ensures TrimRight(s) == s[..|TrimRight(s)|]
    ensures AllSpace(s[|TrimRight(s)|..])
    ensures TrimRight(s) == [] || !IsSpace(TrimRight(s)[|TrimRight(s)| - 1])
  {
    if s != [] && IsSpace(s[|s| - 1]) {
      var t := s[..|s| - 1];
      TrimRightShape(t);
      var n := |TrimRight(s)|;
      assert t[..n] == s[..n];
      forall i | n <= i < |s| ensures IsSpace(s[i]) {
        if i < |s| - 1 { assert t[n..][i - n] == s[i]; }
      }
    }
  }

  /** How many leading white-space characters `strings.TrimSpace` removes. */
  function TrimOffset(s: string): (a: nat)
    ensures a <= |s|
  {
    |s| - |TrimLeft(s)|
  }

  /** Go's `strings.TrimSpace`: `s` without its leading and trailing white space (see `TrimSpaceShape`). */
  function TrimSpace(s: string): (r: string)
    ensures |r| <= |s|
  {
    TrimRight(TrimLeft(s))
  }

  /** The trimmed string is the middle of `s`, with only white space around it and none at its ends. */
  lemma TrimSpaceShape(s: string)
    ensures var r := TrimSpace(s);
            (r == [] || (!IsSpace(r[0]) && !IsSpace(r[|r| - 1])))
            && TrimOffset(s) + |r| <= |s|
            && r == s[TrimOffset(s)..TrimOffset(s) + |r|]
            && AllSpace(s[..TrimOffset(s)]) && AllSpace(s[TrimOffset(s) + |r|..])
  {
    var l := TrimLeft(s);
    var r := TrimRight(l);
    var a := TrimOffset(s);
    TrimLeftShape(s);
    TrimRightShape(l);
    assert s[a..] == l;
    assert r == l[..|r|];
    assert s[a..a + |r|] == l[..|r|];
    assert s[a + |r|..] == l[|r|..];
    assert r != [] ==> r[0] == l[0];
  }

  /** `TrimSpace` leaves nothing exactly of the all-blank strings. */
  lemma TrimSpaceEmptyIff(s: string)
    ensures TrimSpace(s) == [] <==> Blank(s)
  {
    var r := TrimSpace(s);
    var a := TrimOffset(s);
    TrimSpaceShape(s);
    if r == [] {
      forall i | 0 <= i < |s| ensures IsSpace(s[i]) {
        if i < a {
          assert s[..a][i] == s[i];
        } else {
          assert s[a..][i - a] == s[i];
        }
      }
    } else {
      assert s[a] == r[0];
    }
  }

  /** Every character of a trimmed string is a character of the original. */
  lemma TrimSpaceInside(s: string)
    ensures |TrimSpace(s)| <= |s|
    ensures forall c :: c in TrimSpace(s) ==> c in s
  {
    var r := TrimSpace(s);
    var a := TrimOffset(s);
    TrimSpaceShape(s);
    forall c | c in r ensures c in s {
      var k :| 0 <= k < |r| && r[k] == c;
      assert s[a + k] == c;
    }
  }

  /** A word with non-blank ends occurs in a string exactly when it occurs in the trimmed string. */
  lemma TrimmedContains(s: string, w: string)
    requires w != [] && !IsSpace(w[0]) && !IsSpace(w[|w| - 1])
    ensures Contains(TrimSpace(s), w) <==> Contains(s, w)
  {
    var r := TrimSpace(s);
    var a := TrimOffset(s);
    TrimSpaceShape(s);
    if Contains(r, w) {
      ContainsSlice(s, a, a + |r|, w);
    }
    if Contains(s, w) {
      var p :| 0 <= p <= |s| && OccursAt(s, w, p);
      assert s[p] == s[p..p + |w|][0] == w[0];
      assert forall k :: 0 <= k < a ==> s[..a][k] == s[k];
      var q := p + |w| - 1;
      assert s[q] == s[p..p + |w|][|w| - 1] == w[|w| - 1];
      assert forall k :: a + |r| <= k < |s| ==> s[a + |r|..][k - (a + |r|)] == s[k];
      assert r[p - a..p - a + |w|] == s[p..p + |w|];
      assert OccursAt(r, w, p - a);
    }
  }

  /** Trimming a blank-free join of lines that are free of `w` keeps it free of `w`. */
  lemma TrimmedJoinFree(ls: seq<string>, w: string)
    requires w != [] && '\n' !in w && !IsSpace(w[0]) && !IsSpace(w[|w| - 1])
    requires forall i :: 0 <= i < |ls| ==> '\n' !in ls[i] && !Contains(TrimSpace(ls[i]), w)
    ensures !Contains(TrimSpace(JoinLines(ls)), w)
  {
    forall i | 0 <= i < |ls| ensures !Contains(ls[i], w) {
      TrimmedContains(ls[i], w);
    }
    NoLineContains(ls, w);
    TrimmedContains(JoinLines(ls), w);
  }

  /** A trimmed join is empty exactly when every line is blank. */
  lemma TrimJoinEmpty(ls: seq<string>)
    ensures TrimSpace(JoinLines(ls)) == "" <==> forall i :: 0 <= i < |ls| ==> Blank(ls[i])
  {
    JoinLinesBlank(ls);
    TrimSpaceEmptyIff(JoinLines(ls));
  }

  /** Go's `strings.TrimSuffix`. */
  function TrimSuffix(s: string, suffix: string): (r: string)
    ensures HasSuffix(s, suffix) ==> r + suffix == s
    ensures !HasSuffix(s, suffix) ==> r == s
  {
    if HasSuffix(s, suffix) then s[..|s| - |suffix|] else s
  }

  // ---------------------------------------------------------------- lines

  /** Go's `strings.Split(s, "\n")`: the pieces between newlines, always at least one. */
  function Lines(s: string): (r: seq<string>)
    ensures |r| >= 1
    ensures forall i :: 0 <= i < |r| ==> '\n' !in r[i]
  {
    if s == [] then [""]
    else
      var rest := Lines(s[1..]);
      if s[0] == '\n' then [""] + rest
      else [[s[0]] + rest[0]] + rest[1..]
  }

  /** Go's `strings.Join(ls, "\n")`. */
  function JoinLines(ls: seq<string>): string {
    if |ls| == 0 then ""
    else if |ls| == 1 then ls[0]
    else ls[0] + "\n" + JoinLines(ls[1..])
  }

  lemma {:induction false} JoinLinesOfLines(s: string)
    ensures JoinLines(Lines(s)) == s
  {
    if s != [] {
      var rest := Lines(s[1..]);
      JoinLinesOfLines(s[1..]);
      if s[0] == '\n' {
        assert Lines(s) == [""] + rest;
        assert Lines(s)[1..] == rest;
      } else {
        assert Lines(s)[1..] == rest[1..];
        if |rest| > 1 {
          assert JoinLines(rest) == rest[0] + "\n" + JoinLines(rest[1..]);
        }
      }
    }
  }

  lemma {:induction false} LinesOfJoinLines(ls: seq<string>)
    requires |ls| >= 1
    requires forall i :: 0 <= i < |ls| ==> '\n' !in ls[i]
    ensures Lines(JoinLines(ls)) == ls
  {
    if |ls| == 1 {
      LinesOfNoNewline(ls[0]);
    } else {
      var tail := JoinLines(ls[1..]);
      LinesOfJoinLines(ls[1..]);
      var nt := "\n" + tail;
      assert nt[1..] == tail;
      assert Lines(nt) == [""] + ls[1..];
      LinesPrepend(ls[0], nt);
      assert ls[0] + "\n" + tail == ls[0] + nt;
      assert JoinLines(ls) == ls[0] + nt;
      assert ls[0] + Lines(nt)[0] == ls[0];
      assert Lines(nt)[1..] == ls[1..];
      assert [ls[0]] + ls[1..] == ls;
    }
  }

  lemma {:induction false} LinesOfNoNewline(w: string)
    requires '\n' !in w
    ensures Lines(w) == [w]
  {
    if w != [] {
      assert '\n' !in w[1..];
      LinesOfNoNewline(w[1..]);
      assert [w[0]] + w[1..] == w;
    }
  }

  /** Prepending a newline-free word extends the first line. */
  lemma {:induction false} LinesPrepend(w: string, s: string)
    requires '\n' !in w
    ensures Lines(w + s) == [w + Lines(s)[0]] + Lines(s)[1..]
  {
    if w != [] {
      assert '\n' !in w[1..];
      LinesPrepend(w[1..], s);
      var ws := w + s;
      assert ws[1..] == w[1..] + s;
      assert ws[0] == w[0] && w[0] != '\n';
      var rest := Lines(ws[1..]);
      assert rest == [w[1..] + Lines(s)[0]] + Lines(s)[1..];
      assert Lines(ws) == [[ws[0]] + rest[0]] + rest[1..];
      assert [w[0]] + (w[1..] + Lines(s)[0]) == w + Lines(s)[0];
    } else {
      assert w + s == s;
      assert w + Lines(s)[0] == Lines(s)[0];
      assert [Lines(s)[0]] + Lines(s)[1..] == Lines(s);
    }
  }

  /** Appending one more element to a non-empty join adds a newline and that element. */
  lemma {:induction false} JoinLinesSnoc(ls: seq<string>, w: string)
    requires |ls| >= 1
    ensures JoinLines(ls + [w]) == JoinLines(ls) + "\n" + w
  {
    if |ls| == 1 {
      assert (ls + [w])[1..] == [w];
    } else {
      JoinLinesSnoc(ls[1..], w);
      assert (ls + [w])[1..] == ls[1..] + [w];
    }
  }

  /** Appending one character to a text either opens a new empty line or extends the last one. */
  lemma {:induction false} LinesSnoc(t: string, c: char)
    ensures Lines(t + [c]) == SnocLines(Lines(t), c)
  {
    var u := t + [c];
    if t == [] {
      assert u == [c] && u[1..] == [];
      assert Lines(t) == [""];
      if c == '\n' {
        assert Lines(u) == [""] + Lines(u[1..]);
      } else {
        assert Lines(u) == [[c] + Lines(u[1..])[0]] + Lines(u[1..])[1..];
        assert [c] + "" == [c] && "" + [c] == [c];
      }
    } else {
      assert u[1..] == t[1..] + [c] && u[0] == t[0];
      LinesSnoc(t[1..], c);
      assert Lines(u) == LinesStep(t[0], Lines(t[1..] + [c]));
      assert Lines(t) == LinesStep(t[0], Lines(t[1..]));
      SnocLinesHead(t[0], Lines(t[1..]), c);
    }
  }

  /** The lines after appending `c` to text whose lines are `ls`. */
  function SnocLines(ls: seq<string>, c: char): seq<string>
    requires |ls| >= 1
  {
    if c == '\n' then ls + [""] else ls[..|ls| - 1] + [ls[|ls| - 1] + [c]]
  }

  /** How `Lines` puts a leading character in front of the lines of the rest. */
  function LinesStep(a: char, ls: seq<string>): (r: seq<string>)
    requires |ls| >= 1
    ensures |r| >= 1
  {
    if a == '\n' then [""] + ls else [[a] + ls[0]] + ls[1..]
  }

  /** One step of `Lines` commutes with `SnocLines`. */
  lemma SnocLinesHead(a: char, rest: seq<string>, c: char)
    requires |rest| >= 1
    ensures LinesStep(a, SnocLines(rest, c)) == SnocLines(LinesStep(a, rest), c)
  {
    var k := |rest| - 1;
    if a != '\n' && c != '\n' {
      if k == 0 {
        assert [a] + (rest[0] + [c]) == ([a] + rest[0]) + [c];
      } else {
        var r2 := SnocLines(rest, c);
        assert r2[0] == rest[0];
        assert r2[1..] == rest[1..k] + [rest[k] + [c]];
        var ls := [[a] + rest[0]] + rest[1..];
        assert ls[..|ls| - 1] == [[a] + rest[0]] + rest[1..k];
      }
    } else if a != '\n' {
      assert SnocLines(rest, c)[1..] == rest[1..] + [""];
    } else if c != '\n' {
      var ls := [""] + rest;
      assert ls[..|ls| - 1] == [""] + rest[..k];
    }
  }

  /** Joining two non-empty lists of lines puts one newline between their joins. */
  lemma {:induction false} JoinLinesAppend(a: seq<string>, b: seq<string>)
    requires |a| >= 1 && |b| >= 1
    ensures JoinLines(a + b) == JoinLines(a) + "\n" + JoinLines(b)
  {
    if |a| == 1 {
      assert (a + b)[1..] == b;
    } else {
      JoinLinesAppend(a[1..], b);
      assert (a + b)[1..] == a[1..] + b;
    }
  }

  /** A newline-free prefix of a text is a prefix of its first line. */
  lemma {:induction false} PrefixInFirstLine(s: string, w: string)
    requires HasPrefix(s, w) && '\n' !in w
    ensures HasPrefix(Lines(s)[0], w)
    decreases |s|
  {
    if w != [] {
      assert s[0] == s[..|w|][0] == w[0];
      assert s[1..][..|w| - 1] == s[..|w|][1..];
      assert '\n' !in w[1..];
      PrefixInFirstLine(s[1..], w[1..]);
      var l := Lines(s)[0];
      assert l == [s[0]] + Lines(s[1..])[0];
      assert l[..|w|] == [s[0]] + Lines(s[1..])[0][..|w| - 1];
      assert w == [w[0]] + w[1..];
    }
  }

  /** A newline-free word that occurs in a text occurs inside one of its lines. */
  lemma {:induction false} ContainsInSomeLine(s: string, w: string)
    requires '\n' !in w && Contains(s, w)
    ensures exists i :: 0 <= i < |Lines(s)| && Contains(Lines(s)[i], w)
    decreases |s|
  {
    var p :| 0 <= p <= |s| && OccursAt(s, w, p);
    if p == 0 {
      PrefixInFirstLine(s, w);
      PrefixContained(Lines(s)[0], w);
    } else {
      assert s[1..][p - 1..p - 1 + |w|] == s[p..p + |w|];
      assert OccursAt(s[1..], w, p - 1);
      ContainsInSomeLine(s[1..], w);
      var rest := Lines(s[1..]);
      var i :| 0 <= i < |rest| && Contains(rest[i], w);
      if s[0] == '\n' {
        assert Lines(s)[i + 1] == rest[i];
      } else if i == 0 {
        var l0 := [s[0]] + rest[0];
        assert l0[1..|l0|] == rest[0];
        ContainsSlice(l0, 1, |l0|, w);
        assert Lines(s)[0] == l0;
      } else {
        assert Lines(s)[i] == rest[i];
      }
    }
  }

  /** Joining newline-free lines none of which contains a newline-free word does not create it. */
  lemma NoLineContains(ls: seq<string>, w: string)
    requires w != [] && '\n' !in w
    requires forall i :: 0 <= i < |ls| ==> '\n' !in ls[i] && !Contains(ls[i], w)
    ensures !Contains(JoinLines(ls), w)
  {
    if ls == [] {
      assert JoinLines(ls) == "";
    } else if Contains(JoinLines(ls), w) {
      LinesOfJoinLines(ls);
      ContainsInSomeLine(JoinLines(ls), w);
    }
  }

  lemma AllSpaceConcat(a: string, b: string)
    ensures AllSpace(a + b) <==> AllSpace(a) && AllSpace(b)
  {
    if AllSpace(a + b) {
      forall i | 0 <= i < |a| ensures IsSpace(a[i]) {
        assert (a + b)[i] == a[i];
      }
      forall i | 0 <= i < |b| ensures IsSpace(b[i]) {
        assert (a + b)[|a| + i] == b[i];
      }
    }
  }

  /** A join of lines is blank exactly when every line is. */
  lemma {:induction false} JoinLinesBlank(ls: seq<string>)
    ensures Blank(JoinLines(ls)) <==> forall i :: 0 <= i < |ls| ==> Blank(ls[i])
  {
    if |ls| >= 2 {
      JoinLinesBlank(ls[1..]);
      var t := JoinLines(ls[1..]);
      assert JoinLines(ls) == (ls[0] + "\n") + t;
      AllSpaceConcat(ls[0] + "\n", t);
      AllSpaceConcat(ls[0], "\n");
      assert forall i :: 1 <= i < |ls| ==> ls[i] == ls[1..][i - 1];
    }
  }

  // ---------------------------------------------------------------- fields

  function TokenLength(s: string): (n: nat)
    ensures n <= |s|
    ensures forall i :: 0 <= i < n ==> !IsSpace(s[i])
    ensures n == |s| || IsSpace(s[n])
  {
    if s == [] || IsSpace(s[0]) then 0 else 1 + TokenLength(s[1..])
  }

  /** A field of `strings.Fields`: non-empty and free of white space. */
  predicate IsToken(w: string) {
    |w| > 0 && forall i :: 0 <= i < |w| ==> !IsSpace(w[i])
  }

  /** Go's `strings.Fields`: the maximal runs of non-space characters. */
  function Fields(s: string): (r: seq<string>)
    ensures forall i :: 0 <= i < |r| ==> IsToken(r[i])
    ensures |r| <= |s|
  {
    if s == [] then []
    else if IsSpace(s[0]) then Fields(s[1..])
    else
      var n := TokenLength(s);
      [s[..n]] + Fields(s[n..])
  }

  // ---------------------------------------------------------------- case

  /** ASCII upper-casing of one character. */
  function UpperChar(c: char): char {
    if 'a' <= c <= 'z' then (c as int - 32) as char else c
  }

  /** ASCII lower-casing of one character. */
  function LowerChar(c: char): char {
    if 'A' <= c <= 'Z' then (c as int + 32) as char else c
  }

  /** Go's `strings.ToUpper`, restricted to ASCII letters. */
  function ToUpper(s: string): (r: string)
    ensures |r| == |s|
    ensures forall i :: 0 <= i < |s| ==> r[i] == UpperChar(s[i])
  {
    seq(|s|, i requires 0 <= i < |s| => UpperChar(s[i]))
  }

  /** Go's `strings.ToLower`, restricted to ASCII letters. */
  function ToLower(s: string): (r: string)
    ensures |r| == |s|
    ensures forall i :: 0 <= i < |s| ==> r[i] == LowerChar(s[i])
  {
    seq(|s|, i requires 0 <= i < |s| => LowerChar(s[i]))
  }

  /** Go's `strings.EqualFold`, restricted to ASCII letters. */
  predicate EqualFold(a: string, b: string) {
    ToLower(a) == ToLower(b)
  }

  lemma ToUpperIdempotent(s: string)
    ensures ToUpper(ToUpper(s)) == ToUpper(s)
  {
  }

  /** Upper-casing never turns white space into something else, or the reverse. */
  lemma UpperCharSpace(c: char)
    ensures IsSpace(UpperChar(c)) <==> IsSpace(c)
  {
  }

  lemma {:induction false} TrimLeftUpper(s: string)
    ensures TrimLeft(ToUpper(s)) == ToUpper(TrimLeft(s))
  {
    if s != [] {
      UpperCharSpace(s[0]);
      if IsSpace(s[0]) {
        assert ToUpper(s)[1..] == ToUpper(s[1..]);
        TrimLeftUpper(s[1..]);
      }
    }
  }

  lemma {:induction false} TrimRightUpper(s: string)
    ensures TrimRight(ToUpper(s)) == ToUpper(TrimRight(s))
  {
    if s != [] {
      UpperCharSpace(s[|s| - 1]);
      if IsSpace(s[|s| - 1]) {
        assert ToUpper(s)[..|s| - 1] == ToUpper(s[..|s| - 1]);
        TrimRightUpper(s[..|s| - 1]);
      }
    }
  }

  /** Trimming and upper-casing commute. */
  lemma TrimSpaceUpper(s: string)
    ensures TrimSpace(ToUpper(s)) == ToUpper(TrimSpace(s))
  {
    TrimLeftUpper(s);
    TrimRightUpper(TrimLeft(s));
  }

  /** Trimming a trimmed string changes nothing. */
  lemma TrimSpaceIdempotent(s: string)
    ensures TrimSpace(TrimSpace(s)) == TrimSpace(s)
  {
    TrimSpaceShape(s);
    var r := TrimSpace(s);
    assert TrimLeft(r) == r;
    assert TrimRight(r) == r;
  }

  // ---------------------------------------------------------------- numbers

  function DigitValue(c: char): nat
    requires IsDigit(c)
  {
    c as int - '0' as int
  }

  /** The value of a decimal digit string, most significant digit first. */
  function DigitsValue(d: string): nat
    requires AllDigits(d)
  {
    if d == [] then 0 else 10 * DigitsValue(d[..|d| - 1]) + DigitValue(d[|d| - 1])
  }

  /** Go's `strconv.Itoa` for non-negative numbers. */
  function NatToString(n: nat): (r: string)
    ensures |r| >= 1 && AllDigits(r)
  {
    var last := ['0' + (n % 10) as char];
    if n < 10 then last else NatToString(n / 10) + last
  }

  /** Reading the rendering back gives the number. */
  lemma {:induction false} NatToStringValue(n: nat)
    ensures DigitsValue(NatToString(n)) == n
  {
    if n >= 10 {
      NatToStringValue(n / 10);
      var r := NatToString(n);
      assert r[..|r| - 1] == NatToString(n / 10);
    }
  }

  /** Go's `strconv.Itoa` (Python's `str` of an int). */
  function IntToString(n: int): string {
    if n < 0 then "-" + NatToString(-n) else NatToString(n)
  }

  /** Distinct numbers have distinct decimal renderings. */
  lemma NatToStringInjective(m: nat, n: nat)
    requires NatToString(m) == NatToString(n)
    ensures m == n
  {
    NatToStringValue(m);
    NatToStringValue(n);
  }

  /**
   * Go's `strconv.Atoi`: an optional sign followed by one or more decimal digits.
   * Values outside 64 bits are not distinguished (see README).
   */
  function Atoi(s: string): (r: Option<int>)
    ensures r.Some? <==> (|s| >= 1 && (AllDigits(s) || ((s[0] == '+' || s[0] == '-') && |s| >= 2 && AllDigits(s[1..]))))
    ensures r.Some? && AllDigits(s) ==> r.value == DigitsValue(s)
  {
    if |s| >= 1 && AllDigits(s) then Some(DigitsValue(s))
    else if |s| >= 2 && s[0] == '+' && AllDigits(s[1..]) then Some(DigitsValue(s[1..]))
    else if |s| >= 2 && s[0] == '-' && AllDigits(s[1..]) then (var v: int := DigitsValue(s[1..]); Some(-v))
    else None
  }

  lemma AtoiOfNatToString(n: nat)
    ensures Atoi(NatToString(n)) == Some(n)
  {
    NatToStringValue(n);
  }

  /** The maximal run of decimal digits at the start of `s`. */
  function DigitRun(s: string): (n: nat)
    ensures n <= |s|
    ensures AllDigits(s[..n])
    ensures n == |s| || !IsDigit(s[n])
  {
    if s == [] || !IsDigit(s[0]) then 0 else 1 + DigitRun(s[1..])
  }

  // ---------------------------------------------------------------- sequences

  /** Keep the elements satisfying `keep`, in order. */
  function Filter<T>(s: seq<T>, keep: T -> bool): (r: seq<T>)
    ensures |r| <= |s|
    ensures forall i :: 0 <= i < |r| ==> keep(r[i]) && r[i] in s
    ensures forall i :: 0 <= i < |s| && keep(s[i]) ==> s[i] in r
  {
    if s == [] then []
    else if keep(s[0]) then [s[0]] + Filter(s[1..], keep)
    else Filter(s[1..], keep)
  }

  /** The index of the first element satisfying `p`, if any. */
  function FirstWhere<T>(s: seq<T>, p: T -> bool): (r: Option<nat>)
    ensures r.Some? ==> r.value < |s| && p(s[r.value]) && forall j :: 0 <= j < r.value ==> !p(s[j])
    ensures r.None? ==> forall j :: 0 <= j < |s| ==> !p(s[j])
  {
    if s == [] then None
    else if p(s[0]) then Some(0)
    else match FirstWhere(s[1..], p)
      case None => None
      case Some(i) => Some(i + 1)
  }

  /** The number of elements satisfying `p`. */
  function CountWhere<T>(s: seq<T>, p: T -> bool): (n: nat)
    ensures n <= |s|
    ensures n == 0 <==> forall i :: 0 <= i < |s| ==> !p(s[i])
  {
    if s == [] then 0 else (if p(s[0]) then 1 else 0) + CountWhere(s[1..], p)
  }

  /** Counting distributes over concatenation. */
  lemma {:induction false} CountWhereAppend<T>(a: seq<T>, b: seq<T>, p: T -> bool)
    ensures CountWhere(a + b, p) == CountWhere(a, p) + CountWhere(b, p)
  {
    if a != [] {
      CountWhereAppend(a[1..], b, p);
      assert (a + b)[1..] == a[1..] + b;
    } else {
      assert a + b == b;
    }
  }

  /** Filtering distributes over concatenation. */
  lemma {:induction false} FilterAppend<T>(a: seq<T>, b: seq<T>, keep: T -> bool)
    ensures Filter(a + b, keep) == Filter(a, keep) + Filter(b, keep)
  {
    if a != [] {
      FilterAppend(a[1..], b, keep);
      assert (a + b)[1..] == a[1..] + b;
    } else {
      assert a + b == b;
    }
  }

  lemma {:induction false} CountIsFilterLength<T>(s: seq<T>, p: T -> bool)
    ensures CountWhere(s, p) == |Filter(s, p)|
  {
    if s != [] {
      CountIsFilterLength(s[1..], p);
    }
  }
}
