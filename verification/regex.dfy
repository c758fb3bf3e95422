/**
 * The handful of regular expressions the migration toolkit's parsers use
 * (`Success rate is\s+(\d+)\s*percent`, `(\d+)/(\d+)`, `\s(\d+)\s*$`, ...)
 * are sequences of literals, white-space runs and digit runs. `MatchAt` is
 * the greedy scanner Go's leftmost-first engine amounts to on such
 * patterns; `Matches` is the backtracking reading of the same pattern, the
 * reference the scanner is proved against.
 */
module Pattern {
  import opened Common
  import opened Text

  datatype Token =
    | Lit(text: string)          // the literal text itself
    | Spaces(atLeastOne: bool)   // `\s+` or `\s*`
    | OneSpace                   // `\s`
    | Num                        // `(\d+)`, a capturing group
    | End                        // `$` without the multi-line flag

  /** A successful match: where it ends and what its groups captured. */
  datatype Hit = Hit(end: nat, caps: seq<string>)

  /** The number of capturing groups of a pattern. */
  function Groups(pat: seq<Token>): nat {
    if pat == [] then 0 else (if pat[0].Num? then 1 else 0) + Groups(pat[1..])
  }

  /** All of `s[i..j]` belongs to the character class `cls`. */
  predicate AllIn(s: string, i: nat, j: nat, cls: char -> bool)
    requires i <= j <= |s|
  {
    forall k :: i <= k < j ==> cls(s[k])
  }

  /** The length of the longest run of `cls` characters starting at `i`. */
  function RunFrom(s: string, i: nat, cls: char -> bool): (n: nat)
    requires i <= |s|
    decreases |s| - i
    ensures i + n <= |s| && AllIn(s, i, i + n, cls)
    ensures i + n == |s| || !cls(s[i + n])
  {
    if i == |s| || !cls(s[i]) then 0 else 1 + RunFrom(s, i + 1, cls)
  }

  /** The minimum length of a run token. */
  function MinRun(t: Token): nat {
    if t.Spaces? && !t.atLeastOne then 0 else 1
  }

  // ---------------------------------------------------------------- reference semantics

  /**
   * The pattern matches `s[i..e]` with captures `caps`, for some choice of
   * run lengths: the set of matches a backtracking engine may consider.
   */
  ghost predicate Matches(s: string, pat: seq<Token>, i: nat, e: nat, caps: seq<string>)
    requires i <= |s|
    decreases pat
  {
    if pat == [] then e == i && caps == []
    else match pat[0]
      case Lit(t) =>
        OccursAt(s, t, i) && Matches(s, pat[1..], i + |t|, e, caps)
      case OneSpace =>
        i < |s| && IsRegexSpace(s[i]) && Matches(s, pat[1..], i + 1, e, caps)
      case End =>
        i == |s| && Matches(s, pat[1..], i, e, caps)
      case Spaces(one) =>
        exists j :: i + MinRun(pat[0]) <= j <= |s| && AllIn(s, i, j, IsRegexSpace) && Matches(s, pat[1..], j, e, caps)
      case Num =>
        |caps| >= 1 &&
        exists j :: i + 1 <= j <= |s| && AllIn(s, i, j, IsDigit) && caps[0] == s[i..j] && Matches(s, pat[1..], j, e, caps[1..])
  }

  /** Some match of the pattern starts at `i`. */
  ghost predicate MatchesFrom(s: string, pat: seq<Token>, i: nat)
    requires i <= |s|
  {
    exists e, caps :: Matches(s, pat, i, e, caps)
  }

  /** The class a run token consumes: digits for `Num`, white space otherwise. */
  function RunClass(isNum: bool): char -> bool {
    if isNum then IsDigit else IsRegexSpace
  }

  /**
   * No match of `pat` can begin with a character of the class: what a run of
   * that class must be followed by for the greedy scanner to be exact.
   */
  predicate FirstAvoids(pat: seq<Token>, isNum: bool)
    decreases pat
  {
    pat != [] &&
    match pat[0]
      case Lit(x) => x != [] && !RunClass(isNum)(x[0])
      case End => true
      case Num => !isNum
      case OneSpace => isNum
      case Spaces(one) => isNum && (one || FirstAvoids(pat[1..], isNum))
  }

  /** Every run token that is not last is followed by something it cannot run into. */
  predicate Separated(pat: seq<Token>) {
    forall k :: 0 <= k < |pat| - 1 && (pat[k].Spaces? || pat[k].Num?) ==> FirstAvoids(pat[k + 1..], pat[k].Num?)
  }

  // ---------------------------------------------------------------- scanner

  /** Every capture of a pattern is a non-empty digit string. */
  predicate DigitCaptures(caps: seq<string>) {
    forall k :: 0 <= k < |caps| ==> |caps[k]| >= 1 && AllDigits(caps[k])
  }

  /** Match `pat` at position `i`, taking every run as long as it goes. */
  function MatchAt(s: string, pat: seq<Token>, i: nat): (r: Option<Hit>)
    requires i <= |s|
    decreases pat
    ensures r.Some? ==> i <= r.value.end <= |s| && |r.value.caps| == Groups(pat)
    ensures r.Some? ==> DigitCaptures(r.value.caps)
  {
    if pat == [] then Some(Hit(i, []))
    else match pat[0]
      case Lit(t) =>
        if OccursAt(s, t, i) then MatchAt(s, pat[1..], i + |t|) else None
      case OneSpace =>
        if i < |s| && IsRegexSpace(s[i]) then MatchAt(s, pat[1..], i + 1) else None
      case End =>
        if i == |s| then MatchAt(s, pat[1..], i) else None
      case Spaces(one) =>
        var n := RunFrom(s, i, IsRegexSpace);
        if one && n == 0 then None else MatchAt(s, pat[1..], i + n)
      case Num =>
        var n := RunFrom(s, i, IsDigit);
        if n == 0 then None
        else match MatchAt(s, pat[1..], i + n)
          case None => None
          case Some(h) => Some(Hit(h.end, [s[i..i + n]] + h.caps))
  }

  /** What the scanner finds is a match in the reference sense, and its groups hold digits. */
  lemma {:induction false} MatchAtSound(s: string, pat: seq<Token>, i: nat)
    requires i <= |s| && MatchAt(s, pat, i).Some?
    ensures Matches(s, pat, i, MatchAt(s, pat, i).value.end, MatchAt(s, pat, i).value.caps)
    decreases |pat|, 1
  {
    if pat != [] {
      match pat[0]
      case Lit(t) =>
        MatchAtSound(s, pat[1..], i + |t|);
      case OneSpace =>
        MatchAtSound(s, pat[1..], i + 1);
      case End =>
        MatchAtSound(s, pat[1..], i);
      case Spaces(one) =>
        SoundSpaces(s, pat, i);
      case Num =>
        SoundNum(s, pat, i);
    }
  }

  lemma SoundSpaces(s: string, pat: seq<Token>, i: nat)
    requires i <= |s| && pat != [] && pat[0].Spaces? && MatchAt(s, pat, i).Some?
    ensures Matches(s, pat, i, MatchAt(s, pat, i).value.end, MatchAt(s, pat, i).value.caps)
    decreases |pat|, 0
  {
    var n := RunFrom(s, i, IsRegexSpace);
    assert MatchAt(s, pat, i) == MatchAt(s, pat[1..], i + n);
    MatchAtSound(s, pat[1..], i + n);
  }

  lemma SoundNum(s: string, pat: seq<Token>, i: nat)
    requires i <= |s| && pat != [] && pat[0].Num? && MatchAt(s, pat, i).Some?
    ensures Matches(s, pat, i, MatchAt(s, pat, i).value.end, MatchAt(s, pat, i).value.caps)
    decreases |pat|, 0
  {
    var n := RunFrom(s, i, IsDigit);
    var h := MatchAt(s, pat, i).value;
    var rest := MatchAt(s, pat[1..], i + n).value;
    MatchAtSound(s, pat[1..], i + n);
    assert h.caps == [s[i..i + n]] + rest.caps;
    assert h.caps[1..] == rest.caps;
  }

  /** A reference match at `j` of a pattern that avoids a class cannot begin with a character of it. */
  lemma {:induction false} FirstCharStops(s: string, pat: seq<Token>, isNum: bool, j: nat, e: nat, caps: seq<string>)
    requires FirstAvoids(pat, isNum)
    requires j <= |s| && Matches(s, pat, j, e, caps)
    ensures j == |s| || !RunClass(isNum)(s[j])
    decreases pat
  {
    match pat[0]
    case Lit(x) =>
      assert s[j..j + |x|][0] == s[j];
    case OneSpace =>
    case End =>
    case Spaces(one) =>
      var k :| j + MinRun(pat[0]) <= k <= |s| && AllIn(s, j, k, IsRegexSpace) && Matches(s, pat[1..], k, e, caps);
      if j < k {
        assert IsRegexSpace(s[j]);
      } else {
        FirstCharStops(s, pat[1..], isNum, k, e, caps);
      }
    case Num =>
      var k :| j + 1 <= k <= |s| && AllIn(s, j, k, IsDigit) && caps[0] == s[j..k] && Matches(s, pat[1..], k, e, caps[1..]);
      assert IsDigit(s[j]);
  }

  /** The tail of a separated pattern is separated. */
  lemma SeparatedTail(pat: seq<Token>)
    requires pat != [] && Separated(pat)
    ensures Separated(pat[1..])
  {
    var rest := pat[1..];
    forall k | 0 <= k < |rest| - 1 && (rest[k].Spaces? || rest[k].Num?)
      ensures FirstAvoids(rest[k + 1..], rest[k].Num?)
    {
      assert rest[k] == pat[k + 1] && rest[k + 1..] == pat[k + 2..];
    }
  }

  /** On a separated pattern the greedy scanner misses no match. */
  lemma {:induction false} MatchAtComplete(s: string, pat: seq<Token>, i: nat, e: nat, caps: seq<string>)
    requires i <= |s| && Separated(pat) && Matches(s, pat, i, e, caps)
    ensures MatchAt(s, pat, i).Some?
    decreases |pat|, 1
  {
    if pat != [] {
      SeparatedTail(pat);
      match pat[0]
      case Lit(t) =>
        MatchAtComplete(s, pat[1..], i + |t|, e, caps);
      case OneSpace =>
        MatchAtComplete(s, pat[1..], i + 1, e, caps);
      case End =>
        MatchAtComplete(s, pat[1..], i, e, caps);
      case Spaces(one) =>
        CompleteSpaces(s, pat, i, e, caps);
      case Num =>
        CompleteNum(s, pat, i, e, caps);
    }
  }

  /** The greedy run from `i` covers any run of the class from `i`, and ends where such a run is blocked. */
  lemma GreedyRun(s: string, i: nat, j: nat, cls: char -> bool)
    requires i <= j <= |s| && AllIn(s, i, j, cls)
    ensures i + RunFrom(s, i, cls) >= j
    ensures j == |s| || !cls(s[j]) ==> i + RunFrom(s, i, cls) == j
  {
  }

  /** The `\s*` and `\s+` case of `MatchAtComplete`. */
  lemma CompleteSpaces(s: string, pat: seq<Token>, i: nat, e: nat, caps: seq<string>)
    requires i <= |s| && pat != [] && pat[0].Spaces?
    requires Separated(pat) && Separated(pat[1..]) && Matches(s, pat, i, e, caps)
    ensures MatchAt(s, pat, i).Some?
    decreases |pat|, 0
  {
    var rest := pat[1..];
    var j := SpacesWitness(s, pat, i, e, caps);
    if rest != [] {
      FirstCharStops(s, rest, false, j, e, caps);
      GreedyRun(s, i, j, IsRegexSpace);
      assert i + RunFrom(s, i, IsRegexSpace) == j;
      MatchAtComplete(s, rest, j, e, caps);
    } else {
      GreedyRun(s, i, j, IsRegexSpace);
    }
    SpacesStep(s, pat, i);
  }

  /** The run length a reference match of `\s*` or `\s+` chose. */
  lemma SpacesWitness(s: string, pat: seq<Token>, i: nat, e: nat, caps: seq<string>) returns (j: nat)
    requires i <= |s| && pat != [] && pat[0].Spaces? && Matches(s, pat, i, e, caps)
    ensures i + MinRun(pat[0]) <= j <= |s| && AllIn(s, i, j, IsRegexSpace) && Matches(s, pat[1..], j, e, caps)
  {
    j :| i + MinRun(pat[0]) <= j <= |s| && AllIn(s, i, j, IsRegexSpace) && Matches(s, pat[1..], j, e, caps);
  }

  /** A long enough white-space run followed by a match of the rest is a match. */
  lemma SpacesStep(s: string, pat: seq<Token>, i: nat)
    requires i <= |s| && pat != [] && pat[0].Spaces? && RunFrom(s, i, IsRegexSpace) >= MinRun(pat[0])
    requires MatchAt(s, pat[1..], i + RunFrom(s, i, IsRegexSpace)).Some?
    ensures MatchAt(s, pat, i).Some?
  {
  }

  /** The `(\d+)` case of `MatchAtComplete`. */
  lemma CompleteNum(s: string, pat: seq<Token>, i: nat, e: nat, caps: seq<string>)
    requires i <= |s| && pat != [] && pat[0].Num?
    requires Separated(pat) && Separated(pat[1..]) && Matches(s, pat, i, e, caps)
    ensures MatchAt(s, pat, i).Some?
    decreases |pat|, 0
  {
    var rest := pat[1..];
    var tail := caps[1..];
    var j := NumWitness(s, pat, i, e, caps);
    if rest != [] {
      FirstCharStops(s, rest, true, j, e, tail);
      GreedyRun(s, i, j, IsDigit);
      assert i + RunFrom(s, i, IsDigit) == j;
      MatchAtComplete(s, rest, j, e, tail);
    } else {
      GreedyRun(s, i, j, IsDigit);
    }
    NumStep(s, pat, i);
  }

  /** The digit run a reference match of `(\d+)` chose. */
  lemma NumWitness(s: string, pat: seq<Token>, i: nat, e: nat, caps: seq<string>) returns (j: nat)
    requires i <= |s| && pat != [] && pat[0].Num? && Matches(s, pat, i, e, caps)
    ensures |caps| >= 1 && i + 1 <= j <= |s| && AllIn(s, i, j, IsDigit) && Matches(s, pat[1..], j, e, caps[1..])
  {
    j :| i + 1 <= j <= |s| && AllIn(s, i, j, IsDigit) && caps[0] == s[i..j] && Matches(s, pat[1..], j, e, caps[1..]);
  }

  /** A digit run followed by a match of the rest is a match. */
  lemma NumStep(s: string, pat: seq<Token>, i: nat)
    requires i <= |s| && pat != [] && pat[0].Num? && RunFrom(s, i, IsDigit) >= 1
    requires MatchAt(s, pat[1..], i + RunFrom(s, i, IsDigit)).Some?
    ensures MatchAt(s, pat, i).Some?
  {
  }

  // ---------------------------------------------------------------- leftmost search

  /** A match found by `Search`: where it starts, ends and what it captured. */
  datatype Found = Found(start: nat, end: nat, caps: seq<string>)

  /** Go's `FindStringSubmatch`: the match starting leftmost, searching from `p`. */
  function SearchFrom(s: string, pat: seq<Token>, p: nat): (r: Option<Found>)
    requires p <= |s|
    decreases |s| - p
    ensures r.Some? ==> p <= r.value.start <= r.value.end <= |s| && |r.value.caps| == Groups(pat)
    ensures r.Some? ==> DigitCaptures(r.value.caps)
    ensures r.Some? ==> MatchAt(s, pat, r.value.start) == Some(Hit(r.value.end, r.value.caps))
    ensures r.Some? ==> forall q :: p <= q < r.value.start ==> MatchAt(s, pat, q).None?
    ensures r.None? ==> forall q :: p <= q <= |s| ==> MatchAt(s, pat, q).None?
  {
    match MatchAt(s, pat, p)
    case Some(h) => Some(Found(p, h.end, h.caps))
    case None => if p == |s| then None else SearchFrom(s, pat, p + 1)
  }

  function Search(s: string, pat: seq<Token>): (r: Option<Found>)
    ensures r.Some? ==> r.value.start <= r.value.end <= |s| && |r.value.caps| == Groups(pat)
    ensures r.Some? ==> DigitCaptures(r.value.caps)
  {
    SearchFrom(s, pat, 0)
  }

  /** The search result is the leftmost match in the reference sense; no match means none anywhere. */
  lemma SearchMeaning(s: string, pat: seq<Token>)
    requires Separated(pat)
    ensures var r := Search(s, pat);
            (r.Some? ==> Matches(s, pat, r.value.start, r.value.end, r.value.caps)
                         && forall q :: 0 <= q < r.value.start ==> !MatchesFrom(s, pat, q))
            && (r.None? ==> forall q :: 0 <= q <= |s| ==> !MatchesFrom(s, pat, q))
  {
    var r := Search(s, pat);
    if r.Some? {
      MatchAtSound(s, pat, r.value.start);
    }
    forall q | 0 <= q <= |s| && MatchesFrom(s, pat, q) ensures MatchAt(s, pat, q).Some? {
      var e, caps :| Matches(s, pat, q, e, caps);
      MatchAtComplete(s, pat, q, e, caps);
    }
  }

  /** Where the reference finds no match, neither does the search. */
  lemma SearchNone(s: string, pat: seq<Token>)
    requires forall q :: 0 <= q <= |s| ==> !MatchesFrom(s, pat, q)
    ensures Search(s, pat).None?
  {
    var r := Search(s, pat);
    if r.Some? {
      MatchAtSound(s, pat, r.value.start);
      assert MatchesFrom(s, pat, r.value.start);
    }
  }

  /** Where the reference finds a match, so does the search. */
  lemma SearchSome(s: string, pat: seq<Token>, q: nat)
    requires Separated(pat) && q <= |s| && MatchesFrom(s, pat, q)
    ensures Search(s, pat).Some? && Search(s, pat).value.start <= q
  {
    var e, caps :| Matches(s, pat, q, e, caps);
    MatchAtComplete(s, pat, q, e, caps);
  }

  // ---------------------------------------------------------------- numbers

  /** The largest Go `int` on the 64-bit targets the toolkit is built for. */
  const MAX_INT: nat := 0x7fff_ffff_ffff_ffff
  const MIN_INT: int := -0x8000_0000_0000_0000

  /** Go's `strconv.Atoi` with its error: a number outside 64 bits is an error like a malformed one. */
  function ParseInt(s: string): (r: Option<int>)
    ensures r.Some? <==> Atoi(s).Some? && MIN_INT <= Atoi(s).value <= MAX_INT
    ensures r.Some? ==> r.value == Atoi(s).value
  {
    match Atoi(s)
    case Some(n) => if MIN_INT <= n <= MAX_INT then Some(n) else None
    case None => None
  }

  /**
   * Go's `strconv.Atoi` of a captured digit string: out-of-range values come
   * back as the largest `int` (the range error itself is ignored by every caller).
   */
  function Decimal(d: string): (n: nat)
    requires AllDigits(d)
    ensures n <= MAX_INT
    ensures DigitsValue(d) <= MAX_INT ==> n == DigitsValue(d)
  {
    if DigitsValue(d) > MAX_INT then MAX_INT else DigitsValue(d)
  }

  /** Decimal renderings of small numbers read back unchanged. */
  lemma DecimalOfNat(n: nat)
    requires n <= MAX_INT
    ensures Decimal(NatToString(n)) == n
  {
    NatToStringValue(n);
  }
}
