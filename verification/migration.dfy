/**
 * The decision logic of the migration validation toolkit: the text parsers
 * that turn router output into numbers (`countLines`, `sumPfx`,
 * `parseRoutes`, `pingRate`), the display and list helpers (`trunc`,
 * `removeDevice`), the MTU binary search, the report verdict and the step
 * rules of the BGP and drain monitors.
 */
module Migration {
  import opened Common
  import opened Text
  import opened Pattern

  // ---------------------------------------------------------------- devices

  /** An inventory entry; the credentials play no part in the logic modelled here. */
  datatype DeviceInfo = DeviceInfo(
    hostname: string, ipAddress: string, deviceType: string, role: string,
    username: string, password: string, sshPort: int)

  /** The device type that selects IOS-XR command syntax. */
  predicate IsXr(d: DeviceInfo) {
    d.deviceType == "ios-xr"
  }

  // ---------------------------------------------------------------- trunc

  /**
   * `trunc`: a string longer than `n` is cut to `n - 1` characters and an
   * ellipsis. Go panics on `s[:n-1]` when a non-empty string meets `n = 0`,
   * hence the precondition.
   */
  function Trunc(s: string, n: nat): (r: string)
    requires |s| <= n || n >= 1
    ensures |s| <= n ==> r == s
    ensures |s| > n ==> |r| == n && r[..n - 1] == s[..n - 1] && r[n - 1] == '…'
  {
    if |s| > n then s[..n - 1] + "…" else s
  }

  /** A truncated string fits, so truncating again changes nothing. */
  lemma TruncIdempotent(s: string, n: nat)
    requires |s| <= n || n >= 1
    ensures |Trunc(s, n)| <= n
    ensures Trunc(Trunc(s, n), n) == Trunc(s, n)
  {
  }

  // ---------------------------------------------------------------- countLines

  /** A line with something other than white space on it. */
  predicate NonBlank(l: string) {
    TrimSpace(l) != ""
  }

  /** `countLines`: the non-blank lines of the trimmed text. */
  function CountLines(s: string): (n: nat)
    ensures n <= |Lines(TrimSpace(s))|
  {
    CountWhere(Lines(TrimSpace(s)), NonBlank)
  }

  /** White space added to a line never makes it blank or non-blank. */
  lemma NonBlankSpace(c: char, l: string)
    requires IsSpace(c)
    ensures NonBlank([c] + l) <==> NonBlank(l)
    ensures NonBlank(l + [c]) <==> NonBlank(l)
  {
    TrimSpaceEmptyIff([c] + l);
    TrimSpaceEmptyIff(l + [c]);
    TrimSpaceEmptyIff(l);
    assert ([c] + l)[1..] == l;
    assert (l + [c])[..|l|] == l;
  }

  /** A leading white-space character does not change the number of non-blank lines. */
  lemma CountAfterLeadingSpace(c: char, t: string)
    requires IsSpace(c)
    ensures CountWhere(Lines([c] + t), NonBlank) == CountWhere(Lines(t), NonBlank)
  {
    var u := [c] + t;
    assert u[1..] == t && u[0] == c;
    var rest := Lines(t);
    if c == '\n' {
      assert Lines(u) == [""] + rest;
      assert !NonBlank("");
      assert ([""] + rest)[1..] == rest;
    } else {
      assert Lines(u) == [[c] + rest[0]] + rest[1..];
      NonBlankSpace(c, rest[0]);
      assert ([[c] + rest[0]] + rest[1..])[1..] == rest[1..];
    }
  }

  /** A trailing white-space character does not change the number of non-blank lines. */
  lemma CountBeforeTrailingSpace(t: string, c: char)
    requires IsSpace(c)
    ensures CountWhere(Lines(t + [c]), NonBlank) == CountWhere(Lines(t), NonBlank)
  {
    var ls := Lines(t);
    LinesSnoc(t, c);
    if c == '\n' {
      CountWhereAppend(ls, [""], NonBlank);
      assert !NonBlank("");
    } else {
      var k := |ls| - 1;
      assert ls == ls[..k] + [ls[k]];
      CountWhereAppend(ls[..k], [ls[k]], NonBlank);
      CountWhereAppend(ls[..k], [ls[k] + [c]], NonBlank);
      NonBlankSpace(c, ls[k]);
    }
  }

  lemma {:induction false} CountTrimLeft(s: string)
    ensures CountWhere(Lines(TrimLeft(s)), NonBlank) == CountWhere(Lines(s), NonBlank)
  {
    if s != [] && IsSpace(s[0]) {
      CountTrimLeft(s[1..]);
      assert s == [s[0]] + s[1..];
      CountAfterLeadingSpace(s[0], s[1..]);
    }
  }

  lemma {:induction false} CountTrimRight(s: string)
    ensures CountWhere(Lines(TrimRight(s)), NonBlank) == CountWhere(Lines(s), NonBlank)
  {
    if s != [] && IsSpace(s[|s| - 1]) {
      var t := s[..|s| - 1];
      CountTrimRight(t);
      assert s == t + [s[|s| - 1]];
      CountBeforeTrailingSpace(t, s[|s| - 1]);
    }
  }

  /** Trimming the text first does not matter: `countLines` counts exactly the non-blank lines of the text. */
  lemma CountLinesNonBlank(s: string)
    ensures CountLines(s) == CountWhere(Lines(s), NonBlank)
  {
    CountTrimRight(TrimLeft(s));
    CountTrimLeft(s);
  }

  // ---------------------------------------------------------------- patterns

  /** `Success rate is\s+(\d+)\s*percent` */
  const SUCCESS_RATE: seq<Token> := [Lit("Success rate is"), Spaces(true), Num, Spaces(false), Lit("percent")]
  /** `(\d+)/(\d+)` */
  const RATIO: seq<Token> := [Num, Lit("/"), Num]
  /** `(\d+)%\s*packet loss` */
  const PACKET_LOSS: seq<Token> := [Num, Lit("%"), Spaces(false), Lit("packet loss")]
  /** `(\d+)\s+packets received` */
  const PACKETS_RECEIVED: seq<Token> := [Num, Spaces(true), Lit("packets received")]
  /** `Total\s+(\d+)` */
  const TOTAL: seq<Token> := [Lit("Total"), Spaces(true), Num]
  /** `\s(\d+)\s*$` */
  const TRAILING_NUMBER: seq<Token> := [OneSpace, Num, Spaces(false), End]

  /** None of the toolkit's patterns needs backtracking, so the greedy scanner is exact on them. */
  lemma PatternsSeparated()
    ensures Separated(SUCCESS_RATE) && Separated(RATIO) && Separated(PACKET_LOSS)
    ensures Separated(PACKETS_RECEIVED) && Separated(TOTAL) && Separated(TRAILING_NUMBER)
  {
    SuccessRateSeparated();
    RatioSeparated();
    PacketLossSeparated();
    TrailingNumberSeparated();
  }

  lemma SuccessRateSeparated()
    ensures Separated(SUCCESS_RATE)
  {
    var pct := [Lit("percent")];
    assert FirstAvoids(pct, false) && FirstAvoids(pct, true);
    assert SUCCESS_RATE[2..] == [Num] + SUCCESS_RATE[3..];
    assert SUCCESS_RATE[3..] == [Spaces(false)] + pct;
    assert SUCCESS_RATE[4..] == pct;
  }

  lemma RatioSeparated()
    ensures Separated(RATIO)
  {
    assert RATIO[1..] == [Lit("/"), Num];
    assert FirstAvoids(RATIO[1..], true);
  }

  lemma PacketLossSeparated()
    ensures Separated(PACKET_LOSS)
  {
    assert PACKET_LOSS[3..] == [Lit("packet loss")];
  }

  lemma TrailingNumberSeparated()
    ensures Separated(TRAILING_NUMBER)
  {
    assert TRAILING_NUMBER[2..] == [Spaces(false), End];
    assert TRAILING_NUMBER[3..] == [End];
  }

  /** The value of the `k`-th group of a match, read as Go's `strconv.Atoi` does. */
  function Group(f: Found, k: nat): (v: nat)
    requires k < |f.caps| && DigitCaptures(f.caps)
    ensures v <= MAX_INT
  {
    Decimal(f.caps[k])
  }

  // ---------------------------------------------------------------- sumPfx

  /** One line's contribution to `sumPfx`: the number that ends it, when positive. */
  function LinePrefixes(line: string): (n: nat)
    ensures n <= MAX_INT
  {
    match Search(line, TRAILING_NUMBER)
    case Some(f) => Group(f, 0)
    case None => 0
  }

  function SumOver(ls: seq<string>): nat {
    if ls == [] then 0 else LinePrefixes(ls[0]) + SumOver(ls[1..])
  }

  /** `sumPfx`: the sum over all lines of the number each one ends with. */
  function SumPfx(s: string): nat {
    SumOver(Lines(s))
  }

  /** A line contributes exactly the number a reference match of `\s(\d+)\s*$` captures. */
  lemma LinePrefixesMeaning(line: string)
    ensures LinePrefixes(line) > 0 ==> exists q, e, caps :: 0 <= q <= |line| && Matches(line, TRAILING_NUMBER, q, e, caps)
    ensures (forall q :: 0 <= q <= |line| ==> !MatchesFrom(line, TRAILING_NUMBER, q)) ==> LinePrefixes(line) == 0
  {
    if LinePrefixes(line) > 0 {
      var f := Search(line, TRAILING_NUMBER).value;
      MatchAtSound(line, TRAILING_NUMBER, f.start);
    }
    if forall q :: 0 <= q <= |line| ==> !MatchesFrom(line, TRAILING_NUMBER, q) {
      SearchNone(line, TRAILING_NUMBER);
    }
  }

  lemma {:induction false} SumOverAppend(a: seq<string>, b: seq<string>)
    ensures SumOver(a + b) == SumOver(a) + SumOver(b)
  {
    if a == [] {
      assert a + b == b;
    } else {
      SumOverAppend(a[1..], b);
      assert (a + b)[1..] == a[1..] + b;
    }
  }

  /** Every line counts on its own: the sum over two texts joined by a newline is the sum of their sums. */
  lemma SumPfxAppend(a: string, b: string)
    ensures SumPfx(a + "\n" + b) == SumPfx(a) + SumPfx(b)
  {
    var la := Lines(a);
    var lb := Lines(b);
    JoinLinesOfLines(a);
    JoinLinesOfLines(b);
    JoinLinesAppend(la, lb);
    assert forall i :: 0 <= i < |la + lb| ==> '\n' !in (la + lb)[i];
    LinesOfJoinLines(la + lb);
    SumOverAppend(la, lb);
  }

  // ---------------------------------------------------------------- parseRoutes

  /** `parseRoutes`: the number after the first `Total`, else the count of non-blank lines. */
  function ParseRoutes(s: string): (n: nat)
    ensures Search(s, TOTAL).None? ==> n == CountWhere(Lines(s), NonBlank)
  {
    CountLinesNonBlank(s);
    match Search(s, TOTAL)
    case Some(f) => Group(f, 0)
    case None => CountLines(s)
  }

  /** `parseRoutes` reads the leftmost `Total\s+(\d+)` match; only without one does it count lines. */
  lemma ParseRoutesMeaning(s: string)
    ensures Search(s, TOTAL).Some? ==>
              Matches(s, TOTAL, Search(s, TOTAL).value.start, Search(s, TOTAL).value.end, Search(s, TOTAL).value.caps)
              && ParseRoutes(s) == Decimal(Search(s, TOTAL).value.caps[0])
              && forall q :: 0 <= q < Search(s, TOTAL).value.start ==> !MatchesFrom(s, TOTAL, q)
    ensures (forall q :: 0 <= q <= |s| ==> !MatchesFrom(s, TOTAL, q)) ==> ParseRoutes(s) == CountWhere(Lines(s), NonBlank)
  {
    PatternsSeparated();
    SearchMeaning(s, TOTAL);
    if forall q :: 0 <= q <= |s| ==> !MatchesFrom(s, TOTAL, q) {
      SearchNone(s, TOTAL);
    }
  }

  // ---------------------------------------------------------------- pingRate

  /** The `(\d+)\s+packets received` check behind the round-trip rule. */
  predicate ReceivedSome(s: string) {
    match Search(s, PACKETS_RECEIVED)
    case Some(f) => Group(f, 0) > 0
    case None => false
  }

  /** Round-trip statistics are printed, and the received count is positive. */
  predicate RoundTripSeen(s: string) {
    (Contains(s, "round-trip") || Contains(s, "rtt min")) && ReceivedSome(s)
  }

  /** An explicit full-success phrase. */
  predicate FullSuccessPhrase(s: string) {
    Contains(s, "100 percent") || Contains(s, "100%")
  }

  /** What the rules of `pingRate` look at in a transcript. */
  datatype PingEvidence = PingEvidence(
    success: Option<Found>,   // the leftmost "Success rate is N percent"
    ratio: Option<Found>,     // the leftmost "X/Y"
    loss: Option<Found>,      // the leftmost "X% packet loss"
    roundTrip: bool,          // round-trip statistics with a positive received count
    fullPhrase: bool)         // "100 percent" or "100%"

  /** Every match carries the groups its pattern captures. */
  predicate WellRead(ev: PingEvidence) {
    (ev.success.Some? ==> |ev.success.value.caps| == 1 && DigitCaptures(ev.success.value.caps))
    && (ev.ratio.Some? ==> |ev.ratio.value.caps| == 2 && DigitCaptures(ev.ratio.value.caps))
    && (ev.loss.Some? ==> |ev.loss.value.caps| == 1 && DigitCaptures(ev.loss.value.caps))
  }

  function Evidence(s: string): (ev: PingEvidence)
    ensures WellRead(ev)
    ensures ev.success == Search(s, SUCCESS_RATE) && ev.ratio == Search(s, RATIO) && ev.loss == Search(s, PACKET_LOSS)
    ensures ev.roundTrip == RoundTripSeen(s) && ev.fullPhrase == FullSuccessPhrase(s)
  {
    PingEvidence(Search(s, SUCCESS_RATE), Search(s, RATIO), Search(s, PACKET_LOSS), RoundTripSeen(s), FullSuccessPhrase(s))
  }

  /** The ratio rule applies: the first `X/Y` has a positive `Y`. */
  predicate RatioApplies(ev: PingEvidence)
    requires WellRead(ev)
  {
    ev.ratio.Some? && Group(ev.ratio.value, 1) > 0
  }

  /**
   * The rules of `pingRate`, tried in order. The source's last two rules
   * (the "0 percent" check and the default) both give 0.
   */
  function RateOf(ev: PingEvidence): (r: int)
    requires WellRead(ev)
    ensures ev.success.Some? ==> r == Group(ev.success.value, 0)
    ensures ev.success.None? && RatioApplies(ev) ==> r == Group(ev.ratio.value, 0) * 100 / Group(ev.ratio.value, 1)
    ensures ev.success.None? && !RatioApplies(ev) && ev.loss.Some? ==> r == 100 - Group(ev.loss.value, 0)
    ensures ev.success.None? && !RatioApplies(ev) && ev.loss.None? ==>
              (r == 100 <==> ev.roundTrip || ev.fullPhrase) && (r == 0 || r == 100)
  {
    match ev.success
    case Some(f) => Group(f, 0)
    case None =>
      if RatioApplies(ev) then
        var f := ev.ratio.value;
        Group(f, 0) * 100 / Group(f, 1)
      else
        match ev.loss
        case Some(f) => 100 - Group(f, 0)
        case None =>
          if ev.roundTrip then 100
          else if ev.fullPhrase then 100
          else 0
  }

  /** `pingRate`: the success percentage of a ping transcript. */
  function PingRate(s: string): int {
    RateOf(Evidence(s))
  }

  /** A ratio rule reading at most as many replies as probes gives a percentage. */
  lemma PingRateRatioBound(s: string)
    requires Search(s, SUCCESS_RATE).None? && RatioApplies(Evidence(s))
    requires Group(Search(s, RATIO).value, 0) <= Group(Search(s, RATIO).value, 1)
    ensures 0 <= PingRate(s) <= 100
  {
    var f := Search(s, RATIO).value;
    PercentAtMost(Group(f, 0), Group(f, 1));
  }

  /** `x * 100 / y` is a percentage when `x <= y`. */
  lemma PercentAtMost(x: nat, y: nat)
    requires x <= y && y > 0
    ensures 0 <= x * 100 / y <= 100
  {
    var q := x * 100 / y;
    assert q * y <= x * 100;
    assert x * 100 <= y * 100;
    assert (q - 100) * y <= 0;
  }

  /**
   * The first rule in terms of matches: a "Success rate is N percent"
   * anywhere decides, and the leftmost one is read.
   */
  lemma PingRateSuccessMeaning(s: string, q: nat)
    requires q <= |s| && MatchesFrom(s, SUCCESS_RATE, q)
    ensures Search(s, SUCCESS_RATE).Some?
    ensures var f := Search(s, SUCCESS_RATE).value;
            f.start <= q && Matches(s, SUCCESS_RATE, f.start, f.end, f.caps) && PingRate(s) == Decimal(f.caps[0])
            && forall p :: 0 <= p < f.start ==> !MatchesFrom(s, SUCCESS_RATE, p)
  {
    SuccessRateSeparated();
    SearchSome(s, SUCCESS_RATE, q);
    SearchMeaning(s, SUCCESS_RATE);
  }

  /** The second rule in terms of matches: with no success-rate line, the leftmost `X/Y` with `Y > 0` decides. */
  lemma PingRateRatioMeaning(s: string)
    requires forall q :: 0 <= q <= |s| ==> !MatchesFrom(s, SUCCESS_RATE, q)
    requires RatioApplies(Evidence(s))
    ensures var f := Search(s, RATIO).value;
            Matches(s, RATIO, f.start, f.end, f.caps) && PingRate(s) == Group(f, 0) * 100 / Group(f, 1)
            && forall p :: 0 <= p < f.start ==> !MatchesFrom(s, RATIO, p)
  {
    SearchNone(s, SUCCESS_RATE);
    RatioRule(s);
    RatioLeftmost(s);
  }

  /** With no success-rate line, an applicable ratio decides the rate. */
  lemma RatioRule(s: string)
    requires Search(s, SUCCESS_RATE).None? && RatioApplies(Evidence(s))
    ensures PingRate(s) == Group(Search(s, RATIO).value, 0) * 100 / Group(Search(s, RATIO).value, 1)
  {
    var ev := Evidence(s);
    assert RateOf(ev) == Group(ev.ratio.value, 0) * 100 / Group(ev.ratio.value, 1);
  }

  lemma RatioLeftmost(s: string)
    requires Search(s, RATIO).Some?
    ensures var f := Search(s, RATIO).value;
            Matches(s, RATIO, f.start, f.end, f.caps) && forall p :: 0 <= p < f.start ==> !MatchesFrom(s, RATIO, p)
  {
    RatioSeparated();
    SearchMeaning(s, RATIO);
  }
}
