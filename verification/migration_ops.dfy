/**
 * The operational helpers of the migration validation toolkit built on top
 * of its parsers: the device list removal, the MTU binary search, the
 * overall report verdict, the step rules of the BGP and drain monitors and
 * the command `singlePing` builds.
 */
module MigrationOps {
  import opened Common
  import opened Text
  import opened Pattern
  import opened Migration

  // ---------------------------------------------------------------- numbers typed at the menu

  /**
   * `n, _ := strconv.Atoi(line)`: the error is dropped, so a line that is
   * not a number reads as 0 and a number outside 64 bits reads as the
   * nearest 64-bit bound.
   */
  function TypedNumber(line: string): (v: int)
    ensures MIN_INT <= v <= MAX_INT
    ensures Atoi(line).None? ==> v == 0
    ensures Atoi(line).Some? && MIN_INT <= Atoi(line).value <= MAX_INT ==> v == Atoi(line).value
  {
    match Atoi(line)
    case None => 0
    case Some(n) => if n > MAX_INT then MAX_INT else if n < MIN_INT then MIN_INT else n
  }

  /** A number the toolkit itself would print is read back unchanged. */
  lemma TypedNumberOfNat(n: nat)
    requires n <= MAX_INT
    ensures TypedNumber(NatToString(n)) == n
  {
    AtoiOfNatToString(n);
  }

  // ---------------------------------------------------------------- removeDevice

  /** `append(list[:n-1], list[n:]...)` when `1 <= n <= len(list)`, and the list itself otherwise. */
  function RemoveAt<T>(list: seq<T>, n: int): (r: seq<T>)
    ensures 1 <= n <= |list| ==> |r| == |list| - 1
    ensures 1 <= n <= |list| ==> forall i :: 0 <= i < |r| ==> r[i] == (if i < n - 1 then list[i] else list[i + 1])
    ensures !(1 <= n <= |list|) ==> r == list
  {
    if 0 < n <= |list| then list[..n - 1] + list[n..] else list
  }

  /** Putting the removed element back at its place gives the original list. */
  lemma RemoveAtRestores<T>(list: seq<T>, n: int)
    requires 1 <= n <= |list|
    ensures RemoveAt(list, n)[..n - 1] + [list[n - 1]] + RemoveAt(list, n)[n - 1..] == list
  {
    var r := RemoveAt(list, n);
    assert r[..n - 1] == list[..n - 1];
    assert r[n - 1..] == list[n..];
    assert list == list[..n - 1] + [list[n - 1]] + list[n..];
  }

  /** Exactly one occurrence of the chosen element goes; the others stay. */
  lemma RemoveAtMultiset<T>(list: seq<T>, n: int)
    requires 1 <= n <= |list|
    ensures multiset(RemoveAt(list, n)) + multiset{list[n - 1]} == multiset(list)
  {
    var r := RemoveAt(list, n);
    RemoveAtRestores(list, n);
    assert r == r[..n - 1] + r[n - 1..];
    calc {
      multiset(list);
      multiset(r[..n - 1] + [list[n - 1]] + r[n - 1..]);
      multiset(r[..n - 1]) + multiset{list[n - 1]} + multiset(r[n - 1..]);
      multiset(r) + multiset{list[n - 1]};
    }
  }

  /**
   * `removeDevice`: an empty inventory is left alone; otherwise the typed
   * number selects the device to drop, 1-based, and anything else cancels.
   */
  function RemoveDevice(devices: seq<DeviceInfo>, typed: string): (r: seq<DeviceInfo>)
    ensures |r| == |devices| || |r| == |devices| - 1
    ensures multiset(r) <= multiset(devices)
  {
    if |devices| == 0 then devices
    else
      var n := TypedNumber(typed);
      if 1 <= n <= |devices| then RemoveAtMultiset(devices, n); RemoveAt(devices, n)
      else RemoveAt(devices, n)
  }

  /** Typing the number shown next to a device removes that device and no other. */
  lemma RemoveDeviceByNumber(devices: seq<DeviceInfo>, n: nat)
    requires 1 <= n <= |devices| && n <= MAX_INT
    ensures var r := RemoveDevice(devices, NatToString(n));
            |r| == |devices| - 1 && multiset(r) + multiset{devices[n - 1]} == multiset(devices)
            && r[..n - 1] == devices[..n - 1] && r[n - 1..] == devices[n..]
  {
    TypedNumberOfNat(n);
    RemoveAtMultiset(devices, n);
  }

  /** Zero, an out-of-range number or a line that is not a number leaves the inventory unchanged. */
  lemma RemoveDeviceCancels(devices: seq<DeviceInfo>, typed: string)
    requires |devices| < MAX_INT
    requires Atoi(typed).None? || Atoi(typed).value <= 0 || |devices| < Atoi(typed).value
    ensures RemoveDevice(devices, typed) == devices
  {
    var n := TypedNumber(typed);
    assert n <= 0 || |devices| < n;
  }

  // ---------------------------------------------------------------- findMTU

  const MTU_LOW: nat := 1500
  const MTU_HIGH: nat := 9000

  /** The don't-fragment probe `findMTU` sends for one size, in the device's syntax. */
  function MtuProbe(d: DeviceInfo, vrf: string, src: string, dst: string, size: nat): string {
    "ping vrf " + vrf + " " + dst + " source " + src + " size " + NatToString(size) + " df-bit "
    + (if IsXr(d) then "count 3" else "repeat 3")
  }

  /** The probe of `size` bytes came back complete: `pingRate` of the reply is 100. */
  predicate Passes(d: DeviceInfo, vrf: string, src: string, dst: string, reply: string -> string, size: nat) {
    PingRate(reply(MtuProbe(d, vrf, src, dst, size))) == 100
  }

  /**
   * What a finished search knows about an oracle: `best` passed and the next
   * size failed (or `best` is the top of the range), or `best` is the bottom
   * of the range and failed itself.
   */
  predicate Boundary(ok: nat -> bool, best: nat) {
    MTU_LOW <= best <= MTU_HIGH
    && ((ok(best) && (best == MTU_HIGH || !ok(best + 1))) || (best == MTU_LOW && !ok(MTU_LOW)))
  }

  /** The oracle passes exactly the sizes of the range up to `t`. */
  predicate Threshold(ok: nat -> bool, t: int) {
    forall s: nat :: MTU_LOW <= s <= MTU_HIGH ==> (ok(s) <==> s <= t)
  }

  function Clamp(t: int): (c: int)
    ensures MTU_LOW <= c <= MTU_HIGH
    ensures MTU_LOW <= t <= MTU_HIGH ==> c == t
  {
    if t < MTU_LOW then MTU_LOW else if t > MTU_HIGH then MTU_HIGH else t
  }

  /** The ping oracle `findMTU` consults, as a function of the size. */
  function MtuOracle(d: DeviceInfo, vrf: string, src: string, dst: string, reply: string -> string): nat -> bool {
    (size: nat) => Passes(d, vrf, src, dst, reply, size)
  }

  /**
   * The binary search of `findMTU` over [1500, 9000], one oracle call per
   * step: a passing size moves the floor above it, a failing one moves the
   * ceiling below it.
   */
  method SearchBoundary(ok: nat -> bool) returns (best: nat)
    ensures Boundary(ok, best)
  {
    var low, high := MTU_LOW as int, MTU_HIGH as int;
    best := MTU_LOW;
    while low <= high
      invariant MTU_LOW <= low <= high + 1 <= MTU_HIGH + 1
      invariant MTU_LOW <= best <= MTU_HIGH
      invariant (best == low - 1 && ok(best)) || (low == MTU_LOW && best == MTU_LOW)
      invariant high == MTU_HIGH || !ok(high + 1)
      decreases high - low + 1
    {
      var mid := (low + high) / 2;
      if ok(mid) {
        best := mid;
        low := mid + 1;
      } else {
        high := mid - 1;
      }
    }
  }

  /**
   * `findMTU`: the search with the device's answer to each probe command
   * given by `reply`; a size passes when `pingRate` of the answer is 100.
   */
  method FindMtu(d: DeviceInfo, vrf: string, src: string, dst: string, reply: string -> string) returns (best: nat)
    ensures Boundary(MtuOracle(d, vrf, src, dst, reply), best)
  {
    best := SearchBoundary(MtuOracle(d, vrf, src, dst, reply));
  }

  /** Under a threshold oracle the boundary is the threshold clamped to the search range. */
  lemma BoundaryIsThreshold(ok: nat -> bool, t: int, best: nat)
    requires Boundary(ok, best) && Threshold(ok, t)
    ensures best == Clamp(t)
  {
    assert ok(best) <==> best <= t;
    if ok(best) && best < MTU_HIGH {
      assert ok(best + 1) <==> best + 1 <= t;
    }
  }

  /** A threshold oracle has one boundary only. */
  lemma BoundaryUnique(ok: nat -> bool, t: int, a: nat, b: nat)
    requires Threshold(ok, t) && Boundary(ok, a) && Boundary(ok, b)
    ensures a == b
  {
    BoundaryIsThreshold(ok, t, a);
    BoundaryIsThreshold(ok, t, b);
  }

  // ---------------------------------------------------------------- report verdict

  datatype Verdict = Pass | Warning | Fail

  predicate IsFail(status: string) { status == "FAIL" }
  predicate IsWarn(status: string) { status == "WARN" }

  /** The overall verdict of a run: any FAIL fails it, else any WARN makes it a warning. */
  function Overall(statuses: seq<string>): (v: Verdict)
    ensures v == Fail <==> exists i :: 0 <= i < |statuses| && IsFail(statuses[i])
    ensures v == Warning <==> (forall i :: 0 <= i < |statuses| ==> !IsFail(statuses[i]))
                              && exists i :: 0 <= i < |statuses| && IsWarn(statuses[i])
  {
    var fail := CountWhere(statuses, IsFail);
    var warn := CountWhere(statuses, IsWarn);
    if fail > 0 then Fail else if warn > 0 then Warning else Pass
  }

  function Rank(v: Verdict): nat {
    match v
    case Pass => 0
    case Warning => 1
    case Fail => 2
  }

  /** The more severe of two verdicts. */
  function Worst(a: Verdict, b: Verdict): (w: Verdict)
    ensures Rank(w) >= Rank(a) && Rank(w) >= Rank(b)
    ensures w == a || w == b
  {
    if Rank(a) >= Rank(b) then a else b
  }

  /** The verdict of two runs together is the worse of their verdicts. */
  lemma OverallAppend(a: seq<string>, b: seq<string>)
    ensures Overall(a + b) == Worst(Overall(a), Overall(b))
  {
    var ab := a + b;
    forall i | 0 <= i < |a| ensures ab[i] == a[i] { }
    forall i | 0 <= i < |b| ensures ab[|a| + i] == b[i] { }
    if Overall(a) == Fail {
      var i :| 0 <= i < |a| && IsFail(a[i]);
      assert IsFail(ab[i]);
    } else if Overall(b) == Fail {
      var i :| 0 <= i < |b| && IsFail(b[i]);
      assert IsFail(ab[|a| + i]);
    } else {
      assert forall i :: 0 <= i < |ab| ==> !IsFail(ab[i]) by {
        forall i | 0 <= i < |ab| ensures !IsFail(ab[i]) {
          if i >= |a| { assert ab[i] == b[i - |a|]; }
        }
      }
      if Overall(a) == Warning {
        var i :| 0 <= i < |a| && IsWarn(a[i]);
        assert IsWarn(ab[i]);
      } else if Overall(b) == Warning {
        var i :| 0 <= i < |b| && IsWarn(b[i]);
        assert IsWarn(ab[|a| + i]);
      } else {
        forall i | 0 <= i < |ab| ensures !IsWarn(ab[i]) {
          if i >= |a| { assert ab[i] == b[i - |a|]; }
        }
      }
    }
  }

  /** `genHTML`: no report at all without results, else the overall verdict heads it. */
  function Report(statuses: seq<string>): (r: Option<Verdict>)
    ensures r.None? <==> statuses == []
    ensures r.Some? ==> r.value == Overall(statuses)
  {
    if statuses == [] then None else Some(Overall(statuses))
  }

  // ---------------------------------------------------------------- bgpMon

  datatype Trend = Stable | Converging | Diverging

  /** The status line of one BGP sample, against the previous count (0 before the first). */
  function BgpTrend(last: nat, cnt: nat): (t: Trend)
    ensures t == Converging <==> last != 0 && cnt > last
    ensures t == Diverging <==> last != 0 && cnt < last
  {
    if cnt != last && last != 0 then (if cnt > last then Converging else Diverging) else Stable
  }

  /** Reading two non-zero samples in the opposite order swaps converging and diverging. */
  lemma BgpTrendReverses(a: nat, b: nat)
    requires a != 0 && b != 0
    ensures BgpTrend(a, b) == Converging <==> BgpTrend(b, a) == Diverging
    ensures BgpTrend(a, b) == Stable <==> BgpTrend(b, a) == Stable
  {
  }

  datatype Sample = Sample(prefixes: nat, trend: Trend)

  const BGP_SAMPLES: nat := 20

  /** Twenty samples of a count, each with its trend against the one before it. */
  method Track(count: nat -> nat) returns (samples: seq<Sample>)
    ensures |samples| == BGP_SAMPLES
    ensures forall i :: 0 <= i < |samples| ==> samples[i].prefixes == count(i)
    ensures samples[0].trend == Stable
    ensures forall i :: 1 <= i < |samples| ==> samples[i].trend == BgpTrend(samples[i - 1].prefixes, samples[i].prefixes)
  {
    samples := [];
    var last := 0;
    var i := 0;
    while i < BGP_SAMPLES
      invariant i == |samples| <= BGP_SAMPLES
      invariant forall k :: 0 <= k < i ==> samples[k].prefixes == count(k)
      invariant i > 0 ==> samples[0].trend == Stable
      invariant forall k :: 1 <= k < i ==> samples[k].trend == BgpTrend(samples[k - 1].prefixes, samples[k].prefixes)
      invariant last == if i == 0 then 0 else samples[i - 1].prefixes
    {
      var cnt := count(i);
      samples := samples + [Sample(cnt, BgpTrend(last, cnt))];
      last := cnt;
      i := i + 1;
    }
  }

  /** `bgpMon`: twenty samples of the established prefix total; `poll(i)` is the i-th output. */
  method BgpMon(poll: nat -> string) returns (samples: seq<Sample>)
    ensures |samples| == BGP_SAMPLES
    ensures forall i :: 0 <= i < |samples| ==> samples[i].prefixes == SumPfx(poll(i))
    ensures samples[0].trend == Stable
    ensures forall i :: 1 <= i < |samples| ==> samples[i].trend == BgpTrend(samples[i - 1].prefixes, samples[i].prefixes)
  {
    samples := Track((i: nat) => SumPfx(poll(i)));
  }

  // ---------------------------------------------------------------- drainMon

  /** One rate sample of the watched interface, in whole units. */
  datatype Rates = Rates(inRate: int, outRate: int)

  /** The larger of the two rates is below the threshold. */
  predicate Quiet(r: Rates, threshold: int) {
    (if r.outRate > r.inRate then r.outRate else r.inRate) < threshold
  }

  /** How many polls immediately before poll `i` were quiet in a row. */
  function QuietRun(poll: nat -> Rates, threshold: int, i: nat): (n: nat)
    ensures n <= i
  {
    if i == 0 || !Quiet(poll(i - 1), threshold) then 0 else QuietRun(poll, threshold, i - 1) + 1
  }

  /** The run counts exactly the trailing quiet polls. */
  lemma {:induction false} QuietRunMeaning(poll: nat -> Rates, threshold: int, i: nat, n: nat)
    requires n <= i
    ensures QuietRun(poll, threshold, i) >= n <==> forall k :: i - n <= k < i ==> Quiet(poll(k), threshold)
  {
    if n > 0 {
      QuietRunMeaning(poll, threshold, i - 1, n - 1);
      if !Quiet(poll(i - 1), threshold) {
        assert !(forall k :: i - n <= k < i ==> Quiet(poll(k), threshold));
      }
    }
  }

  const DRAIN_POLLS: nat := 30
  const DRAIN_STABLE: nat := 6

  /**
   * `drainMon`: poll up to thirty times and declare the drain complete on
   * the sixth quiet poll in a row. Returns whether it completed and how many
   * polls were made.
   */
  method DrainMon(poll: nat -> Rates, threshold: int) returns (complete: bool, polls: nat)
    ensures polls <= DRAIN_POLLS
    ensures complete ==> DRAIN_STABLE <= polls && QuietRun(poll, threshold, polls) >= DRAIN_STABLE
    ensures !complete ==> polls == DRAIN_POLLS
    ensures forall j :: 0 <= j < polls ==> QuietRun(poll, threshold, j) < DRAIN_STABLE
    ensures !complete ==> QuietRun(poll, threshold, polls) < DRAIN_STABLE
  {
    var stable := 0;
    var i := 0;
    while i < DRAIN_POLLS
      invariant i <= DRAIN_POLLS
      invariant stable == QuietRun(poll, threshold, i) < DRAIN_STABLE
      invariant forall j :: 0 <= j <= i ==> QuietRun(poll, threshold, j) < DRAIN_STABLE
    {
      if Quiet(poll(i), threshold) {
        stable := stable + 1;
        if stable >= DRAIN_STABLE {
          return true, i + 1;
        }
      } else {
        stable := 0;
      }
      i := i + 1;
    }
    return false, DRAIN_POLLS;
  }

  /** Completion means the six polls before it were all quiet. */
  lemma DrainCompleteMeaning(poll: nat -> Rates, threshold: int, polls: nat)
    requires DRAIN_STABLE <= polls && QuietRun(poll, threshold, polls) >= DRAIN_STABLE
    ensures forall k :: polls - DRAIN_STABLE <= k < polls ==> Quiet(poll(k), threshold)
  {
    QuietRunMeaning(poll, threshold, polls, DRAIN_STABLE);
  }

  // ---------------------------------------------------------------- singlePing

  /** The repeat count typed at the prompt: a positive number, else 5. */
  function PingCount(typed: string): (c: nat)
    ensures c >= 1
  {
    var v := TypedNumber(typed);
    if v > 0 then v else 5
  }

  /** A positive number is taken as typed; a blank line or 0 gives the default of 5. */
  lemma PingCountMeaning(n: nat)
    requires n <= MAX_INT
    ensures n >= 1 ==> PingCount(NatToString(n)) == n
    ensures n == 0 ==> PingCount(NatToString(n)) == 5
    ensures PingCount("") == 5
  {
    TypedNumberOfNat(n);
  }

  /** Blank, "default" and "global" all mean the global routing table. */
  predicate GlobalVrf(vrf: string) {
    vrf == "" || vrf == "default" || vrf == "global"
  }

  /** The repeat clause in the device's syntax. */
  function RepeatClause(d: DeviceInfo, cnt: nat): string {
    (if IsXr(d) then " count " else " repeat ") + NatToString(cnt)
  }

  /** The command `singlePing` sends. */
  function SinglePingCommand(d: DeviceInfo, vrf: string, dst: string, cnt: nat): (cmd: string)
    ensures HasSuffix(cmd, RepeatClause(d, cnt))
    ensures !GlobalVrf(vrf) ==> HasPrefix(cmd, "ping vrf " + vrf + " " + dst)
                                && |cmd| == 10 + |vrf| + |dst| + |RepeatClause(d, cnt)|
    ensures GlobalVrf(vrf) ==> HasPrefix(cmd, "ping " + dst) && |cmd| == 5 + |dst| + |RepeatClause(d, cnt)|
  {
    var head := if GlobalVrf(vrf) then "ping " + dst else "ping vrf " + vrf + " " + dst;
    var cmd := head + RepeatClause(d, cnt);
    assert cmd[..|head|] == head;
    assert cmd[|cmd| - |RepeatClause(d, cnt)|..] == RepeatClause(d, cnt);
    cmd
  }

  /** The count at the end of the command reads back as the count asked for. */
  lemma SinglePingCountReadsBack(d: DeviceInfo, vrf: string, dst: string, cnt: nat)
    ensures var cmd := SinglePingCommand(d, vrf, dst, cnt);
            var digits := NatToString(cnt);
            |digits| <= |cmd| && Atoi(cmd[|cmd| - |digits|..]) == Some(cnt)
  {
    var cmd := SinglePingCommand(d, vrf, dst, cnt);
    var digits := NatToString(cnt);
    var clause := RepeatClause(d, cnt);
    assert clause[|clause| - |digits|..] == digits;
    assert cmd[|cmd| - |digits|..] == clause[|clause| - |digits|..];
    AtoiOfNatToString(cnt);
  }
}
