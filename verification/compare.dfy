/**
 * The pre/post-migration comparison of the health-check tool: the device
 * inventory read from CSV rows, the metrics extracted from each command's
 * output, the metric rows loaded back from a summary file, and the status
 * rule that compares a metric's two values. The lab tool's column-letter
 * extraction sits here too, as it reads the same kind of inventory.
 */
module Compare {
  import opened Common
  import opened Text
  import opened Pattern
  import opened DeviceOs

  // ---------------------------------------------------------------- parseCSV

  /** One inventory entry of the health-check tool. */
  datatype HealthDevice = HealthDevice(
    hostname: string, ipAddress: string, deviceType: string, site: string, role: string, detectedOs: OsType)

  /** The trimmed `k`-th field of a record, or "" when the record is shorter. */
  function Field(record: seq<string>, k: nat): (f: string)
    ensures k >= |record| ==> f == ""
  {
    if k < |record| then TrimSpace(record[k]) else ""
  }

  /** A record that names a device: at least two fields, hostname and address not blank. */
  predicate DeviceRow(record: seq<string>) {
    |record| >= 2 && Field(record, 0) != "" && Field(record, 1) != ""
  }

  /** The entry a device row describes, classified by the given version's rules. */
  function RowDevice(record: seq<string>, detect: string -> OsType): HealthDevice {
    HealthDevice(Field(record, 0), Field(record, 1), Field(record, 2), Field(record, 3), Field(record, 4),
                 detect(Field(record, 2)))
  }

  /** What every stored entry satisfies: keyed by its upper-cased hostname, names and address present. */
  predicate WellKeyed(devices: map<string, HealthDevice>, detect: string -> OsType) {
    forall k :: k in devices ==>
      k == ToUpper(devices[k].hostname) && devices[k].hostname != "" && devices[k].ipAddress != ""
      && devices[k].detectedOs == detect(devices[k].deviceType)
  }

  /** The data rows, read in order; a later row for the same upper-cased hostname replaces an earlier one. */
  function DeviceRows(rows: seq<seq<string>>, detect: string -> OsType): (devices: map<string, HealthDevice>)
    ensures WellKeyed(devices, detect)
    ensures forall k :: k in devices ==> exists i :: 0 <= i < |rows| && DeviceRow(rows[i]) && ToUpper(Field(rows[i], 0)) == k
  {
    if rows == [] then map[]
    else
      var before := DeviceRows(rows[..|rows| - 1], detect);
      var row := rows[|rows| - 1];
      if DeviceRow(row) then
        before[ToUpper(Field(row, 0)) := RowDevice(row, detect)]
      else before
  }

  /** `parseCSV`: the first record is the header and is skipped. */
  function ParseCsv(records: seq<seq<string>>, detect: string -> OsType): (devices: map<string, HealthDevice>)
    ensures WellKeyed(devices, detect)
  {
    if records == [] then map[] else DeviceRows(records[1..], detect)
  }

  /** v2.2's `parseCSV`, classifying with v2.2's rules. */
  function ParseCsvV22(records: seq<seq<string>>): map<string, HealthDevice> {
    ParseCsv(records, DetectV22)
  }

  /** v2.3's `parseCSV`, classifying with v2.3's rules. */
  function ParseCsvV23(records: seq<seq<string>>): map<string, HealthDevice> {
    ParseCsv(records, DetectV23)
  }

  /** A device row read last determines its entry; other entries stay as they were. */
  lemma LastRowWins(rows: seq<seq<string>>, row: seq<string>, detect: string -> OsType)
    requires DeviceRow(row)
    ensures var d := DeviceRows(rows + [row], detect);
            d[ToUpper(Field(row, 0))] == RowDevice(row, detect)
            && forall k :: k in DeviceRows(rows, detect) && k != ToUpper(Field(row, 0)) ==> k in d && d[k] == DeviceRows(rows, detect)[k]
  {
    assert (rows + [row])[..|rows|] == rows;
  }

  /** A row that does not name a device changes nothing. */
  lemma SkippedRow(rows: seq<seq<string>>, row: seq<string>, detect: string -> OsType)
    requires !DeviceRow(row)
    ensures DeviceRows(rows + [row], detect) == DeviceRows(rows, detect)
  {
    assert (rows + [row])[..|rows|] == rows;
  }

  /** Hostnames differing only in letter case land on one entry. */
  lemma CaseFoldedKey(a: seq<string>, b: seq<string>, detect: string -> OsType)
    requires DeviceRow(a) && DeviceRow(b) && ToUpper(Field(a, 0)) == ToUpper(Field(b, 0))
    ensures DeviceRows([a, b], detect) == map[ToUpper(Field(b, 0)) := RowDevice(b, detect)]
  {
    assert [a, b][..1] == [a];
    assert [a][..0] == [];
  }

  // ---------------------------------------------------------------- loadCSVData

  /** The comparison key of one metric: `host|command_metric`. */
  function MetricKey(host: string, command: string, metric: string): string {
    host + "|" + command + "_" + metric
  }

  /** A summary record with all nine columns; columns 2, 6, 7 and 8 hold host, command, metric and value. */
  predicate MetricRow(record: seq<string>) {
    |record| >= 9
  }

  function MetricRows(rows: seq<seq<string>>): (data: map<string, string>)
    ensures forall k :: k in data ==> exists i :: 0 <= i < |rows| && MetricRow(rows[i])
                                         && k == MetricKey(rows[i][2], rows[i][6], rows[i][7])
  {
    if rows == [] then map[]
    else
      var before := MetricRows(rows[..|rows| - 1]);
      var row := rows[|rows| - 1];
      if MetricRow(row) then before[MetricKey(row[2], row[6], row[7]) := row[8]] else before
  }

  /**
   * `csv.Reader.ReadAll` with the default `FieldsPerRecord`: every record
   * must have as many fields as the first one. The index of the first record
   * that does not, if any.
   */
  function WidthMismatch(records: seq<seq<string>>): (r: Option<nat>)
    requires records != []
    ensures r.None? <==> forall i :: 0 <= i < |records| ==> |records[i]| == |records[0]|
    ensures r.Some? ==> r.value < |records| && |records[r.value]| != |records[0]|
                        && forall j :: 0 <= j < r.value ==> |records[j]| == |records[0]|
  {
    FirstWhere(records, (rec: seq<string>) => |rec| != |records[0]|)
  }

  /**
   * `loadCSVData`: the read fails, naming the offending record, when a record
   * is wider or narrower than the header; otherwise the header is skipped and
   * records with fewer than nine columns are ignored.
   */
  function LoadCsvData(records: seq<seq<string>>): (r: Result<map<string, string>, nat>)
    ensures records == [] ==> r == Ok(map[])
    ensures r.Err? <==> records != [] && exists i :: 0 <= i < |records| && |records[i]| != |records[0]|
    ensures r.Err? ==> r.error < |records| && |records[r.error]| != |records[0]|
  {
    if records == [] then Ok(map[])
    else match WidthMismatch(records)
      case Some(i) => Err(i)
      case None => Ok(MetricRows(records[1..]))
  }

  /** A loaded file's data are the metrics of its records after the header. */
  lemma LoadedMetrics(records: seq<seq<string>>)
    requires records != [] && LoadCsvData(records).Ok?
    ensures LoadCsvData(records).value == MetricRows(records[1..])
  {
  }

  /** With a header of fewer than nine columns every record is short, so a successful load holds no metric. */
  lemma {:induction false} NarrowFileNoMetrics(records: seq<seq<string>>)
    requires records != [] && |records[0]| < 9 && LoadCsvData(records).Ok?
    ensures LoadCsvData(records).value == map[]
  {
    var rows := records[1..];
    assert forall i :: 0 <= i < |rows| ==> !MetricRow(rows[i]);
    NoMetricRows(rows);
  }

  lemma {:induction false} NoMetricRows(rows: seq<seq<string>>)
    requires forall i :: 0 <= i < |rows| ==> !MetricRow(rows[i])
    ensures MetricRows(rows) == map[]
  {
    if rows != [] {
      NoMetricRows(rows[..|rows| - 1]);
    }
  }

  /** The value of a metric is the one on the last record for it. */
  lemma LastMetricWins(rows: seq<seq<string>>, row: seq<string>)
    requires MetricRow(row)
    ensures MetricRows(rows + [row])[MetricKey(row[2], row[6], row[7])] == row[8]
    ensures forall k :: k in MetricRows(rows) && k != MetricKey(row[2], row[6], row[7]) ==>
              k in MetricRows(rows + [row]) && MetricRows(rows + [row])[k] == MetricRows(rows)[k]
  {
    assert (rows + [row])[..|rows|] == rows;
  }

  /** A short record changes nothing. */
  lemma ShortMetricRowIgnored(rows: seq<seq<string>>, row: seq<string>)
    requires !MetricRow(row)
    ensures MetricRows(rows + [row]) == MetricRows(rows)
  {
    assert (rows + [row])[..|rows|] == rows;
  }

  /** A host with no '|' in its name is read back as the text before the key's first '|'. */
  lemma MetricKeyHost(host: string, command: string, metric: string)
    requires '|' !in host
    ensures IndexOf(MetricKey(host, command, metric), "|") == |host|
  {
    var key := MetricKey(host, command, metric);
    assert OccursAt(key, "|", |host|);
    forall j | 0 <= j < |host| ensures !OccursAt(key, "|", j) {
      assert key[j..j + 1][0] == key[j] == host[j];
    }
  }

  // ---------------------------------------------------------------- comparePhases status

  datatype Status = Unchanged | Decreased | Increased | Changed

  /** The status of one metric: equal text is OK, two numbers compare by value, anything else changed. */
  function CompareStatus(pre: string, post: string): (st: Status)
    ensures st == Changed <==> pre != post && (ParseInt(pre).None? || ParseInt(post).None?)
    ensures st == Decreased <==> pre != post && ParseInt(pre).Some? && ParseInt(post).Some? && ParseInt(post).value < ParseInt(pre).value
    ensures st == Increased <==> pre != post && ParseInt(pre).Some? && ParseInt(post).Some? && ParseInt(post).value > ParseInt(pre).value
  {
    if pre == post then Unchanged
    else
      match (ParseInt(pre), ParseInt(post))
      case (Some(a), Some(b)) => if b < a then Decreased else if b > a then Increased else Unchanged
      case _ => Changed
  }

  /** Swapping the phases swaps DECREASED and INCREASED and keeps OK and CHANGED. */
  lemma CompareStatusSwap(pre: string, post: string)
    ensures CompareStatus(pre, post) == Decreased <==> CompareStatus(post, pre) == Increased
    ensures CompareStatus(pre, post) == Unchanged <==> CompareStatus(post, pre) == Unchanged
    ensures CompareStatus(pre, post) == Changed <==> CompareStatus(post, pre) == Changed
  {
  }

  /** Differently written equal numbers ("007" and "7") compare OK. */
  lemma SameNumberOk(pre: string, post: string)
    requires ParseInt(pre).Some? && ParseInt(post).Some? && ParseInt(pre).value == ParseInt(post).value
    ensures CompareStatus(pre, post) == Unchanged
  {
  }

  /** A metric missing from one phase reads as "", which is not a number: CHANGED unless both are missing. */
  lemma MissingMetricChanged(value: string)
    requires value != ""
    ensures CompareStatus("", value) == Changed && CompareStatus(value, "") == Changed
  {
  }

  /** `strings.Split` on a one-character separator. */
  function SplitOn(s: string, sep: char): (parts: seq<string>)
    ensures |parts| >= 1
    ensures forall i :: 0 <= i < |parts| ==> sep !in parts[i]
  {
    if s == [] then [""]
    else
      var rest := SplitOn(s[1..], sep);
      if s[0] == sep then [""] + rest else [[s[0]] + rest[0]] + rest[1..]
  }

  /** Splitting at the first separator: the text before it is the first part. */
  lemma {:induction false} SplitOnFirst(x: string, y: string, sep: char)
    requires sep !in x
    ensures SplitOn(x + [sep] + y, sep) == [x] + SplitOn(y, sep)
  {
    var s := x + [sep] + y;
    if x == [] {
      assert s == [sep] + y && s[1..] == y;
    } else {
      assert s[0] == x[0] && s[1..] == x[1..] + [sep] + y;
      SplitOnFirst(x[1..], y, sep);
      assert [x[0]] + x[1..] == x;
    }
  }

  /** A missing key reads as Go's zero value, the empty string. */
  function Lookup(data: map<string, string>, key: string): (v: string)
    ensures key !in data ==> v == ""
  {
    if key in data then data[key] else ""
  }

  /** The status reported for `metric` of `host`, looked up again under `host|metric` in both phases. */
  function ReportedStatus(pre: map<string, string>, post: map<string, string>, host: string, metric: string): Status {
    CompareStatus(Lookup(pre, host + "|" + metric), Lookup(post, host + "|" + metric))
  }

  /** The metric part `comparePhases` reads from a key: the second of its '|'-separated parts. */
  function MetricOfKeyAsWritten(key: string): (r: Option<string>)
    ensures r.Some? ==> '|' !in r.value
  {
    var parts := SplitOn(key, '|');
    if |parts| >= 2 then Some(parts[1]) else None
  }

  /** The metric part as evidently meant: everything after the host's '|'. */
  function MetricOfKey(key: string): (r: Option<string>)
    ensures r.None? <==> !Contains(key, "|")
    ensures r.Some? ==> HasSuffix(key, r.value) && |r.value| < |key|
  {
    var i := IndexOf(key, "|");
    if i == -1 then None else Some(key[i + 1..])
  }

  /**
   * As written, a command holding a '|' (a piped `show` command) is cut at
   * that '|', the shortened key is found in neither phase, and the metric is
   * reported OK whatever its two values were.
   */
  lemma PipedCommandMasksChange(host: string, a: string, b: string, metric: string, v1: string, v2: string)
    requires '|' !in host && '|' !in a
    requires CompareStatus(v1, v2) != Unchanged
    ensures var key := MetricKey(host, a + "|" + b, metric);
            MetricOfKeyAsWritten(key) == Some(a)
            && ReportedStatus(map[key := v1], map[key := v2], host, a) == Unchanged
  {
    var key := MetricKey(host, a + "|" + b, metric);
    var tail := b + "_" + metric;
    assert key == host + ['|'] + (a + ['|'] + tail);
    SplitOnFirst(host, a + ['|'] + tail, '|');
    SplitOnFirst(a, tail, '|');
    assert |host + "|" + a| < |key|;
  }

  /** With the metric taken as everything after the host, each key reads back as itself. */
  lemma MetricOfKeyRecovers(host: string, command: string, metric: string)
    requires '|' !in host
    ensures var key := MetricKey(host, command, metric);
            MetricOfKey(key) == Some(command + "_" + metric) && host + "|" + MetricOfKey(key).value == key
  {
    MetricKeyHost(host, command, metric);
    var key := MetricKey(host, command, metric);
    assert key[|host| + 1..] == command + "_" + metric;
  }

  /** So the corrected reading reports the status of the two recorded values. */
  lemma ReportedStatusCorrected(pre: map<string, string>, post: map<string, string>, host: string, command: string, metric: string)
    requires '|' !in host
    ensures var key := MetricKey(host, command, metric);
            MetricOfKey(key).Some?
            && ReportedStatus(pre, post, host, MetricOfKey(key).value) == CompareStatus(Lookup(pre, key), Lookup(post, key))
  {
    MetricOfKeyRecovers(host, command, metric);
  }

  // ---------------------------------------------------------------- extractMetrics

  /** `\d+\.\d+\.\d+\.\d+`. */
  const IPV4: seq<Token> := [Num, Lit("."), Num, Lit("."), Num, Lit("."), Num]

  /** `^\d+\.\d+\.\d+\.\d+$`. */
  const IPV4_EXACT: seq<Token> := IPV4 + [End]

  /** The line holds a dotted quad somewhere. */
  predicate HasIpv4(line: string) {
    Search(line, IPV4).Some?
  }

  /** The word is a dotted quad and nothing else. */
  predicate IsIpv4(w: string) {
    MatchAt(w, IPV4_EXACT, 0).Some?
  }

  /** The output family a command belongs to, tried in the order of the source's `switch`. */
  datatype Kind = Version | Ospf | Bgp | Ldp | Interfaces | Vrfs | Bfd | L2vpn | Other

  function KindOf(command: string): Kind {
    if Contains(command, "show version") then Version
    else if Contains(command, "ospf neighbor") then Ospf
    else if Contains(command, "bgp summary") || Contains(command, "bgp vpnv4") then Bgp
    else if Contains(command, "mpls ldp neighbor") then Ldp
    else if Contains(command, "interface") && Contains(command, "brief") then Interfaces
    else if Contains(command, "show vrf") then Vrfs
    else if Contains(command, "bfd") then Bfd
    else if Contains(command, "xconnect") || Contains(command, "l2vpn") then L2vpn
    else Other
  }

  /** `extractAfter`: the trimmed text after the first occurrence of `marker`, or "". */
  function ExtractAfter(line: string, marker: string): (r: string)
    ensures !Contains(line, marker) ==> r == ""
  {
    var i := IndexOf(line, marker);
    if i == -1 then "" else TrimSpace(line[i + |marker|..])
  }

  /** When `marker` first occurs right after `pre`, what follows it is returned, trimmed. */
  lemma ExtractAfterMeaning(pre: string, marker: string, rest: string)
    requires forall j :: 0 <= j < |pre| ==> !OccursAt(pre + marker + rest, marker, j)
    ensures ExtractAfter(pre + marker + rest, marker) == TrimSpace(rest)
  {
    var s := pre + marker + rest;
    assert s[|pre|..|pre| + |marker|] == marker;
    assert OccursAt(s, marker, |pre|);
    assert s[|pre| + |marker|..] == rest;
  }

  /** The last element satisfying `p`, if any. */
  function LastWhere(lines: seq<string>, p: string -> bool): (r: Option<string>)
    ensures r.None? <==> forall i :: 0 <= i < |lines| ==> !p(lines[i])
    ensures r.Some? ==> exists i :: 0 <= i < |lines| && lines[i] == r.value && p(r.value)
                                    && forall j :: i < j < |lines| ==> !p(lines[j])
  {
    if lines == [] then None
    else
      var last := lines[|lines| - 1];
      if p(last) then Some(last)
      else
        var r := LastWhere(lines[..|lines| - 1], p);
        assert forall i :: 0 <= i < |lines| - 1 ==> lines[..|lines| - 1][i] == lines[i];
        r
  }

  predicate UptimeLine(line: string) {
    Contains(line, "uptime is")
  }

  predicate VersionLine(line: string) {
    (Contains(line, "Version") || Contains(line, "version")) && (Contains(line, "IOS") || Contains(line, "Cisco"))
  }

  /** `show version`: the last uptime line and the last version line, each only when present. */
  function VersionMetrics(lines: seq<string>): (m: map<string, string>)
    ensures "Uptime" in m <==> exists i :: 0 <= i < |lines| && UptimeLine(lines[i])
    ensures "Version" in m <==> exists i :: 0 <= i < |lines| && VersionLine(lines[i])
    ensures forall k :: k in m ==> k == "Uptime" || k == "Version"
  {
    var up := LastWhere(lines, UptimeLine);
    var ver := LastWhere(lines, VersionLine);
    (if up.Some? then map["Uptime" := ExtractAfter(up.value, "uptime is")] else map[])
    + (if ver.Some? then map["Version" := TrimSpace(ver.value)] else map[])
  }

  predicate FullLine(line: string) {
    Contains(line, "FULL")
  }

  /** A BGP neighbor row: at least three fields, the first a dotted quad. */
  predicate BgpPeer(line: string) {
    var f := Fields(line);
    |f| >= 3 && IsIpv4(f[0])
  }

  /** A BGP neighbor row whose last field (state or prefixes received) is a number. */
  predicate BgpEstablished(line: string) {
    var f := Fields(line);
    |f| >= 3 && IsIpv4(f[0]) && ParseInt(f[|f| - 1]).Some?
  }

  /** How `interface brief` lines are counted; a line counts in one class at most. */
  datatype LinkClass = LinkUp | LinkAdminDown | LinkDown | LinkNone

  function LinkClassOf(line: string): LinkClass {
    var l := ToLower(line);
    if Contains(l, "up") then LinkUp
    else if Contains(l, "administratively") || Contains(l, "admin") then LinkAdminDown
    else if Contains(l, "down") then LinkDown
    else LinkNone
  }

  predicate IsLinkUp(line: string) { LinkClassOf(line) == LinkUp }
  predicate IsLinkAdminDown(line: string) { LinkClassOf(line) == LinkAdminDown }
  predicate IsLinkDown(line: string) { LinkClassOf(line) == LinkDown }
  predicate IsLinkCounted(line: string) { LinkClassOf(line) != LinkNone }

  /** A `show vrf` line counted as a VRF: not blank, not a header, not a rule. */
  predicate VrfLine(line: string) {
    var t := TrimSpace(line);
    t != "" && !HasPrefix(t, "Name") && !HasPrefix(t, "VRF") && !Contains(t, "-----")
  }

  predicate LowerUp(line: string) { Contains(ToLower(line), "up") }
  predicate LowerDown(line: string) { Contains(ToLower(line), "down") }
  predicate UpperUp(line: string) { Contains(ToUpper(line), "UP") }
  predicate UpperDown(line: string) { Contains(ToUpper(line), "DOWN") }

  function Count(lines: seq<string>, p: string -> bool): string {
    NatToString(CountWhere(lines, p))
  }

  /** The metrics of one command family, before the "captured" fallback. */
  function KindMetrics(kind: Kind, lines: seq<string>): map<string, string> {
    match kind
    case Version => VersionMetrics(lines)
    case Ospf => map["OSPF_Neighbors_Total" := Count(lines, HasIpv4), "OSPF_Neighbors_FULL" := Count(lines, FullLine)]
    case Bgp => map["BGP_Neighbors_Total" := Count(lines, BgpPeer), "BGP_Neighbors_Established" := Count(lines, BgpEstablished)]
    case Ldp => map["LDP_Neighbors" := Count(lines, HasIpv4)]
    case Interfaces => map["Interfaces_Up" := Count(lines, IsLinkUp), "Interfaces_Down" := Count(lines, IsLinkDown),
                           "Interfaces_AdminDown" := Count(lines, IsLinkAdminDown)]
    case Vrfs => map["VRF_Count" := Count(lines, VrfLine)]
    case Bfd => map["BFD_Sessions_Up" := Count(lines, LowerUp), "BFD_Sessions_Down" := Count(lines, LowerDown)]
    case L2vpn => map["L2VPN_Up" := Count(lines, UpperUp), "L2VPN_Down" := Count(lines, UpperDown)]
    case Other => map[]
  }

  /** `extractMetrics`: when nothing specific was found, the output is noted as captured with its line count. */
  function ExtractMetrics(command: string, output: string): (m: map<string, string>)
    ensures m != map[]
  {
    var lines := Lines(output);
    var specific := KindMetrics(KindOf(command), lines);
    if specific == map[] then
      var captured := map["Captured" := "Yes", "OutputLines" := NatToString(|lines|)];
      assert "Captured" in captured;
      captured
    else specific
  }

  /** No command family reports a metric named "Captured". */
  lemma NoCapturedKey(kind: Kind, lines: seq<string>)
    ensures "Captured" !in KindMetrics(kind, lines)
  {
    match kind
    case Version =>
    case Ospf =>
    case Bgp =>
    case Ldp =>
    case Interfaces =>
    case Vrfs =>
    case Bfd =>
    case L2vpn =>
    case Other =>
  }

  /** The fallback applies exactly when the command's family yields nothing. */
  lemma CapturedMeaning(command: string, output: string)
    ensures var m := ExtractMetrics(command, output);
            ("Captured" in m <==> KindMetrics(KindOf(command), Lines(output)) == map[])
            && ("Captured" in m ==> m == map["Captured" := "Yes", "OutputLines" := NatToString(|Lines(output)|)])
  {
    NoCapturedKey(KindOf(command), Lines(output));
  }

  /** A command of a known family other than `show version` always yields its own counts. */
  lemma KnownKindMeasured(kind: Kind, lines: seq<string>)
    requires kind != Version && kind != Other
    ensures KindMetrics(kind, lines) != map[]
  {
    var m := KindMetrics(kind, lines);
    match kind
    case Ospf => assert "OSPF_Neighbors_Total" in m;
    case Bgp => assert "BGP_Neighbors_Total" in m;
    case Ldp => assert "LDP_Neighbors" in m;
    case Interfaces => assert "Interfaces_Up" in m;
    case Vrfs => assert "VRF_Count" in m;
    case Bfd => assert "BFD_Sessions_Up" in m;
    case L2vpn => assert "L2VPN_Up" in m;
  }

  /** A command of no known family is always just noted as captured. */
  lemma OtherIsCaptured(command: string, output: string)
    requires KindOf(command) == Other
    ensures ExtractMetrics(command, output) == map["Captured" := "Yes", "OutputLines" := NatToString(|Lines(output)|)]
  {
  }

  /** Counting a stronger property never gives more. */
  lemma {:induction false} CountWhereMono(s: seq<string>, p: string -> bool, q: string -> bool)
    requires forall x :: p(x) ==> q(x)
    ensures CountWhere(s, p) <= CountWhere(s, q)
  {
    if s != [] {
      CountWhereMono(s[1..], p, q);
    }
  }

  /** BGP: the established neighbors are among the neighbors counted. */
  lemma BgpEstablishedAtMostTotal(command: string, output: string)
    requires KindOf(command) == Bgp
    ensures var m := ExtractMetrics(command, output);
            "BGP_Neighbors_Total" in m && "BGP_Neighbors_Established" in m
            && DigitsValue(m["BGP_Neighbors_Established"]) <= DigitsValue(m["BGP_Neighbors_Total"])
  {
    var lines := Lines(output);
    CountWhereMono(lines, BgpEstablished, BgpPeer);
    NatToStringValue(CountWhere(lines, BgpEstablished));
    NatToStringValue(CountWhere(lines, BgpPeer));
  }

  /** Interfaces: every line counts in one class at most, so the three counts add up to at most the lines. */
  lemma {:induction false} LinkCountsPartition(lines: seq<string>)
    ensures CountWhere(lines, IsLinkUp) + CountWhere(lines, IsLinkAdminDown) + CountWhere(lines, IsLinkDown)
            == CountWhere(lines, IsLinkCounted)
  {
    if lines != [] {
      LinkCountsPartition(lines[1..]);
    }
  }

  // ---------------------------------------------------------------- extractColumn

  predicate UpperLetter(c: char) {
    'A' <= c <= 'Z'
  }

  function UpperRun(s: string): (n: nat)
    ensures n <= |s|
    ensures forall i :: 0 <= i < n ==> UpperLetter(s[i])
    ensures n == |s| || !UpperLetter(s[n])
  {
    if s == [] || !UpperLetter(s[0]) then 0 else 1 + UpperRun(s[1..])
  }

  /** `extractColumn`: `^([A-Z]+)`, the column letters of a cell reference such as "AB12". */
  function ExtractColumn(cellRef: string): (r: string)
    ensures HasPrefix(cellRef, r)
    ensures forall i :: 0 <= i < |r| ==> UpperLetter(r[i])
  {
    cellRef[..UpperRun(cellRef)]
  }

  /** Column letters followed by a row number are read back as the letters. */
  lemma ExtractColumnOfCell(column: string, row: string)
    requires forall i :: 0 <= i < |column| ==> UpperLetter(column[i])
    requires row == [] || !UpperLetter(row[0])
    ensures ExtractColumn(column + row) == column
  {
    var s := column + row;
    assert forall i :: 0 <= i < |column| ==> s[i] == column[i];
    assert |s| > |column| ==> s[|column|] == row[0];
  }
}
