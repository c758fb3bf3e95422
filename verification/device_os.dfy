/**
 * Device OS classification from the inventory's free-text device type, in the
 * three versions that exist (health check v2.2, v2.3 and the lab logger), and
 * the selection of the command list for a device.
 *
 * Each classifier is an ordered list of substring rules with a default of
 * IOS-XE. The versions differ on purpose: v2.2 and the lab version test the
 * ASR9000 family first with a bare "ASR9" pattern, which also catches the
 * IOS-XE based ASR903 and ASR920; v2.3 tests those two first.
 */
module DeviceOs {
  import opened Common
  import opened Text

  datatype OsType = IosXr | IosXe | L2Switch

  /** The label the tools print and key their command lists by. */
  function Label(os: OsType): string {
    match os
    case IosXr => "IOS-XR"
    case IosXe => "IOS-XE"
    case L2Switch => "L2-SWITCH"
  }

  /** v2.2 and v2.3 compare against the trimmed, upper-cased device type. */
  function Normalize(deviceType: string): string {
    ToUpper(TrimSpace(deviceType))
  }

  // ---------------------------------------------------------------- v2.2

  const V22_XR: seq<string> := ["ASR9", "ASR-9", "ASR 9", "XRV", "IOS-XR", "IOSXR", "NCS", "CRS"]
  const V22_XE: seq<string> := [
    "ASR1", "ASR-1", "ASR 1", "ASR903", "ASR-903", "ASR 903", "ASR920", "ASR-920", "ASR 920",
    "ISR", "CSR", "IOS-XE", "IOSXE", "IOSV", "IOS-V", "VIOS", "C8", "C11", "C12"]
  const V22_L2: seq<string> := [
    "SWITCH", "SW", "CAT", "CATALYST", "C9300", "C9200", "C9400", "C9500", "C9600",
    "C3850", "C3750", "C3650", "C3560", "C2960", "C2950",
    "9300", "9200", "9400", "3850", "3750", "2960", "L2", "L3-SW", "IOL", "I86BI"]

  /** `detectDeviceOS` of health check v2.2. */
  function DetectV22(deviceType: string): (os: OsType)
    ensures os == IosXr <==> AnyContains(Normalize(deviceType), V22_XR)
    ensures os == L2Switch <==>
              !AnyContains(Normalize(deviceType), V22_XR) && !AnyContains(Normalize(deviceType), V22_XE)
              && AnyContains(Normalize(deviceType), V22_L2)
  {
    var dt := Normalize(deviceType);
    if AnyContains(dt, V22_XR) then IosXr
    else if AnyContains(dt, V22_XE) then IosXe
    else if AnyContains(dt, V22_L2) then L2Switch
    else IosXe
  }

  // ---------------------------------------------------------------- v2.3

  const V23_XE_FIRST: seq<string> := ["ASR903", "ASR-903", "ASR920", "ASR-920"]
  const V23_XR: seq<string> := ["ASR9K", "ASR-9K", "ASR90", "ASR91", "ASR99", "XRV", "IOS-XR", "IOSXR", "NCS", "CRS"]
  const V23_XE: seq<string> := [
    "ASR1", "ASR-1", "ISR", "CSR", "IOS-XE", "IOSXE", "IOSV", "IOS-V", "VIOS", "C8", "C11", "C12"]
  const V23_L2: seq<string> := [
    "SWITCH", "SW", "CAT", "CATALYST", "C9300", "C9200", "C9400", "C9500", "C3850", "C3750", "C2960",
    "9300", "9200", "3850", "3750", "2960", "L2", "IOL", "I86BI"]

  /** `detectDeviceOS` of health check v2.3. */
  function DetectV23(deviceType: string): (os: OsType)
    ensures os == IosXr <==>
              !AnyContains(Normalize(deviceType), V23_XE_FIRST) && AnyContains(Normalize(deviceType), V23_XR)
    ensures os == L2Switch <==>
              !AnyContains(Normalize(deviceType), V23_XE_FIRST) && !AnyContains(Normalize(deviceType), V23_XR)
              && !AnyContains(Normalize(deviceType), V23_XE) && AnyContains(Normalize(deviceType), V23_L2)
  {
    var dt := Normalize(deviceType);
    if AnyContains(dt, V23_XE_FIRST) then IosXe
    else if AnyContains(dt, V23_XR) then IosXr
    else if AnyContains(dt, V23_XE) then IosXe
    else if AnyContains(dt, V23_L2) then L2Switch
    else IosXe
  }

  // ---------------------------------------------------------------- lab logger

  const LAB_XR: seq<string> := ["ASR9", "XRV", "NCS", "IOS-XR", "IOSXR"]
  const LAB_XE: seq<string> := ["ASR1", "ASR-1", "ASR903", "ASR920", "ISR", "CSR", "IOS-XE", "IOSXE", "CAT", "C9"]
  const LAB_L2: seq<string> := ["SWITCH", "L2", "2960", "3750", "3850", "9200", "9300"]

  /** `getDeviceOS` of the lab logger: upper-cased but not trimmed. */
  function DetectLab(deviceType: string): (os: OsType)
    ensures os == IosXr <==> AnyContains(ToUpper(deviceType), LAB_XR)
    ensures os == L2Switch <==>
              !AnyContains(ToUpper(deviceType), LAB_XR) && !AnyContains(ToUpper(deviceType), LAB_XE)
              && AnyContains(ToUpper(deviceType), LAB_L2)
  {
    var dt := ToUpper(deviceType);
    if AnyContains(dt, LAB_XR) then IosXr
    else if AnyContains(dt, LAB_XE) then IosXe
    else if AnyContains(dt, LAB_L2) then L2Switch
    else IosXe
  }

  // ---------------------------------------------------------------- properties

  /** v2.2: anything mentioning ASR9, ASR903 and ASR920 included, is IOS-XR. */
  lemma V22Asr9IsXr(deviceType: string)
    requires Contains(Normalize(deviceType), "ASR9")
    ensures DetectV22(deviceType) == IosXr
  {
    assert V22_XR[0] == "ASR9";
  }

  /** Lab: the same early "ASR9" rule. */
  lemma LabAsr9IsXr(deviceType: string)
    requires Contains(ToUpper(deviceType), "ASR9")
    ensures DetectLab(deviceType) == IosXr
  {
    assert LAB_XR[0] == "ASR9";
  }

  /** v2.3: ASR903 and ASR920 are IOS-XE whatever else the type says. */
  lemma V23Asr903IsXe(deviceType: string)
    requires AnyContains(Normalize(deviceType), V23_XE_FIRST)
    ensures DetectV23(deviceType) == IosXe
  {
  }

  /** A type naming an ASR903 is IOS-XR in v2.2 and the lab logger, and IOS-XE in v2.3. */
  lemma Asr903VersionsDisagree(deviceType: string)
    requires Contains(Normalize(deviceType), "ASR903")
    ensures DetectV22(deviceType) == IosXr
    ensures DetectV23(deviceType) == IosXe
    ensures DetectLab(deviceType) == IosXr
  {
    var dt := Normalize(deviceType);
    ContainsPrefixOf(dt, "ASR903", "ASR9");
    V22Asr9IsXr(deviceType);
    assert V23_XE_FIRST[0] == "ASR903";
    // The lab version does not trim, but the trimmed text is a slice of the untrimmed one.
    var u := ToUpper(deviceType);
    TrimSpaceUpper(deviceType);
    TrimSpaceShape(u);
    var a := TrimOffset(u);
    assert dt == u[a..a + |dt|];
    ContainsSlice(u, a, a + |dt|, "ASR9");
    LabAsr9IsXr(deviceType);
  }

  /** Classification ignores letter case: types equal up to case get the same OS in every version. */
  lemma CaseInsensitive(a: string, b: string)
    requires ToUpper(a) == ToUpper(b)
    ensures DetectV22(a) == DetectV22(b)
    ensures DetectV23(a) == DetectV23(b)
    ensures DetectLab(a) == DetectLab(b)
  {
    TrimSpaceUpper(a);
    TrimSpaceUpper(b);
    ToUpperIdempotent(TrimSpace(a));
    ToUpperIdempotent(TrimSpace(b));
    assert Normalize(a) == ToUpper(TrimSpace(ToUpper(a)));
  }

  /** The lab logger sends Catalyst types ("CAT") to IOS-XE where v2.2 calls them switches. */
  lemma CatalystVersionsDisagree(deviceType: string)
    requires Contains(Normalize(deviceType), "CAT")
    requires !AnyContains(Normalize(deviceType), V22_XR) && !AnyContains(Normalize(deviceType), V22_XE)
    requires !AnyContains(ToUpper(deviceType), LAB_XR)
    requires Contains(ToUpper(deviceType), "CAT")
    ensures DetectV22(deviceType) == L2Switch
    ensures DetectLab(deviceType) == IosXe
  {
    assert V22_L2[2] == "CAT";
    assert LAB_XE[8] == "CAT";
  }

  /** A type matching no pattern defaults to IOS-XE everywhere. */
  lemma DefaultIsXe(deviceType: string)
    requires forall p :: p in V22_XR + V22_XE + V22_L2 ==> !Contains(Normalize(deviceType), p)
    requires forall p :: p in V23_XE_FIRST + V23_XR + V23_XE + V23_L2 ==> !Contains(Normalize(deviceType), p)
    requires forall p :: p in LAB_XR + LAB_XE + LAB_L2 ==> !Contains(ToUpper(deviceType), p)
    ensures DetectV22(deviceType) == IosXe && DetectV23(deviceType) == IosXe && DetectLab(deviceType) == IosXe
  {
    var dt := Normalize(deviceType);
    forall i | 0 <= i < |V22_XR| ensures !Contains(dt, V22_XR[i]) { assert V22_XR[i] in V22_XR + V22_XE + V22_L2; }
    forall i | 0 <= i < |V22_XE| ensures !Contains(dt, V22_XE[i]) { assert V22_XE[i] in V22_XR + V22_XE + V22_L2; }
    forall i | 0 <= i < |V22_L2| ensures !Contains(dt, V22_L2[i]) { assert V22_L2[i] in V22_XR + V22_XE + V22_L2; }
    var all23 := V23_XE_FIRST + V23_XR + V23_XE + V23_L2;
    forall i | 0 <= i < |V23_XE_FIRST| ensures !Contains(dt, V23_XE_FIRST[i]) { assert V23_XE_FIRST[i] in all23; }
    forall i | 0 <= i < |V23_XR| ensures !Contains(dt, V23_XR[i]) { assert V23_XR[i] in all23; }
    forall i | 0 <= i < |V23_XE| ensures !Contains(dt, V23_XE[i]) { assert V23_XE[i] in all23; }
    forall i | 0 <= i < |V23_L2| ensures !Contains(dt, V23_L2[i]) { assert V23_L2[i] in all23; }
    var u := ToUpper(deviceType);
    forall i | 0 <= i < |LAB_XR| ensures !Contains(u, LAB_XR[i]) { assert LAB_XR[i] in LAB_XR + LAB_XE + LAB_L2; }
    forall i | 0 <= i < |LAB_XE| ensures !Contains(u, LAB_XE[i]) { assert LAB_XE[i] in LAB_XR + LAB_XE + LAB_L2; }
    forall i | 0 <= i < |LAB_L2| ensures !Contains(u, LAB_L2[i]) { assert LAB_L2[i] in LAB_XR + LAB_XE + LAB_L2; }
  }

  // ---------------------------------------------------------------- command files

  /** The command-file filter of v2.2 and v2.3: trimmed lines, no blanks, no `#` comments. */
  predicate KeepCommand(line: string) {
    line != "" && !HasPrefix(line, "#")
  }

  /** The lab logger also drops `//` comments. */
  predicate KeepCommandLab(line: string) {
    line != "" && !HasPrefix(line, "#") && !HasPrefix(line, "//")
  }

  function TrimAll(ls: seq<string>): (r: seq<string>)
    ensures |r| == |ls| && forall i :: 0 <= i < |ls| ==> r[i] == TrimSpace(ls[i])
  {
    seq(|ls|, i requires 0 <= i < |ls| => TrimSpace(ls[i]))
  }

  /** `readLines` on a file's contents. */
  function ReadLines(content: string, keep: string -> bool): (r: seq<string>)
    ensures forall i :: 0 <= i < |r| ==> keep(r[i]) && TrimSpace(r[i]) == r[i]
    ensures r == Filter(TrimAll(Lines(content)), keep)
  {
    var r := Filter(TrimAll(Lines(content)), keep);
    forall i | 0 <= i < |r| ensures TrimSpace(r[i]) == r[i] {
      var ts := TrimAll(Lines(content));
      var j :| 0 <= j < |ts| && ts[j] == r[i];
      TrimSpaceIdempotent(Lines(content)[j]);
    }
    r
  }

  /** A line of the file is kept exactly when its trimmed form passes the filter. */
  lemma ReadLinesKeeps(content: string, keep: string -> bool, j: nat)
    requires j < |Lines(content)|
    ensures keep(TrimSpace(Lines(content)[j])) ==> TrimSpace(Lines(content)[j]) in ReadLines(content, keep)
    ensures TrimSpace(Lines(content)[j]) in ReadLines(content, keep) ==> keep(TrimSpace(Lines(content)[j]))
  {
    var ts := TrimAll(Lines(content));
    assert ts[j] == TrimSpace(Lines(content)[j]);
    if TrimSpace(Lines(content)[j]) in ReadLines(content, keep) {
      var r := ReadLines(content, keep);
      var k :| 0 <= k < |r| && r[k] == ts[j];
    }
  }

  /**
   * One more line at the end of the file adds its trimmed form at the end of
   * the list when the filter accepts it, and nothing otherwise: file order
   * and repeated lines are kept.
   */
  lemma ReadLinesAppendLine(content: string, w: string, keep: string -> bool)
    requires '\n' !in w
    ensures ReadLines(content + "\n" + w, keep)
            == ReadLines(content, keep) + (if keep(TrimSpace(w)) then [TrimSpace(w)] else [])
  {
    var ls := Lines(content);
    JoinLinesOfLines(content);
    LinesOfNoNewline(w);
    JoinLinesAppend(ls, [w]);
    LinesOfJoinLines(ls + [w]);
    assert Lines(content + "\n" + w) == ls + [w];
    assert TrimAll(ls + [w]) == TrimAll(ls) + [TrimSpace(w)];
    FilterAppend(TrimAll(ls), [TrimSpace(w)], keep);
  }

  /** The per-OS command lists of v2.2 and v2.3. */
  datatype CommandSet = CommandSet(iosXr: seq<string>, iosXe: seq<string>, l2Switch: seq<string>, default: seq<string>)

  /** `GetCommandsForOS`: the OS's own list when it has one, otherwise the default list. */
  function CommandsForOs(cs: CommandSet, osType: string): (r: seq<string>)
    ensures r == cs.default || r != []
    ensures osType == "IOS-XR" && cs.iosXr != [] ==> r == cs.iosXr
    ensures osType == "IOS-XE" && cs.iosXe != [] ==> r == cs.iosXe
    ensures osType == "L2-SWITCH" && cs.l2Switch != [] ==> r == cs.l2Switch
    ensures osType !in {"IOS-XR", "IOS-XE", "L2-SWITCH"} ==> r == cs.default
  {
    if osType == "IOS-XR" && |cs.iosXr| > 0 then cs.iosXr
    else if osType == "IOS-XE" && |cs.iosXe| > 0 then cs.iosXe
    else if osType == "L2-SWITCH" && |cs.l2Switch| > 0 then cs.l2Switch
    else cs.default
  }

  /** With a non-empty default list, every device gets at least one command. */
  lemma CommandsNeverEmpty(cs: CommandSet, osType: string)
    requires cs.default != []
    ensures CommandsForOs(cs, osType) != []
  {
  }

  /** The lab logger's configuration: which command files to read. */
  datatype LabConfig = LabConfig(useOsCommands: bool, commandFile: string,
                                 commandFileXr: string, commandFileXe: string, commandFileL2: string)

  /** The file system as seen by `readLines`: a file's contents, or the open error. */
  type Files = string -> Result<string, string>

  const LAB_KEYS: set<string> := {"DEFAULT", "IOS-XR", "IOS-XE", "L2-SWITCH"}

  /** One optional OS-specific list: stored only when named, readable and non-empty. */
  function OsList(cfg: LabConfig, files: Files, name: string): Option<seq<string>> {
    if cfg.useOsCommands && name != "" && files(name).Ok?
       && ReadLines(files(name).value, KeepCommandLab) != []
    then Some(ReadLines(files(name).value, KeepCommandLab))
    else None
  }

  /** `loadCommands` of the lab logger. */
  function LoadCommands(cfg: LabConfig, files: Files): (r: Result<map<string, seq<string>>, string>)
    ensures files(cfg.commandFile).Err? <==> r.Err?
    ensures r.Err? ==> r.error == "failed to read command file: " + files(cfg.commandFile).error
    ensures r.Ok? ==> r.value.Keys == LAB_KEYS
    ensures r.Ok? ==> r.value["DEFAULT"] == ReadLines(files(cfg.commandFile).value, KeepCommandLab)
  {
    match files(cfg.commandFile)
    case Err(e) => Err("failed to read command file: " + e)
    case Ok(content) =>
      var d := ReadLines(content, KeepCommandLab);
      Ok(map["DEFAULT" := d,
             "IOS-XR" := OsList(cfg, files, cfg.commandFileXr).GetOr(d),
             "IOS-XE" := OsList(cfg, files, cfg.commandFileXe).GetOr(d),
             "L2-SWITCH" := OsList(cfg, files, cfg.commandFileL2).GetOr(d)])
  }

  /**
   * An OS list differs from the default only when OS-specific files are
   * enabled and that file was named, read, and gave at least one command.
   */
  lemma LoadCommandsFallback(cfg: LabConfig, files: Files)
    requires LoadCommands(cfg, files).Ok?
    ensures var m := LoadCommands(cfg, files).value;
            (m["IOS-XR"] == m["DEFAULT"] || (cfg.useOsCommands && cfg.commandFileXr != "" && m["IOS-XR"] != []))
            && (m["IOS-XE"] == m["DEFAULT"] || (cfg.useOsCommands && cfg.commandFileXe != "" && m["IOS-XE"] != []))
            && (m["L2-SWITCH"] == m["DEFAULT"] || (cfg.useOsCommands && cfg.commandFileL2 != "" && m["L2-SWITCH"] != []))
    ensures !cfg.useOsCommands ==> var m := LoadCommands(cfg, files).value;
              m["IOS-XR"] == m["IOS-XE"] == m["L2-SWITCH"] == m["DEFAULT"]
  {
  }

  /** The command lookup in `processDevice`: the OS's list, else DEFAULT; none at all is an error. */
  function LookupCommands(commands: map<string, seq<string>>, os: string): (r: Result<seq<string>, string>)
    ensures r.Err? <==> (os in commands && commands[os] == [])
                        || (os !in commands && ("DEFAULT" !in commands || commands["DEFAULT"] == []))
    ensures r.Err? ==> r.error == "No commands defined for OS: " + os
    ensures r.Ok? && os in commands ==> r.value == commands[os]
    ensures r.Ok? && os !in commands ==> r.value == commands["DEFAULT"]
  {
    var cmds := if os in commands then commands[os] else if "DEFAULT" in commands then commands["DEFAULT"] else [];
    if cmds == [] then Err("No commands defined for OS: " + os) else Ok(cmds)
  }

  /**
   * After a successful load with a non-empty default file, every classified
   * device finds a command list.
   */
  lemma EveryDeviceHasCommands(cfg: LabConfig, files: Files, deviceType: string)
    requires LoadCommands(cfg, files).Ok?
    requires LoadCommands(cfg, files).value["DEFAULT"] != []
    ensures LookupCommands(LoadCommands(cfg, files).value, Label(DetectLab(deviceType))).Ok?
  {
    LoadCommandsFallback(cfg, files);
  }
}
