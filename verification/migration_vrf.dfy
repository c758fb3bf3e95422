/**
 * The VRF inventory of the migration validation toolkit: the two parsers of
 * `show vrf` output (`parseVRFOutput` for the table form and
 * `parseVRFDetailOutput` for the detail form), the collection step that
 * stores what a device reported, and the lookup that falls back to the
 * static list.
 */
module MigrationVrf {
  import opened Common
  import opened Text
  import opened Pattern
  import opened Migration

  /** One VRF as the toolkit records it. */
  datatype VrfInfo = VrfInfo(
    name: string, rd: string, rtImport: string, rtExport: string,
    description: string, priority: string, source: string)

  /** A freshly seen VRF: no RD or route targets yet, default priority, reported by the device. */
  function FreshVrf(name: string): VrfInfo {
    VrfInfo(name, "", "", "", "", "medium", "device")
  }

  // ---------------------------------------------------------------- parseVRFOutput

  /** The column header of the table: it names the VRF column and the RD or Name column. */
  predicate IsHeader(line: string) {
    Contains(line, "VRF") && (Contains(line, "RD") || Contains(line, "Name"))
  }

  predicate IsSeparator(line: string) {
    HasPrefix(line, "-") || HasPrefix(line, "=")
  }

  /** The table rows the parser never reports. */
  predicate Reserved(name: string) {
    name == "default" || name == "management" || name == "__bgp_vrf__"
  }

  /** The first entry of the static list whose name equals `name` up to case. */
  function StaticMatch(statics: seq<VrfInfo>, name: string): (r: Option<VrfInfo>)
    ensures r.Some? ==> exists i :: (0 <= i < |statics| && statics[i] == r.value && EqualFold(statics[i].name, name)
                                     && forall j :: 0 <= j < i ==> !EqualFold(statics[j].name, name))
    ensures r.None? ==> forall i :: 0 <= i < |statics| ==> !EqualFold(statics[i].name, name)
  {
    if statics == [] then None
    else if EqualFold(statics[0].name, name) then Some(statics[0])
    else
      var r := StaticMatch(statics[1..], name);
      assert r.Some? ==> exists i :: 1 <= i < |statics| && statics[i] == r.value;
      r
  }

  /** Priority and description: the static entry's when the name is listed there, else "medium" and none. */
  predicate Annotated(v: VrfInfo, statics: seq<VrfInfo>) {
    match StaticMatch(statics, v.name)
    case Some(s) => v.priority == s.priority && v.description == s.description
    case None => v.priority == "medium" && v.description == ""
  }

  /** What every VRF of the table parser satisfies. */
  predicate TableVrf(v: VrfInfo, statics: seq<VrfInfo>) {
    IsToken(v.name) && !Reserved(v.name) && (v.rd == "" || Contains(v.rd, ":"))
    && v.rtImport == "" && v.rtExport == "" && v.source == "device" && Annotated(v, statics)
  }

  /** The VRF one table row describes: the first field names it; a second field holding ':' is its RD. */
  function RowVrf(fields: seq<string>, statics: seq<VrfInfo>): (v: VrfInfo)
    requires |fields| >= 1 && IsToken(fields[0]) && !Reserved(fields[0])
    ensures TableVrf(v, statics) && v.name == fields[0]
    ensures v.rd == (if |fields| >= 2 && Contains(fields[1], ":") then fields[1] else "")
  {
    var rd := if |fields| >= 2 && Contains(fields[1], ":") then fields[1] else "";
    var base := FreshVrf(fields[0]).(rd := rd);
    match StaticMatch(statics, fields[0])
    case Some(s) => base.(priority := s.priority, description := s.description)
    case None => base
  }

  /** A table row, once trimmed: after the header, not a separator, naming a VRF that is not reserved. */
  predicate DataRow(line: string) {
    var t := TrimSpace(line);
    t != "" && !IsHeader(t) && !IsSeparator(t) && |Fields(t)| >= 1 && !Reserved(Fields(t)[0])
  }

  /** The VRF a data row describes. */
  function RowOf(line: string, statics: seq<VrfInfo>): VrfInfo
    requires DataRow(line)
  {
    RowVrf(Fields(TrimSpace(line)), statics)
  }

  /** The VRFs of a list of data rows, one each, in order. */
  function RowsOf(rows: seq<string>, statics: seq<VrfInfo>): (r: seq<VrfInfo>)
    requires forall k :: 0 <= k < |rows| ==> DataRow(rows[k])
    ensures |r| == |rows| && forall k :: 0 <= k < |rows| ==> r[k] == RowOf(rows[k], statics)
  {
    if rows == [] then [] else [RowOf(rows[0], statics)] + RowsOf(rows[1..], statics)
  }

  /** The loop of `parseVRFOutput`, with `started` set once the header has been seen. */
  function TableFrom(lines: seq<string>, started: bool, statics: seq<VrfInfo>): (r: seq<VrfInfo>)
    ensures forall k :: 0 <= k < |r| ==> TableVrf(r[k], statics)
    ensures |r| <= |lines|
  {
    if lines == [] then []
    else
      var t := TrimSpace(lines[0]);
      var rest := lines[1..];
      if t == "" then TableFrom(rest, started, statics)
      else if IsHeader(t) then TableFrom(rest, true, statics)
      else if IsSeparator(t) || !started then TableFrom(rest, started, statics)
      else
        var fields := Fields(t);
        if |fields| >= 1 && !Reserved(fields[0]) then [RowVrf(fields, statics)] + TableFrom(rest, started, statics)
        else TableFrom(rest, started, statics)
  }

  /** Once the header has been seen, the loop reports exactly one VRF per data row, in order. */
  lemma {:induction false} TableFromStarted(lines: seq<string>, statics: seq<VrfInfo>)
    ensures TableFrom(lines, true, statics) == RowsOf(Filter(lines, DataRow), statics)
  {
    if lines != [] {
      TableFromStarted(lines[1..], statics);
      var tail := Filter(lines[1..], DataRow);
      if DataRow(lines[0]) {
        assert Filter(lines, DataRow) == [lines[0]] + tail;
        assert ([lines[0]] + tail)[1..] == tail;
      } else {
        assert Filter(lines, DataRow) == tail;
      }
    }
  }

  /** `parseVRFOutput`; the static list is the toolkit's configured VRFs. */
  function ParseVrfOutput(output: string, statics: seq<VrfInfo>): (r: seq<VrfInfo>)
    ensures forall k :: 0 <= k < |r| ==> TableVrf(r[k], statics)
    ensures FirstWhere(Lines(output), HeaderLine).None? ==> r == []
    ensures FirstWhere(Lines(output), HeaderLine).Some? ==>
              r == RowsOf(Filter(Lines(output)[FirstWhere(Lines(output), HeaderLine).value + 1..], DataRow), statics)
  {
    TableFromHeader(Lines(output), statics);
    TableFrom(Lines(output), false, statics)
  }

  /** A line that, once trimmed, is the column header. */
  predicate HeaderLine(line: string) {
    IsHeader(TrimSpace(line))
  }

  /** The table loop reports nothing without a header, and otherwise the data rows after the first header. */
  lemma TableFromHeader(ls: seq<string>, statics: seq<VrfInfo>)
    ensures FirstWhere(ls, HeaderLine).None? ==> TableFrom(ls, false, statics) == []
    ensures FirstWhere(ls, HeaderLine).Some? ==>
              TableFrom(ls, false, statics) == RowsOf(Filter(ls[FirstWhere(ls, HeaderLine).value + 1..], DataRow), statics)
  {
    match FirstWhere(ls, HeaderLine)
    case None =>
      BeforeHeaderIgnored(ls, [], statics);
      assert ls + [] == ls;
    case Some(h) =>
      assert ls == ls[..h] + ls[h..];
      BeforeHeaderIgnored(ls[..h], ls[h..], statics);
      assert ls[h..][0] == ls[h] && ls[h..][1..] == ls[h + 1..];
      assert TrimSpace(ls[h]) != "";
      TableFromStarted(ls[h + 1..], statics);
  }

  /** Lines before the first header contribute nothing. */
  lemma {:induction false} BeforeHeaderIgnored(pre: seq<string>, rest: seq<string>, statics: seq<VrfInfo>)
    requires forall k :: 0 <= k < |pre| ==> !IsHeader(TrimSpace(pre[k]))
    ensures TableFrom(pre + rest, false, statics) == TableFrom(rest, false, statics)
  {
    if pre != [] {
      assert (pre + rest)[0] == pre[0] && (pre + rest)[1..] == pre[1..] + rest;
      BeforeHeaderIgnored(pre[1..], rest, statics);
    } else {
      assert pre + rest == rest;
    }
  }

  /** Output without a header yields no VRFs. */
  lemma NoHeaderNoVrfs(output: string, statics: seq<VrfInfo>)
    requires forall k :: 0 <= k < |Lines(output)| ==> !IsHeader(TrimSpace(Lines(output)[k]))
    ensures ParseVrfOutput(output, statics) == []
  {
    var ls := Lines(output);
    BeforeHeaderIgnored(ls, [], statics);
    assert ls + [] == ls;
  }

  /** After the header, there are exactly as many VRFs as data rows. */
  lemma {:induction false} StartedRows(lines: seq<string>, statics: seq<VrfInfo>)
    ensures |TableFrom(lines, true, statics)| == CountWhere(lines, DataRow)
  {
    if lines != [] {
      StartedRows(lines[1..], statics);
    }
  }

  // ---------------------------------------------------------------- parseVRFDetailOutput

  /** `(\d+:\d+)`: a route target value. */
  const ROUTE_TARGET: seq<Token> := [Num, Lit(":"), Num]

  lemma RouteTargetSeparated()
    ensures Separated(ROUTE_TARGET)
  {
    assert ROUTE_TARGET[1..] == [Lit(":"), Num];
    assert FirstAvoids(ROUTE_TARGET[1..], true);
  }

  /** `FindString` with `(\d+:\d+)`: the text of the leftmost route target on the line, or "". */
  function RouteTarget(line: string): (m: string)
    ensures Search(line, ROUTE_TARGET).None? ==> m == ""
    ensures Search(line, ROUTE_TARGET).Some? ==> |m| == Search(line, ROUTE_TARGET).value.end - Search(line, ROUTE_TARGET).value.start
  {
    match Search(line, ROUTE_TARGET)
    case Some(f) => line[f.start..f.end]
    case None => ""
  }

  /** The route target read from a line is the text of the leftmost reference match of `\d+:\d+`. */
  lemma RouteTargetMeaning(line: string)
    requires RouteTarget(line) != ""
    ensures var f := Search(line, ROUTE_TARGET).value;
            RouteTarget(line) == line[f.start..f.end]
            && Matches(line, ROUTE_TARGET, f.start, f.end, f.caps)
            && forall q :: 0 <= q < f.start ==> !MatchesFrom(line, ROUTE_TARGET, q)
  {
    RouteTargetSeparated();
    SearchMeaning(line, ROUTE_TARGET);
  }

  /** A line with no `digits:digits` in it sets no route target. */
  lemma NoRouteTarget(line: string)
    requires forall q :: 0 <= q <= |line| ==> !MatchesFrom(line, ROUTE_TARGET, q)
    ensures RouteTarget(line) == ""
  {
    SearchNone(line, ROUTE_TARGET);
  }

  /** A line that opens a new VRF block. */
  predicate OpensVrf(line: string) {
    HasPrefix(line, "VRF ") && !Contains(line, "Table")
  }

  predicate OpensVrfRaw(raw: string) {
    OpensVrf(TrimSpace(raw))
  }

  /** The name on a VRF line: its second field, without a trailing ',' and then ';'. */
  function BlockName(parts: seq<string>): string
    requires |parts| >= 2
  {
    TrimSuffix(TrimSuffix(parts[1], ","), ";")
  }

  /** The RD on an RD line: everything after its first ':', trimmed, without a trailing ';'. */
  function RdValue(line: string): (r: Option<string>)
    ensures r.Some? ==> r.value != "" && r.value != "not set"
  {
    var i := IndexOf(line, ":");
    if i < 0 then None
    else
      var v := TrimSuffix(TrimSpace(line[i + 1..]), ";");
      if v == "not set" || v == "" then None else Some(v)
  }

  /** What every VRF of the detail parser satisfies, apart from having a name. */
  predicate DetailVrf(v: VrfInfo) {
    v.name != "default" && v.name != "management" && v.rd != "not set"
    && v.description == "" && v.priority == "medium" && v.source == "device"
  }

  /** A VRF line ends the current block and starts the next one (none for the default and management VRFs). */
  function OpenStep(cur: Option<VrfInfo>, line: string): (next: Option<VrfInfo>)
    requires OpensVrf(line) && (cur.Some? ==> DetailVrf(cur.value))
    ensures next.Some? ==> DetailVrf(next.value)
  {
    var parts := Fields(line);
    if |parts| >= 2 then
      var name := BlockName(parts);
      if name != "default" && name != "management" then Some(FreshVrf(name)) else None
    else cur
  }

  /** An RD line sets the RD, unless it reads "not set" or nothing. */
  function SetRd(v: VrfInfo, line: string): (w: VrfInfo)
    ensures w.(rd := v.rd) == v
    ensures v.rd != "not set" ==> w.rd != "not set"
  {
    if Contains(line, "RD") && RdValue(line).Some? then v.(rd := RdValue(line).value) else v
  }

  /** An import or export route-target line sets that route target when one is found on it. */
  function SetTargets(v: VrfInfo, line: string): (w: VrfInfo)
    ensures w.(rtImport := v.rtImport, rtExport := v.rtExport) == v
  {
    var imp := if Contains(line, "Import") && Contains(line, "RT") then RouteTarget(line) else "";
    var exp := if Contains(line, "Export") && Contains(line, "RT") then RouteTarget(line) else "";
    var v1 := if imp != "" then v.(rtImport := imp) else v;
    if exp != "" then v1.(rtExport := exp) else v1
  }

  /** The RD and route-target updates one line makes to the current VRF. */
  function Annotate(v: VrfInfo, line: string): (w: VrfInfo)
    ensures w.name == v.name && w.description == v.description && w.priority == v.priority && w.source == v.source
    ensures v.rd != "not set" ==> w.rd != "not set"
  {
    SetTargets(SetRd(v, line), line)
  }

  /** The block being closed, if it has a name. */
  function Flush(cur: Option<VrfInfo>): (r: seq<VrfInfo>)
    ensures |r| <= 1
    ensures forall k :: 0 <= k < |r| ==> cur == Some(r[k]) && r[k].name != ""
  {
    if cur.Some? && cur.value.name != "" then [cur.value] else []
  }

  /** The loop of `parseVRFDetailOutput` from the current block `cur` on. */
  function DetailFrom(lines: seq<string>, cur: Option<VrfInfo>): (r: seq<VrfInfo>)
    requires cur.Some? ==> DetailVrf(cur.value)
    ensures forall k :: 0 <= k < |r| ==> DetailVrf(r[k]) && r[k].name != ""
    ensures |r| <= CountWhere(lines, OpensVrfRaw) + (if cur.Some? then 1 else 0)
  {
    if lines == [] then Flush(cur)
    else
      var line := TrimSpace(lines[0]);
      var closed := if OpensVrf(line) then Flush(cur) else [];
      var block := if OpensVrf(line) then OpenStep(cur, line) else cur;
      var next := if block.Some? then Some(Annotate(block.value, line)) else None;
      closed + DetailFrom(lines[1..], next)
  }

  /** The RD and route-target updates of a run of lines, in order, each line trimmed first. */
  function AnnotateAll(v: VrfInfo, lines: seq<string>): (w: VrfInfo)
    ensures w.name == v.name && w.description == v.description && w.priority == v.priority && w.source == v.source
    ensures v.rd != "not set" ==> w.rd != "not set"
    decreases |lines|
  {
    if lines == [] then v else AnnotateAll(Annotate(v, TrimSpace(lines[0])), lines[1..])
  }

  /** Lines inside a block only annotate its VRF; the block is reported when the next one opens or the output ends. */
  lemma {:induction false} DetailAccumulates(body: seq<string>, rest: seq<string>, v: VrfInfo)
    requires DetailVrf(v)
    requires forall k :: 0 <= k < |body| ==> !OpensVrfRaw(body[k])
    ensures DetailFrom(body + rest, Some(v)) == DetailFrom(rest, Some(AnnotateAll(v, body)))
    decreases |body|
  {
    if body != [] {
      assert (body + rest)[0] == body[0] && (body + rest)[1..] == body[1..] + rest;
      DetailAccumulates(body[1..], rest, Annotate(v, TrimSpace(body[0])));
    } else {
      assert body + rest == rest;
    }
  }

  /**
   * A VRF line closes the current block and opens a fresh VRF, which the
   * VRF line itself and the lines of its block annotate.
   */
  lemma DetailBlock(open: string, body: seq<string>, rest: seq<string>, cur: Option<VrfInfo>)
    requires cur.Some? ==> DetailVrf(cur.value)
    requires OpensVrfRaw(open) && |Fields(TrimSpace(open))| >= 2
    requires BlockName(Fields(TrimSpace(open))) != "default" && BlockName(Fields(TrimSpace(open))) != "management"
    requires forall k :: 0 <= k < |body| ==> !OpensVrfRaw(body[k])
    ensures DetailFrom([open] + body + rest, cur)
            == Flush(cur) + DetailFrom(rest, Some(AnnotateAll(FreshVrf(BlockName(Fields(TrimSpace(open)))), [open] + body)))
  {
    var start := FreshVrf(BlockName(Fields(TrimSpace(open))));
    var ls := [open] + body + rest;
    assert ls[0] == open && ls[1..] == body + rest;
    DetailAccumulates(body, rest, Annotate(start, TrimSpace(open)));
    assert ([open] + body)[0] == open && ([open] + body)[1..] == body;
  }

  /** A line that sets the RD. */
  predicate SetsRd(line: string) {
    Contains(TrimSpace(line), "RD") && RdValue(TrimSpace(line)).Some?
  }

  /** A line that sets the import route target. */
  predicate SetsImport(line: string) {
    Contains(TrimSpace(line), "Import") && Contains(TrimSpace(line), "RT") && RouteTarget(TrimSpace(line)) != ""
  }

  /** A line that sets the export route target. */
  predicate SetsExport(line: string) {
    Contains(TrimSpace(line), "Export") && Contains(TrimSpace(line), "RT") && RouteTarget(TrimSpace(line)) != ""
  }

  /** What one line does to the RD. */
  lemma RdStep(v: VrfInfo, line: string)
    ensures Rd(AnnotateLine(v, line)) == (if SetsRd(line) then RdOf(line) else Rd(v))
  {
  }

  /** What one line does to the import route target. */
  lemma ImportStep(v: VrfInfo, line: string)
    ensures RtImport(AnnotateLine(v, line)) == (if SetsImport(line) then TargetOf(line) else RtImport(v))
  {
    var t := TrimSpace(line);
    assert SetRd(v, t).rtImport == v.rtImport;
  }

  /** What one line does to the export route target. */
  lemma ExportStep(v: VrfInfo, line: string)
    ensures RtExport(AnnotateLine(v, line)) == (if SetsExport(line) then TargetOf(line) else RtExport(v))
  {
    var t := TrimSpace(line);
    assert SetRd(v, t).rtExport == v.rtExport;
  }

  /** A left fold of a step over lines. */
  function Fold<S>(s: S, lines: seq<string>, step: (S, string) -> S): S
    decreases |lines|
  {
    if lines == [] then s else Fold(step(s, lines[0]), lines[1..], step)
  }

  /** When no line sets a field that each step either sets or leaves alone, the fold leaves it as it was. */
  lemma {:induction false} NoneSets<S>(s: S, lines: seq<string>, step: (S, string) -> S,
                                       get: S -> string, sets: string -> bool, val: string -> string)
    requires forall w: S, l: string :: get(step(w, l)) == (if sets(l) then val(l) else get(w))
    requires forall k :: 0 <= k < |lines| ==> !sets(lines[k])
    ensures get(Fold(s, lines, step)) == get(s)
    decreases |lines|
  {
    if lines != [] {
      assert !sets(lines[0]);
      NoneSets(step(s, lines[0]), lines[1..], step, get, sets, val);
    }
  }

  /**
   * When each step either sets a field to a value read from its line or
   * leaves it alone, the fold leaves the field at the value of the last
   * line that sets it, or as it was when no line does.
   */
  lemma {:induction false} LastWins<S>(s: S, lines: seq<string>, step: (S, string) -> S,
                                       get: S -> string, sets: string -> bool, val: string -> string)
    requires forall w: S, l: string :: get(step(w, l)) == (if sets(l) then val(l) else get(w))
    ensures (forall k :: 0 <= k < |lines| ==> !sets(lines[k])) ==> get(Fold(s, lines, step)) == get(s)
    ensures forall i :: 0 <= i < |lines| && sets(lines[i]) && (forall j :: i < j < |lines| ==> !sets(lines[j]))
                        ==> get(Fold(s, lines, step)) == val(lines[i])
    decreases |lines|
  {
    if forall k :: 0 <= k < |lines| ==> !sets(lines[k]) {
      NoneSets(s, lines, step, get, sets, val);
    }
    forall i | 0 <= i < |lines| && sets(lines[i]) && (forall j :: i < j < |lines| ==> !sets(lines[j]))
      ensures get(Fold(s, lines, step)) == val(lines[i])
    {
      LastSets(s, lines, step, get, sets, val, i);
    }
  }

  /** The fold from the `i`-th line on, when no later line sets the field. */
  lemma {:induction false} LastSets<S>(s: S, lines: seq<string>, step: (S, string) -> S,
                                       get: S -> string, sets: string -> bool, val: string -> string, i: nat)
    requires forall w: S, l: string :: get(step(w, l)) == (if sets(l) then val(l) else get(w))
    requires i < |lines| && sets(lines[i]) && forall j :: i < j < |lines| ==> !sets(lines[j])
    ensures get(Fold(s, lines, step)) == val(lines[i])
    decreases |lines|
  {
    var tail := lines[1..];
    if i == 0 {
      NoneSets(step(s, lines[0]), tail, step, get, sets, val);
    } else {
      assert tail[i - 1] == lines[i];
      LastSets(step(s, lines[0]), tail, step, get, sets, val, i - 1);
    }
  }

  function AnnotateLine(v: VrfInfo, line: string): VrfInfo {
    Annotate(v, TrimSpace(line))
  }

  lemma {:induction false} AnnotateAllIsFold(v: VrfInfo, lines: seq<string>)
    ensures AnnotateAll(v, lines) == Fold(v, lines, AnnotateLine)
    decreases |lines|
  {
    if lines != [] {
      AnnotateAllIsFold(Annotate(v, TrimSpace(lines[0])), lines[1..]);
    }
  }

  function Rd(v: VrfInfo): string { v.rd }
  function RtImport(v: VrfInfo): string { v.rtImport }
  function RtExport(v: VrfInfo): string { v.rtExport }

  /** The RD a line sets, if it sets one. */
  function RdOf(line: string): string {
    if SetsRd(line) then RdValue(TrimSpace(line)).value else ""
  }

  function TargetOf(line: string): string {
    RouteTarget(TrimSpace(line))
  }

  /** A block's RD is the one on its last RD line, and stays as it was without one. */
  lemma BlockRd(v: VrfInfo, lines: seq<string>)
    ensures (forall k :: 0 <= k < |lines| ==> !SetsRd(lines[k])) ==> AnnotateAll(v, lines).rd == v.rd
    ensures forall i :: 0 <= i < |lines| && SetsRd(lines[i]) && (forall j :: i < j < |lines| ==> !SetsRd(lines[j]))
                        ==> AnnotateAll(v, lines).rd == RdValue(TrimSpace(lines[i])).value
  {
    forall w: VrfInfo, l: string ensures Rd(AnnotateLine(w, l)) == (if SetsRd(l) then RdOf(l) else Rd(w)) {
      RdStep(w, l);
    }
    AnnotateAllIsFold(v, lines);
    LastWins(v, lines, AnnotateLine, Rd, SetsRd, RdOf);
  }

  /** A block's import route target is the one on its last import line that carries one. */
  lemma BlockImport(v: VrfInfo, lines: seq<string>)
    ensures (forall k :: 0 <= k < |lines| ==> !SetsImport(lines[k])) ==> AnnotateAll(v, lines).rtImport == v.rtImport
    ensures forall i :: 0 <= i < |lines| && SetsImport(lines[i]) && (forall j :: i < j < |lines| ==> !SetsImport(lines[j]))
                        ==> AnnotateAll(v, lines).rtImport == RouteTarget(TrimSpace(lines[i]))
  {
    forall w: VrfInfo, l: string ensures RtImport(AnnotateLine(w, l)) == (if SetsImport(l) then TargetOf(l) else RtImport(w)) {
      ImportStep(w, l);
    }
    AnnotateAllIsFold(v, lines);
    LastWins(v, lines, AnnotateLine, RtImport, SetsImport, TargetOf);
  }

  /** A block's export route target is the one on its last export line that carries one. */
  lemma BlockExport(v: VrfInfo, lines: seq<string>)
    ensures (forall k :: 0 <= k < |lines| ==> !SetsExport(lines[k])) ==> AnnotateAll(v, lines).rtExport == v.rtExport
    ensures forall i :: 0 <= i < |lines| && SetsExport(lines[i]) && (forall j :: i < j < |lines| ==> !SetsExport(lines[j]))
                        ==> AnnotateAll(v, lines).rtExport == RouteTarget(TrimSpace(lines[i]))
  {
    forall w: VrfInfo, l: string ensures RtExport(AnnotateLine(w, l)) == (if SetsExport(l) then TargetOf(l) else RtExport(w)) {
      ExportStep(w, l);
    }
    AnnotateAllIsFold(v, lines);
    LastWins(v, lines, AnnotateLine, RtExport, SetsExport, TargetOf);
  }

  /** `parseVRFDetailOutput`. */
  function ParseVrfDetailOutput(output: string): (r: seq<VrfInfo>)
    ensures forall k :: 0 <= k < |r| ==> DetailVrf(r[k]) && r[k].name != ""
    ensures |r| <= CountWhere(Lines(output), OpensVrfRaw)
  {
    DetailFrom(Lines(output), None)
  }

  /** Without a VRF line there is no VRF. */
  lemma NoBlockNoVrfs(output: string)
    requires forall k :: 0 <= k < |Lines(output)| ==> !OpensVrfRaw(Lines(output)[k])
    ensures ParseVrfDetailOutput(output) == []
  {
  }

  // ---------------------------------------------------------------- collection and lookup

  /** VRFs collected per device hostname. */
  type VrfStore = map<string, seq<VrfInfo>>

  /** `getVRFsForDevice`: the VRFs collected from the device, else the static list. */
  function VrfsForDevice(store: VrfStore, host: string, statics: seq<VrfInfo>): (r: seq<VrfInfo>)
    ensures host in store ==> r == store[host]
    ensures host !in store ==> r == statics
  {
    Lookup(store, host, statics)
  }

  /** The command that lists a device's VRFs, in its own syntax. */
  function VrfCommand(d: DeviceInfo): string {
    if IsXr(d) then "show vrf all" else "show vrf"
  }

  const DETAIL_COMMAND: string := "show vrf all detail"

  /**
   * `collectVRFsFromDevice`: run the table command, fall back to the detail
   * command when the table parses to nothing, and store a non-empty result
   * under the device's hostname. `run` gives each command's outcome.
   */
  function CollectVrfs(store: VrfStore, d: DeviceInfo, run: string -> Result<string, string>, statics: seq<VrfInfo>): (r: VrfStore)
    ensures forall h :: h in store && h != d.hostname ==> h in r && r[h] == store[h]
    ensures forall h :: h in r ==> h in store || h == d.hostname
    ensures d.hostname in r && d.hostname !in store ==> r[d.hostname] != []
    ensures d.hostname in r ==> r[d.hostname] != [] || (d.hostname in store && r[d.hostname] == store[d.hostname])
  {
    match run(VrfCommand(d))
    case Err(_) => store
    case Ok(out) =>
      var table := ParseVrfOutput(out, statics);
      var found :=
        if table != [] then table
        else if run(DETAIL_COMMAND).Ok? then ParseVrfDetailOutput(run(DETAIL_COMMAND).value)
        else [];
      if found != [] then store[d.hostname := found] else store
  }

  /** After a collection that found VRFs, the lookup returns them instead of the static list. */
  lemma CollectThenLookup(store: VrfStore, d: DeviceInfo, run: string -> Result<string, string>, statics: seq<VrfInfo>)
    requires run(VrfCommand(d)).Ok?
    requires ParseVrfOutput(run(VrfCommand(d)).value, statics) != []
    ensures VrfsForDevice(CollectVrfs(store, d, run, statics), d.hostname, statics)
            == ParseVrfOutput(run(VrfCommand(d)).value, statics)
  {
  }

  /** When the table parses to nothing, the detail command's VRFs are stored, if it finds any. */
  lemma FallbackToDetail(store: VrfStore, d: DeviceInfo, run: string -> Result<string, string>, statics: seq<VrfInfo>)
    requires run(VrfCommand(d)).Ok? && ParseVrfOutput(run(VrfCommand(d)).value, statics) == []
    requires run(DETAIL_COMMAND).Ok? && ParseVrfDetailOutput(run(DETAIL_COMMAND).value) != []
    ensures VrfsForDevice(CollectVrfs(store, d, run, statics), d.hostname, statics)
            == ParseVrfDetailOutput(run(DETAIL_COMMAND).value)
  {
  }

  /** A failed table command changes nothing, so the lookup answers as before. */
  /** When neither the table nor the detail output yields a VRF, nothing is stored and every lookup is unchanged. */
  lemma NothingFoundKeepsLookup(store: VrfStore, d: DeviceInfo, run: string -> Result<string, string>, statics: seq<VrfInfo>, host: string)
    requires run(VrfCommand(d)).Ok? && ParseVrfOutput(run(VrfCommand(d)).value, statics) == []
    requires run(DETAIL_COMMAND).Err? || ParseVrfDetailOutput(run(DETAIL_COMMAND).value) == []
    ensures CollectVrfs(store, d, run, statics) == store
    ensures VrfsForDevice(CollectVrfs(store, d, run, statics), host, statics) == VrfsForDevice(store, host, statics)
  {
  }

  lemma FailedCollectKeepsLookup(store: VrfStore, d: DeviceInfo, run: string -> Result<string, string>, statics: seq<VrfInfo>, host: string)
    requires run(VrfCommand(d)).Err?
    ensures VrfsForDevice(CollectVrfs(store, d, run, statics), host, statics) == VrfsForDevice(store, host, statics)
  {
  }
}
