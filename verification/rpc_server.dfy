/**
 * The Go remote library server: request decoding, method and keyword
 * dispatch with arity checks, the registry of live connection handles, and
 * the pure parsers applied to device output.
 *
 * SSH is abstract: dialling a device, running a command in an interactive
 * shell and summarising ping output (floating point) are parameters (`Env`).
 */
module RpcServer {
  import opened Common
  import opened Text
  import opened JsonValue
  import RpcClient

  // ---------------------------------------------------------------- wire format

  /** The decoded request: Go's `RPCRequest` struct. */
  datatype RpcRequest = RpcRequest(meth: string, args: seq<Json>, kwargs: map<string, Json>)

  /** The response struct; `traceback` is never set and is left out. */
  datatype RpcResponse = RpcResponse(status: string, ret: Json, error: string, output: string)

  function Pass(ret: Json, output: string): RpcResponse {
    RpcResponse("PASS", ret, "", output)
  }

  function Fail(error: string): RpcResponse {
    RpcResponse("FAIL", JNull, error, "")
  }

  /** A struct field of string type: absent or null leaves the zero value, another type is an error. */
  function StringField(fields: map<string, Json>, key: string): Option<string> {
    if key !in fields || fields[key] == JNull then Some("")
    else if fields[key].JStr? then Some(fields[key].s)
    else None
  }

  function ListField(fields: map<string, Json>, key: string): Option<seq<Json>> {
    if key !in fields || fields[key] == JNull then Some([])
    else if fields[key].JArr? then Some(fields[key].items)
    else None
  }

  function ObjectField(fields: map<string, Json>, key: string): Option<map<string, Json>> {
    if key !in fields || fields[key] == JNull then Some(map[])
    else if fields[key].JObj? then Some(fields[key].fields)
    else None
  }

  /** The object carries `key` with a value other than `null`. */
  predicate Given(fields: map<string, Json>, key: string) {
    key in fields && !fields[key].JNull?
  }

  /** Some field of the request has a value its struct field cannot hold. */
  predicate Mistyped(fields: map<string, Json>) {
    (Given(fields, "method") && !fields["method"].JStr?)
    || (Given(fields, "args") && !fields["args"].JArr?)
    || (Given(fields, "kwargs") && !fields["kwargs"].JObj?)
  }

  /**
   * `decoder.Decode(&req)`: a JSON `null` leaves the zero request; anything
   * else must be an object whose three fields have the struct's types. On
   * failure the server drops the connection without a reply.
   */
  function DecodeRequest(j: Json): (r: Option<RpcRequest>)
    ensures j.JNull? ==> r == Some(RpcRequest("", [], map[]))
    ensures r.None? <==> !j.JNull? && (!j.JObj? || Mistyped(j.fields))
    ensures r.Some? && j.JObj? ==>
              r.value.meth == (if Given(j.fields, "method") then j.fields["method"].s else "")
              && r.value.args == (if Given(j.fields, "args") then j.fields["args"].items else [])
              && r.value.kwargs == (if Given(j.fields, "kwargs") then j.fields["kwargs"].fields else map[])
  {
    match j
    case JNull => Some(RpcRequest("", [], map[]))
    case JObj(f) =>
      var m := StringField(f, "method");
      var a := ListField(f, "args");
      var k := ObjectField(f, "kwargs");
      if m.Some? && a.Some? && k.Some? then Some(RpcRequest(m.value, a.value, k.value)) else None
    case _ => None
  }

  /** Every envelope the client builds decodes to the request it describes. */
  lemma EnvelopeRoundTrip(meth: string, args: Option<seq<Json>>, kwargs: Option<map<string, Json>>)
    ensures DecodeRequest(RpcClient.Envelope(meth, args, kwargs))
            == Some(RpcRequest(meth, args.GetOr([]), kwargs.GetOr(map[])))
  {
  }

  /** `encoder.Encode(resp)`: `status` and `return` always, `error` and `output` only when non-empty. */
  function ResponseJson(r: RpcResponse): (j: Json)
    ensures j.JObj? && "status" in j.fields && "return" in j.fields
    ensures "error" in j.fields <==> r.error != ""
    ensures "output" in j.fields <==> r.output != ""
    ensures j.fields.Keys <= {"status", "return", "error", "output"}
  {
    var base := map["status" := JStr(r.status), "return" := r.ret];
    var withError := if r.error == "" then base else base["error" := JStr(r.error)];
    JObj(if r.output == "" then withError else withError["output" := JStr(r.output)])
  }

  /**
   * What the Python client makes of a response: the `return` value on PASS,
   * otherwise the server's error, with "Unknown error" standing in for an
   * empty one (the encoder omits it).
   */
  lemma ClientReadsResponse(r: RpcResponse)
    ensures r.status == "PASS" ==> RpcClient.Interpret(ResponseJson(r)) == Ok(r.ret)
    ensures r.status != "PASS" && r.error != "" ==>
              RpcClient.Interpret(ResponseJson(r)) == Err(RpcClient.Remote(JStr(r.error)))
    ensures r.status != "PASS" && r.error == "" ==>
              RpcClient.Interpret(ResponseJson(r)) == Err(RpcClient.Remote(JStr("Unknown error")))
  {
  }

  // ---------------------------------------------------------------- the registry

  /** What the server remembers of one device session. */
  datatype Connection = Connection(hostname: string, deviceType: string, username: string, password: string)

  /** The outside world seen by the server. */
  datatype Env = Env(
    dial: Connection -> Option<string>,                 // Some(reason) when ssh.Dial fails
    shell: (Connection, string) -> Result<string, string>,  // raw session transcript, or the full error text
    pingSummary: (string, int) -> Json)                 // parsePingOutput (floating point)

  /**
   * The live handles. `issued` counts successful connects; the source numbers
   * handles by the current size instead (see `Numbering`).
   */
  datatype Registry = Registry(conns: map<string, Connection>, issued: nat)

  const EMPTY_REGISTRY := Registry(map[], 0)

  /** How a new handle is numbered: as the source does, or from a counter that never goes back. */
  datatype Numbering = BySize | ByCounter

  function Handle(k: nat): string {
    "conn_" + NatToString(k)
  }

  lemma HandleInjective(j: nat, k: nat)
    requires Handle(j) == Handle(k)
    ensures j == k
  {
    assert Handle(j)[5..] == NatToString(j);
    assert Handle(k)[5..] == NatToString(k);
    NatToStringInjective(j, k);
  }

  function NewHandle(numbering: Numbering, reg: Registry): string {
    match numbering
    case BySize => Handle(|reg.conns| + 1)
    case ByCounter => Handle(reg.issued + 1)
  }

  /** Every live handle was issued by the counter. */
  predicate Valid(reg: Registry) {
    forall h :: h in reg.conns ==> exists k :: 1 <= k <= reg.issued && h == Handle(k)
  }

  datatype Connected = Connected(reg: Registry, handle: string)

  /** `ConnectToDevice`: dial, then store the session under a new handle. */
  function Connect(env: Env, numbering: Numbering, reg: Registry, c: Connection): (r: Result<Connected, string>)
    ensures env.dial(c).Some? <==> r.Err?
    ensures r.Err? ==> r.error == "SSH connection failed: " + env.dial(c).value
    ensures r.Ok? ==> r.value.handle == NewHandle(numbering, reg)
                      && r.value.reg.conns == reg.conns[r.value.handle := c]
                      && r.value.reg.issued == reg.issued + 1
  {
    match env.dial(c)
    case Some(e) => Err("SSH connection failed: " + e)
    case None =>
      var h := NewHandle(numbering, reg);
      Ok(Connected(Registry(reg.conns[h := c], reg.issued + 1), h))
  }

  /** `CloseConnection`: an unknown handle is an error; otherwise exactly that handle goes. */
  function Close(reg: Registry, handle: string): (r: Result<Registry, string>)
    ensures handle !in reg.conns <==> r.Err?
    ensures r.Err? ==> r.error == "invalid connection handle: " + handle
    ensures r.Ok? ==> handle !in r.value.conns && r.value.issued == reg.issued
                      && (forall h :: h in reg.conns && h != handle ==> h in r.value.conns && r.value.conns[h] == reg.conns[h])
                      && r.value.conns.Keys == reg.conns.Keys - {handle}
  {
    if handle !in reg.conns then Err("invalid connection handle: " + handle)
    else Ok(reg.(conns := reg.conns - {handle}))
  }

  /** With counter numbering, a new handle never overwrites a live one, and validity is kept. */
  lemma ConnectFresh(env: Env, reg: Registry, c: Connection)
    requires Valid(reg)
    requires Connect(env, ByCounter, reg, c).Ok?
    ensures Connect(env, ByCounter, reg, c).value.handle !in reg.conns
    ensures Valid(Connect(env, ByCounter, reg, c).value.reg)
    ensures |Connect(env, ByCounter, reg, c).value.reg.conns| == |reg.conns| + 1
  {
    var h := Handle(reg.issued + 1);
    if h in reg.conns {
      var k :| 1 <= k <= reg.issued && h == Handle(k);
      HandleInjective(k, reg.issued + 1);
    }
    var r := Connect(env, ByCounter, reg, c).value.reg;
    forall g | g in r.conns ensures exists k :: 1 <= k <= r.issued && g == Handle(k) {
      if g == h {
        assert 1 <= reg.issued + 1 <= r.issued && g == Handle(reg.issued + 1);
      } else {
        var k :| 1 <= k <= reg.issued && g == Handle(k);
        assert 1 <= k <= r.issued && g == Handle(k);
      }
    }
  }

  /** Closing keeps validity. */
  lemma CloseValid(reg: Registry, handle: string)
    requires Valid(reg) && Close(reg, handle).Ok?
    ensures Valid(Close(reg, handle).value)
  {
  }

  /** Until something is closed, the counter and the size agree, and so do the two numberings. */
  lemma NumberingsAgree(reg: Registry)
    requires reg.issued == |reg.conns|
    ensures NewHandle(BySize, reg) == NewHandle(ByCounter, reg)
  {
  }

  /** A successful dial stores the session under the new handle. */
  lemma ConnectOk(env: Env, numbering: Numbering, reg: Registry, c: Connection)
    requires env.dial(c).None?
    ensures Connect(env, numbering, reg, c)
            == Ok(Connected(Registry(reg.conns[NewHandle(numbering, reg) := c], reg.issued + 1), NewHandle(numbering, reg)))
  {
  }

  /** The first three handles are distinct: they differ in their last character. */
  lemma FirstHandlesDistinct()
    ensures Handle(1) != Handle(2) && Handle(2) != Handle(3) && Handle(1) != Handle(3)
  {
    assert Handle(1)[5] == '1' && Handle(2)[5] == '2' && Handle(3)[5] == '3';
  }

  /** The first connect on an empty registry is numbered 1 by either scheme. */
  lemma FirstConnect(env: Env, numbering: Numbering, a: Connection)
    requires env.dial(a).None?
    ensures Connect(env, numbering, EMPTY_REGISTRY, a) == Ok(Connected(Registry(map[Handle(1) := a], 1), Handle(1)))
  {
    ConnectOk(env, numbering, EMPTY_REGISTRY, a);
  }

  /** The second connect is numbered 2 by either scheme. */
  lemma SecondConnect(env: Env, numbering: Numbering, a: Connection, b: Connection)
    requires env.dial(b).None?
    ensures Connect(env, numbering, Registry(map[Handle(1) := a], 1), b)
            == Ok(Connected(Registry(map[Handle(1) := a, Handle(2) := b], 2), Handle(2)))
  {
    assert |map[Handle(1) := a]| == 1;
    ConnectOk(env, numbering, Registry(map[Handle(1) := a], 1), b);
  }

  /** Connect, connect, close the first: one session is left, under the second handle. */
  lemma ConnectTwiceCloseFirst(env: Env, numbering: Numbering, a: Connection, b: Connection)
    requires env.dial(a).None? && env.dial(b).None?
    ensures var r1 := Connect(env, numbering, EMPTY_REGISTRY, a).value;
            var r2 := Connect(env, numbering, r1.reg, b).value;
            r1.handle == Handle(1) && r2.handle == Handle(2)
            && Close(r2.reg, r1.handle) == Ok(Registry(map[Handle(2) := b], 2))
  {
    FirstHandlesDistinct();
    FirstConnect(env, numbering, a);
    SecondConnect(env, numbering, a, b);
    assert map[Handle(1) := a, Handle(2) := b] - {Handle(1)} == map[Handle(2) := b];
  }

  /**
   * The source's numbering reuses a live handle: connect, connect, close
   * the first, and the next connect hands out the second handle again, so
   * the second session is lost.
   */
  lemma HandleCollisionBySize(env: Env, a: Connection, b: Connection, c: Connection)
    requires env.dial(a).None? && env.dial(b).None? && env.dial(c).None?
    ensures var r1 := Connect(env, BySize, EMPTY_REGISTRY, a).value;
            var r2 := Connect(env, BySize, r1.reg, b).value;
            var r3 := Close(r2.reg, r1.handle).value;
            var r4 := Connect(env, BySize, r3, c).value;
            r1.handle == Handle(1) && r2.handle == Handle(2) && r4.handle == r2.handle
            && r4.handle in r3.conns && r3.conns[r4.handle] == b
            && r4.reg.conns == map[Handle(2) := c]
  {
    ConnectTwiceCloseFirst(env, BySize, a, b);
    var r3 := Registry(map[Handle(2) := b], 2);
    assert |r3.conns| == 1;
    ConnectOk(env, BySize, r3, c);
  }

  /** The same sequence with counter numbering keeps both sessions. */
  lemma NoCollisionByCounter(env: Env, a: Connection, b: Connection, c: Connection)
    requires env.dial(a).None? && env.dial(b).None? && env.dial(c).None?
    ensures var r1 := Connect(env, ByCounter, EMPTY_REGISTRY, a).value;
            var r2 := Connect(env, ByCounter, r1.reg, b).value;
            var r3 := Close(r2.reg, r1.handle).value;
            var r4 := Connect(env, ByCounter, r3, c).value;
            r4.handle == Handle(3) && r4.reg.conns == map[Handle(2) := b, Handle(3) := c]
  {
    ConnectTwiceCloseFirst(env, ByCounter, a, b);
    ConnectOk(env, ByCounter, Registry(map[Handle(2) := b], 2), c);
  }

  /** `ExecuteCommand`: the handle is checked first; the transcript is cleaned. */
  function ExecuteCommand(env: Env, reg: Registry, handle: string, command: string): (r: Result<string, string>)
    ensures handle !in reg.conns ==> r == Err("invalid connection handle: " + handle)
    ensures handle in reg.conns && env.shell(reg.conns[handle], command).Err? ==>
              r == Err(env.shell(reg.conns[handle], command).error)
    ensures handle in reg.conns && env.shell(reg.conns[handle], command).Ok? ==>
              r == Ok(CleanOutput(env.shell(reg.conns[handle], command).value, command))
  {
    if handle !in reg.conns then Err("invalid connection handle: " + handle)
    else match env.shell(reg.conns[handle], command)
      case Err(e) => Err(e)
      case Ok(raw) => Ok(CleanOutput(raw, command))
  }

  // ---------------------------------------------------------------- cleanOutput

  predicate IsPromptLine(line: string) {
    var t := TrimSpace(line);
    (Contains(t, "RP/") && Contains(t, "#") && |t| < 50)
    || ((HasSuffix(t, "#") || HasSuffix(t, ">")) && |t| < 30)
  }

  predicate IsExit(line: string) {
    TrimSpace(line) == "exit"
  }

  /** A line the cleaner keeps once the command echo has been seen. */
  predicate BodyLine(line: string) {
    !Contains(line, "terminal length") && !IsPromptLine(line)
  }

  /** The source loop over the lines, with its `inOutput` flag. */
  function CleanLines(lines: seq<string>, command: string, inOutput: bool): (r: seq<string>)
    ensures forall i :: 0 <= i < |r| ==> BodyLine(r[i]) && !IsExit(r[i])
    ensures !inOutput && (forall i :: 0 <= i < |lines| ==> !Contains(lines[i], command)) ==> r == []
  {
    if lines == [] then []
    else
      var line := lines[0];
      var t := TrimSpace(line);
      var rest := lines[1..];
      if !inOutput && t == "" then CleanLines(rest, command, inOutput)
      else if Contains(line, "terminal length") then CleanLines(rest, command, inOutput)
      else if Contains(line, command) && !inOutput then CleanLines(rest, command, true)
      else if Contains(t, "RP/") && Contains(t, "#") && |t| < 50 then CleanLines(rest, command, inOutput)
      else if (HasSuffix(t, "#") || HasSuffix(t, ">")) && |t| < 30 then CleanLines(rest, command, inOutput)
      else if t == "exit" then []
      else if inOutput then [line] + CleanLines(rest, command, inOutput)
      else CleanLines(rest, command, inOutput)
  }

  /** `cleanOutput(output, command)`. */
  function CleanOutput(output: string, command: string): string {
    JoinLines(CleanLines(Lines(output), command, false))
  }

  /** Before the echo: the line that switches to output mode. */
  predicate IsEcho(line: string, command: string) {
    TrimSpace(line) != "" && !Contains(line, "terminal length") && Contains(line, command)
  }

  /** The index of the command echo, unless an `exit` line stops the scan first. */
  function FindEcho(lines: seq<string>, command: string): (r: Option<nat>)
    ensures r.Some? ==> r.value < |lines| && IsEcho(lines[r.value], command)
                        && forall j :: 0 <= j < r.value ==> !IsEcho(lines[j], command)
  {
    if lines == [] then None
    else
      var line := lines[0];
      if TrimSpace(line) == "" || Contains(line, "terminal length") then
        match FindEcho(lines[1..], command) case None => None case Some(e) => Some(e + 1)
      else if Contains(line, command) then Some(0)
      else if IsPromptLine(line) || !IsExit(line) then
        match FindEcho(lines[1..], command) case None => None case Some(e) => Some(e + 1)
      else None
  }

  /** The lines before the first one that ends output mode. */
  function UntilExit(lines: seq<string>): (r: seq<string>)
    ensures |r| <= |lines| && r == lines[..|r|]
    ensures |r| < |lines| ==> BodyLine(lines[|r|]) && IsExit(lines[|r|])
  {
    if lines == [] then []
    else if BodyLine(lines[0]) && IsExit(lines[0]) then []
    else [lines[0]] + UntilExit(lines[1..])
  }

  /** In output mode the loop keeps exactly the body lines before the first exit. */
  lemma {:induction false} CleanLinesInOutput(lines: seq<string>, command: string)
    ensures CleanLines(lines, command, true) == Filter(UntilExit(lines), BodyLine)
  {
    if lines != [] {
      CleanLinesInOutput(lines[1..], command);
    }
  }

  /** Before the echo nothing is kept; after it the output-mode rule applies. */
  lemma {:induction false} CleanLinesBeforeEcho(lines: seq<string>, command: string)
    ensures FindEcho(lines, command).None? ==> CleanLines(lines, command, false) == []
    ensures FindEcho(lines, command).Some? ==>
              CleanLines(lines, command, false) == CleanLines(lines[FindEcho(lines, command).value + 1..], command, true)
  {
    if lines != [] {
      CleanLinesBeforeEcho(lines[1..], command);
      var e := FindEcho(lines[1..], command);
      if e.Some? {
        assert lines[1..][e.value + 1..] == lines[e.value + 2..];
      }
    }
  }

  /**
   * `cleanOutput` keeps, in order, exactly the body lines strictly after the
   * command echo and before the first `exit` line; with no echo it is empty.
   */
  lemma CleanOutputSpec(output: string, command: string)
    ensures FindEcho(Lines(output), command).None? ==> CleanOutput(output, command) == ""
    ensures FindEcho(Lines(output), command).Some? ==>
              CleanOutput(output, command)
              == JoinLines(Filter(UntilExit(Lines(output)[FindEcho(Lines(output), command).value + 1..]), BodyLine))
  {
    var ls := Lines(output);
    CleanLinesBeforeEcho(ls, command);
    var e := FindEcho(ls, command);
    if e.Some? {
      var rest := ls[e.value + 1..];
      CleanLinesInOutput(rest, command);
      assert CleanLines(ls, command, false) == Filter(UntilExit(rest), BodyLine);
    }
  }

  // ---------------------------------------------------------------- parsers

  /** `isNumeric`: the digit scan, then a non-empty check. */
  function ScanDigits(s: string, i: nat): (r: bool)
    requires i <= |s|
    ensures r <==> forall j :: i <= j < |s| ==> IsDigit(s[j])
    decreases |s| - i
  {
    if i == |s| then true
    else if s[i] < '0' || s[i] > '9' then false
    else ScanDigits(s, i + 1)
  }

  function IsNumeric(s: string): (r: bool)
    ensures r <==> |s| > 0 && AllDigits(s)
    ensures r ==> Atoi(s) == Some(DigitsValue(s))
  {
    ScanDigits(s, 0) && |s| > 0
  }

  const OSPF_KEYS: set<string> := {"neighbor_id", "priority", "state", "dead_time", "address", "interface"}

  predicate IsOspfRow(line: string) {
    Contains(line, "FULL") && Contains(line, ".") && |Fields(line)| >= 6
  }

  function OspfNeighbor(f: seq<string>): map<string, string>
    requires |f| >= 6
  {
    map["neighbor_id" := f[0], "priority" := f[1], "state" := f[2],
        "dead_time" := f[3], "address" := f[4], "interface" := f[5]]
  }

  /** `parseOSPFNeighbors` over split lines: one entry per qualifying line, in order. */
  function OspfNeighbors(lines: seq<string>): (r: seq<map<string, string>>)
    ensures |r| == CountWhere(lines, IsOspfRow)
    ensures forall i :: 0 <= i < |r| ==> r[i].Keys == OSPF_KEYS
    ensures forall i :: 0 <= i < |r| ==> forall k :: k in r[i] ==> IsToken(r[i][k])
  {
    if lines == [] then []
    else if IsOspfRow(lines[0]) then [OspfNeighbor(Fields(lines[0]))] + OspfNeighbors(lines[1..])
    else OspfNeighbors(lines[1..])
  }

  /** Entry `i` is built from the fields of the `i`-th qualifying line. */
  lemma {:induction false} OspfNeighborsInOrder(lines: seq<string>)
    ensures var r := OspfNeighbors(lines);
            |r| == |Filter(lines, IsOspfRow)|
            && forall i :: 0 <= i < |r| ==> r[i] == OspfNeighbor(Fields(Filter(lines, IsOspfRow)[i]))
  {
    if lines != [] {
      OspfNeighborsInOrder(lines[1..]);
    }
  }

  function ParseOspfNeighbors(output: string): seq<map<string, string>> {
    OspfNeighbors(Lines(output))
  }

  predicate IsBgpRow(line: string) {
    Contains(line, ".") && |Fields(line)| >= 9
  }

  /** A peer state that counts as established: mentions it, or is a prefix count. */
  predicate CountsEstablished(state: string) {
    Contains(state, "Established") || IsNumeric(state)
  }

  function BgpPeer(f: seq<string>): (p: map<string, string>)
    requires |f| >= 9
    ensures p.Keys == {"neighbor", "asn", "state"}
    ensures p["state"] == "Established" <==> CountsEstablished(f[|f| - 1])
  {
    var state := f[|f| - 1];
    assert OccursAt(state, state, 0);
    map["neighbor" := f[0], "asn" := f[1], "state" := if CountsEstablished(state) then "Established" else state]
  }

  predicate IsEstablishedPeer(p: map<string, string>) {
    "state" in p && p["state"] == "Established"
  }

  predicate IsEstablishedRow(line: string) {
    IsBgpRow(line) && CountsEstablished(Fields(line)[|Fields(line)| - 1])
  }

  datatype BgpSummary = BgpSummary(peers: seq<map<string, string>>, established: nat)

  /** `parseBGPSummary` over split lines. */
  function BgpScan(lines: seq<string>): (r: BgpSummary)
    ensures |r.peers| == CountWhere(lines, IsBgpRow)
    ensures r.established == CountWhere(r.peers, IsEstablishedPeer)
    ensures r.established == CountWhere(lines, IsEstablishedRow)
  {
    if lines == [] then BgpSummary([], 0)
    else
      var rest := BgpScan(lines[1..]);
      if IsBgpRow(lines[0]) then
        var p := BgpPeer(Fields(lines[0]));
        assert ([p] + rest.peers)[1..] == rest.peers;
        BgpSummary([p] + rest.peers, rest.established + if IsEstablishedPeer(p) then 1 else 0)
      else rest
  }

  /** Peer `i` is built from the fields of the `i`-th qualifying line: its neighbor, AS number and state. */
  lemma {:induction false} BgpPeersInOrder(lines: seq<string>)
    ensures var r := BgpScan(lines);
            |r.peers| == |Filter(lines, IsBgpRow)|
            && forall i :: 0 <= i < |r.peers| ==> r.peers[i] == BgpPeer(Fields(Filter(lines, IsBgpRow)[i]))
  {
    if lines != [] {
      BgpPeersInOrder(lines[1..]);
      if IsBgpRow(lines[0]) {
        BgpPeersCons(lines[0], BgpScan(lines).peers, BgpScan(lines[1..]).peers,
                     Filter(lines, IsBgpRow), Filter(lines[1..], IsBgpRow));
      } else {
        assert BgpScan(lines).peers == BgpScan(lines[1..]).peers;
        assert Filter(lines, IsBgpRow) == Filter(lines[1..], IsBgpRow);
      }
    }
  }

  /** One qualifying line in front of peers that already match their lines. */
  lemma BgpPeersCons(line: string, peers: seq<map<string, string>>, rest: seq<map<string, string>>,
                     f: seq<string>, tail: seq<string>)
    requires IsBgpRow(line) && peers == [BgpPeer(Fields(line))] + rest && f == [line] + tail
    requires |rest| == |tail| && forall k :: 0 <= k < |tail| ==> IsBgpRow(tail[k]) && rest[k] == BgpPeer(Fields(tail[k]))
    ensures |peers| == |f| && forall i :: 0 <= i < |peers| ==> IsBgpRow(f[i]) && peers[i] == BgpPeer(Fields(f[i]))
  {
    forall i | 0 <= i < |peers|
      ensures IsBgpRow(f[i]) && peers[i] == BgpPeer(Fields(f[i]))
    {
      if i > 0 {
        assert peers[i] == rest[i - 1] && f[i] == tail[i - 1];
      }
    }
  }

  /** The established count never exceeds the number of peers. */
  lemma EstablishedAtMostPeers(output: string)
    ensures BgpScan(Lines(output)).established <= |BgpScan(Lines(output)).peers|
  {
  }

  function BgpJson(s: BgpSummary): Json {
    JObj(map["peers" := JArr(seq(|s.peers|, i requires 0 <= i < |s.peers| => StringMap(s.peers[i]))),
             "established" := JNum(s.established)])
  }

  /** The line `GetInterfaceStatus` looks at: the first mentioning the line protocol. */
  predicate MentionsProtocol(line: string) {
    Contains(line, "line protocol")
  }

  /** `GetInterfaceStatus` after the command has run. */
  function InterfaceStatus(output: string, iface: string): (r: map<string, string>)
    ensures r.Keys == {"interface", "status", "protocol"} && r["interface"] == iface
    ensures r["status"] in {"up", "down", "unknown"} && r["protocol"] in {"up", "down", "unknown"}
    ensures r["protocol"] == "up" ==> r["status"] == "up"
    ensures r["status"] == "unknown" <==> r["protocol"] == "unknown"
    ensures FirstWhere(Lines(output), MentionsProtocol).None? ==> r["status"] == "unknown"
  {
    var ls := Lines(output);
    var base := map["interface" := iface, "status" := "unknown", "protocol" := "unknown"];
    match FirstWhere(ls, MentionsProtocol)
    case None => base
    case Some(i) =>
      var line := ls[i];
      if Contains(line, "up") then
        if Contains(ToLower(line), "line protocol is up") then base["status" := "up"]["protocol" := "up"]
        else base["status" := "up"]["protocol" := "down"]
      else if Contains(line, "down") then base["status" := "down"]["protocol" := "down"]
      else base
  }

  /** The protocol is reported up exactly when the first line holding "line protocol" holds a lowercase "up"
      and, lowercased, holds "line protocol is up". */
  lemma InterfaceUpIff(output: string, iface: string)
    ensures InterfaceStatus(output, iface)["protocol"] == "up" <==>
              (FirstWhere(Lines(output), MentionsProtocol).Some?
               && Contains(Lines(output)[FirstWhere(Lines(output), MentionsProtocol).value], "up")
               && Contains(ToLower(Lines(output)[FirstWhere(Lines(output), MentionsProtocol).value]), "line protocol is up"))
  {
  }

  /** The command `GetBGPSummary` runs. */
  function BgpCommand(vrf: string): (c: string)
    ensures (vrf == "" || vrf == "default") <==> c == "show bgp summary"
    ensures vrf != "" && vrf != "default" ==> OccursAt(c, vrf, 13)
    ensures vrf != "" && vrf != "default" ==> HasPrefix(c, "show bgp vrf ") && HasSuffix(c, " summary") && |c| == |vrf| + 21
  {
    if vrf == "" || vrf == "default" then "show bgp summary"
    else "show bgp vrf " + vrf + " summary"
  }

  /** The command `PingTest` runs. */
  function PingCommand(target: string, vrf: string, count: int): (c: string)
    ensures HasPrefix(c, "ping ") && HasSuffix(c, " count " + IntToString(count))
    ensures vrf == "" || vrf == "default" ==> |c| == 12 + |target| + |IntToString(count)|
    ensures vrf != "" && vrf != "default" ==> |c| == 17 + |vrf| + |target| + |IntToString(count)|
  {
    var dest := if vrf == "" || vrf == "default" then target else "vrf " + vrf + " " + target;
    PingShapeOf(dest, IntToString(count));
    "ping " + dest + " count " + IntToString(count)
  }

  /** The ping goes to `target`, inside the VRF unless it is the default one, with the requested count last. */
  lemma PingCommandShape(target: string, vrf: string, count: int)
    ensures var c := PingCommand(target, vrf, count);
            HasPrefix(c, "ping ") && HasSuffix(c, " count " + IntToString(count))
    ensures vrf == "" || vrf == "default" ==> OccursAt(PingCommand(target, vrf, count), target, 5)
    ensures vrf != "" && vrf != "default" ==> OccursAt(PingCommand(target, vrf, count), "vrf " + vrf + " " + target, 5)
    ensures var dest := if vrf == "" || vrf == "default" then target else "vrf " + vrf + " " + target;
            |PingCommand(target, vrf, count)| == 5 + |dest| + 7 + |IntToString(count)|
  {
    var dest := if vrf == "" || vrf == "default" then target else "vrf " + vrf + " " + target;
    PingShapeOf(dest, IntToString(count));
  }

  lemma PingShapeOf(dest: string, n: string)
    ensures var c := "ping " + dest + " count " + n;
            HasPrefix(c, "ping ") && HasSuffix(c, " count " + n) && OccursAt(c, dest, 5)
  {
    var c := "ping " + dest + " count " + n;
    var tail := " count " + n;
    assert c == "ping " + dest + tail;
    assert c[|c| - |tail|..] == tail;
    assert c[5..5 + |dest|] == dest;
  }

  // ---------------------------------------------------------------- dispatch

  /** The outcome of one request: a response and the registry after it, or a type-assertion panic. */
  datatype Reply = Handled(reg: Registry, resp: RpcResponse) | Panicked

  const KEYWORD_NAMES: seq<string> := [
    "Connect To Device", "Execute Command", "Get OSPF Neighbors", "Get BGP Summary",
    "Get Interface Status", "Ping Test", "Close Connection"]

  /** The minimum positional arguments of each keyword and the message for too few. */
  datatype Arity = Arity(min: nat, message: string)

  const ARITIES: seq<Arity> := [
    Arity(4, "Expected 4 arguments: hostname, device_type, username, password"),
    Arity(2, "Expected 2 arguments: handle, command"),
    Arity(1, "Expected 1 argument: handle"),
    Arity(1, "Expected at least 1 argument: handle"),
    Arity(2, "Expected 2 arguments: handle, interface"),
    Arity(3, "Expected 3+ arguments: handle, target, vrf, [count]"),
    Arity(1, "Expected 1 argument: handle")]

  function ListJson(ms: seq<map<string, string>>): Json {
    JArr(seq(|ms|, i requires 0 <= i < |ms| => StringMap(ms[i])))
  }

  function RunConnect(env: Env, numbering: Numbering, reg: Registry, args: seq<Json>): Reply {
    if |args| < 4 then Handled(reg, Fail(ARITIES[0].message))
    else if !(args[0].JStr? && args[1].JStr? && args[2].JStr? && args[3].JStr?) then Panicked
    else
      var c := Connection(args[0].s, args[1].s, args[2].s, args[3].s);
      match Connect(env, numbering, reg, c)
      case Err(e) => Handled(reg, Fail(e))
      case Ok(done) => Handled(done.reg, Pass(JStr(done.handle), "Connected to " + c.hostname))
  }

  function RunExecute(env: Env, reg: Registry, args: seq<Json>): Reply {
    if |args| < 2 then Handled(reg, Fail(ARITIES[1].message))
    else if !(args[0].JStr? && args[1].JStr?) then Panicked
    else match ExecuteCommand(env, reg, args[0].s, args[1].s)
      case Err(e) => Handled(reg, Fail(e))
      case Ok(out) => Handled(reg, Pass(JStr(out), ""))
  }

  function OspfResponse(out: string): RpcResponse {
    var ns := ParseOspfNeighbors(out);
    Pass(ListJson(ns), "Found " + IntToString(|ns|) + " OSPF neighbors")
  }

  function RunOspf(env: Env, reg: Registry, args: seq<Json>): Reply {
    if |args| < 1 then Handled(reg, Fail(ARITIES[2].message))
    else if !args[0].JStr? then Panicked
    else match ExecuteCommand(env, reg, args[0].s, "show ospf neighbor")
      case Err(e) => Handled(reg, Fail(e))
      case Ok(out) => Handled(reg, OspfResponse(out))
  }

  function RunBgp(env: Env, reg: Registry, args: seq<Json>): Reply {
    if |args| < 1 then Handled(reg, Fail(ARITIES[3].message))
    else if (|args| > 1 && !args[1].JStr?) || !args[0].JStr? then Panicked
    else
      var vrf := if |args| > 1 then args[1].s else "";
      match ExecuteCommand(env, reg, args[0].s, BgpCommand(vrf))
      case Err(e) => Handled(reg, Fail(e))
      case Ok(out) => Handled(reg, Pass(BgpJson(BgpScan(Lines(out))), ""))
  }

  function RunInterface(env: Env, reg: Registry, args: seq<Json>): Reply {
    if |args| < 2 then Handled(reg, Fail(ARITIES[4].message))
    else if !(args[0].JStr? && args[1].JStr?) then Panicked
    else
      var iface := args[1].s;
      match ExecuteCommand(env, reg, args[0].s, "show interface " + iface)
      case Err(e) => Handled(reg, Fail(e))
      case Ok(out) => Handled(reg, Pass(StringMap(InterfaceStatus(out, iface)), ""))
  }

  function RunPing(env: Env, reg: Registry, args: seq<Json>): Reply {
    if |args| < 3 then Handled(reg, Fail(ARITIES[5].message))
    else if (|args| > 3 && !args[3].JNum?) || !(args[0].JStr? && args[1].JStr? && args[2].JStr?) then Panicked
    else
      var count := if |args| > 3 then args[3].n else 5;
      match ExecuteCommand(env, reg, args[0].s, PingCommand(args[1].s, args[2].s, count))
      case Err(e) => Handled(reg, Fail(e))
      case Ok(out) => Handled(reg, Pass(env.pingSummary(out, count), ""))
  }

  function RunClose(reg: Registry, args: seq<Json>): Reply {
    if |args| < 1 then Handled(reg, Fail(ARITIES[6].message))
    else if !args[0].JStr? then Panicked
    else match Close(reg, args[0].s)
      case Err(e) => Handled(reg, Fail(e))
      case Ok(r) => Handled(r, RpcResponse("PASS", JNull, "", "Connection closed"))
  }

  /** `runKeyword`: dispatch on the keyword name. */
  function RunKeyword(env: Env, numbering: Numbering, reg: Registry, keyword: string, args: seq<Json>): Reply {
    if keyword == KEYWORD_NAMES[0] then RunConnect(env, numbering, reg, args)
    else if keyword == KEYWORD_NAMES[1] then RunExecute(env, reg, args)
    else if keyword == KEYWORD_NAMES[2] then RunOspf(env, reg, args)
    else if keyword == KEYWORD_NAMES[3] then RunBgp(env, reg, args)
    else if keyword == KEYWORD_NAMES[4] then RunInterface(env, reg, args)
    else if keyword == KEYWORD_NAMES[5] then RunPing(env, reg, args)
    else if keyword == KEYWORD_NAMES[6] then RunClose(reg, args)
    else Handled(reg, Fail("Unknown keyword: " + keyword))
  }

  /** `HandleRequest`. */
  function HandleRequest(env: Env, numbering: Numbering, reg: Registry, req: RpcRequest): (r: Reply)
    ensures req.meth != "run_keyword" ==> r.Handled? && r.reg == reg
    ensures r.Panicked? ==> req.meth == "run_keyword" && req.args != []
    ensures r.Handled? && r.reg != reg ==>
              req.meth == "run_keyword" && req.args != []
              && (req.args[0] == JStr("Connect To Device") || req.args[0] == JStr("Close Connection"))
  {
    if req.meth == "get_keyword_names" then
      Handled(reg, Pass(JArr(seq(|KEYWORD_NAMES|, i requires 0 <= i < |KEYWORD_NAMES| => JStr(KEYWORD_NAMES[i]))), ""))
    else if req.meth == "run_keyword" then
      if |req.args| < 1 then Handled(reg, Fail("No keyword specified"))
      else if !req.args[0].JStr? || (|req.args| > 1 && !req.args[1].JArr?) then Panicked
      else
        var args := if |req.args| > 1 then req.args[1].items else [];
        var out := RunKeyword(env, numbering, reg, req.args[0].s, args);
        if out.Handled? then RegistryEffects(env, numbering, reg, req.args[0].s, args); out
        else out
    else Handled(reg, Fail("Unknown method: " + req.meth))
  }

  // ---------------------------------------------------------------- dispatch properties

  /** `get_keyword_names` lists the seven keywords in order and touches nothing. */
  lemma KeywordNamesListed(env: Env, numbering: Numbering, reg: Registry, args: seq<Json>, kwargs: map<string, Json>)
    ensures var r := HandleRequest(env, numbering, reg, RpcRequest("get_keyword_names", args, kwargs));
            r.Handled? && r.reg == reg && r.resp.status == "PASS" && r.resp.ret.JArr?
            && |r.resp.ret.items| == 7
            && forall i :: 0 <= i < 7 ==> r.resp.ret.items[i] == JStr(KEYWORD_NAMES[i])
  {
  }

  /** Method-level errors: no keyword, and an unknown method. */
  lemma MethodErrors(env: Env, numbering: Numbering, reg: Registry, req: RpcRequest)
    ensures req.meth == "run_keyword" && req.args == [] ==>
              HandleRequest(env, numbering, reg, req) == Handled(reg, Fail("No keyword specified"))
    ensures req.meth != "run_keyword" && req.meth != "get_keyword_names" ==>
              HandleRequest(env, numbering, reg, req) == Handled(reg, Fail("Unknown method: " + req.meth))
    ensures req.meth == "run_keyword" && |req.args| == 1 && req.args[0].JStr? ==>
              HandleRequest(env, numbering, reg, req) == RunKeyword(env, numbering, reg, req.args[0].s, [])
  {
  }

  /**
   * Each keyword fails with its own message when given fewer than its minimum
   * arguments, before the registry or the device is consulted.
   */
  lemma ArityChecked(env: Env, numbering: Numbering, reg: Registry, i: nat, args: seq<Json>)
    requires i < |KEYWORD_NAMES| && |args| < ARITIES[i].min
    ensures RunKeyword(env, numbering, reg, KEYWORD_NAMES[i], args) == Handled(reg, Fail(ARITIES[i].message))
  {
  }

  lemma UnknownKeyword(env: Env, numbering: Numbering, reg: Registry, keyword: string, args: seq<Json>)
    requires keyword !in KEYWORD_NAMES
    ensures RunKeyword(env, numbering, reg, keyword, args) == Handled(reg, Fail("Unknown keyword: " + keyword))
  {
  }

  /** Optional arguments: the BGP vrf defaults to "" (the global table) and the ping count to 5. */
  lemma OptionalArguments(env: Env, numbering: Numbering, reg: Registry, h: string, target: string, vrf: string)
    ensures RunKeyword(env, numbering, reg, "Get BGP Summary", [JStr(h)])
            == RunKeyword(env, numbering, reg, "Get BGP Summary", [JStr(h), JStr("")])
            == RunKeyword(env, numbering, reg, "Get BGP Summary", [JStr(h), JStr("default")])
    ensures RunKeyword(env, numbering, reg, "Ping Test", [JStr(h), JStr(target), JStr(vrf)])
            == RunKeyword(env, numbering, reg, "Ping Test", [JStr(h), JStr(target), JStr(vrf), JNum(5)])
  {
    assert RunKeyword(env, numbering, reg, "Get BGP Summary", [JStr(h)]) == RunBgp(env, reg, [JStr(h)]);
    assert RunKeyword(env, numbering, reg, "Get BGP Summary", [JStr(h), JStr("")]) == RunBgp(env, reg, [JStr(h), JStr("")]);
    assert RunKeyword(env, numbering, reg, "Get BGP Summary", [JStr(h), JStr("default")])
        == RunBgp(env, reg, [JStr(h), JStr("default")]);
    assert BgpCommand("") == BgpCommand("default");
    assert RunKeyword(env, numbering, reg, "Ping Test", [JStr(h), JStr(target), JStr(vrf)])
        == RunPing(env, reg, [JStr(h), JStr(target), JStr(vrf)]);
    assert RunKeyword(env, numbering, reg, "Ping Test", [JStr(h), JStr(target), JStr(vrf), JNum(5)])
        == RunPing(env, reg, [JStr(h), JStr(target), JStr(vrf), JNum(5)]);
  }

  /** Only connect and close change the registry, and with counter numbering it stays valid. */
  lemma RegistryEffects(env: Env, numbering: Numbering, reg: Registry, keyword: string, args: seq<Json>)
    requires RunKeyword(env, numbering, reg, keyword, args).Handled?
    ensures keyword != "Connect To Device" && keyword != "Close Connection" ==>
              RunKeyword(env, numbering, reg, keyword, args).reg == reg
    ensures numbering == ByCounter && Valid(reg) ==> Valid(RunKeyword(env, numbering, reg, keyword, args).reg)
  {
    if numbering == ByCounter && Valid(reg) && |args| >= 4 && keyword == "Connect To Device"
       && args[0].JStr? && args[1].JStr? && args[2].JStr? && args[3].JStr? {
      var c := Connection(args[0].s, args[1].s, args[2].s, args[3].s);
      if Connect(env, numbering, reg, c).Ok? {
        ConnectFresh(env, reg, c);
      }
    }
  }

  /**
   * Every client facade call decodes to `run_keyword`, dispatches to the
   * keyword of the same name with the same positional arguments, always has
   * enough of them and never trips a type assertion.
   */
  lemma FacadeDispatch(env: Env, numbering: Numbering, reg: Registry, k: RpcClient.Keyword)
    ensures var name := RpcClient.KeywordName(k);
            var pos := RpcClient.Positional(k);
            var req := DecodeRequest(RpcClient.Envelope("run_keyword", Some([JStr(name), JArr(pos)]), Some(map[])));
            req == Some(RpcRequest("run_keyword", [JStr(name), JArr(pos)], map[]))
            && HandleRequest(env, numbering, reg, req.value) == RunKeyword(env, numbering, reg, name, pos)
            && RunKeyword(env, numbering, reg, name, pos).Handled?
  {
    var name := RpcClient.KeywordName(k);
    EnvelopeRoundTrip("run_keyword", Some([JStr(name), JArr(RpcClient.Positional(k))]), Some(map[]));
    FacadeKnown(k);
  }

  /** Every facade keyword is one the server knows, called with at least its minimum number of arguments. */
  lemma FacadeKnown(k: RpcClient.Keyword)
    ensures exists i :: 0 <= i < |KEYWORD_NAMES| && KEYWORD_NAMES[i] == RpcClient.KeywordName(k)
                        && |RpcClient.Positional(k)| >= ARITIES[i].min
  {
    var name := RpcClient.KeywordName(k);
    match k
    case ConnectToDevice(_, _, _, _) => assert KEYWORD_NAMES[0] == name;
    case ExecuteCommand(_, _) => assert KEYWORD_NAMES[1] == name;
    case GetOspfNeighbors(_) => assert KEYWORD_NAMES[2] == name;
    case GetBgpSummary(_, _) => assert KEYWORD_NAMES[3] == name;
    case GetInterfaceStatus(_, _) => assert KEYWORD_NAMES[4] == name;
    case PingTest(_, _, _, _) => assert KEYWORD_NAMES[5] == name;
    case CloseConnection(_) => assert KEYWORD_NAMES[6] == name;
  }
}
