/**
 * The Python JSON-RPC client (`GoNetworkLibrary._send_request` and its
 * keyword facade).
 *
 * One call opens a TCP connection, writes the request envelope followed by a
 * newline, reads chunks until the accumulated bytes parse as JSON (the reply
 * carries no length prefix), closes the socket and interprets the reply's
 * `status` / `return` / `error` fields. Every failure becomes one exception
 * message.
 *
 * The socket is a script of outcomes: one per connect, send and close step,
 * and the sequence of events the successive `recv` calls see. The JSON
 * serialiser, UTF-8 decoder and JSON parser are parameters (`Codec`).
 */
module RpcClient {
  import opened Common
  import opened Text
  import opened JsonValue

  newtype byte = x: int | 0 <= x < 256

  const NEWLINE: byte := 10

  /** The library calls the transport uses, left abstract. */
  datatype Codec = Codec(
    dumps: Json -> seq<byte>,                  // json.dumps(request).encode()
    decode: seq<byte> -> Result<string, string>,  // bytes.decode(); Err carries the UnicodeDecodeError text
    loads: string -> Result<Json, string>)       // json.loads; Err carries the JSONDecodeError text

  /** The outcome of one blocking socket operation. */
  datatype Step = Done | TimedOut | Failed(reason: string)

  /** What one `sock.recv(4096)` call sees; `Chunk([])` is the peer closing the stream. */
  datatype RecvEvent = Chunk(data: seq<byte>) | RecvTimeout | RecvFailed(reason: string)

  /**
   * The behaviour of the socket during one call. `close` is the explicit close
   * after the receive loop; `finalClose` is the one in the `finally` clause.
   * Running out of `recv` events means no more data arrives, so the receive
   * timeout fires.
   */
  datatype Socket = Socket(connect: Step, send: Step, recv: seq<RecvEvent>, close: Step, finalClose: Step)

  /** The library instance: where the server is. */
  datatype Library = Library(host: string, port: int)

  /** `GoNetworkLibrary(host='localhost', port=8270)`. */
  function NewLibrary(host: string := "localhost", port: int := 8270): (lib: Library)
    ensures lib.host == host && lib.port == port
  {
    Library(host, port)
  }

  /** Why a call failed, before it is turned into the exception text. */
  datatype Failure =
    | Timeout                           // socket.timeout from connect, send, recv or close
    | SocketError(reason: string)       // any other OSError
    | Undecodable(reason: string)       // UnicodeDecodeError from bytes.decode()
    | Malformed(reason: string)         // JSONDecodeError from the final json.loads
    | NotAnObject(typeName: string)     // the reply has no `.get` (AttributeError)
    | Remote(error: Json)               // status other than "PASS"

  /** What the caller gets back: the value of `return`, or an exception. */
  datatype Outcome = Returned(value: Json) | Raised(message: string)

  /** One call: the bytes handed to `sendall` (empty if connect failed) and the outcome. */
  datatype Exchange = Exchange(payload: seq<byte>, outcome: Outcome)

  // ---------------------------------------------------------------- envelope

  /** The request dictionary, with `args` defaulting to `[]` and `kwargs` to `{}`. */
  function Envelope(meth: string, args: Option<seq<Json>>, kwargs: Option<map<string, Json>>): (r: Json)
    ensures r.JObj? && r.fields.Keys == {"method", "args", "kwargs"}
    ensures r.fields["method"] == JStr(meth)
    ensures args.None? ==> r.fields["args"] == JArr([])
    ensures args.Some? ==> r.fields["args"] == JArr(args.value)
    ensures kwargs.None? ==> r.fields["kwargs"] == JObj(map[])
    ensures kwargs.Some? ==> r.fields["kwargs"] == JObj(kwargs.value)
  {
    JObj(map["method" := JStr(meth), "args" := JArr(args.GetOr([])), "kwargs" := JObj(kwargs.GetOr(map[]))])
  }

  /** The bytes written to the socket: the serialised envelope and one newline. */
  function RequestBytes(codec: Codec, request: Json): (b: seq<byte>)
    ensures |b| >= 1 && b[|b| - 1] == NEWLINE
    ensures b[..|b| - 1] == codec.dumps(request)
  {
    codec.dumps(request) + [NEWLINE]
  }

  // ---------------------------------------------------------------- framing

  /**
   * Whether decoding failures of a partial buffer end the call (as the source
   * does) or are treated like an incomplete document (see README, Findings).
   */
  datatype Mode = AsWritten | Corrected

  /** The receive loop's result. `read` is how many `recv` events were consumed. */
  datatype Framing =
    | Framed(buffer: seq<byte>, read: nat)        // the accumulated bytes parse
    | PeerClosed(buffer: seq<byte>, read: nat)    // an empty chunk arrived first
    | RecvError(failure: Failure)

  /** The check made after every chunk: does the buffer decode and parse? */
  predicate Parses(codec: Codec, buf: seq<byte>) {
    codec.decode(buf).Ok? && codec.loads(codec.decode(buf).value).Ok?
  }

  /** The reply a buffer parses to, if it does. */
  function Parsed(codec: Codec, buf: seq<byte>): (r: Option<Json>)
    ensures r.Some? <==> Parses(codec, buf)
  {
    if Parses(codec, buf) then Some(codec.loads(codec.decode(buf).value).value) else None
  }

  /** The bytes carried by a run of `recv` events. */
  function Concat(events: seq<RecvEvent>): seq<byte> {
    if events == [] then []
    else Concat(events[..|events| - 1]) + (if events[|events| - 1].Chunk? then events[|events| - 1].data else [])
  }

  /** A run of events every one of which delivered data. */
  predicate AllData(events: seq<RecvEvent>) {
    forall j :: 0 <= j < |events| ==> events[j].Chunk? && events[j].data != []
  }

  /** The reference definition of the receive loop, from event `i` on, with `buf` accumulated so far. */
  function FrameFrom(events: seq<RecvEvent>, codec: Codec, mode: Mode, i: nat, buf: seq<byte>): Framing
    requires i <= |events|
    decreases |events| - i
  {
    if i == |events| then RecvError(Timeout)
    else match events[i]
      case RecvTimeout => RecvError(Timeout)
      case RecvFailed(r) => RecvError(SocketError(r))
      case Chunk(data) =>
        if data == [] then PeerClosed(buf, i + 1)
        else
          var b := buf + data;
          match codec.decode(b)
          case Err(m) =>
            if mode == AsWritten then RecvError(Undecodable(m))
            else FrameFrom(events, codec, mode, i + 1, b)
          case Ok(text) =>
            if codec.loads(text).Ok? then Framed(b, i + 1)
            else FrameFrom(events, codec, mode, i + 1, b)
  }

  function Frame(events: seq<RecvEvent>, codec: Codec, mode: Mode): Framing {
    FrameFrom(events, codec, mode, 0, [])
  }

  /** The receive loop as the source writes it: append each chunk, stop at the first buffer that parses. */
  method Receive(events: seq<RecvEvent>, codec: Codec, mode: Mode) returns (r: Framing)
    ensures r == Frame(events, codec, mode)
  {
    var buf: seq<byte> := [];
    var i := 0;
    while true
      invariant 0 <= i <= |events|
      invariant FrameFrom(events, codec, mode, i, buf) == Frame(events, codec, mode)
      decreases |events| - i
    {
      if i == |events| {
        return RecvError(Timeout);
      }
      var ev := events[i];
      if ev.RecvTimeout? {
        return RecvError(Timeout);
      }
      if ev.RecvFailed? {
        return RecvError(SocketError(ev.reason));
      }
      var chunk := ev.data;
      if chunk == [] {
        return PeerClosed(buf, i + 1);
      }
      buf := buf + chunk;
      i := i + 1;
      var text := codec.decode(buf);
      if text.Err? {
        if mode == AsWritten {
          return RecvError(Undecodable(text.error));
        }
      } else if codec.loads(text.value).Ok? {
        return Framed(buf, i);
      }
    }
  }

  /**
   * What a finished loop has seen: the buffer is the concatenation of the
   * first `read` events, all of which carried data except, when the peer
   * closed, the last; and no shorter run of them parsed.
   */
  lemma {:induction false} FrameFromShape(events: seq<RecvEvent>, codec: Codec, mode: Mode, i: nat, buf: seq<byte>)
    requires i <= |events|
    requires buf == Concat(events[..i]) && AllData(events[..i])
    requires forall j :: 1 <= j <= i ==> !Parses(codec, Concat(events[..j]))
    ensures var f := FrameFrom(events, codec, mode, i, buf);
            f.Framed? ==> i < f.read <= |events| && f.buffer == Concat(events[..f.read])
                          && AllData(events[..f.read]) && Parses(codec, f.buffer)
                          && forall j :: 1 <= j < f.read ==> !Parses(codec, Concat(events[..j]))
    ensures var f := FrameFrom(events, codec, mode, i, buf);
            f.PeerClosed? ==> i < f.read <= |events| && f.buffer == Concat(events[..f.read - 1])
                              && AllData(events[..f.read - 1]) && events[f.read - 1] == Chunk([])
                              && forall j :: 1 <= j < f.read ==> !Parses(codec, Concat(events[..j]))
    decreases |events| - i
  {
    if i < |events| && events[i].Chunk? {
      var data := events[i].data;
      ChunkStep(events, i, buf);
      if data != [] && !Parses(codec, buf + data) && (codec.decode(buf + data).Ok? || mode != AsWritten) {
        FrameFromShape(events, codec, mode, i + 1, buf + data);
      }
    }
  }

  /** One more chunk: the buffer grows by its bytes and, when it carried any, the run is still all data. */
  lemma ChunkStep(events: seq<RecvEvent>, i: nat, buf: seq<byte>)
    requires i < |events| && events[i].Chunk?
    requires buf == Concat(events[..i]) && AllData(events[..i])
    ensures Concat(events[..i + 1]) == buf + events[i].data
    ensures events[..i + 1][..i] == events[..i]
    ensures events[i].data != [] ==> AllData(events[..i + 1])
  {
    assert events[..i + 1][..i] == events[..i];
    if events[i].data != [] {
      forall j | 0 <= j < i + 1 ensures events[j].Chunk? && events[j].data != [] {
        if j < i { assert events[..i][j] == events[j]; }
      }
    }
  }

  /** The framing property of the whole loop, from an empty buffer. */
  lemma FrameShape(events: seq<RecvEvent>, codec: Codec, mode: Mode)
    ensures var f := Frame(events, codec, mode);
            f.Framed? ==> 1 <= f.read <= |events| && f.buffer == Concat(events[..f.read])
                          && AllData(events[..f.read]) && Parses(codec, f.buffer)
                          && forall j :: 1 <= j < f.read ==> !Parses(codec, Concat(events[..j]))
    ensures var f := Frame(events, codec, mode);
            f.PeerClosed? ==> 1 <= f.read <= |events| && f.buffer == Concat(events[..f.read - 1])
                              && events[f.read - 1] == Chunk([])
                              && forall j :: 1 <= j < f.read ==> !Parses(codec, Concat(events[..j]))
  {
    assert events[..0] == [];
    FrameFromShape(events, codec, mode, 0, []);
  }

  /** Events after the one that ended the loop are never read. */
  lemma {:induction false} FrameFromIgnoresLater(events: seq<RecvEvent>, more: seq<RecvEvent>, codec: Codec, mode: Mode, i: nat, buf: seq<byte>)
    requires i <= |events|
    requires !FrameFrom(events, codec, mode, i, buf).RecvError? || FrameFrom(events, codec, mode, i, buf).failure != Timeout
             || exists j :: i <= j < |events| && events[j] == RecvTimeout
    ensures FrameFrom(events + more, codec, mode, i, buf) == FrameFrom(events, codec, mode, i, buf)
    decreases |events| - i
  {
    var all := events + more;
    if i < |events| {
      assert all[i] == events[i];
      if events[i].Chunk? && events[i].data != [] {
        var b := buf + events[i].data;
        if !Parses(codec, b) && !(codec.decode(b).Err? && mode == AsWritten) {
          if exists j :: i <= j < |events| && events[j] == RecvTimeout {
            var j :| i <= j < |events| && events[j] == RecvTimeout;
            assert j != i;
          }
          FrameFromIgnoresLater(events, more, codec, mode, i + 1, b);
        }
      }
    }
  }

  /** Once the loop has stopped on data or on the peer closing, later events change nothing. */
  lemma LaterEventsUnread(events: seq<RecvEvent>, more: seq<RecvEvent>, codec: Codec, mode: Mode)
    requires Frame(events, codec, mode).Framed? || Frame(events, codec, mode).PeerClosed?
    ensures Frame(events + more, codec, mode) == Frame(events, codec, mode)
  {
    FrameFromIgnoresLater(events, more, codec, mode, 0, []);
  }

  // ---------------------------------------------------------------- reply

  /** Python's type name of a decoded value, as an AttributeError reports it. */
  function TypeName(j: Json): string {
    match j
    case JNull => "NoneType"
    case JBool(_) => "bool"
    case JNum(_) => "int"
    case JStr(_) => "str"
    case JArr(_) => "list"
    case JObj(_) => "dict"
  }

  /** Python's `str()` of the `error` value inside the f-string. */
  function PyStr(j: Json): string {
    match j
    case JStr(s) => s
    case JNull => "None"
    case JBool(b) => if b then "True" else "False"
    case JNum(n) => IntToString(n)
    case JArr(_) => "[...]"
    case JObj(_) => "{...}"
  }

  /** The reply's meaning: `return` on status "PASS", a remote failure otherwise. */
  function Interpret(reply: Json): (r: Result<Json, Failure>)
    ensures !reply.JObj? ==> r == Err(NotAnObject(TypeName(reply)))
    ensures reply.JObj? && Get(reply.fields, "status", JNull) == JStr("PASS") ==>
              r == Ok(Get(reply.fields, "return", JNull))
    ensures reply.JObj? && Get(reply.fields, "status", JNull) != JStr("PASS") ==>
              r == Err(Remote(Get(reply.fields, "error", JStr("Unknown error"))))
  {
    if !reply.JObj? then Err(NotAnObject(TypeName(reply)))
    else if Get(reply.fields, "status", JNull) == JStr("PASS") then Ok(Get(reply.fields, "return", JNull))
    else Err(Remote(Get(reply.fields, "error", JStr("Unknown error"))))
  }

  /**
   * The exception text. A timeout is reported on its own; everything else
   * passes through the generic handler, which prefixes "Connection error: ".
   */
  function Message(lib: Library, f: Failure): string {
    match f
    case Timeout => "Timeout connecting to " + lib.host + ":" + IntToString(lib.port)
    case SocketError(r) => "Connection error: " + r
    case Undecodable(r) => "Connection error: " + r
    case Malformed(r) => "Connection error: " + r
    case NotAnObject(t) => "Connection error: '" + t + "' object has no attribute 'get'"
    case Remote(e) => "Connection error: Go server error: " + PyStr(e)
  }

  function StepFailure(s: Step): Failure
    requires s != Done
  {
    if s == TimedOut then Timeout else SocketError(s.reason)
  }

  /** What follows the receive loop: close, decode, parse, interpret. */
  function Finish(sock: Socket, codec: Codec, buf: seq<byte>): Result<Json, Failure> {
    if sock.close != Done then Err(StepFailure(sock.close))
    else match codec.decode(buf)
      case Err(m) => Err(Undecodable(m))
      case Ok(text) =>
        match codec.loads(text)
        case Err(m) => Err(Malformed(m))
        case Ok(reply) => Interpret(reply)
  }

  /** The transport result before it becomes a return value or an exception. */
  function Transport(sock: Socket, codec: Codec, mode: Mode): Result<Json, Failure> {
    if sock.connect != Done then Err(StepFailure(sock.connect))
    else if sock.send != Done then Err(StepFailure(sock.send))
    else match Frame(sock.recv, codec, mode)
      case RecvError(f) => Err(f)
      case Framed(buf, _) => Finish(sock, codec, buf)
      case PeerClosed(buf, _) => Finish(sock, codec, buf)
  }

  /** `_send_request(method, args, kwargs)`. */
  function SendRequest(lib: Library, sock: Socket, codec: Codec, mode: Mode,
                       meth: string, args: Option<seq<Json>>, kwargs: Option<map<string, Json>>): Exchange
  {
    var payload := if sock.connect == Done then RequestBytes(codec, Envelope(meth, args, kwargs)) else [];
    match Transport(sock, codec, mode)
    case Ok(v) => Exchange(payload, Returned(v))
    case Err(f) => Exchange(payload, Raised(Message(lib, f)))
  }

  // ---------------------------------------------------------------- call properties

  /** Once connected, exactly the serialised envelope and one newline are handed to `sendall`. */
  lemma PayloadIsEnvelope(lib: Library, sock: Socket, codec: Codec, mode: Mode,
                          meth: string, args: Option<seq<Json>>, kwargs: Option<map<string, Json>>)
    requires sock.connect == Done
    ensures SendRequest(lib, sock, codec, mode, meth, args, kwargs).payload
            == codec.dumps(Envelope(meth, args, kwargs)) + [NEWLINE]
  {
  }

  /** A framed buffer that parses, on a socket that closes cleanly, is interpreted as it stands. */
  lemma FramedReply(sock: Socket, codec: Codec, mode: Mode, reply: Json)
    requires sock.connect == Done && sock.send == Done && sock.close == Done
    requires Frame(sock.recv, codec, mode).Framed?
    requires Parsed(codec, Frame(sock.recv, codec, mode).buffer) == Some(reply)
    ensures Transport(sock, codec, mode) == Interpret(reply)
  {
  }

  /** A reply with status "PASS" returns its `return` field unchanged, or None when absent. */
  lemma PassReturnsValue(lib: Library, sock: Socket, codec: Codec, mode: Mode,
                         meth: string, args: Option<seq<Json>>, kwargs: Option<map<string, Json>>,
                         fields: map<string, Json>)
    requires sock.connect == Done && sock.send == Done && sock.close == Done
    requires Frame(sock.recv, codec, mode).Framed?
    requires Parsed(codec, Frame(sock.recv, codec, mode).buffer) == Some(JObj(fields))
    requires "status" in fields && fields["status"] == JStr("PASS")
    ensures "return" in fields ==> SendRequest(lib, sock, codec, mode, meth, args, kwargs).outcome == Returned(fields["return"])
    ensures "return" !in fields ==> SendRequest(lib, sock, codec, mode, meth, args, kwargs).outcome == Returned(JNull)
  {
    FramedReply(sock, codec, mode, JObj(fields));
  }

  /**
   * Any other status, a missing one included, raises the server's error
   * re-wrapped by the generic handler, with 'Unknown error' when absent.
   */
  lemma OtherStatusRaises(lib: Library, sock: Socket, codec: Codec, mode: Mode,
                          meth: string, args: Option<seq<Json>>, kwargs: Option<map<string, Json>>,
                          fields: map<string, Json>)
    requires sock.connect == Done && sock.send == Done && sock.close == Done
    requires Frame(sock.recv, codec, mode).Framed?
    requires Parsed(codec, Frame(sock.recv, codec, mode).buffer) == Some(JObj(fields))
    requires "status" !in fields || fields["status"] != JStr("PASS")
    ensures "error" in fields ==> SendRequest(lib, sock, codec, mode, meth, args, kwargs).outcome
                                  == Raised("Connection error: Go server error: " + PyStr(fields["error"]))
    ensures "error" !in fields ==> SendRequest(lib, sock, codec, mode, meth, args, kwargs).outcome
                                   == Raised("Connection error: Go server error: Unknown error")
  {
    FramedReply(sock, codec, mode, JObj(fields));
    UnknownErrorText(lib);
  }

  lemma UnknownErrorText(lib: Library)
    ensures Message(lib, Remote(JStr("Unknown error"))) == "Connection error: Go server error: Unknown error"
  {
  }

  /** A timeout anywhere before the reply is complete yields exactly the timeout text, not wrapped again. */
  lemma TimeoutMessage(lib: Library, sock: Socket, codec: Codec, mode: Mode,
                       meth: string, args: Option<seq<Json>>, kwargs: Option<map<string, Json>>)
    requires sock.connect == TimedOut
             || (sock.connect == Done && sock.send == TimedOut)
             || (sock.connect == Done && sock.send == Done && Frame(sock.recv, codec, mode) == RecvError(Timeout))
    ensures SendRequest(lib, sock, codec, mode, meth, args, kwargs).outcome
            == Raised("Timeout connecting to " + lib.host + ":" + IntToString(lib.port))
  {
  }

  /**
   * If the peer closes before any accumulated buffer parses, the final parse
   * fails too and the call raises a "Connection error: ..." message.
   */
  lemma EarlyCloseFails(lib: Library, sock: Socket, codec: Codec, mode: Mode,
                        meth: string, args: Option<seq<Json>>, kwargs: Option<map<string, Json>>)
    requires sock.connect == Done && sock.send == Done
    requires Frame(sock.recv, codec, mode).PeerClosed?
    requires !Parses(codec, [])
    ensures SendRequest(lib, sock, codec, mode, meth, args, kwargs).outcome.Raised?
    ensures HasPrefix(SendRequest(lib, sock, codec, mode, meth, args, kwargs).outcome.message, "Connection error: ")
            || sock.close == TimedOut
  {
    var f := Frame(sock.recv, codec, mode);
    FrameShape(sock.recv, codec, mode);
    assert !Parses(codec, f.buffer) by {
      if f.read > 1 {
        assert !Parses(codec, Concat(sock.recv[..f.read - 1]));
      } else {
        assert sock.recv[..0] == [];
      }
    }
    var r := Transport(sock, codec, mode);
    assert r.Err?;
    var m := Message(lib, r.error);
    if r.error != Timeout {
      assert HasPrefix(m, "Connection error: ") by {
        assert m[..|"Connection error: "|] == "Connection error: ";
      }
    }
  }

  /** The close in the `finally` clause never changes the outcome. */
  lemma FinalCloseSwallowed(lib: Library, sock: Socket, codec: Codec, mode: Mode, other: Step,
                            meth: string, args: Option<seq<Json>>, kwargs: Option<map<string, Json>>)
    ensures SendRequest(lib, sock.(finalClose := other), codec, mode, meth, args, kwargs)
            == SendRequest(lib, sock, codec, mode, meth, args, kwargs)
  {
  }

  // ---------------------------------------------------------------- the UTF-8 split

  /**
   * As written: a first chunk that ends inside a multi-byte character makes
   * `decode()` raise, which the loop does not catch, so the call fails even
   * though the next chunk completes a valid reply.
   */
  lemma SplitCharacterFailsAsWritten(lib: Library, sock: Socket, codec: Codec, c1: seq<byte>, c2: seq<byte>,
                                     meth: string, args: Option<seq<Json>>, kwargs: Option<map<string, Json>>)
    requires sock.connect == Done && sock.send == Done && sock.close == Done
    requires sock.recv == [Chunk(c1), Chunk(c2)] && c1 != [] && c2 != []
    requires codec.decode(c1).Err?
    requires Parses(codec, c1 + c2)
    ensures SendRequest(lib, sock, codec, AsWritten, meth, args, kwargs).outcome
            == Raised("Connection error: " + codec.decode(c1).error)
  {
    assert [] + c1 == c1;
    assert Frame(sock.recv, codec, AsWritten) == RecvError(Undecodable(codec.decode(c1).error));
  }

  /** Corrected: the same chunks are read on until the reply is complete. */
  lemma SplitCharacterReadOn(lib: Library, sock: Socket, codec: Codec, c1: seq<byte>, c2: seq<byte>,
                             meth: string, args: Option<seq<Json>>, kwargs: Option<map<string, Json>>)
    requires sock.connect == Done && sock.send == Done && sock.close == Done
    requires sock.recv == [Chunk(c1), Chunk(c2)] && c1 != [] && c2 != []
    requires codec.decode(c1).Err?
    requires Parses(codec, c1 + c2)
    ensures Frame(sock.recv, codec, Corrected) == Framed(c1 + c2, 2)
    ensures Transport(sock, codec, Corrected) == Interpret(Parsed(codec, c1 + c2).value)
  {
    assert [] + c1 == c1;
    var events := sock.recv;
    assert FrameFrom(events, codec, Corrected, 1, c1) == Framed(c1 + c2, 2);
    assert FrameFrom(events, codec, Corrected, 0, []) == FrameFrom(events, codec, Corrected, 1, c1);
  }

  /** The two modes agree whenever no partial buffer fails to decode. */
  lemma {:induction false} ModesAgree(events: seq<RecvEvent>, codec: Codec, i: nat, buf: seq<byte>)
    requires i <= |events|
    requires forall b :: codec.decode(b).Ok?
    ensures FrameFrom(events, codec, AsWritten, i, buf) == FrameFrom(events, codec, Corrected, i, buf)
    decreases |events| - i
  {
    if i < |events| && events[i].Chunk? && events[i].data != [] {
      ModesAgree(events, codec, i + 1, buf + events[i].data);
    }
  }

  // ---------------------------------------------------------------- facade

  /** The keywords the facade exposes, with their arguments. */
  datatype Keyword =
    | ConnectToDevice(hostname: string, deviceType: string, username: string, password: string)
    | ExecuteCommand(handle: string, command: string)
    | GetOspfNeighbors(handle: string)
    | GetBgpSummary(handle: string, vrf: string)
    | GetInterfaceStatus(handle: string, iface: string)
    | PingTest(handle: string, target: string, vrf: string, count: int)
    | CloseConnection(handle: string)

  /** `get_bgp_summary(handle, vrf="default")`. */
  function BgpSummaryCall(handle: string, vrf: string := "default"): Keyword {
    GetBgpSummary(handle, vrf)
  }

  /** `ping_test(handle, target, vrf="default", count=5)`. */
  function PingTestCall(handle: string, target: string, vrf: string := "default", count: int := 5): Keyword {
    PingTest(handle, target, vrf, count)
  }

  /** The remote keyword name each facade method sends. */
  function KeywordName(k: Keyword): string {
    match k
    case ConnectToDevice(_, _, _, _) => "Connect To Device"
    case ExecuteCommand(_, _) => "Execute Command"
    case GetOspfNeighbors(_) => "Get OSPF Neighbors"
    case GetBgpSummary(_, _) => "Get BGP Summary"
    case GetInterfaceStatus(_, _) => "Get Interface Status"
    case PingTest(_, _, _, _) => "Ping Test"
    case CloseConnection(_) => "Close Connection"
  }

  /** The positional argument list each facade method sends. */
  function Positional(k: Keyword): seq<Json> {
    match k
    case ConnectToDevice(h, t, u, p) => [JStr(h), JStr(t), JStr(u), JStr(p)]
    case ExecuteCommand(h, c) => [JStr(h), JStr(c)]
    case GetOspfNeighbors(h) => [JStr(h)]
    case GetBgpSummary(h, v) => [JStr(h), JStr(v)]
    case GetInterfaceStatus(h, i) => [JStr(h), JStr(i)]
    case PingTest(h, t, v, c) => [JStr(h), JStr(t), JStr(v), JNum(c)]
    case CloseConnection(h) => [JStr(h)]
  }

  /**
   * A facade method: `run_keyword` with `[name, positional]` and no keyword
   * arguments, sent through `_send_request` as the library writes it.
   */
  function Call(lib: Library, sock: Socket, codec: Codec, k: Keyword): Exchange {
    SendRequest(lib, sock, codec, AsWritten, "run_keyword", Some([JStr(KeywordName(k)), JArr(Positional(k))]), Some(map[]))
  }

  /** Every facade method sends the same envelope shape and returns the transport result unchanged. */
  lemma FacadeEnvelope(lib: Library, sock: Socket, codec: Codec, k: Keyword)
    ensures var env := Envelope("run_keyword", Some([JStr(KeywordName(k)), JArr(Positional(k))]), Some(map[]));
            env.fields["method"] == JStr("run_keyword")
            && env.fields["args"] == JArr([JStr(KeywordName(k)), JArr(Positional(k))])
            && env.fields["kwargs"] == JObj(map[])
    ensures sock.connect == Done ==>
              Call(lib, sock, codec, k).payload
              == codec.dumps(Envelope("run_keyword", Some([JStr(KeywordName(k)), JArr(Positional(k))]), Some(map[]))) + [NEWLINE]
    ensures Transport(sock, codec, AsWritten).Ok? ==>
              Call(lib, sock, codec, k).outcome == Returned(Transport(sock, codec, AsWritten).value)
  {
  }

  /** Every facade method inherits the split-character failure of the receive loop. */
  lemma FacadeSplitCharacterFails(lib: Library, sock: Socket, codec: Codec, k: Keyword, c1: seq<byte>, c2: seq<byte>)
    requires sock.connect == Done && sock.send == Done && sock.close == Done
    requires sock.recv == [Chunk(c1), Chunk(c2)] && c1 != [] && c2 != []
    requires codec.decode(c1).Err?
    requires Parses(codec, c1 + c2)
    ensures Call(lib, sock, codec, k).outcome == Raised("Connection error: " + codec.decode(c1).error)
  {
    SplitCharacterFailsAsWritten(lib, sock, codec, c1, c2, "run_keyword",
      Some([JStr(KeywordName(k)), JArr(Positional(k))]), Some(map[]));
  }

  /** The defaults of `ping_test` and `get_bgp_summary`. */
  lemma FacadeDefaults(handle: string, target: string)
    ensures Positional(PingTestCall(handle, target)) == [JStr(handle), JStr(target), JStr("default"), JNum(5)]
    ensures Positional(BgpSummaryCall(handle)) == [JStr(handle), JStr("default")]
  {
  }
}
