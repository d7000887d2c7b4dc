/** The debug wire client: one backend connection driven through the Lua
    debugger's synchronous mode. The connection is abstracted as the log of
    commands sent on it and a backend that answers each command, given every
    command sent so far. */
module LdbClient {
  import opened Wrappers
  import opened JsText
  import opened Resp

  /** One script argument as the request carries it: a string, a number, a
      boolean or null. */
  datatype Arg = StrArg(s: string) | NumArg(n: int) | BoolArg(b: bool) | NullArg

  /** The script to debug: Lua body, key count and arguments. The backend
      address is not part of the model (see `server` below). */
  datatype LuaRequest = LuaRequest(lua: string, numberOfKeys: int, args: seq<Arg>)

  /** One line of the source listing. */
  datatype Line = Line(number: int, code: string)

  /** A variable and its printed value, or null. */
  datatype Variable = Variable(name: string, value: Option<string>)

  /** What the backend does with a command: answers with a value, or the
      connection fails with a message. */
  datatype Reply = Answer(value: Value) | ConnectionError(message: string)

  /** The reply parser, whose bodies are not part of this model. */
  datatype ResponseParser = ResponseParser(
    toText: Value -> string,
    toSourceCode: Value -> seq<Line>,
    toVariables: Value -> seq<Variable>)

  /** The four commands that advance the script. */
  datatype Motion = Step | Continue | Abort | Restart

  const EndSession: string := "<endsession>"

  // ---------------------------------------------------------------------------
  // command vectors

  const DebugSyncCommand: Command := ["SCRIPT", "DEBUG", "SYNC"]
  const WholeCommand: Command := ["whole"]
  const TraceCommand: Command := ["trace"]
  const ListBreakpointsCommand: Command := ["break"]

  /** An argument as the debugger passes it on: null becomes the empty string,
      anything else its text. */
  function ArgText(a: Arg): (r: string) {
    match a
    case StrArg(s) => s
    case NumArg(n) => IntToString(n)
    case BoolArg(b) => if b then "true" else "false"
    case NullArg => ""
  }

  /** The coercion conflates exactly null and the empty string into "". */
  lemma ArgTextEmpty(a: Arg)
    ensures ArgText(a) == "" <==> a == NullArg || a == StrArg("")
  {
    if a.NumArg? {
      assert IntToString(a.n) != [];
    }
  }

  /** The arguments coerced one by one, in order. */
  function ArgTexts(args: seq<Arg>): (r: seq<string>)
    ensures |r| == |args|
    ensures forall i :: 0 <= i < |args| ==> r[i] == ArgText(args[i])
  {
    if args == [] then [] else [ArgText(args[0])] + ArgTexts(args[1..])
  }

  /** Coercing a concatenation coerces each part. */
  lemma ArgTextsAppend(a: seq<Arg>, b: seq<Arg>)
    ensures ArgTexts(a + b) == ArgTexts(a) + ArgTexts(b)
  {
    assert |ArgTexts(a + b)| == |ArgTexts(a) + ArgTexts(b)|;
    forall i | 0 <= i < |a + b|
      ensures ArgTexts(a + b)[i] == (ArgTexts(a) + ArgTexts(b))[i]
    {
      if i >= |a| {
        assert (a + b)[i] == b[i - |a|];
      }
    }
  }

  /** The EVAL command: verb, script, key count, then the first
      `numberOfKeys` arguments (the keys) and then the rest, each coerced. */
  function EvalCommand(r: LuaRequest): (cmd: Command)
    ensures |cmd| == 3 + |r.args|
    ensures cmd[..3] == ["EVAL", r.lua, IntToString(r.numberOfKeys)]
    ensures cmd[3..] == ArgTexts(r.args)
  {
    var keys := SliceTo(r.args, r.numberOfKeys);
    var rest := SliceFrom(r.args, r.numberOfKeys);
    ArgTextsSlices(r.args, r.numberOfKeys);
    ["EVAL", r.lua, IntToString(r.numberOfKeys)] + (ArgTexts(keys) + ArgTexts(rest))
  }

  /** Coercing the keys and the rest separately coerces every argument once. */
  lemma ArgTextsSlices(args: seq<Arg>, k: int)
    ensures ArgTexts(SliceTo(args, k)) + ArgTexts(SliceFrom(args, k)) == ArgTexts(args)
  {
    SliceParts(args, k);
    ArgTextsAppend(SliceTo(args, k), SliceFrom(args, k));
  }

  /** For a key count within the argument list, the keys come first and the
      remaining arguments after them. */
  lemma EvalKeysFirst(r: LuaRequest)
    requires 0 <= r.numberOfKeys <= |r.args|
    ensures EvalCommand(r)[3..3 + r.numberOfKeys] == ArgTexts(r.args[..r.numberOfKeys])
    ensures EvalCommand(r)[3 + r.numberOfKeys..] == ArgTexts(r.args[r.numberOfKeys..])
  {
    var k := r.numberOfKeys;
    var texts := EvalCommand(r)[3..];
    assert texts == ArgTexts(r.args);
    ArgTextsSub(r.args, k);
    assert EvalCommand(r)[3..3 + k] == texts[..k];
    assert EvalCommand(r)[3 + k..] == texts[k..];
  }

  lemma ArgTextsSub(args: seq<Arg>, k: nat)
    requires k <= |args|
    ensures ArgTexts(args)[..k] == ArgTexts(args[..k])
    ensures ArgTexts(args)[k..] == ArgTexts(args[k..])
  {
    ArgTextsAppend(args[..k], args[k..]);
    assert args[..k] + args[k..] == args;
  }

  function MotionCommand(m: Motion): (r: Command) {
    match m
    case Step => ["step"]
    case Continue => ["continue"]
    case Abort => ["abort"]
    case Restart => ["restart"]
  }

  function AddBreakpointCommand(line: int): (r: Command) {
    ["break", IntToString(line)]
  }

  function RemoveBreakpointCommand(line: int): (r: Command) {
    ["break", "-" + IntToString(line)]
  }

  /** Adding a breakpoint at a non-negative line and removing one are told
      apart on the wire, and so are two different lines. */
  lemma BreakpointCommandsDistinct(m: int, n: int)
    requires m >= 0
    ensures AddBreakpointCommand(m) != RemoveBreakpointCommand(n)
    ensures AddBreakpointCommand(m) != ListBreakpointsCommand
    ensures AddBreakpointCommand(m) == AddBreakpointCommand(n) ==> m == n
    ensures RemoveBreakpointCommand(m) == RemoveBreakpointCommand(n) ==> m == n
  {
    assert AddBreakpointCommand(m)[1][0] != '-';
    if AddBreakpointCommand(m) == AddBreakpointCommand(n) {
      IntToStringInjective(m, n);
    }
    if RemoveBreakpointCommand(m) == RemoveBreakpointCommand(n) {
      assert RemoveBreakpointCommand(m)[1][1..] == IntToString(m);
      assert RemoveBreakpointCommand(n)[1][1..] == IntToString(n);
      IntToStringInjective(m, n);
    }
  }

  /** Because the line is not checked, adding a breakpoint at line `-n` sends
      the same command as removing the one at line `n`. */
  lemma AddNegativeLineRemoves(n: int)
    requires n > 0
    ensures AddBreakpointCommand(-n) == RemoveBreakpointCommand(n)
  {
  }

  /** `print` with the variable name when one is given and non-empty; an
      empty name counts as absent. */
  function PrintCommand(name: Option<string>): (cmd: Command)
    ensures 1 <= |cmd| <= 2 && cmd[0] == "print"
    ensures |cmd| == 2 <==> name.Some? && name.value != ""
    ensures |cmd| == 2 ==> cmd[1] == name.value
  {
    if name.Some? && name.value != "" then ["print", name.value] else ["print"]
  }

  /** A reply that ends the session: an array whose last element is the
      sentinel. */
  predicate IsEndSession(v: Value) {
    v.ArrayValue? && v.items.Some? && |v.items.value| > 0
    && IsStringEqual(v.items.value[|v.items.value| - 1], EndSession)
  }

  /** Only a non-null, non-empty array can end the session, and any such array
      ending in the sentinel (simple or bulk) does. */
  lemma EndSessionShape(v: Value, xs: seq<Value>)
    ensures IsEndSession(v) ==> v.ArrayValue? && v.items.Some? && v.items.value != []
    ensures IsEndSession(ArrayValue(Some(xs + [SimpleString(EndSession)])))
    ensures IsEndSession(ArrayValue(Some(xs + [BulkString(Some(EndSession))])))
    ensures !IsEndSession(ArrayValue(Some(xs + [BulkString(None)])))
  {
  }

  /** The outcome of a request, as the caller of `client.request` sees it. */
  function Answered(reply: Reply): (r: Outcome<Value>) {
    match reply
    case Answer(v) => Ok(v)
    case ConnectionError(m) => Fail(m)
  }

  /** A reply rendered as text, or the connection error's message. */
  function AsText(p: ResponseParser, reply: Reply): (r: Outcome<string>) {
    match reply
    case Answer(v) => Ok(p.toText(v))
    case ConnectionError(e) => Fail(e)
  }

  /** A reply parsed into a source listing, or the connection error's message. */
  function AsSourceCode(p: ResponseParser, reply: Reply): (r: Outcome<seq<Line>>) {
    match reply
    case Answer(v) => Ok(p.toSourceCode(v))
    case ConnectionError(e) => Fail(e)
  }

  /** A reply parsed into variables, or the connection error's message. */
  function AsVariables(p: ResponseParser, reply: Reply): (r: Outcome<seq<Variable>>) {
    match reply
    case Answer(v) => Ok(p.toVariables(v))
    case ConnectionError(e) => Fail(e)
  }

  /** Whether this reply, answering a step-like command, ends the session. */
  predicate EndsSession(reply: Reply) {
    reply.Answer? && IsEndSession(reply.value)
  }

  // ---------------------------------------------------------------------------
  // the client

  /** What `init` sends after `sent0`: `SCRIPT DEBUG SYNC`, then the `EVAL` of
      the request exactly when the sync was answered, and nothing else. */
  ghost predicate InitSends(sent0: seq<Command>, sent: seq<Command>, server: seq<Command> -> Reply, request: LuaRequest) {
    && |sent0| < |sent| <= |sent0| + 2
    && sent[..|sent0| + 1] == sent0 + [DebugSyncCommand]
    && (|sent| == |sent0| + 2 <==> server(sent0 + [DebugSyncCommand]).Answer?)
    && (|sent| == |sent0| + 2 ==> sent[|sent| - 1] == EvalCommand(request))
  }

  class TcpClientDebugger {
    /** The script being debugged. */
    const request: LuaRequest
    /** The backend: its reply to the last of the commands sent so far. */
    const server: seq<Command> -> Reply
    const parser: ResponseParser

    /** Every command sent on the connection, oldest first. */
    var sent: seq<Command>
    /** Every reply received, oldest first: the reply to a command is the
        backend's answer given the commands sent up to and including it. */
    ghost var received: seq<Reply>
    var finished: bool
    /** Whether the connection has been closed (after an error). */
    var closed: bool
    /** Messages of the `error` events emitted, oldest first. */
    var errors: seq<string>

    constructor (request: LuaRequest, server: seq<Command> -> Reply, parser: ResponseParser)
      ensures this.request == request && this.server == server && this.parser == parser
      ensures sent == [] && received == [] && !finished && !closed && errors == []
    {
      this.request := request;
      this.server := server;
      this.parser := parser;
      sent := [];
      received := [];
      finished := false;
      closed := false;
      errors := [];
    }

    /** `client.request(cmd)`: send one command, await its one reply. A
        connection error runs the error handler and rejects the request. */
    method Send(cmd: Command) returns (r: Outcome<Value>)
      modifies this
      ensures sent == old(sent) + [cmd]
      ensures received == old(received) + [server(sent)]
      ensures r == Answered(server(sent))
      ensures r.Fail? ==> finished && closed && errors == old(errors) + [r.message]
      ensures r.Ok? ==> finished == old(finished) && closed == old(closed) && errors == old(errors)
    {
      sent := sent + [cmd];
      var reply := server(sent);
      received := received + [reply];
      match reply
      case Answer(v) =>
        r := Ok(v);
      case ConnectionError(m) =>
        OnError(m);
        r := Fail(m);
    }

    /** Put the connection in synchronous debug mode, then evaluate the
        script; stops at the first failure. */
    method Init() returns (r: Outcome<()>)
      modifies this
      ensures InitSends(old(sent), sent, server, request)
      ensures received == old(received) + (if |sent| == |old(sent)| + 2 then [server(sent[..|sent| - 1])] else []) + [server(sent)]
      ensures r.Fail? <==> server(sent).ConnectionError?
      ensures r.Fail? ==> r.message == server(sent).message
      ensures finished == (old(finished) || r.Fail?)
      ensures closed == (old(closed) || r.Fail?)
      ensures errors == old(errors) + (if r.Fail? then [r.message] else [])
    {
      var sync := Send(DebugSyncCommand);
      if sync.Fail? {
        return Fail(sync.message);
      }
      var eval := Send(EvalCommand(request));
      if eval.Fail? {
        return Fail(eval.message);
      }
      r := Ok(());
    }

    /** `step`, `continue`, `abort` or `restart`: the reply is rendered as
        text, and a reply ending in the sentinel marks the session finished. */
    method Resume(m: Motion) returns (r: Outcome<string>)
      modifies this
      ensures sent == old(sent) + [MotionCommand(m)]
      ensures received == old(received) + [server(sent)]
      ensures r == AsText(parser, server(sent))
      ensures finished == (old(finished) || server(sent).ConnectionError? || EndsSession(server(sent)))
      ensures closed == (old(closed) || r.Fail?)
      ensures errors == old(errors) + (if r.Fail? then [r.message] else [])
    {
      var v := Send(MotionCommand(m));
      if v.Fail? {
        return Fail(v.message);
      }
      HandleStepResponse(v.value);
      r := Ok(parser.toText(v.value));
    }

    method HandleStepResponse(v: Value)
      modifies this
      ensures finished == (old(finished) || IsEndSession(v))
      ensures sent == old(sent) && received == old(received) && closed == old(closed) && errors == old(errors)
    {
      if IsEndSession(v) {
        OnFinish();
      }
    }

    /** Marks the session finished. The subscription to the termination
        payload that follows it is not part of the model. */
    method OnFinish()
      modifies this
      ensures finished
      ensures sent == old(sent) && received == old(received) && closed == old(closed) && errors == old(errors)
    {
      finished := true;
    }

    /** A connection error: finished, connection closed, `error` emitted. */
    method OnError(message: string)
      modifies this
      ensures finished && closed
      ensures errors == old(errors) + [message]
      ensures sent == old(sent) && received == old(received)
    {
      finished := true;
      closed := true;
      errors := errors + [message];
    }

    /** Sends `cmd`, renders its reply as text; sets `finished` only on error. */
    method SendForText(cmd: Command) returns (r: Outcome<string>)
      modifies this
      ensures sent == old(sent) + [cmd]
      ensures received == old(received) + [server(sent)]
      ensures r == AsText(parser, server(sent))
      ensures finished == (old(finished) || r.Fail?)
      ensures closed == (old(closed) || r.Fail?)
      ensures errors == old(errors) + (if r.Fail? then [r.message] else [])
    {
      var v := Send(cmd);
      r := if v.Ok? then Ok(parser.toText(v.value)) else Fail(v.message);
    }

    /** The whole source listing. */
    method Whole() returns (r: Outcome<seq<Line>>)
      modifies this
      ensures sent == old(sent) + [WholeCommand]
      ensures received == old(received) + [server(sent)]
      ensures r == AsSourceCode(parser, server(sent))
      ensures finished == (old(finished) || r.Fail?)
      ensures closed == (old(closed) || r.Fail?)
      ensures errors == old(errors) + (if r.Fail? then [r.message] else [])
    {
      var v := Send(WholeCommand);
      r := if v.Ok? then Ok(parser.toSourceCode(v.value)) else Fail(v.message);
    }

    method ListBreakpoints() returns (r: Outcome<string>)
      modifies this
      ensures sent == old(sent) + [ListBreakpointsCommand]
      ensures received == old(received) + [server(sent)]
      ensures r == AsText(parser, server(sent))
      ensures finished == (old(finished) || r.Fail?)
      ensures closed == (old(closed) || r.Fail?)
      ensures errors == old(errors) + (if r.Fail? then [r.message] else [])
    {
      r := SendForText(ListBreakpointsCommand);
    }

    method AddBreakpoint(line: int) returns (r: Outcome<string>)
      modifies this
      ensures sent == old(sent) + [AddBreakpointCommand(line)]
      ensures received == old(received) + [server(sent)]
      ensures r == AsText(parser, server(sent))
      ensures finished == (old(finished) || r.Fail?)
      ensures closed == (old(closed) || r.Fail?)
      ensures errors == old(errors) + (if r.Fail? then [r.message] else [])
    {
      r := SendForText(AddBreakpointCommand(line));
    }

    method RemoveBreakpoint(line: int) returns (r: Outcome<string>)
      modifies this
      ensures sent == old(sent) + [RemoveBreakpointCommand(line)]
      ensures received == old(received) + [server(sent)]
      ensures r == AsText(parser, server(sent))
      ensures finished == (old(finished) || r.Fail?)
      ensures closed == (old(closed) || r.Fail?)
      ensures errors == old(errors) + (if r.Fail? then [r.message] else [])
    {
      r := SendForText(RemoveBreakpointCommand(line));
    }

    /** All variables (no name), or the one named. */
    method Print(name: Option<string>) returns (r: Outcome<seq<Variable>>)
      modifies this
      ensures sent == old(sent) + [PrintCommand(name)]
      ensures received == old(received) + [server(sent)]
      ensures r == AsVariables(parser, server(sent))
      ensures finished == (old(finished) || r.Fail?)
      ensures closed == (old(closed) || r.Fail?)
      ensures errors == old(errors) + (if r.Fail? then [r.message] else [])
    {
      var cmd := ["print"];
      if name.Some? && name.value != "" {
        cmd := cmd + [name.value];
      }
      assert cmd == PrintCommand(name);
      var v := Send(cmd);
      r := if v.Ok? then Ok(parser.toVariables(v.value)) else Fail(v.message);
    }

    method Trace() returns (r: Outcome<string>)
      modifies this
      ensures sent == old(sent) + [TraceCommand]
      ensures received == old(received) + [server(sent)]
      ensures r == AsText(parser, server(sent))
      ensures finished == (old(finished) || r.Fail?)
      ensures closed == (old(closed) || r.Fail?)
      ensures errors == old(errors) + (if r.Fail? then [r.message] else [])
    {
      r := SendForText(TraceCommand);
    }
  }
}
