/** The cluster-nodes interceptor: it claims the `CLUSTER NODES` command,
    asks the real backend on the side connection, and answers the client with
    the node table's address lines rewritten. */
module ClusterInterceptor {
  import opened Wrappers
  import opened JsText
  import opened Resp

  /** A reply on the side connection: the decoded value together with its raw
      bytes, or a failure of the request. */
  datatype SideReply = Message(result: Value, raw: Bytes) | SideFailure(message: string)

  /** Each line passed through the substitutor, in order. */
  function RewriteLines(lines: seq<string>, substitute: string -> string): (r: seq<string>)
    ensures |r| == |lines|
    ensures forall i :: 0 <= i < |lines| ==> r[i] == substitute(lines[i])
  {
    if lines == [] then [] else [substitute(lines[0])] + RewriteLines(lines[1..], substitute)
  }

  /** The node table with every line rewritten: split on `\n`, substitute,
      join with `\n`. */
  function RewriteNodes(text: string, substitute: string -> string): (r: string) {
    Join(RewriteLines(Split(text, '\n'), substitute), "\n")
  }

  /** When the substitutor keeps lines free of `\n`, the rewritten table has
      the same number of lines, and line `i` is the rewrite of line `i`. */
  lemma RewriteNodesLines(text: string, substitute: string -> string)
    requires forall line :: '\n' !in line ==> '\n' !in substitute(line)
    ensures Split(RewriteNodes(text, substitute), '\n') == RewriteLines(Split(text, '\n'), substitute)
    ensures |Split(RewriteNodes(text, substitute), '\n')| == |Split(text, '\n')|
  {
    var lines := RewriteLines(Split(text, '\n'), substitute);
    forall p | p in lines
      ensures '\n' !in p
    {
      var i :| 0 <= i < |lines| && lines[i] == p;
      assert '\n' !in Split(text, '\n')[i];
    }
    SplitJoin(lines, '\n');
  }

  /** A substitutor that leaves every line alone leaves the table alone. */
  lemma RewriteNodesIdentity(text: string, substitute: string -> string)
    requires forall line :: line in Split(text, '\n') ==> substitute(line) == line
    ensures RewriteNodes(text, substitute) == text
  {
    var lines := Split(text, '\n');
    assert RewriteLines(lines, substitute) == lines;
    JoinSplit(text, '\n');
  }

  /** The bytes sent to the client for a side-connection reply: a string reply
      is rewritten line by line and re-encoded, anything else goes through as
      it came. */
  function InterceptedReply(result: Value, raw: Bytes, substitute: string -> string,
                            encode: string -> Bytes): (r: Bytes)
  {
    if IsString(result) then encode(RewriteNodes(StringOf(result), substitute)) else raw
  }

  /** A reply that is not a string passes through byte for byte; with an
      identity substitutor a string reply is re-encoded unchanged. */
  lemma InterceptedReplyCases(result: Value, raw: Bytes, substitute: string -> string,
                              encode: string -> Bytes)
    ensures !IsString(result) ==> InterceptedReply(result, raw, substitute, encode) == raw
    ensures IsString(result) && (forall line :: substitute(line) == line) ==>
      InterceptedReply(result, raw, substitute, encode) == encode(StringOf(result))
  {
    if IsString(result) && (forall line :: substitute(line) == line) {
      RewriteNodesIdentity(StringOf(result), substitute);
    }
  }

  /** The parts of the proxy's traffic handler the interceptor uses: the side
      connection and the response channel to the client. */
  class TrafficHandler {
    /** The backend on the side connection: its reply to the last of the
        commands sent so far. */
    const sideServer: seq<Command> -> SideReply
    /** Every command sent on the side connection, oldest first. */
    var sideRequests: seq<Command>
    /** Every response written to the client, oldest first. */
    var responses: seq<Bytes>

    constructor (sideServer: seq<Command> -> SideReply)
      ensures this.sideServer == sideServer && sideRequests == [] && responses == []
    {
      this.sideServer := sideServer;
      sideRequests := [];
      responses := [];
    }

    /** `sideClient.request(cmd)` followed by `message()`. */
    method SideRequest(cmd: Command) returns (r: SideReply)
      modifies this
      ensures sideRequests == old(sideRequests) + [cmd]
      ensures r == sideServer(sideRequests)
      ensures responses == old(responses)
    {
      sideRequests := sideRequests + [cmd];
      r := sideServer(sideRequests);
    }

    /** `onResponse(bytes)`: one response to the client. */
    method OnResponse(bytes: Bytes)
      modifies this
      ensures responses == old(responses) + [bytes]
      ensures sideRequests == old(sideRequests)
    {
      responses := responses + [bytes];
    }
  }

  class ClusterNodesInterceptor {
    const traffic: TrafficHandler
    /** `requestParser.isCommand(request, 'CLUSTER', 'NODES')`. */
    const isClusterNodes: Command -> bool
    /** `portsSubstitutor.inIpPortLine`. */
    const substitute: string -> string
    /** `RESPConverter.encode` of a string. */
    const encode: string -> Bytes

    constructor (traffic: TrafficHandler, isClusterNodes: Command -> bool,
                 substitute: string -> string, encode: string -> Bytes)
      ensures this.traffic == traffic && this.isClusterNodes == isClusterNodes
      ensures this.substitute == substitute && this.encode == encode
    {
      this.traffic := traffic;
      this.isClusterNodes := isClusterNodes;
      this.substitute := substitute;
      this.encode := encode;
    }

    /** Whether the request was claimed. An unclaimed request touches nothing;
        a claimed one makes one side request and, unless that fails, writes
        exactly one response. */
    method Handle(request: Command) returns (r: Outcome<bool>)
      modifies traffic
      ensures !isClusterNodes(request) ==> r == Ok(false) && unchanged(traffic)
      ensures isClusterNodes(request) ==>
        traffic.sideRequests == old(traffic.sideRequests) + [request]
      ensures isClusterNodes(request) && traffic.sideServer(traffic.sideRequests).SideFailure? ==>
        && r == Fail(traffic.sideServer(traffic.sideRequests).message)
        && traffic.responses == old(traffic.responses)
      ensures isClusterNodes(request) && traffic.sideServer(traffic.sideRequests).Message? ==>
        var reply := traffic.sideServer(traffic.sideRequests);
        && r == Ok(true)
        && traffic.responses == old(traffic.responses) + [InterceptedReply(reply.result, reply.raw, substitute, encode)]
    {
      if !isClusterNodes(request) {
        return Ok(false);
      }
      var reply := traffic.SideRequest(request);
      if reply.SideFailure? {
        return Fail(reply.message);
      }
      if !IsString(reply.result) {
        traffic.OnResponse(reply.raw);
        return Ok(true);
      }
      var debuggerNodes := Join(RewriteLines(Split(StringOf(reply.result), '\n'), substitute), "\n");
      traffic.OnResponse(encode(debuggerNodes));
      r := Ok(true);
    }
  }
}
