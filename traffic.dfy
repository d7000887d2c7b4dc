/** The traffic repository: a bounded, oldest-first history of proxied
    request/response pairs, with a display projection and a notification per
    new entry. */
module Traffic {
  import opened JsText
  import opened Resp

  /** The most entries the history keeps. */
  const Limit: int := 100

  /** One logged round trip; `time` stands for the `Date.now()` timestamp. */
  datatype HistoryLog = HistoryLog(request: string, response: string, time: int)

  datatype ResponseView = ResponseView(plain: string, value: seq<string>)

  /** The display projection of one history entry. */
  datatype RequestView = RequestView(plain: string, value: seq<string>, time: int, response: ResponseView)

  /** The codec functions the projection calls; their bodies are not part of
      this model. */
  datatype Codec = Codec(
    decodeRequest: string -> seq<Command>,
    decodeFull: string -> seq<Value>,
    render: Value -> string)

  // ---------------------------------------------------------------------------
  // the bounded window

  /** `history.slice(-limit)`: the most recent `Limit` entries, oldest first. */
  function Window(h: seq<HistoryLog>): (w: seq<HistoryLog>)
    ensures |w| == Min(|h|, Limit)
    ensures w == h[|h| - |w|..]
  {
    SliceFrom(h, -Limit)
  }

  /** Trimming early changes nothing: the window of a window followed by more
      entries is the window of everything. */
  lemma WindowAbsorbs(x: seq<HistoryLog>, y: seq<HistoryLog>)
    ensures Window(Window(x) + y) == Window(x + y)
  {
    var k := |x| - |Window(x)|;
    assert Window(x) + y == (x + y)[k..];
  }

  /** The history after logging `entries` one by one, starting from `h`. */
  function Replay(h: seq<HistoryLog>, entries: seq<HistoryLog>): (r: seq<HistoryLog>)
    decreases |entries|
  {
    if entries == [] then h else Replay(Window(h + [entries[0]]), entries[1..])
  }

  /** Logging entries one at a time keeps exactly the most recent `Limit` of
      all entries ever logged, in insertion order: eviction is strict FIFO. */
  lemma {:induction false} ReplayKeepsLatest(h: seq<HistoryLog>, entries: seq<HistoryLog>)
    requires |h| <= Limit
    ensures Replay(h, entries) == Window(h + entries)
    decreases |entries|
  {
    if entries == [] {
      assert h + entries == h;
    } else {
      ReplayKeepsLatest(Window(h + [entries[0]]), entries[1..]);
      WindowAbsorbs(h + [entries[0]], entries[1..]);
      assert h + [entries[0]] + entries[1..] == h + entries;
    }
  }

  /** Starting from an empty history, after more than `Limit` entries the
      history is exactly the last `Limit` of them, in insertion order. */
  lemma FromEmptyKeepsLast(entries: seq<HistoryLog>)
    ensures |Replay([], entries)| == Min(|entries|, Limit)
    ensures |entries| > Limit ==> Replay([], entries) == entries[|entries| - Limit..]
  {
    ReplayKeepsLatest([], entries);
    assert [] + entries == entries;
  }

  // ---------------------------------------------------------------------------
  // the display projection

  /** A word shown in a command line: quoted when it contains whitespace. */
  function QuoteWord(w: string): (r: string)
    ensures r == w <==> !HasSpace(w)
    ensures r != w ==> r == ['"'] + w + ['"']
  {
    if HasSpace(w) then ['"'] + w + ['"'] else w
  }

  function QuoteAll(words: seq<string>): (r: seq<string>)
    ensures |r| == |words|
    ensures forall i :: 0 <= i < |words| ==> r[i] == QuoteWord(words[i])
  {
    if words == [] then [] else [QuoteWord(words[0])] + QuoteAll(words[1..])
  }

  /** A command as one display line: its words, quoted as needed, separated by
      single spaces. */
  function RenderWords(words: seq<string>): (r: string) {
    Join(QuoteAll(words), " ")
  }

  /** A command whose words hold no whitespace is shown losslessly: splitting
      the line on spaces gives back the words. */
  lemma RenderPlainRoundTrip(words: seq<string>)
    requires |words| >= 1
    requires forall i :: 0 <= i < |words| ==> !HasSpace(words[i])
    ensures Split(RenderWords(words), ' ') == words
  {
    assert QuoteAll(words) == words;
    assert forall w :: w in words ==> ' ' !in w;
    SplitJoin(words, ' ');
  }

  function RenderCommands(cmds: seq<Command>): (r: seq<string>)
    ensures |r| == |cmds|
    ensures forall i :: 0 <= i < |cmds| ==> r[i] == RenderWords(cmds[i])
  {
    if cmds == [] then [] else [RenderWords(cmds[0])] + RenderCommands(cmds[1..])
  }

  function RenderValues(render: Value -> string, vs: seq<Value>): (r: seq<string>)
    ensures |r| == |vs|
    ensures forall i :: 0 <= i < |vs| ==> r[i] == render(vs[i])
  {
    if vs == [] then [] else [render(vs[0])] + RenderValues(render, vs[1..])
  }

  /** The projection of one entry: the raw texts kept as they were logged,
      plus their decoded and rendered forms. */
  function Parse(c: Codec, log: HistoryLog): (r: RequestView)
    ensures r.plain == log.request && r.response.plain == log.response && r.time == log.time
    ensures |r.value| == |c.decodeRequest(log.request)|
    ensures forall i :: 0 <= i < |r.value| ==>
      r.value[i] == Join(QuoteAll(c.decodeRequest(log.request)[i]), " ")
    ensures |r.response.value| == |c.decodeFull(log.response)|
    ensures forall i :: 0 <= i < |r.response.value| ==>
      r.response.value[i] == c.render(c.decodeFull(log.response)[i])
  {
    RequestView(
      log.request,
      RenderCommands(c.decodeRequest(log.request)),
      log.time,
      ResponseView(log.response, RenderValues(c.render, c.decodeFull(log.response))))
  }

  function ParseAll(c: Codec, h: seq<HistoryLog>): (r: seq<RequestView>)
    ensures |r| == |h|
    ensures forall i :: 0 <= i < |h| ==> r[i] == Parse(c, h[i])
  {
    if h == [] then [] else [Parse(c, h[0])] + ParseAll(c, h[1..])
  }

  // ---------------------------------------------------------------------------
  // the repository

  class TrafficRepository {
    const codec: Codec
    /** The logged entries, oldest first. */
    var history: seq<HistoryLog>
    /** The `request` events emitted, oldest first. */
    var emitted: seq<RequestView>

    ghost predicate Valid()
      reads this
    {
      |history| <= Limit
    }

    constructor (codec: Codec)
      ensures Valid()
      ensures this.codec == codec && history == [] && emitted == []
    {
      this.codec := codec;
      history := [];
      emitted := [];
    }

    /** Appends an entry, keeps the most recent `Limit`, and emits the new
        entry's projection. */
    method Log(request: string, response: string, time: int)
      requires Valid()
      modifies this
      ensures Valid()
      ensures history == Window(old(history) + [HistoryLog(request, response, time)])
      ensures |history| == Min(|old(history)| + 1, Limit)
      ensures history[|history| - 1] == HistoryLog(request, response, time)
      ensures emitted == old(emitted) + [Parse(codec, HistoryLog(request, response, time))]
    {
      var log := HistoryLog(request, response, time);
      var view := Parse(codec, log);
      history := Window(history + [log]);
      emitted := emitted + [view];
    }

    /** Every entry's projection, oldest first. */
    function All(): (r: seq<RequestView>)
      reads this
      ensures |r| == |history|
      ensures forall i :: 0 <= i < |history| ==> r[i] == Parse(codec, history[i])
      ensures forall i :: 0 <= i < |history| ==> r[i].plain == history[i].request
    {
      ParseAll(codec, history)
    }
  }
}
