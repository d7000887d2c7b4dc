/** The debug session: a state machine layered on one debug wire client that
    turns one user action into one response. */
module DebugSession {
  import opened Wrappers
  import opened JsText
  import opened Resp
  import L = LdbClient

  /** The states a session reports. The session's own `state` field only ever
      holds `Pending` or `Running`; `Finished` and `Error` appear in responses. */
  datatype DebuggerState = Pending | Running | Finished | Error

  /** A user action. `NoAction` is the source's `Action.None`; a null or
      unknown action is `None` of `Option<Action>`. The breakpoint actions carry
      the line number already parsed. */
  datatype Action =
    | NoAction | Step | Continue | Abort | Restart
    | AddBreakpoint(line: int) | RemoveBreakpoint(line: int)
    | AddWatch | RemoveWatch

  /** What an action answered: the reply text, or the empty list `[]` for the
      actions that send nothing. */
  datatype CmdResponse = Text(text: string) | NoOutput

  datatype Response =
    | PendingResponse
    | RunningResponse(cmdResponse: CmdResponse, sourceCode: seq<L.Line>, watch: seq<L.Variable>,
                      variables: seq<L.Variable>, trace: string)
    | FinishedResponse(result: CmdResponse)
    | ErrorResponse(error: string)
  {
    function State(): (r: DebuggerState) {
      match this
      case PendingResponse => Pending
      case RunningResponse(_, _, _, _, _) => Running
      case FinishedResponse(_) => Finished
      case ErrorResponse(_) => Error
    }
  }

  /** `new Error('Unsupported command').toString()`. */
  const UnsupportedMessage: string := "Error: Unsupported command"
  /** The message of the TypeError raised by `values[0].trim()` when there is no value. */
  const MissingValueMessage: string := "TypeError: Cannot read properties of undefined (reading 'trim')"

  // ---------------------------------------------------------------------------
  // the watch set: a JavaScript Set of strings, unique and in insertion order

  predicate Distinct(s: seq<string>) {
    forall i, j :: 0 <= i < j < |s| ==> s[i] != s[j]
  }

  function IndexOf(s: seq<string>, x: string): (i: nat)
    requires x in s
    ensures i < |s| && s[i] == x && x !in s[..i]
  {
    if s[0] == x then 0 else 1 + IndexOf(s[1..], x)
  }

  /** `set.add(x)`: a new element goes last, an existing one stays where it is. */
  function SetAdd(s: seq<string>, x: string): (r: seq<string>)
    ensures x in r
    ensures |s| <= |r| <= |s| + 1 && r[..|s|] == s
  {
    if x in s then s else s + [x]
  }

  /** `set.delete(x)`. */
  function SetDelete(s: seq<string>, x: string): (r: seq<string>)
    ensures |r| == if x in s then |s| - 1 else |s|
    ensures forall y :: y in r ==> y in s
  {
    if x !in s then s
    else
      var i := IndexOf(s, x);
      assert s == s[..i] + [x] + s[i + 1..];
      s[..i] + s[i + 1..]
  }

  /** Adding keeps the elements unique and adds exactly `x`. */
  lemma SetAddMembers(s: seq<string>, x: string)
    ensures Distinct(s) ==> Distinct(SetAdd(s, x))
    ensures forall y :: y in SetAdd(s, x) <==> y in s || y == x
  {
  }

  /** The first occurrence of `s[k]` is at `k` when it does not occur earlier. */
  lemma IndexOfAt(s: seq<string>, k: nat)
    requires k < |s| && s[k] !in s[..k]
    ensures IndexOf(s, s[k]) == k
  {
  }

  /** Extending a sequence does not move the first occurrence of an element
      it already holds. */
  lemma IndexOfPrefix(init: seq<string>, items: seq<string>, y: string)
    requires |init| <= |items| && items[..|init|] == init && y in init
    ensures IndexOf(items, y) == IndexOf(init, y)
  {
    var j := IndexOf(init, y);
    assert items[..j] == init[..j];
    IndexOfAt(items, j);
  }

  /** In a set, the element at `k` is found at `k`. */
  lemma DistinctIndexOf(s: seq<string>, k: nat)
    requires Distinct(s) && k < |s|
    ensures IndexOf(s, s[k]) == k
  {
    assert s[k] !in s[..k] by {
      forall m | 0 <= m < k ensures s[..k][m] != s[k] {
        assert s[..k][m] == s[m];
      }
    }
    IndexOfAt(s, k);
  }

  /** Deleting from a set removes exactly `x`, keeps the rest unique and
      keeps them in insertion order. */
  lemma SetDeleteMembers(s: seq<string>, x: string)
    requires Distinct(s)
    ensures Distinct(SetDelete(s, x))
    ensures forall y :: y in SetDelete(s, x) <==> y in s && y != x
    ensures forall a, b :: 0 <= a < b < |SetDelete(s, x)| ==>
      IndexOf(s, SetDelete(s, x)[a]) < IndexOf(s, SetDelete(s, x)[b])
  {
    var r := SetDelete(s, x);
    if x in s {
      var i := IndexOf(s, x);
      assert r == s[..i] + s[i + 1..];
      assert forall k :: 0 <= k < |r| ==> r[k] == s[if k < i then k else k + 1];
      assert s == s[..i] + [x] + s[i + 1..];
      forall a, b | 0 <= a < b < |r|
        ensures IndexOf(s, r[a]) < IndexOf(s, r[b])
      {
        var a', b' := if a < i then a else a + 1, if b < i then b else b + 1;
        assert r[a] == s[a'] && r[b] == s[b'];
        DistinctIndexOf(s, a');
        DistinctIndexOf(s, b');
      }
    } else {
      forall a, b | 0 <= a < b < |r|
        ensures IndexOf(s, r[a]) < IndexOf(s, r[b])
      {
        DistinctIndexOf(s, a);
        DistinctIndexOf(s, b);
      }
    }
  }

  /** Adding a new element and deleting it again restores the set and its order. */
  lemma AddThenDelete(s: seq<string>, x: string)
    requires Distinct(s) && x !in s
    ensures SetDelete(SetAdd(s, x), x) == s
  {
    var t := s + [x];
    assert IndexOf(t, x) == |s|;
    assert t[..|s|] == s;
  }

  /** Deleting an element and adding it back moves it to the end. */
  lemma DeleteThenAddMovesLast(s: seq<string>, x: string)
    requires Distinct(s) && x in s
    ensures var r := SetAdd(SetDelete(s, x), x);
      |r| == |s| && r[|r| - 1] == x && (forall y :: y in r <==> y in s)
  {
    SetDeleteMembers(s, x);
    SetAddMembers(SetDelete(s, x), x);
  }

  /** `new Set(items)`: the items in order of first occurrence. */
  function SetFromSeq(items: seq<string>): (r: seq<string>)
    ensures Distinct(r)
    ensures forall y :: y in r <==> y in items
  {
    if items == [] then []
    else
      var prefix, last := items[..|items| - 1], items[|items| - 1];
      var init := SetFromSeq(prefix);
      SetAddMembers(init, last);
      assert items == prefix + [last];
      SetAdd(init, last)
  }

  /** `new Set(items)` holds each item once, and lists the items in the
      order of their first occurrence. */
  lemma {:induction false} SetFromSeqOrder(items: seq<string>)
    ensures Distinct(SetFromSeq(items))
    ensures forall y :: y in SetFromSeq(items) <==> y in items
    ensures forall a, b :: 0 <= a < b < |SetFromSeq(items)| ==>
      IndexOf(items, SetFromSeq(items)[a]) < IndexOf(items, SetFromSeq(items)[b])
  {
    if items != [] {
      var init, x := items[..|items| - 1], items[|items| - 1];
      SetFromSeqOrder(init);
      assert items == init + [x];
      SetAddOrder(init, SetFromSeq(init), x);
    }
  }

  /** One step of `new Set(items)`: adding the next item keeps the set in
      order of first occurrence. */
  lemma SetAddOrder(init: seq<string>, prev: seq<string>, x: string)
    requires forall y :: y in prev <==> y in init
    requires forall a, b :: 0 <= a < b < |prev| ==> IndexOf(init, prev[a]) < IndexOf(init, prev[b])
    ensures forall a, b :: 0 <= a < b < |SetAdd(prev, x)| ==>
      IndexOf(init + [x], SetAdd(prev, x)[a]) < IndexOf(init + [x], SetAdd(prev, x)[b])
  {
    var items, r := init + [x], SetAdd(prev, x);
    assert items[..|init|] == init;
    forall a, b | 0 <= a < b < |r|
      ensures IndexOf(items, r[a]) < IndexOf(items, r[b])
    {
      assert r[a] == prev[a] && prev[a] in init;
      IndexOfPrefix(init, items, prev[a]);
      if b < |prev| {
        assert r[b] == prev[b] && prev[b] in init;
        IndexOfPrefix(init, items, prev[b]);
      } else {
        assert r == prev + [x] && x !in init;
        IndexOfAt(items, |init|);
      }
    }
  }

  /** Dropping the last of distinct items leaves distinct items without it. */
  lemma DistinctInit(items: seq<string>)
    requires Distinct(items) && items != []
    ensures Distinct(items[..|items| - 1]) && items[|items| - 1] !in items[..|items| - 1]
  {
  }

  /** Building a set from distinct items keeps them all, in order. */
  lemma {:induction false} SetFromDistinct(items: seq<string>)
    requires Distinct(items)
    ensures SetFromSeq(items) == items
  {
    if items != [] {
      var init, x := items[..|items| - 1], items[|items| - 1];
      DistinctInit(items);
      SetFromDistinct(init);
      assert SetFromSeq(items) == SetAdd(init, x);
      assert init + [x] == items;
    }
  }

  // ---------------------------------------------------------------------------
  // dispatch

  predicate IsMotion(action: Option<Action>) {
    action == Some(Step) || action == Some(Continue) || action == Some(Abort) || action == Some(Restart)
  }

  /** The one command an action sends, if any. */
  function DispatchCommands(action: Option<Action>): (cmds: seq<Command>)
    ensures |cmds| <= 1
    ensures IsMotion(action) ==> |cmds| == 1
  {
    match action
    case Some(Step) => [L.MotionCommand(L.Step)]
    case Some(Continue) => [L.MotionCommand(L.Continue)]
    case Some(Abort) => [L.MotionCommand(L.Abort)]
    case Some(Restart) => [L.MotionCommand(L.Restart)]
    case Some(AddBreakpoint(n)) => [L.AddBreakpointCommand(n)]
    case Some(RemoveBreakpoint(n)) => [L.RemoveBreakpointCommand(n)]
    case _ => []
  }

  /** The outcome of an action that sends nothing. */
  function LocalOutcome(action: Option<Action>, values: seq<string>): (r: Outcome<CmdResponse>) {
    match action
    case None => Fail(UnsupportedMessage)
    case Some(AddWatch) => if values == [] then Fail(MissingValueMessage) else Ok(NoOutput)
    case Some(RemoveWatch) => if values == [] then Fail(MissingValueMessage) else Ok(NoOutput)
    case _ => Ok(NoOutput)
  }

  /** The watch set after an action: only the watch actions change it, by the
      trimmed first value. */
  function WatchAfter(watch: seq<string>, action: Option<Action>, values: seq<string>): (r: seq<string>) {
    if values == [] then watch
    else if action == Some(AddWatch) then SetAdd(watch, Trim(values[0]))
    else if action == Some(RemoveWatch) then SetDelete(watch, Trim(values[0]))
    else watch
  }

  /** The watch actions keep the watch set free of duplicates. */
  lemma WatchAfterDistinct(watch: seq<string>, action: Option<Action>, values: seq<string>)
    requires Distinct(watch)
    ensures Distinct(WatchAfter(watch, action, values))
  {
    if values != [] {
      SetAddMembers(watch, Trim(values[0]));
      SetDeleteMembers(watch, Trim(values[0]));
    }
  }

  /** Actions that send nothing never fail except when unsupported or missing
      their value, and they alone change the watch set. */
  lemma LocalActions(watch: seq<string>, action: Option<Action>, values: seq<string>)
    ensures DispatchCommands(action) != [] ==> WatchAfter(watch, action, values) == watch
    ensures DispatchCommands(action) == [] && LocalOutcome(action, values).Fail? <==>
      action.None? || ((action == Some(AddWatch) || action == Some(RemoveWatch)) && values == [])
    ensures action == Some(NoAction) ==> DispatchCommands(action) == [] && LocalOutcome(action, values) == Ok(NoOutput)
  {
  }

  /** The outcome of an action whose command got `reply`: the reply as text,
      or the connection error's message. */
  function TextOutcome(p: L.ResponseParser, reply: L.Reply): (r: Outcome<CmdResponse>) {
    var t := L.AsText(p, reply);
    if t.Ok? then Ok(Text(t.value)) else Fail(t.message)
  }

  /** What `handleAction` resolves or rejects with, for an action dispatched
      after the commands `sent`: the local outcome when it sends nothing, else
      its command's reply rendered as text. */
  function ActionOutcome(action: Option<Action>, values: seq<string>, p: L.ResponseParser,
                         server: seq<Command> -> L.Reply, sent: seq<Command>): (r: Outcome<CmdResponse>)
  {
    if DispatchCommands(action) == [] then LocalOutcome(action, values)
    else TextOutcome(p, server(sent + DispatchCommands(action)))
  }

  /** The watch entry for `name` given the reply to its print: the first
      printed variable's value (`result[0]?.value ?? null`), or null. */
  function WatchEntry(p: L.ResponseParser, name: string, reply: L.Reply): (r: L.Variable) {
    var vars := if reply.Answer? then p.toVariables(reply.value) else [];
    L.Variable(name, if vars == [] then None else vars[0].value)
  }

  /** One name-scoped print per watched variable, in insertion order. */
  function WatchCommands(watch: seq<string>): (cmds: seq<Command>)
    ensures |cmds| == |watch|
  {
    if watch == [] then []
    else WatchCommands(watch[..|watch| - 1]) + [L.PrintCommand(Some(watch[|watch| - 1]))]
  }

  /** The `i`-th watch command prints the `i`-th watched name. */
  lemma {:induction false} WatchCommandsAt(watch: seq<string>, i: nat)
    requires i < |watch|
    ensures WatchCommands(watch)[i] == L.PrintCommand(Some(watch[i]))
    decreases |watch|
  {
    var n := |watch| - 1;
    if i < n {
      WatchCommandsAt(watch[..n], i);
      assert watch[..n][i] == watch[i];
    }
  }

  /** The first `i` watch commands are those of the first `i` names. */
  lemma {:induction false} WatchCommandsPrefix(watch: seq<string>, i: nat)
    requires i <= |watch|
    ensures WatchCommands(watch)[..i] == WatchCommands(watch[..i])
    decreases |watch|
  {
    if i < |watch| {
      var n := |watch| - 1;
      WatchCommandsPrefix(watch[..n], i);
      assert watch[..n][..i] == watch[..i];
    } else {
      assert watch[..i] == watch;
    }
  }

  /** What a running session fetches after the action: listing, variables,
      trace, then the watches. */
  function FetchCommands(watch: seq<string>): (r: seq<Command>) {
    StateCommands + WatchCommands(watch)
  }

  /** `after` is `before` followed by a prefix of `plan`. */
  ghost predicate SentPrefixOf(before: seq<Command>, after: seq<Command>, plan: seq<Command>) {
    |before| <= |after| <= |before| + |plan| && after == before + plan[..|after| - |before|]
  }

  /** The backend's replies to the commands sent after `start`, oldest first:
      each the answer given everything sent up to that command. */
  function Replies(server: seq<Command> -> L.Reply, start: seq<Command>, sent: seq<Command>): (rs: seq<L.Reply>)
    requires start <= sent
    ensures |rs| == |sent| - |start|
    decreases |sent|
  {
    if |sent| == |start| then []
    else
      assert start <= sent[..|sent| - 1];
      Replies(server, start, sent[..|sent| - 1]) + [server(sent)]
  }

  /** Reply `k` is the backend's answer to the `k`-th command after `start`. */
  lemma {:induction false} RepliesAt(server: seq<Command> -> L.Reply, start: seq<Command>, sent: seq<Command>, k: nat)
    requires start <= sent && |start| + k < |sent|
    ensures Replies(server, start, sent)[k] == server(sent[..|start| + k + 1])
    decreases |sent|
  {
    var n := |sent| - 1;
    if |start| + k < n {
      assert start <= sent[..n];
      RepliesAt(server, start, sent[..n], k);
      assert sent[..n][..|start| + k + 1] == sent[..|start| + k + 1];
    } else {
      assert sent[..|start| + k + 1] == sent;
    }
  }

  /** One more command adds the backend's answer to it at the end. */
  lemma RepliesSnoc(server: seq<Command> -> L.Reply, start: seq<Command>, sent: seq<Command>, c: Command)
    requires start <= sent
    ensures Replies(server, start, sent + [c]) == Replies(server, start, sent) + [server(sent + [c])]
  {
    assert (sent + [c])[..|sent|] == sent;
  }

  /** No reply is a connection error. */
  predicate AllAnswered(rs: seq<L.Reply>) {
    forall k :: 0 <= k < |rs| ==> rs[k].Answer?
  }

  /** The last command sent after `start` got the connection error carrying
      `message`, and every command before it was answered: a run of awaited
      requests that stopped at its first failure. */
  ghost predicate FailedAt(server: seq<Command> -> L.Reply, start: seq<Command>, sent: seq<Command>, message: string) {
    && start < sent
    && AllAnswered(Replies(server, start, sent[..|sent| - 1]))
    && server(sent) == L.ConnectionError(message)
  }

  /** An answered command extends an answered run. */
  lemma AnsweredSnoc(server: seq<Command> -> L.Reply, start: seq<Command>, sent: seq<Command>, c: Command)
    requires start <= sent && AllAnswered(Replies(server, start, sent))
    requires server(sent + [c]).Answer?
    ensures AllAnswered(Replies(server, start, sent + [c]))
  {
    RepliesSnoc(server, start, sent, c);
  }

  /** A failed command after an answered run is that run's first failure. */
  lemma FailedNext(server: seq<Command> -> L.Reply, start: seq<Command>, sent: seq<Command>, c: Command, message: string)
    requires start <= sent && AllAnswered(Replies(server, start, sent))
    requires server(sent + [c]) == L.ConnectionError(message)
    ensures FailedAt(server, start, sent + [c], message)
  {
    assert (sent + [c])[..|sent|] == sent;
  }

  /** A first failure after `b` is also the first failure after `a` when
      everything from `a` to `b` was answered. */
  lemma FailedAfter(server: seq<Command> -> L.Reply, a: seq<Command>, b: seq<Command>, c: seq<Command>, message: string)
    requires a <= b && AllAnswered(Replies(server, a, b))
    requires FailedAt(server, b, c, message)
    ensures FailedAt(server, a, c, message)
  {
    var n := |c| - 1;
    assert a <= b <= c[..n];
    RepliesAppend(server, a, b, c[..n]);
    var rs := Replies(server, a, c[..n]);
    forall k | 0 <= k < |rs|
      ensures rs[k].Answer?
    {
      if k >= |b| - |a| {
        assert rs[k] == Replies(server, b, c[..n])[k - (|b| - |a|)];
      }
    }
  }

  /** The first failure of a run is unique: of two runs from `start` where
      one extends the other, both ending at their first failure, neither goes
      further than the other, and both report the same message. */
  lemma FirstFailure(server: seq<Command> -> L.Reply, start: seq<Command>, s1: seq<Command>, s2: seq<Command>,
                     m1: string, m2: string)
    requires s1 <= s2
    requires FailedAt(server, start, s1, m1) && FailedAt(server, start, s2, m2)
    ensures s1 == s2 && m1 == m2
  {
    if |s1| < |s2| {
      var n := |s2| - 1;
      assert start < s1 <= s2[..n];
      AnsweredWithin(server, start, s2[..n], s1);
      assert false;
    }
    assert s1 == s2[..|s1|];
  }

  /** In an answered run, every command of it was answered. */
  lemma AnsweredWithin(server: seq<Command> -> L.Reply, start: seq<Command>, sent: seq<Command>, run: seq<Command>)
    requires start < run <= sent && AllAnswered(Replies(server, start, sent))
    ensures server(run).Answer?
  {
    var k := |run| - |start| - 1;
    RepliesAt(server, start, sent, k);
    assert sent[..|start| + k + 1] == run;
  }

  /** The first three fetches of a running step. */
  datatype Snapshot = Snapshot(sourceCode: seq<L.Line>, variables: seq<L.Variable>, trace: string)

  const StateCommands: seq<Command> := [L.WholeCommand, L.PrintCommand(None), L.TraceCommand]

  /** A snapshot parsed from the backend's answers to `whole`, `print` and
      `trace` sent after `start`; all three were answered. */
  ghost predicate SnapshotOf(st: Snapshot, p: L.ResponseParser, server: seq<Command> -> L.Reply, start: seq<Command>) {
    var listing := server(start + StateCommands[..1]);
    var variables := server(start + StateCommands[..2]);
    var trace := server(start + StateCommands);
    && listing.Answer? && st.sourceCode == p.toSourceCode(listing.value)
    && variables.Answer? && st.variables == p.toVariables(variables.value)
    && trace.Answer? && st.trace == p.toText(trace.value)
  }

  /** The watch entries for `names`, the `i`-th built from the `i`-th reply. */
  function WatchEntries(p: L.ResponseParser, names: seq<string>, replies: seq<L.Reply>): (entries: seq<L.Variable>)
    requires |names| == |replies|
    ensures |entries| == |names|
  {
    if names == [] then []
    else WatchEntries(p, names[..|names| - 1], replies[..|names| - 1])
         + [WatchEntry(p, names[|names| - 1], replies[|names| - 1])]
  }

  /** Entry `i` is the entry for name `i` built from reply `i`. */
  lemma {:induction false} WatchEntriesAt(p: L.ResponseParser, names: seq<string>, replies: seq<L.Reply>, i: nat)
    requires |names| == |replies| && i < |names|
    ensures WatchEntries(p, names, replies)[i] == WatchEntry(p, names[i], replies[i])
    decreases |names|
  {
    var n := |names| - 1;
    if i < n {
      WatchEntriesAt(p, names[..n], replies[..n], i);
    }
  }

  /** One more name and its reply add one entry at the end. */
  lemma WatchEntriesSnoc(p: L.ResponseParser, names: seq<string>, replies: seq<L.Reply>,
                         name: string, reply: L.Reply)
    requires |names| == |replies|
    ensures WatchEntries(p, names + [name], replies + [reply])
         == WatchEntries(p, names, replies) + [WatchEntry(p, name, reply)]
  {
    assert (names + [name])[..|names|] == names;
    assert (replies + [reply])[..|names|] == replies;
  }

  /** Watch entries, one per name in order, built from the backend's answers
      to the prints for `names` sent after `start`; every print was answered. */
  ghost predicate WatchesOf(entries: seq<L.Variable>, p: L.ResponseParser, server: seq<Command> -> L.Reply,
                            start: seq<Command>, names: seq<string>)
  {
    var replies := Replies(server, start, start + WatchCommands(names));
    AllAnswered(replies) && entries == WatchEntries(p, names, replies)
  }

  /** Progress of the watch fetch after `i` names: their prints were sent
      after `start`, all were answered, and `watch` holds the entries built
      from those answers. */
  ghost predicate WatchProgress(p: L.ResponseParser, server: seq<Command> -> L.Reply, names: seq<string>, i: nat,
                                start: seq<Command>, sent: seq<Command>, watch: seq<L.Variable>)
  {
    && i <= |names|
    && sent == start + WatchCommands(names[..i])
    && AllAnswered(Replies(server, start, sent))
    && watch == WatchEntries(p, names[..i], Replies(server, start, sent))
  }

  /** One loop step of the watch fetch sends the print for the next name. */
  lemma WatchStep(names: seq<string>, i: nat, start: seq<Command>, sent: seq<Command>, after: seq<Command>)
    requires i < |names| && sent == start + WatchCommands(names[..i])
    requires after == sent + [L.PrintCommand(Some(names[i]))]
    ensures after == start + WatchCommands(names[..i + 1])
  {
    var next := names[..i + 1];
    assert next[..i] == names[..i] && next[i] == names[i];
    assert WatchCommands(next) == WatchCommands(names[..i]) + [L.PrintCommand(Some(names[i]))];
  }

  /** The prints for the first `k` names are a prefix of the watch plan. */
  lemma WatchSentPrefix(names: seq<string>, k: nat, start: seq<Command>, sent: seq<Command>)
    requires k <= |names| && sent == start + WatchCommands(names[..k])
    ensures SentPrefixOf(start, sent, WatchCommands(names)) && |sent| == |start| + k
  {
    WatchCommandsPrefix(names, k);
    SentPrefixOfPlan(start, WatchCommands(names), k);
  }

  /** An answered print adds the entry for the next name. */
  lemma WatchAnswered(p: L.ResponseParser, server: seq<Command> -> L.Reply, names: seq<string>, i: nat,
                      start: seq<Command>, sent: seq<Command>, after: seq<Command>, watch: seq<L.Variable>)
    requires WatchProgress(p, server, names, i, start, sent, watch) && i < |names|
    requires after == sent + [L.PrintCommand(Some(names[i]))] && after == start + WatchCommands(names[..i + 1])
    requires server(after).Answer?
    ensures WatchProgress(p, server, names, i + 1, start, after, watch + [WatchEntry(p, names[i], server(after))])
  {
    var replies := Replies(server, start, sent);
    RepliesSnoc(server, start, sent, L.PrintCommand(Some(names[i])));
    assert Replies(server, start, after) == replies + [server(after)];
    TakeSnoc(names, i);
    WatchEntriesSnoc(p, names[..i], replies, names[i], server(after));
  }

  /** The watch fetch, completed, sent every print and gives one entry per name. */
  lemma WatchDone(p: L.ResponseParser, server: seq<Command> -> L.Reply, names: seq<string>,
                  start: seq<Command>, sent: seq<Command>, watch: seq<L.Variable>)
    requires WatchProgress(p, server, names, |names|, start, sent, watch)
    ensures WatchFetched(Ok(watch), p, server, names, start, sent)
  {
    var i := |names|;
    assert names[..i] == names;
    assert WatchCommands(names)[..i] == WatchCommands(names);
    SentPrefixOfPlan(start, WatchCommands(names), i);
  }

  /** A print that failed, after the earlier ones were answered, ends the
      watch fetch with its error. */
  lemma WatchFailed(p: L.ResponseParser, server: seq<Command> -> L.Reply, names: seq<string>, i: nat,
                    start: seq<Command>, sent: seq<Command>, after: seq<Command>, watch: seq<L.Variable>,
                    message: string)
    requires WatchProgress(p, server, names, i, start, sent, watch) && i < |names|
    requires after == sent + [L.PrintCommand(Some(names[i]))] && SentPrefixOf(start, after, WatchCommands(names))
    requires server(after) == L.ConnectionError(message)
    ensures WatchFetched(Fail(message), p, server, names, start, after)
  {
    FailedNext(server, start, sent, L.PrintCommand(Some(names[i])), message);
  }

  /** What the watch fetch promises: the prints it sent are a prefix of one
      print per name; on success all of them, every one answered, with one
      entry per name built from its answer; on failure the prints before the
      last were answered and the last one's connection error is reported. */
  ghost predicate WatchFetched(r: Outcome<seq<L.Variable>>, p: L.ResponseParser, server: seq<Command> -> L.Reply,
                               names: seq<string>, start: seq<Command>, sent: seq<Command>)
  {
    && SentPrefixOf(start, sent, WatchCommands(names))
    && (r.Ok? ==> sent == start + WatchCommands(names) && WatchesOf(r.value, p, server, start, names))
    && (r.Fail? ==> FailedAt(server, start, sent, r.message))
  }

  /** A running response whose listing, variables, trace and watches are
      parsed from the backend's answers to the fetches sent after `start`,
      every one of which was answered. */
  ghost predicate RunningOf(resp: Response, p: L.ResponseParser, server: seq<Command> -> L.Reply,
                            start: seq<Command>, watch: seq<string>)
  {
    && resp.RunningResponse?
    && SnapshotOf(Snapshot(resp.sourceCode, resp.variables, resp.trace), p, server, start)
    && WatchesOf(resp.watch, p, server, start + StateCommands, watch)
  }

  /** The replies after `a` are those up to `b` followed by those after `b`. */
  lemma {:induction false} RepliesAppend(server: seq<Command> -> L.Reply, a: seq<Command>, b: seq<Command>, c: seq<Command>)
    requires a <= b <= c
    ensures Replies(server, a, c) == Replies(server, a, b) + Replies(server, b, c)
    decreases |c|
  {
    if |c| > |b| {
      var n := |c| - 1;
      assert a <= b <= c[..n];
      RepliesAppend(server, a, b, c[..n]);
      assert Replies(server, a, c) == Replies(server, a, c[..n]) + [server(c)];
      assert Replies(server, b, c) == Replies(server, b, c[..n]) + [server(c)];
    } else {
      assert b == c;
    }
  }

  /** A running response means that every fetch after the action was
      answered: no listing, variables, trace or watch print failed. */
  lemma RunningAnswered(resp: Response, p: L.ResponseParser, server: seq<Command> -> L.Reply,
                        start: seq<Command>, watch: seq<string>)
    requires RunningOf(resp, p, server, start, watch)
    ensures AllAnswered(Replies(server, start, start + FetchCommands(watch)))
  {
    var mid, end := start + StateCommands, start + FetchCommands(watch);
    assert end == mid + WatchCommands(watch);
    RepliesAppend(server, start, mid, end);
    SnapshotAnswered(Snapshot(resp.sourceCode, resp.variables, resp.trace), p, server, start);
  }

  /** A snapshot means that `whole`, `print` and `trace` were all answered. */
  lemma SnapshotAnswered(st: Snapshot, p: L.ResponseParser, server: seq<Command> -> L.Reply, start: seq<Command>)
    requires SnapshotOf(st, p, server, start)
    ensures AllAnswered(Replies(server, start, start + StateCommands))
  {
    var mid := start + StateCommands;
    RepliesAt(server, start, mid, 0);
    RepliesAt(server, start, mid, 1);
    RepliesAt(server, start, mid, 2);
    assert mid[..|start| + 1] == start + StateCommands[..1];
    assert mid[..|start| + 2] == start + StateCommands[..2];
    assert mid[..|start| + 3] == mid;
  }

  /** Sending the first `i` commands of `plan` sends a prefix of it. */
  lemma SentPrefixOfPlan(before: seq<Command>, plan: seq<Command>, i: nat)
    requires i <= |plan|
    ensures SentPrefixOf(before, before + plan[..i], plan)
  {
    assert |before + plan[..i]| - |before| == i;
  }

  /** A prefix of `a` is a prefix of `a + b`. */
  lemma SentPrefixWiden(before: seq<Command>, after: seq<Command>, a: seq<Command>, b: seq<Command>)
    requires SentPrefixOf(before, after, a)
    ensures SentPrefixOf(before, after, a + b)
  {
    assert (a + b)[..|after| - |before|] == a[..|after| - |before|];
  }

  /** Sending all of `a` and then a prefix of `b` sends a prefix of `a + b`. */
  lemma SentPrefixCompose(before: seq<Command>, mid: seq<Command>, after: seq<Command>,
                          a: seq<Command>, b: seq<Command>)
    requires mid == before + a
    requires SentPrefixOf(mid, after, b)
    ensures SentPrefixOf(before, after, a + b)
  {
    assert (a + b)[..|after| - |before|] == a + b[..|after| - |mid|];
  }

  /** Whether the connection is finished once the action has succeeded: it
      already was, or the action moved the script and its reply ended the
      session. */
  predicate ActionFinishes(action: Option<Action>, server: seq<Command> -> L.Reply, sent0: seq<Command>, finished0: bool) {
    finished0 || (IsMotion(action) && L.EndsSession(server(sent0 + DispatchCommands(action))))
  }

  /** What an action on a running session with nothing cached leaves behind.
      The watch set is the one after the action. The response is Running
      exactly when nothing is cached, and any other response is cached. The
      commands sent are a prefix of the action's command followed by the
      fetches. The response is Finished exactly when the action succeeded and
      left the connection finished; it then sent only the action's command and
      carries what the action answered. A failed action sends nothing more and
      its failure is the Error response. An Error response carries either the
      local failure of an action that sent nothing, or the connection error of
      the last command sent, every earlier one having been answered. A Running response sent everything, left the
      connection unfinished, carries what the action answered, and is parsed
      from the backend's answers to the fetches, all of which were answered. */
  ghost predicate Advanced(action: Option<Action>, values: seq<string>, watch0: seq<string>, watch: seq<string>,
                           p: L.ResponseParser, server: seq<Command> -> L.Reply,
                           sent0: seq<Command>, sent: seq<Command>, finished0: bool, finished: bool,
                           resp: Response, result: Option<Response>)
  {
    && watch == WatchAfter(watch0, action, values)
    && resp.State() != Pending
    && (resp.RunningResponse? <==> result.None?)
    && (result.Some? ==> result.value == resp)
    && SentPrefixOf(sent0, sent, DispatchCommands(action) + FetchCommands(watch))
    && (resp.FinishedResponse? <==>
          ActionOutcome(action, values, p, server, sent0).Ok? && ActionFinishes(action, server, sent0, finished0))
    && (resp.FinishedResponse? ==>
          && finished && sent == sent0 + DispatchCommands(action)
          && ActionOutcome(action, values, p, server, sent0) == Ok(resp.result))
    && (ActionOutcome(action, values, p, server, sent0).Fail? ==>
          && sent == sent0 + DispatchCommands(action)
          && resp == ErrorResponse(ActionOutcome(action, values, p, server, sent0).message))
    && (resp.ErrorResponse? ==>
          || (sent == sent0 && LocalOutcome(action, values) == Fail(resp.error))
          || FailedAt(server, sent0, sent, resp.error))
    && (resp.RunningResponse? ==>
          && !finished
          && sent == sent0 + DispatchCommands(action) + FetchCommands(watch)
          && ActionOutcome(action, values, p, server, sent0) == Ok(resp.cmdResponse)
          && RunningOf(resp, p, server, sent0 + DispatchCommands(action), watch))
  }

  /** The action itself failed: its error is cached. */
  lemma AdvanceFailed(action: Option<Action>, values: seq<string>, watch0: seq<string>, watch: seq<string>,
                      p: L.ResponseParser, server: seq<Command> -> L.Reply,
                      sent0: seq<Command>, sent: seq<Command>, finished0: bool, finished: bool,
                      cmd: Outcome<CmdResponse>, resp: Response, result: Option<Response>)
    requires watch == WatchAfter(watch0, action, values)
    requires sent == sent0 + DispatchCommands(action)
    requires DispatchCommands(action) == [] ==> cmd == LocalOutcome(action, values)
    requires DispatchCommands(action) != [] ==> cmd == TextOutcome(p, server(sent))
    requires cmd.Fail? && resp == ErrorResponse(cmd.message) && result == Some(resp)
    ensures Advanced(action, values, watch0, watch, p, server, sent0, sent, finished0, finished, resp, result)
  {
    assert (DispatchCommands(action) + FetchCommands(watch))[..|sent| - |sent0|] == DispatchCommands(action);
    if DispatchCommands(action) != [] {
      ActionFailed(action, values, p, server, sent0);
    }
  }

  /** A dispatched action that failed is the first failure after `sent0`. */
  lemma ActionFailed(action: Option<Action>, values: seq<string>, p: L.ResponseParser,
                     server: seq<Command> -> L.Reply, sent0: seq<Command>)
    requires DispatchCommands(action) != [] && ActionOutcome(action, values, p, server, sent0).Fail?
    ensures FailedAt(server, sent0, sent0 + DispatchCommands(action), ActionOutcome(action, values, p, server, sent0).message)
  {
    var c := DispatchCommands(action)[0];
    assert DispatchCommands(action) == [c];
    assert Replies(server, sent0, sent0) == [];
    FailedNext(server, sent0, sent0, c, ActionOutcome(action, values, p, server, sent0).message);
  }

  /** An action that succeeded leaves every command it sent answered. */
  lemma ActionAnswered(action: Option<Action>, values: seq<string>, p: L.ResponseParser,
                       server: seq<Command> -> L.Reply, sent0: seq<Command>)
    requires ActionOutcome(action, values, p, server, sent0).Ok?
    ensures AllAnswered(Replies(server, sent0, sent0 + DispatchCommands(action)))
  {
    assert Replies(server, sent0, sent0) == [];
    if DispatchCommands(action) != [] {
      var c := DispatchCommands(action)[0];
      assert DispatchCommands(action) == [c];
      AnsweredSnoc(server, sent0, sent0, c);
    }
  }

  /** The action succeeded and the connection is finished: a Finished
      response is cached. */
  lemma AdvanceFinished(action: Option<Action>, values: seq<string>, watch0: seq<string>, watch: seq<string>,
                        p: L.ResponseParser, server: seq<Command> -> L.Reply,
                        sent0: seq<Command>, sent: seq<Command>, finished0: bool, finished: bool,
                        cmd: Outcome<CmdResponse>, resp: Response, result: Option<Response>)
    requires watch == WatchAfter(watch0, action, values)
    requires sent == sent0 + DispatchCommands(action)
    requires DispatchCommands(action) == [] ==> cmd == LocalOutcome(action, values)
    requires DispatchCommands(action) != [] ==> cmd == TextOutcome(p, server(sent))
    requires finished && ActionFinishes(action, server, sent0, finished0)
    requires cmd.Ok? && resp == FinishedResponse(cmd.value) && result == Some(resp)
    ensures Advanced(action, values, watch0, watch, p, server, sent0, sent, finished0, finished, resp, result)
  {
    assert (DispatchCommands(action) + FetchCommands(watch))[..|sent| - |sent0|] == DispatchCommands(action);
  }

  /** The action succeeded and left the session running, and the fetches
      followed: either all of them were answered, or the first failure is
      cached. */
  lemma AdvanceFetched(action: Option<Action>, values: seq<string>, watch0: seq<string>, watch: seq<string>,
                       p: L.ResponseParser, server: seq<Command> -> L.Reply,
                       sent0: seq<Command>, mid: seq<Command>, sent: seq<Command>, finished0: bool, finished: bool,
                       cmd: Outcome<CmdResponse>, resp: Response, result: Option<Response>)
    requires watch == WatchAfter(watch0, action, values)
    requires mid == sent0 + DispatchCommands(action)
    requires DispatchCommands(action) == [] ==> cmd == LocalOutcome(action, values)
    requires DispatchCommands(action) != [] ==> cmd == TextOutcome(p, server(mid))
    requires cmd.Ok? && !ActionFinishes(action, server, sent0, finished0)
    requires SentPrefixOf(mid, sent, FetchCommands(watch))
    requires resp.RunningResponse? || resp.ErrorResponse?
    requires finished == resp.ErrorResponse?
    requires result == (if resp.ErrorResponse? then Some(resp) else None)
    requires resp.RunningResponse? ==>
      && resp.cmdResponse == cmd.value
      && sent == mid + FetchCommands(watch)
      && RunningOf(resp, p, server, mid, watch)
    requires resp.ErrorResponse? ==> FailedAt(server, mid, sent, resp.error)
    ensures Advanced(action, values, watch0, watch, p, server, sent0, sent, finished0, finished, resp, result)
  {
    SentPrefixCompose(sent0, mid, sent, DispatchCommands(action), FetchCommands(watch));
    if resp.ErrorResponse? {
      ActionAnswered(action, values, p, server, sent0);
      FailedAfter(server, sent0, mid, sent, resp.error);
    }
  }

  // ---------------------------------------------------------------------------
  // the session

  class Session {
    const id: string
    const connection: L.TcpClientDebugger
    var state: DebuggerState
    /** The cached terminal response, replayed on every later call. */
    var result: Option<Response>
    var watchVars: seq<string>

    ghost predicate Valid()
      reads this
    {
      && Distinct(watchVars)
      && (state == Pending || state == Running)
      && (state == Pending ==> result == None)
      && (result.Some? ==> result.value.FinishedResponse? || result.value.ErrorResponse?)
    }

    /** `id` stands for the generated UUID. */
    constructor (id: string, connection: L.TcpClientDebugger, watch: seq<string>)
      ensures Valid()
      ensures this.id == id && this.connection == connection
      ensures state == Pending && result == None && watchVars == SetFromSeq(watch)
    {
      this.id := id;
      this.connection := connection;
      state := Pending;
      result := None;
      watchVars := SetFromSeq(watch);
    }

    /** Initialises the connection: `SCRIPT DEBUG SYNC`, then the script's
        `EVAL` if the sync was answered. Only on success is the session
        running; a failure propagates to the caller. */
    method Init() returns (r: Outcome<()>)
      requires Valid()
      modifies this`state, connection
      ensures Valid()
      ensures state == (if r.Ok? then Running else old(state))
      ensures result == old(result) && watchVars == old(watchVars)
      ensures L.InitSends(old(connection.sent), connection.sent, connection.server, connection.request)
      ensures r.Fail? <==> connection.server(connection.sent).ConnectionError?
      ensures r.Fail? ==> r.message == connection.server(connection.sent).message
    {
      r := connection.Init();
      if r.Ok? {
        state := Running;
      }
    }

    method HandleAction(action: Option<Action>, values: seq<string>) returns (r: Outcome<CmdResponse>)
      modifies this`watchVars, connection
      ensures watchVars == WatchAfter(old(watchVars), action, values)
      ensures connection.sent == old(connection.sent) + DispatchCommands(action)
      ensures connection.received ==
        old(connection.received) + (if DispatchCommands(action) == [] then [] else [connection.server(connection.sent)])
      ensures |connection.received| == |old(connection.received)| + |DispatchCommands(action)|
      ensures DispatchCommands(action) == [] ==>
        && r == LocalOutcome(action, values)
        && connection.finished == old(connection.finished)
        && connection.closed == old(connection.closed)
      ensures DispatchCommands(action) != [] ==>
        && r == TextOutcome(connection.parser, connection.server(connection.sent))
        && connection.finished == (old(connection.finished) || r.Fail?
                                   || (IsMotion(action) && L.EndsSession(connection.server(connection.sent))))
    {
      match action {
        case None =>
          r := Fail(UnsupportedMessage);
        case Some(a) =>
          match a {
            case NoAction =>
              r := Ok(NoOutput);
            case Step =>
              assert DispatchCommands(action) == [L.MotionCommand(L.Step)];
              var t := connection.Resume(L.Step);
              r := if t.Ok? then Ok(Text(t.value)) else Fail(t.message);
            case Continue =>
              assert DispatchCommands(action) == [L.MotionCommand(L.Continue)];
              var t := connection.Resume(L.Continue);
              r := if t.Ok? then Ok(Text(t.value)) else Fail(t.message);
            case Abort =>
              assert DispatchCommands(action) == [L.MotionCommand(L.Abort)];
              var t := connection.Resume(L.Abort);
              r := if t.Ok? then Ok(Text(t.value)) else Fail(t.message);
            case Restart =>
              assert DispatchCommands(action) == [L.MotionCommand(L.Restart)];
              var t := connection.Resume(L.Restart);
              r := if t.Ok? then Ok(Text(t.value)) else Fail(t.message);
            case AddBreakpoint(n) =>
              assert DispatchCommands(action) == [L.AddBreakpointCommand(n)];
              var t := connection.AddBreakpoint(n);
              r := if t.Ok? then Ok(Text(t.value)) else Fail(t.message);
            case RemoveBreakpoint(n) =>
              assert DispatchCommands(action) == [L.RemoveBreakpointCommand(n)];
              var t := connection.RemoveBreakpoint(n);
              r := if t.Ok? then Ok(Text(t.value)) else Fail(t.message);
            case AddWatch =>
              if values == [] {
                r := Fail(MissingValueMessage);
              } else {
                watchVars := SetAdd(watchVars, Trim(values[0]));
                r := Ok(NoOutput);
              }
            case RemoveWatch =>
              if values == [] {
                r := Fail(MissingValueMessage);
              } else {
                watchVars := SetDelete(watchVars, Trim(values[0]));
                r := Ok(NoOutput);
              }
          }
      }
    }

    /** One print per watched name, in insertion order; the entry's value is
        the first printed variable's value, or null. */
    method HandleWatch() returns (r: Outcome<seq<L.Variable>>)
      modifies connection
      ensures WatchFetched(r, connection.parser, connection.server, watchVars, old(connection.sent), connection.sent)
      ensures connection.finished == (old(connection.finished) || r.Fail?)
    {
      var names, p := watchVars, connection.parser;
      ghost var server, start := connection.server, connection.sent;
      var watch: seq<L.Variable> := [];
      var i := 0;
      while i < |names|
        invariant WatchProgress(p, server, names, i, start, connection.sent, watch)
        invariant connection.finished == old(connection.finished)
        decreases |names| - i
      {
        ghost var before := connection.sent;
        var printed := connection.Print(Some(names[i]));
        WatchStep(names, i, start, before, connection.sent);
        WatchSentPrefix(names, i + 1, start, connection.sent);
        if printed.Fail? {
          WatchFailed(p, server, names, i, start, before, connection.sent, watch, printed.message);
          return Fail(printed.message);
        }
        WatchAnswered(p, server, names, i, start, before, connection.sent, watch);
        var vars := printed.value;
        var entry := L.Variable(names[i], if vars == [] then None else vars[0].value);
        assert entry == WatchEntry(p, names[i], server(connection.sent));
        watch := watch + [entry];
        i := i + 1;
      }
      WatchDone(p, server, names, start, connection.sent, watch);
      r := Ok(watch);
    }

    /** Caches and returns a terminal response. */
    method Conclude(terminal: Response) returns (resp: Response)
      requires terminal.FinishedResponse? || terminal.ErrorResponse?
      modifies this`result
      ensures resp == terminal && result == Some(terminal)
    {
      result := Some(terminal);
      resp := terminal;
    }

    /** One user action. A pending session answers Pending; a cached terminal
        response is replayed without touching the connection. Otherwise the
        action is dispatched and, unless that ends the session, the state is
        fetched (see `Advance`). */
    method ExecAction(action: Option<Action>, values: seq<string>) returns (resp: Response)
      requires Valid()
      modifies this, connection
      ensures Valid()
      ensures state == old(state)
      ensures old(state) == Pending ==> resp == PendingResponse
      ensures old(state) == Running && old(result).Some? ==> resp == old(result).value
      ensures old(state) == Pending || old(result).Some? ==> unchanged(this) && unchanged(connection)
      ensures old(state) == Running && old(result).None? ==>
        && watchVars == WatchAfter(old(watchVars), action, values)
        && resp.State() != Pending
        && (resp.RunningResponse? <==> result.None?)
        && (result.Some? ==> result.value == resp)
        && SentPrefixOf(old(connection.sent), connection.sent, DispatchCommands(action) + FetchCommands(watchVars))
      ensures old(state) == Running && old(result).None? ==>
        (resp.FinishedResponse? <==>
           && ActionOutcome(action, values, connection.parser, connection.server, old(connection.sent)).Ok?
           && ActionFinishes(action, connection.server, old(connection.sent), old(connection.finished)))
      ensures old(state) == Running && old(result).None? && resp.FinishedResponse? ==>
        && connection.finished
        && connection.sent == old(connection.sent) + DispatchCommands(action)
        && ActionOutcome(action, values, connection.parser, connection.server, old(connection.sent)) == Ok(resp.result)
      ensures old(state) == Running && old(result).None? &&
              ActionOutcome(action, values, connection.parser, connection.server, old(connection.sent)).Fail? ==>
        && connection.sent == old(connection.sent) + DispatchCommands(action)
        && resp == ErrorResponse(ActionOutcome(action, values, connection.parser, connection.server, old(connection.sent)).message)
      ensures old(state) == Running && old(result).None? && resp.ErrorResponse? ==>
        || (connection.sent == old(connection.sent) && LocalOutcome(action, values) == Fail(resp.error))
        || FailedAt(connection.server, old(connection.sent), connection.sent, resp.error)
      ensures old(state) == Running && old(result).None? && resp.RunningResponse? ==>
        && !connection.finished
        && connection.sent == old(connection.sent) + DispatchCommands(action) + FetchCommands(watchVars)
        && ActionOutcome(action, values, connection.parser, connection.server, old(connection.sent)) == Ok(resp.cmdResponse)
        && RunningOf(resp, connection.parser, connection.server, old(connection.sent) + DispatchCommands(action), watchVars)
    {
      if state == Pending {
        resp := PendingResponse;
      } else if result.Some? {
        resp := result.value;
      } else {
        resp := Advance(action, values);
        WatchAfterDistinct(old(watchVars), action, values);
      }
    }

    /** The guarded part of an action on a running session with nothing cached:
        dispatch; a finished connection yields a cached Finished response, and a
        running one is followed by fetching, in order, the listing, the
        variables, the trace and the watches. Any failure yields a cached Error
        response. */
    method Advance(action: Option<Action>, values: seq<string>) returns (resp: Response)
      requires result == None
      modifies this`watchVars, this`result, connection
      ensures Advanced(action, values, old(watchVars), watchVars, connection.parser, connection.server,
                       old(connection.sent), connection.sent, old(connection.finished), connection.finished,
                       resp, result)
    {
      ghost var watch0, sent0, finished0 := watchVars, connection.sent, connection.finished;
      var cmd := HandleAction(action, values);
      assert cmd.Ok? ==> (connection.finished <==> ActionFinishes(action, connection.server, sent0, finished0));
      if cmd.Fail? {
        resp := Conclude(ErrorResponse(cmd.message));
        AdvanceFailed(action, values, watch0, watchVars, connection.parser, connection.server,
                      sent0, connection.sent, finished0, connection.finished, cmd, resp, result);
      } else if connection.finished {
        resp := Conclude(FinishedResponse(cmd.value));
        AdvanceFinished(action, values, watch0, watchVars, connection.parser, connection.server,
                        sent0, connection.sent, finished0, connection.finished, cmd, resp, result);
      } else {
        ghost var mid := connection.sent;
        resp := Fetch(cmd.value);
        if resp.ErrorResponse? {
          resp := Conclude(resp);
        }
        AdvanceFetched(action, values, watch0, watchVars, connection.parser, connection.server,
                       sent0, mid, connection.sent, finished0, connection.finished, cmd, resp, result);
      }
    }

    /** The listing, the variables and the trace, in that order; stops at the
        first failure. */
    method FetchState() returns (r: Outcome<Snapshot>)
      modifies connection
      ensures SentPrefixOf(old(connection.sent), connection.sent, StateCommands)
      ensures connection.finished == (old(connection.finished) || r.Fail?)
      ensures r.Ok? ==>
        && connection.sent == old(connection.sent) + StateCommands
        && SnapshotOf(r.value, connection.parser, connection.server, old(connection.sent))
      ensures r.Fail? ==> FailedAt(connection.server, old(connection.sent), connection.sent, r.message)
    {
      ghost var start, server := connection.sent, connection.server;
      assert Replies(server, start, start) == [];
      var sourceCode := connection.Whole();
      assert connection.sent == start + StateCommands[..1];
      if sourceCode.Fail? {
        FailedNext(server, start, start, L.WholeCommand, sourceCode.message);
        return Fail(sourceCode.message);
      }
      AnsweredSnoc(server, start, start, L.WholeCommand);
      var variables := connection.Print(None);
      assert connection.sent == start + StateCommands[..2];
      if variables.Fail? {
        FailedNext(server, start, start + StateCommands[..1], L.PrintCommand(None), variables.message);
        return Fail(variables.message);
      }
      AnsweredSnoc(server, start, start + StateCommands[..1], L.PrintCommand(None));
      var trace := connection.Trace();
      assert connection.sent == start + StateCommands;
      if trace.Fail? {
        FailedNext(server, start, start + StateCommands[..2], L.TraceCommand, trace.message);
        return Fail(trace.message);
      }
      r := Ok(Snapshot(sourceCode.value, variables.value, trace.value));
    }

    /** The fetches of a running session after its action, in fixed order:
        listing, variables, trace, watches. Stops at the first failure. */
    method Fetch(cmd: CmdResponse) returns (resp: Response)
      modifies connection
      ensures SentPrefixOf(old(connection.sent), connection.sent, FetchCommands(watchVars))
      ensures resp.RunningResponse? || resp.ErrorResponse?
      ensures connection.finished == (old(connection.finished) || resp.ErrorResponse?)
      ensures resp.RunningResponse? ==>
        && connection.sent == old(connection.sent) + FetchCommands(watchVars)
        && resp.cmdResponse == cmd
        && RunningOf(resp, connection.parser, connection.server, old(connection.sent), watchVars)
      ensures resp.ErrorResponse? ==> FailedAt(connection.server, old(connection.sent), connection.sent, resp.error)
    {
      ghost var start := connection.sent;
      var st := FetchState();
      if st.Fail? {
        SentPrefixWiden(start, connection.sent, StateCommands, WatchCommands(watchVars));
        return ErrorResponse(st.message);
      }
      ghost var mid := connection.sent;
      var watch := HandleWatch();
      SentPrefixCompose(start, mid, connection.sent, StateCommands, WatchCommands(watchVars));
      if watch.Fail? {
        SnapshotAnswered(st.value, connection.parser, connection.server, start);
        FailedAfter(connection.server, start, mid, connection.sent, watch.message);
        return ErrorResponse(watch.message);
      }
      resp := RunningResponse(cmd, st.value.sourceCode, watch.value, st.value.variables, st.value.trace);
    }

  }
}
