/** The daemon's request loop on one connection: `reader_task` and `handle_hello_gate`
    (crates/waymux-daemon/src/server.rs). What the sessions answer is left to an opaque handler. */
module Server {

  const CURRENT_PROTOCOL_VERSION: nat := 4

  /** Hello, or any other request, whose name and parameters are opaque. */
  datatype Method = Hello(clientProtocol: nat) | Call(text: string)

  datatype Request = Request(id: nat, call: Method)

  datatype Body = Welcome(serverProtocol: nat) | WrongVersion | HelloFirst | HelloAgain | Answer(text: string)

  datatype Response = Response(id: nat, ok: bool, body: Body)

  /** What goes to the writer. */
  datatype Outgoing = Reply(response: Response) | Event(text: string)

  /** What a request comes to, given the calls made before: the events put on the queue ahead of its response,
      replayed by a subscription or live from an earlier one, whether it succeeds, and its result. */
  datatype Result = Result(events: seq<string>, ok: bool, text: string)

  type Handler = (seq<Request>, Request) -> Result

  predicate Accepts(r: Request)
  {
    r.call.Hello? && 0 < r.call.clientProtocol <= CURRENT_PROTOCOL_VERSION
  }

  /** The number of requests before the first acceptable hello. */
  function GateAt(requests: seq<Request>): (n: nat)
    ensures n <= |requests|
  {
    if requests == [] || Accepts(requests[0]) then 0 else 1 + GateAt(requests[1..])
  }

  lemma {:induction false} GateShows(requests: seq<Request>)
    ensures var n := GateAt(requests);
            (forall i :: 0 <= i < n ==> !Accepts(requests[i])) && (n < |requests| ==> Accepts(requests[n]))
  {
    if requests == [] || Accepts(requests[0]) {
    } else {
      GateShows(requests[1..]);
      forall i | 0 < i < GateAt(requests) ensures !Accepts(requests[i]) { assert requests[i] == requests[1..][i - 1]; }
    }
  }

  function Calls(requests: seq<Request>): (r: seq<Request>)
  {
    if requests == [] then [] else
    var n := |requests| - 1;
    Calls(requests[..n]) + (if requests[n].call.Call? then [requests[n]] else [])
  }

  /** The requests that reach a session: those after the first acceptable hello, other than further hellos. */
  function Dispatched(requests: seq<Request>): (r: seq<Request>)
  {
    if GateAt(requests) == |requests| then [] else Calls(requests[GateAt(requests) + 1..])
  }

  lemma {:induction false} GateIs(requests: seq<Request>, n: nat)
    requires n <= |requests| && (forall i :: 0 <= i < n ==> !Accepts(requests[i]))
    requires n < |requests| ==> Accepts(requests[n])
    ensures GateAt(requests) == n
  {
    GateShows(requests);
  }

  lemma {:induction false} GateSnoc(requests: seq<Request>, r: Request)
    ensures GateAt(requests + [r])
            == if GateAt(requests) < |requests| || Accepts(r) then GateAt(requests) else |requests| + 1
  {
    var g := GateAt(requests);
    GateShows(requests);
    GateIs(requests + [r], if g < |requests| || Accepts(r) then g else |requests| + 1);
  }

  /** A prefix has the gate where the whole has it, or has none. */
  lemma {:induction false} GatePrefix(requests: seq<Request>, n: nat)
    requires n <= |requests|
    ensures GateAt(requests[..n]) == if GateAt(requests) < n then GateAt(requests) else n
  {
    var g := GateAt(requests);
    GateShows(requests);
    GateIs(requests[..n], if g < n then g else n);
  }

  lemma {:induction false} CallsIn(requests: seq<Request>, r: Request)
    requires r in Calls(requests)
    ensures r in requests && r.call.Call?
  {
    if requests == [] {
    } else {
      var n := |requests| - 1;
      if r in Calls(requests[..n]) { CallsIn(requests[..n], r); }
    }
  }

  lemma {:induction false} CallsSnoc(requests: seq<Request>, r: Request)
    ensures Calls(requests + [r]) == if r.call.Call? then Calls(requests) + [r] else Calls(requests)
  {
    assert (requests + [r])[..|requests|] == requests;
  }

  lemma {:induction false} DispatchedSnoc(requests: seq<Request>, r: Request)
    ensures Dispatched(requests + [r])
            == if GateAt(requests) < |requests| && r.call.Call? then Dispatched(requests) + [r]
                else Dispatched(requests)
  {
    var g := GateAt(requests);
    GateSnoc(requests, r);
    DispatchedAt(requests, g);
    DispatchedAt(requests + [r], if g < |requests| || Accepts(r) then g else |requests| + 1);
    if g < |requests| { CallsAfter(requests, r, g + 1); }
  }

  lemma {:induction false} DispatchedAt(requests: seq<Request>, g: nat)
    requires GateAt(requests) == g
    ensures g <= |requests|
    ensures Dispatched(requests) == if g + 1 < |requests| then Calls(requests[g + 1..]) else []
  {
    if g + 1 == |requests| { assert requests[g + 1..] == []; }
  }

  lemma {:induction false} CallsAfter(requests: seq<Request>, r: Request, n: nat)
    requires n <= |requests|
    ensures var calls := Calls(requests[n..]);
            Calls((requests + [r])[n..]) == if r.call.Call? then calls + [r] else calls
  {
    assert (requests + [r])[n..] == requests[n..] + [r];
    CallsSnoc(requests[n..], r);
  }

  /** What the i-th request gets: before the gate a refusal, at it the welcome, after it the handler's result
      given the calls made so far. */
  function Handled(requests: seq<Request>, i: nat, handler: Handler, before: seq<Request>): (r: (seq<string>, Response))
    requires i < |requests|
  {
    var (r, g) := (requests[i], GateAt(requests));
    if i < g then ([], Response(r.id, false, if r.call.Hello? then WrongVersion else HelloFirst))
    else if i == g then ([], Response(r.id, true, Welcome(CURRENT_PROTOCOL_VERSION)))
    else if r.call.Hello? then ([], Response(r.id, false, HelloAgain))
    else
      var a := handler(before + Dispatched(requests[..i]), r);
      (a.events, Response(r.id, a.ok, Answer(a.text)))
  }

  function Events(texts: seq<string>): (r: seq<Outgoing>)
    ensures |r| == |texts| && forall i :: 0 <= i < |r| ==> r[i] == Event(texts[i])
  {
    seq(|texts|, i requires 0 <= i < |texts| => Event(texts[i]))
  }

  function Chunk(r: (seq<string>, Response)): (out: seq<Outgoing>) { Events(r.0) + [Reply(r.1)] }

  /** All that the first n requests put on the queue. */
  function Script(requests: seq<Request>, n: nat, handler: Handler, before: seq<Request>): (out: seq<Outgoing>)
    requires n <= |requests|
  {
    if n == 0 then [] else
    Script(requests, n - 1, handler, before) + Chunk(Handled(requests, n - 1, handler, before))
  }

  function Replies(out: seq<Outgoing>): (r: seq<Response>)
  {
    if out == [] then [] else
    var n := |out| - 1;
    Replies(out[..n]) + (if out[n].Reply? then [out[n].response] else [])
  }

  lemma {:induction false} RepliesConcat(a: seq<Outgoing>, b: seq<Outgoing>)
    ensures Replies(a + b) == Replies(a) + Replies(b)
  {
    if b == [] {
      assert a + b == a;
    } else {
      assert (a + b)[..|a + b| - 1] == a + b[..|b| - 1];
      RepliesConcat(a, b[..|b| - 1]);
    }
  }

  lemma {:induction false} NoReplies(out: seq<Outgoing>)
    requires forall i :: 0 <= i < |out| ==> out[i].Event?
    ensures Replies(out) == []
  {
    if out == [] {
    } else {
      NoReplies(out[..|out| - 1]);
    }
  }

  lemma {:induction false} ChunkReplies(r: (seq<string>, Response))
    ensures Replies(Chunk(r)) == [r.1]
  {
    NoReplies(Events(r.0));
    RepliesConcat(Events(r.0), [Reply(r.1)]);
    assert [Reply(r.1)][..0] == [];
    assert Replies([Reply(r.1)]) == Replies([]) + [r.1];
  }

  lemma {:induction false} ScriptReplies(requests: seq<Request>, n: nat, handler: Handler, before: seq<Request>)
    requires 0 < n <= |requests|
    ensures Replies(Script(requests, n, handler, before))
         == Replies(Script(requests, n - 1, handler, before)) + [Handled(requests, n - 1, handler, before).1]
  {
    var h := Handled(requests, n - 1, handler, before);
    RepliesConcat(Script(requests, n - 1, handler, before), Chunk(h));
    ChunkReplies(h);
  }

  lemma {:induction false} HandledId(requests: seq<Request>, i: nat, handler: Handler, before: seq<Request>)
    requires i < |requests|
    ensures Handled(requests, i, handler, before).1.id == requests[i].id
  {
  }

  /** The responses to the first n requests, in order. */
  function Expected(requests: seq<Request>, n: nat, handler: Handler, before: seq<Request>): (r: seq<Response>)
    requires n <= |requests|
    ensures |r| == n && forall i :: 0 <= i < n ==> r[i] == Handled(requests, i, handler, before).1
  {
    if n == 0 then [] else
    Expected(requests, n - 1, handler, before) + [Handled(requests, n - 1, handler, before).1]
  }

  lemma {:induction false} RepliesExpected(requests: seq<Request>, n: nat, handler: Handler, before: seq<Request>)
    requires n <= |requests|
    ensures Replies(Script(requests, n, handler, before)) == Expected(requests, n, handler, before)
  {
    if n == 0 {
    } else {
      RepliesExpected(requests, n - 1, handler, before);
      ScriptReplies(requests, n, handler, before);
    }
  }

  /** One response for each request, in order, with its id, whatever events come between. */
  lemma {:induction false} OneReplyEach(requests: seq<Request>, n: nat, i: nat, handler: Handler, before: seq<Request>)
    requires i < n <= |requests|
    ensures var replies := Replies(Script(requests, n, handler, before));
            |replies| == n && replies[i] == Handled(requests, i, handler, before).1 && replies[i].id == requests[i].id
  {
    RepliesExpected(requests, n, handler, before);
    HandledId(requests, i, handler, before);
  }

  class Backend {
    var calls: seq<Request>

    constructor ()
      ensures calls == []
    {
      calls := [];
    }

    method Dispatch(handler: Handler, r: Request) returns (events: seq<string>, response: Response)
      modifies this
      ensures response.id == r.id
      ensures calls == if r.call.Call? then old(calls) + [r] else old(calls)
      ensures r.call.Hello? ==> events == [] && !response.ok && response.body.HelloAgain?
      ensures r.call.Call? ==> var a := handler(old(calls), r);
                               events == a.events && response.ok == a.ok && response.body == Answer(a.text)
    {
      if r.call.Hello? { return [], Response(r.id, false, HelloAgain); }
      var a := handler(calls, r);
      calls := calls + [r];
      events, response := a.events, Response(r.id, a.ok, Answer(a.text));
    }
  }

  method HandleHelloGate(r: Request, negotiated: bool) returns (response: Response, negotiated': bool)
    ensures response.id == r.id && negotiated' == (negotiated || Accepts(r))
    ensures response.ok == Accepts(r)
    ensures response.body == if Accepts(r) then Welcome(CURRENT_PROTOCOL_VERSION)
                             else if r.call.Hello? then WrongVersion else HelloFirst
  {
    match r.call
    case Hello(client) =>
      if client == 0 || client > CURRENT_PROTOCOL_VERSION {
        return Response(r.id, false, WrongVersion), negotiated;
      }
      return Response(r.id, true, Welcome(CURRENT_PROTOCOL_VERSION)), true;
    case Call(_) => return Response(r.id, false, HelloFirst), negotiated;
  }

  /** One turn of the loop: the i-th request is handled, and reaches a session only behind the gate. */
  method HandleOne(requests: seq<Request>, i: nat, negotiated: bool, handler: Handler, backend: Backend,
                   ghost before: seq<Request>)
    returns (events: seq<string>, response: Response, negotiated': bool)
    requires i < |requests| && negotiated == (GateAt(requests) < i)
    requires backend.calls == before + Dispatched(requests[..i])
    modifies backend
    ensures (events, response) == Handled(requests, i, handler, before)
    ensures negotiated' == (GateAt(requests) < i + 1)
    ensures backend.calls == before + Dispatched(requests[..i + 1])
  {
    var r := requests[i];
    ghost var calls := Dispatched(requests[..i]);
    GateShows(requests);
    GatePrefix(requests, i);
    DispatchedSnoc(requests[..i], r);
    assert requests[..i] + [r] == requests[..i + 1];
    assert (before + calls) + [r] == before + (calls + [r]);
    if !negotiated {
      response, negotiated' := HandleHelloGate(r, negotiated);
      events := [];
    } else {
      events, response := backend.Dispatch(handler, r);
      negotiated' := true;
    }
  }

  /** Sends until the writer, which takes `room` messages, is gone. */
  method Send(queue: seq<Outgoing>, room: nat, out: seq<Outgoing>) returns (queue': seq<Outgoing>, ok: bool)
    requires |queue| <= room
    ensures ok == (|queue + out| <= room) && queue' == if ok then queue + out else (queue + out)[..room]
  {
    queue' := queue;
    var i := 0;
    while i < |out| && |queue'| < room
      invariant 0 <= i <= |out| && |queue'| <= room && queue' == queue + out[..i]
    {
      queue' := queue' + [out[i]];
      i := i + 1;
    }
    ok := i == |out|;
    assert queue' == (queue + out)[..|queue'|];
  }

  /** The loop over the requests that arrive, until they end or the writer is gone: the queue holds what the
      requests handled put there, in order, cut off where the writer went; and no request reaches a session
      before an acceptable hello. */
  method ReaderTask(requests: seq<Request>, room: nat, handler: Handler, backend: Backend)
    returns (queue: seq<Outgoing>, handled: nat)
    modifies backend
    ensures handled <= |requests|
    ensures var script := Script(requests, handled, handler, old(backend.calls));
            && queue == (if |script| <= room then script else script[..room])
            && (handled < |requests| ==> |script| > room)
    ensures handled > 0 ==> |Script(requests, handled - 1, handler, old(backend.calls))| <= room
    ensures backend.calls == old(backend.calls) + Dispatched(requests[..handled])
  {
    var negotiated := false;
    ghost var before := backend.calls;
    queue, handled := [], 0;
    assert before + Dispatched([]) == before && requests[..0] == [];
    while handled < |requests|
      invariant handled <= |requests|
      invariant queue == Script(requests, handled, handler, before) && |queue| <= room
      invariant handled > 0 ==> |Script(requests, handled - 1, handler, before)| <= room
      invariant negotiated == (GateAt(requests) < handled)
      invariant backend.calls == before + Dispatched(requests[..handled])
    {
      var events, response;
      events, response, negotiated := HandleOne(requests, handled, negotiated, handler, backend, before);
      var chunk := Chunk((events, response));
      handled := handled + 1;
      assert Script(requests, handled, handler, before) == queue + chunk;
      var ok;
      queue, ok := Send(queue, room, chunk);
      if !ok { return; }
    }
  }

  // ----- the gate, request by request

  predicate Supported(r: Request) { r.call.Hello? && 1 <= r.call.clientProtocol <= 4 }

  /** A hello of a supported version came before the i-th request. */
  predicate Opened(requests: seq<Request>, i: nat)
    requires i <= |requests|
  {
    exists j :: 0 <= j < i && Supported(requests[j])
  }

  lemma {:induction false} OpenedExactly(requests: seq<Request>, i: nat)
    requires i <= |requests|
    ensures Opened(requests, i) <==> GateAt(requests) < i
  {
    var g := GateAt(requests);
    GateShows(requests);
    if g < i { assert Supported(requests[g]); }
    forall j | 0 <= j < i && Supported(requests[j]) ensures g < i { assert Accepts(requests[j]); }
  }

  /** The i-th request gets, under its id: before the gate is open the welcome with version 4 for a supported hello, a
      version error for another, and a demand for hello for anything else; after that an error for a further hello, and
      for a call the events and the result that the handler gives, told the calls so far. */
  lemma {:induction false} HandledExactly(requests: seq<Request>, i: nat, handler: Handler, before: seq<Request>)
    requires i < |requests|
    ensures var (r, (events, response)) := (requests[i], Handled(requests, i, handler, before));
            && response.id == r.id
            && (!Opened(requests, i) ==> events == [] && response.ok == Supported(r))
            && (!Opened(requests, i) && Supported(r) ==> response.body == Welcome(4))
            && (!Opened(requests, i) && !Supported(r) && r.call.Hello? ==> response.body == WrongVersion)
            && (!Opened(requests, i) && r.call.Call? ==> response.body == HelloFirst)
            && (Opened(requests, i) && r.call.Hello? ==> events == [] && !response.ok && response.body == HelloAgain)
            && (Opened(requests, i) && r.call.Call? ==>
                  var a := handler(before + Reaching(requests[..i]), r);
                  events == a.events && response.ok == a.ok && response.body == Answer(a.text))
  {
    GateShows(requests);
    OpenedExactly(requests, i);
    ReachingExactly(requests[..i]);
  }

  /** The calls that come when the gate is open, in their order. */
  function Reaching(requests: seq<Request>): (r: seq<Request>)
  {
    if requests == [] then [] else
    var n := |requests| - 1;
    Reaching(requests[..n]) + Passed(requests, n)
  }

  /** The i-th request, if it is a call that comes when the gate is open. */
  function Passed(requests: seq<Request>, i: nat): (r: seq<Request>)
    requires i < |requests|
  {
    if requests[i].call.Call? && Opened(requests, i) then [requests[i]] else []
  }

  /** Exactly these reach a session. */
  lemma {:induction false} ReachingExactly(requests: seq<Request>)
    ensures Dispatched(requests) == Reaching(requests)
  {
    if requests == [] {
    } else {
      ReachingExactly(requests[..|requests| - 1]);
      DispatchedLast(requests);
    }
  }

  lemma {:induction false} DispatchedLast(requests: seq<Request>)
    requires requests != []
    ensures var n := |requests| - 1; Dispatched(requests) == Dispatched(requests[..n]) + Passed(requests, n)
  {
    var n := |requests| - 1;
    assert requests == requests[..n] + [requests[n]];
    DispatchedAppend(requests[..n], requests[n]);
  }

  lemma {:induction false} OpenedFront(front: seq<Request>, r: Request)
    ensures Opened(front + [r], |front|) <==> GateAt(front) < |front|
  {
    OpenedExactly(front + [r], |front|);
    GateSnoc(front, r);
  }

  lemma {:induction false} DispatchedAppend(front: seq<Request>, r: Request)
    ensures Dispatched(front + [r]) == Dispatched(front) + Passed(front + [r], |front|)
  {
    OpenedFront(front, r);
    DispatchedSnoc(front, r);
    var (d, p) := (Dispatched(front), Passed(front + [r], |front|));
    assert p == if r.call.Call? && GateAt(front) < |front| then [r] else [];
    assert d + [] == d;
  }

  /** What reaches a session came after a hello of a supported version. */
  lemma {:induction false} NothingBeforeHello(requests: seq<Request>, r: Request)
    requires r in Dispatched(requests)
    ensures exists i, j :: 0 <= i < j < |requests| && requests[j] == r && r.call.Call?
                           && requests[i].call.Hello? && 1 <= requests[i].call.clientProtocol <= 4
  {
    var g := GateAt(requests);
    GateShows(requests);
    CallsIn(requests[g + 1..], r);
    var k :| 0 <= k < |requests[g + 1..]| && requests[g + 1..][k] == r;
    assert requests[g + 1 + k] == r;
  }

  /** And every call after one does. */
  lemma {:induction false} CallsReachSessions(requests: seq<Request>, i: nat, j: nat)
    requires i < j < |requests| && requests[j].call.Call?
    requires requests[i].call.Hello? && 1 <= requests[i].call.clientProtocol <= 4
    ensures requests[j] in Dispatched(requests)
  {
    var g := GateAt(requests);
    GateShows(requests);
    assert Accepts(requests[i]);
    CallIn(requests[g + 1..], j - g - 1);
  }

  lemma {:induction false} CallIn(requests: seq<Request>, j: nat)
    requires j < |requests| && requests[j].call.Call?
    ensures requests[j] in Calls(requests)
  {
    var n := |requests| - 1;
    if j == n {
    } else {
      CallIn(requests[..n], j);
    }
  }
}
