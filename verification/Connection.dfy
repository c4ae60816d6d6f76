/** The client's end of a connection, on which responses and events share one stream
    (crates/waymux-cli/src/connection.rs), and what becomes of both over any run of client and daemon
    (crates/waymux-daemon/src/server.rs, `reader_task`, `event_forwarder` and `writer_task`). */
module Connection {
  import opened Bytes

  const MAX_ID: nat := 0xFFFF_FFFF

  /** What a frame decodes to; Event is whatever does not decode as a response. */
  datatype Frame =
    | Response(id: nat, ok: bool, error: Option<string>, body: string)
    | Event(text: string)

  datatype Result = Ok(response: Frame) | ServerError(error: string) | NoErrorBody | Disconnected | NotEncoded
      | NotWritten

  predicate Matches(f: Frame, id: nat) { f.Response? && f.id == id }

  function Outcome(f: Frame): (r: Result)
    requires f.Response?
  {
    if f.ok then Ok(f) else if f.error.Some? then ServerError(f.error.value) else NoErrorBody
  }

  function NextId(id: nat): (n: nat)
    requires 1 <= id <= MAX_ID
    ensures 1 <= n <= MAX_ID && n != id
  {
    if id == MAX_ID then 1 else id + 1
  }

  predicate NoMatch(frames: seq<Frame>, id: nat) { forall i :: 0 <= i < |frames| ==> !Matches(frames[i], id) }

  class Connection {
    var incoming: seq<Frame>    // what the socket will yield before it closes
    var nextId: nat
    var pending: seq<Frame>
    var sent: seq<nat>          // the ids of the requests written

    ghost predicate Valid()
      reads this
    {
      1 <= nextId <= MAX_ID
    }

    /** Everything `read_raw_frame` could still return, in order. */
    ghost function ToRead(): (frames: seq<Frame>)
      reads this
    {
      pending + incoming
    }

    constructor (incoming: seq<Frame>)
      ensures Valid() && this.incoming == incoming && nextId == 1 && pending == [] && sent == []
    {
      this.incoming, nextId, pending, sent := incoming, 1, [], [];
    }

    /** The oldest frame not yet returned: queued frames come before those still on the socket. */
    method ReadRawFrame() returns (r: Option<Frame>)
      requires Valid()
      modifies this
      ensures Valid() && nextId == old(nextId) && sent == old(sent)
      ensures old(ToRead()) == [] ==> r.None? && ToRead() == []
      ensures old(ToRead()) != [] ==> r == Some(old(ToRead())[0]) && ToRead() == old(ToRead())[1..]
      ensures old(pending) != [] ==> incoming == old(incoming)
    {
      if pending != [] {
        r := Some(pending[0]);
        pending := pending[1..];
      } else {
        r := ReadSocketFrame();
      }
    }

    method ReadSocketFrame() returns (r: Option<Frame>)
      modifies this
      ensures pending == old(pending) && nextId == old(nextId) && sent == old(sent)
      ensures old(incoming) == [] ==> r.None? && incoming == []
      ensures old(incoming) != [] ==> r == Some(old(incoming)[0]) && incoming == old(incoming)[1..]
    {
      if incoming == [] { return None; }
      r := Some(incoming[0]);
      incoming := incoming[1..];
    }

    /** Sends a request and takes frames up to the first response with its id; the others are queued in
        order, and nothing is lost. A request that does not encode or cannot be written uses up its id and
        leaves the stream alone. */
    method Request(encodes: bool, writes: bool) returns (r: Result)
      requires Valid()
      modifies this
      ensures Valid() && nextId == NextId(old(nextId))
      ensures r.NotEncoded? <==> !encodes
      ensures r.NotWritten? <==> encodes && !writes
      ensures !encodes || !writes ==> sent == old(sent) && pending == old(pending) && incoming == old(incoming)
      ensures encodes && writes ==>
                && sent == old(sent) + [old(nextId)]
                && exists skipped :: NoMatch(skipped, old(nextId)) && pending == old(pending) + skipped
                     && if r.Disconnected? then old(incoming) == skipped && incoming == []
                        else exists f :: Matches(f, old(nextId)) && r == Outcome(f)
                                         && old(incoming) == skipped + [f] + incoming
    {
      var id := nextId;
      nextId := if nextId < 0xFFFF_FFFF then nextId + 1 else 1;
      if !encodes { return NotEncoded; }
      if !writes { return NotWritten; }
      sent := sent + [id];
      ghost var all := incoming;
      ghost var skipped: seq<Frame> := [];
      while true
        invariant nextId == NextId(id) && sent == old(sent) + [id]
        invariant NoMatch(skipped, id) && pending == old(pending) + skipped
        invariant all == skipped + incoming
        decreases |incoming|
      {
        ghost var rest := incoming;
        var f := ReadSocketFrame();
        if f.None? { return Disconnected; }
        assert rest == [f.value] + incoming;
        if f.value.Response? && f.value.id == id {
          assert all == skipped + [f.value] + incoming;
          if f.value.ok { return Ok(f.value); }
          if f.value.error.None? { return NoErrorBody; }
          return ServerError(f.value.error.value);
        }
        pending := pending + [f.value];
        skipped := skipped + [f.value];
      }
    }
  }
}

/** Client and daemon together, in any interleaving. Requests and events are numbered in the order in which
    they are sent; the number of a response is that of the request it answers. */
module Multiplex {
  import opened Bytes
  import opened Connection

  datatype Message = Reply(id: nat, request: nat) | Notice(number: nat)

  datatype State = State(
    nextId: nat, asked: nat, asking: bool, id: nat,   // requests sent; whether the client awaits one, and its id
    unanswered: seq<Message>,                         // the replies the daemon owes, in request order
    notices: nat,                                     // events sent
    wire: seq<Message>, pending: seq<Message>,
    returned: seq<Message>,                           // by read_raw_frame
    answers: seq<Message>)                            // by request

  const INITIAL := State(1, 0, false, 0, [], 0, [], [], [], [])

  datatype Step =
    | Ask        // request: a fresh id, the request is written
    | Answer     // the daemon enqueues its response to the oldest request
    | Notify     // the forwarder enqueues an event
    | Take       // request: one frame, the response or one to queue
    | ReadRaw    // read_raw_frame, between requests

  predicate Enabled(s: State, step: Step)
  {
    match step
    case Ask => !s.asking && 1 <= s.nextId <= MAX_ID
    case Answer => s.unanswered != []
    case Notify => true
    case Take => s.asking && s.wire != []
    case ReadRaw => !s.asking && (s.pending != [] || s.wire != [])
  }

  function Do(s: State, step: Step): (s': State)
    requires Enabled(s, step)
  {
    match step
    case Ask =>
      s.(nextId := NextId(s.nextId), asked := s.asked + 1, asking := true, id := s.nextId,
         unanswered := s.unanswered + [Reply(s.nextId, s.asked)])
    case Answer => s.(wire := s.wire + [s.unanswered[0]], unanswered := s.unanswered[1..])
    case Notify => s.(wire := s.wire + [Notice(s.notices)], notices := s.notices + 1)
    case Take =>
      var m := s.wire[0];
      if m.Reply? && m.id == s.id then s.(wire := s.wire[1..], asking := false, answers := s.answers + [m])
      else s.(wire := s.wire[1..], pending := s.pending + [m])
    case ReadRaw =>
      if s.pending != [] then s.(pending := s.pending[1..], returned := s.returned + [s.pending[0]])
      else s.(wire := s.wire[1..], returned := s.returned + [s.wire[0]])
  }

  /** A run: each step enabled where it is taken. */
  predicate Legal(s: State, steps: seq<Step>)
    decreases |steps|
  {
    steps == [] || (Enabled(s, steps[0]) && Legal(Do(s, steps[0]), steps[1..]))
  }

  function After(s: State, steps: seq<Step>): (s': State)
    requires Legal(s, steps)
    decreases |steps|
  {
    if steps == [] then s else After(Do(s, steps[0]), steps[1..])
  }

  // ----- the two kinds of messages on the wire

  function Only(reply: bool, m: Message): (r: seq<Message>) { if m.Reply? == reply then [m] else [] }

  function Filter(reply: bool, ms: seq<Message>): (r: seq<Message>)
  {
    if ms == [] then [] else Only(reply, ms[0]) + Filter(reply, ms[1..])
  }

  lemma {:induction false} FilterSnoc(reply: bool, ms: seq<Message>, m: Message)
    ensures Filter(reply, ms + [m]) == Filter(reply, ms) + Only(reply, m)
  {
    if ms == [] {
      assert ms + [m] == [m] && [m][1..] == [];
      assert Filter(reply, [m]) == Only(reply, m) + Filter(reply, []);
    } else {
      var tail := ms[1..];
      assert (ms + [m])[0] == ms[0] && (ms + [m])[1..] == tail + [m];
      FilterSnoc(reply, tail, m);
      Assoc(Only(reply, ms[0]), Filter(reply, tail), Only(reply, m));
    }
  }

  /** The first n events. */
  function Notices(n: nat): (r: seq<Message>)
    ensures |r| == n && forall i :: 0 <= i < n ==> r[i] == Notice(i)
  {
    seq(n, i requires 0 <= i < n => Notice(i))
  }

  lemma {:induction false} NoticesSnoc(n: nat)
    ensures Notices(n + 1) == Notices(n) + [Notice(n)]
  {
  }

  // ----- the invariant

  /** The id of the k-th request. */
  function IdOf(k: nat): (id: nat)
    ensures 1 <= id <= MAX_ID
  {
    1 + k % 0xFFFF_FFFF
  }

  lemma {:induction false} IdAdvances(k: nat)
    ensures NextId(IdOf(k)) == IdOf(k + 1)
  {
  }

  /** Two requests have the same id only if at least 2^32 - 1 requests apart. */
  lemma {:induction false} IdsDistinct(i: nat, j: nat)
    requires i < j < i + 0xFFFF_FFFF
    ensures IdOf(i) != IdOf(j)
  {
  }

  /** Every event sent is returned, queued or on the wire, in this order; the reply to the request under way,
      and no other, is on the wire or owed. */
  predicate Inv(s: State)
  {
    && s.returned + s.pending + Filter(false, s.wire) == Notices(s.notices)
    && s.asked == |s.answers| + (if s.asking then 1 else 0)
    && s.nextId == IdOf(s.asked) && (s.asking ==> s.id == IdOf(s.asked - 1))
    && Filter(true, s.wire) + s.unanswered == (if s.asking then [Reply(s.id, s.asked - 1)] else [])
    && InOrder(s.answers)
  }

  /** The replies to the first requests, in order, each under its id. */
  predicate InOrder(answers: seq<Message>) { forall i :: 0 <= i < |answers| ==> answers[i] == Reply(IdOf(i), i) }

  /** A message moved from the front of one sequence to the end of the one before it. */
  lemma {:induction false} Shift(a: seq<Message>, b: seq<Message>, m: Message, rest: seq<Message>)
    ensures a + (b + [m]) + rest == a + b + ([m] + rest)
  {
  }

  /** What comes of a join of two sequences that holds one message. */
  lemma {:induction false} Single(a: seq<Message>, b: seq<Message>, m: Message)
    requires a + b == [m]
    ensures (a == [m] && b == []) || (a == [] && b == [m])
  {
    assert |a| + |b| == 1;
    if a != [] { assert (a + b)[0] == a[0]; }
  }

  lemma {:induction false} AnswerStep(s: State)
    requires Inv(s) && Enabled(s, Answer)
    ensures Inv(Do(s, Answer))
  {
    var (onWire, owed) := (Filter(true, s.wire), s.unanswered);
    assert |onWire + owed| > 0;
    Single(onWire, owed, Reply(s.id, s.asked - 1));
    assert onWire == [] && owed[1..] == [];
    FilterSnoc(true, s.wire, owed[0]);
    FilterSnoc(false, s.wire, owed[0]);
  }

  lemma {:induction false} NotifyStep(s: State)
    requires Inv(s)
    ensures Inv(Do(s, Notify))
  {
    var m := Notice(s.notices);
    FilterSnoc(true, s.wire, m);
    FilterSnoc(false, s.wire, m);
    Assoc(s.returned + s.pending, Filter(false, s.wire), [m]);
    NoticesSnoc(s.notices);
  }

  /** Taking a message off the wire. */
  lemma {:induction false} Pop(wire: seq<Message>)
    requires wire != []
    ensures wire[0].Reply? ==> Filter(true, wire) == [wire[0]] + Filter(true, wire[1..])
                               && Filter(false, wire) == Filter(false, wire[1..])
    ensures wire[0].Notice? ==> Filter(false, wire) == [wire[0]] + Filter(false, wire[1..])
                                && Filter(true, wire) == Filter(true, wire[1..])
  {
  }

  lemma {:induction false} TakeReply(s: State)
    requires Inv(s) && Enabled(s, Take) && s.wire[0].Reply?
    ensures s.wire[0] == Reply(s.id, s.asked - 1) && Filter(true, s.wire[1..]) == [] && s.unanswered == []
  {
    Pop(s.wire);
    Single(Filter(true, s.wire), s.unanswered, Reply(s.id, s.asked - 1));
    Single([s.wire[0]], Filter(true, s.wire[1..]), Reply(s.id, s.asked - 1));
  }

  lemma {:induction false} TakeStep(s: State)
    requires Inv(s) && Enabled(s, Take)
    ensures Inv(Do(s, Take))
  {
    if s.wire[0].Reply? { TakeReplyStep(s); } else { TakeNoticeStep(s); }
  }

  lemma {:induction false} TakeReplyStep(s: State)
    requires Inv(s) && Enabled(s, Take) && s.wire[0].Reply?
    ensures Inv(Do(s, Take))
  {
    Pop(s.wire);
    TakeReply(s);
    OneMore(s.answers, s.wire[0]);
  }

  lemma {:induction false} OneMore(answers: seq<Message>, m: Message)
    requires InOrder(answers) && m == Reply(IdOf(|answers|), |answers|)
    ensures InOrder(answers + [m])
  {
  }

  lemma {:induction false} TakeNoticeStep(s: State)
    requires Inv(s) && Enabled(s, Take) && s.wire[0].Notice?
    ensures Inv(Do(s, Take))
  {
    Pop(s.wire);
    Shift(s.returned, s.pending, s.wire[0], Filter(false, s.wire[1..]));
  }

  lemma {:induction false} ReadRawStep(s: State)
    requires Inv(s) && Enabled(s, ReadRaw)
    ensures Inv(Do(s, ReadRaw))
  {
    if s.pending != [] {
      Shift([], s.returned, s.pending[0], s.pending[1..]);
      assert s.pending == [s.pending[0]] + s.pending[1..];
      assert [] + s.returned == s.returned && [] + (s.returned + [s.pending[0]]) == s.returned + [s.pending[0]];
    } else {
      var (m, rest) := (s.wire[0], s.wire[1..]);
      assert |Filter(true, s.wire)| == 0;
      Shift([], s.returned, m, Filter(false, rest));
      assert [] + s.returned == s.returned && [] + (s.returned + [m]) == s.returned + [m];
      assert s.returned + [] == s.returned && (s.returned + [m]) + [] == s.returned + [m];
    }
  }

  lemma {:induction false} AskStep(s: State)
    requires Inv(s) && Enabled(s, Ask)
    ensures Inv(Do(s, Ask))
  {
    assert Filter(true, s.wire) == [] && s.unanswered == [];
    IdAdvances(s.asked);
  }

  lemma {:induction false} Always(s: State, steps: seq<Step>)
    requires Inv(s) && Legal(s, steps)
    ensures Inv(After(s, steps))
    decreases |steps|
  {
    if steps == [] {
    } else {
      match steps[0] {
        case Ask => AskStep(s);
        case Answer => AnswerStep(s);
        case Notify => NotifyStep(s);
        case Take => TakeStep(s);
        case ReadRaw => ReadRawStep(s);
      }
      Always(Do(s, steps[0]), steps[1..]);
    }
  }

  // ----- what the client gets

  /** In whatever state, only a response with the id of the request under way ends it; any other frame is
      queued, behind those queued before. */
  lemma {:induction false} OnlyItsIdEnds(s: State)
    requires Enabled(s, Take)
    ensures var (m, s') := (s.wire[0], Do(s, Take));
            && (s'.asking <==> m.Notice? || m.id != s.id)
            && s'.answers + s'.pending[|s.pending|..] == s.answers + [m] && s.pending <= s'.pending
            && (s'.pending == s.pending <==> !s'.asking)
  {
    assert s.pending[|s.pending|..] == [] && (s.pending + [s.wire[0]])[|s.pending|..] == [s.wire[0]];
  }

  /** The frames returned, then those queued, then the events on the wire are all the events sent, each once
      and in order: no response ever strays among them, and no event is lost to a request. */
  lemma {:induction false} EventsInOrder(steps: seq<Step>)
    requires Legal(INITIAL, steps)
    ensures var s := After(INITIAL, steps);
            && s.returned + s.pending + Filter(false, s.wire) == Notices(s.notices)
            && s.returned + s.pending == Notices(|s.returned| + |s.pending|)
  {
    Always(INITIAL, steps);
    GotInOrder(After(INITIAL, steps));
  }

  lemma {:induction false} GotInOrder(s: State)
    requires Inv(s)
    ensures s.returned + s.pending == Notices(|s.returned| + |s.pending|)
  {
    FirstNotices(s.returned + s.pending, Filter(false, s.wire), s.notices);
  }

  lemma {:induction false} FirstNotices(got: seq<Message>, rest: seq<Message>, n: nat)
    requires got + rest == Notices(n)
    ensures got == Notices(|got|)
  {
    assert got == (got + rest)[..|got|];
  }

  /** Every request is answered by the response to it, in order, even after ids come round again at 2^32 - 1;
      and while the client awaits one, that response alone is on the wire or owed. */
  lemma {:induction false} OwnReply(steps: seq<Step>)
    requires Legal(INITIAL, steps)
    ensures var s := After(INITIAL, steps);
            && (forall i :: 0 <= i < |s.answers| ==> s.answers[i] == Reply(IdOf(i), i))
            && s.asked == |s.answers| + (if s.asking then 1 else 0)
            && (s.asking ==> Filter(true, s.wire) + s.unanswered == [Reply(IdOf(s.asked - 1), s.asked - 1)])
  {
    Always(INITIAL, steps);
  }
}
