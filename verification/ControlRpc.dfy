/** The daemon's control calls to one session: a mutex serialises the calls, a connection is cached in the
    guarded slot, and a call on a cached connection that fails is retried once on a fresh one. Every request
    carries the same wire id, so only the protocol ties a response to its call
    (crates/waymux-daemon/src/registry.rs, `session_control`; crates/waymux-session/src/control.rs, `handle`). */
module ControlRpc {
  import opened Bytes

  /** Calls are numbered in the order in which they take the lock. */
  type Call = nat

  /** A connection: requests written and not yet read by the session, responses written and not yet read by
      the daemon, each labelled with its call, and whether the session's handler still runs. */
  datatype Conn = Conn(requests: seq<Call>, responses: seq<Call>, open: bool)

  /** Where the holder of the lock stands; `reused` marks the attempt on a cached connection. */
  datatype Phase =
    | Sending(conn: nat, reused: bool)
    | Awaiting(conn: nat, reused: bool)
    | Connecting

  datatype Holder = Free | Held(call: Call, phase: Phase)

  /** A finished call: the response it returned, labelled with the call it answers, or an error. */
  datatype Outcome = Got(answers: Call) | Failed

  datatype State = State(
    conns: seq<Conn>, slot: Option<nat>, holder: Holder,
    outcomes: seq<Outcome>,       // of the finished calls, in order
    sent: multiset<Call>,         // requests written in full
    executed: multiset<Call>,     // requests the session has executed
    retried: set<Call>)           // calls whose cached connection failed after their request was written

  const INITIAL := State([], None, Free, [], multiset{}, multiset{}, {})

  datatype Step =
    | Acquire                 // take the lock, look at the slot
    | WriteOk
    | WriteFail               // the connection is dead: clear the slot
    | ReadOk                  // read and decode a response
    | ReadGarbled             // a response that does not decode: an error, the slot is kept
    | ReadFail                // the connection died: clear the slot
    | ConnectOk
    | ConnectFail
    | Serve(conn: nat)        // the session's handler executes a request and writes its response
    | ServeAndDie(conn: nat)  // it executes a request and dies before the response is written
    | Die(conn: nat)          // it dies; requests not yet read are lost

  predicate Enabled(s: State, step: Step)
  {
    match step
    case Acquire => s.holder.Free?
    case WriteOk => s.holder.Held? && s.holder.phase.Sending? && Open(s, s.holder.phase.conn)
    case WriteFail => s.holder.Held? && s.holder.phase.Sending?
    case ReadOk => Readable(s)
    case ReadGarbled => Readable(s)
    case ReadFail => s.holder.Held? && s.holder.phase.Awaiting?
    case ConnectOk => s.holder.Held? && s.holder.phase.Connecting?
    case ConnectFail => s.holder.Held? && s.holder.phase.Connecting?
    case Serve(c) => Open(s, c) && s.conns[c].requests != []
    case ServeAndDie(c) => Open(s, c) && s.conns[c].requests != []
    case Die(c) => Open(s, c)
  }

  predicate Open(s: State, c: nat) { c < |s.conns| && s.conns[c].open }

  predicate Readable(s: State)
  {
    && s.holder.Held? && s.holder.phase.Awaiting?
    && s.holder.phase.conn < |s.conns| && s.conns[s.holder.phase.conn].responses != []
  }

  function Do(s: State, step: Step): (s': State)
    requires Enabled(s, step)
  {
    match step
    case Acquire =>
      s.(holder := Held(|s.outcomes|, if s.slot.Some? then Sending(s.slot.value, true) else Connecting))
    case WriteOk =>
      var Held(call, Sending(c, reused)) := s.holder;
      s.(conns := s.conns[c := s.conns[c].(requests := s.conns[c].requests + [call])],
         holder := Held(call, Awaiting(c, reused)), sent := s.sent + multiset{call})
    case WriteFail => Lose(s, s.holder.phase.reused)
    case ReadOk =>
      var c := s.holder.phase.conn;
      Finish(Pop(s, c), Got(s.conns[c].responses[0]))
    case ReadGarbled => Finish(Pop(s, s.holder.phase.conn), Failed)
    case ReadFail =>
      Lose(if s.holder.phase.reused then s.(retried := s.retried + {s.holder.call}) else s, s.holder.phase.reused)
    case ConnectOk =>
      s.(conns := s.conns + [Conn([], [], true)], slot := Some(|s.conns|),
         holder := s.holder.(phase := Sending(|s.conns|, false)))
    case ConnectFail => Finish(s, Failed)
    case Serve(c) =>
      var Conn(requests, responses, open) := s.conns[c];
      s.(conns := s.conns[c := Conn(requests[1..], responses + [requests[0]], open)],
         executed := s.executed + multiset{requests[0]})
    case ServeAndDie(c) =>
      s.(conns := s.conns[c := Conn([], s.conns[c].responses, false)],
         executed := s.executed + multiset{s.conns[c].requests[0]})
    case Die(c) => s.(conns := s.conns[c := Conn([], s.conns[c].responses, false)])
  }

  /** The call returns and the lock is released. */
  function Finish(s: State, outcome: Outcome): (s': State)
  {
    s.(holder := Free, outcomes := s.outcomes + [outcome])
  }

  /** The attempt failed: the slot is cleared, and a call on a cached connection goes on to reconnect. */
  function Lose(s: State, reused: bool): (s': State)
    requires s.holder.Held?
  {
    if reused then s.(slot := None, holder := s.holder.(phase := Connecting))
    else Finish(s.(slot := None), Failed)
  }

  function Pop(s: State, c: nat): (s': State)
    requires c < |s.conns| && s.conns[c].responses != []
  {
    s.(conns := s.conns[c := s.conns[c].(responses := s.conns[c].responses[1..])])
  }

  /** A run: each step enabled where it is taken, in any interleaving. */
  predicate Legal(s: State, steps: seq<Step>)
    decreases |steps|
  {
    steps == [] || (Enabled(s, steps[0]) && Legal(Do(s, steps[0]), steps[1..]))
  }

  function After(s: State, steps: seq<Step>): (s': State)
    requires Legal(s, steps)
    decreases |steps|
  {
    if steps == [] then s else After(Do(s, steps[0]), steps[1..])
  }

  // ----- the invariant

  /** Nothing in flight on a connection. */
  predicate Quiet(conn: Conn) { conn.requests == [] && conn.responses == [] }

  /** Only the request or the response of one call in flight, or neither if the handler died. */
  predicate Only(conn: Conn, call: Call)
  {
    || (conn.requests == [call] && conn.responses == [])
    || (conn.requests == [] && conn.responses == [call])
    || (Quiet(conn) && !conn.open)
  }

  predicate SlotInv(s: State)
  {
    && (s.slot.Some? ==> s.slot.value < |s.conns|)
    && match s.holder
       case Free => s.slot.Some? ==> Quiet(s.conns[s.slot.value])
       case Held(_, Sending(c, _)) => s.slot == Some(c) && Quiet(s.conns[c])
       case Held(call, Awaiting(c, _)) => s.slot == Some(c) && Only(s.conns[c], call)
       case Held(_, Connecting) => s.slot.None?
  }

  predicate Executed(calls: seq<Call>, executed: multiset<Call>)
  {
    forall i :: 0 <= i < |calls| ==> calls[i] in executed
  }

  /** Every response on the wire, and every answer returned, belongs to an executed call. */
  predicate AnswerInv(s: State)
  {
    && (forall c :: 0 <= c < |s.conns| ==> Executed(s.conns[c].responses, s.executed))
    && (forall k :: 0 <= k < |s.outcomes| && s.outcomes[k].Got? ==> s.outcomes[k].answers == k && k in s.executed)
    && (s.holder.Held? ==> s.holder.call == |s.outcomes|)
  }

  /** The requests in flight on all connections. */
  function Pending(conns: seq<Conn>): (m: multiset<Call>)
  {
    if conns == [] then multiset{} else Pending(conns[..|conns| - 1]) + multiset(conns[|conns| - 1].requests)
  }

  lemma {:induction false} PendingUpdate(conns: seq<Conn>, c: nat, conn: Conn, k: Call)
    requires c < |conns|
    ensures Pending(conns[c := conn])[k] + multiset(conns[c].requests)[k]
          == Pending(conns)[k] + multiset(conn.requests)[k]
  {
    var n := |conns| - 1;
    if c == n {
      assert conns[c := conn][..n] == conns[..n];
    } else {
      assert conns[c := conn][..n] == conns[..n][c := conn];
      PendingUpdate(conns[..n], c, conn, k);
    }
  }

  lemma {:induction false} PendingSnoc(conns: seq<Conn>, conn: Conn)
    ensures Pending(conns + [conn]) == Pending(conns) + multiset(conn.requests)
  {
    assert (conns + [conn])[..|conns|] == conns;
  }

  /** How often the request of call k may have been written so far. */
  function Allowed(s: State, k: Call): (n: nat)
  {
    if s.holder.Held? && k == s.holder.call then
      match s.holder.phase
      case Sending(_, reused) => if reused || k !in s.retried then 0 else 1
      case Awaiting(_, reused) => if reused || k !in s.retried then 1 else 2
      case Connecting => if k in s.retried then 1 else 0
    else if k >= |s.outcomes| then 0
    else if k in s.retried then 2 else 1
  }

  /** A call executed or in flight so often has been written at least so often. */
  predicate Conserved(s: State, k: Call) { s.executed[k] + Pending(s.conns)[k] <= s.sent[k] }

  ghost predicate CountInv(s: State)
  {
    && (forall k :: Conserved(s, k))
    && (forall k :: s.sent[k] <= Allowed(s, k))
    && (s.holder.Held? && !s.holder.phase.Connecting? && s.holder.phase.reused ==> s.holder.call !in s.retried)
    && (forall k :: k in s.retried ==> k < |s.outcomes| || (s.holder.Held? && k == s.holder.call))
  }

  ghost predicate Inv(s: State) { SlotInv(s) && AnswerInv(s) && CountInv(s) }

  lemma {:induction false} SlotStep(s: State, step: Step)
    requires SlotInv(s) && Enabled(s, step)
    ensures SlotInv(Do(s, step))
  {
  }

  predicate OfSession(step: Step) { step.Serve? || step.ServeAndDie? || step.Die? }

  lemma {:induction false} SessionAnswers(s: State, step: Step)
    requires AnswerInv(s) && Enabled(s, step) && OfSession(step)
    ensures AnswerInv(Do(s, step))
  {
    var s' := Do(s, step);
    forall c | 0 <= c < |s'.conns| ensures Executed(s'.conns[c].responses, s'.executed) {
      assert Executed(s.conns[c].responses, s.executed);
    }
  }

  lemma {:induction false} AnswerStep(s: State, step: Step)
    requires SlotInv(s) && AnswerInv(s) && Enabled(s, step)
    ensures AnswerInv(Do(s, step))
  {
    if OfSession(step) {
      SessionAnswers(s, step);
    } else {
      var s' := Do(s, step);
      forall c | 0 <= c < |s'.conns| ensures Executed(s'.conns[c].responses, s'.executed) {
        if c < |s.conns| { assert Executed(s.conns[c].responses, s.executed); }
      }
    }
  }

  lemma {:induction false} Head(requests: seq<Call>, k: Call)
    requires requests != []
    ensures multiset(requests)[k] == multiset(requests[1..])[k] + if k == requests[0] then 1 else 0
  {
    assert requests == [requests[0]] + requests[1..];
  }

  lemma {:induction false} SessionConserves(s: State, step: Step, k: Call)
    requires Enabled(s, step) && OfSession(step) && Conserved(s, k)
    ensures Conserved(Do(s, step), k)
  {
    var c := step.conn;
    PendingUpdate(s.conns, c, Do(s, step).conns[c], k);
    if !step.Die? { Head(s.conns[c].requests, k); }
  }

  /** No step makes a request out of nothing. */
  lemma {:induction false} ConserveStep(s: State, step: Step, k: Call)
    requires SlotInv(s) && Enabled(s, step) && Conserved(s, k)
    ensures Conserved(Do(s, step), k)
  {
    if OfSession(step) {
      SessionConserves(s, step, k);
    } else if step.WriteOk? || step.ReadOk? || step.ReadGarbled? {
      var c := s.holder.phase.conn;
      PendingUpdate(s.conns, c, Do(s, step).conns[c], k);
    } else if step.ConnectOk? {
      PendingSnoc(s.conns, Conn([], [], true));
    }
  }

  lemma {:induction false} AllowedStep(s: State, step: Step, k: Call)
    requires SlotInv(s) && AnswerInv(s) && Enabled(s, step) && s.sent[k] <= Allowed(s, k)
    requires s.holder.Held? && !s.holder.phase.Connecting? && s.holder.phase.reused ==> s.holder.call !in s.retried
    ensures Do(s, step).sent[k] <= Allowed(Do(s, step), k)
  {
  }

  lemma {:induction false} CountStep(s: State, step: Step)
    requires Inv(s) && Enabled(s, step)
    ensures CountInv(Do(s, step))
  {
    var s' := Do(s, step);
    forall k ensures Conserved(s', k) {
      assert Conserved(s, k);
      ConserveStep(s, step, k);
    }
    forall k ensures s'.sent[k] <= Allowed(s', k) {
      assert s.sent[k] <= Allowed(s, k);
      AllowedStep(s, step, k);
    }
  }

  lemma {:induction false} Always(s: State, steps: seq<Step>)
    requires Inv(s) && Legal(s, steps)
    ensures Inv(After(s, steps))
    decreases |steps|
  {
    if steps == [] {
    } else {
      SlotStep(s, steps[0]);
      AnswerStep(s, steps[0]);
      CountStep(s, steps[0]);
      Always(Do(s, steps[0]), steps[1..]);
    }
  }

  // ----- what callers get

  /** A call that returns a response returns its own, although all carry the same id, and the session has
      executed it. */
  lemma {:induction false} OwnAnswer(steps: seq<Step>, k: Call)
    requires Legal(INITIAL, steps) && k < |After(INITIAL, steps).outcomes|
    ensures var s := After(INITIAL, steps); s.outcomes[k].Got? ==> s.outcomes[k].answers == k && s.executed[k] >= 1
  {
    Always(INITIAL, steps);
  }

  /** Between calls the cached connection, if any, carries nothing of an earlier call. */
  lemma {:induction false} NothingLeftOver(steps: seq<Step>)
    requires Legal(INITIAL, steps)
    ensures var s := After(INITIAL, steps);
            s.holder.Free? && s.slot.Some? ==> s.slot.value < |s.conns| && Quiet(s.conns[s.slot.value])
  {
    Always(INITIAL, steps);
  }

  /** The session executes a call at most once, or at most twice if its cached connection failed after the
      request was written. */
  lemma {:induction false} ExecutionBound(steps: seq<Step>, k: Call)
    requires Legal(INITIAL, steps)
    ensures var s := After(INITIAL, steps); s.executed[k] <= s.sent[k] <= if k in s.retried then 2 else 1
  {
    Always(INITIAL, steps);
    var s := After(INITIAL, steps);
    assert s.sent[k] <= Allowed(s, k);
    assert Conserved(s, k);
  }

  /** A call that got its response without that happening was executed exactly once. */
  lemma {:induction false} ExactlyOnce(steps: seq<Step>, k: Call)
    requires Legal(INITIAL, steps) && k < |After(INITIAL, steps).outcomes|
    ensures var s := After(INITIAL, steps);
            s.outcomes[k].Got? && k !in s.retried ==> s.executed[k] == 1 && s.sent[k] == 1
  {
    OwnAnswer(steps, k);
    ExecutionBound(steps, k);
  }

  lemma {:induction false} Then(s: State, step: Step, rest: seq<Step>)
    requires Enabled(s, step) && Legal(Do(s, step), rest)
    ensures Legal(s, [step] + rest) && After(s, [step] + rest) == After(Do(s, step), rest)
  {
    assert ([step] + rest)[1..] == rest;
  }

  /** The state after a call on a fresh connection that goes well. */
  function Answered(s: State): (s': State)
  {
    var k := |s.outcomes|;
    State(s.conns + [Conn([], [], true)], Some(|s.conns|), Free, s.outcomes + [Got(k)],
          s.sent + multiset{k}, s.executed + multiset{k}, s.retried)
  }

  /** A call that has no connection can still connect and be answered. */
  lemma {:induction false} Reconnects(s: State)
    requires s.holder.Held? && s.holder.phase.Connecting? && s.holder.call == |s.outcomes|
    ensures var steps := [ConnectOk, WriteOk, Serve(|s.conns|), ReadOk];
            Legal(s, steps) && After(s, steps) == Answered(s)
  {
    var (n, k) := (|s.conns|, |s.outcomes|);
    var s1 := Do(s, ConnectOk);
    var s2 := Do(s1, WriteOk);
    var s3 := Do(s2, Serve(n));
    var s4 := Do(s3, ReadOk);
    assert s2.conns[n].requests == [k];
    assert s3.conns[n].requests == [] && s3.conns[n].responses == [k];
    assert s4.conns[n].responses == [] && s4.conns == s.conns + [Conn([], [], true)];
    Then(s3, ReadOk, []);
    Then(s2, Serve(n), [ReadOk]);
    Then(s1, WriteOk, [Serve(n), ReadOk]);
    Then(s, ConnectOk, [WriteOk, Serve(n), ReadOk]);
  }

  /** No failure wedges the session: whatever became of the cached connection, the next call can be answered. */
  lemma {:induction false} NeverWedged(steps: seq<Step>)
    requires Legal(INITIAL, steps) && After(INITIAL, steps).holder.Free?
    ensures var s := After(INITIAL, steps);
            exists more :: Legal(s, more) && After(s, more).outcomes == s.outcomes + [Got(|s.outcomes|)]
  {
    var s := After(INITIAL, steps);
    var s1 := Do(s, Acquire);
    if s.slot.None? {
      Reconnects(s1);
      Then(s, Acquire, [ConnectOk, WriteOk, Serve(|s.conns|), ReadOk]);
    } else {
      var s2 := Do(s1, WriteFail);
      Reconnects(s2);
      Then(s1, WriteFail, [ConnectOk, WriteOk, Serve(|s.conns|), ReadOk]);
      Then(s, Acquire, [WriteFail] + [ConnectOk, WriteOk, Serve(|s.conns|), ReadOk]);
    }
  }

  /** After one call that went well: the connection is cached and quiet. */
  const WARM := State([Conn([], [], true)], Some(0), Free, [Got(0)], multiset{0}, multiset{0}, {})

  lemma {:induction false} WarmReachable()
    ensures var steps := [Acquire, ConnectOk, WriteOk, Serve(0), ReadOk];
            Legal(INITIAL, steps) && After(INITIAL, steps) == WARM
  {
    Reconnects(Do(INITIAL, Acquire));
    Then(INITIAL, Acquire, [ConnectOk, WriteOk, Serve(0), ReadOk]);
  }

  /** The retry can execute a call twice: its response is lost after the session ran it. */
  lemma {:induction false} ExecutedTwice()
    ensures var steps := [Acquire, WriteOk, Serve(0), ReadFail, ConnectOk, WriteOk, Serve(1), ReadOk];
            && Legal(WARM, steps)
            && After(WARM, steps).outcomes == [Got(0), Got(1)] && After(WARM, steps).executed[1] == 2
  {
    Reconnects(LOST);
    LoseThen([ConnectOk, WriteOk, Serve(1), ReadOk]);
    assert [Acquire, WriteOk, Serve(0), ReadFail] + [ConnectOk, WriteOk, Serve(1), ReadOk]
        == [Acquire, WriteOk, Serve(0), ReadFail, ConnectOk, WriteOk, Serve(1), ReadOk];
  }

  /** The second call was executed and its response lost. */
  const LOST := State([Conn([], [1], true)], None, Held(1, Connecting), [Got(0)], multiset{0, 1}, multiset{0, 1}, {1})

  lemma {:induction false} LosesResponse()
    ensures && Enabled(WARM, Acquire) && Enabled(Do(WARM, Acquire), WriteOk)
            && Enabled(Do(Do(WARM, Acquire), WriteOk), Serve(0))
            && Enabled(Do(Do(Do(WARM, Acquire), WriteOk), Serve(0)), ReadFail)
            && Do(Do(Do(Do(WARM, Acquire), WriteOk), Serve(0)), ReadFail) == LOST
  {
    var s2 := Do(Do(WARM, Acquire), WriteOk);
    assert s2.conns[0].requests == [1];
    assert Do(s2, Serve(0)).conns[0] == Conn([], [1], true);
  }

  lemma {:induction false} LoseThen(rest: seq<Step>)
    requires Legal(LOST, rest)
    ensures var first := [Acquire, WriteOk, Serve(0), ReadFail];
            Legal(WARM, first + rest) && After(WARM, first + rest) == After(LOST, rest)
  {
    LosesResponse();
    var s1 := Do(WARM, Acquire);
    var s2 := Do(s1, WriteOk);
    Then(Do(s2, Serve(0)), ReadFail, rest);
    Then(s2, Serve(0), [ReadFail] + rest);
    Then(s1, WriteOk, [Serve(0)] + ([ReadFail] + rest));
    Then(WARM, Acquire, [WriteOk] + ([Serve(0)] + ([ReadFail] + rest)));
    assert [Acquire, WriteOk, Serve(0), ReadFail] + rest
        == [Acquire] + ([WriteOk] + ([Serve(0)] + ([ReadFail] + rest)));
  }
}
