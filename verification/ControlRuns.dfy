/** What can still come of a control call: how often the session may yet execute it, exactly, and when the call
    is answered (crates/waymux-daemon/src/registry.rs, `session_control`). */
module ControlRuns {
  import opened Bytes
  import opened ControlRpc

  // ----- connections

  /** One request at most is in flight on a connection, and none once its handler died. */
  predicate Tidy(conn: Conn) { |conn.requests| <= 1 && (conn.requests != [] ==> conn.open) }

  predicate AllTidy(s: State) { forall c :: 0 <= c < |s.conns| ==> Tidy(s.conns[c]) }

  /** On its first attempt a call's request is on the cached connection, if anywhere. */
  predicate AtHome(s: State)
  {
    s.holder.Held? && s.holder.phase.Awaiting? && s.holder.phase.reused && s.holder.phase.conn < |s.conns|
    ==> Pending(s.conns)[s.holder.call] == multiset(s.conns[s.holder.phase.conn].requests)[s.holder.call]
  }

  ghost predicate Good(s: State) { Inv(s) && AllTidy(s) && AtHome(s) }

  lemma {:induction false} PendingAtLeast(conns: seq<Conn>, c: nat, k: Call)
    requires c < |conns|
    ensures multiset(conns[c].requests)[k] <= Pending(conns)[k]
  {
    PendingUpdate(conns, c, Conn([], [], false), k);
  }

  lemma {:induction false} PendingOfTwo(conns: seq<Conn>, c: nat, d: nat, k: Call)
    requires c < |conns| && d < |conns| && c != d
    ensures multiset(conns[c].requests)[k] + multiset(conns[d].requests)[k] <= Pending(conns)[k]
  {
    var without := conns[c := Conn([], [], false)];
    PendingUpdate(conns, c, Conn([], [], false), k);
    PendingAtLeast(without, d, k);
  }

  lemma {:induction false} SessionAtHome(s: State, step: Step)
    requires SlotInv(s) && AtHome(s) && Enabled(s, step) && OfSession(step)
    requires s.holder.Held? && s.holder.phase.Awaiting? && s.holder.phase.reused
    ensures AtHome(Do(s, step))
  {
    var (c, d, k) := (s.holder.phase.conn, step.conn, s.holder.call);
    var conn := Do(s, step).conns[d];
    PendingUpdate(s.conns, d, conn, k);
    if c != d {
      PendingOfTwo(s.conns, c, d, k);
      if !step.Die? { Head(s.conns[d].requests, k); }
    }
  }

  lemma {:induction false} HomeStep(s: State, step: Step)
    requires Inv(s) && AtHome(s) && Enabled(s, step)
    ensures AtHome(Do(s, step))
  {
    if s.holder.Held? && s.holder.phase.Awaiting? && OfSession(step) {
      if s.holder.phase.reused { SessionAtHome(s, step); }
    } else if step.WriteOk? && s.holder.phase.reused {
      var (c, k) := (s.holder.phase.conn, s.holder.call);
      assert Conserved(s, k) && s.sent[k] <= Allowed(s, k);
      PendingUpdate(s.conns, c, Do(s, step).conns[c], k);
    }
  }

  lemma {:induction false} TidyStep(s: State, step: Step)
    requires SlotInv(s) && AllTidy(s) && Enabled(s, step)
    ensures AllTidy(Do(s, step))
  {
    var s' := Do(s, step);
    forall c | 0 <= c < |s'.conns| ensures Tidy(s'.conns[c]) {
      if c < |s.conns| { assert Tidy(s.conns[c]); }
    }
  }

  lemma {:induction false} GoodStep(s: State, step: Step)
    requires Good(s) && Enabled(s, step)
    ensures Good(Do(s, step))
  {
    SlotStep(s, step);
    AnswerStep(s, step);
    CountStep(s, step);
    TidyStep(s, step);
    HomeStep(s, step);
  }

  lemma {:induction false} AlwaysGood(s: State, steps: seq<Step>)
    requires Good(s) && Legal(s, steps)
    ensures Good(After(s, steps))
    decreases |steps|
  {
    if steps == [] {
    } else {
      GoodStep(s, steps[0]);
      AlwaysGood(Do(s, steps[0]), steps[1..]);
    }
  }

  // ----- how often a call can be executed

  /** Executions of call k, done and in flight. */
  function Load(s: State, k: Call): (n: nat) { s.executed[k] + Pending(s.conns)[k] }

  /** How often the request of call k can still be written. */
  function Writes(s: State, k: Call): (n: nat)
  {
    if s.holder.Held? && k == s.holder.call then
      match s.holder.phase
      case Sending(c, reused) => (if Open(s, c) then 1 else 0) + (if reused then 1 else 0)
      case Awaiting(_, reused) => if reused then 1 else 0
      case Connecting => 1
    else if k < |s.outcomes| then 0
    else if s.holder.Free? && k == |s.outcomes| then 1 + (if s.slot.Some? && Open(s, s.slot.value) then 1 else 0)
    else 2
  }

  /** The most executions of call k there can come to be. */
  function Most(s: State, k: Call): (n: nat) { Load(s, k) + Writes(s, k) }

  predicate Writing(s: State, step: Step, k: Call) { step.WriteOk? && s.holder.Held? && k == s.holder.call }

  lemma {:induction false} SessionLoad(s: State, step: Step, k: Call)
    requires Enabled(s, step) && OfSession(step)
    ensures Load(Do(s, step), k) <= Load(s, k)
    ensures step.Serve? ==> Load(Do(s, step), k) == Load(s, k)
  {
    var c := step.conn;
    PendingUpdate(s.conns, c, Do(s, step).conns[c], k);
    if !step.Die? { Head(s.conns[c].requests, k); }
  }

  lemma {:induction false} LoadStep(s: State, step: Step, k: Call)
    requires Enabled(s, step) && SlotInv(s)
    ensures Load(Do(s, step), k) <= Load(s, k) + if Writing(s, step, k) then 1 else 0
    ensures !OfSession(step) ==> Load(Do(s, step), k) == Load(s, k) + if Writing(s, step, k) then 1 else 0
  {
    if OfSession(step) {
      SessionLoad(s, step, k);
    } else if step.WriteOk? || step.ReadOk? || step.ReadGarbled? {
      var c := s.holder.phase.conn;
      PendingUpdate(s.conns, c, Do(s, step).conns[c], k);
    } else if step.ConnectOk? {
      PendingSnoc(s.conns, Conn([], [], true));
    }
  }

  lemma {:induction false} WritesStep(s: State, step: Step, k: Call)
    requires Enabled(s, step) && SlotInv(s) && AnswerInv(s)
    ensures Writes(Do(s, step), k) + (if Writing(s, step, k) then 1 else 0) <= Writes(s, k)
  {
  }

  /** No step raises the most there can come to be. */
  lemma {:induction false} NeverMore(s: State, more: seq<Step>, k: Call)
    requires Good(s) && Legal(s, more)
    ensures After(s, more).executed[k] <= Most(After(s, more), k) <= Most(s, k)
    decreases |more|
  {
    if more == [] {
    } else {
      LoadStep(s, more[0], k);
      WritesStep(s, more[0], k);
      GoodStep(s, more[0]);
      NeverMore(Do(s, more[0]), more[1..], k);
    }
  }

  /** The connection on which a request in flight waits. */
  function Carrier(conns: seq<Conn>, k: Call): (c: nat)
    requires Pending(conns)[k] > 0
    ensures c < |conns| && k in conns[c].requests
  {
    var n := |conns| - 1;
    if k in conns[n].requests then n else Carrier(conns[..n], k)
  }

  function Rank(s: State, k: Call): (n: nat)
  {
    if s.holder.Free? then (if k == |s.outcomes| then 6 else 0)
    else if k != s.holder.call then 0
    else
      match s.holder.phase
      case Sending(_, reused) => if reused then 5 else 2
      case Awaiting(_, reused) => if reused then 4 else 1
      case Connecting => 3
  }

  /** The step that brings call k towards one more execution. */
  function Towards(s: State, k: Call): (step: Step)
  {
    if Pending(s.conns)[k] > 0 then Serve(Carrier(s.conns, k))
    else if s.holder.Free? then Acquire
    else
      match s.holder.phase
      case Sending(c, _) => if Open(s, c) then WriteOk else WriteFail
      case Awaiting(_, _) => ReadFail
      case Connecting => ConnectOk
  }

  lemma {:induction false} ServeTowards(s: State, k: Call)
    requires Good(s) && Pending(s.conns)[k] > 0
    ensures var step := Serve(Carrier(s.conns, k));
            && Enabled(s, step) && Pending(Do(s, step).conns)[k] < Pending(s.conns)[k]
            && Load(Do(s, step), k) == Load(s, k)
  {
    var c := Carrier(s.conns, k);
    assert Tidy(s.conns[c]);
    assert s.conns[c].requests == [k];
    PendingUpdate(s.conns, c, Do(s, Serve(c)).conns[c], k);
    SessionLoad(s, Serve(c), k);
  }

  lemma {:induction false} HolderTowards(s: State, k: Call)
    requires Good(s) && k <= |s.outcomes| && Pending(s.conns)[k] == 0 && Writes(s, k) > 0
    ensures var step := Towards(s, k);
            && Enabled(s, step) && !OfSession(step) && Do(s, step).outcomes == s.outcomes
            && Rank(Do(s, step), k) < Rank(s, k)
            && Writes(Do(s, step), k) + (if Writing(s, step, k) then 1 else 0) == Writes(s, k)
  {
  }

  function Distance(s: State, k: Call): (n: nat) { 2 * Rank(s, k) + Pending(s.conns)[k] }

  predicate Advances(s: State, step: Step, k: Call)
  {
    && Enabled(s, step) && Most(Do(s, step), k) == Most(s, k) && |s.outcomes| <= |Do(s, step).outcomes|
    && Distance(Do(s, step), k) < Distance(s, k)
  }

  /** Serving a request leaves the holder where it is. */
  lemma {:induction false} ServeWrites(s: State, c: nat, k: Call)
    requires Enabled(s, Serve(c))
    ensures var s' := Do(s, Serve(c));
            Writes(s', k) == Writes(s, k) && Rank(s', k) == Rank(s, k) && s'.outcomes == s.outcomes
  {
  }

  lemma {:induction false} ServeAdvances(s: State, k: Call)
    requires Good(s) && Pending(s.conns)[k] > 0
    ensures Advances(s, Serve(Carrier(s.conns, k)), k)
  {
    ServeTowards(s, k);
    ServeWrites(s, Carrier(s.conns, k), k);
  }

  lemma {:induction false} HolderAdvances(s: State, k: Call)
    requires Good(s) && k <= |s.outcomes| && Pending(s.conns)[k] == 0 && Writes(s, k) > 0
    ensures Advances(s, Towards(s, k), k)
  {
    HolderTowards(s, k);
    LoadStep(s, Towards(s, k), k);
    assert Do(s, Towards(s, k)).executed == s.executed;
  }

  /** As many executions as that can indeed come to be. */
  lemma {:induction false} Attained(s: State, k: Call)
    requires Good(s) && k <= |s.outcomes|
    ensures exists more :: Legal(s, more) && After(s, more).executed[k] == Most(s, k)
    decreases Distance(s, k)
  {
    if Pending(s.conns)[k] == 0 && Writes(s, k) == 0 {
      assert Legal(s, []) && After(s, []).executed[k] == Most(s, k);
    } else {
      if Pending(s.conns)[k] > 0 { ServeAdvances(s, k); } else { HolderAdvances(s, k); }
      GoodStep(s, Towards(s, k));
      Attained(Do(s, Towards(s, k)), k);
      StepFirst(s, Towards(s, k), k, Most(s, k));
    }
  }

  lemma {:induction false} StepFirst(s: State, step: Step, k: Call, n: nat)
    requires Enabled(s, step) && exists more :: Legal(Do(s, step), more) && After(Do(s, step), more).executed[k] == n
    ensures exists more :: Legal(s, more) && After(s, more).executed[k] == n
  {
    var more :| Legal(Do(s, step), more) && After(Do(s, step), more).executed[k] == n;
    Then(s, step, more);
  }

  lemma {:induction false} Reached(steps: seq<Step>)
    requires Legal(INITIAL, steps)
    ensures Good(After(INITIAL, steps))
  {
    AlwaysGood(INITIAL, steps);
  }

  /** The exact number: whatever happens next, a call made so far or the next one is executed at most that
      often, and that often is possible. */
  lemma {:induction false} ExecutionsExactly(steps: seq<Step>, k: Call)
    requires Legal(INITIAL, steps) && k <= |After(INITIAL, steps).outcomes|
    ensures var s := After(INITIAL, steps);
            && (forall more :: Legal(s, more) ==> After(s, more).executed[k] <= Most(s, k))
            && (exists more :: Legal(s, more) && After(s, more).executed[k] == Most(s, k))
  {
    Reached(steps);
    var s := After(INITIAL, steps);
    forall more | Legal(s, more) ensures After(s, more).executed[k] <= Most(s, k) { NeverMore(s, more, k); }
    Attained(s, k);
  }

  /** The call can be executed twice. */
  ghost predicate CanRepeat(s: State, k: Call) { exists more :: Legal(s, more) && After(s, more).executed[k] == 2 }

  lemma {:induction false} AtMostTwo(steps: seq<Step>, k: Call)
    requires Legal(INITIAL, steps) && k <= |After(INITIAL, steps).outcomes|
    ensures Most(After(INITIAL, steps), k) <= 2
    ensures CanRepeat(After(INITIAL, steps), k) <==> Most(After(INITIAL, steps), k) == 2
  {
    ExecutionsExactly(steps, k);
    var s := After(INITIAL, steps);
    var more :| Legal(s, more) && After(s, more).executed[k] == Most(s, k);
    Append(INITIAL, steps, more);
    ExecutionBound(steps + more, k);
  }

  /** A call that awaits its response on a cached connection can be executed twice exactly when the session has
      executed it, or has yet to read its request. */
  lemma {:induction false} AwaitingRepeats(steps: seq<Step>)
    requires Legal(INITIAL, steps)
    requires After(INITIAL, steps).holder.Held? && After(INITIAL, steps).holder.phase.Awaiting?
             && After(INITIAL, steps).holder.phase.reused
    ensures var s := After(INITIAL, steps);
            var (k, c) := (s.holder.call, s.holder.phase.conn);
            && c < |s.conns|
            && (CanRepeat(s, k) <==> k in s.executed || s.conns[c].requests == [k])
  {
    Reached(steps);
    var s := After(INITIAL, steps);
    var (k, c) := (s.holder.call, s.holder.phase.conn);
    AtMostTwo(steps, k);
    assert s.sent[k] <= Allowed(s, k) && Conserved(s, k);
    CarrierIs(s, k, c);
  }

  /** The one request of a call on its first attempt is on the cached connection, if anywhere. */
  lemma {:induction false} CarrierIs(s: State, k: Call, c: nat)
    requires Good(s) && s.holder == Held(k, Awaiting(c, true))
    ensures c < |s.conns| && (Pending(s.conns)[k] > 0 <==> s.conns[c].requests == [k])
  {
  }

  lemma {:induction false} Append(s: State, a: seq<Step>, b: seq<Step>)
    requires Legal(s, a) && Legal(After(s, a), b)
    ensures Legal(s, a + b) && After(s, a + b) == After(After(s, a), b)
    decreases |a|
  {
    if a == [] {
      assert a + b == b;
    } else {
      assert (a + b)[0] == a[0] && (a + b)[1..] == a[1..] + b;
      Append(Do(s, a[0]), a[1..], b);
    }
  }

  // ----- when a call is answered

  /** Reconnecting fails, the fresh connection fails, or a response does not decode. */
  predicate FreshFails(s: State, step: Step)
  {
    || step.ConnectFail?
    || step.ReadGarbled?
    || ((step.WriteFail? || step.ReadFail?) && s.holder.Held? && !s.holder.phase.Connecting? && !s.holder.phase.reused)
  }

  predicate Smooth(s: State, steps: seq<Step>)
    requires Legal(s, steps)
    decreases |steps|
  {
    steps == [] || (!FreshFails(s, steps[0]) && Smooth(Do(s, steps[0]), steps[1..]))
  }

  lemma {:induction false} OutcomesStep(s: State, step: Step)
    requires Enabled(s, step) && !FreshFails(s, step)
    ensures var (a, b) := (s.outcomes, Do(s, step).outcomes); b == a || (|b| == |a| + 1 && b[..|a|] == a && b[|a|].Got?)
  {
  }

  lemma {:induction false} SmoothOutcomes(s: State, more: seq<Step>, k: nat)
    requires Legal(s, more) && Smooth(s, more)
    ensures var (a, b) := (s.outcomes, After(s, more).outcomes);
            |a| <= |b| && (k < |a| ==> b[k] == a[k]) && (|a| <= k < |b| ==> b[k].Got?)
    decreases |more|
  {
    if more == [] {
    } else {
      OutcomesStep(s, more[0]);
      SmoothOutcomes(Do(s, more[0]), more[1..], k);
    }
  }

  /** Whatever became of the cached connection: in every continuation in which reconnecting works, fresh
      connections hold and responses decode, every call that returns returns its own response. */
  lemma {:induction false} AnsweredUnlessFreshFails(steps: seq<Step>, more: seq<Step>, k: Call)
    requires Legal(INITIAL, steps) && Legal(After(INITIAL, steps), more) && Smooth(After(INITIAL, steps), more)
    requires |After(INITIAL, steps).outcomes| <= k < |After(After(INITIAL, steps), more).outcomes|
    ensures After(After(INITIAL, steps), more).outcomes[k] == Got(k)
  {
    SmoothOutcomes(After(INITIAL, steps), more, k);
    Reached(steps);
    AlwaysGood(After(INITIAL, steps), more);
  }

  /** The fresh connection of the call died without a response. */
  predicate FreshDead(s: State)
  {
    && s.holder.Held? && !s.holder.phase.Connecting? && !s.holder.phase.reused
    && s.holder.phase.conn < |s.conns|
    && !s.conns[s.holder.phase.conn].open && s.conns[s.holder.phase.conn].responses == []
  }

  /** The next step of the call under way, or of the session on its behalf. */
  function OwnStep(s: State): (step: Step)
    requires s.holder.Held? && (!s.holder.phase.Connecting? ==> s.holder.phase.conn < |s.conns|)
  {
    match s.holder.phase
    case Sending(c, _) => if Open(s, c) then WriteOk else WriteFail
    case Awaiting(c, _) =>
      if s.conns[c].responses != [] then ReadOk else if s.conns[c].requests != [] then Serve(c) else ReadFail
    case Connecting => ConnectOk
  }

  /** What is left of the call, at most. */
  function Left(s: State): (n: nat)
    requires s.holder.Held?
  {
    2 * Rank(s, s.holder.call)
    + if s.holder.phase.Awaiting? && s.holder.phase.conn < |s.conns| then |s.conns[s.holder.phase.conn].requests| else 0
  }

  /** While a call is under way and its fresh connection has not died, it has a next step that is no failure
      of a fresh connection; that step ends the call with its response or leaves less to do. */
  lemma {:induction false} NeverStuck(steps: seq<Step>)
    requires Legal(INITIAL, steps) && After(INITIAL, steps).holder.Held? && !FreshDead(After(INITIAL, steps))
    ensures var s := After(INITIAL, steps);
            && (!s.holder.phase.Connecting? ==> s.holder.phase.conn < |s.conns|)
            && var (step, k) := (OwnStep(s), s.holder.call);
            && Enabled(s, step) && !FreshFails(s, step)
            && var s' := Do(s, step);
            if s'.holder.Held? then s'.holder.call == k && Left(s') < Left(s) else s'.outcomes == s.outcomes + [Got(k)]
  {
    Reached(steps);
    OwnAdvances(After(INITIAL, steps));
  }

  lemma {:induction false} OwnAdvances(s: State)
    requires Good(s) && s.holder.Held? && !FreshDead(s)
    ensures !s.holder.phase.Connecting? ==> s.holder.phase.conn < |s.conns|
    ensures var (step, k) := (OwnStep(s), s.holder.call);
            && Enabled(s, step) && !FreshFails(s, step)
            && var s' := Do(s, step);
            if s'.holder.Held? then s'.holder.call == k && Left(s') < Left(s) else s'.outcomes == s.outcomes + [Got(k)]
  {
    if s.holder.phase.Awaiting? { assert Tidy(s.conns[s.holder.phase.conn]); }
  }

  /** No other step, of any other party, leaves more to do. */
  lemma {:induction false} NeverDelayed(steps: seq<Step>, step: Step)
    requires Legal(INITIAL, steps) && Enabled(After(INITIAL, steps), step) && After(INITIAL, steps).holder.Held?
    ensures var (s, s') := (After(INITIAL, steps), Do(After(INITIAL, steps), step));
            && Left(s) <= 10
            && (s'.holder.Held? ==> s'.holder.call == s.holder.call && Left(s') <= Left(s))
  {
    Reached(steps);
    NoDelay(After(INITIAL, steps), step);
  }

  lemma {:induction false} NoDelay(s: State, step: Step)
    requires SlotInv(s) && AllTidy(s) && s.holder.Held? && Enabled(s, step)
    ensures Left(s) <= 10
    ensures var s' := Do(s, step); s'.holder.Held? ==> s'.holder.call == s.holder.call && Left(s') <= Left(s)
  {
    if s.holder.phase.Awaiting? { assert Tidy(s.conns[s.holder.phase.conn]); }
    if OfSession(step) {
      assert Do(s, step).holder == s.holder && |Do(s, step).conns[step.conn].requests| <= |s.conns[step.conn].requests|;
    } else {
      HolderDelay(s, step);
    }
  }

  lemma {:induction false} HolderDelay(s: State, step: Step)
    requires SlotInv(s) && s.holder.Held? && Enabled(s, step) && !OfSession(step)
    ensures var s' := Do(s, step); s'.holder.Held? ==> s'.holder.call == s.holder.call && Left(s') <= Left(s)
  {
  }

  // ----- a run told from its steps

  /** How a step ends a call, if it does: with its response, or with an error when the response does not
      decode, when connecting fails, or when a fresh connection does. */
  function Ends(s: State, step: Step): (r: seq<Outcome>)
    requires Enabled(s, step)
  {
    match step
    case ReadOk => [Got(|s.outcomes|)]
    case ReadGarbled | ConnectFail => [Failed]
    case WriteFail | ReadFail => if s.holder.phase.reused then [] else [Failed]
    case _ => []
  }

  function AllEnds(s: State, steps: seq<Step>): (r: seq<Outcome>)
    requires Legal(s, steps)
    decreases |steps|
  {
    if steps == [] then [] else Ends(s, steps[0]) + AllEnds(Do(s, steps[0]), steps[1..])
  }

  lemma {:induction false} EndsStep(s: State, step: Step)
    requires Good(s) && Enabled(s, step)
    ensures Do(s, step).outcomes == s.outcomes + Ends(s, step)
  {
  }

  lemma {:induction false} EndsFrom(s: State, steps: seq<Step>)
    requires Good(s) && Legal(s, steps)
    ensures After(s, steps).outcomes == s.outcomes + AllEnds(s, steps)
    decreases |steps|
  {
    if steps == [] {
      Nothing(s.outcomes);
    } else {
      var s' := Do(s, steps[0]);
      EndsStep(s, steps[0]);
      GoodStep(s, steps[0]);
      EndsFrom(s', steps[1..]);
      Assoc(s.outcomes, Ends(s, steps[0]), AllEnds(s', steps[1..]));
    }
  }

  lemma {:induction false} Nothing<T>(s: seq<T>)
    ensures s + [] == s
  {
  }

  /** Every call ends as its steps tell, and in no other way. */
  lemma {:induction false} EndsExactly(steps: seq<Step>)
    requires Legal(INITIAL, steps)
    ensures After(INITIAL, steps).outcomes == AllEnds(INITIAL, steps)
  {
    EndsFrom(INITIAL, steps);
  }

  /** The connection from which a response was last read, unless reading, writing or connecting failed since. */
  function LastRead(s: State, steps: seq<Step>, was: Option<nat>): (c: Option<nat>)
    requires Legal(s, steps)
    decreases |steps|
  {
    if steps == [] then was
    else LastRead(Do(s, steps[0]), steps[1..], Read(s, steps[0], was))
  }

  function Read(s: State, step: Step, was: Option<nat>): (c: Option<nat>)
    requires Enabled(s, step)
  {
    match step
    case ReadOk | ReadGarbled => Some(s.holder.phase.conn)
    case ReadFail | WriteFail | ConnectFail => None
    case _ => was
  }

  /** Whoever has not yet put a fresh connection into the slot finds there what was last read from. */
  predicate Cached(s: State, was: Option<nat>)
  {
    s.holder.Free? || s.holder.phase.Connecting? || s.holder.phase.reused ==> s.slot == was
  }

  lemma {:induction false} CachedFrom(s: State, steps: seq<Step>, was: Option<nat>)
    requires Good(s) && Legal(s, steps) && Cached(s, was)
    ensures Cached(After(s, steps), LastRead(s, steps, was))
    decreases |steps|
  {
    if steps == [] {
    } else {
      GoodStep(s, steps[0]);
      CachedFrom(Do(s, steps[0]), steps[1..], Read(s, steps[0], was));
    }
  }

  /** Between calls a connection is cached exactly when the last call to use one read a response from it, even
      one that did not decode, and no connecting has failed since; it is that connection. */
  lemma {:induction false} CachedExactly(steps: seq<Step>)
    requires Legal(INITIAL, steps) && After(INITIAL, steps).holder.Free?
    ensures After(INITIAL, steps).slot == LastRead(INITIAL, steps, None)
  {
    CachedFrom(INITIAL, steps, None);
  }

  /** How often the run wrote the request of call k, how often the session took it up, and how often its
      response failed to come on a cached connection. */
  datatype Tally = Tally(written: nat, ran: nat, lost: nat)

  function Counted(s: State, step: Step, k: Call, t: Tally): (t': Tally)
    requires Enabled(s, step)
  {
    match step
    case WriteOk => if s.holder.call == k then t.(written := t.written + 1) else t
    case Serve(c) => if s.conns[c].requests[0] == k then t.(ran := t.ran + 1) else t
    case ServeAndDie(c) => if s.conns[c].requests[0] == k then t.(ran := t.ran + 1) else t
    case ReadFail => if s.holder.call == k && s.holder.phase.reused then t.(lost := t.lost + 1) else t
    case _ => t
  }

  function TallyOf(s: State, steps: seq<Step>, k: Call, t: Tally): (t': Tally)
    requires Legal(s, steps)
    decreases |steps|
  {
    if steps == [] then t else TallyOf(Do(s, steps[0]), steps[1..], k, Counted(s, steps[0], k, t))
  }

  predicate Agrees(s: State, k: Call, t: Tally)
  {
    s.sent[k] == t.written && s.executed[k] == t.ran && t.lost == (if k in s.retried then 1 else 0)
  }

  lemma {:induction false} TallyStep(s: State, step: Step, k: Call, t: Tally)
    requires Good(s) && Enabled(s, step) && Agrees(s, k, t)
    ensures Agrees(Do(s, step), k, Counted(s, step, k, t))
  {
  }

  lemma {:induction false} TallyFrom(s: State, steps: seq<Step>, k: Call, t: Tally)
    requires Good(s) && Legal(s, steps) && Agrees(s, k, t)
    ensures Agrees(After(s, steps), k, TallyOf(s, steps, k, t))
    decreases |steps|
  {
    if steps == [] {
    } else {
      TallyStep(s, steps[0], k, t);
      GoodStep(s, steps[0]);
      TallyFrom(Do(s, steps[0]), steps[1..], k, Counted(s, steps[0], k, t));
    }
  }

  /** A call is taken up no more often than written, and written twice only if its response failed to come on
      a cached connection, which happens to a call at most once. */
  lemma {:induction false} TalliedExactly(steps: seq<Step>, k: Call)
    requires Legal(INITIAL, steps)
    ensures var t := TallyOf(INITIAL, steps, k, Tally(0, 0, 0));
            && Agrees(After(INITIAL, steps), k, t)
            && t.ran <= t.written <= 1 + t.lost <= 2
  {
    TallyFrom(INITIAL, steps, k, Tally(0, 0, 0));
    ExecutionBound(steps, k);
  }

  /** A response once written stays to be read, whatever the session does then, even if its handler dies. */
  lemma {:induction false} ResponseStays(s: State, more: seq<Step>)
    requires Readable(s) && Legal(s, more) && forall i :: 0 <= i < |more| ==> OfSession(more[i])
    ensures var (s', c) := (After(s, more), s.holder.phase.conn);
            s'.holder == s.holder && Readable(s') && s.conns[c].responses <= s'.conns[c].responses
    decreases |more|
  {
    if more == [] {
    } else {
      ResponseStays(Do(s, more[0]), more[1..]);
    }
  }
}
