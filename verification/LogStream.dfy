/** Log streaming as a concurrent protocol: drainers push a line into a bounded ring and then broadcast it,
    while a subscriber subscribes to the broadcast channel and then replays the ring
    (crates/waymux-daemon/src/registry.rs, `spawn_log_drainer` and `replay_logs`;
    crates/waymux-daemon/src/server.rs, the Subscribe arm of `dispatch` and `event_forwarder`). */
module LogStream {

  const LOG_HISTORY_CAPACITY: nat := 1024
  const EVENT_CHANNEL_CAPACITY: nat := 1024

  /** A drainer, one per pipe, and the number of a line in that pipe. */
  datatype Line = Line(drainer: nat, index: nat)

  /** What goes over the broadcast channel; lines of other sessions and other events are Other. */
  datatype Event = Log(line: Line) | Other

  /** `from` is the channel position of the subscription, `at` the forwarder's, `replay` the ring's
      contents when it was replayed and `seen` the number of lines pushed by then. */
  datatype Subscriber =
    | Absent
    | Subscribed(from: nat)
    | Forwarding(from: nat, replay: seq<Line>, seen: nat, at: nat)
    | Lagged(from: nat, replay: seq<Line>, seen: nat, at: nat)

  /** All lines ever pushed, the ring, all events ever broadcast, and the subscriber. */
  datatype State = State(history: seq<Line>, ring: seq<Line>, channel: seq<Event>, sub: Subscriber)

  const INITIAL := State([], [], [], Absent)

  /** The numbers of one drainer's lines, in order. */
  function Of(d: nat, lines: seq<Line>): (r: seq<nat>)
    ensures |r| <= |lines|
  {
    if lines == [] then [] else
    var n := |lines| - 1;
    Of(d, lines[..n]) + (if lines[n].drainer == d then [lines[n].index] else [])
  }

  function Logs(events: seq<Event>): (r: seq<Line>)
  {
    if events == [] then [] else
    var n := |events| - 1;
    Logs(events[..n]) + (if events[n].Log? then [events[n].line] else [])
  }

  function Pushed(s: State, d: nat): (n: nat) { |Of(d, s.history)| }
  function Sent(s: State, d: nat): (n: nat) { |Of(d, Logs(s.channel))| }

  // ----- steps

  datatype Step =
    | Push(drainer: nat)   // append a fresh line to the ring, under its lock
    | Send(drainer: nat)   // broadcast the line just pushed
    | SendOther
    | Subscribe            // subscribe_events
    | Replay               // clone the ring, send it, start the forwarder
    | Forward              // one recv of the forwarder: an event, or Lagged

  predicate Enabled(s: State, step: Step)
  {
    match step
    case Push(d) => Pushed(s, d) == Sent(s, d)
    case Send(d) => Pushed(s, d) == Sent(s, d) + 1
    case SendOther => true
    case Subscribe => s.sub.Absent?
    case Replay => s.sub.Subscribed?
    case Forward => s.sub.Forwarding? && s.sub.at < |s.channel|
  }

  function PushRing(ring: seq<Line>, line: Line): (r: seq<Line>)
  {
    (if |ring| >= LOG_HISTORY_CAPACITY then ring[1..] else ring) + [line]
  }

  function Do(s: State, step: Step): (s': State)
    requires Enabled(s, step)
  {
    match step
    case Push(d) =>
      var line := Line(d, Pushed(s, d));
      s.(history := s.history + [line], ring := PushRing(s.ring, line))
    case Send(d) => s.(channel := s.channel + [Log(Line(d, Sent(s, d)))])
    case SendOther => s.(channel := s.channel + [Other])
    case Subscribe => s.(sub := Subscribed(|s.channel|))
    case Replay => s.(sub := Forwarding(s.sub.from, s.ring, |s.history|, s.sub.from))
    case Forward =>
      var f := s.sub;
      if |s.channel| - f.at > EVENT_CHANNEL_CAPACITY then s.(sub := Lagged(f.from, f.replay, f.seen, f.at))
      else s.(sub := Forwarding(f.from, f.replay, f.seen, f.at + 1))
  }

  /** A run: each step enabled where it is taken, in any interleaving. */
  predicate Legal(s: State, steps: seq<Step>)
    decreases |steps|
  {
    steps == [] || (Enabled(s, steps[0]) && Legal(Do(s, steps[0]), steps[1..]))
  }

  function After(s: State, steps: seq<Step>): (s': State)
    requires Legal(s, steps)
    decreases |steps|
  {
    if steps == [] then s else After(Do(s, steps[0]), steps[1..])
  }

  // ----- ranges

  function Range(a: nat, b: nat): (r: seq<nat>)
    requires a <= b
    ensures |r| == b - a && forall i :: 0 <= i < |r| ==> r[i] == a + i
  {
    seq(b - a, i requires 0 <= i < b - a => a + i)
  }

  lemma {:induction false} OfConcat(d: nat, a: seq<Line>, b: seq<Line>)
    ensures Of(d, a + b) == Of(d, a) + Of(d, b)
  {
    if b == [] {
      assert a + b == a;
    } else {
      assert (a + b)[..|a + b| - 1] == a + b[..|b| - 1];
      OfConcat(d, a, b[..|b| - 1]);
    }
  }

  lemma {:induction false} LogsConcat(a: seq<Event>, b: seq<Event>)
    ensures Logs(a + b) == Logs(a) + Logs(b)
  {
    if b == [] {
      assert a + b == a;
    } else {
      assert (a + b)[..|a + b| - 1] == a + b[..|b| - 1];
      LogsConcat(a, b[..|b| - 1]);
    }
  }

  lemma {:induction false} OfOne(d: nat, line: Line)
    ensures Of(d, [line]) == if line.drainer == d then [line.index] else []
  {
    assert [line][..0] == [];
  }

  /** If the lines of every drainer are numbered from 0 up, those in any tail are a range. */
  ghost predicate Numbered(lines: seq<Line>)
  {
    forall d :: Of(d, lines) == Range(0, |Of(d, lines)|)
  }

  lemma {:induction false} TailIsRange(a: seq<Line>, b: seq<Line>, d: nat)
    requires Numbered(a + b)
    ensures var (k, n) := (|Of(d, a)|, |Of(d, a + b)|); k <= n && Of(d, a) == Range(0, k) && Of(d, b) == Range(k, n)
  {
    OfConcat(d, a, b);
    var (k, n) := (|Of(d, a)|, |Of(d, a + b)|);
    var all := Range(0, n);
    assert Of(d, a + b) == all;
    assert Of(d, a) == all[..k] && Of(d, b) == all[k..];
  }

  lemma {:induction false} NumberedPrefix(a: seq<Line>, b: seq<Line>)
    requires Numbered(a + b)
    ensures Numbered(a)
  {
    forall d ensures Of(d, a) == Range(0, |Of(d, a)|) { TailIsRange(a, b, d); }
  }

  lemma {:induction false} NumberedSnoc(lines: seq<Line>, line: Line)
    requires Numbered(lines) && line.index == |Of(line.drainer, lines)|
    ensures Numbered(lines + [line])
  {
    forall d ensures Of(d, lines + [line]) == Range(0, |Of(d, lines + [line])|) {
      OfConcat(d, lines, [line]);
      OfOne(d, line);
    }
  }

  lemma {:induction false} SnocLen(lines: seq<Line>, line: Line, d: nat)
    ensures |Of(d, lines + [line])| == |Of(d, lines)| + if d == line.drainer then 1 else 0
  {
    OfConcat(d, lines, [line]);
    OfOne(d, line);
  }

  // ----- the invariant

  /** The last 1024 lines, or all. */
  function Newest(lines: seq<Line>): (r: seq<Line>)
  {
    if |lines| <= 1024 then lines else lines[|lines| - 1024..]
  }

  ghost predicate Paired(s: State)
  {
    forall d :: Sent(s, d) <= Pushed(s, d) <= Sent(s, d) + 1
  }

  /** The subscription came before the replay: every line broadcast before it had been pushed by then. */
  ghost predicate SubscribedFirst(s: State, from: nat, seen: nat)
    requires from <= |s.channel| && seen <= |s.history|
  {
    forall d :: |Of(d, Logs(s.channel[..from]))| <= |Of(d, s.history[..seen])|
  }

  predicate Started(s: State) { s.sub.Forwarding? || s.sub.Lagged? }

  ghost predicate SubInv(s: State)
  {
    match s.sub
    case Absent => true
    case Subscribed(from) => from <= |s.channel|
    case _ =>
      && s.sub.from <= s.sub.at <= |s.channel| && s.sub.seen <= |s.history|
      && s.sub.replay == Newest(s.history[..s.sub.seen])
      && SubscribedFirst(s, s.sub.from, s.sub.seen)
  }

  ghost predicate Inv(s: State)
  {
    && Numbered(s.history) && Numbered(Logs(s.channel)) && Paired(s)
    && s.ring == Newest(s.history)
    && SubInv(s)
  }

  lemma {:induction false} InitialInv()
    ensures Inv(INITIAL)
  {
    forall d ensures Of(d, INITIAL.history) == [] && Logs(INITIAL.channel) == [] && Of(d, Logs(INITIAL.channel))
        == [] {}
    forall d ensures Sent(INITIAL, d) <= Pushed(INITIAL, d) <= Sent(INITIAL, d) + 1 {}
  }

  lemma {:induction false} LogsSnoc(events: seq<Event>, e: Event)
    ensures Logs(events + [e]) == if e.Log? then Logs(events) + [e.line] else Logs(events)
  {
    assert (events + [e])[..|events|] == events;
  }

  lemma {:induction false} PushKeepsSub(s: State, line: Line, ring: seq<Line>)
    requires SubInv(s)
    ensures SubInv(s.(history := s.history + [line], ring := ring))
  {
    if Started(s) { assert (s.history + [line])[..s.sub.seen] == s.history[..s.sub.seen]; }
  }

  lemma {:induction false} PushKeepsRing(history: seq<Line>, line: Line)
    ensures PushRing(Newest(history), line) == Newest(history + [line])
  {
  }

  lemma {:induction false} PushKeeps(s: State, d: nat)
    requires Inv(s) && Enabled(s, Push(d))
    ensures Inv(Do(s, Push(d)))
  {
    var line := Line(d, Pushed(s, d));
    var s' := Do(s, Push(d));
    NumberedSnoc(s.history, line);
    forall e ensures Sent(s', e) <= Pushed(s', e) <= Sent(s', e) + 1 {
      assert Sent(s, e) <= Pushed(s, e) <= Sent(s, e) + 1;
      SnocLen(s.history, line, e);
    }
    PushKeepsSub(s, line, s'.ring);
    PushKeepsRing(s.history, line);
  }

  lemma {:induction false} ChannelGrows(s: State, e: Event)
    requires SubInv(s)
    ensures SubInv(s.(channel := s.channel + [e]))
  {
    if !s.sub.Absent? { assert (s.channel + [e])[..s.sub.from] == s.channel[..s.sub.from]; }
  }

  lemma {:induction false} SendKeeps(s: State, d: nat)
    requires Inv(s) && Enabled(s, Send(d))
    ensures Inv(Do(s, Send(d)))
  {
    var line := Line(d, Sent(s, d));
    var s' := Do(s, Send(d));
    LogsSnoc(s.channel, Log(line));
    NumberedSnoc(Logs(s.channel), line);
    forall e ensures Sent(s', e) <= Pushed(s', e) <= Sent(s', e) + 1 {
      assert Sent(s, e) <= Pushed(s, e) <= Sent(s, e) + 1;
      SnocLen(Logs(s.channel), line, e);
    }
    ChannelGrows(s, Log(line));
  }

  lemma {:induction false} SendOtherKeeps(s: State)
    requires Inv(s)
    ensures Inv(Do(s, SendOther))
  {
    var s' := Do(s, SendOther);
    LogsSnoc(s.channel, Other);
    forall e ensures Sent(s', e) <= Pushed(s', e) <= Sent(s', e) + 1 {
      assert Sent(s, e) <= Pushed(s, e) <= Sent(s, e) + 1;
    }
    ChannelGrows(s, Other);
  }

  /** What was broadcast before the subscription had been pushed before it. */
  lemma {:induction false} SubscribedFirstNow(s: State, from: nat)
    requires Paired(s) && from <= |s.channel|
    ensures SubscribedFirst(s, from, |s.history|)
  {
    assert s.history[..|s.history|] == s.history;
    forall d ensures |Of(d, Logs(s.channel[..from]))| <= |Of(d, s.history[..|s.history|])| {
      assert s.channel == s.channel[..from] + s.channel[from..];
      LogsConcat(s.channel[..from], s.channel[from..]);
      OfConcat(d, Logs(s.channel[..from]), Logs(s.channel[from..]));
      assert Sent(s, d) <= Pushed(s, d);
    }
  }

  /** Paired speaks only of the lines pushed and broadcast. */
  lemma {:induction false} PairedFrame(s: State, sub: Subscriber)
    requires Paired(s)
    ensures Paired(s.(sub := sub))
  {
    var s' := s.(sub := sub);
    forall e ensures Sent(s', e) <= Pushed(s', e) <= Sent(s', e) + 1 {
      assert Sent(s, e) <= Pushed(s, e) <= Sent(s, e) + 1;
    }
  }

  lemma {:induction false} SubscriberKeeps(s: State, step: Step)
    requires Inv(s) && Enabled(s, step) && (step.Subscribe? || step.Replay? || step.Forward?)
    ensures Inv(Do(s, step))
  {
    var s' := Do(s, step);
    PairedFrame(s, s'.sub);
    if step.Replay? {
      SubscribedFirstNow(s', s.sub.from);
      assert s.history[..|s.history|] == s.history;
    }
  }

  lemma {:induction false} StepKeeps(s: State, step: Step)
    requires Inv(s) && Enabled(s, step)
    ensures Inv(Do(s, step))
  {
    match step
    case Push(d) => PushKeeps(s, d);
    case Send(d) => SendKeeps(s, d);
    case SendOther => SendOtherKeeps(s);
    case _ => SubscriberKeeps(s, step);
  }

  lemma {:induction false} Always(s: State, steps: seq<Step>)
    requires Inv(s) && Legal(s, steps)
    ensures Inv(After(s, steps))
    decreases |steps|
  {
    if steps == [] {
    } else {
      StepKeeps(s, steps[0]);
      Always(Do(s, steps[0]), steps[1..]);
    }
  }

  // ----- what the subscriber gets

  /** The lines delivered: the replay, then those forwarded live. */
  ghost function Delivered(s: State): seq<Line>
    requires Started(s) && s.sub.from <= s.sub.at <= |s.channel|
  {
    s.sub.replay + Logs(s.channel[s.sub.from..s.sub.at])
  }

  /** For one drainer: the oldest line in the ring at replay, the first not yet pushed then, the first not
      yet broadcast at subscription, and the first not yet forwarded. */
  datatype Marks = Marks(oldest: nat, pushed: nat, sent: nat, forwarded: nat)

  function MarksOf(s: State, d: nat): (m: Marks)
    requires Started(s) && s.sub.from <= s.sub.at <= |s.channel| && s.sub.seen <= |s.history|
  {
    var pushed := |Of(d, s.history[..s.sub.seen])|;
    var replayed := |Of(d, s.sub.replay)|;
    Marks(if replayed <= pushed then pushed - replayed else 0, pushed,
          |Of(d, Logs(s.channel[..s.sub.from]))|, |Of(d, Logs(s.channel[..s.sub.at]))|)
  }

  /** One recv: a forwarder more than 1024 events behind stops and delivers nothing more; any other delivers
      the next event. */
  lemma {:induction false} ForwardDelivers(s: State)
    requires Inv(s) && Enabled(s, Forward)
    ensures SubInv(Do(s, Forward))
    ensures var (at, s') := (s.sub.at, Do(s, Forward));
            if |s.channel| - at > 1024 then s'.sub.Lagged? && Delivered(s') == Delivered(s)
            else s'.sub.Forwarding? && Delivered(s') == Delivered(s) + Logs([s.channel[at]])
  {
    StepKeeps(s, Forward);
    var (from, at) := (s.sub.from, s.sub.at);
    if |s.channel| - at <= 1024 {
      assert s.channel[from..at + 1] == s.channel[from..at] + [s.channel[at]];
      LogsConcat(s.channel[from..at], [s.channel[at]]);
      AddAfter(s.sub.replay, Logs(s.channel[from..at]), Logs([s.channel[at]]));
    }
  }

  lemma {:induction false} AddAfter(a: seq<Line>, b: seq<Line>, c: seq<Line>)
    ensures a + (b + c) == (a + b) + c
  {
  }

  /** Lines and events are only ever added, and a subscription stays where it was made. */
  predicate Grows(s: State, s': State)
  {
    && s.history <= s'.history && s.channel <= s'.channel
    && (s.sub.Subscribed? && s'.sub.Subscribed? ==> s'.sub == s.sub)
    && (Started(s) ==> Started(s') && s'.sub.from == s.sub.from && s'.sub.replay == s.sub.replay
                       && s'.sub.seen == s.sub.seen)
    && (s'.sub.Absent? ==> s.sub.Absent?)
    && (s'.sub.Subscribed? ==> s.sub.Subscribed? || s.sub.Absent?)
  }

  lemma {:induction false} RunGrows(s: State, steps: seq<Step>)
    requires Legal(s, steps)
    ensures Grows(s, After(s, steps))
    decreases |steps|
  {
    if steps == [] {
    } else {
      RunGrows(Do(s, steps[0]), steps[1..]);
    }
  }

  lemma {:induction false} MarksFrom(subscribed: State, replayed: State, s: State, d: nat)
    requires Inv(replayed) && SubInv(s) && Enabled(subscribed, Subscribe) && Enabled(replayed, Replay)
    requires Grows(Do(subscribed, Subscribe), replayed) && Grows(Do(replayed, Replay), s)
    ensures && Started(s) && s.sub.replay == Newest(replayed.history)
            && s.sub.from == |subscribed.channel| && s.sub.seen == |replayed.history|
            && MarksOf(s, d).sent == Sent(subscribed, d) && MarksOf(s, d).pushed == Pushed(replayed, d)
  {
    assert s.channel[..|subscribed.channel|] == subscribed.channel;
    assert s.history[..|replayed.history|] == replayed.history;
  }

  /** What the marks are in the run: the lines broadcast when the subscriber subscribed, those pushed when it
      replayed, and the 1024 newest of these were what it got first. */
  lemma {:induction false} MarksInRun(a: seq<Step>, b: seq<Step>, c: seq<Step>, d: nat)
    requires Legal(INITIAL, a) && Enabled(After(INITIAL, a), Subscribe)
    requires Legal(Do(After(INITIAL, a), Subscribe), b)
    requires Enabled(After(Do(After(INITIAL, a), Subscribe), b), Replay)
    requires Legal(Do(After(Do(After(INITIAL, a), Subscribe), b), Replay), c)
    ensures var subscribed := After(INITIAL, a);
            var replayed := After(Do(subscribed, Subscribe), b);
            var s := After(Do(replayed, Replay), c);
            && Started(s) && SubInv(s)
            && s.sub.replay == Newest(replayed.history)
            && s.sub.from == |subscribed.channel| && s.sub.seen == |replayed.history|
            && MarksOf(s, d).sent == Sent(subscribed, d) && MarksOf(s, d).pushed == Pushed(replayed, d)
  {
    var subscribed := After(INITIAL, a);
    var replayed := After(Do(subscribed, Subscribe), b);
    var s := After(Do(replayed, Replay), c);
    InitialInv();
    Always(INITIAL, a);
    StepKeeps(subscribed, Subscribe);
    Always(Do(subscribed, Subscribe), b);
    StepKeeps(replayed, Replay);
    Always(Do(replayed, Replay), c);
    RunGrows(Do(subscribed, Subscribe), b);
    RunGrows(Do(replayed, Replay), c);
    MarksFrom(subscribed, replayed, s, d);
  }

  /** In every reachable state, the lines a subscriber has of each drainer are the range in the ring at
      replay followed by the range forwarded live, and the second starts no later than the first ends. */
  lemma {:induction false} DeliveredRanges(steps: seq<Step>, d: nat)
    requires Legal(INITIAL, steps) && Started(After(INITIAL, steps))
    ensures var s := After(INITIAL, steps);
            && s.sub.from <= s.sub.at <= |s.channel| && s.sub.seen <= |s.history|
            && var m := MarksOf(s, d);
            && m.oldest <= m.pushed && m.sent <= m.pushed && m.sent <= m.forwarded
            && Of(d, Delivered(s)) == Range(m.oldest, m.pushed) + Range(m.sent, m.forwarded)
  {
    var s := After(INITIAL, steps);
    InitialInv();
    Always(INITIAL, steps);
    ReplayRange(s, d);
    LiveRange(s, d);
    OfConcat(d, s.sub.replay, Logs(s.channel[s.sub.from..s.sub.at]));
  }

  lemma {:induction false} ReplayRange(s: State, d: nat)
    requires Inv(s) && Started(s)
    ensures var m := MarksOf(s, d); m.oldest <= m.pushed && Of(d, s.sub.replay) == Range(m.oldest, m.pushed)
  {
    var h := s.history[..s.sub.seen];
    assert s.history == h + s.history[s.sub.seen..];
    NumberedPrefix(h, s.history[s.sub.seen..]);
    NewestRange(h, d);
  }

  /** The newest lines of each drainer are the last ones it numbered. */
  lemma {:induction false} NewestRange(h: seq<Line>, d: nat)
    requires Numbered(h)
    ensures var (all, kept) := (|Of(d, h)|, |Of(d, Newest(h))|);
            kept <= all && Of(d, Newest(h)) == Range(all - kept, all)
  {
    var (gone, kept) := (h[..|h| - |Newest(h)|], Newest(h));
    assert h == gone + kept;
    TailIsRange(gone, kept, d);
    OfConcat(d, gone, kept);
  }

  lemma {:induction false} LiveRange(s: State, d: nat)
    requires Inv(s) && Started(s)
    ensures var m := MarksOf(s, d);
            m.sent <= m.forwarded && Of(d, Logs(s.channel[s.sub.from..s.sub.at])) == Range(m.sent, m.forwarded)
  {
    var (a, b) := (s.channel[..s.sub.from], s.channel[s.sub.from..s.sub.at]);
    var (ab, c) := (s.channel[..s.sub.at], s.channel[s.sub.at..]);
    assert s.channel == ab + c && ab == a + b;
    LogsConcat(ab, c);
    LogsConcat(a, b);
    NumberedPrefix(Logs(ab), Logs(c));
    TailIsRange(Logs(a), Logs(b), d);
  }

  /** No hole: from the oldest line still in the ring at replay, exactly the lines up to the last one
      pushed by then or forwarded since have been delivered. A forwarder that has caught up has them all. */
  lemma {:induction false} NoHole(steps: seq<Step>, d: nat, i: nat)
    requires Legal(INITIAL, steps) && Started(After(INITIAL, steps))
    ensures var s := After(INITIAL, steps);
            && s.sub.from <= s.sub.at <= |s.channel| && s.sub.seen <= |s.history|
            && var m := MarksOf(s, d);
            && (i >= m.oldest ==> (i in Of(d, Delivered(s)) <==> i < m.pushed || i < m.forwarded))
            && (s.sub.at == |s.channel| ==> m.forwarded == Sent(s, d))
  {
    DeliveredRanges(steps, d);
    var s := After(INITIAL, steps);
    var m := MarksOf(s, d);
    InRange(m.oldest, m.pushed, i);
    InRange(m.sent, m.forwarded, i);
    assert s.channel[..|s.channel|] == s.channel;
  }

  lemma {:induction false} InRange(a: nat, b: nat, i: nat)
    requires a <= b
    ensures i in Range(a, b) <==> a <= i < b
  {
    if a <= i < b { assert Range(a, b)[i - a] == i; }
  }

  /** One contiguous run from the oldest line in the ring, exactly when nothing was forwarded yet or no line
      of this drainer was pushed and not yet broadcast at the subscription, nor pushed before the replay. */
  lemma {:induction false} OneRun(steps: seq<Step>, d: nat)
    requires Legal(INITIAL, steps) && Started(After(INITIAL, steps))
    ensures var s := After(INITIAL, steps);
            && s.sub.from <= s.sub.at <= |s.channel| && s.sub.seen <= |s.history|
            && var m := MarksOf(s, d);
            && m.oldest <= m.pushed
            && (Of(d, Delivered(s)) == Range(m.oldest, if m.pushed < m.forwarded then m.forwarded else m.pushed)
                <==> m.sent == m.pushed || m.sent == m.forwarded)
  {
    DeliveredRanges(steps, d);
    var m := MarksOf(After(INITIAL, steps), d);
    var (a, b) := (Range(m.oldest, m.pushed), Range(m.sent, m.forwarded));
    assert |a + b| == (m.pushed - m.oldest) + (m.forwarded - m.sent);
    if m.sent == m.pushed { assert a + b == Range(m.oldest, m.forwarded); }
    if m.sent == m.forwarded { assert a + b == a; }
  }

  predicate Increasing(s: seq<nat>) { forall i, j :: 0 <= i < j < |s| ==> s[i] < s[j] }

  predicate NoRepeat(s: seq<nat>) { forall i, j :: 0 <= i < j < |s| ==> s[i] != s[j] }

  /** Two ranges, the second of which starts before the first ends or where it ends. */
  lemma {:induction false} TwoRanges(a: nat, p: nat, b: nat, e: nat)
    requires a <= p && b <= p && b <= e
    ensures Increasing(Range(a, p) + Range(b, e)) <==> a == p || b == e || b == p
    ensures NoRepeat(Range(a, p) + Range(b, e)) <==> a == p || b == e || b == p || e <= a
  {
    var s := Range(a, p) + Range(b, e);
    if a < p && b < e && b < p {
      assert s[p - a - 1] == p - 1 && s[p - a] == b;
      if a < e {
        var i := if a <= b then b else a;
        assert s[i - a] == i && s[(p - a) + (i - b)] == i;
      }
    }
  }

  /** Each line at most once and in order, exactly when this drainer had no line in the ring at replay, or
      nothing of it was forwarded yet, or all its lines pushed by the replay had been broadcast by the
      subscription. */
  lemma {:induction false} OnceInOrder(steps: seq<Step>, d: nat)
    requires Legal(INITIAL, steps) && Started(After(INITIAL, steps))
    ensures var s := After(INITIAL, steps);
            && s.sub.from <= s.sub.at <= |s.channel| && s.sub.seen <= |s.history|
            && var m := MarksOf(s, d);
            Increasing(Of(d, Delivered(s))) <==> m.oldest == m.pushed || m.sent == m.forwarded || m.sent == m.pushed
  {
    DeliveredRanges(steps, d);
    var m := MarksOf(After(INITIAL, steps), d);
    TwoRanges(m.oldest, m.pushed, m.sent, m.forwarded);
  }

  /** No line twice, exactly when it is that or all the lines forwarded had left the ring by the replay: then
      they come late. */
  lemma {:induction false} AtMostOnce(steps: seq<Step>, d: nat)
    requires Legal(INITIAL, steps) && Started(After(INITIAL, steps))
    ensures var s := After(INITIAL, steps);
            && s.sub.from <= s.sub.at <= |s.channel| && s.sub.seen <= |s.history|
            && var m := MarksOf(s, d);
            NoRepeat(Of(d, Delivered(s)))
            <==> m.oldest == m.pushed || m.sent == m.forwarded || m.sent == m.pushed || m.forwarded <= m.oldest
  {
    DeliveredRanges(steps, d);
    var m := MarksOf(After(INITIAL, steps), d);
    TwoRanges(m.oldest, m.pushed, m.sent, m.forwarded);
  }

  /** A line pushed but not broadcast when the subscription is made is delivered twice. */
  lemma {:induction false} DuplicateLine()
    ensures var steps := [Push(0), Subscribe, Replay, Send(0), Forward];
            && Legal(INITIAL, steps)
            && After(INITIAL, steps).sub == Forwarding(0, [Line(0, 0)], 1, 1)
            && After(INITIAL, steps).channel == [Log(Line(0, 0))]
            && Delivered(After(INITIAL, steps)) == [Line(0, 0), Line(0, 0)]
  {
    var line := Line(0, 0);
    var s1 := INITIAL.(history := [line], ring := [line]);
    var s2 := s1.(sub := Subscribed(0));
    var s3 := s1.(sub := Forwarding(0, [line], 1, 0));
    var s4 := s3.(channel := [Log(line)]);
    OfOne(0, line);
    LogsSnoc([], Log(line));
    assert [] + [Log(line)] == [Log(line)] && [Log(line)][0..1] == [Log(line)];
    assert Pushed(INITIAL, 0) == Sent(INITIAL, 0) == 0;
    assert Pushed(s3, 0) == 1 && Sent(s3, 0) == 0;
    Then(s4, Forward, []);
    Then(s3, Send(0), [Forward]);
    Then(s2, Replay, [Send(0), Forward]);
    Then(s1, Subscribe, [Replay, Send(0), Forward]);
    Then(INITIAL, Push(0), [Subscribe, Replay, Send(0), Forward]);
  }

  lemma {:induction false} Then(s: State, step: Step, rest: seq<Step>)
    requires Enabled(s, step) && Legal(Do(s, step), rest)
    ensures Legal(s, [step] + rest) && After(s, [step] + rest) == After(Do(s, step), rest)
  {
    assert ([step] + rest)[1..] == rest;
  }

  // ----- a late line

  /** The first n lines of drainer 0, and their events. */
  function Lines(n: nat): (r: seq<Line>)
    ensures |r| == n
  {
    seq(n, i requires 0 <= i < n => Line(0, i))
  }

  function Events(n: nat): (r: seq<Event>)
    ensures |r| == n
  {
    seq(n, i requires 0 <= i < n => Log(Line(0, i)))
  }

  lemma {:induction false} LinesOf(n: nat)
    ensures |Of(0, Lines(n))| == n && Logs(Events(n)) == Lines(n)
  {
    if n == 0 {
    } else {
      var line := Line(0, n - 1);
      assert Lines(n) == Lines(n - 1) + [line] && Events(n) == Events(n - 1) + [Log(line)];
      LinesOf(n - 1);
      SnocLen(Lines(n - 1), line, 0);
      LogsSnoc(Events(n - 1), Log(line));
    }
  }

  /** Subscribed before the first broadcast; since then n lines pushed and broadcast. */
  function Busy(n: nat): (s: State) { State(Lines(n), Newest(Lines(n)), Events(n), Subscribed(0)) }

  /** The drainer pushes and broadcasts on while the subscriber has yet to replay. */
  lemma {:induction false} StaysBusy(n: nat, k: nat)
    ensures Leads(Busy(n), Busy(n + k))
    decreases k
  {
    if k == 0 {
      Stays(Busy(n));
    } else {
      StaysBusy(n + 1, k - 1);
      PushAndSend(n);
      LeadsBy(Do(Busy(n), Push(0)), Send(0), Busy(n + k));
      LeadsBy(Busy(n), Push(0), Busy(n + k));
    }
  }

  /** Some run goes from one state to the other. */
  ghost predicate Leads(s: State, t: State) { exists steps :: Legal(s, steps) && After(s, steps) == t }

  lemma {:induction false} Stays(s: State)
    ensures Leads(s, s)
  {
    assert Legal(s, []) && After(s, []) == s;
  }

  lemma {:induction false} LeadsBy(s: State, step: Step, t: State)
    requires Enabled(s, step) && Leads(Do(s, step), t)
    ensures Leads(s, t)
  {
    var rest :| Legal(Do(s, step), rest) && After(Do(s, step), rest) == t;
    Then(s, step, rest);
  }

  lemma {:induction false} LeadsOn(s: State, t: State, u: State)
    requires Leads(s, t) && Leads(t, u)
    ensures Leads(s, u)
  {
    var a :| Legal(s, a) && After(s, a) == t;
    var b :| Legal(t, b) && After(t, b) == u;
    Append(s, a, b);
  }

  lemma {:induction false} PushAndSend(n: nat)
    ensures Enabled(Busy(n), Push(0)) && Enabled(Do(Busy(n), Push(0)), Send(0))
    ensures Do(Busy(n), Push(0)) == State(Lines(n + 1), Newest(Lines(n + 1)), Events(n), Subscribed(0))
    ensures Do(Do(Busy(n), Push(0)), Send(0)) == Busy(n + 1)
  {
    LinesOf(n);
    LinesOf(n + 1);
    assert Lines(n + 1) == Lines(n) + [Line(0, n)] && Events(n + 1) == Events(n) + [Log(Line(0, n))];
    PushKeepsRing(Lines(n), Line(0, n));
  }

  /** One more line than the ring holds was pushed, all but it were broadcast, and the ring was replayed. */
  function Evicted(n: nat, at: nat): (s: State)
  {
    var ring := Newest(Lines(n + 1));
    State(Lines(n + 1), ring, Events(n), Forwarding(0, ring, n + 1, at))
  }

  lemma {:induction false} EvictedReachable(n: nat)
    requires n == LOG_HISTORY_CAPACITY
    ensures Leads(INITIAL, Evicted(n, 1))
  {
    var s := State(Lines(n + 1), Newest(Lines(n + 1)), Events(n), Subscribed(0));
    Stays(Evicted(n, 1));
    ReplayAndForward(n);
    LeadsBy(Evicted(n, 0), Forward, Evicted(n, 1));
    LeadsBy(s, Replay, Evicted(n, 1));
    PushAndSend(n);
    LeadsBy(Busy(n), Push(0), Evicted(n, 1));
    StaysBusy(0, n);
    LeadsOn(Busy(0), Busy(n), Evicted(n, 1));
    SubscribeFirst();
    LeadsBy(INITIAL, Subscribe, Evicted(n, 1));
  }

  lemma {:induction false} SubscribeFirst()
    ensures Enabled(INITIAL, Subscribe) && Do(INITIAL, Subscribe) == Busy(0)
  {
  }

  lemma {:induction false} ReplayAndForward(n: nat)
    requires 0 < n <= 1024
    ensures var s := State(Lines(n + 1), Newest(Lines(n + 1)), Events(n), Subscribed(0));
            && Enabled(s, Replay) && Do(s, Replay) == Evicted(n, 0)
            && Enabled(Evicted(n, 0), Forward) && Do(Evicted(n, 0), Forward) == Evicted(n, 1)
  {
  }

  lemma {:induction false} EvictedMarks(n: nat)
    requires n == LOG_HISTORY_CAPACITY
    ensures MarksOf(Evicted(n, 1), 0) == Marks(1, n + 1, 0, 1)
  {
    var lines := Lines(n + 1);
    LinesOf(n + 1);
    assert lines[..n + 1] == lines && lines == [Line(0, 0)] + lines[1..];
    OfConcat(0, [Line(0, 0)], lines[1..]);
    OfOne(0, Line(0, 0));
    assert Events(n)[..0] == [] && Events(n)[..1] == [Log(Line(0, 0))] && [] + [Log(Line(0, 0))] == [Log(Line(0, 0))];
    LogsSnoc([], Log(Line(0, 0)));
  }

  /** A line can come after newer ones although none comes twice: it was broadcast after the subscription and
      had left the ring by the replay. */
  lemma {:induction false} LateLine()
    ensures exists steps ::
              && Legal(INITIAL, steps) && Started(After(INITIAL, steps))
              && var s := After(INITIAL, steps);
              && s.sub.from <= s.sub.at <= |s.channel|
              && NoRepeat(Of(0, Delivered(s))) && !Increasing(Of(0, Delivered(s)))
  {
    var n := LOG_HISTORY_CAPACITY;
    EvictedReachable(n);
    var steps :| Legal(INITIAL, steps) && After(INITIAL, steps) == Evicted(n, 1);
    EvictedMarks(n);
    AtMostOnce(steps, 0);
    OnceInOrder(steps, 0);
  }

  lemma {:induction false} Append(s: State, a: seq<Step>, b: seq<Step>)
    requires Legal(s, a) && Legal(After(s, a), b)
    ensures Legal(s, a + b) && After(s, a + b) == After(After(s, a), b)
    decreases |a|
  {
    if a == [] {
      assert a + b == b;
    } else {
      assert (a + b)[0] == a[0] && (a + b)[1..] == a[1..] + b;
      Append(Do(s, a[0]), a[1..], b);
    }
  }
}
