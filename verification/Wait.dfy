/** Waiting for a window: subscribe, list, then list again on each window event, while the session changes
    its windows and emits an event for each change (crates/waymux-cli/src/main.rs, `wait_for_window`;
    crates/waymux-cli/src/connection.rs). Events and responses share one FIFO wire; the client queues the
    events that arrive while it awaits a response. */
module Wait {
  import opened Bytes

  datatype Window = Window(id: nat, appId: string, title: string, pid: int)

  /** Tags are kept by the daemon and merged into the list. */
  type Tags = map<nat, seq<string>>

  datatype Selector = Selector(appId: Option<string>, title: Option<string>, tag: Option<string>, pid: Option<int>,
                               nth: Option<nat>)

  predicate Matches(w: Window, tags: Tags, sel: Selector)
  {
    && (sel.appId.Some? ==> w.appId == sel.appId.value)
    && (sel.title.Some? ==> w.title == sel.title.value)
    && (sel.tag.Some? ==> w.id in tags && sel.tag.value in tags[w.id])
    && (sel.pid.Some? ==> w.pid == sel.pid.value)
  }

  function Filtered(windows: seq<Window>, tags: Tags, sel: Selector): (r: seq<Window>)
  {
    if windows == [] then [] else
    Selected(windows[0], tags, sel) + Filtered(windows[1..], tags, sel)
  }

  function Selected(w: Window, tags: Tags, sel: Selector): (r: seq<Window>)
  {
    if Matches(w, tags, sel) then [w] else []
  }

  function Resolve(windows: seq<Window>, tags: Tags, sel: Selector): (r: Option<Window>)
  {
    var filtered := Filtered(windows, tags, sel);
    var n := if sel.nth.Some? then sel.nth.value else 0;
    if n < |filtered| then Some(filtered[n]) else None
  }

  /** A selector without a tag does not look at the tags. */
  lemma {:induction false} TagFree(windows: seq<Window>, a: Tags, b: Tags, sel: Selector)
    requires sel.tag.None?
    ensures Filtered(windows, a, sel) == Filtered(windows, b, sel)
  {
    if windows == [] {
    } else {
      TagFree(windows[1..], a, b, sel);
    }
  }

  // ----- the protocol

  /** A list as captured: the session's windows after `version` changes, and the tags merged into it. */
  datatype Listing = Listing(windows: seq<Window>, version: nat, tags: Tags)

  /** Event(k) announces the session's k-th change; Noise is any event about something else. */
  datatype Frame = Event(change: nat) | Noise | Ack | Reply(list: Listing)

  datatype Server =
    | Idle
    | SubscribeAsked
    | Acking
    | ListAsked
    | Captured(windows: seq<Window>, version: nat)   // the session has answered; the tags are still to be merged

  datatype Client =
    | Start
    | Subscribing
    | Asking
    | Waiting(list: Listing)     // in read_raw_frame, having found nothing in this list
    | Found(window: Window)
    | GaveUp

  datatype State = State(
    windows: seq<Window>, version: nat, tags: Tags,
    emitted: nat,               // events broadcast: those of the first `emitted` changes
    subscribed: bool, forwarded: nat,   // events put on the wire, or broadcast before the subscription
    server: Server, wire: seq<Frame>,
    client: Client, pending: seq<Frame>)

  function Initial(windows: seq<Window>, tags: Tags): (s: State)
  {
    State(windows, 0, tags, 0, false, 0, Idle, [], Start, [])
  }

  datatype Step =
    | Change(windows: seq<Window>)       // the session's windows change ...
    | Emit                               // ... and some time later the change's event is broadcast
    | Tag(id: nat, tags: seq<string>)    // tag_window: no event
    | Forward                            // the event forwarder takes the next event
    | ForwardNoise
    | Subscribe                          // the daemon subscribes on the client's behalf ...
    | SendAck                            // ... and answers
    | Capture                            // the session answers the daemon's list request
    | SendReply                          // the daemon merges the tags and answers
    | Ask                                // the client starts
    | Read                               // the client takes one frame
    | Timeout

  predicate Enabled(s: State, step: Step)
  {
    match step
    case Change(_) => true
    case Emit => s.emitted < s.version
    case Tag(_, _) => true
    case Forward => s.subscribed && s.forwarded < s.emitted
    case ForwardNoise => s.subscribed
    case Subscribe => s.server.SubscribeAsked?
    case SendAck => s.server.Acking?
    case Capture => s.server.ListAsked?
    case SendReply => s.server.Captured?
    case Ask => s.client.Start?
    case Read => ((s.client.Subscribing? || s.client.Asking?) && s.wire != [])
                 || (s.client.Waiting? && (s.pending != [] || s.wire != []))
    case Timeout => s.client.Waiting?
  }

  function Do(s: State, sel: Selector, step: Step): (s': State)
    requires Enabled(s, step)
  {
    match step
    case Change(w) => s.(windows := w, version := s.version + 1)
    case Emit => s.(emitted := s.emitted + 1)
    case Tag(id, t) => s.(tags := s.tags[id := t])
    case Forward => s.(wire := s.wire + [Event(s.forwarded + 1)], forwarded := s.forwarded + 1)
    case ForwardNoise => s.(wire := s.wire + [Noise])
    case Subscribe => s.(server := Acking, subscribed := true, forwarded := s.emitted)
    case SendAck => s.(server := Idle, wire := s.wire + [Ack])
    case Capture => s.(server := Captured(s.windows, s.version))
    case SendReply =>
      s.(server := Idle, wire := s.wire + [Reply(Listing(s.server.windows, s.server.version, s.tags))])
    case Ask => s.(client := Subscribing, server := SubscribeAsked)
    case Read =>
      if s.client.Waiting? then
        if s.pending != [] then Wake(s.(pending := s.pending[1..]), s.pending[0])
        else Wake(s.(wire := s.wire[1..]), s.wire[0])
      else Receive(s.(wire := s.wire[1..]), sel, s.wire[0])
    case Timeout => s.(client := GaveUp)
  }

  /** The waiting client got a frame: it lists again if the frame is an event of its session. */
  function Wake(s: State, f: Frame): (s': State)
  {
    if f.Event? then s.(client := Asking, server := ListAsked) else s
  }

  /** The client awaiting a response got a frame: the response, or an event to queue. */
  function Receive(s: State, sel: Selector, f: Frame): (s': State)
  {
    if s.client.Subscribing? && f.Ack? then s.(client := Asking, server := ListAsked)
    else if s.client.Asking? && f.Reply? then
      var r := Resolve(f.list.windows, f.list.tags, sel);
      s.(client := if r.Some? then Found(r.value) else Waiting(f.list))
    else s.(pending := s.pending + [f])
  }

  /** A run: each step enabled where it is taken, in any interleaving. */
  predicate Legal(s: State, sel: Selector, steps: seq<Step>)
    decreases |steps|
  {
    steps == [] || (Enabled(s, steps[0]) && Legal(Do(s, sel, steps[0]), sel, steps[1..]))
  }

  function After(s: State, sel: Selector, steps: seq<Step>): (s': State)
    requires Legal(s, sel, steps)
    decreases |steps|
  {
    if steps == [] then s else After(Do(s, sel, steps[0]), sel, steps[1..])
  }

  // ----- the invariant

  /** The responses in a sequence of frames. */
  function Responses(frames: seq<Frame>): (r: seq<Frame>)
  {
    if frames == [] then [] else Response(frames[0]) + Responses(frames[1..])
  }

  function Response(f: Frame): (r: seq<Frame>) { if f.Ack? || f.Reply? then [f] else [] }

  lemma {:induction false} ResponsesSnoc(frames: seq<Frame>, f: Frame)
    ensures Responses(frames + [f]) == Responses(frames) + Response(f)
  {
    if frames == [] {
      assert frames + [f] == [f] && [f][1..] == [];
      assert Responses([f]) == Response(f) + Responses([]);
    } else {
      var tail := frames[1..];
      assert (frames + [f])[0] == frames[0] && (frames + [f])[1..] == tail + [f];
      ResponsesSnoc(tail, f);
      Assoc(Response(frames[0]), Responses(tail), Response(f));
    }
  }

  /** A list is no newer than the session's windows, and the same if it is as new. */
  predicate Honest(s: State, windows: seq<Window>, version: nat)
  {
    version <= s.version && (version == s.version ==> windows == s.windows)
  }

  /** Every change up to a version, or with its event still to come, queued or on the wire. */
  ghost predicate Covered(s: State, version: nat)
  {
    forall k :: 1 <= k <= s.forwarded ==> k <= version || Event(k) in s.pending || Event(k) in s.wire
  }

  predicate Good(s: State, list: Listing) { Honest(s, list.windows, list.version) }

  /** At most one request under way, and where its response is. */
  ghost predicate RequestInv(s: State)
  {
    match s.client
    case Start => s.server.Idle? && Responses(s.wire) == [] && !s.subscribed
    case Subscribing =>
      || (s.server.SubscribeAsked? && Responses(s.wire) == [])
      || (s.server.Acking? && Responses(s.wire) == [])
      || (s.server.Idle? && Responses(s.wire) == [Ack])
    case Asking =>
      || (s.server.ListAsked? && Responses(s.wire) == [])
      || (s.server.Captured? && Responses(s.wire) == [] && Honest(s, s.server.windows, s.server.version)
          && Covered(s, s.server.version))
      || (s.server.Idle? && exists list ::
            Responses(s.wire) == [Reply(list)] && Good(s, list) && Covered(s, list.version))
    case Waiting(list) =>
      s.server.Idle? && Responses(s.wire) == [] && Good(s, list) && Covered(s, list.version)
    case _ => s.server.Idle? && Responses(s.wire) == []
  }

  ghost predicate Inv(s: State, sel: Selector)
  {
    && s.emitted <= s.version && s.forwarded <= s.emitted
    && (s.client.Waiting? ==> Resolve(s.client.list.windows, s.client.list.tags, sel).None?)
    && RequestInv(s)
  }

  /** A frame more on the wire, and perhaps an event more forwarded with it, leaves covered what was. */
  lemma {:induction false} CoveredSent(s: State, s': State, version: nat)
    requires Covered(s, version) && s'.pending == s.pending
    requires |s'.wire| == |s.wire| + 1 && s'.wire[..|s.wire|] == s.wire
    requires s'.forwarded == s.forwarded
             || (s'.forwarded == s.forwarded + 1 && s'.wire[|s.wire|] == Event(s'.forwarded))
    ensures Covered(s', version)
  {
    forall k | 1 <= k <= s'.forwarded ensures k <= version || Event(k) in s'.pending || Event(k) in s'.wire {
      if k <= s.forwarded && Event(k) in s.wire {
        var i :| 0 <= i < |s.wire| && s.wire[i] == Event(k);
        assert s'.wire[..|s.wire|][i] == s'.wire[i];
      }
    }
  }

  lemma {:induction false} SendAckKeeps(s: State, sel: Selector)
    requires Inv(s, sel) && Enabled(s, SendAck)
    ensures Inv(Do(s, sel, SendAck), sel)
  {
    ResponsesSnoc(s.wire, Ack);
  }

  lemma {:induction false} SendReplyKeeps(s: State, sel: Selector)
    requires Inv(s, sel) && Enabled(s, SendReply)
    ensures Inv(Do(s, sel, SendReply), sel)
  {
    var s' := Do(s, sel, SendReply);
    var list := Listing(s.server.windows, s.server.version, s.tags);
    ResponsesSnoc(s.wire, Reply(list));
    assert s'.wire[..|s.wire|] == s.wire;
    CoveredSent(s, s', list.version);
    assert Good(s', list);
  }

  lemma {:induction false} EventKeeps(s: State, sel: Selector, step: Step)
    requires Inv(s, sel) && Enabled(s, step) && (step.Forward? || step.ForwardNoise?)
    ensures Inv(Do(s, sel, step), sel)
  {
    var s' := Do(s, sel, step);
    ResponsesSnoc(s.wire, s'.wire[|s.wire|]);
    assert s'.wire[..|s.wire|] == s.wire && Responses(s'.wire) == Responses(s.wire);
    if s.client.Waiting? {
      CoveredSent(s, s', s.client.list.version);
    } else if s.client.Asking? && s.server.Captured? {
      CoveredSent(s, s', s.server.version);
    } else if s.client.Asking? && s.server.Idle? {
      var list :| Responses(s.wire) == [Reply(list)] && Good(s, list) && Covered(s, list.version);
      CoveredSent(s, s', list.version);
      assert Good(s', list);
    }
  }

  /** Taking a frame off: a response leaves none behind, another frame leaves the responses as they were. */
  lemma {:induction false} ResponsesPop(frames: seq<Frame>)
    requires frames != [] && |Responses(frames)| <= 1
    ensures frames[0].Ack? || frames[0].Reply? ==> Responses(frames) == [frames[0]] && Responses(frames[1..]) == []
    ensures !frames[0].Ack? && !frames[0].Reply? ==> Responses(frames[1..]) == Responses(frames)
  {
  }

  lemma {:induction false} PopIn(frames: seq<Frame>, f: Frame)
    requires frames != [] && f in frames && f != frames[0]
    ensures f in frames[1..]
  {
    var i :| 0 <= i < |frames| && frames[i] == f;
    assert frames[1..][i - 1] == f;
  }

  /** A frame dropped that is no event, or moved to the queue, loses no event. */
  lemma {:induction false} CoveredMove(s: State, s': State, version: nat, f: Frame)
    requires Covered(s, version) && s'.forwarded == s.forwarded && s.wire != [] && f == s.wire[0]
    requires s'.wire == s.wire[1..] && (s'.pending == s.pending + [f] || (s'.pending == s.pending && !f.Event?))
    ensures Covered(s', version)
  {
    forall k | 1 <= k <= s'.forwarded ensures k <= version || Event(k) in s'.pending || Event(k) in s'.wire {
      if k > version && Event(k) !in s.pending && Event(k) != f {
        PopIn(s.wire, Event(k));
      } else if k > version && Event(k) !in s.pending {
        assert s'.pending[|s.pending|] == Event(k);
      }
    }
  }

  lemma {:induction false} WaitingRead(s: State, sel: Selector)
    requires Inv(s, sel) && s.client.Waiting? && Enabled(s, Read)
    ensures Inv(Do(s, sel, Read), sel)
  {
    var s' := Do(s, sel, Read);
    if s.pending == [] {
      ResponsesPop(s.wire);
      if !s.wire[0].Event? { CoveredMove(s, s', s.client.list.version, s.wire[0]); }
    } else if !s.pending[0].Event? {
      forall k | 1 <= k <= s'.forwarded
        ensures k <= s.client.list.version || Event(k) in s'.pending || Event(k) in s'.wire
      {
        if k > s.client.list.version && Event(k) !in s.wire { PopIn(s.pending, Event(k)); }
      }
    }
  }

  lemma {:induction false} ListingRead(s: State, sel: Selector)
    requires Inv(s, sel) && s.client.Asking? && Enabled(s, Read)
    ensures Inv(Do(s, sel, Read), sel)
  {
    var s' := Do(s, sel, Read);
    ResponsesPop(s.wire);
    if s.server.Captured? {
      CoveredMove(s, s', s.server.version, s.wire[0]);
    } else if s.server.Idle? {
      var list :| Responses(s.wire) == [Reply(list)] && Good(s, list) && Covered(s, list.version);
      CoveredMove(s, s', list.version, s.wire[0]);
      assert Good(s', list);
    }
  }

  lemma {:induction false} SubscribingRead(s: State, sel: Selector)
    requires Inv(s, sel) && s.client.Subscribing? && Enabled(s, Read)
    ensures Inv(Do(s, sel, Read), sel)
  {
    ResponsesPop(s.wire);
  }

  lemma {:induction false} StepKeeps(s: State, sel: Selector, step: Step)
    requires Inv(s, sel) && Enabled(s, step)
    ensures Inv(Do(s, sel, step), sel)
  {
    match step
    case Forward => EventKeeps(s, sel, step);
    case ForwardNoise => EventKeeps(s, sel, step);
    case SendAck => SendAckKeeps(s, sel);
    case SendReply => SendReplyKeeps(s, sel);
    case Read =>
      if s.client.Waiting? { WaitingRead(s, sel); }
      else if s.client.Asking? { ListingRead(s, sel); }
      else { SubscribingRead(s, sel); }
    case _ =>
  }

  lemma {:induction false} Always(s: State, sel: Selector, steps: seq<Step>)
    requires Inv(s, sel) && Legal(s, sel, steps)
    ensures Inv(After(s, sel, steps), sel)
    decreases |steps|
  {
    if steps == [] {
    } else {
      StepKeeps(s, sel, steps[0]);
      Always(Do(s, sel, steps[0]), sel, steps[1..]);
    }
  }

  // ----- what the waiter can rely on

  /** No lost wakeup: while the waiter blocks, every change is in its latest list, or its event is still to be
      forwarded, queued or on the wire. */
  lemma {:induction false} NoLostWakeup(windows: seq<Window>, tags: Tags, sel: Selector, steps: seq<Step>, k: nat)
    requires Legal(Initial(windows, tags), sel, steps)
    ensures var s := After(Initial(windows, tags), sel, steps);
            s.client.Waiting? && 1 <= k <= s.version
            ==> k <= s.client.list.version || k > s.forwarded || Event(k) in s.pending || Event(k) in s.wire
  {
    Always(Initial(windows, tags), sel, steps);
  }

  /** No event of the session's windows is still to come. */
  ghost predicate Quiescent(s: State)
  {
    s.forwarded == s.version && forall k :: Event(k) !in s.pending && Event(k) !in s.wire
  }

  /** The waiter never blocks on a stale list with nothing in flight: its list has the session's present
      windows, and unless it selects by a tag none of them matches. */
  lemma {:induction false} NeverBlockedStale(windows: seq<Window>, tags: Tags, sel: Selector, steps: seq<Step>)
    requires Legal(Initial(windows, tags), sel, steps)
    ensures var s := After(Initial(windows, tags), sel, steps);
            s.client.Waiting? && Quiescent(s)
            ==> && s.client.list.windows == s.windows
                && (sel.tag.None? || s.client.list.tags == s.tags ==> Resolve(s.windows, s.tags, sel).None?)
  {
    Always(Initial(windows, tags), sel, steps);
    var s := After(Initial(windows, tags), sel, steps);
    if s.client.Waiting? && Quiescent(s) {
      assert Event(s.version) !in s.pending && Event(s.version) !in s.wire;
      if sel.tag.None? { TagFree(s.windows, s.client.list.tags, s.tags, sel); }
    }
  }

  lemma {:induction false} Then(s: State, sel: Selector, step: Step, rest: seq<Step>)
    requires Enabled(s, step) && Legal(Do(s, sel, step), sel, rest)
    ensures Legal(s, sel, [step] + rest) && After(s, sel, [step] + rest) == After(Do(s, sel, step), sel, rest)
  {
    assert ([step] + rest)[1..] == rest;
  }

  lemma {:induction false} FirstSteps(s0: State, s3: State, sel: Selector, rest: seq<Step>)
    requires s0.client.Start? && s0.wire == [] && s0.emitted == s0.forwarded
    requires s3 == s0.(subscribed := true, wire := [Ack], client := Subscribing, server := Idle)
    requires Legal(s3, sel, rest)
    ensures var steps := [Ask] + ([Subscribe] + ([SendAck] + rest));
            Legal(s0, sel, steps) && After(s0, sel, steps) == After(s3, sel, rest)
  {
    var s1 := s0.(client := Subscribing, server := SubscribeAsked);
    var s2 := s1.(server := Acking, subscribed := true);
    assert Do(s2, sel, SendAck) == s3;
    Then(s2, sel, SendAck, rest);
    Then(s1, sel, Subscribe, [SendAck] + rest);
    Then(s0, sel, Ask, [Subscribe] + ([SendAck] + rest));
  }

  /** The state of a waiter on unchanged windows, once subscribed. */
  function Quiet(windows: seq<Window>, tags: Tags, server: Server, wire: seq<Frame>, client: Client): (s: State)
  {
    State(windows, 0, tags, 0, true, 0, server, wire, client, [])
  }

  lemma {:induction false} ListsOnce(windows: seq<Window>, tags: Tags, sel: Selector, rest: seq<Step>)
    requires Resolve(windows, tags, sel).None?
    requires Legal(Quiet(windows, tags, Idle, [], Waiting(Listing(windows, 0, tags))), sel, rest)
    ensures var s := Quiet(windows, tags, ListAsked, [], Asking);
            var steps := [Capture] + ([SendReply] + ([Read] + rest));
            && Legal(s, sel, steps)
            && After(s, sel, steps)
               == After(Quiet(windows, tags, Idle, [], Waiting(Listing(windows, 0, tags))), sel, rest)
  {
    var list := Listing(windows, 0, tags);
    var s5 := Quiet(windows, tags, Captured(windows, 0), [], Asking);
    var s6 := Quiet(windows, tags, Idle, [Reply(list)], Asking);
    assert Do(s6, sel, Read) == Quiet(windows, tags, Idle, [], Waiting(list));
    Then(s6, sel, Read, rest);
    assert Do(s5, sel, SendReply) == s6;
    Then(s5, sel, SendReply, [Read] + rest);
    Then(Quiet(windows, tags, ListAsked, [], Asking), sel, Capture, [SendReply] + ([Read] + rest));
  }

  /** A waiter that finds nothing comes to block, and stays blocked when a window is then tagged. */
  lemma {:induction false} Blocks(windows: seq<Window>, tags: Tags, sel: Selector, id: nat, to: seq<string>)
    requires Resolve(windows, tags, sel).None?
    ensures exists steps ::
              && Legal(Initial(windows, tags), sel, steps)
              && After(Initial(windows, tags), sel, steps)
                 == Quiet(windows, tags[id := to], Idle, [], Waiting(Listing(windows, 0, tags)))
  {
    var blocked := Quiet(windows, tags, Idle, [], Waiting(Listing(windows, 0, tags)));
    Then(blocked, sel, Tag(id, to), []);
    ListsOnce(windows, tags, sel, [Tag(id, to)] + []);
    var rest := [Capture] + ([SendReply] + ([Read] + ([Tag(id, to)] + [])));
    var s3 := Quiet(windows, tags, Idle, [Ack], Subscribing);
    assert Do(s3, sel, Read) == Quiet(windows, tags, ListAsked, [], Asking);
    Then(s3, sel, Read, rest);
    FirstSteps(Initial(windows, tags), s3, sel, [Read] + rest);
  }

  // Windows that match a selector but for their tags.

  function Sample(sel: Selector, id: nat): (w: Window)
  {
    Window(id, if sel.appId.Some? then sel.appId.value else "", if sel.title.Some? then sel.title.value else "",
           if sel.pid.Some? then sel.pid.value else 0)
  }

  function Samples(sel: Selector, n: nat): (ws: seq<Window>)
    ensures |ws| == n
  {
    if n == 0 then [] else Samples(sel, n - 1) + [Sample(sel, n - 1)]
  }

  function Tagged(sel: Selector, n: nat): (tags: Tags)
    requires sel.tag.Some?
    ensures forall id: nat :: id in tags <==> id < n
    ensures forall id :: id in tags ==> tags[id] == [sel.tag.value]
  {
    if n == 0 then map[] else Tagged(sel, n - 1)[n - 1 := [sel.tag.value]]
  }

  lemma {:induction false} FilteredSnoc(ws: seq<Window>, w: Window, tags: Tags, sel: Selector)
    ensures Filtered(ws + [w], tags, sel) == Filtered(ws, tags, sel) + Selected(w, tags, sel)
  {
    if ws == [] {
      assert ws + [w] == [w] && [w][1..] == [];
    } else {
      var tail := ws[1..];
      assert (ws + [w])[0] == ws[0] && (ws + [w])[1..] == tail + [w];
      FilteredSnoc(tail, w, tags, sel);
      Assoc(Selected(ws[0], tags, sel), Filtered(tail, tags, sel), Selected(w, tags, sel));
    }
  }

  lemma {:induction false} SamplesMatch(sel: Selector, n: nat, m: nat)
    requires sel.tag.Some? && n <= m
    ensures Filtered(Samples(sel, n), Tagged(sel, m), sel) == Samples(sel, n)
  {
    if n == 0 {
    } else {
      SamplesMatch(sel, n - 1, m);
      FilteredSnoc(Samples(sel, n - 1), Sample(sel, n - 1), Tagged(sel, m), sel);
      assert Tagged(sel, m)[n - 1][0] == sel.tag.value;
    }
  }

  lemma {:induction false} LastSample(sel: Selector, n: nat)
    requires sel.tag.Some? && n == if sel.nth.Some? then sel.nth.value else 0
    ensures Resolve(Samples(sel, n + 1), Tagged(sel, n), sel).None?
    ensures Resolve(Samples(sel, n + 1), Tagged(sel, n + 1), sel) == Some(Sample(sel, n))
  {
    SamplesMatch(sel, n, n);
    FilteredSnoc(Samples(sel, n), Sample(sel, n), Tagged(sel, n), sel);
    SamplesMatch(sel, n + 1, n + 1);
  }

  /** Tagging emits no event, so with every selector that has a tag a waiter can block with a match and
      nothing in flight: having no tag is exactly what saves the others. */
  lemma {:induction false} BlockedOnTag(sel: Selector)
    requires sel.tag.Some?
    ensures exists windows, tags, steps ::
              && Legal(Initial(windows, tags), sel, steps)
              && var s := After(Initial(windows, tags), sel, steps);
                 s.client.Waiting? && Quiescent(s) && Resolve(s.windows, s.tags, sel).Some?
  {
    var n := if sel.nth.Some? then sel.nth.value else 0;
    LastSample(sel, n);
    var (windows, tags) := (Samples(sel, n + 1), Tagged(sel, n));
    Blocks(windows, tags, sel, n, [sel.tag.value]);
    var list := Listing(windows, 0, tags);
    var s := Quiet(windows, tags[n := [sel.tag.value]], Idle, [], Waiting(list));
    var steps :| Legal(Initial(windows, tags), sel, steps) && After(Initial(windows, tags), sel, steps) == s;
    assert tags[n := [sel.tag.value]] == Tagged(sel, n + 1);
    assert Quiescent(s);
  }
}
