/** What a wait finds and how often it asks, over whole runs (crates/waymux-cli/src/main.rs, `wait_for_window`). */
module WaitResult {
  import opened Bytes
  import opened Wait

  // ----- the selector

  /** The window has the application id, the title, the process and the tag asked for, as far as they are. */
  predicate Wanted(w: Window, tags: Tags, sel: Selector)
  {
    && (sel.appId == None || sel.appId == Some(w.appId))
    && (sel.title == None || sel.title == Some(w.title))
    && (sel.pid == None || sel.pid == Some(w.pid))
    && (sel.tag == None || (w.id in tags && sel.tag.value in tags[w.id]))
  }

  function CountWanted(ws: seq<Window>, tags: Tags, sel: Selector): (n: nat)
  {
    if ws == [] then 0 else (if Wanted(ws[0], tags, sel) then 1 else 0) + CountWanted(ws[1..], tags, sel)
  }

  /** How many wanted windows to pass over. */
  function Skip(sel: Selector): (n: nat) { match sel.nth case None => 0 case Some(n) => n }

  /** The window at j is wanted, and exactly as many before it as are to be passed over. */
  predicate Picks(ws: seq<Window>, tags: Tags, sel: Selector, j: nat)
  {
    j < |ws| && Wanted(ws[j], tags, sel) && CountWanted(ws[..j], tags, sel) == Skip(sel)
  }

  lemma {:induction false} FilteredLength(ws: seq<Window>, tags: Tags, sel: Selector)
    ensures |Filtered(ws, tags, sel)| == CountWanted(ws, tags, sel)
  {
    if ws == [] {
    } else {
      FilteredLength(ws[1..], tags, sel);
    }
  }

  lemma {:induction false} FilteredAt(ws: seq<Window>, tags: Tags, sel: Selector, n: nat) returns (j: nat)
    requires n < |Filtered(ws, tags, sel)|
    ensures j < |ws| && Filtered(ws, tags, sel)[n] == ws[j]
    ensures Wanted(ws[j], tags, sel) && CountWanted(ws[..j], tags, sel) == n
  {
    if Matches(ws[0], tags, sel) && n == 0 {
      j := 0;
    } else {
      var m := if Matches(ws[0], tags, sel) then n - 1 else n;
      var k := FilteredAt(ws[1..], tags, sel, m);
      j := k + 1;
      assert ws[..j][0] == ws[0] && ws[..j][1..] == ws[1..][..k];
    }
  }

  /** The window picked, or none exactly if there are too few. */
  lemma {:induction false} ResolvePicks(ws: seq<Window>, tags: Tags, sel: Selector)
    ensures Resolve(ws, tags, sel).None? <==> CountWanted(ws, tags, sel) <= Skip(sel)
    ensures Resolve(ws, tags, sel).Some? ==>
              exists j: nat :: Picks(ws, tags, sel, j) && Resolve(ws, tags, sel) == Some(ws[j])
  {
    FilteredLength(ws, tags, sel);
    if Resolve(ws, tags, sel).Some? {
      var j := FilteredAt(ws, tags, sel, Skip(sel));
      assert Picks(ws, tags, sel, j);
    }
  }

  // ----- the lists

  lemma {:induction false} Snoc(s: State, sel: Selector, steps: seq<Step>)
    requires steps != [] && Legal(s, sel, steps)
    ensures var (front, last) := (steps[..|steps| - 1], steps[|steps| - 1]);
            && Legal(s, sel, front) && Enabled(After(s, sel, front), last)
            && After(s, sel, steps) == Do(After(s, sel, front), sel, last)
    decreases |steps|
  {
    if |steps| == 1 {
    } else {
      var rest := steps[1..];
      Snoc(Do(s, sel, steps[0]), sel, rest);
      assert steps[..|steps| - 1][1..] == rest[..|rest| - 1];
    }
  }

  /** The session had these windows at some moment of the run. */
  ghost predicate Had(s: State, sel: Selector, steps: seq<Step>, windows: seq<Window>)
  {
    exists k :: 0 <= k <= |steps| && Legal(s, sel, steps[..k]) && After(s, sel, steps[..k]).windows == windows
  }

  /** The daemon had these tags at some moment of the run. */
  ghost predicate Kept(s: State, sel: Selector, steps: seq<Step>, tags: Tags)
  {
    exists k :: 0 <= k <= |steps| && Legal(s, sel, steps[..k]) && After(s, sel, steps[..k]).tags == tags
  }

  ghost predicate Genuine(s: State, sel: Selector, steps: seq<Step>, list: Listing)
  {
    Had(s, sel, steps, list.windows) && Kept(s, sel, steps, list.tags)
  }

  lemma {:induction false} Now(s: State, sel: Selector, steps: seq<Step>)
    requires Legal(s, sel, steps)
    ensures Had(s, sel, steps, After(s, sel, steps).windows) && Kept(s, sel, steps, After(s, sel, steps).tags)
  {
    assert steps[..|steps|] == steps;
  }

  lemma {:induction false} Earlier(s: State, sel: Selector, steps: seq<Step>, windows: seq<Window>, tags: Tags)
    requires steps != []
    ensures Had(s, sel, steps[..|steps| - 1], windows) ==> Had(s, sel, steps, windows)
    ensures Kept(s, sel, steps[..|steps| - 1], tags) ==> Kept(s, sel, steps, tags)
  {
    var front := steps[..|steps| - 1];
    assert forall k :: 0 <= k <= |front| ==> front[..k] == steps[..k];
  }

  /** Every list on its way, held or found in, is genuine. */
  ghost predicate AllGenuine(s0: State, sel: Selector, steps: seq<Step>, s: State)
  {
    && (s.server.Captured? ==> Had(s0, sel, steps, s.server.windows))
    && (forall i :: 0 <= i < |s.wire| && s.wire[i].Reply? ==> Genuine(s0, sel, steps, s.wire[i].list))
    && (s.client.Waiting? ==> Genuine(s0, sel, steps, s.client.list))
    && (s.client.Found? ==>
          exists list, j: nat ::
            && Genuine(s0, sel, steps, list) && Picks(list.windows, list.tags, sel, j)
            && list.windows[j] == s.client.window)
  }

  lemma {:induction false} GenuineLater(s0: State, sel: Selector, steps: seq<Step>, s: State)
    requires steps != [] && AllGenuine(s0, sel, steps[..|steps| - 1], s)
    ensures AllGenuine(s0, sel, steps, s)
  {
    var front := steps[..|steps| - 1];
    forall list | Genuine(s0, sel, front, list) ensures Genuine(s0, sel, steps, list) {
      Earlier(s0, sel, steps, list.windows, list.tags);
    }
    if s.server.Captured? { Earlier(s0, sel, steps, s.server.windows, map[]); }
  }

  lemma {:induction false} GenuineReply(s0: State, sel: Selector, steps: seq<Step>, s: State)
    requires AllGenuine(s0, sel, steps, s) && s.client.Asking? && Enabled(s, Read) && s.wire[0].Reply?
    ensures AllGenuine(s0, sel, steps, Do(s, sel, Read))
  {
    var (list, s') := (s.wire[0].list, Do(s, sel, Read));
    assert Genuine(s0, sel, steps, list);
    ResolvePicks(list.windows, list.tags, sel);
    if s'.client.Found? {
      var j: nat :| Picks(list.windows, list.tags, sel, j)
                    && Resolve(list.windows, list.tags, sel) == Some(list.windows[j]);
      assert list.windows[j] == s'.client.window;
    }
  }

  /** A frame on the wire after a step was there before, or is the reply just sent. */
  lemma {:induction false} WireStep(s: State, sel: Selector, step: Step, i: nat)
    requires Enabled(s, step) && i < |Do(s, sel, step).wire| && Do(s, sel, step).wire[i].Reply?
    ensures var f := Do(s, sel, step).wire[i];
            || f in s.wire
            || (s.server.Captured? && f == Reply(Listing(s.server.windows, s.server.version, s.tags)))
  {
  }

  lemma {:induction false} GenuineStep(s0: State, sel: Selector, steps: seq<Step>, s: State, step: Step)
    requires AllGenuine(s0, sel, steps, s) && Enabled(s, step)
    requires Had(s0, sel, steps, s.windows) && Kept(s0, sel, steps, s.tags)
    ensures AllGenuine(s0, sel, steps, Do(s, sel, step))
  {
    var s' := Do(s, sel, step);
    if step.Read? && s.client.Asking? && s.wire[0].Reply? {
      GenuineReply(s0, sel, steps, s);
    } else {
      forall i | 0 <= i < |s'.wire| && s'.wire[i].Reply? ensures Genuine(s0, sel, steps, s'.wire[i].list) {
        WireStep(s, sel, step, i);
      }
    }
  }

  lemma {:induction false} AlwaysGenuine(s0: State, sel: Selector, steps: seq<Step>)
    requires Legal(s0, sel, steps) && s0.client.Start? && s0.server.Idle? && s0.wire == []
    ensures AllGenuine(s0, sel, steps, After(s0, sel, steps))
  {
    if steps == [] {
    } else {
      var front := steps[..|steps| - 1];
      Snoc(s0, sel, steps);
      AlwaysGenuine(s0, sel, front);
      Now(s0, sel, front);
      GenuineStep(s0, sel, front, After(s0, sel, front), steps[|steps| - 1]);
      GenuineLater(s0, sel, steps, After(s0, sel, steps));
    }
  }

  /** The window a wait ends with was in a list of windows that the session had and tags that the daemon had; it has
      the application id, title, process and tag asked for, and exactly as many wanted windows come before it as are to
      be passed over. */
  lemma {:induction false} FoundIsWanted(windows: seq<Window>, tags: Tags, sel: Selector, steps: seq<Step>)
    requires Legal(Initial(windows, tags), sel, steps) && After(Initial(windows, tags), sel, steps).client.Found?
    ensures var s0 := Initial(windows, tags);
            var w := After(s0, sel, steps).client.window;
            && (sel.appId.Some? ==> w.appId == sel.appId.value)
            && (sel.title.Some? ==> w.title == sel.title.value)
            && (sel.pid.Some? ==> w.pid == sel.pid.value)
            && exists list, j: nat ::
                 && Genuine(s0, sel, steps, list) && j < |list.windows| && list.windows[j] == w
                 && (sel.tag.Some? ==> w.id in list.tags && sel.tag.value in list.tags[w.id])
                 && CountWanted(list.windows[..j], list.tags, sel) == if sel.nth.Some? then sel.nth.value else 0
  {
    var s0 := Initial(windows, tags);
    AlwaysGenuine(s0, sel, steps);
    var s := After(s0, sel, steps);
    var list, j: nat :| Genuine(s0, sel, steps, list) && Picks(list.windows, list.tags, sel, j)
                        && list.windows[j] == s.client.window;
    assert CountWanted(list.windows[..j], list.tags, sel) == Skip(sel);
  }

  /** It goes on waiting only if there are too few in its latest list, which is genuine too. */
  lemma {:induction false} WaitsOnlyForMore(windows: seq<Window>, tags: Tags, sel: Selector, steps: seq<Step>)
    requires Legal(Initial(windows, tags), sel, steps) && After(Initial(windows, tags), sel, steps).client.Waiting?
    ensures var s0 := Initial(windows, tags);
            var list := After(s0, sel, steps).client.list;
            && Genuine(s0, sel, steps, list)
            && CountWanted(list.windows, list.tags, sel) <= if sel.nth.Some? then sel.nth.value else 0
  {
    var s0 := Initial(windows, tags);
    AlwaysGenuine(s0, sel, steps);
    Always(s0, sel, steps);
    var list := After(s0, sel, steps).client.list;
    ResolvePicks(list.windows, list.tags, sel);
  }

  /** So with nothing in flight, and no tag to look for, too few of the session's present windows are wanted. */
  lemma {:induction false} NoMatchMissed(windows: seq<Window>, tags: Tags, sel: Selector, steps: seq<Step>)
    requires Legal(Initial(windows, tags), sel, steps) && sel.tag.None?
    ensures var s := After(Initial(windows, tags), sel, steps);
            s.client.Waiting? && Quiescent(s)
            ==> CountWanted(s.windows, s.tags, sel) <= if sel.nth.Some? then sel.nth.value else 0
  {
    NeverBlockedStale(windows, tags, sel, steps);
    var s := After(Initial(windows, tags), sel, steps);
    ResolvePicks(s.windows, s.tags, sel);
  }

  // ----- how often it asks

  function EventsIn(frames: seq<Frame>): (n: nat)
  {
    if frames == [] then 0 else (if frames[0].Event? then 1 else 0) + EventsIn(frames[1..])
  }

  lemma {:induction false} EventsSnoc(frames: seq<Frame>, f: Frame)
    ensures EventsIn(frames + [f]) == EventsIn(frames) + if f.Event? then 1 else 0
  {
    if frames == [] {
      assert frames + [f] == [f] && [f][1..] == [];
    } else {
      assert (frames + [f])[0] == frames[0] && (frames + [f])[1..] == frames[1..] + [f];
      EventsSnoc(frames[1..], f);
    }
  }

  /** Lists still to be taken for what has happened so far. */
  function Due(s: State): (n: nat)
  {
    EventsIn(s.pending) + EventsIn(s.wire) + (if s.server.ListAsked? then 1 else 0)
    + if s.client.Start? || s.client.Subscribing? then 1 else 0
  }

  function Captures(steps: seq<Step>): (n: nat)
  {
    if steps == [] then 0 else (if steps[0].Capture? then 1 else 0) + Captures(steps[1..])
  }

  function Forwards(steps: seq<Step>): (n: nat)
  {
    if steps == [] then 0 else (if steps[0].Forward? then 1 else 0) + Forwards(steps[1..])
  }

  lemma {:induction false} DueSent(s: State, sel: Selector, step: Step)
    requires Inv(s, sel) && Enabled(s, step)
    requires step.Forward? || step.ForwardNoise? || step.SendAck? || step.SendReply?
    ensures Due(Do(s, sel, step)) == Due(s) + if step.Forward? then 1 else 0
  {
    EventsSnoc(s.wire, Do(s, sel, step).wire[|s.wire|]);
  }

  lemma {:induction false} DueRead(s: State, sel: Selector)
    requires Inv(s, sel) && Enabled(s, Read)
    ensures Due(Do(s, sel, Read)) == Due(s)
  {
    if s.wire != [] { EventsSnoc(s.pending, s.wire[0]); }
  }

  lemma {:induction false} DueStep(s: State, sel: Selector, step: Step)
    requires Inv(s, sel) && Enabled(s, step)
    ensures Due(Do(s, sel, step)) + (if step.Capture? then 1 else 0) == Due(s) + if step.Forward? then 1 else 0
  {
    match step
    case Forward => DueSent(s, sel, step);
    case ForwardNoise => DueSent(s, sel, step);
    case SendAck => DueSent(s, sel, step);
    case SendReply => DueSent(s, sel, step);
    case Read => DueRead(s, sel);
    case _ =>
  }

  lemma {:induction false} DueRun(s: State, sel: Selector, steps: seq<Step>)
    requires Inv(s, sel) && Legal(s, sel, steps)
    ensures Captures(steps) + Due(After(s, sel, steps)) == Due(s) + Forwards(steps)
    decreases |steps|
  {
    if steps == [] {
    } else {
      DueStep(s, sel, steps[0]);
      StepKeeps(s, sel, steps[0]);
      DueRun(Do(s, sel, steps[0]), sel, steps[1..]);
    }
  }

  /** The session is asked for its windows once, and once more for each of its events that the waiter has taken: not
      for other events. */
  lemma {:induction false} ListsCounted(windows: seq<Window>, tags: Tags, sel: Selector, steps: seq<Step>)
    requires Legal(Initial(windows, tags), sel, steps)
    ensures var s := After(Initial(windows, tags), sel, steps);
            Captures(steps) + EventsIn(s.pending) + EventsIn(s.wire) + (if s.server.ListAsked? then 1 else 0)
            + (if s.client.Start? || s.client.Subscribing? then 1 else 0) == 1 + Forwards(steps)
  {
    DueRun(Initial(windows, tags), sel, steps);
  }
}
