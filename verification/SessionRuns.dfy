/** What whole runs say of one session: what came before it was inserted, what becomes of a create of a name that is
    taken, why its supervisor's wait ended, and what it leaves behind
    (crates/waymux-daemon/src/registry.rs, `create`, `destroy` and `session_supervisor`). */
module SessionRuns {
  import opened Lifecycle
  import opened SessionReuse

  // ----- a name that is taken

  /** Directories and tags are those of sessions there are. */
  predicate Known(s: State, n: Name)
  {
    (n in s.files ==> s.files[n] < |s.sessions|) && (n in s.tags ==> s.tags[n] < |s.sessions|)
  }

  lemma {:induction false} KnownStep(s: State, step: Step, n: Name)
    requires Known(s, n) && OwnedName(s, n) && Enabled(s, step)
    ensures Known(Do(s, step), n)
  {
    FilesStep(s, step, n);
    TagsStep(s, step, n);
    SessionsGrow(s, step);
  }

  ghost predicate Sound(s: State) { Inv(s) && OnlyOutKilled(s) && forall n :: Known(s, n) }

  lemma {:induction false} SoundStep(s: State, step: Step)
    requires Sound(s) && Enabled(s, step)
    ensures Sound(Do(s, step))
  {
    StepKeeps(s, step);
    OnlyOutKilledStep(s, step);
    forall n ensures Known(Do(s, step), n) {
      assert Known(s, n) && OwnedName(s, n);
      KnownStep(s, step, n);
    }
  }

  lemma {:induction false} AlwaysSound(s: State, steps: seq<Step>)
    requires Sound(s) && Legal(s, steps)
    ensures Sound(After(s, steps))
    decreases |steps|
  {
    if steps == [] {
    } else {
      SoundStep(s, steps[0]);
      AlwaysSound(Do(s, steps[0]), steps[1..]);
    }
  }

  lemma {:induction false} Reached(steps: seq<Step>)
    requires Legal(INITIAL, steps)
    ensures Sound(After(INITIAL, steps))
  {
    InitialInv();
    forall n ensures Known(INITIAL, n) {}
    AlwaysSound(INITIAL, steps);
  }

  /** The create call has returned an error and left no trace. */
  ghost predicate TurnedAway(s: State, i: nat, n: Name)
  {
    && i < |s.sessions| && s.sessions[i] == Session(n, Refused, Unborn, false)
    && forall m :: (m in s.files ==> s.files[m] != i) && (m in s.registry ==> s.registry[m] != i)
  }

  lemma {:induction false} TurnedAwayStep(s: State, step: Step, i: nat, n: Name)
    requires Sound(s) && TurnedAway(s, i, n) && Enabled(s, step)
    ensures TurnedAway(Do(s, step), i, n)
  {
    var s' := Do(s, step);
    SessionStep(s, step, i);
    if step.DestroyKill? { assert Out(s, s.destroyers[step.d].session); }
    forall m ensures (m in s'.files ==> s'.files[m] != i) && (m in s'.registry ==> s'.registry[m] != i) {
      FilesStep(s, step, m);
      MapStep(s, step, m);
    }
  }

  lemma {:induction false} StaysAway(s: State, more: seq<Step>, i: nat, n: Name)
    requires Sound(s) && TurnedAway(s, i, n) && Legal(s, more)
    ensures TurnedAway(After(s, more), i, n)
    decreases |more|
  {
    if more == [] {
    } else {
      SoundStep(s, more[0]);
      TurnedAwayStep(s, more[0], i, n);
      StaysAway(Do(s, more[0]), more[1..], i, n);
    }
  }

  /** A create begun while its name is in the map returns an error at once: in every continuation its session is
      refused, its child was never spawned, and the name's directory and entry are never its own. */
  lemma {:induction false} TakenNameRefused(steps: seq<Step>, n: Name, more: seq<Step>)
    requires Legal(INITIAL, steps) && n in After(INITIAL, steps).registry
    requires Legal(Do(After(INITIAL, steps), Begin(n)), more)
    ensures var s := After(INITIAL, steps);
            && TurnedAway(After(Do(s, Begin(n)), more), |s.sessions|, n)
            && Do(s, Begin(n)).files == s.files && Do(s, Begin(n)).registry == s.registry
  {
    var s := After(INITIAL, steps);
    var (s1, i) := (Do(s, Begin(n)), |s.sessions|);
    Reached(steps);
    SoundStep(s, Begin(n));
    forall m ensures (m in s1.files ==> s1.files[m] != i) && (m in s1.registry ==> s1.registry[m] != i) {
      assert Known(s, m) && OwnedName(s, m);
    }
    StaysAway(s1, more, i, n);
  }

  /** One begun while its name is free goes on. */
  lemma {:induction false} FreeNameProceeds(steps: seq<Step>, n: Name)
    requires Legal(INITIAL, steps) && n !in After(INITIAL, steps).registry
    ensures var s := After(INITIAL, steps); Enabled(Do(s, Begin(n)), Spawn(|s.sessions|))
  {
  }

  // ----- what came before

  predicate PastReady(s: State, i: nat)
  {
    i < |s.sessions| && (s.sessions[i].stage.Ready? || Is(s.sessions[i], Inserted))
  }

  predicate Started(s: State, i: nat) { PastReady(s, i) || At(s, i, Spawned) }

  lemma {:induction false} NewlyReady(s: State, step: Step, i: nat)
    requires Enabled(s, step)
    ensures PastReady(Do(s, step), i) && !PastReady(s, i) ==> step == Alone(i, BecomeReady)
    ensures Started(Do(s, step), i) && !Started(s, i) ==> step == Spawn(i)
  {
    SessionsGrow(s, step);
    if i < |s.sessions| {
      SessionStep(s, step, i);
    } else if i < |Do(s, step).sessions| {
      NewSession(s, step, i);
    }
  }

  lemma {:induction false} ReadyFrom(s: State, steps: seq<Step>, i: nat)
    requires Legal(s, steps) && PastReady(After(s, steps), i)
    ensures PastReady(s, i) || Alone(i, BecomeReady) in steps
    decreases |steps|
  {
    if steps == [] {
    } else {
      NewlyReady(s, steps[0], i);
      ReadyFrom(Do(s, steps[0]), steps[1..], i);
    }
  }

  lemma {:induction false} StartedFrom(s: State, steps: seq<Step>, i: nat)
    requires Legal(s, steps) && Started(After(s, steps), i)
    ensures Started(s, i) || Spawn(i) in steps
    decreases |steps|
  {
    if steps == [] {
    } else {
      NewlyReady(s, steps[0], i);
      StartedFrom(Do(s, steps[0]), steps[1..], i);
    }
  }

  /** Every session inserted had its child spawned and its ready signal received. */
  lemma {:induction false} InsertedWasReady(steps: seq<Step>, i: nat)
    requires Legal(INITIAL, steps) && i < |After(INITIAL, steps).sessions|
    requires Is(After(INITIAL, steps).sessions[i], Inserted)
    ensures Spawn(i) in steps && Alone(i, BecomeReady) in steps
  {
    ReadyFrom(INITIAL, steps, i);
    StartedFrom(INITIAL, steps, i);
  }

  // ----- why the wait ended

  /** As long as the child has not exited of its own accord. */
  predicate Unprompted(x: Session)
  {
    && (x.stage.Spawned? || x.stage.Ready? ==> x.child.Alive?)
    && (x.stage.Running? ==> x.child.Alive? || x.killed)
    && (Is(x, Inserted) && !x.stage.Running? ==> x.killed)
  }

  lemma {:induction false} UnpromptedStep(s: State, step: Step, i: nat)
    requires Enabled(s, step) && step != Alone(i, ChildExits) && i < |Do(s, step).sessions|
    requires i < |s.sessions| ==> Unprompted(s.sessions[i])
    ensures Unprompted(Do(s, step).sessions[i])
  {
    if i < |s.sessions| {
      SessionStep(s, step, i);
      UnpromptedNext(s, step, i);
    } else {
      NewSession(s, step, i);
    }
  }

  lemma {:induction false} UnpromptedNext(s: State, step: Step, i: nat)
    requires Enabled(s, step) && step != Alone(i, ChildExits) && i < |s.sessions| && Unprompted(s.sessions[i])
    ensures Unprompted(Next(s, step, i))
  {
  }

  lemma {:induction false} UnpromptedRun(s: State, steps: seq<Step>, i: nat)
    requires Legal(s, steps) && Alone(i, ChildExits) !in steps && (i < |s.sessions| ==> Unprompted(s.sessions[i]))
    ensures i < |After(s, steps).sessions| ==> Unprompted(After(s, steps).sessions[i])
    decreases |steps|
  {
    if steps == [] {
    } else {
      SessionsGrow(s, steps[0]);
      if i < |Do(s, steps[0]).sessions| { UnpromptedStep(s, steps[0], i); }
      UnpromptedRun(Do(s, steps[0]), steps[1..], i);
    }
  }

  /** No session is shut down unasked: a supervisor whose wait is over had its child exit of its own accord, or its
      kill channel used or dropped. */
  lemma {:induction false} NotShutDownUnasked(steps: seq<Step>, i: nat)
    requires Legal(INITIAL, steps) && i < |After(INITIAL, steps).sessions|
    requires var x := After(INITIAL, steps).sessions[i]; Is(x, Inserted) && !x.stage.Running?
    ensures Alone(i, ChildExits) in steps || After(INITIAL, steps).sessions[i].killed
  {
    if Alone(i, ChildExits) !in steps { UnpromptedRun(INITIAL, steps, i); }
  }

  // ----- what is left behind

  predicate Ended(x: Session) { x.stage.Cleaned? || x.stage.Done? }

  /** A directory or tags under a name are not those of a session that has been cleaned up. */
  predicate Alive(s: State, n: Name)
  {
    && (n in s.files ==> s.files[n] < |s.sessions| && s.sessions[s.files[n]].name == n
                         && !Ended(s.sessions[s.files[n]]))
    && (n in s.tags ==> s.tags[n] < |s.sessions| && s.sessions[s.tags[n]].name == n && !Ended(s.sessions[s.tags[n]]))
  }

  lemma {:induction false} EndedNext(s: State, step: Step, j: nat)
    requires Enabled(s, step) && j < |s.sessions| && !Ended(s.sessions[j]) && step != Cleanup(j)
    ensures !Ended(Next(s, step, j))
  {
  }

  lemma {:induction false} AliveStep(s: State, step: Step, n: Name)
    requires Alive(s, n) && OwnedName(s, n) && Enabled(s, step)
    ensures Alive(Do(s, step), n)
  {
    var s' := Do(s, step);
    FilesStep(s, step, n);
    TagsStep(s, step, n);
    if n in s'.files {
      SessionStep(s, step, s'.files[n]);
      NextKeeps(s, step, s'.files[n]);
      EndedNext(s, step, s'.files[n]);
    }
    if n in s'.tags {
      SessionStep(s, step, s'.tags[n]);
      NextKeeps(s, step, s'.tags[n]);
      EndedNext(s, step, s'.tags[n]);
    }
  }

  lemma {:induction false} AlwaysAlive(s: State, steps: seq<Step>, n: Name)
    requires Alive(s, n) && Inv(s) && Legal(s, steps)
    ensures Alive(After(s, steps), n)
    decreases |steps|
  {
    if steps == [] {
    } else {
      assert OwnedName(s, n);
      AliveStep(s, steps[0], n);
      StepKeeps(s, steps[0]);
      AlwaysAlive(Do(s, steps[0]), steps[1..], n);
    }
  }

  /** Once its supervisor has cleaned up, a session has neither a directory nor tags. */
  lemma {:induction false} LeavesNothing(steps: seq<Step>, i: nat)
    requires Legal(INITIAL, steps) && i < |After(INITIAL, steps).sessions| && Ended(After(INITIAL, steps).sessions[i])
    ensures var s := After(INITIAL, steps);
            forall n :: (n in s.files ==> s.files[n] != i) && (n in s.tags ==> s.tags[n] != i)
  {
    var s := After(INITIAL, steps);
    InitialInv();
    forall n ensures (n in s.files ==> s.files[n] != i) && (n in s.tags ==> s.tags[n] != i) {
      AlwaysAlive(INITIAL, steps, n);
    }
  }

  /** A threat to another session's tags is carried out by the destroy call's next step. */
  lemma {:induction false} ThreatCarriedOut(s: State, d: nat)
    requires Threatens(s, d)
    ensures Enabled(s, DestroyKill(d)) && s.destroyers[d].name !in Do(s, DestroyKill(d)).tags
  {
    TagsStep(s, DestroyKill(d), s.destroyers[d].name);
  }
}
