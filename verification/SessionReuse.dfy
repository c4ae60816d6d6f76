/** What is kept under a session's name, its directory of sockets and its windows' tags, and when a later session
    of that name keeps its own: the supervisor and destroy remove both by name
    (crates/waymux-daemon/src/registry.rs, `create`, `destroy` and `session_supervisor`). */
module SessionReuse {
  import opened Lifecycle

  /** From making its directory to the supervisor's cleanup. */
  predicate Live(x: Session)
  {
    x.stage.Spawned? || x.stage.Ready? || x.stage.Running? || x.stage.Exited? || x.stage.Owing? || x.stage.Cleaning?
  }

  predicate HasFiles(s: State, i: nat)
  {
    i < |s.sessions| && s.sessions[i].name in s.files && s.files[s.sessions[i].name] == i
  }

  /** A session runs without its sockets. */
  predicate Lost(s: State, i: nat) { At(s, i, Running) && !HasFiles(s, i) }

  /** A destroy call is about to remove the tags of a session that it did not destroy. */
  predicate Threatens(s: State, d: nat)
  {
    && In(s, d, StopEmitted)
    && s.destroyers[d].name in s.tags && s.tags[s.destroyers[d].name] != s.destroyers[d].session
  }

  ghost predicate Harm(s: State) { (exists i :: Lost(s, i)) || (exists d :: Threatens(s, d)) }

  predicate OtherLive(s: State, i: nat, j: nat)
  {
    i < |s.sessions| && j < |s.sessions| && j != i && s.sessions[j].name == s.sessions[i].name && Live(s.sessions[j])
  }

  predicate Destroying(s: State, i: nat, d: nat)
  {
    && i < |s.sessions| && d < |s.destroyers|
    && s.destroyers[d].name == s.sessions[i].name && !s.destroyers[d].phase.KillSent?
  }

  /** The step starts a session under a name at which another is live or a destroy call under way. */
  ghost predicate Crowds(s: State, step: Step)
  {
    && step.Spawn? && At(s, step.i, Checked)
    && ((exists j :: OtherLive(s, step.i, j)) || (exists d :: Destroying(s, step.i, d)))
  }

  ghost predicate NeverCrowds(s: State, steps: seq<Step>)
    requires Legal(s, steps)
    decreases |steps|
  {
    steps == [] || (!Crowds(s, steps[0]) && NeverCrowds(Do(s, steps[0]), steps[1..]))
  }

  // ----- without crowding

  ghost predicate OneLive(s: State)
  {
    forall i, j :: 0 <= i < j < |s.sessions| && Live(s.sessions[i]) && Live(s.sessions[j])
                   ==> s.sessions[i].name != s.sessions[j].name
  }

  ghost predicate AllHaveFiles(s: State)
  {
    forall i :: 0 <= i < |s.sessions| && Live(s.sessions[i]) ==> HasFiles(s, i)
  }

  /** While a destroy call is under way, only its session is live under its name. */
  ghost predicate DestroyersAlone(s: State)
  {
    forall d: nat, i: nat :: i < |s.sessions| && Live(s.sessions[i]) && Destroying(s, i, d) ==>
      i == s.destroyers[d].session
  }

  /** Tags are those of a live session of their name. */
  predicate TagsOf(s: State, n: Name)
  {
    n in s.tags ==> && s.tags[n] < |s.sessions| && s.sessions[s.tags[n]].name == n
                    && Live(s.sessions[s.tags[n]]) && Is(s.sessions[s.tags[n]], Inserted)
  }

  ghost predicate Orderly(s: State)
  {
    OneLive(s) && AllHaveFiles(s) && DestroyersAlone(s) && forall n :: TagsOf(s, n)
  }

  lemma {:induction false} FilesUntouched(s: State, step: Step, n: Name)
    requires Enabled(s, step) && !step.Spawn? && !step.Cleanup?
    ensures (n in Do(s, step).files <==> n in s.files) && (n in s.files ==> Do(s, step).files[n] == s.files[n])
  {
    match step
    case Begin(_) =>
    case Alone(_, _) =>
    case Insert(_) =>
    case Remove(_) =>
    case EmitStop(_) =>
    case EmitDestroyed(_) =>
    case Destroy(_) =>
    case DestroyStop(_) =>
    case DestroyKill(_) =>
    case Tag(_) =>
  }

  lemma {:induction false} TagsUntouched(s: State, step: Step, n: Name)
    requires Enabled(s, step) && !step.Tag? && !step.Cleanup? && !step.DestroyKill?
    ensures (n in Do(s, step).tags <==> n in s.tags) && (n in s.tags ==> Do(s, step).tags[n] == s.tags[n])
  {
    match step
    case Begin(_) =>
    case Spawn(_) =>
    case Alone(_, _) =>
    case Insert(_) =>
    case Remove(_) =>
    case EmitStop(_) =>
    case EmitDestroyed(_) =>
    case Destroy(_) =>
    case DestroyStop(_) =>
  }

  lemma {:induction false} FilesStep(s: State, step: Step, n: Name)
    requires Enabled(s, step)
    ensures var (m, m') := (s.files, Do(s, step).files);
            if step.Spawn? && n == s.sessions[step.i].name then n in m' && m'[n] == step.i
            else if step.Cleanup? && n == s.sessions[step.i].name then n !in m'
            else (n in m' <==> n in m) && (n in m ==> m'[n] == m[n])
  {
    if !step.Spawn? && !step.Cleanup? { FilesUntouched(s, step, n); }
  }

  lemma {:induction false} TagsStep(s: State, step: Step, n: Name)
    requires Enabled(s, step)
    ensures var (m, m') := (s.tags, Do(s, step).tags);
            if step == Tag(n) then n in m' && m'[n] == s.registry[n]
            else if (step.Cleanup? && n == s.sessions[step.i].name)
                    || (step.DestroyKill? && n == s.destroyers[step.d].name) then n !in m'
            else (n in m' <==> n in m) && (n in m ==> m'[n] == m[n])
  {
    if !step.Tag? && !step.Cleanup? && !step.DestroyKill? { TagsUntouched(s, step, n); }
  }

  /** Only Spawn makes a session live, and an inserted one stays live until its cleanup. */
  lemma {:induction false} LiveNext(s: State, step: Step, i: nat)
    requires Enabled(s, step) && i < |s.sessions|
    ensures Live(Next(s, step, i)) && !Live(s.sessions[i]) ==> step == Spawn(i)
    ensures Live(s.sessions[i]) && Is(s.sessions[i], Inserted) && step != Cleanup(i) ==> Live(Next(s, step, i))
  {
  }

  /** A session live after a step was live before, or has just been started. */
  lemma {:induction false} LiveStep(s: State, step: Step, i: nat)
    requires Enabled(s, step) && i < |Do(s, step).sessions| && Live(Do(s, step).sessions[i])
    ensures i < |s.sessions| && Do(s, step).sessions[i].name == s.sessions[i].name
    ensures Live(s.sessions[i]) || step == Spawn(i)
    ensures step != Cleanup(i)
  {
    if i < |s.sessions| {
      SessionStep(s, step, i);
      NextKeeps(s, step, i);
      LiveNext(s, step, i);
    } else {
      NewSession(s, step, i);
    }
  }

  lemma {:induction false} OneLiveStep(s: State, step: Step)
    requires OneLive(s) && Enabled(s, step) && !Crowds(s, step)
    ensures OneLive(Do(s, step))
  {
    var s' := Do(s, step);
    forall i, j | 0 <= i < j < |s'.sessions| && Live(s'.sessions[i]) && Live(s'.sessions[j])
      ensures s'.sessions[i].name != s'.sessions[j].name
    {
      LiveStep(s, step, i);
      LiveStep(s, step, j);
      if step == Spawn(i) { assert !OtherLive(s, i, j); }
      if step == Spawn(j) { assert !OtherLive(s, j, i); }
    }
  }

  lemma {:induction false} FilesKept(s: State, step: Step, i: nat)
    requires OneLive(s) && AllHaveFiles(s) && Enabled(s, step) && !Crowds(s, step)
    requires i < |Do(s, step).sessions| && Live(Do(s, step).sessions[i])
    ensures HasFiles(Do(s, step), i)
  {
    LiveStep(s, step, i);
    FilesStep(s, step, s.sessions[i].name);
    if step != Spawn(i) {
      assert HasFiles(s, i);
      if step.Spawn? { assert !OtherLive(s, step.i, i); }
      if step.Cleanup? { assert Live(s.sessions[step.i]); }
    }
  }

  lemma {:induction false} DestroyersStay(s: State, step: Step, d: nat, i: nat)
    requires OneLive(s) && DestroyersAlone(s) && (forall n :: OwnedName(s, n)) && Enabled(s, step) && !Crowds(s, step)
    requires i < |Do(s, step).sessions| && Live(Do(s, step).sessions[i]) && Destroying(Do(s, step), i, d)
    ensures i == Do(s, step).destroyers[d].session
  {
    LiveStep(s, step, i);
    DestroyersStep(s, step, d);
    if d < |s.destroyers| {
      assert Destroying(s, i, d);
    } else {
      assert OwnedName(s, step.name);
    }
  }

  lemma {:induction false} TagsStay(s: State, step: Step, n: Name)
    requires TagsOf(s, n) && OwnedName(s, n) && Enabled(s, step)
    ensures TagsOf(Do(s, step), n)
  {
    var s' := Do(s, step);
    TagsStep(s, step, n);
    if n in s'.tags {
      var j := s'.tags[n];
      SessionStep(s, step, j);
      NextKeeps(s, step, j);
      LiveNext(s, step, j);
      InsertedStays(s, step, j);
    }
  }

  lemma {:induction false} OrderlyStep(s: State, step: Step)
    requires Orderly(s) && Inv(s) && Enabled(s, step) && !Crowds(s, step)
    ensures Orderly(Do(s, step))
  {
    var s' := Do(s, step);
    OneLiveStep(s, step);
    forall i | 0 <= i < |s'.sessions| && Live(s'.sessions[i]) ensures HasFiles(s', i) { FilesKept(s, step, i); }
    forall d: nat, i: nat | i < |s'.sessions| && Live(s'.sessions[i]) && Destroying(s', i, d)
      ensures i == s'.destroyers[d].session
    {
      DestroyersStay(s, step, d, i);
    }
    forall n ensures TagsOf(s', n) {
      assert TagsOf(s, n) && OwnedName(s, n);
      TagsStay(s, step, n);
    }
  }

  lemma {:induction false} AlwaysOrderly(s: State, steps: seq<Step>)
    requires Orderly(s) && Inv(s) && Legal(s, steps) && NeverCrowds(s, steps)
    ensures Orderly(After(s, steps))
    decreases |steps|
  {
    if steps == [] {
    } else {
      StepKeeps(s, steps[0]);
      OrderlyStep(s, steps[0]);
      AlwaysOrderly(Do(s, steps[0]), steps[1..]);
    }
  }

  /** If no session is started under a name at which another is live or a destroy call under way, every running
      session has its sockets, and no destroy call removes the tags of another session. */
  lemma {:induction false} ReuseIsSafe(steps: seq<Step>)
    requires Legal(INITIAL, steps) && NeverCrowds(INITIAL, steps)
    ensures !Harm(After(INITIAL, steps))
  {
    var s := After(INITIAL, steps);
    InitialInv();
    forall n ensures TagsOf(INITIAL, n) {}
    AlwaysOrderly(INITIAL, steps);
    forall d: nat ensures !Threatens(s, d) {
      if d < |s.destroyers| {
        var n := s.destroyers[d].name;
        assert TagsOf(s, n);
        if n in s.tags { assert !Destroying(s, s.tags[n], d) || s.tags[n] == s.destroyers[d].session; }
      }
    }
  }

  // ----- with crowding

  ghost predicate LeadsToHarm(s: State) { exists more :: Legal(s, more) && Harm(After(s, more)) }

  lemma {:induction false} HarmNow(s: State, i: nat)
    requires Lost(s, i)
    ensures LeadsToHarm(s)
  {
    assert Legal(s, []) && Harm(After(s, []));
  }

  lemma {:induction false} HarmAfter(s: State, step: Step)
    requires Enabled(s, step) && LeadsToHarm(Do(s, step))
    ensures LeadsToHarm(s)
  {
    var more :| Legal(Do(s, step), more) && Harm(After(Do(s, step), more));
    Then(s, step, more);
  }

  /** A started session whose name is free, and whose directory is another's or none, gets to run without. */
  lemma {:induction false} RunsWithout(s: State, j: nat)
    requires j < |s.sessions| && (s.sessions[j].stage.Spawned? || s.sessions[j].stage.Ready?)
    requires s.sessions[j].name !in s.registry && !HasFiles(s, j)
    ensures LeadsToHarm(s)
  {
    if s.sessions[j].stage.Ready? {
      HarmNow(Do(s, Insert(j)), j);
      HarmAfter(s, Insert(j));
    } else {
      var s1 := Do(s, Alone(j, BecomeReady));
      HarmNow(Do(s1, Insert(j)), j);
      HarmAfter(s1, Insert(j));
      HarmAfter(s, Alone(j, BecomeReady));
    }
  }

  /** The supervisor of j goes on to its cleanup, which takes the directory of i away. */
  lemma {:induction false} WipedBy(s: State, j: nat, i: nat)
    requires i < |s.sessions| && j < |s.sessions| && i != j && s.sessions[i].name == s.sessions[j].name
    requires s.sessions[i].stage.Spawned?
    requires s.sessions[j].stage.Exited?
             || ((s.sessions[j].stage.Owing? || s.sessions[j].stage.Cleaning?) && s.sessions[i].name !in s.registry)
    ensures LeadsToHarm(s)
    decreases s.sessions[j].stage.Exited?, s.sessions[j].stage.Owing?
  {
    var stage := s.sessions[j].stage;
    var step := if stage.Exited? then Remove(j) else if stage.Owing? then EmitStop(j) else Cleanup(j);
    SessionStep(s, step, i);
    SessionStep(s, step, j);
    MapStep(s, step, s.sessions[i].name);
    if step.Cleanup? {
      FilesStep(s, step, s.sessions[i].name);
      RunsWithout(Do(s, step), i);
    } else {
      WipedBy(Do(s, step), j, i);
    }
    HarmAfter(s, step);
  }

  /** The destroy call comes to threaten the tags of i once it is in the map and tagged. */
  lemma {:induction false} ThreatenedBy(s: State, d: nat, i: nat)
    requires At(s, i, Spawned) && Destroying(s, i, d) && s.destroyers[d].session != i
          && s.sessions[i].name !in s.registry
    ensures LeadsToHarm(s)
  {
    var n := s.sessions[i].name;
    var s1 := Do(s, Alone(i, BecomeReady));
    var s2 := Do(s1, Insert(i));
    var s3 := Do(s2, Tag(n));
    if s.destroyers[d].phase.Removed? {
      var s4 := Do(s3, DestroyStop(d));
      assert Threatens(s4, d);
      assert Legal(s4, []) && Harm(After(s4, []));
      HarmAfter(s3, DestroyStop(d));
    } else {
      assert Threatens(s3, d);
      assert Legal(s3, []) && Harm(After(s3, []));
    }
    HarmAfter(s2, Tag(n));
    HarmAfter(s1, Insert(i));
    HarmAfter(s, Alone(i, BecomeReady));
  }

  /** Another session of the name is pending. */
  predicate OtherPending(s: State, i: nat, j: nat) { OtherLive(s, i, j) && Pending(s.sessions[j]) }

  lemma {:induction false} NameTaken(s: State, i: nat)
    requires (forall n :: OwnedName(s, n)) && At(s, i, Spawned) && s.sessions[i].name in s.registry
    ensures OtherPending(s, i, s.registry[s.sessions[i].name])
  {
    assert OwnedName(s, s.sessions[i].name);
  }

  lemma {:induction false} CrowdedHarm(s: State, i: nat)
    requires Inv(s) && OnlyOutKilled(s) && At(s, i, Spawned) && HasFiles(s, i)
    requires (exists j :: OtherLive(s, i, j)) || (exists d :: Destroying(s, i, d))
    ensures LeadsToHarm(s)
  {
    if j: nat :| OtherPending(s, i, j) {
      if s.sessions[j].stage.Running? { HarmNow(s, j); } else { WipedBy(s, j, i); }
    } else {
      if s.sessions[i].name in s.registry { NameTaken(s, i); }
      if j: nat :| OtherLive(s, i, j) {
        assert !OtherPending(s, i, j);
        if s.sessions[j].stage.Owing? || s.sessions[j].stage.Cleaning? { WipedBy(s, j, i); } else { RunsWithout(s, j); }
      } else {
        var d: nat :| Destroying(s, i, d);
        assert Out(s, s.destroyers[d].session);
        ThreatenedBy(s, d, i);
      }
    }
  }

  /** So the condition is exact: every run that starts a session so extends to one in which a session runs
      without its sockets, or a destroy call is about to remove another's tags. */
  lemma {:induction false} CrowdingIsUnsafe(steps: seq<Step>, i: nat)
    requires Legal(INITIAL, steps) && Crowds(After(INITIAL, steps), Spawn(i))
    ensures exists more :: Legal(INITIAL, steps + ([Spawn(i)] + more))
                           && Harm(After(INITIAL, steps + ([Spawn(i)] + more)))
  {
    var s := After(INITIAL, steps);
    var s' := Do(s, Spawn(i));
    InitialInv();
    Always(INITIAL, steps);
    AlwaysOnlyOutKilled(INITIAL, steps);
    StepKeeps(s, Spawn(i));
    OnlyOutKilledStep(s, Spawn(i));
    StillCrowded(s, i);
    CrowdedHarm(s', i);
    var more :| Legal(s', more) && Harm(After(s', more));
    Then(s, Spawn(i), more);
    Append(INITIAL, steps, [Spawn(i)] + more);
  }

  lemma {:induction false} StillCrowded(s: State, i: nat)
    requires Crowds(s, Spawn(i))
    ensures var s' := Do(s, Spawn(i));
            (exists j :: OtherLive(s', i, j)) || (exists d :: Destroying(s', i, d))
  {
    var s' := Do(s, Spawn(i));
    if j: nat :| OtherLive(s, i, j) {
      assert OtherLive(s', i, j);
    } else {
      var d: nat :| Destroying(s, i, d);
      assert Destroying(s', i, d);
    }
  }

  /** Two creates of one name that both found it free: starting the second crowds the first. */
  lemma {:induction false} RacingCreatesCrowd()
    ensures var steps := [Begin(0), Begin(0), Spawn(0)];
            Legal(INITIAL, steps) && Crowds(After(INITIAL, steps), Spawn(1))
  {
    var s1 := Do(INITIAL, Begin(0));
    var s2 := Do(s1, Begin(0));
    var s3 := Do(s2, Spawn(0));
    Then(s2, Spawn(0), []);
    Then(s1, Begin(0), [Spawn(0)]);
    Then(INITIAL, Begin(0), [Begin(0), Spawn(0)]);
    assert OtherLive(s3, 1, 0);
  }
}
