/** Sessions as a concurrent protocol: any number of creates and destroys, and one supervisor per inserted
    session, take turns at the map of sessions; the supervisor removes its session's entry by name
    (crates/waymux-daemon/src/registry.rs, `create`, `destroy` and `session_supervisor`). */
module Lifecycle {

  type Name = nat

  /** Where a create call, and later the supervisor it leaves behind, stands. */
  datatype Stage =
    | Checked     // the name was free at the first look
    | Spawned     // the child runs, its ready signal is awaited
    | Ready       // the ready signal came
    | Refused     // the call returned an error
    | Running     // inserted; the supervisor waits for the child's exit or for a kill
    | Exited      // the wait is over
    | Owing       // its removal took an entry out; a usage stop is still to be emitted
    | Cleaning    // its session's directory and tags are still to be removed, by name
    | Cleaned     // only the SessionDestroyed event is left
    | Done

  datatype Child = Unborn | Alive | Dead

  /** One create call. `killed` says that the kill channel of its entry was used or dropped: the supervisor's
      wait on it ends either way. */
  datatype Session = Session(name: Name, stage: Stage, child: Child, killed: bool)

  datatype Phase = Removed | StopEmitted | KillSent

  /** One destroy call that found an entry: the session whose entry it took. */
  datatype Destroyer = Destroyer(session: nat, name: Name, phase: Phase)

  datatype State = State(
    sessions: seq<Session>,
    registry: map<Name, nat>,       // the session inserted under each name
    destroyers: seq<Destroyer>,
    starts: multiset<Name>,         // usage events
    stops: multiset<Name>,
    destroyed: multiset<Name>,      // SessionDestroyed events
    removals: multiset<Name>,       // entries taken out of the map
    files: map<Name, nat>,          // the session whose sockets are in the directory of each name
    tags: map<Name, nat>)           // the session whose windows have tags under each name

  const INITIAL := State([], map[], [], multiset{}, multiset{}, multiset{}, multiset{}, map[], map[])

  /** What happens to one session without touching the map or the other sessions. */
  datatype Act =
    | SpawnFail
    | BecomeReady
    | GiveUp        // timed out, or the ready socket failed: the child is killed
    | DiedEarly     // the child exited before it was ready
    | ChildExits    // of its own accord, at any time
    | SeeExit       // the supervisor's wait ends by the child's exit
    | Shutdown      // it ends by the kill channel: the child is shut down

  datatype Step =
    | Begin(name: Name)          // create: the first look at the map
    | Spawn(i: nat)              // create: make the name's directory its own, and start the child
    | Alone(i: nat, act: Act)
    | Insert(i: nat)             // create: the second look, and the insertion if the name is still free
    | Remove(i: nat)             // the supervisor removes the entry under its name, if any
    | EmitStop(i: nat)
    | Cleanup(i: nat)            // the supervisor removes the tags and the directory under its name
    | EmitDestroyed(i: nat)
    | Destroy(name: Name)        // destroy: take the entry out
    | DestroyStop(d: nat)
    | DestroyKill(d: nat)        // remove the tags under the name, and send the kill
    | Tag(name: Name)            // tag_window, on the session in the map

  predicate CanAct(x: Session, act: Act)
  {
    match act
    case SpawnFail => x.stage.Checked?
    case BecomeReady => x.stage.Spawned?
    case GiveUp => x.stage.Spawned?
    case DiedEarly => x.stage.Spawned? && x.child.Dead?
    case ChildExits => x.child.Alive?
    case SeeExit => x.stage.Running? && x.child.Dead?
    case Shutdown => x.stage.Running? && x.killed
  }

  function Acted(x: Session, act: Act): (x': Session)
  {
    match act
    case SpawnFail => x.(stage := Refused)
    case BecomeReady => x.(stage := Ready)
    case GiveUp => x.(stage := Refused, child := Dead)
    case DiedEarly => x.(stage := Refused)
    case ChildExits => x.(child := Dead)
    case SeeExit => x.(stage := Exited)
    case Shutdown => x.(stage := Exited, child := Dead)
  }

  predicate At(s: State, i: nat, stage: Stage) { i < |s.sessions| && s.sessions[i].stage == stage }

  predicate In(s: State, d: nat, phase: Phase) { d < |s.destroyers| && s.destroyers[d].phase == phase }

  predicate Enabled(s: State, step: Step)
  {
    match step
    case Begin(_) => true
    case Spawn(i) => At(s, i, Checked)
    case Alone(i, act) => i < |s.sessions| && CanAct(s.sessions[i], act)
    case Insert(i) => At(s, i, Ready)
    case Remove(i) => At(s, i, Exited)
    case EmitStop(i) => At(s, i, Owing)
    case Cleanup(i) => At(s, i, Cleaning)
    case EmitDestroyed(i) => At(s, i, Cleaned)
    case Destroy(n) => n in s.registry
    case DestroyStop(d) => In(s, d, Removed)
    case DestroyKill(d) => In(s, d, StopEmitted)
    case Tag(n) => n in s.registry
  }

  function Put(s: State, i: nat, x: Session): (s': State)
    requires i < |s.sessions|
  {
    s.(sessions := s.sessions[i := x])
  }

  function Move(s: State, i: nat, stage: Stage): (s': State)
    requires i < |s.sessions|
  {
    Put(s, i, s.sessions[i].(stage := stage))
  }

  /** The entry under a name leaves the map. */
  function TakeOut(s: State, n: Name): (s': State)
  {
    s.(registry := s.registry - {n}, removals := s.removals + multiset{n})
  }

  function Kill(s: State, j: nat): (s': State)
  {
    if j < |s.sessions| then Put(s, j, s.sessions[j].(killed := true)) else s
  }

  function Do(s: State, step: Step): (s': State)
    requires Enabled(s, step)
  {
    match step
    case Begin(n) =>
      s.(sessions := s.sessions + [Session(n, if n in s.registry then Refused else Checked, Unborn, false)])
    case Spawn(i) =>
      Put(s, i, s.sessions[i].(stage := Spawned, child := Alive)).(files := s.files[s.sessions[i].name := i])
    case Alone(i, act) => Put(s, i, Acted(s.sessions[i], act))
    case Insert(i) =>
      var n := s.sessions[i].name;
      if n in s.registry then Put(s, i, s.sessions[i].(stage := Refused, child := Dead))
      else Move(s, i, Running).(registry := s.registry[n := i], starts := s.starts + multiset{n})
    case Remove(i) =>
      var n := s.sessions[i].name;
      if n in s.registry then Kill(TakeOut(Move(s, i, Owing), n), s.registry[n])
      else Move(s, i, Cleaning)
    case EmitStop(i) => Move(s, i, Cleaning).(stops := s.stops + multiset{s.sessions[i].name})
    case Cleanup(i) =>
      var n := s.sessions[i].name;
      Move(s, i, Cleaned).(files := s.files - {n}, tags := s.tags - {n})
    case EmitDestroyed(i) => Move(s, i, Done).(destroyed := s.destroyed + multiset{s.sessions[i].name})
    case Destroy(n) =>
      TakeOut(s, n).(destroyers := s.destroyers + [Destroyer(s.registry[n], n, Removed)])
    case DestroyStop(d) =>
      var x := s.destroyers[d];
      s.(destroyers := s.destroyers[d := x.(phase := StopEmitted)], stops := s.stops + multiset{x.name})
    case DestroyKill(d) =>
      var x := s.destroyers[d];
      Kill(s.(destroyers := s.destroyers[d := x.(phase := KillSent)], tags := s.tags - {x.name}), x.session)
    case Tag(n) => s.(tags := s.tags[n := s.registry[n]])
  }

  /** A run: each step enabled where it is taken, in any interleaving. */
  predicate Legal(s: State, steps: seq<Step>)
    decreases |steps|
  {
    steps == [] || (Enabled(s, steps[0]) && Legal(Do(s, steps[0]), steps[1..]))
  }

  function After(s: State, steps: seq<Step>): (s': State)
    requires Legal(s, steps)
    decreases |steps|
  {
    if steps == [] then s else After(Do(s, steps[0]), steps[1..])
  }

  // ----- counting

  datatype Kind = Inserted | Supervised | StopOwed

  /** Inserted: this create inserted its session. Supervised: and its supervisor has not finished. */
  predicate Is(x: Session, kind: Kind)
  {
    match kind
    case Inserted => x.stage.Running? || x.stage.Exited? || x.stage.Owing? || x.stage.Cleaning? || x.stage.Cleaned?
                     || x.stage.Done?
    case Supervised => x.stage.Running? || x.stage.Exited? || x.stage.Owing? || x.stage.Cleaning? || x.stage.Cleaned?
    case StopOwed => x.stage.Owing?
  }

  function One(x: Session, n: Name, kind: Kind): (r: nat) { if x.name == n && Is(x, kind) then 1 else 0 }

  function Count(sessions: seq<Session>, n: Name, kind: Kind): (r: nat)
  {
    if sessions == [] then 0 else
    Count(sessions[..|sessions| - 1], n, kind) + One(sessions[|sessions| - 1], n, kind)
  }

  function OneOwed(x: Destroyer, n: Name): (r: nat) { if x.name == n && x.phase.Removed? then 1 else 0 }

  /** Destroy calls under a name that have yet to emit their usage stop. */
  function DestroysOwed(destroyers: seq<Destroyer>, n: Name): (r: nat)
  {
    if destroyers == [] then 0 else
    DestroysOwed(destroyers[..|destroyers| - 1], n) + OneOwed(destroyers[|destroyers| - 1], n)
  }

  lemma {:induction false} CountUpdate(sessions: seq<Session>, i: nat, x: Session, n: Name, kind: Kind)
    requires i < |sessions|
    ensures Count(sessions[i := x], n, kind) == Count(sessions, n, kind) - One(sessions[i], n, kind) + One(x, n, kind)
  {
    var last := |sessions| - 1;
    if i == last {
      assert sessions[i := x][..last] == sessions[..last];
    } else {
      assert sessions[i := x][..last] == sessions[..last][i := x];
      CountUpdate(sessions[..last], i, x, n, kind);
    }
  }

  lemma {:induction false} CountSnoc(sessions: seq<Session>, x: Session, n: Name, kind: Kind)
    ensures Count(sessions + [x], n, kind) == Count(sessions, n, kind) + One(x, n, kind)
  {
    assert (sessions + [x])[..|sessions|] == sessions;
  }

  lemma {:induction false} OwedUpdate(destroyers: seq<Destroyer>, d: nat, x: Destroyer, n: Name)
    requires d < |destroyers|
    ensures DestroysOwed(destroyers[d := x], n)
          == DestroysOwed(destroyers, n) - OneOwed(destroyers[d], n) + OneOwed(x, n)
  {
    var last := |destroyers| - 1;
    if d == last {
      assert destroyers[d := x][..last] == destroyers[..last];
    } else {
      assert destroyers[d := x][..last] == destroyers[..last][d := x];
      OwedUpdate(destroyers[..last], d, x, n);
    }
  }

  lemma {:induction false} OwedSnoc(destroyers: seq<Destroyer>, x: Destroyer, n: Name)
    ensures DestroysOwed(destroyers + [x], n) == DestroysOwed(destroyers, n) + OneOwed(x, n)
  {
    assert (destroyers + [x])[..|destroyers|] == destroyers;
  }

  // ----- the invariants

  function Registered(s: State, n: Name): (r: nat) { if n in s.registry then 1 else 0 }

  /** Nothing is lost or counted twice under a name. */
  predicate Balanced(s: State, n: Name)
  {
    && s.starts[n] == Count(s.sessions, n, Inserted)
    && s.starts[n] == s.stops[n] + Registered(s, n) + Count(s.sessions, n, StopOwed) + DestroysOwed(s.destroyers, n)
    && s.starts[n] == s.destroyed[n] + Count(s.sessions, n, Supervised)
    && s.starts[n] == s.removals[n] + Registered(s, n)
  }

  /** A supervisor that has not yet removed the entry under its name. */
  predicate Pending(x: Session) { x.stage.Running? || x.stage.Exited? }

  /** The entry under a name, if any, belongs to a session of that name whose supervisor has yet to do its removal. */
  predicate OwnedName(s: State, n: Name)
  {
    n in s.registry ==> s.registry[n] < |s.sessions| && s.sessions[s.registry[n]].name == n
                        && Pending(s.sessions[s.registry[n]])
  }

  /** A child is alive only in the hands of a create call under way or of a waiting supervisor. */
  predicate InHand(x: Session)
  {
    && (x.child.Alive? ==> x.stage.Spawned? || x.stage.Ready? || x.stage.Running?)
    && (x.stage.Checked? ==> x.child.Unborn?)
    && (x.child.Unborn? ==> x.stage.Checked? || x.stage.Refused?)
  }

  predicate AllInHand(s: State) { forall i :: 0 <= i < |s.sessions| ==> InHand(s.sessions[i]) }

  /** A waiting supervisor's session is in the map, or its kill has been or will be sent. */
  ghost predicate Reachable(s: State, i: nat)
    requires i < |s.sessions|
  {
    || s.sessions[i].killed
    || (s.sessions[i].name in s.registry && s.registry[s.sessions[i].name] == i)
    || exists d :: 0 <= d < |s.destroyers| && s.destroyers[d].session == i && !s.destroyers[d].phase.KillSent?
  }

  ghost predicate NoOrphans(s: State)
  {
    forall i :: 0 <= i < |s.sessions| && s.sessions[i].stage.Running? ==> Reachable(s, i)
  }

  ghost predicate Inv(s: State)
  {
    (forall n :: Balanced(s, n)) && (forall n :: OwnedName(s, n)) && AllInHand(s) && NoOrphans(s)
  }

  // ----- each step keeps them

  /** Replacing one session changes each count by the difference of that session's share. */
  lemma {:induction false} PutCount(s: State, i: nat, x: Session, n: Name)
    requires i < |s.sessions|
    ensures forall kind :: Count(Put(s, i, x).sessions, n, kind)
                           == Count(s.sessions, n, kind) - One(s.sessions[i], n, kind) + One(x, n, kind)
  {
    forall kind: Kind
      ensures Count(Put(s, i, x).sessions, n, kind)
              == Count(s.sessions, n, kind) - One(s.sessions[i], n, kind) + One(x, n, kind)
    {
      CountUpdate(s.sessions, i, x, n, kind);
    }
  }

  lemma {:induction false} AloneBalance(s: State, i: nat, act: Act, n: Name)
    requires Balanced(s, n) && Enabled(s, Alone(i, act))
    requires InHand(s.sessions[i])
    ensures Balanced(Do(s, Alone(i, act)), n)
  {
    var (x, x') := (s.sessions[i], Acted(s.sessions[i], act));
    PutCount(s, i, x', n);
    assert One(x, n, Inserted) == One(x', n, Inserted);
    assert One(x, n, Supervised) == One(x', n, Supervised);
    assert One(x, n, StopOwed) == One(x', n, StopOwed);
  }

  lemma {:induction false} BeginBalance(s: State, m: Name, n: Name)
    requires Balanced(s, n)
    ensures Balanced(Do(s, Begin(m)), n)
  {
    var x := Session(m, if m in s.registry then Refused else Checked, Unborn, false);
    CountSnoc(s.sessions, x, n, Inserted);
    CountSnoc(s.sessions, x, n, Supervised);
    CountSnoc(s.sessions, x, n, StopOwed);
  }

  lemma {:induction false} InsertBalance(s: State, i: nat, n: Name)
    requires Balanced(s, n) && At(s, i, Ready)
    ensures Balanced(Do(s, Insert(i)), n)
  {
    var (x, s') := (s.sessions[i], Do(s, Insert(i)));
    PutCount(s, i, s'.sessions[i], n);
    var one := if x.name == n && n !in s.registry then 1 else 0;
    assert One(x, n, Inserted) == 0 && One(s'.sessions[i], n, Inserted) == one;
    assert One(x, n, Supervised) == 0 && One(s'.sessions[i], n, Supervised) == one;
    assert One(x, n, StopOwed) == 0 && One(s'.sessions[i], n, StopOwed) == 0;
    assert s'.starts[n] == s.starts[n] + one && Registered(s', n) == Registered(s, n) + one;
  }

  lemma {:induction false} EmitBalance(s: State, step: Step, n: Name)
    requires Balanced(s, n) && Enabled(s, step)
          && (step.Spawn? || step.EmitStop? || step.Cleanup? || step.EmitDestroyed?)
    ensures Balanced(Do(s, step), n)
  {
    PutCount(s, step.i, Do(s, step).sessions[step.i], n);
  }

  lemma {:induction false} DestroyBalance(s: State, m: Name, n: Name)
    requires Balanced(s, n) && m in s.registry
    ensures Balanced(Do(s, Destroy(m)), n)
  {
    var s' := Do(s, Destroy(m));
    OwedSnoc(s.destroyers, Destroyer(s.registry[m], m, Removed), n);
    assert s'.sessions == s.sessions && s'.starts == s.starts && s'.stops == s.stops && s'.destroyed == s.destroyed;
    assert Registered(s', n) == Registered(s, n) - if m == n then 1 else 0;
    assert s'.removals[n] == s.removals[n] + if m == n then 1 else 0;
  }

  lemma {:induction false} KillCount(s: State, j: nat, n: Name, kind: Kind)
    ensures Count(Kill(s, j).sessions, n, kind) == Count(s.sessions, n, kind)
  {
    if j < |s.sessions| { CountUpdate(s.sessions, j, s.sessions[j].(killed := true), n, kind); }
  }

  lemma {:induction false} KillBalanced(s: State, j: nat, n: Name)
    requires Balanced(s, n)
    ensures Balanced(Kill(s, j), n)
  {
    KillCount(s, j, n, Inserted);
    KillCount(s, j, n, Supervised);
    KillCount(s, j, n, StopOwed);
  }

  lemma {:induction false} DestroyerBalance(s: State, step: Step, n: Name)
    requires Balanced(s, n) && Enabled(s, step) && (step.DestroyStop? || step.DestroyKill?)
    ensures Balanced(Do(s, step), n)
  {
    var x := s.destroyers[step.d];
    var x' := x.(phase := if step.DestroyStop? then StopEmitted else KillSent);
    OwedUpdate(s.destroyers, step.d, x', n);
    if step.DestroyKill? { KillBalanced(s.(destroyers := s.destroyers[step.d := x'], tags := s.tags - {x.name}),
        x.session, n); }
  }

  lemma {:induction false} RemoveBalance(s: State, i: nat, n: Name)
    requires Balanced(s, n) && At(s, i, Exited)
    ensures Balanced(Do(s, Remove(i)), n)
  {
    var m := s.sessions[i].name;
    if m in s.registry {
      PutCount(s, i, s.sessions[i].(stage := Owing), n);
      KillBalanced(TakeOut(Move(s, i, Owing), m), s.registry[m], n);
    } else {
      PutCount(s, i, s.sessions[i].(stage := Cleaning), n);
    }
  }

  lemma {:induction false} BalanceStep(s: State, step: Step, n: Name)
    requires AllInHand(s) && Balanced(s, n) && Enabled(s, step)
    ensures Balanced(Do(s, step), n)
  {
    match step
    case Begin(m) => BeginBalance(s, m, n);
    case Alone(i, act) => AloneBalance(s, i, act, n);
    case Insert(i) => InsertBalance(s, i, n);
    case Remove(i) => RemoveBalance(s, i, n);
    case Spawn(_) => EmitBalance(s, step, n);
    case EmitStop(_) => EmitBalance(s, step, n);
    case Cleanup(_) => EmitBalance(s, step, n);
    case EmitDestroyed(_) => EmitBalance(s, step, n);
    case Destroy(m) => DestroyBalance(s, m, n);
    case DestroyStop(_) => DestroyerBalance(s, step, n);
    case DestroyKill(_) => DestroyerBalance(s, step, n);
    case Tag(_) =>
  }

  /** What a step makes of one session. */
  function Next(s: State, step: Step, i: nat): (x': Session)
    requires Enabled(s, step) && i < |s.sessions|
  {
    var x := s.sessions[i];
    match step
    case Spawn(j) => if i == j then x.(stage := Spawned, child := Alive) else x
    case Alone(j, act) => if i == j then Acted(x, act) else x
    case Insert(j) =>
      if i != j then x
      else if x.name in s.registry then x.(stage := Refused, child := Dead)
      else x.(stage := Running)
    case Remove(j) =>
      var n := s.sessions[j].name;
      x.(stage := if i != j then x.stage else if n in s.registry then Owing else Cleaning,
         killed := x.killed || (n in s.registry && s.registry[n] == i))
    case EmitStop(j) => if i == j then x.(stage := Cleaning) else x
    case Cleanup(j) => if i == j then x.(stage := Cleaned) else x
    case EmitDestroyed(j) => if i == j then x.(stage := Done) else x
    case DestroyKill(d) => x.(killed := x.killed || s.destroyers[d].session == i)
    case _ => x
  }

  lemma {:induction false} KillStep(s: State, j: nat, i: nat)
    requires i < |s.sessions|
    ensures |Kill(s, j).sessions| == |s.sessions|
    ensures Kill(s, j).sessions[i] == s.sessions[i].(killed := s.sessions[i].killed || i == j)
  {
  }

  lemma {:induction false} SessionStep(s: State, step: Step, i: nat)
    requires Enabled(s, step) && i < |s.sessions|
    ensures i < |Do(s, step).sessions| && Do(s, step).sessions[i] == Next(s, step, i)
  {
    match step
    case Begin(_) =>
    case Spawn(_) =>
    case Alone(j, act) =>
    case Insert(j) =>
    case Remove(j) =>
      var n := s.sessions[j].name;
      if n in s.registry { KillStep(TakeOut(Move(s, j, Owing), n), s.registry[n], i); }
    case EmitStop(j) =>
    case Cleanup(_) =>
    case EmitDestroyed(j) =>
    case Destroy(_) =>
    case DestroyStop(_) =>
    case DestroyKill(d) =>
      var x := s.destroyers[d];
      KillStep(s.(destroyers := s.destroyers[d := x.(phase := KillSent)], tags := s.tags - {x.name}), x.session, i);
    case Tag(_) =>
  }

  lemma {:induction false} SessionsGrow(s: State, step: Step)
    requires Enabled(s, step)
    ensures |Do(s, step).sessions| == |s.sessions| + if step.Begin? then 1 else 0
  {
    match step
    case Begin(_) =>
    case Spawn(_) =>
    case Alone(_, _) =>
    case Insert(_) =>
    case Remove(_) =>
    case EmitStop(_) =>
    case Cleanup(_) =>
    case EmitDestroyed(_) =>
    case Destroy(_) =>
    case DestroyStop(_) =>
    case DestroyKill(_) =>
    case Tag(_) =>
  }

  lemma {:induction false} NewSession(s: State, step: Step, i: nat)
    requires Enabled(s, step) && |s.sessions| <= i < |Do(s, step).sessions|
    ensures var x := Do(s, step).sessions[i]; x.child.Unborn? && !x.killed && (x.stage.Checked? || x.stage.Refused?)
  {
    SessionsGrow(s, step);
  }

  /** A session keeps its name, once killed stays so, and its child stays in hand; only Insert, finding the
      name free, starts a supervisor. */
  lemma {:induction false} NextKeeps(s: State, step: Step, i: nat)
    requires Enabled(s, step) && i < |s.sessions|
    ensures var (x, x') := (s.sessions[i], Next(s, step, i));
            && x'.name == x.name
            && (x.killed ==> x'.killed)
            && (InHand(x) ==> InHand(x'))
            && ((Pending(x') && !Pending(x)) || (x'.stage.Running? && !x.stage.Running?)
                ==> step == Insert(i) && At(s, i, Ready) && x.name !in s.registry)
  {
  }

  lemma {:induction false} InHandStep(s: State, step: Step, i: nat)
    requires Enabled(s, step) && i < |Do(s, step).sessions| && (i < |s.sessions| ==> InHand(s.sessions[i]))
    ensures InHand(Do(s, step).sessions[i])
  {
    if i < |s.sessions| {
      SessionStep(s, step, i);
      NextKeeps(s, step, i);
    } else {
      NewSession(s, step, i);
    }
  }

  lemma {:induction false} MapUntouched(s: State, step: Step, n: Name)
    requires Enabled(s, step) && !step.Insert? && !step.Remove? && !step.Destroy?
    ensures (n in Do(s, step).registry <==> n in s.registry)
          && (n in s.registry ==> Do(s, step).registry[n] == s.registry[n])
  {
    match step
    case Begin(_) =>
    case Spawn(_) =>
    case Alone(_, _) =>
    case EmitStop(_) =>
    case Cleanup(_) =>
    case EmitDestroyed(_) =>
    case DestroyStop(_) =>
    case DestroyKill(_) =>
    case Tag(_) =>
  }

  /** A step puts an entry in the map only if it is the insertion of its session, and takes one out only if it
      is a removal under that name. */
  lemma {:induction false} MapStep(s: State, step: Step, n: Name)
    requires Enabled(s, step)
    ensures var (m, m') := (s.registry, Do(s, step).registry);
            if step.Insert? && n == s.sessions[step.i].name && n !in m then n in m' && m'[n] == step.i
            else if step == Destroy(n) || (step.Remove? && n == s.sessions[step.i].name) then n !in m'
            else (n in m' <==> n in m) && (n in m ==> m'[n] == m[n])
  {
    if !step.Insert? && !step.Remove? && !step.Destroy? { MapUntouched(s, step, n); }
  }

  lemma {:induction false} PendingStays(s: State, step: Step, j: nat)
    requires Enabled(s, step) && j < |s.sessions| && Pending(s.sessions[j]) && step != Remove(j)
    ensures Pending(Next(s, step, j))
  {
  }

  lemma {:induction false} OwnedStep(s: State, step: Step, n: Name)
    requires OwnedName(s, n) && Enabled(s, step)
    ensures OwnedName(Do(s, step), n)
  {
    var s' := Do(s, step);
    MapStep(s, step, n);
    if n in s'.registry {
      var j := s'.registry[n];
      SessionStep(s, step, j);
      NextKeeps(s, step, j);
      if n in s.registry { PendingStays(s, step, j); }
    }
  }

  /** A session about to be killed stays so until it is. */
  lemma {:induction false} DoomedStep(s: State, step: Step, i: nat, d: nat)
    requires Enabled(s, step) && i < |s.sessions|
    requires d < |s.destroyers| && s.destroyers[d].session == i && !s.destroyers[d].phase.KillSent?
    ensures i < |Do(s, step).sessions| && Reachable(Do(s, step), i)
  {
    DestroyersStep(s, step, d);
    SessionStep(s, step, i);
    assert Do(s, step).destroyers[d].session == i;
  }

  /** A session in the map stays there, or is killed, or a destroy call has taken it out to kill it. */
  lemma {:induction false} MappedStep(s: State, step: Step, i: nat)
    requires Enabled(s, step) && i < |s.sessions|
    requires s.sessions[i].name in s.registry && s.registry[s.sessions[i].name] == i
    ensures i < |Do(s, step).sessions| && Reachable(Do(s, step), i)
  {
    var (s', n) := (Do(s, step), s.sessions[i].name);
    MapStep(s, step, n);
    SessionStep(s, step, i);
    NextKeeps(s, step, i);
    if step == Destroy(n) { assert s'.destroyers[|s.destroyers|].session == i; }
  }

  lemma {:induction false} InsertMaps(s: State, step: Step, i: nat)
    requires Enabled(s, step) && i < |Do(s, step).sessions| && Do(s, step).sessions[i].stage.Running?
    requires i < |s.sessions| ==> !s.sessions[i].stage.Running?
    ensures Reachable(Do(s, step), i)
  {
    if i < |s.sessions| {
      SessionStep(s, step, i);
      NextKeeps(s, step, i);
    } else {
      NewSession(s, step, i);
    }
  }

  lemma {:induction false} OrphanStep(s: State, step: Step, i: nat)
    requires NoOrphans(s) && Enabled(s, step)
    requires i < |Do(s, step).sessions| && Do(s, step).sessions[i].stage.Running?
    ensures Reachable(Do(s, step), i)
  {
    if i >= |s.sessions| || !s.sessions[i].stage.Running? {
      InsertMaps(s, step, i);
    } else if s.sessions[i].killed {
      SessionStep(s, step, i);
      NextKeeps(s, step, i);
    } else if s.sessions[i].name in s.registry && s.registry[s.sessions[i].name] == i {
      MappedStep(s, step, i);
    } else {
      var d :| 0 <= d < |s.destroyers| && s.destroyers[d].session == i && !s.destroyers[d].phase.KillSent?;
      DoomedStep(s, step, i, d);
    }
  }

  lemma {:induction false} StepKeeps(s: State, step: Step)
    requires Inv(s) && Enabled(s, step)
    ensures Inv(Do(s, step))
  {
    var s' := Do(s, step);
    forall n ensures Balanced(s', n) {
      assert Balanced(s, n);
      BalanceStep(s, step, n);
    }
    forall n ensures OwnedName(s', n) {
      assert OwnedName(s, n);
      OwnedStep(s, step, n);
    }
    forall i | 0 <= i < |s'.sessions| ensures InHand(s'.sessions[i]) { InHandStep(s, step, i); }
    forall i | 0 <= i < |s'.sessions| && s'.sessions[i].stage.Running? ensures Reachable(s', i) {
      OrphanStep(s, step, i);
    }
  }

  lemma {:induction false} Always(s: State, steps: seq<Step>)
    requires Inv(s) && Legal(s, steps)
    ensures Inv(After(s, steps))
    decreases |steps|
  {
    if steps == [] {
    } else {
      StepKeeps(s, steps[0]);
      Always(Do(s, steps[0]), steps[1..]);
    }
  }

  lemma {:induction false} InitialInv()
    ensures Inv(INITIAL)
  {
    forall n ensures Balanced(INITIAL, n) {}
    forall n ensures OwnedName(INITIAL, n) {}
  }

  // ----- what holds in every reachable state

  /** Conservation, per name. Every usage start is matched by a stop emitted, a stop still to be emitted or a
      session in the map; every insertion by a SessionDestroyed event or a supervisor not yet finished; and
      every insertion by a removal, except that of the session in the map. */
  lemma {:induction false} Conservation(steps: seq<Step>, n: Name)
    requires Legal(INITIAL, steps)
    ensures var s := After(INITIAL, steps);
            var inserted := Count(s.sessions, n, Inserted);
            && s.starts[n] == inserted
            && s.starts[n]
               == s.stops[n] + Registered(s, n) + Count(s.sessions, n, StopOwed) + DestroysOwed(s.destroyers, n)
            && inserted == s.destroyed[n] + Count(s.sessions, n, Supervised)
            && inserted == s.removals[n] + Registered(s, n)
  {
    InitialInv();
    Always(INITIAL, steps);
    assert Balanced(After(INITIAL, steps), n);
  }

  /** However many creates of one name race, at most one more inserts than entries were removed: with no
      removal, at most one. */
  lemma {:induction false} OneWinner(steps: seq<Step>, n: Name)
    requires Legal(INITIAL, steps)
    ensures var s := After(INITIAL, steps);
            && s.removals[n] <= Count(s.sessions, n, Inserted) <= s.removals[n] + 1
            && (s.removals[n] == 0 && n in s.registry ==> Count(s.sessions, n, Inserted) == 1)
  {
    Conservation(steps, n);
  }

  /** Every entry is that of a session of its name whose supervisor has not passed its removal. */
  lemma {:induction false} EntrySupervised(steps: seq<Step>, n: Name)
    requires Legal(INITIAL, steps) && n in After(INITIAL, steps).registry
    ensures var s := After(INITIAL, steps);
            s.registry[n] < |s.sessions| && s.sessions[s.registry[n]].name == n && Pending(s.sessions[s.registry[n]])
  {
    InitialInv();
    Always(INITIAL, steps);
    assert OwnedName(After(INITIAL, steps), n);
  }

  /** Once a create call has returned, its child is dead or was never spawned, unless the call inserted it and
      its own supervisor still waits for it; and then the session is in the map, or its kill has been sent,
      or a destroy call is about to send it. */
  lemma {:induction false} ChildAccountedFor(steps: seq<Step>, i: nat)
    requires Legal(INITIAL, steps) && i < |After(INITIAL, steps).sessions|
    ensures var s := After(INITIAL, steps);
            var x := s.sessions[i];
            && (x.child.Alive? ==> x.stage.Spawned? || x.stage.Ready? || x.stage.Running?)
            && (x.stage.Running? ==> Reachable(s, i))
  {
    InitialInv();
    Always(INITIAL, steps);
    assert InHand(After(INITIAL, steps).sessions[i]);
  }

  // ----- removal by name

  /** The supervisor of session i is about to take out an entry that is not its session's. */
  predicate Foreign(s: State, i: nat)
  {
    && At(s, i, Exited) && s.sessions[i].name in s.registry && s.registry[s.sessions[i].name] != i
  }

  /** The step inserts a session under a name whose earlier supervisor has yet to do its removal. */
  predicate Reuses(s: State, step: Step)
  {
    && step.Insert? && At(s, step.i, Ready) && s.sessions[step.i].name !in s.registry
    && exists j :: 0 <= j < |s.sessions| && s.sessions[j].name == s.sessions[step.i].name && Pending(s.sessions[j])
  }

  predicate NeverReuses(s: State, steps: seq<Step>)
    requires Legal(s, steps)
    decreases |steps|
  {
    steps == [] || (!Reuses(s, steps[0]) && NeverReuses(Do(s, steps[0]), steps[1..]))
  }

  /** At most one pending supervisor per name. */
  predicate Unshared(s: State)
  {
    forall i, j :: 0 <= i < j < |s.sessions| && Pending(s.sessions[i]) && Pending(s.sessions[j])
                   ==> s.sessions[i].name != s.sessions[j].name
  }

  lemma {:induction false} NewlyPending(s: State, step: Step, i: nat)
    requires Enabled(s, step) && i < |Do(s, step).sessions|
    ensures i < |s.sessions| ==> Do(s, step).sessions[i].name == s.sessions[i].name
    ensures Pending(Do(s, step).sessions[i]) && !(i < |s.sessions| && Pending(s.sessions[i]))
            ==> step == Insert(i) && At(s, i, Ready) && s.sessions[i].name !in s.registry
  {
    if i < |s.sessions| {
      SessionStep(s, step, i);
      NextKeeps(s, step, i);
    } else {
      NewSession(s, step, i);
    }
  }

  lemma {:induction false} UnsharedStep(s: State, step: Step)
    requires Unshared(s) && Enabled(s, step) && !Reuses(s, step)
    ensures Unshared(Do(s, step))
  {
    var s' := Do(s, step);
    forall i, j | 0 <= i < j < |s'.sessions| && Pending(s'.sessions[i]) && Pending(s'.sessions[j])
      ensures s'.sessions[i].name != s'.sessions[j].name
    {
      NewlyPending(s, step, i);
      NewlyPending(s, step, j);
    }
  }

  lemma {:induction false} AlwaysUnshared(s: State, steps: seq<Step>)
    requires Unshared(s) && Legal(s, steps) && NeverReuses(s, steps)
    ensures Unshared(After(s, steps))
    decreases |steps|
  {
    if steps == [] {
    } else {
      UnsharedStep(s, steps[0]);
      AlwaysUnshared(Do(s, steps[0]), steps[1..]);
    }
  }

  /** If no name is inserted again before its earlier supervisor has done its removal, each supervisor
      takes out its own session's entry or none. */
  lemma {:induction false} NoForeignRemoval(steps: seq<Step>, i: nat)
    requires Legal(INITIAL, steps) && NeverReuses(INITIAL, steps)
    ensures !Foreign(After(INITIAL, steps), i)
  {
    var s := After(INITIAL, steps);
    AlwaysUnshared(INITIAL, steps);
    if i < |s.sessions| && s.sessions[i].name in s.registry { EntrySupervised(steps, s.sessions[i].name); }
  }

  lemma {:induction false} Then(s: State, step: Step, rest: seq<Step>)
    requires Enabled(s, step) && Legal(Do(s, step), rest)
    ensures Legal(s, [step] + rest) && After(s, [step] + rest) == After(Do(s, step), rest)
  {
    assert ([step] + rest)[1..] == rest;
  }

  /** And if a name is inserted again too early, the earlier supervisor may yet take out the new entry. */
  lemma {:induction false} ReuseLeadsToForeignRemoval(s: State, i: nat, j: nat)
    requires At(s, i, Ready) && s.sessions[i].name !in s.registry
    requires j < |s.sessions| && s.sessions[j].name == s.sessions[i].name && Pending(s.sessions[j])
    requires InHand(s.sessions[j])
    ensures var s' := Do(s, Insert(i)); exists more :: Legal(s', more) && Foreign(After(s', more), j)
  {
    var s' := Do(s, Insert(i));
    assert j != i && s'.sessions[j] == s.sessions[j];
    if s.sessions[j].stage.Exited? {
      assert Legal(s', []) && Foreign(After(s', []), j);
    } else if s.sessions[j].child.Alive? {
      var s1 := Do(s', Alone(j, ChildExits));
      var s2 := Do(s1, Alone(j, SeeExit));
      Then(s1, Alone(j, SeeExit), []);
      Then(s', Alone(j, ChildExits), [Alone(j, SeeExit)] + []);
      assert Foreign(s2, j);
    } else {
      var s1 := Do(s', Alone(j, SeeExit));
      Then(s', Alone(j, SeeExit), []);
      assert Foreign(s1, j);
    }
  }

  lemma {:induction false} Append(s: State, a: seq<Step>, b: seq<Step>)
    requires Legal(s, a) && Legal(After(s, a), b)
    ensures Legal(s, a + b) && After(s, a + b) == After(After(s, a), b)
    decreases |a|
  {
    if a == [] {
      assert a + b == b;
    } else {
      assert (a + b)[0] == a[0] && (a + b)[1..] == a[1..] + b;
      Append(Do(s, a[0]), a[1..], b);
    }
  }

  /** So the condition is exact: every run that reuses a name extends to one with a foreign removal. */
  lemma {:induction false} ReuseIsUnsafe(steps: seq<Step>, i: nat)
    requires Legal(INITIAL, steps) && Reuses(After(INITIAL, steps), Insert(i))
    ensures exists more, j :: Legal(INITIAL, steps + ([Insert(i)] + more))
                              && Foreign(After(INITIAL, steps + ([Insert(i)] + more)), j)
  {
    var s := After(INITIAL, steps);
    InitialInv();
    Always(INITIAL, steps);
    var j :| 0 <= j < |s.sessions| && s.sessions[j].name == s.sessions[i].name && Pending(s.sessions[j]);
    ReuseLeadsToForeignRemoval(s, i, j);
    var more :| Legal(Do(s, Insert(i)), more) && Foreign(After(Do(s, Insert(i)), more), j);
    Then(s, Insert(i), more);
    Append(INITIAL, steps, [Insert(i)] + more);
  }

  /** Session j was inserted and its entry is no longer in the map. */
  predicate Out(s: State, j: nat)
  {
    && j < |s.sessions| && Is(s.sessions[j], Inserted)
    && !(s.sessions[j].name in s.registry && s.registry[s.sessions[j].name] == j)
  }

  /** Only sessions taken out of the map are killed or in the hands of a destroy call. */
  ghost predicate OnlyOutKilled(s: State)
  {
    && (forall j :: 0 <= j < |s.sessions| && s.sessions[j].killed ==> Out(s, j))
    && (forall d :: 0 <= d < |s.destroyers| ==> Out(s, s.destroyers[d].session))
  }

  lemma {:induction false} InsertedStays(s: State, step: Step, j: nat)
    requires Enabled(s, step) && j < |s.sessions| && Is(s.sessions[j], Inserted)
    ensures Is(Next(s, step, j), Inserted)
  {
  }

  lemma {:induction false} OutStep(s: State, step: Step, j: nat)
    requires Enabled(s, step) && Out(s, j)
    ensures Out(Do(s, step), j)
  {
    var s' := Do(s, step);
    SessionStep(s, step, j);
    NextKeeps(s, step, j);
    InsertedStays(s, step, j);
    var n := s.sessions[j].name;
    MapStep(s, step, n);
  }

  /** The entry a step takes out of the map is that of a session that stays out. */
  lemma {:induction false} TakenOut(s: State, step: Step, n: Name)
    requires Enabled(s, step) && OwnedName(s, n) && n in s.registry && n !in Do(s, step).registry
    ensures Out(Do(s, step), s.registry[n])
  {
    var j := s.registry[n];
    SessionStep(s, step, j);
    NextKeeps(s, step, j);
    InsertedStays(s, step, j);
  }

  lemma {:induction false} KilledOut(s: State, step: Step, j: nat)
    requires Inv(s) && OnlyOutKilled(s) && Enabled(s, step)
    requires j < |Do(s, step).sessions| && Do(s, step).sessions[j].killed
    ensures Out(Do(s, step), j)
  {
    if j >= |s.sessions| {
      NewSession(s, step, j);
    } else {
      SessionStep(s, step, j);
      if s.sessions[j].killed {
        OutStep(s, step, j);
      } else if step.DestroyKill? {
        OutStep(s, step, j);
      } else {
        NewlyKilled(s, step, j);
        assert OwnedName(s, s.sessions[step.i].name);
        TakenOut(s, step, s.sessions[step.i].name);
      }
    }
  }

  lemma {:induction false} NewlyKilled(s: State, step: Step, j: nat)
    requires Enabled(s, step) && j < |s.sessions| && !s.sessions[j].killed && Next(s, step, j).killed
          && !step.DestroyKill?
    ensures step.Remove? && s.sessions[step.i].name in s.registry && s.registry[s.sessions[step.i].name] == j
    ensures s.sessions[step.i].name !in Do(s, step).registry
  {
  }

  lemma {:induction false} DestroyersOut(s: State, step: Step, d: nat)
    requires Inv(s) && OnlyOutKilled(s) && Enabled(s, step) && d < |Do(s, step).destroyers|
    ensures Out(Do(s, step), Do(s, step).destroyers[d].session)
  {
    DestroyersStep(s, step, d);
    if d < |s.destroyers| {
      OutStep(s, step, s.destroyers[d].session);
    } else {
      assert OwnedName(s, step.name);
      TakenOut(s, step, step.name);
    }
  }

  /** Destroy calls keep their session; a new one has the entry it took out. */
  lemma {:induction false} DestroyersStep(s: State, step: Step, d: nat)
    requires Enabled(s, step)
    ensures |s.destroyers| <= |Do(s, step).destroyers|
    ensures d < |s.destroyers| ==>
              var (x, x') := (s.destroyers[d], Do(s, step).destroyers[d]);
              && x'.session == x.session && x'.name == x.name
              && (x'.phase == x.phase || step == DestroyStop(d) || (step == DestroyKill(d) && x'.phase.KillSent?))
              && (x.phase.KillSent? ==> x'.phase.KillSent?)
    ensures |s.destroyers| <= d < |Do(s, step).destroyers| ==>
              && step.Destroy? && step.name !in Do(s, step).registry
              && Do(s, step).destroyers[d] == Destroyer(s.registry[step.name], step.name, Removed)
  {
    match step
    case Begin(_) =>
    case Spawn(_) =>
    case Alone(_, _) =>
    case Insert(_) =>
    case Remove(_) =>
    case EmitStop(_) =>
    case Cleanup(_) =>
    case EmitDestroyed(_) =>
    case Destroy(_) =>
    case DestroyStop(_) =>
    case DestroyKill(_) =>
    case Tag(_) =>
  }

  lemma {:induction false} OnlyOutKilledStep(s: State, step: Step)
    requires Inv(s) && OnlyOutKilled(s) && Enabled(s, step)
    ensures OnlyOutKilled(Do(s, step))
  {
    var s' := Do(s, step);
    forall j | 0 <= j < |s'.sessions| && s'.sessions[j].killed ensures Out(s', j) { KilledOut(s, step, j); }
    forall d | 0 <= d < |s'.destroyers| ensures Out(s', s'.destroyers[d].session) { DestroyersOut(s, step, d); }
  }

  lemma {:induction false} AlwaysOnlyOutKilled(s: State, steps: seq<Step>)
    requires Inv(s) && OnlyOutKilled(s) && Legal(s, steps)
    ensures OnlyOutKilled(After(s, steps))
    decreases |steps|
  {
    if steps == [] {
    } else {
      StepKeeps(s, steps[0]);
      OnlyOutKilledStep(s, steps[0]);
      AlwaysOnlyOutKilled(Do(s, steps[0]), steps[1..]);
    }
  }

  predicate Destroyed(s: State, j: nat) { exists d :: 0 <= d < |s.destroyers| && s.destroyers[d].session == j }

  /** Killed and out of the map, though no destroy call ever had it. */
  predicate Stray(s: State, j: nat) { Out(s, j) && s.sessions[j].killed && !Destroyed(s, j) }

  lemma {:induction false} StrayStep(s: State, step: Step, j: nat)
    requires Enabled(s, step) && Stray(s, j) && (forall n :: OwnedName(s, n))
    ensures Stray(Do(s, step), j)
  {
    var s' := Do(s, step);
    OutStep(s, step, j);
    SessionStep(s, step, j);
    NextKeeps(s, step, j);
    forall d | 0 <= d < |s'.destroyers| ensures s'.destroyers[d].session != j {
      DestroyersStep(s, step, d);
      if d >= |s.destroyers| { assert OwnedName(s, step.name); }
    }
  }

  lemma {:induction false} AlwaysStray(s: State, steps: seq<Step>, j: nat)
    requires Inv(s) && Stray(s, j) && Legal(s, steps)
    ensures Stray(After(s, steps), j)
    decreases |steps|
  {
    if steps == [] {
    } else {
      StepKeeps(s, steps[0]);
      StrayStep(s, steps[0], j);
      AlwaysStray(Do(s, steps[0]), steps[1..], j);
    }
  }

  /** A foreign removal, in any run, takes out a session that no one had killed or destroyed; it is killed, and
      in every continuation it stays out of the map, no destroy call ever has it, and its child is dead or its
      supervisor can shut it down. */
  lemma {:induction false} ForeignRemovalKills(steps: seq<Step>, i: nat, more: seq<Step>)
    requires Legal(INITIAL, steps) && Foreign(After(INITIAL, steps), i)
    requires Legal(Do(After(INITIAL, steps), Remove(i)), more)
    ensures var s := After(INITIAL, steps);
            var j := s.registry[s.sessions[i].name];
            var s' := After(Do(s, Remove(i)), more);
            && j < |s.sessions| && !s.sessions[j].killed && !Destroyed(s, j)
            && Stray(s', j)
            && (if s'.sessions[j].stage.Running? then Enabled(s', Alone(j, Shutdown)) else !s'.sessions[j].child.Alive?)
  {
    var s := After(INITIAL, steps);
    var n := s.sessions[i].name;
    var (j, s1) := (s.registry[n], Do(s, Remove(i)));
    EntrySupervised(steps, n);
    InitialInv();
    Always(INITIAL, steps);
    AlwaysOnlyOutKilled(INITIAL, steps);
    assert !Out(s, j);
    assert OwnedName(s, n);
    TakenOut(s, Remove(i), n);
    SessionStep(s, Remove(i), j);
    assert Stray(s1, j);
    StepKeeps(s, Remove(i));
    AlwaysStray(s1, more, j);
    Always(s1, more);
    assert InHand(After(s1, more).sessions[j]);
  }

  /** A create that goes well, from any state in which the name is free. */
  lemma {:induction false} Creates(s: State, n: Name)
    requires n !in s.registry
    ensures var i := |s.sessions|;
            var steps := [Begin(n), Spawn(i), Alone(i, BecomeReady), Insert(i)];
            && Legal(s, steps)
            && After(s, steps) == s.(sessions := s.sessions + [Session(n, Running, Alive, false)],
                                     registry := s.registry[n := i], starts := s.starts + multiset{n},
                                     files := s.files[n := i])
  {
    var i := |s.sessions|;
    var s1 := Do(s, Begin(n));
    var s2 := Do(s1, Spawn(i));
    var s3 := Do(s2, Alone(i, BecomeReady));
    var s4 := Do(s3, Insert(i));
    assert s2.sessions == s.sessions + [Session(n, Spawned, Alive, false)];
    assert s3.sessions == s.sessions + [Session(n, Ready, Alive, false)];
    assert s4.sessions == s.sessions + [Session(n, Running, Alive, false)];
    Then(s3, Insert(i), []);
    Then(s2, Alone(i, BecomeReady), [Insert(i)]);
    Then(s1, Spawn(i), [Alone(i, BecomeReady), Insert(i)]);
    Then(s, Begin(n), [Spawn(i), Alone(i, BecomeReady), Insert(i)]);
  }

  const CREATED := State([Session(0, Running, Alive, false)], map[0 := 0], [], multiset{0}, multiset{}, multiset{},
      multiset{},
                         map[0 := 0], map[])

  const RECREATED := State([Session(0, Running, Alive, false), Session(0, Running, Alive, false)], map[0 := 1],
                           [Destroyer(0, 0, Removed)], multiset{0, 0}, multiset{}, multiset{}, multiset{0},
                           map[0 := 1], map[])

  const DESTROYED := CREATED.(registry := map[], destroyers := [Destroyer(0, 0, Removed)], removals := multiset{0})

  lemma {:induction false} FirstCreated()
    ensures exists steps :: Legal(INITIAL, steps) && After(INITIAL, steps) == CREATED
  {
    Creates(INITIAL, 0);
    assert After(INITIAL, [Begin(0), Spawn(0), Alone(0, BecomeReady), Insert(0)]) == CREATED;
  }

  lemma {:induction false} SecondCreated()
    ensures exists steps :: Legal(DESTROYED, steps) && After(DESTROYED, steps) == RECREATED
  {
    Creates(DESTROYED, 0);
    assert After(DESTROYED, [Begin(0), Spawn(1), Alone(1, BecomeReady), Insert(1)]) == RECREATED;
  }

  /** Create, destroy, create again under one name. */
  lemma {:induction false} Recreates()
    ensures exists steps :: Legal(INITIAL, steps) && After(INITIAL, steps) == RECREATED
  {
    FirstCreated();
    SecondCreated();
    var a :| Legal(INITIAL, a) && After(INITIAL, a) == CREATED;
    var b :| Legal(DESTROYED, b) && After(DESTROYED, b) == RECREATED;
    assert Do(CREATED, Destroy(0)) == DESTROYED;
    Then(CREATED, Destroy(0), b);
    Append(INITIAL, a, [Destroy(0)] + b);
  }

  /** From there the first supervisor can come to take out the second session's entry. */
  lemma {:induction false} ForeignRemovalHappens()
    ensures exists steps :: Legal(INITIAL, steps) && Foreign(After(INITIAL, steps), 0)
  {
    Recreates();
    var steps :| Legal(INITIAL, steps) && After(INITIAL, steps) == RECREATED;
    var s1 := Do(RECREATED, Alone(0, ChildExits));
    var s2 := Do(s1, Alone(0, SeeExit));
    Then(s1, Alone(0, SeeExit), []);
    Then(RECREATED, Alone(0, ChildExits), [Alone(0, SeeExit)] + []);
    Append(INITIAL, steps, [Alone(0, ChildExits)] + ([Alone(0, SeeExit)] + []));
    assert Foreign(s2, 0);
  }
}
