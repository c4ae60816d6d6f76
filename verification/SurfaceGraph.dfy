/** The graph of surfaces and their children, which compositing walks by recursion: when get_subsurface keeps it
    free of cycles (crates/waymux-session/src/compositor.rs), and what that means for the walk
    (crates/waymux-session/src/composite.rs, `composite_into`). */
module SurfaceGraph {

  /** The children of each surface, by id. */
  type Graph = map<nat, seq<nat>>

  function Children(g: Graph, a: nat): (cs: seq<nat>) { if a in g then g[a] else [] }

  predicate Edge(g: Graph, a: nat, b: nat) { b in Children(g, a) }

  /** A chain of calls: each surface a child of the one before. */
  predicate Path(g: Graph, path: seq<nat>)
  {
    path != [] && forall i :: 0 <= i < |path| - 1 ==> Edge(g, path[i], path[i + 1])
  }

  predicate From(path: seq<nat>, a: nat, b: nat) { path != [] && path[0] == a && path[|path| - 1] == b }

  ghost predicate Reaches(g: Graph, a: nat, b: nat) { exists path :: Path(g, path) && From(path, a, b) }

  ghost predicate Cyclic(g: Graph) { exists a, b :: Reaches(g, a, b) && Edge(g, b, a) }

  /** get_subsurface: the surface is pushed on the parent's list, without a look at the rest. */
  function Registered(g: Graph, parent: nat, surface: nat): (g': Graph)
  {
    g[parent := Children(g, parent) + [surface]]
  }

  // ----- paths

  lemma {:induction false} ReachesSelf(g: Graph, a: nat)
    ensures Reaches(g, a, a)
  {
    assert Path(g, [a]) && From([a], a, a);
  }

  lemma {:induction false} ReachesStep(g: Graph, a: nat, b: nat, c: nat)
    requires Reaches(g, a, b) && Edge(g, b, c)
    ensures Reaches(g, a, c)
  {
    var path :| Path(g, path) && From(path, a, b);
    assert Path(g, path + [c]) && From(path + [c], a, c);
  }

  lemma {:induction false} ReachesTrans(g: Graph, a: nat, b: nat, path: seq<nat>, c: nat)
    requires Reaches(g, a, b) && Path(g, path) && From(path, b, c)
    ensures Reaches(g, a, c)
  {
    if |path| == 1 {
    } else {
      var front := path[..|path| - 1];
      var d := front[|front| - 1];
      ReachesTrans(g, a, b, front, d);
      assert Edge(g, path[|path| - 2], path[|path| - 2 + 1]);
      ReachesStep(g, a, d, c);
    }
  }

  lemma {:induction false} Joined(g: Graph, a: nat, b: nat, c: nat)
    requires Reaches(g, a, b) && Reaches(g, b, c)
    ensures Reaches(g, a, c)
  {
    var path :| Path(g, path) && From(path, b, c);
    ReachesTrans(g, a, b, path, c);
  }

  // ----- registration

  lemma {:induction false} NewEdges(g: Graph, p: nat, s: nat, a: nat, b: nat)
    ensures Edge(Registered(g, p, s), a, b) <==> Edge(g, a, b) || (a == p && b == s)
  {
  }

  /** A way in the new graph is one in the old, or goes to the parent and on from the surface. */
  lemma {:induction false} NewPaths(g: Graph, p: nat, s: nat, path: seq<nat>, a: nat, b: nat)
    requires Path(Registered(g, p, s), path) && From(path, a, b)
    ensures Reaches(g, a, b) || (Reaches(g, a, p) && Reaches(g, s, b))
  {
    if |path| == 1 {
      ReachesSelf(g, a);
    } else {
      var front := path[..|path| - 1];
      var d := front[|front| - 1];
      NewPaths(g, p, s, front, a, d);
      assert Edge(Registered(g, p, s), path[|path| - 2], path[|path| - 2 + 1]);
      NewEdges(g, p, s, d, b);
      ReachesSelf(g, s);
      if Edge(g, d, b) {
        if Reaches(g, a, d) { ReachesStep(g, a, d, b); } else { ReachesStep(g, s, d, b); }
      }
    }
  }

  lemma {:induction false} OldPaths(g: Graph, p: nat, s: nat, a: nat, b: nat)
    requires Reaches(g, a, b)
    ensures Reaches(Registered(g, p, s), a, b)
  {
    var path :| Path(g, path) && From(path, a, b);
    forall i | 0 <= i < |path| - 1 ensures Edge(Registered(g, p, s), path[i], path[i + 1]) {
      NewEdges(g, p, s, path[i], path[i + 1]);
    }
    assert Path(Registered(g, p, s), path);
  }

  lemma {:induction false} NewCycle(g: Graph, p: nat, s: nat)
    requires !Cyclic(g) && Cyclic(Registered(g, p, s))
    ensures Reaches(g, s, p)
  {
    var g' := Registered(g, p, s);
    var a, b :| Reaches(g', a, b) && Edge(g', b, a);
    var path :| Path(g', path) && From(path, a, b);
    NewPaths(g, p, s, path, a, b);
    NewEdges(g, p, s, b, a);
    if !Reaches(g, a, b) && Edge(g, b, a) {
      ReachesStep(g, s, b, a);
      Joined(g, s, a, p);
    }
  }

  /** Registering a surface keeps the graph free of cycles exactly when the parent is not the surface itself or
      below it. */
  lemma {:induction false} RegistrationAcyclic(g: Graph, parent: nat, surface: nat)
    requires !Cyclic(g)
    ensures Cyclic(Registered(g, parent, surface)) <==> Reaches(g, surface, parent)
  {
    if Cyclic(Registered(g, parent, surface)) { NewCycle(g, parent, surface); }
    if Reaches(g, surface, parent) {
      OldPaths(g, parent, surface, surface, parent);
      NewEdges(g, parent, surface, parent, surface);
    }
  }

  /** Taking children away or reordering them, as the other requests do, makes no cycle. */
  lemma {:induction false} FewerEdges(g: Graph, g': Graph)
    requires forall a, b :: Edge(g', a, b) ==> Edge(g, a, b)
    ensures Cyclic(g') ==> Cyclic(g)
  {
    if Cyclic(g') {
      var a, b :| Reaches(g', a, b) && Edge(g', b, a);
      var path :| Path(g', path) && From(path, a, b);
      assert Path(g, path);
      assert Reaches(g, a, b) && Edge(g, b, a);
    }
  }

  // ----- the walk

  lemma {:induction false} RepeatIsCycle(g: Graph, path: seq<nat>, i: nat, j: nat)
    requires Path(g, path) && i < j < |path| && path[i] == path[j]
    ensures Cyclic(g)
  {
    var part := path[i..j];
    forall k | 0 <= k < |part| - 1 ensures Edge(g, part[k], part[k + 1]) {
      assert Edge(g, path[i + k], path[i + k + 1]);
    }
    assert Path(g, part) && From(part, path[i], path[j - 1]);
    assert Edge(g, path[j - 1], path[j - 1 + 1]);
    assert Reaches(g, path[i], path[j - 1]);
  }

  /** Without a cycle no surface comes twice in a chain of calls, so that the walk ends. */
  lemma {:induction false} CallsDistinct(g: Graph, path: seq<nat>, i: nat, j: nat)
    requires Path(g, path) && i < j < |path|
    ensures !Cyclic(g) ==> path[i] != path[j]
  {
    if path[i] == path[j] { RepeatIsCycle(g, path, i, j); }
  }

  /** With a cycle that the root reaches, there are chains of calls of every length: the walk does not end. */
  lemma {:induction false} CallsUnending(g: Graph, root: nat, a: nat, b: nat, n: nat)
    requires Reaches(g, root, a) && Reaches(g, a, b) && Edge(g, b, a)
    ensures exists path :: Path(g, path) && |path| > n && From(path, root, a)
  {
    if n == 0 {
      var path :| Path(g, path) && From(path, root, a);
    } else {
      CallsUnending(g, root, a, b, n - 1);
      var path :| Path(g, path) && |path| > n - 1 && From(path, root, a);
      var loop :| Path(g, loop) && From(loop, a, b);
      var longer := path + loop[1..] + [a];
      assert Path(g, longer) && From(longer, root, a);
    }
  }

  /** A surface registered as its own child: the walk from it does not end. */
  lemma {:induction false} OwnChild(s: nat, n: nat)
    ensures var g := Registered(map[], s, s); exists path :: Path(g, path) && |path| > n && From(path, s, s)
  {
    var g := Registered(map[], s, s);
    ReachesSelf(g, s);
    NewEdges(map[], s, s, s, s);
    CallsUnending(g, s, s, s, n);
  }
}
