/** The stacking order of subsurfaces: edits of a parent's children list
    (crates/waymux-session/src/compositor.rs, the wl_subcompositor and wl_subsurface dispatchers). */
module Subsurface {
  import opened Composite
  import opened CompositeLaws

  type Children = seq<Child>

  function Id(c: Child): (id: nat) { c.surface.id }

  // ----- list edits

  /** The first child with this id, or the length of the list. */
  function IndexOf(cs: Children, id: nat): (i: nat)
    ensures i <= |cs|
    ensures i < |cs| ==> Id(cs[i]) == id
    ensures forall j :: 0 <= j < i ==> Id(cs[j]) != id
  {
    if cs == [] || Id(cs[0]) == id then 0 else 1 + IndexOf(cs[1..], id)
  }

  predicate Has(cs: Children, id: nat) { IndexOf(cs, id) < |cs| }

  function RemoveAt(cs: Children, i: nat): (r: Children)
    requires i < |cs|
  {
    cs[..i] + cs[i + 1..]
  }

  function InsertAt(cs: Children, i: nat, c: Child): (r: Children)
    requires i <= |cs|
  {
    cs[..i] + [c] + cs[i..]
  }

  /** `retain`: drop every child with this id. */
  function Without(cs: Children, id: nat): (r: Children)
  {
    if cs == [] then [] else
    var n := |cs| - 1;
    Without(cs[..n], id) + (if Id(cs[n]) == id then [] else [cs[n]])
  }

  datatype Request =
    | GetSubsurface(surface: Surface)
    | SetPosition(id: nat, x: i32, y: i32)
    | PlaceAbove(id: nat, sibling: nat)
    | PlaceBelow(id: nat, sibling: nat)
    | Destroy(id: nat)

  /** Where the moved child goes in the list it was taken out of. */
  function Target(rest: Children, req: Request, parent: nat): (i: nat)
    requires req.PlaceAbove? || req.PlaceBelow?
    ensures i <= |rest|
  {
    if req.PlaceAbove? then
      if req.sibling == parent || !Has(rest, req.sibling) then |rest| else IndexOf(rest, req.sibling) + 1
    else
      if req.sibling == parent || !Has(rest, req.sibling) then 0 else IndexOf(rest, req.sibling)
  }

  function Apply(cs: Children, req: Request, parent: nat): (r: Children)
  {
    match req
    case GetSubsurface(s) => cs + [Child(s, 0, 0)]
    case SetPosition(id, x, y) =>
      if Has(cs, id) then cs[IndexOf(cs, id) := Child(cs[IndexOf(cs, id)].surface, x, y)] else cs
    case Destroy(id) => Without(cs, id)
    case _ =>
      if !Has(cs, req.id) then cs else
      var rest := RemoveAt(cs, IndexOf(cs, req.id));
      InsertAt(rest, Target(rest, req, parent), cs[IndexOf(cs, req.id)])
  }

  // ----- distinct ids

  ghost predicate Distinct(cs: Children)
  {
    forall i, j :: 0 <= i < j < |cs| ==> Id(cs[i]) != Id(cs[j])
  }

  lemma {:induction false} WithoutIn(cs: Children, id: nat, c: Child)
    requires c in Without(cs, id)
    ensures c in cs
  {
    if cs == [] {
    } else {
      var n := |cs| - 1;
      if c in Without(cs[..n], id) {
        WithoutIn(cs[..n], id, c);
      } else {
        assert c == cs[n];
      }
    }
  }

  lemma {:induction false} WithoutKeeps(cs: Children, id: nat)
    requires Distinct(cs)
    ensures Distinct(Without(cs, id))
  {
    if cs == [] {
    } else {
      var n := |cs| - 1;
      var rest := Without(cs[..n], id);
      WithoutKeeps(cs[..n], id);
      forall i | 0 <= i < |rest| ensures Id(rest[i]) != Id(cs[n]) {
        WithoutIn(cs[..n], id, rest[i]);
        var j :| 0 <= j < n && cs[j] == rest[i];
      }
    }
  }

  lemma {:induction false} MoveKeepsDistinct(cs: Children, i: nat, k: nat)
    requires Distinct(cs) && i < |cs| && k < |cs|
    ensures Distinct(InsertAt(RemoveAt(cs, i), k, cs[i]))
  {
    var rest := RemoveAt(cs, i);
    forall j | 0 <= j < |rest| ensures Id(rest[j]) != Id(cs[i]) {}
    forall p, q | 0 <= p < q < |rest| ensures Id(rest[p]) != Id(rest[q]) {
      var (p', q') := (if p < i then p else p + 1, if q < i then q else q + 1);
      assert rest[p] == cs[p'] && rest[q] == cs[q'];
    }
  }

  /** A request keeps the ids distinct exactly when it does not register a surface that is already a child:
      get_subsurface itself does not check. */
  lemma {:induction false} RequestKeepsDistinct(cs: Children, req: Request, parent: nat)
    requires Distinct(cs)
    ensures Distinct(Apply(cs, req, parent)) <==> !(req.GetSubsurface? && Has(cs, req.surface.id))
  {
    match req
    case GetSubsurface(s) =>
      var r := cs + [Child(s, 0, 0)];
      var i := IndexOf(cs, s.id);
      if i < |cs| { assert Id(r[i]) == Id(r[|cs|]); }
    case SetPosition(id, x, y) =>
    case Destroy(id) => WithoutKeeps(cs, id);
    case _ =>
      if Has(cs, req.id) {
        var i := IndexOf(cs, req.id);
        MoveKeepsDistinct(cs, i, Target(RemoveAt(cs, i), req, parent));
      }
  }

  function Run(cs: Children, reqs: seq<Request>, parent: nat): (r: Children)
    decreases |reqs|
  {
    if reqs == [] then cs else Run(Apply(cs, reqs[0], parent), reqs[1..], parent)
  }

  /** No request registers a surface that is a child at that moment. */
  predicate RegistersOnce(cs: Children, reqs: seq<Request>, parent: nat)
    decreases |reqs|
  {
    reqs == [] ||
    (!(reqs[0].GetSubsurface? && Has(cs, reqs[0].surface.id))
        && RegistersOnce(Apply(cs, reqs[0], parent), reqs[1..], parent))
  }

  ghost predicate AlwaysDistinct(cs: Children, reqs: seq<Request>, parent: nat)
  {
    forall n :: 0 <= n <= |reqs| ==> Distinct(Run(cs, reqs[..n], parent))
  }

  /** Registering a surface twice leaves it in the list twice. */
  lemma {:induction false} RegisteredTwice(s: Surface, parent: nat)
    ensures var cs := Apply(Apply([], GetSubsurface(s), parent), GetSubsurface(s), parent);
            |cs| == 2 && Id(cs[0]) == Id(cs[1]) && !Distinct(cs)
  {
  }

  /** Over every run the ids are distinct after every request, exactly when each registration is of a
      surface that is not a child at that moment. */
  lemma {:induction false} RunKeepsDistinct(cs: Children, reqs: seq<Request>, parent: nat)
    requires Distinct(cs)
    ensures AlwaysDistinct(cs, reqs, parent) <==> RegistersOnce(cs, reqs, parent)
    decreases |reqs|
  {
    if reqs == [] {
      forall n | 0 <= n <= |reqs| ensures Distinct(Run(cs, reqs[..n], parent)) { assert reqs[..n] == []; }
    } else {
      var next := Apply(cs, reqs[0], parent);
      RequestKeepsDistinct(cs, reqs[0], parent);
      AlwaysDistinctStep(cs, reqs, parent);
      if Distinct(next) { RunKeepsDistinct(next, reqs[1..], parent); }
    }
  }

  lemma {:induction false} AlwaysDistinctStep(cs: Children, reqs: seq<Request>, parent: nat)
    requires Distinct(cs) && reqs != []
    ensures var next := Apply(cs, reqs[0], parent);
            AlwaysDistinct(cs, reqs, parent) <==> Distinct(next) && AlwaysDistinct(next, reqs[1..], parent)
  {
    var next := Apply(cs, reqs[0], parent);
    forall n | 0 <= n < |reqs| ensures Run(cs, reqs[..n + 1], parent) == Run(next, reqs[1..][..n], parent) {
      assert reqs[..n + 1][1..] == reqs[1..][..n];
    }
    assert reqs[..0] == [] && reqs[1..][..0] == [];
    if Distinct(next) && AlwaysDistinct(next, reqs[1..], parent) {
      forall n | 0 <= n <= |reqs| ensures Distinct(Run(cs, reqs[..n], parent)) {
        if n > 0 { assert Distinct(Run(next, reqs[1..][..n - 1], parent)); }
      }
    }
    if AlwaysDistinct(cs, reqs, parent) {
      forall n | 0 <= n <= |reqs[1..]| ensures Distinct(Run(next, reqs[1..][..n], parent)) {
        assert Distinct(Run(cs, reqs[..n + 1], parent));
      }
      assert Run(next, reqs[1..][..0], parent) == next;
    }
  }

  // ----- order

  lemma {:induction false} WithoutConcat(a: Children, b: Children, id: nat)
    ensures Without(a + b, id) == Without(a, id) + Without(b, id)
  {
    if b == [] {
      assert a + b == a;
    } else {
      assert (a + b)[..|a + b| - 1] == a + b[..|b| - 1];
      WithoutConcat(a, b[..|b| - 1], id);
    }
  }

  lemma {:induction false} WithoutOne(c: Child, id: nat)
    ensures Without([c], id) == if Id(c) == id then [] else [c]
  {
    assert [c][..0] == [];
  }

  /** The other children, their positions and their order survive every request. */
  lemma {:induction false} OthersKept(cs: Children, req: Request, parent: nat)
    ensures var id := if req.GetSubsurface? then req.surface.id else req.id;
            Without(Apply(cs, req, parent), id) == Without(cs, id)
  {
    match req
    case GetSubsurface(s) =>
      WithoutConcat(cs, [Child(s, 0, 0)], s.id);
      WithoutOne(Child(s, 0, 0), s.id);
    case SetPosition(id, x, y) =>
      if Has(cs, id) { ReplacedKept(cs, IndexOf(cs, id), Child(cs[IndexOf(cs, id)].surface, x, y)); }
    case Destroy(id) => WithoutTwice(cs, id);
    case _ =>
      if Has(cs, req.id) {
        var i := IndexOf(cs, req.id);
        MovedKept(cs, i, Target(RemoveAt(cs, i), req, parent));
      }
  }

  lemma {:induction false} ReplacedKept(cs: Children, i: nat, c: Child)
    requires i < |cs| && Id(c) == Id(cs[i])
    ensures Without(cs[i := c], Id(c)) == Without(cs, Id(c))
  {
    WithoutMiddle(cs[..i], cs[i], cs[i + 1..]);
    WithoutMiddle(cs[..i], c, cs[i + 1..]);
    assert cs == cs[..i] + [cs[i]] + cs[i + 1..] && cs[i := c] == cs[..i] + [c] + cs[i + 1..];
  }

  lemma {:induction false} MovedKept(cs: Children, i: nat, k: nat)
    requires i < |cs| && k < |cs|
    ensures Without(InsertAt(RemoveAt(cs, i), k, cs[i]), Id(cs[i])) == Without(cs, Id(cs[i]))
  {
    var rest := RemoveAt(cs, i);
    WithoutMiddle(cs[..i], cs[i], cs[i + 1..]);
    WithoutMiddle(rest[..k], cs[i], rest[k..]);
    assert cs == cs[..i] + [cs[i]] + cs[i + 1..] && rest == rest[..k] + rest[k..];
  }

  lemma {:induction false} WithoutMiddle(a: Children, c: Child, b: Children)
    ensures Without(a + [c] + b, Id(c)) == Without(a + b, Id(c))
  {
    WithoutConcat(a + [c], b, Id(c));
    WithoutConcat(a, [c], Id(c));
    WithoutConcat(a, b, Id(c));
    WithoutOne(c, Id(c));
  }

  lemma {:induction false} WithoutTwice(cs: Children, id: nat)
    ensures Without(Without(cs, id), id) == Without(cs, id)
  {
    if cs == [] {
    } else {
      var n := |cs| - 1;
      WithoutTwice(cs[..n], id);
      var last := if Id(cs[n]) == id then [] else [cs[n]];
      WithoutConcat(Without(cs[..n], id), last, id);
      if Id(cs[n]) != id { WithoutOne(cs[n], id); }
    }
  }

  /** A restacked child ends up directly above or below a named sibling; above or below everything when
      the sibling is the parent, or is not another child. */
  lemma {:induction false} PlacedNextTo(cs: Children, req: Request, parent: nat)
    requires Distinct(cs) && (req.PlaceAbove? || req.PlaceBelow?) && Has(cs, req.id)
    ensures var r := Apply(cs, req, parent);
            var named := req.sibling != parent && req.sibling != req.id && Has(cs, req.sibling);
            && |r| == |cs| && Has(r, req.id) && r[IndexOf(r, req.id)] == cs[IndexOf(cs, req.id)]
            && (req.PlaceAbove? ==> IndexOf(r, req.id) == if named then IndexOf(r, req.sibling) + 1 else |r| - 1)
            && (req.PlaceBelow? ==> if named then IndexOf(r, req.id) + 1 == IndexOf(r, req.sibling)
                else IndexOf(r, req.id) == 0)
  {
    var i := IndexOf(cs, req.id);
    var rest := RemoveAt(cs, i);
    RestHas(cs, i, req.sibling);
    MovedIndex(cs, i, Target(rest, req, parent), if Has(rest, req.sibling) then IndexOf(rest, req.sibling) else 0);
  }

  lemma {:induction false} MovedIndex(cs: Children, i: nat, k: nat, m: nat)
    requires Distinct(cs) && i < |cs| && k < |cs|
    ensures var (rest, c) := (RemoveAt(cs, i), cs[i]);
            var r := InsertAt(rest, k, c);
            && |r| == |cs| && r[k] == c && IndexOf(r, Id(c)) == k
            && (m < |rest| ==> IndexOf(r, Id(rest[m])) == if m < k then m else m + 1)
  {
    var (rest, c) := (RemoveAt(cs, i), cs[i]);
    var r := InsertAt(rest, k, c);
    MoveKeepsDistinct(cs, i, k);
    Uniquely(r, k);
    if m < |rest| { Uniquely(r, if m < k then m else m + 1); }
  }

  lemma {:induction false} Uniquely(cs: Children, i: nat)
    requires Distinct(cs) && i < |cs|
    ensures IndexOf(cs, Id(cs[i])) == i
  {
  }

  lemma {:induction false} RestHas(cs: Children, i: nat, id: nat)
    requires Distinct(cs) && i < |cs|
    ensures Has(RemoveAt(cs, i), id) <==> Has(cs, id) && id != Id(cs[i])
  {
    var rest := RemoveAt(cs, i);
    var k := IndexOf(cs, id);
    if Has(cs, id) && id != Id(cs[i]) {
      assert rest[if k < i then k else k - 1] == cs[k];
    }
    var m := IndexOf(rest, id);
    if m < |rest| { assert rest[m] == cs[if m < i then m else m + 1]; }
  }

  // ----- what a request makes of its own subject

  lemma {:induction false} WithoutGone(cs: Children, id: nat, c: Child)
    ensures c in Without(cs, id) <==> c in cs && c.surface.id != id
  {
    if cs == [] {
    } else {
      var n := |cs| - 1;
      WithoutGone(cs[..n], id, c);
      assert cs == cs[..n] + [cs[n]];
    }
  }

  predicate Absent(cs: Children, id: nat) { forall i :: 0 <= i < |cs| ==> cs[i].surface.id != id }

  /** No request of the run registers this surface. */
  predicate NotRegistered(reqs: seq<Request>, id: nat)
  {
    forall i :: 0 <= i < |reqs| && reqs[i].GetSubsurface? ==> reqs[i].surface.id != id
  }

  lemma {:induction false} DestroyedAbsent(cs: Children, id: nat, parent: nat)
    ensures Absent(Apply(cs, Destroy(id), parent), id)
  {
    var r := Apply(cs, Destroy(id), parent);
    forall i | 0 <= i < |r| ensures r[i].surface.id != id { WithoutGone(cs, id, r[i]); }
  }

  lemma {:induction false} AbsentStep(cs: Children, req: Request, parent: nat, id: nat)
    requires Absent(cs, id) && (req.GetSubsurface? ==> req.surface.id != id)
    ensures Absent(Apply(cs, req, parent), id)
  {
    match req
    case GetSubsurface(_) =>
    case SetPosition(_, _, _) =>
    case Destroy(_) =>
      var r := Apply(cs, req, parent);
      forall i | 0 <= i < |r| ensures r[i].surface.id != id { WithoutGone(cs, req.id, r[i]); }
    case _ =>
      if Has(cs, req.id) {
        var k := IndexOf(cs, req.id);
        AbsentMoved(cs, k, Target(RemoveAt(cs, k), req, parent), id);
      }
  }

  lemma {:induction false} AbsentMoved(cs: Children, k: nat, m: nat, id: nat)
    requires Absent(cs, id) && k < |cs| && m < |cs|
    ensures Absent(InsertAt(RemoveAt(cs, k), m, cs[k]), id)
  {
    var rest := RemoveAt(cs, k);
    forall i | 0 <= i < |rest| ensures rest[i].surface.id != id {
      assert rest[i] == cs[if i < k then i else i + 1];
    }
    var r := InsertAt(rest, m, cs[k]);
    forall i | 0 <= i < |r| ensures r[i].surface.id != id {
      if i != m { assert r[i] == rest[if i < m then i else i - 1]; }
    }
  }

  lemma {:induction false} StaysAbsent(cs: Children, reqs: seq<Request>, parent: nat, id: nat)
    requires Absent(cs, id) && NotRegistered(reqs, id)
    ensures Absent(Run(cs, reqs, parent), id)
    decreases |reqs|
  {
    if reqs == [] {
    } else {
      AbsentStep(cs, reqs[0], parent, id);
      StaysAbsent(Apply(cs, reqs[0], parent), reqs[1..], parent, id);
    }
  }

  /** A destroyed subsurface leaves the stack, and over every run it is absent until it is registered again. */
  lemma {:induction false} DestroyedGone(cs: Children, id: nat, reqs: seq<Request>, parent: nat)
    requires NotRegistered(reqs, id)
    ensures Absent(Run(Apply(cs, Destroy(id), parent), reqs, parent), id)
  {
    DestroyedAbsent(cs, id, parent);
    StaysAbsent(Apply(cs, Destroy(id), parent), reqs, parent, id);
  }

  /** A registered surface goes on top of the others, at its parent's corner; they stay as they are. */
  lemma {:induction false} RegisteredOnTop(cs: Children, s: Surface, parent: nat)
    ensures var r := Apply(cs, GetSubsurface(s), parent);
            && |r| == |cs| + 1 && r[..|cs|] == cs
            && r[|cs|].surface == s && r[|cs|].x == 0 && r[|cs|].y == 0
  {
  }

  /** A positioned child keeps its surface and its place in the stack; nothing else changes, nor anything if there is
      no such child. */
  lemma {:induction false} PositionedInPlace(cs: Children, id: nat, x: i32, y: i32, parent: nat)
    ensures var r := Apply(cs, SetPosition(id, x, y), parent);
            && |r| == |cs|
            && (Absent(cs, id) ==> r == cs)
            && forall i :: 0 <= i < |cs| ==>
                 if cs[i].surface.id == id && Absent(cs[..i], id)
                 then r[i].surface == cs[i].surface && r[i].x == x && r[i].y == y
                 else r[i] == cs[i]
  {
    var (r, k) := (Apply(cs, SetPosition(id, x, y), parent), IndexOf(cs, id));
    forall i | 0 <= i < |cs| && cs[i].surface.id == id && Absent(cs[..i], id) ensures i == k { FirstWithId(cs, id, i); }
    if k < |cs| { assert Absent(cs[..k], id); }
  }

  lemma {:induction false} FirstWithId(cs: Children, id: nat, i: nat)
    requires i < |cs| && cs[i].surface.id == id && Absent(cs[..i], id)
    ensures IndexOf(cs, id) == i
  {
    forall j | 0 <= j < i ensures cs[j].surface.id != id { assert cs[..i][j] == cs[j]; }
  }

  /** Restacking what is not a child changes nothing. */
  lemma {:induction false} RestackAbsent(cs: Children, req: Request, parent: nat)
    requires (req.PlaceAbove? || req.PlaceBelow?) && Absent(cs, req.id)
    ensures Apply(cs, req, parent) == cs
  {
  }

  /** The request is about another child, or only restacks this one. */
  predicate LeavesBe(req: Request, id: nat)
  {
    match req
    case GetSubsurface(s) => true
    case SetPosition(other, _, _) => other != id
    case Destroy(other) => other != id
    case _ => true
  }

  lemma {:induction false} ChildStays(cs: Children, req: Request, parent: nat, c: Child)
    requires c in cs && LeavesBe(req, c.surface.id)
    ensures c in Apply(cs, req, parent)
  {
    var r := Apply(cs, req, parent);
    match req
    case GetSubsurface(_) =>
    case SetPosition(_, _, _) =>
      var i :| 0 <= i < |cs| && cs[i] == c;
      assert r[i] == c;
    case Destroy(id) => WithoutGone(cs, id, c);
    case _ =>
      if Has(cs, req.id) {
        var i :| 0 <= i < |cs| && cs[i] == c;
        var (k, m) := (IndexOf(cs, req.id), Target(RemoveAt(cs, IndexOf(cs, req.id)), req, parent));
        MovedHas(cs, k, m, i);
      }
  }

  lemma {:induction false} MovedHas(cs: Children, k: nat, m: nat, i: nat)
    requires k < |cs| && m < |cs| && i < |cs|
    ensures cs[i] in InsertAt(RemoveAt(cs, k), m, cs[k])
  {
    var (rest, r) := (RemoveAt(cs, k), InsertAt(RemoveAt(cs, k), m, cs[k]));
    if i == k {
      assert r[m] == cs[k];
    } else {
      var j := if i < k then i else i - 1;
      assert rest[j] == cs[i];
      assert r[if j < m then j else j + 1] == rest[j];
    }
  }

  /** A child stays, at the position last set, through every run that neither sets it again nor destroys it. */
  lemma {:induction false} KeepsPosition(cs: Children, reqs: seq<Request>, parent: nat, c: Child)
    requires c in cs && forall i :: 0 <= i < |reqs| ==> LeavesBe(reqs[i], c.surface.id)
    ensures c in Run(cs, reqs, parent)
    decreases |reqs|
  {
    if reqs == [] {
    } else {
      ChildStays(cs, reqs[0], parent, c);
      KeepsPosition(Apply(cs, reqs[0], parent), reqs[1..], parent, c);
    }
  }

  // ----- restacking and the image

  /** The list with the child at i moved to k. */
  function Moved(cs: Children, i: nat, k: nat): (r: Children)
    requires i < |cs| && k < |cs|
    ensures |r| == |cs| && r[k] == cs[i]
    ensures forall m :: 0 <= m < |cs| && m != k ==>
              r[m] == cs[if i <= m < k then m + 1 else if k < m <= i then m - 1 else m]
  {
    InsertAt(RemoveAt(cs, i), k, cs[i])
  }

  /** The child at i draws on no pixel of the siblings between it and k. */
  ghost predicate ClearTo(cs: Children, i: nat, k: nat, x: i32, y: i32)
    requires i < |cs| && k < |cs|
  {
    forall m :: 0 <= m < |cs| && (i < m <= k || k <= m < i) ==> Disjoint(LayersOf(cs[i], x, y), LayersOf(cs[m], x, y))
  }

  /** Moving a child past siblings it does not overlap does not change the image. */
  lemma {:induction false} MoveDisjoint(s: Surface, i: nat, k: nat, x: i32, y: i32, px: int, py: int)
    requires i < |s.children| && k < |s.children| && ClearTo(s.children, i, k, x, y)
    ensures ShowsSame(s, s.(children := Moved(s.children, i, k)), x, y, px, py)
    decreases if i < k then k - i else i - k
  {
    var cs := s.children;
    if i == k {
      assert Moved(cs, i, k) == cs;
    } else {
      var j := if i < k then k - 1 else k + 1;
      MoveDisjoint(s, i, j, x, y, px, py);
      var t := s.(children := Moved(cs, i, j));
      var at := if i < k then j else k;
      assert SwapAt(t.children, at) == Moved(cs, i, k);
      assert Disjoint(LayersOf(cs[i], x, y), LayersOf(cs[k], x, y));
      assert t.children[j] == cs[i] && t.children[k] == cs[k];
      forall under
        ensures Paint(Layers(t, x, y), px, py, under)
              == Paint(Layers(s.(children := Moved(cs, i, k)), x, y), px, py, under)
      {
        SwapDisjointSiblings(t, at, x, y, px, py, under);
      }
    }
  }

  /** Restacking a child of any surface of the tree, above or below any sibling, does not change the image if
      the child draws on no pixel of the siblings it passes. */
  lemma {:induction false} RestackDisjoint(s: Surface, path: seq<nat>, req: Request, x: i32, y: i32, px: int, py: int)
    requires ValidPath(s, path) && (req.PlaceAbove? || req.PlaceBelow?) && Has(SurfaceAt(s, path).children, req.id)
    requires var (t, o) := (SurfaceAt(s, path), OffsetAt(s, path, x, y));
             var i := IndexOf(t.children, req.id);
             ClearTo(t.children, i, Target(RemoveAt(t.children, i), req, t.id), o.0, o.1)
    ensures var t := SurfaceAt(s, path);
            ShowsSame(s, Replaced(s, path, t.(children := Apply(t.children, req, t.id))), x, y, px, py)
  {
    var (t, o) := (SurfaceAt(s, path), OffsetAt(s, path, x, y));
    var i := IndexOf(t.children, req.id);
    MoveDisjoint(t, i, Target(RemoveAt(t.children, i), req, t.id), o.0, o.1, px, py);
    ReplacedSame(s, path, t.(children := Apply(t.children, req, t.id)), x, y, px, py);
  }

  // ----- the dispatcher

  /** A parent's `SurfaceData.children`, edited in place. */
  class Stack {
    const parent: nat
    var children: Children

    constructor (parent: nat)
      ensures this.parent == parent && children == []
    {
      this.parent, children := parent, [];
    }

    /** `children.iter().position(..)`. */
    method Position(id: nat) returns (i: nat)
      ensures i == IndexOf(children, id)
    {
      i := 0;
      while i < |children| && Id(children[i]) != id
        invariant 0 <= i <= |children|
        invariant forall j :: 0 <= j < i ==> Id(children[j]) != id
      {
        i := i + 1;
      }
    }

    method Dispatch(req: Request)
      modifies this
      ensures children == Apply(old(children), req, parent)
    {
      match req {
        case GetSubsurface(s) => children := children + [Child(s, 0, 0)];
        case SetPosition(id, x, y) =>
          var i := Position(id);
          if i < |children| { children := children[i := Child(children[i].surface, x, y)]; }
        case Destroy(id) => Retain(id);
        case PlaceAbove(id, sibling) => PlaceAbove(id, sibling);
        case PlaceBelow(id, sibling) => PlaceBelow(id, sibling);
      }
    }

    method PlaceAbove(id: nat, sibling: nat)
      modifies this
      ensures children == Apply(old(children), Request.PlaceAbove(id, sibling), parent)
    {
      var ci := Position(id);
      if ci < |children| {
        var child := children[ci];
        children := RemoveAt(children, ci);
        var at := |children|;
        if sibling != parent {
          var si := Position(sibling);
          if si < |children| { at := si + 1; }
        }
        children := InsertAt(children, at, child);
      }
    }

    method PlaceBelow(id: nat, sibling: nat)
      modifies this
      ensures children == Apply(old(children), Request.PlaceBelow(id, sibling), parent)
    {
      var ci := Position(id);
      if ci < |children| {
        var child := children[ci];
        children := RemoveAt(children, ci);
        var at := 0;
        if sibling != parent {
          var si := Position(sibling);
          if si < |children| { at := si; }
        }
        children := InsertAt(children, at, child);
      }
    }

    /** `retain(|c| c.surface.id() != id)`. */
    method Retain(id: nat)
      modifies this
      ensures children == Without(old(children), id)
    {
      var kept, i := [], 0;
      while i < |children|
        invariant 0 <= i <= |children| && children == old(children)
        invariant kept == Without(children[..i], id)
      {
        assert children[..i + 1][..i] == children[..i];
        if Id(children[i]) != id { kept := kept + [children[i]]; }
        i := i + 1;
      }
      assert children[..i] == children;
      children := kept;
    }
  }
}
