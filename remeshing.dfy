/** The remeshing drivers `optimise_trimesh_topology` and the older `remesh`.

    Both run `kmax` iterations of a state machine whose phase counter cycles
    split, collapse, swap and an idle step. A split or collapse pass visits a
    snapshot of the edge list and acts on an edge only when it is longer
    (shorter) than a threshold with a slack that ramps down to zero, and
    only when neither end point was touched earlier in the same pass. A swap
    pass flips an interior edge when that strictly lowers the valence error.
    Every tenth iteration of each block of twenty compares the vertex count
    with the one sampled ten iterations before and may stop early.

    The mesh operators the drivers call (`split_edge_trimesh`,
    `collapse_edge_trimesh`, `swap_edge_trimesh`, centroid smoothing), the
    edge list, the edge length and the user callback are not part of this
    model: they are function values in `Operators`, and all the model
    assumes of the operators is that each keeps the mesh well-formed. */
module Remeshing {
  import opened Wrappers
  import opened HalfEdgeMesh

  type Edge = (VKey, VKey)

  datatype Operators = Operators(
    edges: Store -> seq<Edge>,                  // mesh.edges()
    length: (Store, VKey, VKey) -> real,        // mesh.edge_length(u, v)
    split: (Store, VKey, VKey, bool) -> Store,  // split_edge_trimesh(mesh, u, v, allow_boundary=..)
    collapse: (Store, VKey, VKey) -> Store,     // collapse_edge_trimesh(mesh, u, v)
    swap: (Store, VKey, VKey) -> Store,         // swap_edge_trimesh(mesh, u, v)
    smooth: (Store, set<VKey>) -> Store,        // one round of centroid smoothing with `fixed`
    callback: Option<(Store, nat) -> Store>)    // ufunc(mesh, k[, ufunc_args])

  /** Each operator keeps a well-formed mesh well-formed. */
  ghost predicate Sound(ops: Operators) {
    && (forall s, u, v, b :: WellFormed(s) ==> WellFormed(ops.split(s, u, v, b)))
    && (forall s, u, v :: WellFormed(s) ==> WellFormed(ops.collapse(s, u, v)))
    && (forall s, u, v :: WellFormed(s) ==> WellFormed(ops.swap(s, u, v)))
    && (forall s, fixed :: WellFormed(s) ==> WellFormed(ops.smooth(s, fixed)))
    && (ops.callback.Some? ==> forall s, k :: WellFormed(s) ==> WellFormed(ops.callback.value(s, k)))
  }

  /** `set(mesh.vertices_on_boundary())`: the vertices incident to a
      half-edge that borders no face, at either end. */
  function BoundaryVertices(s: Store): (r: set<VKey>)
    ensures forall u, v :: u in s.halfedge && v in s.halfedge[u] && s.halfedge[u][v].None? ==> u in r && v in r
  {
    (set u, v | u in s.halfedge && v in s.halfedge[u] && s.halfedge[u][v].None? :: u) +
    (set u, v | u in s.halfedge && v in s.halfedge[u] && s.halfedge[u][v].None? :: v)
  }

  /** On a well-formed store the set is exactly the vertices with an
      outgoing unbound half-edge: the head of an unbound half-edge always
      has an unbound half-edge of its own leaving it. */
  lemma BoundaryVerticesOnBoundary(s: Store, u: VKey)
    requires WellFormed(s)
    ensures u in BoundaryVertices(s) <==> OnBoundary(s, u)
  {
    if OnBoundary(s, u) {
      var v :| v in s.halfedge[u] && s.halfedge[u][v] == None;
      assert u in (set u, v | u in s.halfedge && v in s.halfedge[u] && s.halfedge[u][v].None? :: u);
    }
    if u in BoundaryVertices(s) {
      var a, b :| a in s.halfedge && b in s.halfedge[a] && s.halfedge[a][b].None? && (u == a || u == b);
      if u == b {
        assert HalfedgeOk(s, a, b);
        BoundaryBothWays(s, b);
      }
    }
  }

  // ---------------------------------------------------------------------------
  // Thresholds and the ramp
  // ---------------------------------------------------------------------------

  /** `lmin = (1 - tol) * (4 / 5) * target`: for a positive target and a
      tolerance in [0, 1), a positive length below the target. */
  function MinLength(tol: real, target: real): (r: real)
    ensures 0.0 <= tol < 1.0 && target > 0.0 ==> 0.0 < r < target
  {
    var q := (1.0 - tol) * (4.0 / 5.0);
    var r := q * target;
    if 0.0 <= tol < 1.0 && target > 0.0 then Shrinks(q, target); assert 0.0 < r < target; r else r
  }

  /** `lmax = (1 + tol) * (4 / 3) * target`: for a positive target and a
      non-negative tolerance, a length above the target. */
  function MaxLength(tol: real, target: real): (r: real)
    ensures 0.0 <= tol && target > 0.0 ==> r > target
  {
    var q := (1.0 + tol) * (4.0 / 3.0);
    assert 0.0 <= tol ==> q > 1.0;
    q * target
  }

  /** A factor in (0, 1) shrinks a positive length. */
  lemma Shrinks(q: real, x: real)
    requires 0.0 < q < 1.0 && x > 0.0
    ensures 0.0 < q * x < x
  {
    assert x - q * x == (1.0 - q) * x;
  }

  /** The slack added to the threshold `l` in iteration `k`:
      `l * fac * (1 - k / kmax_start)` while `k <= kmax_start`, else 0.
      Dividing by a zero `kmax_start` raises. */
  function Slack(l: real, fac: real, k: nat, kmaxStart: real): (r: Result<real>)
    ensures r.Err? <==> k as real <= kmaxStart && kmaxStart == 0.0
    ensures r.Err? ==> r.error == ZeroDivisionError
    ensures k as real > kmaxStart ==> r == Ok(0.0)
  {
    if k as real <= kmaxStart then
      if kmaxStart == 0.0 then Err(ZeroDivisionError)
      else Ok(l * (fac * (1.0 - k as real / kmaxStart)))
    else Ok(0.0)
  }

  /** The ramp starts at the full `l * fac`, reaches 0 at `k = kmax_start`
      and stays there. */
  lemma SlackEnds(l: real, fac: real, kmaxStart: real, k: nat)
    requires kmaxStart > 0.0
    ensures Slack(l, fac, 0, kmaxStart) == Ok(l * fac)
    ensures k as real >= kmaxStart ==> Slack(l, fac, k, kmaxStart) == Ok(0.0)
  {
    var z: nat := 0;
    var r0 := Slack(l, fac, z, kmaxStart);
    assert z as real / kmaxStart == 0.0;
    assert r0.Ok? && r0.value == l * (fac * (1.0 - 0.0));
    if k as real == kmaxStart {
      var r := Slack(l, fac, k, kmaxStart);
      assert k as real / kmaxStart == 1.0;
      assert r.Ok? && r.value == l * (fac * (1.0 - 1.0));
    }
  }

  /** For a non-negative `l * fac` the slack shrinks as `k` grows and is
      never negative. */
  lemma SlackShrinks(l: real, fac: real, kmaxStart: real, j: nat, k: nat)
    requires kmaxStart > 0.0 && l >= 0.0 && fac >= 0.0 && j <= k
    ensures Slack(l, fac, j, kmaxStart).Ok? && Slack(l, fac, k, kmaxStart).Ok?
    ensures 0.0 <= Slack(l, fac, k, kmaxStart).value <= Slack(l, fac, j, kmaxStart).value
  {
    var lf := l * fac;
    assert lf >= 0.0;
    if k as real <= kmaxStart {
      var a, b := j as real / kmaxStart, k as real / kmaxStart;
      assert a <= b <= 1.0 by {
        assert j as real <= k as real;
      }
      assert l * (fac * (1.0 - b)) == lf * (1.0 - b);
      assert l * (fac * (1.0 - a)) == lf * (1.0 - a);
      assert lf * (1.0 - b) <= lf * (1.0 - a);
      assert 0.0 <= lf * (1.0 - b);
    } else if j as real <= kmaxStart {
      var a := j as real / kmaxStart;
      assert a <= 1.0;
      assert l * (fac * (1.0 - a)) == lf * (1.0 - a);
      assert 0.0 <= lf * (1.0 - a);
    }
  }

  // ---------------------------------------------------------------------------
  // The phase counter
  // ---------------------------------------------------------------------------

  datatype Phase = SplitPhase | CollapsePhase | SwapPhase | Idle

  /** The pass run when the counter, just incremented, is `count`. */
  function PhaseOf(count: int): Phase {
    if count == 1 then SplitPhase
    else if count == 2 then CollapsePhase
    else if count == 3 then SwapPhase
    else Idle
  }

  /** The phase of iteration `k` when the counter starts at 0. */
  function PhaseAt(k: nat): Phase {
    PhaseOf(k % 4 + 1)
  }

  /** The phases run split, collapse, swap, idle, and repeat with period
      exactly 4. */
  lemma PhasePeriod(k: nat, d: nat)
    ensures PhaseAt(k) == [SplitPhase, CollapsePhase, SwapPhase, Idle][k % 4]
    ensures PhaseAt(k + d) == PhaseAt(k) <==> d % 4 == 0
  {
    assert (k + d) % 4 == (k % 4 + d % 4) % 4;
  }

  // ---------------------------------------------------------------------------
  // The swap test
  // ---------------------------------------------------------------------------

  /** The valence the swap test uses: the degree, plus 2 on the boundary,
      so that its deviation from 6 is the degree's deviation from the
      ideal degree, 4 on the boundary and 6 inside. */
  function Valence(degree: nat, onBoundary: bool): (r: int)
    ensures r - 6 == degree - (if onBoundary then 4 else 6)
  {
    if onBoundary then degree + 2 else degree
  }

  function Abs(x: int): nat {
    if x < 0 then -x else x
  }

  /** The total deviation from 6 of the four valences around an edge. */
  function ValenceError(a: int, b: int, c: int, d: int): nat {
    Abs(a - 6) + Abs(b - 6) + Abs(c - 6) + Abs(d - 6)
  }

  /** The swap test: `u` and `v` (valences `a`, `b`) lose the edge and the
      opposite vertices (`c`, `d`) gain one; swap only on a strict gain.
      The flipped error is the valence error of the valences after the
      swap, so the test swaps exactly when the swap lowers it. */
  predicate SwapImproves(a: int, b: int, c: int, d: int): (r: bool)
    ensures r <==> ValenceError(a, b, c, d) > ValenceError(a - 1, b - 1, c + 1, d + 1)
  {
    var current := Abs(a - 6) + Abs(b - 6) + Abs(c - 6) + Abs(d - 6);
    var flipped := Abs(a - 7) + Abs(b - 7) + Abs(c - 5) + Abs(d - 5);
    current > flipped
  }

  /** Equal errors do not swap: valences 7, 6, 5, 6 give 2 either way. */
  lemma TieDoesNotSwap()
    ensures ValenceError(7, 6, 5, 6) == ValenceError(6, 5, 6, 7) == 2
    ensures !SwapImproves(7, 6, 5, 6)
  {
  }

  /** Valences 7, 7, 5, 5 are no tie: the error drops from 4 to 0 and the
      edge is swapped. */
  lemma SevenSevenFiveFiveSwaps()
    ensures ValenceError(7, 7, 5, 5) == 4 && ValenceError(6, 6, 6, 6) == 0
    ensures SwapImproves(7, 7, 5, 5)
  {
  }

  // ---------------------------------------------------------------------------
  // One pass over the edges
  // ---------------------------------------------------------------------------

  /** What a pass does with one unvisited edge. */
  datatype Decision = Skip | Operate | Fail(error: Error)

  /** The parameters of one pass: the operators, the phase, the length
      threshold with its slack, and the boundary set of the swap test. */
  datatype PassParams = PassParams(
    ops: Operators, phase: Phase, bound: real, allowBoundary: bool, boundary: set<VKey>)

  /** The swap pass on the edge (u, v): a failed lookup raises `KeyError`,
      a boundary edge is skipped, else the test decides. `v1` and `v2` are
      the vertices opposite the edge in its two faces. */
  function SwapDecision(s: Store, boundary: set<VKey>, u: VKey, v: VKey): (d: Decision)
    ensures d.Fail? ==> d.error == KeyError
    ensures d == Operate ==>
              && u in s.halfedge && v in s.halfedge[u] && s.halfedge[u][v].Some?
              && v in s.halfedge && u in s.halfedge[v] && s.halfedge[v][u].Some?
              && s.halfedge[u][v].value in s.face && v in s.face[s.halfedge[u][v].value]
              && s.halfedge[v][u].value in s.face && u in s.face[s.halfedge[v][u].value]
              && var v1, v2 := s.face[s.halfedge[u][v].value][v], s.face[s.halfedge[v][u].value][u];
                 && v1 in s.halfedge && v2 in s.halfedge
                 && SwapImproves(
                      Valence(Degree(s, u), u in boundary), Valence(Degree(s, v), v in boundary),
                      Valence(Degree(s, v1), v1 in boundary), Valence(Degree(s, v2), v2 in boundary))
  {
    if !(u in s.halfedge && v in s.halfedge[u]) then Fail(KeyError)
    else if !(v in s.halfedge && u in s.halfedge[v]) then Fail(KeyError)
    else
      var f1, f2 := s.halfedge[u][v], s.halfedge[v][u];
      if f1.None? || f2.None? then Skip
      else if !(f1.value in s.face && v in s.face[f1.value]) then Fail(KeyError)
      else if !(f2.value in s.face && u in s.face[f2.value]) then Fail(KeyError)
      else
        var v1, v2 := s.face[f1.value][v], s.face[f2.value][u];
        if !(v1 in s.halfedge && v2 in s.halfedge) then Fail(KeyError)
        else SwapTest(s, boundary, u, v, v1, v2)
  }

  /** The valence test once every lookup has succeeded: it never raises. */
  function SwapTest(s: Store, boundary: set<VKey>, u: VKey, v: VKey, v1: VKey, v2: VKey): (d: Decision)
    requires u in s.halfedge && v in s.halfedge && v1 in s.halfedge && v2 in s.halfedge
    ensures d == Operate || d == Skip
    ensures d == Operate <==> SwapImproves(
              Valence(Degree(s, u), u in boundary), Valence(Degree(s, v), v in boundary),
              Valence(Degree(s, v1), v1 in boundary), Valence(Degree(s, v2), v2 in boundary))
  {
    if SwapImproves(
         Valence(Degree(s, u), u in boundary), Valence(Degree(s, v), v in boundary),
         Valence(Degree(s, v1), v1 in boundary), Valence(Degree(s, v2), v2 in boundary))
    then Operate
    else Skip
  }

  /** On a well-formed mesh the lookups of the swap test fail only when
      (u, v) is no edge. */
  lemma SwapDecisionLookups(s: Store, boundary: set<VKey>, u: VKey, v: VKey)
    requires WellFormed(s)
    ensures SwapDecision(s, boundary, u, v).Fail? <==> !(u in s.halfedge && v in s.halfedge[u])
  {
    if u in s.halfedge && v in s.halfedge[u] {
      SwapLookupsSucceed(s, u, v);
    }
  }

  /** On a well-formed store every lookup the swap test makes after (u, v) succeeds. */
  lemma SwapLookupsSucceed(s: Store, u: VKey, v: VKey)
    requires WellFormed(s) && u in s.halfedge && v in s.halfedge[u]
    ensures v in s.halfedge && u in s.halfedge[v]
    ensures s.halfedge[u][v].Some? && s.halfedge[v][u].Some? ==>
      var f1, f2 := s.halfedge[u][v].value, s.halfedge[v][u].value;
      f1 in s.face && v in s.face[f1] && f2 in s.face && u in s.face[f2] &&
      s.face[f1][v] in s.halfedge && s.face[f2][u] in s.halfedge
  {
    assert HalfedgeOk(s, u, v);
    assert HalfedgeOk(s, v, u);
    var f1, f2 := s.halfedge[u][v], s.halfedge[v][u];
    if f1.Some? && f2.Some? {
      NextOnFace(s, f1.value, u);
      NextOnFace(s, f2.value, v);
      NextOnFace(s, f1.value, v);
      NextOnFace(s, f2.value, u);
    }
  }

  /** The successor of a face vertex is a vertex of that face and of the mesh. */
  lemma NextOnFace(s: Store, f: FKey, x: VKey)
    requires WellFormed(s) && f in s.face && x in s.face[f]
    ensures s.face[f][x] in s.face[f] && s.face[f][x] in s.halfedge
  {
    assert FaceCycle(s.face[f]);
    assert FaceEdgeOk(s, f, x);
    assert HalfedgeOk(s, x, s.face[f][x]);
  }

  /** Whether the pass operates on the unvisited edge (u, v). */
  function Decide(p: PassParams, s: Store, u: VKey, v: VKey): (d: Decision)
    ensures d.Fail? ==> p.phase == SwapPhase && d.error == KeyError
    ensures p.phase == Idle ==> d == Skip
  {
    match p.phase
    case SplitPhase => if p.ops.length(s, u, v) <= p.bound then Skip else Operate
    case CollapsePhase => if p.ops.length(s, u, v) >= p.bound then Skip else Operate
    case SwapPhase => SwapDecision(s, p.boundary, u, v)
    case Idle => Skip
  }

  /** The operator the pass applies to (u, v). */
  function Apply(p: PassParams, s: Store, u: VKey, v: VKey): (t: Store)
    ensures p.phase == Idle ==> t == s
  {
    match p.phase
    case SplitPhase => p.ops.split(s, u, v, p.allowBoundary)
    case CollapsePhase => p.ops.collapse(s, u, v)
    case SwapPhase => p.ops.swap(s, u, v)
    case Idle => s
  }

  /** The vertices marked visited once (u, v) was operated on, `t` being
      the mesh afterwards: both end points, and after a collapse every
      neighbour `u` has left (`mesh.halfedge[u]` raises if `u` is gone). */
  function Mark(phase: Phase, visited: set<VKey>, t: Store, u: VKey, v: VKey): (r: Result<set<VKey>>)
    ensures r.Err? <==> phase == CollapsePhase && u !in t.halfedge
    ensures r.Err? ==> r.error == KeyError
    ensures r.Ok? ==> r.value == visited + Touched(phase, t, u, v)
  {
    if phase != CollapsePhase then Ok(visited + {u, v})
    else if u !in t.halfedge then Err(KeyError)
    else Ok(visited + {u, v} + t.halfedge[u].Keys)
  }

  /** The vertices an operation on (u, v) puts out of bounds for the rest
      of the pass. */
  function Touched(phase: Phase, t: Store, u: VKey, v: VKey): set<VKey> {
    if phase == CollapsePhase && u in t.halfedge then {u, v} + t.halfedge[u].Keys else {u, v}
  }

  /** One operation of a pass: the edge, and the mesh before and after. */
  datatype Act = Act(u: VKey, v: VKey, before: Store, after: Store)

  /** How a pass ends: the exception it raised if any, the mesh, the
      visited set and the operations in their order. */
  datatype PassResult = PassResult(error: Option<Error>, s: Store, visited: set<VKey>, acts: seq<Act>)

  /** The pass over the edge list `es` from the mesh `s` with `visited`
      already marked. */
  function Pass(p: PassParams, s: Store, es: seq<Edge>, visited: set<VKey>): (r: PassResult)
    ensures |r.acts| <= |es| && visited <= r.visited
    ensures r.error.Some? ==> r.error.value == KeyError
    decreases |es|
  {
    if es == [] then PassResult(None, s, visited, [])
    else
      var u, v := es[0].0, es[0].1;
      if u in visited || v in visited then Pass(p, s, es[1..], visited)
      else
        var d := Decide(p, s, u, v);
        if d.Fail? then PassResult(Some(d.error), s, visited, [])
        else if d.Skip? then Pass(p, s, es[1..], visited)
        else
          var t := Apply(p, s, u, v);
          var marked := Mark(p.phase, visited, t, u, v);
          if marked.Err? then PassResult(Some(marked.error), t, visited, [Act(u, v, s, t)])
          else WithActs([Act(u, v, s, t)], Pass(p, t, es[1..], marked.value))
  }

  /** `r` with the operations `acts` done before it. */
  function WithActs(acts: seq<Act>, r: PassResult): PassResult {
    r.(acts := acts + r.acts)
  }

  lemma WithActsTwice(a: seq<Act>, b: seq<Act>, r: PassResult)
    ensures WithActs(a, WithActs(b, r)) == WithActs(a + b, r)
  {
    assert a + (b + r.acts) == (a + b) + r.acts;
  }

  /** The first edge of the list is operated on and its marking succeeds:
      the rest of the pass starts from the new mesh and visited set. */
  lemma PassOperates(p: PassParams, s: Store, es: seq<Edge>, visited: set<VKey>)
    requires es != [] && es[0].0 !in visited && es[0].1 !in visited
    requires Decide(p, s, es[0].0, es[0].1) == Operate
    requires Mark(p.phase, visited, Apply(p, s, es[0].0, es[0].1), es[0].0, es[0].1).Ok?
    ensures var u, v := es[0].0, es[0].1;
            var t := Apply(p, s, u, v);
            var rest := Pass(p, t, es[1..], Mark(p.phase, visited, t, u, v).value);
            && Pass(p, s, es, visited) == WithActs([Act(u, v, s, t)], rest)
            && Pass(p, s, es, visited).acts == [Act(u, v, s, t)] + rest.acts
  {
  }

  /** The first edge of the list is left alone. */
  lemma PassSkips(p: PassParams, s: Store, es: seq<Edge>, visited: set<VKey>)
    requires es != []
    requires es[0].0 in visited || es[0].1 in visited || Decide(p, s, es[0].0, es[0].1) == Skip
    ensures Pass(p, s, es, visited) == Pass(p, s, es[1..], visited)
  {
  }

  lemma InTail(es: seq<Edge>, e: Edge)
    requires es != [] && e in es[1..]
    ensures e in es
  {
    var j :| 0 <= j < |es[1..]| && es[1..][j] == e;
    assert es[j + 1] == e;
  }

  /** Every operation of a pass is on an edge of the list whose end points
      were not visited, was decided by `Decide` on the mesh as it was, and
      left the mesh `Apply` gives. */
  predicate ActsOk(p: PassParams, es: seq<Edge>, visited: set<VKey>, acts: seq<Act>) {
    forall i :: 0 <= i < |acts| ==>
      && (acts[i].u, acts[i].v) in es
      && acts[i].u !in visited && acts[i].v !in visited
      && Decide(p, acts[i].before, acts[i].u, acts[i].v) == Operate
      && acts[i].after == Apply(p, acts[i].before, acts[i].u, acts[i].v)
  }

  lemma {:induction false} PassActs(p: PassParams, s: Store, es: seq<Edge>, visited: set<VKey>)
    ensures ActsOk(p, es, visited, Pass(p, s, es, visited).acts)
    decreases |es|
  {
    if es != [] {
      var u, v := es[0].0, es[0].1;
      if u in visited || v in visited || Decide(p, s, u, v) == Skip {
        PassSkips(p, s, es, visited);
        PassActs(p, s, es[1..], visited);
        var acts := Pass(p, s, es, visited).acts;
        forall i | 0 <= i < |acts| ensures (acts[i].u, acts[i].v) in es {
          InTail(es, (acts[i].u, acts[i].v));
        }
      } else if Decide(p, s, u, v) == Operate {
        var t := Apply(p, s, u, v);
        var m := Mark(p.phase, visited, t, u, v);
        if m.Ok? {
          PassOperates(p, s, es, visited);
          PassActs(p, t, es[1..], m.value);
          var acts := Pass(p, s, es, visited).acts;
          var rest := Pass(p, t, es[1..], m.value).acts;
          assert acts[0] == Act(u, v, s, t);
          assert es[0] == (u, v);
          forall i | 0 < i < |acts|
            ensures (acts[i].u, acts[i].v) in es && acts[i].u !in visited && acts[i].v !in visited
          {
            assert acts[i] == rest[i - 1];
            InTail(es, (acts[i].u, acts[i].v));
          }
        }
      }
    }
  }

  /** The greedy visited rule: an operation never touches a vertex that an
      earlier operation of the same pass touched (both end points, and
      after a collapse also the neighbours `u` has left). */
  predicate Separated(phase: Phase, acts: seq<Act>) {
    forall i, j :: 0 <= i < j < |acts| ==>
      acts[j].u !in Touched(phase, acts[i].after, acts[i].u, acts[i].v) &&
      acts[j].v !in Touched(phase, acts[i].after, acts[i].u, acts[i].v)
  }

  lemma {:induction false} PassActsSeparated(p: PassParams, s: Store, es: seq<Edge>, visited: set<VKey>)
    ensures Separated(p.phase, Pass(p, s, es, visited).acts)
    decreases |es|
  {
    if es != [] {
      var u, v := es[0].0, es[0].1;
      if u in visited || v in visited || Decide(p, s, u, v) == Skip {
        PassSkips(p, s, es, visited);
        PassActsSeparated(p, s, es[1..], visited);
      } else if Decide(p, s, u, v) == Operate {
        var t := Apply(p, s, u, v);
        var m := Mark(p.phase, visited, t, u, v);
        if m.Ok? {
          PassOperates(p, s, es, visited);
          PassActsSeparated(p, t, es[1..], m.value);
          PassActs(p, t, es[1..], m.value);
          var acts := Pass(p, s, es, visited).acts;
          var rest := Pass(p, t, es[1..], m.value).acts;
          assert acts[0] == Act(u, v, s, t);
          forall i, j | 0 <= i < j < |acts|
            ensures acts[j].u !in Touched(p.phase, acts[i].after, acts[i].u, acts[i].v)
            ensures acts[j].v !in Touched(p.phase, acts[i].after, acts[i].u, acts[i].v)
          {
            assert acts[j] == rest[j - 1];
            if i > 0 {
              assert acts[i] == rest[i - 1];
            }
          }
        }
      }
    }
  }

  /** The swap test passed on the mesh before the swap: both sides of the
      edge border a face and the swap strictly lowers the valence error. */
  predicate SwapActOk(boundary: set<VKey>, a: Act) {
    var s, u, v := a.before, a.u, a.v;
    && u in s.halfedge && v in s.halfedge[u] && v in s.halfedge && u in s.halfedge[v]
    && s.halfedge[u][v].Some? && s.halfedge[v][u].Some?
    && SwapDecision(s, boundary, u, v) == Operate
  }

  /** What each phase's operations satisfy: a split only on an edge longer
      than the bound, a collapse only on one shorter than it, a swap only
      on an interior edge whose swap strictly lowers the valence error, and
      the idle phase does nothing. */
  predicate PhaseRule(p: PassParams, a: Act) {
    && (p.phase == SplitPhase ==>
          p.ops.length(a.before, a.u, a.v) > p.bound && a.after == p.ops.split(a.before, a.u, a.v, p.allowBoundary))
    && (p.phase == CollapsePhase ==>
          p.ops.length(a.before, a.u, a.v) < p.bound && a.after == p.ops.collapse(a.before, a.u, a.v))
    && (p.phase == SwapPhase ==> SwapActOk(p.boundary, a) && a.after == p.ops.swap(a.before, a.u, a.v))
    && p.phase != Idle
  }

  lemma PassDecisions(p: PassParams, s: Store, es: seq<Edge>, visited: set<VKey>)
    ensures forall a :: a in Pass(p, s, es, visited).acts ==> PhaseRule(p, a)
  {
    PassActs(p, s, es, visited);
    var acts := Pass(p, s, es, visited).acts;
    forall a | a in acts ensures PhaseRule(p, a) {
      var i :| 0 <= i < |acts| && acts[i] == a;
      assert Decide(p, a.before, a.u, a.v) == Operate;
    }
  }

  /** A pass keeps the mesh well-formed. */
  lemma {:induction false} PassKeepsWellFormed(p: PassParams, s: Store, es: seq<Edge>, visited: set<VKey>)
    requires Sound(p.ops) && WellFormed(s)
    ensures WellFormed(Pass(p, s, es, visited).s)
    decreases |es|
  {
    if es != [] {
      var u, v := es[0].0, es[0].1;
      if u in visited || v in visited || Decide(p, s, u, v) == Skip {
        PassSkips(p, s, es, visited);
        PassKeepsWellFormed(p, s, es[1..], visited);
      } else if Decide(p, s, u, v) == Operate {
        var t := Apply(p, s, u, v);
        ApplyKeepsWellFormed(p, s, u, v);
        var m := Mark(p.phase, visited, t, u, v);
        if m.Ok? {
          PassOperates(p, s, es, visited);
          PassKeepsWellFormed(p, t, es[1..], m.value);
        }
      }
    }
  }

  lemma ApplyKeepsWellFormed(p: PassParams, s: Store, u: VKey, v: VKey)
    requires Sound(p.ops) && WellFormed(s)
    ensures WellFormed(Apply(p, s, u, v))
  {
  }

  // ---------------------------------------------------------------------------
  // One iteration and the whole run
  // ---------------------------------------------------------------------------

  /** The settings of a run: the thresholds, the ramp factor and length,
      the iteration cap, the convergence threshold, whether boundary edges
      may be split, and whether the boundary set is recomputed after every
      iteration (`optimise_trimesh_topology`) or fixed (`remesh`). */
  datatype Config = Config(
    lmin: real, lmax: real, fac: real, kmaxStart: real, kmax: nat, divergence: real,
    allowBoundary: bool, refreshBoundary: bool)

  /** The loop variables: the mesh, the phase counter, the sampled vertex
      count and the boundary set. */
  datatype Loop = Loop(s: Store, count: int, n1: nat, boundary: set<VKey>)

  /** The loop variables before the first iteration. */
  function Start(s: Store): Loop {
    Loop(s, 0, 0, BoundaryVertices(s))
  }

  /** What one iteration did: its phase, the sampled vertex count in use,
      the vertex count at its start, the mesh after its pass, the pass's
      operations, and the fixed set of its smoothing (`None` when the
      iteration broke off before smoothing). */
  datatype Record = Record(
    phase: Phase, n1: nat, before: nat, afterPass: Store, acts: seq<Act>, fixed: Option<set<VKey>>)

  datatype Step = Next(loop: Loop, rec: Record) | Broke(s: Store, rec: Record) | Raised(error: Error, s: Store)

  /** The mesh an iteration leaves behind. */
  function StepStore(step: Step): Store {
    match step
    case Next(L, _) => L.s
    case Broke(s, _) => s
    case Raised(_, s) => s
  }

  /** `abs(1 - n1 / n2) < divergence`. */
  predicate Converges(divergence: real, n1: nat, n2: nat): (r: bool)
    requires n2 > 0
    ensures r <==> -divergence < 1.0 - n1 as real / n2 as real < divergence
    ensures r ==> divergence > 0.0
  {
    var q := 1.0 - n1 as real / n2 as real;
    (if q < 0.0 then -q else q) < divergence
  }

  /** The break test of iteration `k`, on the vertex counts of its record. */
  predicate BreaksAt(c: Config, k: nat, rec: Record): (r: bool)
    ensures r ==> k % 20 == 10 && k as real > c.kmaxStart && |rec.afterPass.vertex| > 0
    ensures r ==> Converges(c.divergence, rec.n1, |rec.afterPass.vertex|)
  {
    var n2 := |rec.afterPass.vertex|;
    k % 20 == 10 && n2 > 0 && Converges(c.divergence, rec.n1, n2) && k as real > c.kmaxStart
  }

  /** The length threshold of the pass of `phase` in iteration `k`, with
      its slack: `lmax + dlmax` for splits, `lmin - dlmin` otherwise. */
  function Bound(c: Config, k: nat, phase: Phase): (b: Result<real>)
    ensures b.Err? <==> k as real <= c.kmaxStart && c.kmaxStart == 0.0
    ensures b.Err? ==> b.error == ZeroDivisionError
    ensures k as real > c.kmaxStart ==> b == Ok(if phase == SplitPhase then c.lmax else c.lmin)
  {
    var dlmin, dlmax := Slack(c.lmin, c.fac, k, c.kmaxStart), Slack(c.lmax, c.fac, k, c.kmaxStart);
    if dlmin.Err? || dlmax.Err? then Err(ZeroDivisionError)
    else Ok(if phase == SplitPhase then c.lmax + dlmax.value else c.lmin - dlmin.value)
  }

  /** The first vertex count in use in iteration `k`: sampled afresh when
      `k % 20 == 0`. */
  function Sampled(L: Loop, k: nat): (n: nat)
    ensures k % 20 == 0 ==> n == |L.s.vertex|
    ensures k % 20 != 0 ==> n == L.n1
  {
    if k % 20 == 0 then |L.s.vertex| else L.n1
  }

  /** The pass of iteration `k`; the idle phase runs none. */
  function PassOf(c: Config, ops: Operators, L: Loop, phase: Phase, bound: real): PassResult {
    if phase == Idle then PassResult(None, L.s, {}, [])
    else Pass(PassParams(ops, phase, bound, c.allowBoundary, L.boundary), L.s, ops.edges(L.s), {})
  }

  /** The end of an iteration that does not break: smoothing with `fixed`
      held in place, then the callback. */
  function Finish(ops: Operators, s: Store, fixed: set<VKey>, k: nat): Store {
    var t := ops.smooth(s, fixed);
    if ops.callback.Some? then ops.callback.value(t, k) else t
  }

  /** The rest of iteration `k` once its pass gave `r`: the exception the
      pass raised, the division by a zero vertex count, the break test, or
      the new boundary set, smoothing and callback. */
  function Conclude(c: Config, ops: Operators, L: Loop, k: nat, phase: Phase, r: PassResult): (step: Step)
    ensures r.error.Some? ==> step == Raised(r.error.value, r.s)
    ensures step.Raised? && r.error.None? ==> step.error == ZeroDivisionError
    ensures step.Broke? ==> k % 20 == 10 && k as real > c.kmaxStart && step.s == r.s
  {
    if r.error.Some? then Raised(r.error.value, r.s)
    else if k % 20 == 10 && |r.s.vertex| == 0 then Raised(ZeroDivisionError, r.s)
    else
      var rec := Record(phase, Sampled(L, k), |L.s.vertex|, r.s, r.acts, None);
      if BreaksAt(c, k, rec) then Broke(r.s, rec)
      else
        var fixed := if c.refreshBoundary then BoundaryVertices(r.s) else L.boundary;
        Next(Loop(Finish(ops, r.s, fixed, k), if phase == Idle then 0 else L.count + 1, rec.n1, fixed),
             rec.(fixed := Some(fixed)))
  }

  /** Iteration `k` of the loop. */
  function Iteration(c: Config, ops: Operators, L: Loop, k: nat): (step: Step)
    ensures step.Raised? ==> step.error == KeyError || step.error == ZeroDivisionError
    ensures step.Broke? ==> k % 20 == 10 && k as real > c.kmaxStart
  {
    var phase := PhaseOf(L.count + 1);
    var bound := Bound(c, k, phase);
    if bound.Err? then Raised(bound.error, L.s)
    else Conclude(c, ops, L, k, phase, PassOf(c, ops, L, phase, bound.value))
  }

  /** What an iteration that finishes records and passes on. */
  lemma IterationShape(c: Config, ops: Operators, L: Loop, k: nat)
    ensures var step := Iteration(c, ops, L, k);
            && (step.Next? || step.Broke? ==>
                  && step.rec.phase == PhaseOf(L.count + 1)
                  && step.rec.n1 == Sampled(L, k)
                  && step.rec.before == |L.s.vertex|
                  && (step.rec.fixed.None? <==> BreaksAt(c, k, step.rec))
                  && (step.rec.fixed.None? <==> step.Broke?))
            && (step.Next? ==>
                  && step.loop.count == (if step.rec.phase == Idle then 0 else L.count + 1)
                  && step.loop.n1 == step.rec.n1
                  && step.rec.fixed == Some(step.loop.boundary)
                  && step.loop.boundary == (if c.refreshBoundary then BoundaryVertices(step.rec.afterPass) else L.boundary)
                  && step.loop.s == Finish(ops, step.rec.afterPass, step.loop.boundary, k))
  {
    var phase := PhaseOf(L.count + 1);
    var bound := Bound(c, k, phase);
    if bound.Ok? {
      var r := PassOf(c, ops, L, phase, bound.value);
      assert Iteration(c, ops, L, k) == Conclude(c, ops, L, k, phase, r);
    }
  }

  datatype Ending = Converged(k: nat) | Exhausted

  /** How a run ends: normally (early or after `kmax` iterations) or with
      an exception, the mesh, and one record per finished iteration. */
  datatype Outcome = Outcome(status: Result<Ending>, s: Store, trace: seq<Record>)

  /** The iterations from `k` up to `kmax`. */
  function Run(c: Config, ops: Operators, L: Loop, k: nat): (o: Outcome)
    ensures o.status.Err? ==> o.status.error == KeyError || o.status.error == ZeroDivisionError
    decreases c.kmax - k, 1
  {
    if k >= c.kmax then Outcome(Ok(Exhausted), L.s, [])
    else Continue(c, ops, Iteration(c, ops, L, k), k)
  }

  /** The run once iteration `k` has ended in `step`: the exception, the
      break, or the record in front of the iterations after it. */
  function Continue(c: Config, ops: Operators, step: Step, k: nat): (o: Outcome)
    requires k < c.kmax
    ensures step.Raised? ==> o.status == Err(step.error)
    ensures step.Next? ==> o.status.Ok? || o.status.error == KeyError || o.status.error == ZeroDivisionError
    decreases c.kmax - k, 0
  {
    match step
    case Raised(e, s) => Outcome(Err(e), s, [])
    case Broke(s, rec) => Outcome(Ok(Converged(k)), s, [rec])
    case Next(L, rec) => WithRecords([rec], Run(c, ops, L, k + 1))
  }

  function WithRecords(recs: seq<Record>, o: Outcome): Outcome {
    o.(trace := recs + o.trace)
  }

  lemma WithRecordsTwice(a: seq<Record>, b: seq<Record>, o: Outcome)
    ensures WithRecords(a, WithRecords(b, o)) == WithRecords(a + b, o)
  {
    assert a + (b + o.trace) == (a + b) + o.trace;
  }

  /** An iteration that finishes puts its record in front of the rest. */
  lemma RunNext(c: Config, ops: Operators, L: Loop, k: nat)
    requires k < c.kmax && Iteration(c, ops, L, k).Next?
    ensures var step := Iteration(c, ops, L, k);
            var rest := Run(c, ops, step.loop, k + 1);
            && Run(c, ops, L, k) == WithRecords([step.rec], rest)
            && Run(c, ops, L, k).trace == [step.rec] + rest.trace
  {
  }

  // ---------------------------------------------------------------------------
  // Properties of a run
  // ---------------------------------------------------------------------------

  /** At most `kmax` iterations: all of them when no early break, and the
      breaking iteration is the last one recorded. */
  lemma {:induction false} RunLength(c: Config, ops: Operators, L: Loop, k: nat)
    requires k <= c.kmax
    ensures var o := Run(c, ops, L, k);
            && |o.trace| <= c.kmax - k
            && (o.status == Ok(Exhausted) ==> |o.trace| == c.kmax - k)
            && (o.status.Ok? && o.status.value.Converged? ==> o.status.value.k == k + |o.trace| - 1 < c.kmax)
    decreases c.kmax - k, 1
  {
    if k < c.kmax {
      ContinueLength(c, ops, Iteration(c, ops, L, k), k);
    }
  }

  /** The same bounds, for the run as continued after iteration `k`'s step. */
  lemma {:induction false} ContinueLength(c: Config, ops: Operators, step: Step, k: nat)
    requires k < c.kmax
    ensures var o := Continue(c, ops, step, k);
            && |o.trace| <= c.kmax - k
            && (o.status == Ok(Exhausted) ==> |o.trace| == c.kmax - k)
            && (o.status.Ok? && o.status.value.Converged? ==> o.status.value.k == k + |o.trace| - 1 < c.kmax)
    decreases c.kmax - k, 0
  {
    if step.Next? {
      RunLength(c, ops, step.loop, k + 1);
    }
  }

  /** Iteration `k + i` runs the phase `PhaseAt(k + i)`. */
  predicate PhasesFrom(k: nat, tr: seq<Record>) {
    forall i :: 0 <= i < |tr| ==> tr[i].phase == PhaseAt(k + i)
  }

  lemma PhasesCons(k: nat, rec: Record, rest: seq<Record>)
    requires rec.phase == PhaseAt(k) && PhasesFrom(k + 1, rest)
    ensures PhasesFrom(k, [rec] + rest)
  {
    var tr := [rec] + rest;
    forall i | 0 < i < |tr| ensures tr[i].phase == PhaseAt(k + i) {
      assert tr[i] == rest[i - 1];
    }
  }

  /** The counter at `k % 4` selects the phase of `k` and moves to `(k + 1) % 4`. */
  lemma CounterStep(count: int, k: nat)
    requires count == k % 4
    ensures PhaseOf(count + 1) == PhaseAt(k)
    ensures (if PhaseOf(count + 1) == Idle then 0 else count + 1) == (k + 1) % 4
  {
  }

  lemma {:induction false} RunPhases(c: Config, ops: Operators, L: Loop, k: nat)
    requires L.count == k % 4
    ensures PhasesFrom(k, Run(c, ops, L, k).trace)
    decreases c.kmax - k
  {
    if k < c.kmax {
      var step := Iteration(c, ops, L, k);
      IterationShape(c, ops, L, k);
      CounterStep(L.count, k);
      if step.Next? {
        RunNext(c, ops, L, k);
        RunPhases(c, ops, step.loop, k + 1);
        PhasesCons(k, step.rec, Run(c, ops, step.loop, k + 1).trace);
      } else if step.Broke? {
        PhasesCons(k, step.rec, []);
      }
    }
  }

  /** The first vertex count is sampled at the start of every iteration
      `k` with `k % 20 == 0` and kept until the next such iteration. */
  predicate SampledFrom(k: nat, tr: seq<Record>) {
    && (forall i :: 0 <= i < |tr| && (k + i) % 20 == 0 ==> tr[i].n1 == tr[i].before)
    && (forall i :: 0 < i < |tr| && (k + i) % 20 != 0 ==> tr[i].n1 == tr[i - 1].n1)
  }

  lemma SampledCons(k: nat, rec: Record, rest: seq<Record>)
    requires k % 20 == 0 ==> rec.n1 == rec.before
    requires SampledFrom(k + 1, rest)
    requires |rest| > 0 && (k + 1) % 20 != 0 ==> rest[0].n1 == rec.n1
    ensures SampledFrom(k, [rec] + rest)
  {
    var tr := [rec] + rest;
    forall i | 0 < i < |tr|
      ensures (k + i) % 20 == 0 ==> tr[i].n1 == tr[i].before
      ensures (k + i) % 20 != 0 ==> tr[i].n1 == tr[i - 1].n1
    {
      assert tr[i] == rest[i - 1];
      if i > 1 { assert tr[i - 1] == rest[i - 2]; }
    }
  }

  lemma {:induction false} RunSampling(c: Config, ops: Operators, L: Loop, k: nat)
    ensures SampledFrom(k, Run(c, ops, L, k).trace)
    ensures |Run(c, ops, L, k).trace| > 0 && k % 20 != 0 ==> Run(c, ops, L, k).trace[0].n1 == L.n1
    decreases c.kmax - k
  {
    if k < c.kmax {
      var step := Iteration(c, ops, L, k);
      IterationShape(c, ops, L, k);
      if step.Next? {
        RunNext(c, ops, L, k);
        RunSampling(c, ops, step.loop, k + 1);
        SampledCons(k, step.rec, Run(c, ops, step.loop, k + 1).trace);
      } else if step.Broke? {
        SampledCons(k, step.rec, []);
      }
    }
  }

  /** In a run from the start, iteration `i` compares with the vertex
      count at the start of iteration `i - i % 20`. */
  predicate SampledEvery20(tr: seq<Record>) {
    forall i :: 0 <= i < |tr| ==> tr[i].n1 == tr[i - i % 20].before
  }

  lemma RunSampledAt(c: Config, ops: Operators, L: Loop)
    ensures SampledEvery20(Run(c, ops, L, 0).trace)
  {
    RunSampling(c, ops, L, 0);
    var tr := Run(c, ops, L, 0).trace;
    forall i | 0 <= i < |tr| ensures tr[i].n1 == tr[i - i % 20].before {
      SampledBack(tr, i);
    }
  }

  lemma {:induction false} SampledBack(tr: seq<Record>, i: nat)
    requires i < |tr| && SampledFrom(0, tr)
    ensures tr[i].n1 == tr[i - i % 20].before
    decreases i % 20
  {
    if i % 20 != 0 {
      assert (i - 1) % 20 == i % 20 - 1;
      SampledBack(tr, i - 1);
    }
  }

  /** The run stops early exactly at an iteration whose break test holds:
      that iteration is the last, it does not smooth, and every earlier
      iteration failed the test and smoothed. */
  predicate BreaksExactly(c: Config, k: nat, o: Outcome) {
    && (forall i :: 0 <= i < |o.trace| ==> (o.trace[i].fixed.None? <==> BreaksAt(c, k + i, o.trace[i])))
    && (forall i :: 0 <= i < |o.trace| ==> (o.trace[i].fixed.None? <==> o.status == Ok(Converged(k + i))))
  }

  lemma BreaksCons(c: Config, k: nat, rec: Record, rest: Outcome)
    requires rec.fixed.Some? && !BreaksAt(c, k, rec)
    requires BreaksExactly(c, k + 1, rest)
    requires rest.status.Ok? && rest.status.value.Converged? ==> rest.status.value.k > k
    ensures BreaksExactly(c, k, WithRecords([rec], rest))
  {
    var o := WithRecords([rec], rest);
    forall i | 0 < i < |o.trace|
      ensures o.trace[i].fixed.None? <==> BreaksAt(c, k + i, o.trace[i])
      ensures o.trace[i].fixed.None? <==> o.status == Ok(Converged(k + i))
    {
      assert o.trace[i] == rest.trace[i - 1];
    }
  }

  lemma {:induction false} RunBreaks(c: Config, ops: Operators, L: Loop, k: nat)
    requires k <= c.kmax
    ensures BreaksExactly(c, k, Run(c, ops, L, k))
    decreases c.kmax - k
  {
    if k < c.kmax {
      var step := Iteration(c, ops, L, k);
      if step.Next? {
        RunBreaks(c, ops, step.loop, k + 1);
        BreaksNext(c, ops, L, k);
      } else {
        BreaksLast(c, ops, L, k);
      }
    }
  }

  /** An iteration that goes on keeps the break rule of the rest of the run. */
  lemma BreaksNext(c: Config, ops: Operators, L: Loop, k: nat)
    requires k < c.kmax && Iteration(c, ops, L, k).Next?
    requires BreaksExactly(c, k + 1, Run(c, ops, Iteration(c, ops, L, k).loop, k + 1))
    ensures BreaksExactly(c, k, Run(c, ops, L, k))
  {
    var step := Iteration(c, ops, L, k);
    IterationShape(c, ops, L, k);
    RunNext(c, ops, L, k);
    RunLength(c, ops, step.loop, k + 1);
    BreaksCons(c, k, step.rec, Run(c, ops, step.loop, k + 1));
  }

  /** An iteration that breaks or raises ends the run with the break rule. */
  lemma BreaksLast(c: Config, ops: Operators, L: Loop, k: nat)
    requires k < c.kmax && !Iteration(c, ops, L, k).Next?
    ensures BreaksExactly(c, k, Run(c, ops, L, k))
  {
    IterationShape(c, ops, L, k);
  }

  /** The smoothing of each iteration holds the boundary in place: the
      boundary of the mesh after the pass when the set is recomputed, and
      otherwise the boundary the run started with. */
  predicate FixedSets(c: Config, boundary: set<VKey>, tr: seq<Record>) {
    forall i :: 0 <= i < |tr| && tr[i].fixed.Some? ==>
      tr[i].fixed.value == if c.refreshBoundary then BoundaryVertices(tr[i].afterPass) else boundary
  }

  lemma {:induction false} RunFixed(c: Config, ops: Operators, L: Loop, k: nat)
    ensures FixedSets(c, L.boundary, Run(c, ops, L, k).trace)
    decreases c.kmax - k
  {
    if k < c.kmax {
      var step := Iteration(c, ops, L, k);
      IterationShape(c, ops, L, k);
      if step.Next? {
        RunNext(c, ops, L, k);
        RunFixed(c, ops, step.loop, k + 1);
        var tr := Run(c, ops, L, k).trace;
        var rest := Run(c, ops, step.loop, k + 1).trace;
        forall i | 0 < i < |tr| && tr[i].fixed.Some?
          ensures tr[i].fixed.value == if c.refreshBoundary then BoundaryVertices(tr[i].afterPass) else L.boundary
        {
          assert tr[i] == rest[i - 1];
        }
      }
    }
  }

  /** The run keeps the mesh well-formed, whatever exception ends it. */
  lemma {:induction false} RunKeepsWellFormed(c: Config, ops: Operators, L: Loop, k: nat)
    requires Sound(ops) && WellFormed(L.s)
    ensures WellFormed(Run(c, ops, L, k).s)
    decreases c.kmax - k, 1
  {
    if k < c.kmax {
      IterationKeepsWellFormed(c, ops, L, k);
      ContinueKeepsWellFormed(c, ops, Iteration(c, ops, L, k), k);
    }
  }

  /** The run continued from a well-formed step ends well-formed. */
  lemma {:induction false} ContinueKeepsWellFormed(c: Config, ops: Operators, step: Step, k: nat)
    requires k < c.kmax && Sound(ops) && WellFormed(StepStore(step))
    ensures WellFormed(Continue(c, ops, step, k).s)
    decreases c.kmax - k, 0
  {
    if step.Next? {
      RunKeepsWellFormed(c, ops, step.loop, k + 1);
    }
  }

  lemma IterationKeepsWellFormed(c: Config, ops: Operators, L: Loop, k: nat)
    requires Sound(ops) && WellFormed(L.s)
    ensures WellFormed(StepStore(Iteration(c, ops, L, k)))
  {
    var phase := PhaseOf(L.count + 1);
    var bound := Bound(c, k, phase);
    if bound.Ok? {
      var r := PassOf(c, ops, L, phase, bound.value);
      if phase != Idle {
        PassKeepsWellFormed(PassParams(ops, phase, bound.value, c.allowBoundary, L.boundary), L.s, ops.edges(L.s), {});
      }
      assert WellFormed(r.s);
      assert Iteration(c, ops, L, k) == Conclude(c, ops, L, k, phase, r);
    }
  }

  /** A zero ramp length with at least one iteration raises at once. */
  lemma ZeroRampRaises(c: Config, ops: Operators, L: Loop)
    requires c.kmaxStart == 0.0 && c.kmax > 0
    ensures Run(c, ops, L, 0) == Outcome(Err(ZeroDivisionError), L.s, [])
  {
    assert Slack(c.lmin, c.fac, 0, c.kmaxStart).Err?;
  }

  // ---------------------------------------------------------------------------
  // The loop, in place on the mesh
  // ---------------------------------------------------------------------------

  /** One pass over the edge list `es`, in place on the mesh. */
  method RunPass(mesh: Mesh, p: PassParams, es: seq<Edge>) returns (r: PassResult)
    requires mesh.Valid() && Sound(p.ops)
    modifies mesh
    ensures mesh.Valid()
    ensures r == Pass(p, old(mesh.State()), es, {}) && mesh.State() == r.s
  {
    ghost var s0 := mesh.State();
    var visited: set<VKey> := {};
    var acts: seq<Act> := [];
    var i := 0;
    assert es[0..] == es;
    while i < |es|
      invariant 0 <= i <= |es|
      invariant mesh.Valid()
      invariant Pass(p, s0, es, {}) == WithActs(acts, Pass(p, mesh.State(), es[i..], visited))
    {
      var u, v := es[i].0, es[i].1;
      ghost var s := mesh.State();
      assert es[i..][1..] == es[i + 1..];
      if u in visited || v in visited {
        i := i + 1;
        continue;
      }
      var d := Decide(p, mesh.State(), u, v);
      if d.Fail? {
        r := WithActs(acts, PassResult(Some(d.error), mesh.State(), visited, []));
        return;
      }
      if d == Operate {
        var before := mesh.State();
        ApplyKeepsWellFormed(p, before, u, v);
        mesh.Load(Apply(p, before, u, v));
        var after := mesh.State();
        var marked := Mark(p.phase, visited, after, u, v);
        if marked.Err? {
          r := WithActs(acts, PassResult(Some(marked.error), after, visited, [Act(u, v, before, after)]));
          return;
        }
        WithActsTwice(acts, [Act(u, v, before, after)], Pass(p, after, es[i + 1..], marked.value));
        visited := marked.value;
        acts := acts + [Act(u, v, before, after)];
      }
      i := i + 1;
    }
    r := WithActs(acts, PassResult(None, mesh.State(), visited, []));
  }

  /** Iteration `k`, in place on the mesh; the loop variables come in as
      `L` (whose mesh is the current one) and go out with the step. */
  method RunIteration(mesh: Mesh, c: Config, ops: Operators, L: Loop, k: nat) returns (step: Step)
    requires mesh.Valid() && Sound(ops) && L.s == mesh.State()
    modifies mesh
    ensures mesh.Valid()
    ensures step == Iteration(c, ops, L, k) && mesh.State() == StepStore(step)
  {
    var count := L.count + 1;
    var phase := PhaseOf(count);
    var bound := Bound(c, k, phase);
    if bound.Err? {
      return Raised(bound.error, mesh.State());
    }
    var n1 := L.n1;
    if k % 20 == 0 {
      n1 := |mesh.vertex|;
    }
    var r: PassResult;
    if phase == Idle {
      r := PassResult(None, mesh.State(), {}, []);
    } else {
      r := RunPass(mesh, PassParams(ops, phase, bound.value, c.allowBoundary, L.boundary), ops.edges(mesh.State()));
    }
    assert r == PassOf(c, ops, L, phase, bound.value);
    assert Iteration(c, ops, L, k) == Conclude(c, ops, L, k, phase, r);
    if r.error.Some? {
      return Raised(r.error.value, mesh.State());
    }
    var n2 := |mesh.vertex|;
    if k % 20 == 10 && n2 == 0 {
      return Raised(ZeroDivisionError, mesh.State());
    }
    var rec := Record(phase, n1, |L.s.vertex|, mesh.State(), r.acts, None);
    if BreaksAt(c, k, rec) {
      return Broke(mesh.State(), rec);
    }
    var fixed := if c.refreshBoundary then BoundaryVertices(mesh.State()) else L.boundary;
    mesh.Load(ops.smooth(mesh.State(), fixed));
    if ops.callback.Some? {
      mesh.Load(ops.callback.value(mesh.State(), k));
    }
    step := Next(Loop(mesh.State(), if phase == Idle then 0 else count, n1, fixed), rec.(fixed := Some(fixed)));
  }

  /** The loop `for k in range(kmax)` of both drivers, in place on the mesh. */
  method RemeshLoop(mesh: Mesh, c: Config, ops: Operators) returns (status: Result<Ending>, trace: seq<Record>)
    requires mesh.Valid() && Sound(ops)
    modifies mesh
    ensures mesh.Valid()
    ensures Run(c, ops, Start(old(mesh.State())), 0) == Outcome(status, mesh.State(), trace)
  {
    ghost var s0 := mesh.State();
    var L := Start(mesh.State());
    trace := [];
    var k: nat := 0;
    while k < c.kmax
      invariant mesh.Valid() && L.s == mesh.State()
      invariant Run(c, ops, Start(s0), 0) == WithRecords(trace, Run(c, ops, L, k))
      decreases c.kmax - k
    {
      var step := RunIteration(mesh, c, ops, L, k);
      match step
      case Raised(e, _) =>
        return Err(e), trace;
      case Broke(_, rec) =>
        return Ok(Converged(k)), trace + [rec];
      case Next(L', rec) =>
        WithRecordsTwice(trace, [rec], Run(c, ops, L', k + 1));
        trace := trace + [rec];
        L := L';
        k := k + 1;
    }
    status := Ok(Exhausted);
  }

  // ---------------------------------------------------------------------------
  // The two drivers
  // ---------------------------------------------------------------------------

  /** The edge lengths `optimise_trimesh_topology` collects before the loop. */
  function Lengths(ops: Operators, s: Store): (ls: seq<real>)
    ensures |ls| == |ops.edges(s)|
    ensures forall i :: 0 <= i < |ls| ==> ls[i] == ops.length(s, ops.edges(s)[i].0, ops.edges(s)[i].1)
  {
    var es := ops.edges(s);
    seq(|es|, i requires 0 <= i < |es| => ops.length(s, es[i].0, es[i].1))
  }

  /** `max(xs)`: the largest entry, or `ValueError` for an empty list. */
  method Max(xs: seq<real>) returns (r: Result<real>)
    ensures r.Err? <==> |xs| == 0
    ensures r.Err? ==> r.error == ValueError
    ensures r.Ok? ==> r.value in xs && forall i :: 0 <= i < |xs| ==> xs[i] <= r.value
  {
    if |xs| == 0 {
      return Err(ValueError);
    }
    var m := xs[0];
    var i := 1;
    while i < |xs|
      invariant 1 <= i <= |xs|
      invariant m in xs[..i] && forall j :: 0 <= j < i ==> xs[j] <= m
    {
      if xs[i] > m {
        m := xs[i];
      }
      i := i + 1;
    }
    assert xs[..|xs|] == xs;
    r := Ok(m);
  }

  /** The largest of a non-empty list of lengths, as a function. */
  function Largest(xs: seq<real>): (m: real)
    requires |xs| > 0
    ensures m in xs && forall i :: 0 <= i < |xs| ==> xs[i] <= m
  {
    if |xs| == 1 then xs[0]
    else
      var m := Largest(xs[1..]);
      assert forall i :: 1 <= i < |xs| ==> xs[i] == xs[1..][i - 1];
      if xs[0] >= m then xs[0] else m
  }

  /** The settings `optimise_trimesh_topology` derives from its arguments
      and the initial edge lengths `ls`: the thresholds, `fac` from the
      longest edge (the `target_start` argument is not used), and
      `kmax_start` defaulting to `kmax / 2` when it is `None` or 0. */
  function OptimiseConfig(target: real, kmax: nat, kmaxStart: Option<real>, tol: real, divergence: real,
                          allowBoundary: bool, ls: seq<real>): (r: Result<Config>)
    ensures |ls| == 0 ==> r == Err(ValueError)
    ensures |ls| > 0 && target == 0.0 ==> r == Err(ZeroDivisionError)
    ensures r.Ok? <==> |ls| > 0 && target != 0.0
    ensures r.Ok? ==> r.value.divergence == divergence && r.value.allowBoundary == allowBoundary
    ensures r.Ok? ==> && r.value.lmin == MinLength(tol, target) && r.value.lmax == MaxLength(tol, target)
                      && r.value.fac == Largest(ls) / target
                      && r.value.kmaxStart == (if kmaxStart.None? || kmaxStart.value == 0.0 then kmax as real / 2.0
                                               else kmaxStart.value)
                      && r.value.kmax == kmax && r.value.refreshBoundary
  {
    if |ls| == 0 then Err(ValueError)
    else if target == 0.0 then Err(ZeroDivisionError)
    else
      var ks := if kmaxStart.None? || kmaxStart.value == 0.0 then kmax as real / 2.0 else kmaxStart.value;
      Ok(Config(MinLength(tol, target), MaxLength(tol, target), Largest(ls) / target, ks, kmax, divergence,
                allowBoundary, true))
  }

  /** With the default for a missing or zero `kmax_start`, the ramp never
      divides by zero in `optimise_trimesh_topology`. */
  lemma OptimiseRampDefined(target: real, kmax: nat, kmaxStart: Option<real>, tol: real, divergence: real,
                            allowBoundary: bool, ls: seq<real>, l: real, k: nat)
    requires OptimiseConfig(target, kmax, kmaxStart, tol, divergence, allowBoundary, ls).Ok?
    requires k < kmax
    ensures var c := OptimiseConfig(target, kmax, kmaxStart, tol, divergence, allowBoundary, ls).value;
            Slack(l, c.fac, k, c.kmaxStart).Ok?
  {
    var c := OptimiseConfig(target, kmax, kmaxStart, tol, divergence, allowBoundary, ls).value;
    if kmaxStart.None? || kmaxStart.value == 0.0 {
      assert c.kmaxStart == kmax as real / 2.0 && kmax > 0;
      assert c.kmaxStart > 0.0;
    }
  }

  /** `optimise_trimesh_topology(mesh, target, kmax, target_start,
      kmax_start, tol, divergence, verbose, allow_boundary, ufunc,
      ufunc_args)`; the callback in `ops` stands for `ufunc` with
      `ufunc_args` bound. */
  method OptimiseTrimeshTopology(mesh: Mesh, ops: Operators, target: real, kmax: nat, targetStart: real,
                                 kmaxStart: Option<real>, tol: real, divergence: real, allowBoundary: bool)
    returns (status: Result<Ending>, trace: seq<Record>)
    requires mesh.Valid() && Sound(ops)
    modifies mesh
    ensures mesh.Valid()
    ensures var cfg := OptimiseConfig(target, kmax, kmaxStart, tol, divergence, allowBoundary,
                                      Lengths(ops, old(mesh.State())));
            && (cfg.Err? ==> status == Err(cfg.error) && trace == [] && mesh.State() == old(mesh.State()))
            && (cfg.Ok? ==> Run(cfg.value, ops, Start(old(mesh.State())), 0) == Outcome(status, mesh.State(), trace))
  {
    var lmin := MinLength(tol, target);
    var lmax := MaxLength(tol, target);
    var es := ops.edges(mesh.State());
    var lengths: seq<real> := [];
    var i := 0;
    while i < |es|
      invariant 0 <= i <= |es|
      invariant lengths == Lengths(ops, mesh.State())[..i]
    {
      lengths := lengths + [ops.length(mesh.State(), es[i].0, es[i].1)];
      i := i + 1;
    }
    assert lengths == Lengths(ops, mesh.State());
    var longest := Max(lengths);
    if longest.Err? {
      return Err(longest.error), [];
    }
    if target == 0.0 {
      return Err(ZeroDivisionError), [];
    }
    LargestIsMax(lengths, longest.value);
    var fac := longest.value / target;
    var ks := if kmaxStart.None? || kmaxStart.value == 0.0 then kmax as real / 2.0 else kmaxStart.value;
    var c := Config(lmin, lmax, fac, ks, kmax, divergence, allowBoundary, true);
    assert OptimiseConfig(target, kmax, kmaxStart, tol, divergence, allowBoundary, lengths) == Ok(c);
    status, trace := RemeshLoop(mesh, c, ops);
  }

  /** The largest entry is the one `Max` finds. */
  lemma LargestIsMax(xs: seq<real>, m: real)
    requires m in xs && forall i :: 0 <= i < |xs| ==> xs[i] <= m
    ensures Largest(xs) == m
  {
    var l := Largest(xs);
    var i :| 0 <= i < |xs| && xs[i] == m;
    var j :| 0 <= j < |xs| && xs[j] == l;
  }

  /** The settings the older `remesh` derives: the same thresholds, `fac`
      from the caller's `target_start`, `kmax_approach` as given, and a
      boundary set that is never recomputed. A missing `target_start` or
      `kmax_approach` raises `TypeError` (`None / target`, `float(None)`). */
  function RemeshConfig(target: real, tol: real, divergence: real, kmax: nat, targetStart: Option<real>,
                        kmaxApproach: Option<real>, allowBoundary: bool): (r: Result<Config>)
    ensures targetStart.None? ==> r == Err(TypeError)
    ensures targetStart.Some? && target != 0.0 && kmaxApproach.None? ==> r == Err(TypeError)
    ensures targetStart.Some? && target == 0.0 ==> r == Err(ZeroDivisionError)
    ensures r.Ok? <==> targetStart.Some? && kmaxApproach.Some? && target != 0.0
    ensures r.Ok? ==> r.value.divergence == divergence && r.value.allowBoundary == allowBoundary
    ensures r.Ok? ==> && r.value.lmin == MinLength(tol, target) && r.value.lmax == MaxLength(tol, target)
                      && r.value.fac == targetStart.value / target && r.value.kmaxStart == kmaxApproach.value
                      && r.value.kmax == kmax && !r.value.refreshBoundary
  {
    if targetStart.None? then Err(TypeError)
    else if target == 0.0 then Err(ZeroDivisionError)
    else if kmaxApproach.None? then Err(TypeError)
    else
      Ok(Config(MinLength(tol, target), MaxLength(tol, target), targetStart.value / target, kmaxApproach.value,
                kmax, divergence, allowBoundary, false))
  }

  /** `remesh(mesh, target, tol, divergence, kmax, target_start,
      kmax_approach, verbose, allow_boundary, ufunc)`. */
  method Remesh(mesh: Mesh, ops: Operators, target: real, tol: real, divergence: real, kmax: nat,
                targetStart: Option<real>, kmaxApproach: Option<real>, allowBoundary: bool)
    returns (status: Result<Ending>, trace: seq<Record>)
    requires mesh.Valid() && Sound(ops)
    modifies mesh
    ensures mesh.Valid()
    ensures var cfg := RemeshConfig(target, tol, divergence, kmax, targetStart, kmaxApproach, allowBoundary);
            && (cfg.Err? ==> status == Err(cfg.error) && trace == [] && mesh.State() == old(mesh.State()))
            && (cfg.Ok? ==> Run(cfg.value, ops, Start(old(mesh.State())), 0) == Outcome(status, mesh.State(), trace))
  {
    if targetStart.None? {
      return Err(TypeError), [];
    }
    if target == 0.0 {
      return Err(ZeroDivisionError), [];
    }
    var fac := targetStart.value / target;
    if kmaxApproach.None? {
      return Err(TypeError), [];
    }
    var c := Config(MinLength(tol, target), MaxLength(tol, target), fac, kmaxApproach.value, kmax, divergence,
                    allowBoundary, false);
    status, trace := RemeshLoop(mesh, c, ops);
  }
}
