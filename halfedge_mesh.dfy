/** The half-edge mesh store: three dictionaries and two key counters.

    - `vertex`:   key -> attribute dictionary;
    - `halfedge`: u -> v -> the face to the left of the directed edge u->v,
                  or `None` on the boundary side;
    - `face`:     face key -> successor map (vertex -> next vertex of the cycle).

    The base methods that the modelled operations call (`add_vertex`,
    `add_face`, `face_vertices`, `vertex_degree`) are given the smallest
    contracts those operations need. */
module HalfEdgeMesh {
  import opened Wrappers
  import opened Attributes

  type VKey = int
  type FKey = int
  type Successors = map<VKey, VKey>

  datatype Store = Store(
    vertex: map<VKey, Attrs>,
    halfedge: map<VKey, map<VKey, Option<FKey>>>,
    face: map<FKey, Successors>,
    nextVertex: int,  // every vertex key is below it
    nextFace: int)    // every face key is below it

  // ---------------------------------------------------------------------------
  // Face cycles
  // ---------------------------------------------------------------------------

  /** `S` is a set of vertices of the face that the successor map never leaves. */
  ghost predicate Closed(m: Successors, S: set<VKey>) {
    S <= m.Keys && forall x {:trigger m[x]} :: x in S ==> m[x] in S
  }

  /** The successor map is one cycle: no nonempty proper part of it is closed. */
  ghost predicate SingleCycle(m: Successors) {
    forall S :: S != {} && Closed(m, S) ==> S == m.Keys
  }

  predicate Injective(m: Successors) {
    forall x, y {:trigger m[x], m[y]} :: x in m && y in m && x != y ==> m[x] != m[y]
  }

  /** Neither a self-loop nor a two-cycle starts at `x`. */
  predicate NoShortCycle(m: Successors, x: VKey) {
    x in m && m[x] != x && (m[x] in m ==> m[m[x]] != x)
  }

  /** A well-formed face: one cycle through its vertices with no
      self-loop and no two-cycle, so at least three vertices. */
  ghost predicate FaceCycle(m: Successors) {
    && (exists x :: x in m)
    && ClosedMap(m)
    && NoShortCycles(m)
    && Injective(m)
    && SingleCycle(m)
  }

  /** Every successor is itself a vertex of the face. */
  predicate ClosedMap(m: Successors) {
    forall x {:trigger m[x]} :: x in m ==> m[x] in m
  }

  predicate NoShortCycles(m: Successors) {
    forall x {:trigger NoShortCycle(m, x)} :: x in m ==> NoShortCycle(m, x)
  }

  // ---------------------------------------------------------------------------
  // Well-formedness of the store
  // ---------------------------------------------------------------------------

  /** The directed half-edge u->v: no self-loop, its twin v->u exists, and
      if it borders a face then that face steps from u to v. */
  ghost predicate HalfedgeOk(s: Store, u: VKey, v: VKey)
    requires u in s.halfedge && v in s.halfedge[u]
  {
    && u != v
    && v in s.halfedge && u in s.halfedge[v]
    && (s.halfedge[u][v].Some? ==>
          var f := s.halfedge[u][v].value;
          f in s.face && u in s.face[f] && s.face[f][u] == v)
  }

  /** The face step u -> face[f][u] is a half-edge bound to f. */
  ghost predicate FaceEdgeOk(s: Store, f: FKey, u: VKey)
    requires f in s.face && u in s.face[f]
  {
    && u in s.halfedge
    && s.face[f][u] in s.halfedge[u]
    && s.halfedge[u][s.face[f][u]] == Some(f)
  }

  /** Every vertex has a row of half-edges, a key below the counter and a position. */
  ghost predicate VerticesOk(s: Store) {
    && (forall k :: k in s.halfedge <==> k in s.vertex)
    && (forall k :: k in s.vertex ==> k < s.nextVertex && Placed(s.vertex[k]))
  }

  /** Every face has a key below the counter and is one cycle. */
  ghost predicate FacesOk(s: Store) {
    forall f :: f in s.face ==> f < s.nextFace && FaceCycle(s.face[f])
  }

  ghost predicate HalfedgesOk(s: Store) {
    forall u, v :: u in s.halfedge && v in s.halfedge[u] ==> HalfedgeOk(s, u, v)
  }

  ghost predicate FaceEdgesOk(s: Store) {
    forall f, u :: f in s.face && u in s.face[f] ==> FaceEdgeOk(s, f, u)
  }

  ghost predicate WellFormed(s: Store) {
    VerticesOk(s) && FacesOk(s) && HalfedgesOk(s) && FaceEdgesOk(s)
  }

  /** Degenerate faces never occur: every face of a well-formed store has at
      least three distinct vertices. */
  lemma FaceHasThreeVertices(s: Store, f: FKey)
    requires WellFormed(s) && f in s.face
    ensures |s.face[f]| >= 3
  {
    FaceCycleHasThree(s.face[f]);
  }

  lemma FaceCycleHasThree(m: Successors)
    requires FaceCycle(m)
    ensures |m| >= 3
  {
    var x :| x in m;
    assert NoShortCycle(m, x);
    ThreeDistinct(x, m[x], m[m[x]], m.Keys);
  }

  lemma ThreeDistinct(x: VKey, y: VKey, z: VKey, K: set<VKey>)
    requires x in K && y in K && z in K && x != y && y != z && z != x
    ensures |K| >= 3
  {
    var T := {x, y, z};
    assert |T| == 3;
    CardinalityOfSubset(T, K);
  }

  lemma CardinalityOfSubset<X>(A: set<X>, B: set<X>)
    requires A <= B
    ensures |A| <= |B|
  {
    assert B == A + (B - A);
  }

  /** `vertex_degree`: the number of distinct neighbours. */
  function Degree(s: Store, u: VKey): (d: nat)
    requires u in s.halfedge
    ensures d == |s.halfedge[u].Keys|
  {
    |s.halfedge[u]|
  }

  /** `u` has an outgoing half-edge that borders no face. */
  ghost predicate OnBoundary(s: Store, u: VKey) {
    u in s.halfedge && exists v :: v in s.halfedge[u] && s.halfedge[u][v] == None
  }

  /** `u` has an incoming half-edge that borders no face. */
  ghost predicate EndsBoundary(s: Store, u: VKey) {
    exists v :: v in s.halfedge && u in s.halfedge[v] && s.halfedge[v][u] == None
  }

  // ---------------------------------------------------------------------------
  // Bound half-edges around a vertex
  // ---------------------------------------------------------------------------

  /** The faces that pass through `v`. */
  ghost function FacesAt(s: Store, v: VKey): set<FKey> {
    set f | f in s.face && v in s.face[f]
  }

  /** The neighbours `w` with `v -> w` bound to a face. */
  ghost function BoundOut(s: Store, v: VKey): set<VKey>
    requires v in s.halfedge
  {
    set w | w in s.halfedge[v] && s.halfedge[v][w].Some?
  }

  /** The neighbours `w` with `w -> v` bound to a face. */
  ghost function BoundIn(s: Store, v: VKey): set<VKey>
    requires v in s.halfedge
  {
    set w | w in s.halfedge[v] && w in s.halfedge && v in s.halfedge[w] && s.halfedge[w][v].Some?
  }

  /** Around every vertex of a well-formed store each face through it binds
      exactly one outgoing and one incoming half-edge, so the three counts
      agree. */
  lemma BoundBalance(s: Store, v: VKey)
    requires WellFormed(s) && v in s.halfedge
    ensures |BoundOut(s, v)| == |FacesAt(s, v)| == |BoundIn(s, v)|
  {
    BoundOutCount(s, v);
    BoundInCount(s, v);
  }

  /** Each face through `v` binds exactly one half-edge leaving `v`. */
  lemma BoundOutCount(s: Store, v: VKey)
    requires WellFormed(s) && v in s.halfedge
    ensures |BoundOut(s, v)| == |FacesAt(s, v)|
  {
    var F := FacesAt(s, v);
    var g := map w | w in BoundOut(s, v) :: s.halfedge[v][w].value;
    forall w | w in g ensures g[w] in F {
      assert HalfedgeOk(s, v, w);
    }
    forall f | f in F ensures exists w :: w in g && g[w] == f {
      assert FaceEdgeOk(s, f, v);
      var w := s.face[f][v];
      assert w in g && g[w] == f;
    }
    forall w1, w2 | w1 in g && w2 in g && g[w1] == g[w2] ensures w1 == w2 {
      assert HalfedgeOk(s, v, w1);
      assert HalfedgeOk(s, v, w2);
    }
    InjectionCard(g, F);
    assert g.Keys == BoundOut(s, v);
  }

  /** Each face through `v` binds exactly one half-edge entering `v`. */
  lemma BoundInCount(s: Store, v: VKey)
    requires WellFormed(s) && v in s.halfedge
    ensures |BoundIn(s, v)| == |FacesAt(s, v)|
  {
    var F := FacesAt(s, v);
    var g := map w | w in BoundIn(s, v) :: s.halfedge[w][v].value;
    forall w | w in g ensures g[w] in F {
      assert HalfedgeOk(s, w, v);
      var f := s.halfedge[w][v].value;
      assert FaceCycle(s.face[f]);
    }
    forall f | f in F ensures exists w :: w in g && g[w] == f {
      var m := s.face[f];
      assert FaceCycle(m);
      var w := SuccessorOnto(m, v);
      assert FaceEdgeOk(s, f, w);
      assert HalfedgeOk(s, w, v);
      assert w in g && g[w] == f;
    }
    forall w1, w2 | w1 in g && w2 in g && g[w1] == g[w2] ensures w1 == w2 {
      assert HalfedgeOk(s, w1, v);
      assert HalfedgeOk(s, w2, v);
      var f := g[w1];
      assert FaceCycle(s.face[f]);
      assert Injective(s.face[f]);
    }
    InjectionCard(g, F);
    assert g.Keys == BoundIn(s, v);
  }

  /** A vertex of a well-formed store has an outgoing unbound half-edge iff
      it has an incoming one. */
  lemma {:induction false} BoundaryBothWays(s: Store, v: VKey)
    requires WellFormed(s) && v in s.halfedge
    ensures OnBoundary(s, v) <==> EndsBoundary(s, v)
  {
    var N := s.halfedge[v].Keys;
    BoundBalance(s, v);
    assert BoundOut(s, v) <= N;
    assert BoundIn(s, v) <= N;
    if OnBoundary(s, v) {
      var w :| w in N && s.halfedge[v][w] == None;
      assert w !in BoundOut(s, v);
      CardinalityBelow(BoundOut(s, v), N, w);
      var x := MissingFrom(BoundIn(s, v), N);
      assert HalfedgeOk(s, v, x);
    }
    if EndsBoundary(s, v) {
      var w :| w in s.halfedge && v in s.halfedge[w] && s.halfedge[w][v] == None;
      assert HalfedgeOk(s, w, v);
      assert w !in BoundIn(s, v);
      CardinalityBelow(BoundIn(s, v), N, w);
      var x := MissingFrom(BoundOut(s, v), N);
    }
  }

  /** An injective map onto `B` has as many keys as `B` has elements. */
  lemma {:induction false} InjectionCard<X, Y>(g: map<X, Y>, B: set<Y>)
    requires forall x :: x in g ==> g[x] in B
    requires forall y :: y in B ==> exists x :: x in g && g[x] == y
    requires forall x1, x2 :: x1 in g && x2 in g && g[x1] == g[x2] ==> x1 == x2
    ensures |g.Keys| == |B|
    decreases |g.Keys|
  {
    if g.Keys == {} {
      assert B == {};
    } else {
      var x :| x in g;
      var h := g - {x};
      var C := B - {g[x]};
      forall y | y in C ensures exists z :: z in h && h[z] == y {
        var z :| z in g && g[z] == y;
        assert z != x && z in h;
      }
      InjectionCard(h, C);
      assert g.Keys == h.Keys + {x};
    }
  }

  /** The vertices that some vertex of the face steps to. */
  ghost function Image(m: Successors): set<VKey> {
    set w | w in m :: m[w]
  }

  /** An injective successor map has as many targets as sources. */
  lemma ImageSize(m: Successors)
    requires Injective(m)
    ensures |Image(m)| == |m.Keys|
  {
    var V := Image(m);
    forall z | z in m ensures m[z] in V {
      assert m[z] in V;
    }
    forall z | z in V ensures exists w :: w in m && m[w] == z {
      var w :| w in m && m[w] == z;
    }
    forall x1, x2 | x1 in m && x2 in m && m[x1] == m[x2] ensures x1 == x2 {
      SameTarget(m, x1, x2);
    }
    InjectionCard(m, V);
  }

  lemma SameTarget(m: Successors, x1: VKey, x2: VKey)
    requires Injective(m) && x1 in m && x2 in m && m[x1] == m[x2]
    ensures x1 == x2
  {
  }

  /** A face's successor map is onto its vertices: every vertex has a
      predecessor, as an injective map of a finite set into itself is onto. */
  lemma SuccessorOnto(m: Successors, y: VKey) returns (x: VKey)
    requires ClosedMap(m) && Injective(m) && y in m
    ensures x in m && m[x] == y
  {
    ImageSize(m);
    assert Image(m) <= m.Keys;
    if y !in Image(m) {
      CardinalityBelow(Image(m), m.Keys, y);
    }
    x :| x in m && m[x] == y;
  }

  /** A subset that misses an element of its superset is strictly smaller. */
  lemma CardinalityBelow<X>(A: set<X>, B: set<X>, y: X)
    requires A <= B && y in B && y !in A
    ensures |A| < |B|
  {
    CardinalityOfSubset(A + {y}, B);
  }

  /** A strictly smaller subset misses some element. */
  lemma MissingFrom<X>(A: set<X>, B: set<X>) returns (y: X)
    requires |A| < |B|
    ensures y in B && y !in A
  {
    if B <= A {
      CardinalityOfSubset(B, A);
    }
    y :| y in B && y !in A;
  }

  // ---------------------------------------------------------------------------
  // Cycles given as vertex lists
  // ---------------------------------------------------------------------------

  predicate Distinct(vs: seq<VKey>) {
    forall i, j :: 0 <= i < j < |vs| ==> vs[i] != vs[j]
  }

  function IndexOf(vs: seq<VKey>, x: VKey): (i: nat)
    requires x in vs
    ensures i < |vs| && vs[i] == x
    ensures forall j :: 0 <= j < i ==> vs[j] != x
  {
    if vs[0] == x then 0 else 1 + IndexOf(vs[1..], x)
  }

  lemma IndexOfDistinct(vs: seq<VKey>, i: nat)
    requires Distinct(vs) && i < |vs|
    ensures IndexOf(vs, vs[i]) == i
  {
  }

  /** The vertex after `x` in the cyclic list `vs`. */
  function Next(vs: seq<VKey>, x: VKey): (y: VKey)
    requires x in vs
    ensures y in vs
  {
    var i := IndexOf(vs, x);
    if i + 1 < |vs| then vs[i + 1] else vs[0]
  }

  lemma NextAt(vs: seq<VKey>, i: nat)
    requires Distinct(vs) && i < |vs|
    ensures Next(vs, vs[i]) == if i + 1 < |vs| then vs[i + 1] else vs[0]
  {
    IndexOfDistinct(vs, i);
  }

  /** The successor map of the cyclic vertex list `vs`. */
  function CycleMap(vs: seq<VKey>): (m: Successors)
    ensures forall x :: x in m <==> x in vs
    ensures forall x :: x in vs ==> m[x] == Next(vs, x)
  {
    map x | x in vs :: Next(vs, x)
  }

  /** The index after `i` in a cyclic list of length `n`. */
  function After(n: nat, i: nat): (j: nat)
    requires i < n
    ensures j < n
  {
    if i + 1 < n then i + 1 else 0
  }

  /** Every vertex of `vs` steps in `m` to the one after it, the last to the first. */
  predicate Steps(vs: seq<VKey>, m: Successors) {
    && (forall i :: 0 <= i < |vs| ==> vs[i] in m)
    && (forall i {:trigger m[vs[i]]} :: 0 <= i < |vs| ==> m[vs[i]] == vs[After(|vs|, i)])
  }

  /** Every key of `m` is in `vs`. */
  predicate Covers(vs: seq<VKey>, m: Successors) {
    forall x :: x in m ==> x in vs
  }

  /** `vs` lists the successor map `m` once round, in cycle order. */
  predicate ListsCycle(vs: seq<VKey>, m: Successors) {
    Distinct(vs) && |vs| == |m| && Steps(vs, m)
  }

  lemma CycleMapSteps(vs: seq<VKey>)
    requires Distinct(vs)
    ensures Steps(vs, CycleMap(vs)) && Covers(vs, CycleMap(vs))
  {
    var m := CycleMap(vs);
    forall i | 0 <= i < |vs| ensures vs[i] in m && m[vs[i]] == vs[After(|vs|, i)] {
      NextAt(vs, i);
    }
  }

  /** A closed set that holds `vs[i]` holds every later vertex up to `vs[j]`,
      and with the last one also `vs[0]`. */
  lemma {:induction false} ClosedFrom(vs: seq<VKey>, m: Successors, S: set<VKey>, i: nat, j: nat)
    requires i <= j < |vs| && Steps(vs, m) && Closed(m, S) && vs[i] in S
    ensures forall l :: i <= l <= j ==> vs[l] in S
    ensures j == |vs| - 1 ==> vs[0] in S
    decreases j - i
  {
    if i < j {
      ClosedFrom(vs, m, S, i, j - 1);
      var y := vs[j - 1];
      assert m[y] == vs[j] && m[y] in S;
    }
    var y := vs[j];
    assert m[y] == vs[After(|vs|, j)] && m[y] in S;
  }

  /** A successor map that a list steps through, covering all its keys, is one cycle. */
  lemma StepsSingleCycle(vs: seq<VKey>, m: Successors)
    requires Steps(vs, m) && Covers(vs, m)
    ensures SingleCycle(m)
  {
    forall S | S != {} && Closed(m, S) ensures S == m.Keys {
      ClosedIsAll(vs, m, S);
    }
  }

  lemma ClosedIsAll(vs: seq<VKey>, m: Successors, S: set<VKey>)
    requires Steps(vs, m) && Covers(vs, m) && S != {} && Closed(m, S)
    ensures S == m.Keys
  {
    var x := Pick(S);
    assert x in vs by { assert x in m; }
    var i0 :| 0 <= i0 < |vs| && vs[i0] == x;
    assert forall l :: 0 <= l < |vs| ==> vs[l] in S by {
      ClosedFrom(vs, m, S, i0, |vs| - 1);
      ClosedFrom(vs, m, S, 0, |vs| - 1);
    }
    forall y | y in m ensures y in S {
      assert y in vs;
    }
  }

  lemma StepsClosedNoShort(vs: seq<VKey>, m: Successors)
    requires Distinct(vs) && |vs| >= 3 && Steps(vs, m) && Covers(vs, m)
    ensures forall x :: x in m ==> m[x] in m && NoShortCycle(m, x)
  {
    var n := |vs|;
    forall x | x in m ensures m[x] in m && NoShortCycle(m, x) {
      var i :| 0 <= i < n && vs[i] == x;
      var j := After(n, i);
      assert vs[i] in m && vs[j] in m;
      assert m[vs[i]] == vs[j];
      assert m[vs[j]] == vs[After(n, j)];
    }
  }

  lemma StepsInjective(vs: seq<VKey>, m: Successors)
    requires Distinct(vs) && Steps(vs, m) && Covers(vs, m)
    ensures Injective(m)
  {
    forall x, y | x in m && y in m && x != y ensures m[x] != m[y] {
      var i :| 0 <= i < |vs| && vs[i] == x;
      var j :| 0 <= j < |vs| && vs[j] == y;
      StepsAt(vs, m, i);
      StepsAt(vs, m, j);
      AfterInjective(|vs|, i, j);
    }
  }

  lemma StepsAt(vs: seq<VKey>, m: Successors, i: nat)
    requires Steps(vs, m) && i < |vs|
    ensures vs[i] in m && m[vs[i]] == vs[After(|vs|, i)]
  {
  }

  lemma AfterInjective(n: nat, i: nat, j: nat)
    requires i < n && j < n && i != j
    ensures After(n, i) != After(n, j)
  {
  }

  /** A successor map that a list of at least three distinct vertices steps
      through, and that has no other keys, is a well-formed face. */
  lemma StepsFaceCycle(vs: seq<VKey>, m: Successors)
    requires Distinct(vs) && |vs| >= 3 && Steps(vs, m) && Covers(vs, m)
    ensures FaceCycle(m)
  {
    StepsClosedNoShort(vs, m);
    StepsInjective(vs, m);
    StepsSingleCycle(vs, m);
    assert vs[0] in m;
  }

  /** A cyclic list of at least three distinct vertices makes a well-formed face. */
  lemma CycleMapIsFaceCycle(vs: seq<VKey>)
    requires Distinct(vs) && |vs| >= 3
    ensures FaceCycle(CycleMap(vs))
  {
    CycleMapSteps(vs);
    StepsFaceCycle(vs, CycleMap(vs));
  }

  // ---------------------------------------------------------------------------
  // The base operations on values
  // ---------------------------------------------------------------------------

  /** The vertex list is one the base `add_face` accepts. */
  predicate Admissible(s: Store, vs: seq<VKey>) {
    && |vs| >= 3
    && Distinct(vs)
    && (forall i :: 0 <= i < |vs| ==> vs[i] in s.vertex && vs[i] in s.halfedge)
  }

  /** The half-edges of `add_face(vs)` with key `k` leaving `x`: the step
      x -> Next(x) of the cycle is bound to `k`, and a missing twin of a
      step into `x` is added as `None`. */
  function BindRow(row: map<VKey, Option<FKey>>, x: VKey, vs: seq<VKey>, k: FKey): (r: map<VKey, Option<FKey>>)
    ensures forall y :: y in r <==> y in row || (y in vs && ((x in vs && Next(vs, x) == y) || Next(vs, y) == x))
  {
    var extra := set y | y in vs && ((x in vs && Next(vs, x) == y) || Next(vs, y) == x);
    map y | y in row.Keys + extra ::
      if x in vs && Next(vs, x) == y then Some(k) else if y in row then row[y] else None
  }

  function AddFaceTo(s: Store, vs: seq<VKey>, k: FKey): (t: Store)
    ensures t.vertex == s.vertex && t.nextVertex == s.nextVertex
    ensures t.face == s.face[k := CycleMap(vs)]
    ensures t.nextFace == if k < s.nextFace then s.nextFace else k + 1
    ensures forall x :: x in t.halfedge <==> x in s.halfedge
  {
    Store(
      s.vertex,
      map x | x in s.halfedge :: BindRow(s.halfedge[x], x, vs, k),
      s.face[k := CycleMap(vs)],
      s.nextVertex,
      if k < s.nextFace then s.nextFace else k + 1)
  }

  /** No step of the cycle is already a half-edge bound to a face. */
  predicate Unbound(s: Store, vs: seq<VKey>) {
    forall x :: x in vs ==>
      !(x in s.halfedge && Next(vs, x) in s.halfedge[x] && s.halfedge[x][Next(vs, x)].Some?)
  }

  lemma NextDiffers(vs: seq<VKey>, x: VKey)
    requires Distinct(vs) && |vs| >= 2 && x in vs
    ensures Next(vs, x) != x
  {
    NextAt(vs, IndexOf(vs, x));
  }

  lemma AddFaceHalfedge(s: Store, vs: seq<VKey>, k: FKey, u: VKey, v: VKey)
    requires HalfedgesOk(s) && Admissible(s, vs) && k !in s.face
    requires u in AddFaceTo(s, vs, k).halfedge && v in AddFaceTo(s, vs, k).halfedge[u]
    ensures HalfedgeOk(AddFaceTo(s, vs, k), u, v)
  {
    RowAt(s, vs, k, u);
    if u in vs && Next(vs, u) == v {
      CycleHalfedge(s, vs, k, u);
    } else if v in s.halfedge[u] {
      assert HalfedgeOk(s, u, v);
      KeptHalfedge(s, vs, k, u, v);
    } else {
      TwinHalfedge(s, vs, k, v);
    }
  }

  /** A step of the new cycle is a half-edge of the new face. */
  lemma CycleHalfedge(s: Store, vs: seq<VKey>, k: FKey, u: VKey)
    requires Admissible(s, vs) && u in vs
    ensures var t, v := AddFaceTo(s, vs, k), Next(vs, u);
            u in t.halfedge && v in t.halfedge[u] && HalfedgeOk(t, u, v) && t.halfedge[u][v] == Some(k)
  {
    var v := Next(vs, u);
    NextDiffers(vs, u);
    InAdmissible(s, vs, u);
    InAdmissible(s, vs, v);
    RowAt(s, vs, k, u);
    RowAt(s, vs, k, v);
    BindRowAt(s.halfedge[u], u, vs, k, v);
  }

  /** A half-edge that is no step of the new cycle keeps its face. */
  lemma KeptHalfedge(s: Store, vs: seq<VKey>, k: FKey, u: VKey, v: VKey)
    requires k !in s.face && u in s.halfedge && v in s.halfedge[u] && HalfedgeOk(s, u, v)
    requires !(u in vs && Next(vs, u) == v)
    ensures var t := AddFaceTo(s, vs, k);
            u in t.halfedge && v in t.halfedge[u] && HalfedgeOk(t, u, v) && t.halfedge[u][v] == s.halfedge[u][v]
  {
    RowAt(s, vs, k, u);
    RowAt(s, vs, k, v);
    BindRowAt(s.halfedge[u], u, vs, k, v);
  }

  /** The twin of a step of the new cycle, added as a boundary half-edge
      when it was missing. */
  lemma TwinHalfedge(s: Store, vs: seq<VKey>, k: FKey, v: VKey)
    requires Admissible(s, vs) && v in vs
    requires var u := Next(vs, v); u in s.halfedge && v !in s.halfedge[u] && !(u in vs && Next(vs, u) == v)
    ensures var t, u := AddFaceTo(s, vs, k), Next(vs, v);
            u in t.halfedge && v in t.halfedge[u] && HalfedgeOk(t, u, v)
  {
    var u := Next(vs, v);
    NextDiffers(vs, v);
    InAdmissible(s, vs, v);
    RowAt(s, vs, k, u);
    RowAt(s, vs, k, v);
    BindRowAt(s.halfedge[u], u, vs, k, v);
  }

  lemma InAdmissible(s: Store, vs: seq<VKey>, x: VKey)
    requires Admissible(s, vs) && x in vs
    ensures x in s.vertex && x in s.halfedge
  {
    var i := IndexOf(vs, x);
  }

  /** The row of `x` after `add_face`. */
  lemma RowAt(s: Store, vs: seq<VKey>, k: FKey, x: VKey)
    requires x in s.halfedge
    ensures x in AddFaceTo(s, vs, k).halfedge
    ensures AddFaceTo(s, vs, k).halfedge[x] == BindRow(s.halfedge[x], x, vs, k)
  {
  }

  lemma BindRowAt(row: map<VKey, Option<FKey>>, x: VKey, vs: seq<VKey>, k: FKey, y: VKey)
    requires y in BindRow(row, x, vs, k)
    ensures BindRow(row, x, vs, k)[y] ==
              if x in vs && Next(vs, x) == y then Some(k) else if y in row then row[y] else None
  {
  }

  lemma AddFaceFaceEdge(s: Store, vs: seq<VKey>, k: FKey, f: FKey, u: VKey)
    requires WellFormed(s) && Admissible(s, vs) && Unbound(s, vs) && k !in s.face
    requires f in AddFaceTo(s, vs, k).face && u in AddFaceTo(s, vs, k).face[f]
    ensures FaceEdgeOk(AddFaceTo(s, vs, k), f, u)
  {
    if f == k {
      assert u in vs && AddFaceTo(s, vs, k).face[f][u] == Next(vs, u);
      CycleHalfedge(s, vs, k, u);
    } else {
      assert FaceEdgeOk(s, f, u);
      var y := s.face[f][u];
      assert HalfedgeOk(s, u, y);
      KeptHalfedge(s, vs, k, u, y);
    }
  }

  /** Adding a face whose half-edges are all free keeps the store well-formed. */
  lemma AddFaceKeepsWellFormed(s: Store, vs: seq<VKey>, k: FKey)
    requires WellFormed(s) && Admissible(s, vs) && Unbound(s, vs) && k !in s.face
    ensures WellFormed(AddFaceTo(s, vs, k))
  {
    var t := AddFaceTo(s, vs, k);
    assert VerticesOk(t);
    AddFaceFaces(s, vs, k);
    forall u, v | u in t.halfedge && v in t.halfedge[u] ensures HalfedgeOk(t, u, v) {
      AddFaceHalfedge(s, vs, k, u, v);
    }
    forall f, u | f in t.face && u in t.face[f] ensures FaceEdgeOk(t, f, u) {
      AddFaceFaceEdge(s, vs, k, f, u);
    }
  }

  lemma AddFaceFaces(s: Store, vs: seq<VKey>, k: FKey)
    requires FacesOk(s) && |vs| >= 3 && Distinct(vs)
    ensures FacesOk(AddFaceTo(s, vs, k))
  {
    var t := AddFaceTo(s, vs, k);
    forall f | f in t.face ensures f < t.nextFace && FaceCycle(t.face[f]) {
      if f == k {
        CycleMapIsFaceCycle(vs);
      } else {
        assert t.face[f] == s.face[f];
      }
    }
  }

  function AddVertexTo(s: Store, a: Attrs): (t: Store)
    ensures t.vertex == s.vertex[s.nextVertex := a]
    ensures t.halfedge == s.halfedge[s.nextVertex := map[]]
    ensures t.face == s.face && t.nextFace == s.nextFace && t.nextVertex == s.nextVertex + 1
  {
    Store(s.vertex[s.nextVertex := a], s.halfedge[s.nextVertex := map[]], s.face, s.nextVertex + 1, s.nextFace)
  }

  /** A fresh, placed vertex with no neighbours keeps the store well-formed. */
  lemma AddVertexKeepsWellFormed(s: Store, a: Attrs)
    requires WellFormed(s) && Placed(a)
    ensures WellFormed(AddVertexTo(s, a))
  {
    var t := AddVertexTo(s, a);
    forall u, v | u in t.halfedge && v in t.halfedge[u] ensures HalfedgeOk(t, u, v) {
      assert u != s.nextVertex;
      assert HalfedgeOk(s, u, v);
    }
    forall f, u | f in t.face && u in t.face[f] ensures FaceEdgeOk(t, f, u) {
      assert FaceEdgeOk(s, f, u);
    }
  }

  // ---------------------------------------------------------------------------
  // The mesh object
  // ---------------------------------------------------------------------------

  class Mesh {
    var vertex: map<VKey, Attrs>
    var halfedge: map<VKey, map<VKey, Option<FKey>>>
    var face: map<FKey, Successors>
    var nextVertex: int
    var nextFace: int

    function State(): Store
      reads this
    {
      Store(vertex, halfedge, face, nextVertex, nextFace)
    }

    ghost predicate Valid()
      reads this
    {
      WellFormed(State())
    }

    constructor ()
      ensures Valid()
      ensures vertex == map[] && halfedge == map[] && face == map[]
    {
      vertex, halfedge, face := map[], map[], map[];
      nextVertex, nextFace := 0, 0;
    }

    /** Replaces the whole state (what an operator outside the model leaves behind). */
    method Load(s: Store)
      modifies this
      ensures State() == s
    {
      vertex, halfedge, face := s.vertex, s.halfedge, s.face;
      nextVertex, nextFace := s.nextVertex, s.nextFace;
    }

    /** `add_vertex(attr_dict=a)`: a fresh key, the given attributes and no neighbours. */
    method AddVertex(a: Attrs) returns (key: VKey)
      requires Valid() && Placed(a)
      modifies this
      ensures Valid()
      ensures key !in old(vertex) && key == old(nextVertex)
      ensures State() == AddVertexTo(old(State()), a)
    {
      AddVertexKeepsWellFormed(State(), a);
      key := nextVertex;
      vertex := vertex[key := a];
      halfedge := halfedge[key := map[]];
      nextVertex := nextVertex + 1;
    }

    /** The base `add_face(vs, fkey)`: refuses lists of fewer than three or
        repeated or unknown vertices and a face key already in use;
        otherwise binds every step of the cycle to the new key (overwriting
        what was there) and adds a missing twin as `None`. */
    method AddFace(vs: seq<VKey>, fkey: Option<FKey>) returns (r: Result<FKey>)
      requires Valid()
      modifies this
      ensures r.Ok? <==> Admissible(old(State()), vs) && (fkey.Some? ==> fkey.value !in old(face))
      ensures r.Err? ==> r.error == TopologyError && State() == old(State())
      ensures r.Ok? ==> r.value !in old(face)
      ensures r.Ok? ==> r.value == (if fkey.Some? then fkey.value else old(nextFace))
      ensures r.Ok? ==> State() == AddFaceTo(old(State()), vs, r.value)
      ensures r.Ok? && Unbound(old(State()), vs) ==> Valid()
    {
      if !Admissible(State(), vs) || (fkey.Some? && fkey.value in face) {
        return Err(TopologyError);
      }
      var k := if fkey.Some? then fkey.value else nextFace;
      if Unbound(State(), vs) {
        AddFaceKeepsWellFormed(State(), vs, k);
      }
      Load(AddFaceTo(State(), vs, k));
      r := Ok(k);
    }

    /** `face_vertices(fkey, ordered=True)`: the face's vertices once round,
        from some start vertex. */
    method FaceVertices(f: FKey) returns (r: Result<seq<VKey>>)
      requires Valid()
      ensures r.Err? <==> f !in face
      ensures r.Err? ==> r.error == KeyError
      ensures r.Ok? ==> ListsCycle(r.value, face[f])
    {
      if f !in face {
        return Err(KeyError);
      }
      var m := face[f];
      assert FaceCycle(m);
      var start :| start in m;
      var vs := WalkCycle(m, start);
      r := Ok(vs);
    }
  }

  /** `vs` follows the successor map from its first vertex to its last. */
  predicate Path(vs: seq<VKey>, m: Successors) {
    && (forall i :: 0 <= i < |vs| ==> vs[i] in m)
    && (forall i {:trigger m[vs[i]]} :: 0 <= i < |vs| - 1 ==> m[vs[i]] == vs[i + 1])
  }

  /** Follows the successor map from `start` until it is back at `start`. */
  method WalkCycle(m: Successors, start: VKey) returns (vs: seq<VKey>)
    requires FaceCycle(m) && start in m
    ensures ListsCycle(vs, m) && vs[0] == start
  {
    vs := [start];
    var cur := m[start];
    while cur != start
      invariant |vs| >= 1 && vs[0] == start
      invariant Distinct(vs) && Path(vs, m) && |vs| <= |m|
      invariant cur == m[vs[|vs| - 1]]
      decreases |m| - |vs|
    {
      WalkStep(m, vs, cur);
      vs := vs + [cur];
      cur := m[cur];
    }
    WalkClosed(m, vs);
  }

  /** The next vertex of a walk that has not come back to its start is new. */
  lemma WalkStep(m: Successors, vs: seq<VKey>, cur: VKey)
    requires ClosedMap(m) && Injective(m)
    requires |vs| >= 1 && Distinct(vs) && Path(vs, m)
    requires cur == m[vs[|vs| - 1]] && cur != vs[0]
    ensures Distinct(vs + [cur]) && Path(vs + [cur], m) && |vs| + 1 <= |m|
  {
    assert vs[|vs| - 1] in m;
    WalkStepFresh(m, vs, cur);
    AppendDistinct(vs, cur);
    AppendPath(vs, cur, m);
    DistinctBound(vs + [cur], m);
  }

  lemma WalkStepFresh(m: Successors, vs: seq<VKey>, cur: VKey)
    requires Injective(m) && |vs| >= 1 && Distinct(vs) && Path(vs, m)
    requires cur == m[vs[|vs| - 1]] && cur != vs[0]
    ensures cur !in vs
  {
    forall i | 0 <= i < |vs| ensures vs[i] != cur {
      if i > 0 {
        assert vs[i - 1] in m && vs[|vs| - 1] in m;
        assert m[vs[i - 1]] == vs[i];
      }
    }
  }

  lemma AppendDistinct(vs: seq<VKey>, x: VKey)
    requires Distinct(vs) && x !in vs
    ensures Distinct(vs + [x])
  {
    var w := vs + [x];
    forall i, j | 0 <= i < j < |w| ensures w[i] != w[j] {
      if j < |vs| {
        assert w[i] == vs[i] && w[j] == vs[j];
      } else {
        assert w[i] == vs[i];
      }
    }
  }

  lemma AppendPath(vs: seq<VKey>, x: VKey, m: Successors)
    requires |vs| >= 1 && Path(vs, m) && x in m && m[vs[|vs| - 1]] == x
    ensures Path(vs + [x], m)
  {
    var w := vs + [x];
    forall i | 0 <= i < |w| ensures w[i] in m {
      if i < |vs| { assert w[i] == vs[i]; }
    }
    forall i | 0 <= i < |w| - 1 ensures m[w[i]] == w[i + 1] {
      assert w[i] == vs[i];
      if i < |vs| - 1 { assert w[i + 1] == vs[i + 1]; }
    }
  }

  /** A list of distinct keys of `m` is no longer than `m`. */
  lemma DistinctBound(vs: seq<VKey>, m: Successors)
    requires Distinct(vs) && forall i :: 0 <= i < |vs| ==> vs[i] in m
    ensures |vs| <= |m|
  {
    DistinctCard(vs);
    assert (set x | x in vs) <= m.Keys by {
      forall x | x in vs ensures x in m {
        var i :| 0 <= i < |vs| && vs[i] == x;
      }
    }
    CardinalityOfSubset((set x | x in vs), m.Keys);
  }

  /** A walk that has come back to its start has gone once round the face. */
  lemma WalkClosed(m: Successors, vs: seq<VKey>)
    requires SingleCycle(m) && |vs| >= 1 && Distinct(vs) && Path(vs, m)
    requires m[vs[|vs| - 1]] == vs[0]
    ensures ListsCycle(vs, m)
  {
    assert Steps(vs, m) by {
      forall i | 0 <= i < |vs| ensures m[vs[i]] == vs[After(|vs|, i)] {
        assert vs[i] in m;
      }
    }
    var S := set x | x in vs;
    assert Closed(m, S) by {
      forall x | x in S ensures x in m && m[x] in S {
        StepsMember(vs, m, x);
      }
    }
    assert S == m.Keys by {
      assert vs[0] in S;
    }
    DistinctCard(vs);
  }

  lemma StepsMember(vs: seq<VKey>, m: Successors, x: VKey)
    requires Steps(vs, m) && x in vs
    ensures x in m && m[x] in vs
  {
    var i :| 0 <= i < |vs| && vs[i] == x;
    StepsAt(vs, m, i);
  }

  lemma {:induction false} DistinctCard(vs: seq<VKey>)
    requires Distinct(vs)
    ensures |set x | x in vs| == |vs|
  {
    if vs != [] {
      var last := vs[|vs| - 1];
      var init := vs[..|vs| - 1];
      assert Distinct(init);
      DistinctCard(init);
      assert (set x | x in vs) == (set x | x in init) + {last};
      assert last !in init;
    }
  }
}
