/** `split_edge`: inserts a vertex on the edge (u, v) and rewires the two
    half-edges and the two faces on either side of it. */
module Split {
  import opened Wrappers
  import opened Attributes
  import opened HalfEdgeMesh

  /** What a call of `split_edge` does: raises, returns `None` without
      touching the mesh, or returns the key of the inserted vertex. */
  datatype Outcome = Raised(error: Error) | Skipped | Split(w: VKey)

  /** The store after splitting (u, v) with a new vertex carrying the
      attributes `a`; the new vertex gets the next vertex key. */
  function SplitTo(s: Store, u: VKey, v: VKey, a: Attrs): (t: Store)
    requires Adjacent(s, u, v)
    ensures t.vertex == s.vertex[s.nextVertex := a] && t.nextVertex == s.nextVertex + 1
    ensures t.face.Keys == s.face.Keys && t.nextFace == s.nextFace
  {
    var w := s.nextVertex;
    var fuv, fvu := s.halfedge[u][v], s.halfedge[v][u];
    var h := s.halfedge
      [u := (s.halfedge[u] - {v})[w := fuv]]
      [v := (s.halfedge[v] - {u})[w := fvu]]
      [w := map[v := fuv, u := fvu]];
    var f1 :=
      if fuv.Some? && fuv.value in s.face then s.face[fuv.value := s.face[fuv.value][u := w][w := v]] else s.face;
    var f2 :=
      if fvu.Some? && fvu.value in f1 then f1[fvu.value := f1[fvu.value][v := w][w := u]] else f1;
    Store(s.vertex[w := a], h, f2, w + 1, s.nextFace)
  }

  /** Both half-edge lookups of the split succeed. */
  predicate Adjacent(s: Store, u: VKey, v: VKey) {
    u in s.halfedge && v in s.halfedge[u] && v in s.halfedge && u in s.halfedge[v]
  }

  // ---------------------------------------------------------------------------
  // Facts about a split edge in a well-formed store
  // ---------------------------------------------------------------------------

  /** The two sides of an edge: no self-loop, a fresh key for the new vertex,
      and two different faces where both sides border one. */
  lemma EdgeFacts(s: Store, u: VKey, v: VKey)
    requires WellFormed(s) && u in s.halfedge && v in s.halfedge[u]
    ensures EdgeFactsHold(s, u, v)
  {
    assert HalfedgeOk(s, u, v);
    assert HalfedgeOk(s, v, u);
    FreshKeyUnused(s);
    if s.halfedge[u][v].Some? && s.halfedge[v][u].Some? {
      SidesDiffer(s, u, v);
    }
  }

  /** The next vertex key is no vertex, no neighbour and in no face. */
  lemma FreshKeyUnused(s: Store)
    requires WellFormed(s)
    ensures s.nextVertex !in s.halfedge
    ensures forall x :: x in s.halfedge ==> s.nextVertex !in s.halfedge[x]
    ensures forall f :: f in s.face ==> s.nextVertex !in s.face[f]
  {
    forall x, y | x in s.halfedge && y in s.halfedge[x] ensures y != s.nextVertex {
      assert HalfedgeOk(s, x, y);
    }
    forall f, y | f in s.face && y in s.face[f] ensures y != s.nextVertex {
      assert FaceEdgeOk(s, f, y);
    }
  }

  /** An interior edge borders two different faces. */
  lemma SidesDiffer(s: Store, u: VKey, v: VKey)
    requires WellFormed(s) && u in s.halfedge && v in s.halfedge[u]
    requires s.halfedge[u][v].Some? && v in s.halfedge && u in s.halfedge[v] && s.halfedge[v][u].Some?
    ensures s.halfedge[u][v] != s.halfedge[v][u]
  {
    assert HalfedgeOk(s, u, v);
    assert HalfedgeOk(s, v, u);
    var f, g := s.halfedge[u][v].value, s.halfedge[v][u].value;
    assert FaceCycle(s.face[f]);
    assert NoShortCycle(s.face[f], u);
    assert s.face[f][v] != u && s.face[g][v] == u;
  }

  /** The faces after the split: the face on each side of the edge gets `w`
      inserted after the side's first vertex, and no other face changes. */
  lemma SplitFaces(s: Store, u: VKey, v: VKey, a: Attrs, f: FKey)
    requires Adjacent(s, u, v) && EdgeFactsHold(s, u, v)
    ensures f in SplitTo(s, u, v, a).face <==> f in s.face
    ensures f in s.face ==>
              SplitTo(s, u, v, a).face[f] ==
                if Some(f) == s.halfedge[u][v] then InsertAfter(s.face[f], u, s.nextVertex)
                else if Some(f) == s.halfedge[v][u] then InsertAfter(s.face[f], v, s.nextVertex)
                else s.face[f]
  {
  }

  /** The half-edge rows after the split. */
  lemma SplitRows(s: Store, u: VKey, v: VKey, a: Attrs, x: VKey)
    requires Adjacent(s, u, v) && EdgeFactsHold(s, u, v)
    ensures x in SplitTo(s, u, v, a).halfedge <==> x in s.halfedge || x == s.nextVertex
    ensures x in SplitTo(s, u, v, a).halfedge ==>
              SplitTo(s, u, v, a).halfedge[x] ==
                if x == s.nextVertex then map[v := s.halfedge[u][v], u := s.halfedge[v][u]]
                else if x == u then (s.halfedge[u] - {v})[s.nextVertex := s.halfedge[u][v]]
                else if x == v then (s.halfedge[v] - {u})[s.nextVertex := s.halfedge[v][u]]
                else s.halfedge[x]
  {
  }

  /** The facts `EdgeFacts` establishes, as one predicate. */
  ghost predicate EdgeFactsHold(s: Store, u: VKey, v: VKey)
    requires u in s.halfedge && v in s.halfedge[u]
  {
    var w := s.nextVertex;
    && u != v && v in s.halfedge && u in s.halfedge[v]
    && w !in s.halfedge && w != u && w != v
    && (forall f :: f in s.face ==> w !in s.face[f])
    && (forall x :: x in s.halfedge ==> w !in s.halfedge[x])
    && (s.halfedge[u][v].Some? ==>
          var f := s.halfedge[u][v].value; f in s.face && u in s.face[f] && s.face[f][u] == v)
    && (s.halfedge[v][u].Some? ==>
          var g := s.halfedge[v][u].value; g in s.face && v in s.face[g] && s.face[g][v] == u)
    && (s.halfedge[u][v].Some? && s.halfedge[v][u].Some? ==> s.halfedge[u][v] != s.halfedge[v][u])
  }

  /** The attributes of the inserted vertex: the merged attributes of the
      end points, placed at `lerp(position of u, position of v, t)`. */
  function NewVertex(s: Store, u: VKey, v: VKey, t: real, lerp: (Point, Point, real) -> Point): (a: Attrs)
    requires u in s.vertex && v in s.vertex && Placed(s.vertex[u]) && Placed(s.vertex[v])
    ensures Placed(a)
  {
    var ua, va := s.vertex[u], s.vertex[v];
    SplitVertexAttributes(ua, va, lerp(Coordinates(ua), Coordinates(va), t))
  }

  // ---------------------------------------------------------------------------
  // The operation
  // ---------------------------------------------------------------------------

  /** What `split_edge` returns on a store: `ValueError` for a parameter
      outside (0, 1), `KeyError` when a lookup of (u, v) or (v, u) fails,
      `None` for a boundary edge unless boundary edges are allowed, and
      otherwise the next vertex key. */
  function SplitOutcome(s: Store, u: VKey, v: VKey, t: real, allowBoundary: bool): (r: Outcome)
    ensures r == Raised(ValueError) <==> !(0.0 < t < 1.0)
    ensures r == Raised(KeyError) <==> 0.0 < t < 1.0 && !Adjacent(s, u, v)
    ensures r == Skipped <==>
              && 0.0 < t < 1.0 && Adjacent(s, u, v) && !allowBoundary
              && (s.halfedge[u][v].None? || s.halfedge[v][u].None?)
    ensures r.Split? ==> r.w == s.nextVertex && Adjacent(s, u, v)
  {
    if !(0.0 < t < 1.0) then Raised(ValueError)
    else if !Adjacent(s, u, v) then Raised(KeyError)
    else if !allowBoundary && (s.halfedge[u][v].None? || s.halfedge[v][u].None?) then Skipped
    else Split(s.nextVertex)
  }

  /** `split_edge(mesh, u, v, t, allow_boundary)`. The position of the new
      vertex is `lerp(position of u, position of v, t)`. */
  method SplitEdge(mesh: Mesh, u: VKey, v: VKey, t: real, allowBoundary: bool,
                   lerp: (Point, Point, real) -> Point) returns (r: Outcome)
    requires mesh.Valid()
    modifies mesh
    ensures mesh.Valid()
    ensures r == SplitOutcome(old(mesh.State()), u, v, t, allowBoundary)
    ensures !r.Split? ==> mesh.State() == old(mesh.State())
    ensures r.Split? ==>
              Adjacent(old(mesh.State()), u, v) &&
              mesh.State() == SplitTo(old(mesh.State()), u, v, NewVertex(old(mesh.State()), u, v, t, lerp))
  {
    if t <= 0.0 {
      return Raised(ValueError);
    }
    if t >= 1.0 {
      return Raised(ValueError);
    }
    if u !in mesh.halfedge || v !in mesh.halfedge[u] {
      return Raised(KeyError);
    }
    var fuv := mesh.halfedge[u][v];
    if v !in mesh.halfedge || u !in mesh.halfedge[v] {
      return Raised(KeyError);
    }
    var fvu := mesh.halfedge[v][u];
    if !allowBoundary && (fuv.None? || fvu.None?) {
      return Skipped;
    }
    var w := InsertOnEdge(mesh, u, v, t, lerp);
    r := Split(w);
  }

  /** The part of `split_edge` after the checks: the new vertex and the rewiring. */
  method InsertOnEdge(mesh: Mesh, u: VKey, v: VKey, t: real, lerp: (Point, Point, real) -> Point)
    returns (w: VKey)
    requires mesh.Valid() && Adjacent(mesh.State(), u, v)
    modifies mesh
    ensures mesh.Valid() && w == old(mesh.nextVertex)
    ensures mesh.State() == SplitTo(old(mesh.State()), u, v, NewVertex(old(mesh.State()), u, v, t, lerp))
  {
    ghost var s := mesh.State();
    EdgeFacts(s, u, v);
    var fuv, fvu := mesh.halfedge[u][v], mesh.halfedge[v][u];
    var ua, va := mesh.vertex[u], mesh.vertex[v];
    var p := lerp(Coordinates(ua), Coordinates(va), t);
    var wa := SplitAttributes(ua, va, p);
    w := mesh.AddVertex(wa);
    RewireSplit(mesh, s, u, v, wa);
  }

  /** The rewiring of `split_edge` once the new vertex is in the mesh. */
  method RewireSplit(mesh: Mesh, ghost s: Store, u: VKey, v: VKey, a: Attrs)
    requires WellFormed(s) && Adjacent(s, u, v) && EdgeFactsHold(s, u, v) && Placed(a)
    requires mesh.State() == AddVertexTo(s, a)
    modifies mesh
    ensures mesh.State() == SplitTo(s, u, v, a) && mesh.Valid()
  {
    var w := mesh.nextVertex - 1;
    var fuv, fvu := mesh.halfedge[u][v], mesh.halfedge[v][u];
    Rewire(mesh, u, v, w, fuv, fvu);
    SplitAfterAddVertex(s, u, v, a);
    SplitKeepsWellFormed(s, u, v, a);
  }

  /** `SplitTo` is `add_vertex` followed by the rewiring. */
  lemma SplitAfterAddVertex(s: Store, u: VKey, v: VKey, a: Attrs)
    requires Adjacent(s, u, v) && EdgeFactsHold(s, u, v)
    ensures
      var s1, w := AddVertexTo(s, a), s.nextVertex;
      var fuv, fvu := s.halfedge[u][v], s.halfedge[v][u];
      var f1 :=
        if fuv.Some? then s1.face[fuv.value := s1.face[fuv.value][u := w][w := v]] else s1.face;
      SplitTo(s, u, v, a) == Store(
        s1.vertex,
        s1.halfedge
          [u := (s1.halfedge[u] - {v})[w := fuv]]
          [v := (s1.halfedge[v] - {u})[w := fvu]]
          [w := map[v := fuv, u := fvu]],
        if fvu.Some? && fvu.value in f1 then f1[fvu.value := f1[fvu.value][v := w][w := u]] else f1,
        s1.nextVertex,
        s1.nextFace)
  {
    var s1, w := AddVertexTo(s, a), s.nextVertex;
    var t := SplitTo(s, u, v, a);
    var h := s1.halfedge[u := (s1.halfedge[u] - {v})[w := s.halfedge[u][v]]]
                        [v := (s1.halfedge[v] - {u})[w := s.halfedge[v][u]]]
                        [w := map[v := s.halfedge[u][v], u := s.halfedge[v][u]]];
    assert t.halfedge == h;
  }

  /** The half-edge and face assignments of `split_edge`, in their order:
      (u, v) becomes (u, w) and (w, v) on the face `fuv`, and (v, u) becomes
      (v, w) and (w, u) on the face `fvu`. */
  method Rewire(mesh: Mesh, u: VKey, v: VKey, w: VKey, fuv: Option<FKey>, fvu: Option<FKey>)
    requires u in mesh.halfedge && v in mesh.halfedge && w in mesh.halfedge && mesh.halfedge[w] == map[]
    requires u != v && w != u && w != v
    requires fuv.Some? ==> fuv.value in mesh.face
    requires fvu.Some? ==> fvu.value in mesh.face
    modifies mesh
    ensures mesh.vertex == old(mesh.vertex)
    ensures mesh.nextVertex == old(mesh.nextVertex) && mesh.nextFace == old(mesh.nextFace)
    ensures mesh.halfedge == old(mesh.halfedge)
      [u := (old(mesh.halfedge[u]) - {v})[w := fuv]]
      [v := (old(mesh.halfedge[v]) - {u})[w := fvu]]
      [w := map[v := fuv, u := fvu]]
    ensures var f1 :=
              if fuv.Some? then old(mesh.face)[fuv.value := old(mesh.face)[fuv.value][u := w][w := v]]
              else old(mesh.face);
            mesh.face ==
              if fvu.Some? && fvu.value in f1 then f1[fvu.value := f1[fvu.value][v := w][w := u]] else f1
  {
    var h, f := mesh.halfedge, mesh.face;
    // the u -> v side
    h := h[u := h[u][w := fuv]];
    h := h[w := h[w][v := fuv]];
    h := h[u := h[u] - {v}];
    if fuv.Some? {
      f := f[fuv.value := f[fuv.value][u := w]];
      f := f[fuv.value := f[fuv.value][w := v]];
    }
    // the v -> u side
    h := h[v := h[v][w := fvu]];
    h := h[w := h[w][u := fvu]];
    h := h[v := h[v] - {u}];
    if fvu.Some? {
      f := f[fvu.value := f[fvu.value][v := w]];
      f := f[fvu.value := f[fvu.value][w := u]];
    }
    RewireRows(mesh.halfedge, u, v, w, fuv, fvu);
    RewireFaces(mesh.face, u, v, w, fuv, fvu);
    mesh.halfedge, mesh.face := h, f;
  }

  /** The six half-edge assignments of the split, in their order. */
  lemma RewireRows(h: map<VKey, map<VKey, Option<FKey>>>, u: VKey, v: VKey, w: VKey,
                   fuv: Option<FKey>, fvu: Option<FKey>)
    requires u in h && v in h && w in h && h[w] == map[] && u != v && w != u && w != v
    ensures
      var h1 := h[u := h[u][w := fuv]];
      var h2 := h1[w := h1[w][v := fuv]];
      var h3 := h2[u := h2[u] - {v}];
      var h4 := h3[v := h3[v][w := fvu]];
      var h5 := h4[w := h4[w][u := fvu]];
      var h6 := h5[v := h5[v] - {u}];
      h6 == h[u := (h[u] - {v})[w := fuv]][v := (h[v] - {u})[w := fvu]][w := map[v := fuv, u := fvu]]
  {
    assert h[u][w := fuv] - {v} == (h[u] - {v})[w := fuv];
    assert h[v][w := fvu] - {u} == (h[v] - {u})[w := fvu];
    assert map[][v := fuv][u := fvu] == map[v := fuv, u := fvu];
  }

  /** The four face assignments of the split, in their order. */
  lemma RewireFaces(f: map<FKey, Successors>, u: VKey, v: VKey, w: VKey, fuv: Option<FKey>, fvu: Option<FKey>)
    requires fuv.Some? ==> fuv.value in f
    requires fvu.Some? ==> fvu.value in f
    ensures
      var f1 := if fuv.Some? then f[fuv.value := f[fuv.value][u := w]] else f;
      var f2 := if fuv.Some? then f1[fuv.value := f1[fuv.value][w := v]] else f1;
      var f3 := if fvu.Some? then f2[fvu.value := f2[fvu.value][v := w]] else f2;
      var f4 := if fvu.Some? then f3[fvu.value := f3[fvu.value][w := u]] else f3;
      var g1 := if fuv.Some? then f[fuv.value := f[fuv.value][u := w][w := v]] else f;
      var g2 := if fvu.Some? && fvu.value in g1 then g1[fvu.value := g1[fvu.value][v := w][w := u]] else g1;
      f4 == g2
  {
  }

  // ---------------------------------------------------------------------------
  // The split keeps the store well-formed
  // ---------------------------------------------------------------------------

  /** Splitting an edge of a well-formed store, with a placed new vertex,
      leaves a well-formed store. */
  lemma SplitKeepsWellFormed(s: Store, u: VKey, v: VKey, a: Attrs)
    requires WellFormed(s) && Adjacent(s, u, v) && Placed(a)
    ensures WellFormed(SplitTo(s, u, v, a))
  {
    var t := SplitTo(s, u, v, a);
    EdgeFacts(s, u, v);
    SplitVertices(s, u, v, a);
    SplitFacesOk(s, u, v, a);
    forall x, y | x in t.halfedge && y in t.halfedge[x] ensures HalfedgeOk(t, x, y) {
      SplitHalfedge(s, u, v, a, x, y);
    }
    forall f, x | f in t.face && x in t.face[f] ensures FaceEdgeOk(t, f, x) {
      SplitFaceEdge(s, u, v, a, f, x);
    }
  }

  lemma SplitVertices(s: Store, u: VKey, v: VKey, a: Attrs)
    requires VerticesOk(s) && Adjacent(s, u, v) && Placed(a)
    ensures VerticesOk(SplitTo(s, u, v, a))
  {
  }

  lemma SplitFacesOk(s: Store, u: VKey, v: VKey, a: Attrs)
    requires FacesOk(s) && Adjacent(s, u, v) && EdgeFactsHold(s, u, v)
    ensures FacesOk(SplitTo(s, u, v, a))
  {
    var t := SplitTo(s, u, v, a);
    forall f | f in t.face ensures f < t.nextFace && FaceCycle(t.face[f]) {
      SplitFaces(s, u, v, a, f);
      assert FaceCycle(s.face[f]);
      if Some(f) == s.halfedge[u][v] {
        InsertFaceCycle(s.face[f], u, s.nextVertex);
      } else if Some(f) == s.halfedge[v][u] {
        InsertFaceCycle(s.face[f], v, s.nextVertex);
      }
    }
  }

  lemma SplitHalfedge(s: Store, u: VKey, v: VKey, a: Attrs, x: VKey, y: VKey)
    requires HalfedgesOk(s) && Adjacent(s, u, v) && EdgeFactsHold(s, u, v)
    requires x in SplitTo(s, u, v, a).halfedge && y in SplitTo(s, u, v, a).halfedge[x]
    ensures HalfedgeOk(SplitTo(s, u, v, a), x, y)
  {
    var t := SplitTo(s, u, v, a);
    var w := s.nextVertex;
    SplitRows(s, u, v, a, x);
    SplitRows(s, u, v, a, y);
    if x == w || y == w {
      SplitNewHalfedge(s, u, v, a, x, y);
    } else {
      SplitOldHalfedge(s, u, v, a, x, y);
    }
  }

  /** The four new half-edges, between `w` and the two end points. */
  lemma SplitNewHalfedge(s: Store, u: VKey, v: VKey, a: Attrs, x: VKey, y: VKey)
    requires Adjacent(s, u, v) && EdgeFactsHold(s, u, v)
    requires x in SplitTo(s, u, v, a).halfedge && y in SplitTo(s, u, v, a).halfedge[x]
    requires x == s.nextVertex || y == s.nextVertex
    ensures HalfedgeOk(SplitTo(s, u, v, a), x, y)
  {
    var t := SplitTo(s, u, v, a);
    var w := s.nextVertex;
    var fuv, fvu := s.halfedge[u][v], s.halfedge[v][u];
    SplitRows(s, u, v, a, x);
    SplitRows(s, u, v, a, y);
    SplitRows(s, u, v, a, w);
    if x == w {
      assert y == u || y == v;
    } else {
      assert x == u || x == v;
    }
    if fuv.Some? {
      SplitFaces(s, u, v, a, fuv.value);
    }
    if fvu.Some? {
      SplitFaces(s, u, v, a, fvu.value);
    }
  }

  /** A half-edge that was there before keeps its twin and its face step. */
  lemma SplitOldHalfedge(s: Store, u: VKey, v: VKey, a: Attrs, x: VKey, y: VKey)
    requires HalfedgesOk(s) && Adjacent(s, u, v) && EdgeFactsHold(s, u, v)
    requires x in SplitTo(s, u, v, a).halfedge && y in SplitTo(s, u, v, a).halfedge[x]
    requires x != s.nextVertex && y != s.nextVertex
    ensures HalfedgeOk(SplitTo(s, u, v, a), x, y)
  {
    var t := SplitTo(s, u, v, a);
    SplitRows(s, u, v, a, x);
    SplitRows(s, u, v, a, y);
    assert y in s.halfedge[x] && t.halfedge[x][y] == s.halfedge[x][y];
    assert HalfedgeOk(s, x, y);
    if s.halfedge[x][y].Some? {
      var g := s.halfedge[x][y].value;
      SplitFaces(s, u, v, a, g);
    }
  }

  lemma SplitFaceEdge(s: Store, u: VKey, v: VKey, a: Attrs, f: FKey, x: VKey)
    requires FaceEdgesOk(s) && FacesOk(s) && Adjacent(s, u, v) && EdgeFactsHold(s, u, v)
    requires f in SplitTo(s, u, v, a).face && x in SplitTo(s, u, v, a).face[f]
    ensures FaceEdgeOk(SplitTo(s, u, v, a), f, x)
  {
    SplitFaces(s, u, v, a, f);
    assert FaceCycle(s.face[f]);
    if Some(f) == s.halfedge[u][v] {
      assert NoShortCycle(s.face[f], u);
      SplitSideFaceEdge(s, u, v, a, f, x);
    } else if Some(f) == s.halfedge[v][u] {
      assert NoShortCycle(s.face[f], v);
      assert EdgeFactsHold(s, v, u);
      SplitSideFaceEdge(s, v, u, a, f, x);
      SplitSwap(s, u, v, a);
    } else {
      SplitOtherFaceEdge(s, u, v, a, f, x);
    }
  }

  /** Splitting (u, v) and splitting (v, u) give the same store. */
  lemma SplitSwap(s: Store, u: VKey, v: VKey, a: Attrs)
    requires Adjacent(s, u, v) && EdgeFactsHold(s, u, v)
    ensures Adjacent(s, v, u) && SplitTo(s, u, v, a) == SplitTo(s, v, u, a)
  {
    assert EdgeFactsHold(s, v, u);
    SplitSwapRows(s, u, v, a);
    SplitSwapFaces(s, u, v, a);
  }

  lemma SplitSwapRows(s: Store, u: VKey, v: VKey, a: Attrs)
    requires Adjacent(s, u, v) && EdgeFactsHold(s, u, v) && Adjacent(s, v, u) && EdgeFactsHold(s, v, u)
    ensures SplitTo(s, u, v, a).halfedge == SplitTo(s, v, u, a).halfedge
  {
    var t, t' := SplitTo(s, u, v, a), SplitTo(s, v, u, a);
    forall x | x in t.halfedge ensures x in t'.halfedge && t.halfedge[x] == t'.halfedge[x] {
      SplitRows(s, u, v, a, x);
      SplitRows(s, v, u, a, x);
    }
    forall x | x in t'.halfedge ensures x in t.halfedge {
      SplitRows(s, u, v, a, x);
      SplitRows(s, v, u, a, x);
    }
  }

  lemma SplitSwapFaces(s: Store, u: VKey, v: VKey, a: Attrs)
    requires Adjacent(s, u, v) && EdgeFactsHold(s, u, v) && Adjacent(s, v, u) && EdgeFactsHold(s, v, u)
    ensures SplitTo(s, u, v, a).face == SplitTo(s, v, u, a).face
  {
    var t, t' := SplitTo(s, u, v, a), SplitTo(s, v, u, a);
    forall f | f in t.face ensures f in t'.face && t.face[f] == t'.face[f] {
      SplitFaces(s, u, v, a, f);
      SplitFaces(s, v, u, a, f);
    }
    forall f | f in t'.face ensures f in t.face {
      SplitFaces(s, u, v, a, f);
      SplitFaces(s, v, u, a, f);
    }
  }

  /** A step of the face on the u -> v side of the edge. */
  lemma SplitSideFaceEdge(s: Store, u: VKey, v: VKey, a: Attrs, f: FKey, x: VKey)
    requires FaceEdgesOk(s) && Adjacent(s, u, v) && EdgeFactsHold(s, u, v)
    requires s.halfedge[u][v] == Some(f) && ClosedMap(s.face[f]) && NoShortCycle(s.face[f], u)
    requires x in SplitTo(s, u, v, a).face[f]
    ensures FaceEdgeOk(SplitTo(s, u, v, a), f, x)
  {
    var w := s.nextVertex;
    var m := s.face[f];
    SplitFaces(s, u, v, a, f);
    SplitRows(s, u, v, a, x);
    if x == w {
      SplitRows(s, u, v, a, w);
    } else if x != u {
      assert x in m && m[x] in m;
      assert FaceEdgeOk(s, f, x);
    }
  }

  /** A step of a face that does not border the split edge. */
  lemma SplitOtherFaceEdge(s: Store, u: VKey, v: VKey, a: Attrs, f: FKey, x: VKey)
    requires FaceEdgesOk(s) && Adjacent(s, u, v) && EdgeFactsHold(s, u, v)
    requires f in s.face && Some(f) != s.halfedge[u][v] && Some(f) != s.halfedge[v][u]
    requires x in SplitTo(s, u, v, a).face[f]
    ensures FaceEdgeOk(SplitTo(s, u, v, a), f, x)
  {
    var t := SplitTo(s, u, v, a);
    SplitFaces(s, u, v, a, f);
    SplitRows(s, u, v, a, x);
    assert FaceEdgeOk(s, f, x);
  }

  // ---------------------------------------------------------------------------
  // Inserting a vertex into a face cycle
  // ---------------------------------------------------------------------------

  /** The successor map with `w` inserted after `u`. */
  function InsertAfter(m: Successors, u: VKey, w: VKey): Successors
    requires u in m
  {
    m[u := w][w := m[u]]
  }

  /** The successor of `x` once `w` is inserted after `u`. */
  function InsertedNext(m: Successors, u: VKey, w: VKey, x: VKey): VKey
    requires u in m && (x in m || x == w)
  {
    if x == w then m[u] else if x == u then w else m[x]
  }

  lemma InsertedNextIs(m: Successors, u: VKey, w: VKey, x: VKey)
    requires u in m && w !in m && x in InsertAfter(m, u, w)
    ensures InsertAfter(m, u, w)[x] == InsertedNext(m, u, w, x)
  {
  }

  lemma InsertClosedNoShort(m: Successors, u: VKey, w: VKey)
    requires ClosedMap(m) && NoShortCycles(m) && u in m && w !in m
    ensures ClosedMap(InsertAfter(m, u, w)) && NoShortCycles(InsertAfter(m, u, w))
  {
    var r := InsertAfter(m, u, w);
    forall x | x in r ensures r[x] in r && NoShortCycle(r, x) {
      InsertedNoShort(m, u, w, x);
    }
  }

  lemma InsertedNoShort(m: Successors, u: VKey, w: VKey, x: VKey)
    requires ClosedMap(m) && NoShortCycles(m) && u in m && w !in m && x in InsertAfter(m, u, w)
    ensures InsertAfter(m, u, w)[x] in InsertAfter(m, u, w) && NoShortCycle(InsertAfter(m, u, w), x)
  {
    var r := InsertAfter(m, u, w);
    assert NoShortCycle(m, u);
    InsertedNextIs(m, u, w, x);
    var y := InsertedNext(m, u, w, x);
    if x != u && x != w {
      assert NoShortCycle(m, x);
      assert m[x] in m;
    }
    assert y in r;
    InsertedNextIs(m, u, w, y);
  }

  lemma InsertInjective(m: Successors, u: VKey, w: VKey)
    requires ClosedMap(m) && Injective(m) && u in m && w !in m
    ensures Injective(InsertAfter(m, u, w))
  {
    var r := InsertAfter(m, u, w);
    forall x, y | x in r && y in r && x != y ensures r[x] != r[y] {
      InsertedNextIs(m, u, w, x);
      InsertedNextIs(m, u, w, y);
      InsertedNextInjective(m, u, w, x, y);
    }
  }

  lemma InsertedNextInjective(m: Successors, u: VKey, w: VKey, x: VKey, y: VKey)
    requires ClosedMap(m) && Injective(m) && u in m && w !in m
    requires (x in m || x == w) && (y in m || y == w) && x != y
    ensures InsertedNext(m, u, w, x) != InsertedNext(m, u, w, y)
  {
    if x != u && x != w { assert m[x] in m; }
    if y != u && y != w { assert m[y] in m; }
  }

  /** The new cycle is one cycle: less `w`, a closed part of it is a closed
      part of the old one. */
  lemma InsertSingleCycle(m: Successors, u: VKey, w: VKey)
    requires ClosedMap(m) && SingleCycle(m) && NoShortCycle(m, u) && w !in m
    ensures SingleCycle(InsertAfter(m, u, w))
  {
    var r := InsertAfter(m, u, w);
    forall S | S != {} && Closed(r, S) ensures S == r.Keys {
      InsertClosedPart(m, u, w, S);
    }
  }

  lemma InsertClosedPart(m: Successors, u: VKey, w: VKey, S: set<VKey>)
    requires ClosedMap(m) && SingleCycle(m) && NoShortCycle(m, u) && w !in m
    requires S != {} && Closed(InsertAfter(m, u, w), S)
    ensures S == InsertAfter(m, u, w).Keys
  {
    var r := InsertAfter(m, u, w);
    var T := S - {w};
    assert T != {} by {
      var x := Pick(S);
      if x == w {
        assert r[w] == m[u] && m[u] in m;
        assert m[u] in T;
      } else {
        assert x in T;
      }
    }
    assert Closed(m, T) by {
      forall x | x in T ensures m[x] in T {
        InsertedStepIn(m, u, w, S, x);
      }
    }
    assert T == m.Keys;
    assert w in S by {
      assert u in T && r[u] == w;
    }
    assert S == T + {w};
  }

  /** What a closed part of the new cycle holds from an old vertex `x`. */
  lemma InsertedStepIn(m: Successors, u: VKey, w: VKey, S: set<VKey>, x: VKey)
    requires ClosedMap(m) && NoShortCycle(m, u) && w !in m
    requires Closed(InsertAfter(m, u, w), S) && x in S && x != w
    ensures x in m && m[x] in S && m[x] != w
  {
    var r := InsertAfter(m, u, w);
    assert x in r;
    assert m[x] in m;
    if x == u {
      assert r[u] == w && r[w] == m[u];
    } else {
      assert r[x] == m[x];
    }
  }

  lemma InsertFaceCycle(m: Successors, u: VKey, w: VKey)
    requires FaceCycle(m) && u in m && w !in m
    ensures FaceCycle(InsertAfter(m, u, w))
    ensures |InsertAfter(m, u, w)| == |m| + 1
  {
    assert NoShortCycle(m, u);
    InsertClosedNoShort(m, u, w);
    InsertInjective(m, u, w);
    InsertSingleCycle(m, u, w);
    InsertGrows(m, u, w);
    assert u in InsertAfter(m, u, w);
  }

  lemma InsertGrows(m: Successors, u: VKey, w: VKey)
    requires u in m && w !in m
    ensures |InsertAfter(m, u, w)| == |m| + 1
  {
    assert InsertAfter(m, u, w).Keys == m.Keys + {w};
  }

  /** `vs` with `w` inserted after position `i`. */
  function InsertAt(vs: seq<VKey>, i: nat, w: VKey): seq<VKey>
    requires i < |vs|
  {
    vs[..i + 1] + [w] + vs[i + 1..]
  }

  lemma InsertAtIndex(vs: seq<VKey>, i: nat, w: VKey, j: nat)
    requires i < |vs| && j <= |vs|
    ensures |InsertAt(vs, i, w)| == |vs| + 1
    ensures InsertAt(vs, i, w)[j] == if j <= i then vs[j] else if j == i + 1 then w else vs[j - 1]
  {
  }

  /** Listing a cycle with `w` inserted after position `i`. */
  lemma InsertListed(vs: seq<VKey>, m: Successors, i: nat, w: VKey)
    requires ListsCycle(vs, m) && i < |vs| && w !in m
    ensures ListsCycle(InsertAt(vs, i, w), InsertAfter(m, vs[i], w))
  {
    var n, ws := |vs|, InsertAt(vs, i, w);
    InsertAtIndex(vs, i, w, 0);
    assert w !in vs by {
      forall j | 0 <= j < n ensures vs[j] != w {
        assert vs[j] in m;
      }
    }
    assert Distinct(ws) by {
      forall j, l | 0 <= j < l <= n ensures ws[j] != ws[l] {
        InsertAtIndex(vs, i, w, j);
        InsertAtIndex(vs, i, w, l);
      }
    }
    InsertGrows(m, vs[i], w);
    forall j | 0 <= j <= n ensures ws[j] in InsertAfter(m, vs[i], w) {
      InsertAtIndex(vs, i, w, j);
      if j != i + 1 {
        var x := if j <= i then vs[j] else vs[j - 1];
        assert x in m;
      }
    }
    forall j | 0 <= j <= n ensures InsertAfter(m, vs[i], w)[ws[j]] == ws[After(n + 1, j)] {
      InsertListedStep(vs, m, i, w, j);
    }
  }

  lemma InsertListedStep(vs: seq<VKey>, m: Successors, i: nat, w: VKey, j: nat)
    requires ListsCycle(vs, m) && i < |vs| && w !in m && j <= |vs|
    ensures InsertAt(vs, i, w)[j] in InsertAfter(m, vs[i], w)
    ensures InsertAfter(m, vs[i], w)[InsertAt(vs, i, w)[j]] == InsertAt(vs, i, w)[After(|vs| + 1, j)]
  {
    var n, u := |vs|, vs[i];
    var k := After(n + 1, j);
    InsertAtIndex(vs, i, w, j);
    InsertAtIndex(vs, i, w, k);
    assert u in m;
    InsertAfterKeeps(m, u, w);
    if j != i && j != i + 1 {
      var l := if j < i then j else j - 1;
      assert vs[l] != u;
      StepKept(vs, m, i, w, j, l);
    } else if j == i + 1 {
      var x := vs[i];
      assert m[x] == vs[After(n, i)];
    }
  }

  /** A position of the longer list away from the inserted vertex. */
  lemma StepKept(vs: seq<VKey>, m: Successors, i: nat, w: VKey, j: nat, l: nat)
    requires Steps(vs, m) && i < |vs| && w !in m && j <= |vs| && j != i && j != i + 1
    requires l == (if j < i then j else j - 1) && vs[l] != vs[i]
    ensures InsertAfter(m, vs[i], w)[vs[l]] == InsertAt(vs, i, w)[After(|vs| + 1, j)]
  {
    var n, u, x := |vs|, vs[i], vs[l];
    var k := After(n + 1, j);
    StepsAt(vs, m, i);
    StepsAt(vs, m, l);
    InsertAfterKeeps(m, u, w);
    assert InsertAfter(m, u, w)[x] == vs[After(n, l)];
    KeptTarget(vs, i, w, j, l);
  }

  /** Past the inserted vertex the longer list is the old one shifted by one. */
  lemma KeptTarget(vs: seq<VKey>, i: nat, w: VKey, j: nat, l: nat)
    requires i < |vs| && j <= |vs| && j != i && j != i + 1
    requires l == (if j < i then j else j - 1)
    ensures InsertAt(vs, i, w)[After(|vs| + 1, j)] == vs[After(|vs|, l)]
  {
    var n := |vs|;
    var k := After(n + 1, j);
    InsertAtIndex(vs, i, w, k);
    if j < i {
      assert k == l + 1 && After(n, l) == l + 1;
    } else if j < n {
      assert k == j + 1 && After(n, l) == j;
    } else {
      assert k == 0 && After(n, l) == 0;
    }
  }

  // ---------------------------------------------------------------------------
  // What a split changes
  // ---------------------------------------------------------------------------

  /** The four new half-edges carry the faces of the split edge, the edge
      itself is gone, `w` is adjacent to exactly `u` and `v`, and every
      other half-edge keeps its face. */
  lemma SplitRewiring(s: Store, u: VKey, v: VKey, a: Attrs)
    requires WellFormed(s) && Adjacent(s, u, v)
    ensures var t, w := SplitTo(s, u, v, a), s.nextVertex;
            && w !in s.vertex && t.vertex == s.vertex[w := a]
            && w in t.halfedge && u in t.halfedge[w] && v in t.halfedge[w]
            && w in t.halfedge[u] && w in t.halfedge[v]
            && t.halfedge[u][w] == t.halfedge[w][v] == s.halfedge[u][v]
            && t.halfedge[v][w] == t.halfedge[w][u] == s.halfedge[v][u]
            && v !in t.halfedge[u] && u !in t.halfedge[v]
            && (forall y :: y in t.halfedge[w] <==> y == u || y == v)
  {
    EdgeFacts(s, u, v);
  }

  /** No other half-edge is touched: every half-edge apart from (u, v) and
      (v, u) keeps its face, and every new half-edge has `w` at one end. */
  lemma SplitKeepsOtherHalfedges(s: Store, u: VKey, v: VKey, a: Attrs)
    requires WellFormed(s) && Adjacent(s, u, v)
    ensures var t := SplitTo(s, u, v, a);
            forall x, y :: x in s.halfedge && y in s.halfedge[x] && !(x == u && y == v) && !(x == v && y == u) ==>
              x in t.halfedge && y in t.halfedge[x] && t.halfedge[x][y] == s.halfedge[x][y]
    ensures var t, w := SplitTo(s, u, v, a), s.nextVertex;
            forall x, y :: x in t.halfedge && y in t.halfedge[x] ==>
              (x in s.halfedge && y in s.halfedge[x]) || x == w || y == w
  {
    EdgeFacts(s, u, v);
    OldHalfedgesKept(s, u, v, a);
    NewHalfedgesTouchW(s, u, v, a);
  }

  lemma OldHalfedgesKept(s: Store, u: VKey, v: VKey, a: Attrs)
    requires Adjacent(s, u, v) && EdgeFactsHold(s, u, v)
    ensures var t := SplitTo(s, u, v, a);
            forall x, y :: x in s.halfedge && y in s.halfedge[x] && !(x == u && y == v) && !(x == v && y == u) ==>
              x in t.halfedge && y in t.halfedge[x] && t.halfedge[x][y] == s.halfedge[x][y]
  {
    var t := SplitTo(s, u, v, a);
    forall x, y | x in s.halfedge && y in s.halfedge[x] && !(x == u && y == v) && !(x == v && y == u)
      ensures x in t.halfedge && y in t.halfedge[x] && t.halfedge[x][y] == s.halfedge[x][y]
    {
      SplitRows(s, u, v, a, x);
      assert y != s.nextVertex;
    }
  }

  lemma NewHalfedgesTouchW(s: Store, u: VKey, v: VKey, a: Attrs)
    requires Adjacent(s, u, v) && EdgeFactsHold(s, u, v)
    ensures var t, w := SplitTo(s, u, v, a), s.nextVertex;
            forall x, y :: x in t.halfedge && y in t.halfedge[x] ==>
              (x in s.halfedge && y in s.halfedge[x]) || x == w || y == w
  {
    var t := SplitTo(s, u, v, a);
    forall x, y | x in t.halfedge && y in t.halfedge[x]
      ensures (x in s.halfedge && y in s.halfedge[x]) || x == s.nextVertex || y == s.nextVertex
    {
      SplitRows(s, u, v, a, x);
    }
  }

  /** The inserted vertex has two neighbours; `u` and `v` keep their number. */
  lemma SplitDegrees(s: Store, u: VKey, v: VKey, a: Attrs)
    requires WellFormed(s) && Adjacent(s, u, v)
    ensures var t, w := SplitTo(s, u, v, a), s.nextVertex;
            Degree(t, w) == 2 && Degree(t, u) == Degree(s, u) && Degree(t, v) == Degree(s, v)
  {
    EdgeFacts(s, u, v);
    var w := s.nextVertex;
    SplitRows(s, u, v, a, u);
    SplitRows(s, u, v, a, v);
    SplitRows(s, u, v, a, w);
    RowReplaced(s.halfedge[u], v, w, s.halfedge[u][v]);
    RowReplaced(s.halfedge[v], u, w, s.halfedge[v][u]);
    PairRow(v, u, s.halfedge[u][v], s.halfedge[v][u]);
  }

  /** A row with one neighbour exchanged for a new one has the same size. */
  lemma RowReplaced(row: map<VKey, Option<FKey>>, v: VKey, w: VKey, x: Option<FKey>)
    requires v in row && w !in row
    ensures |(row - {v})[w := x]| == |row|
  {
    assert (row - {v})[w := x].Keys == row.Keys - {v} + {w};
  }

  lemma PairRow(v: VKey, u: VKey, x: Option<FKey>, y: Option<FKey>)
    requires u != v
    ensures |map[v := x, u := y]| == 2
  {
    assert map[v := x, u := y].Keys == {v, u};
  }

  /** The faces away from the edge are unchanged, and no face is added or
      removed. */
  lemma SplitOtherFaces(s: Store, u: VKey, v: VKey, a: Attrs)
    requires WellFormed(s) && Adjacent(s, u, v)
    ensures var t := SplitTo(s, u, v, a);
            && (forall g :: g in t.face <==> g in s.face)
            && (forall g :: g in s.face && Some(g) != s.halfedge[u][v] && Some(g) != s.halfedge[v][u] ==>
                  t.face[g] == s.face[g])
  {
    EdgeFacts(s, u, v);
    forall g | g in s.face || g in SplitTo(s, u, v, a).face {
      SplitFaces(s, u, v, a, g);
    }
  }

  /** The face on the u -> v side of the edge after the split: `w` sits
      between `u` and `v`, the cycle has one vertex more and is still one
      cycle, and no other successor changes. The v -> u side is the same
      statement with `u` and `v` exchanged (see `SplitSwap`). */
  lemma SplitNearFace(s: Store, u: VKey, v: VKey, a: Attrs)
    requires WellFormed(s) && Adjacent(s, u, v)
    ensures var t, w, fuv := SplitTo(s, u, v, a), s.nextVertex, s.halfedge[u][v];
            fuv.Some? ==>
              var f := fuv.value;
              && f in t.face && u in t.face[f] && w in t.face[f]
              && t.face[f][u] == w && t.face[f][w] == v
              && |t.face[f]| == |s.face[f]| + 1 && FaceCycle(t.face[f])
              && (forall x :: x in s.face[f] && x != u ==> x in t.face[f] && t.face[f][x] == s.face[f][x])
  {
    EdgeFacts(s, u, v);
    var fuv := s.halfedge[u][v];
    if fuv.Some? {
      var f := fuv.value;
      var m := s.face[f];
      SplitFaces(s, u, v, a, f);
      assert FaceCycle(m);
      InsertFaceCycle(m, u, s.nextVertex);
      InsertAfterKeeps(m, u, s.nextVertex);
    }
  }

  lemma InsertAfterKeeps(m: Successors, u: VKey, w: VKey)
    requires u in m && w !in m
    ensures var r := InsertAfter(m, u, w);
            u in r && w in r && r[u] == w && r[w] == m[u] &&
            forall x :: x in m && x != u ==> x in r && r[x] == m[x]
  {
  }

  /** `face_vertices` of a side face after the split: the old listing with
      `w` right after `u` (or after `v` on the other side). */
  lemma SplitFaceListing(s: Store, u: VKey, v: VKey, a: Attrs, f: FKey, vs: seq<VKey>, i: nat)
    requires WellFormed(s) && Adjacent(s, u, v) && f in s.face
    requires ListsCycle(vs, s.face[f]) && i < |vs|
    requires (Some(f) == s.halfedge[u][v] && vs[i] == u) || (Some(f) == s.halfedge[v][u] && vs[i] == v)
    ensures f in SplitTo(s, u, v, a).face && ListsCycle(InsertAt(vs, i, s.nextVertex), SplitTo(s, u, v, a).face[f])
  {
    EdgeFacts(s, u, v);
    SplitFaces(s, u, v, a, f);
    InsertListed(vs, s.face[f], i, s.nextVertex);
  }
}
