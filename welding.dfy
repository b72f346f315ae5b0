/** `unweld(mesh, fkey, where)`: detaches a face from its neighbours at the
    chosen vertices. Each chosen vertex of the face is replaced by a fresh
    copy at the same position, the face is rebuilt on the copies, the old
    half-edges around the chosen vertices become boundary, and the old face
    is deleted. */
module Welding {
  import opened Wrappers
  import opened Attributes
  import opened HalfEdgeMesh

  /** How a call of `unweld` ends: normally, or with an exception. */
  datatype Status = Done | Raised(error: Error)

  // ---------------------------------------------------------------------------
  // The rebuilt vertex list
  // ---------------------------------------------------------------------------

  /** The number of entries of `vs` that are in `W`. */
  function Count(vs: seq<VKey>, W: seq<VKey>): (c: nat)
    ensures c <= |vs|
  {
    if |vs| == 0 then 0
    else Count(vs[..|vs| - 1], W) + (if vs[|vs| - 1] in W then 1 else 0)
  }

  /** The vertex list of the rebuilt face when the copies get the keys
      `n`, `n + 1`, ... in the order of `vs`: every vertex in `W` is
      replaced by the next fresh key, every other vertex is kept. */
  function Replaced(vs: seq<VKey>, W: seq<VKey>, n: VKey): (r: seq<VKey>)
    ensures |r| == |vs|
  {
    if |vs| == 0 then []
    else
      var i := |vs| - 1;
      Replaced(vs[..i], W, n) + [if vs[i] in W then n + Count(vs[..i], W) else vs[i]]
  }

  /** When `W` is empty (`where` is `None` or empty) every vertex of the face is unwelded. */
  function Effective(where: seq<VKey>, vs: seq<VKey>): (W: seq<VKey>)
    ensures |where| == 0 ==> W == vs
    ensures |where| > 0 ==> W == where
  {
    if |where| == 0 then vs else where
  }

  lemma {:induction false} ReplacedAt(vs: seq<VKey>, W: seq<VKey>, n: VKey, i: nat)
    requires i < |vs|
    ensures Replaced(vs, W, n)[i] == if vs[i] in W then n + Count(vs[..i], W) else vs[i]
  {
    var l := |vs| - 1;
    if i < l {
      ReplacedAt(vs[..l], W, n, i);
      assert vs[..l][..i] == vs[..i];
    } else {
      assert vs[..i] == vs[..l];
    }
  }

  /** Counting over a longer prefix counts at least as many, and strictly
      more once it passes an entry of `W`. */
  lemma {:induction false} CountGrows(vs: seq<VKey>, W: seq<VKey>, i: nat, j: nat)
    requires i < j <= |vs|
    ensures Count(vs[..i], W) + (if vs[i] in W then 1 else 0) <= Count(vs[..j], W)
    decreases j
  {
    assert vs[..j][..j - 1] == vs[..j - 1];
    if i < j - 1 {
      CountGrows(vs, W, i, j - 1);
    }
  }

  /** The copies get the keys `n` to `n + Count(vs, W) - 1`. */
  lemma ReplacedFresh(vs: seq<VKey>, W: seq<VKey>, n: VKey, i: nat)
    requires i < |vs| && vs[i] in W
    ensures n <= Replaced(vs, W, n)[i] < n + Count(vs, W)
  {
    ReplacedAt(vs, W, n, i);
    CountGrows(vs, W, i, |vs|);
    assert vs[..|vs|] == vs;
  }

  /** The rebuilt list has no repeats when the old one had none and used
      only keys below `n`. */
  lemma ReplacedDistinct(vs: seq<VKey>, W: seq<VKey>, n: VKey)
    requires Distinct(vs) && forall i :: 0 <= i < |vs| ==> vs[i] < n
    ensures Distinct(Replaced(vs, W, n))
  {
    var r := Replaced(vs, W, n);
    forall i, j | 0 <= i < j < |vs| ensures r[i] != r[j] {
      ReplacedAt(vs, W, n, i);
      ReplacedAt(vs, W, n, j);
      if vs[i] in W && vs[j] in W {
        CountGrows(vs, W, i, j);
      }
    }
  }

  /** No entry of the rebuilt list is in `W`, when all of `W` is below `n`. */
  lemma ReplacedAvoids(vs: seq<VKey>, W: seq<VKey>, n: VKey, i: nat)
    requires i < |vs| && forall w :: w in W ==> w < n
    ensures Replaced(vs, W, n)[i] !in W
  {
    ReplacedAt(vs, W, n, i);
  }

  /** `Count` is the number of face vertices that are in `W`. */
  lemma {:induction false} CountMembers(vs: seq<VKey>, W: seq<VKey>)
    requires Distinct(vs)
    ensures Count(vs, W) == |set x | x in vs && x in W|
  {
    if |vs| > 0 {
      var l := |vs| - 1;
      var us := vs[..l];
      assert Distinct(us);
      CountMembers(us, W);
      var A := set x | x in us && x in W;
      var B := set x | x in vs && x in W;
      assert vs == us + [vs[l]];
      assert vs[l] !in us;
      if vs[l] in W {
        assert B == A + {vs[l]};
      } else {
        assert B == A;
      }
    }
  }

  // ---------------------------------------------------------------------------
  // The copies of the unwelded vertices
  // ---------------------------------------------------------------------------

  /** `add_vertex(x=x, y=y, z=z)` with the position of `a`: only the three
      coordinates are copied. */
  function CoordsOnly(a: Attrs): (r: Attrs)
    requires Placed(a)
    ensures Placed(r) && Coordinates(r) == Coordinates(a)
    ensures forall n :: n in r <==> n == "x" || n == "y" || n == "z"
  {
    WithPosition(map[], Coordinates(a))
  }

  /** Every vertex of `vs` is a placed vertex of `s`. */
  predicate Listed(s: Store, vs: seq<VKey>) {
    forall i :: 0 <= i < |vs| ==> vs[i] in s.vertex && Placed(s.vertex[vs[i]])
  }

  /** The store after the first loop: one copy added per vertex of `vs` in `W`. */
  function Copied(s: Store, vs: seq<VKey>, W: seq<VKey>): (c: Store)
    requires Listed(s, vs)
    ensures c.nextVertex == s.nextVertex + Count(vs, W) && c.face == s.face && c.nextFace == s.nextFace
  {
    if |vs| == 0 then s
    else
      var i := |vs| - 1;
      var t := Copied(s, vs[..i], W);
      if vs[i] in W then AddVertexTo(t, CoordsOnly(s.vertex[vs[i]])) else t
  }

  /** `c` is `s` with `k` vertices added after the old ones, each with an
      empty row of half-edges, and nothing else changed. */
  ghost predicate Extended(s: Store, c: Store, k: nat) {
    var n := s.nextVertex;
    && c.nextVertex == n + k && c.face == s.face && c.nextFace == s.nextFace
    && (forall x :: x in c.vertex <==> x in s.vertex || n <= x < n + k)
    && (forall x :: x in c.halfedge <==> x in s.halfedge || n <= x < n + k)
    && (forall x :: x in s.vertex ==> c.vertex[x] == s.vertex[x])
    && (forall x :: x in s.halfedge ==> c.halfedge[x] == s.halfedge[x])
    && (forall x :: n <= x < n + k ==> c.halfedge[x] == map[])
  }

  /** What the first loop adds: `Count(vs, W)` vertices with the keys after
      the old ones, each with an empty row of half-edges. */
  lemma {:induction false} CopiedFacts(s: Store, vs: seq<VKey>, W: seq<VKey>)
    requires VerticesOk(s) && Listed(s, vs)
    ensures Extended(s, Copied(s, vs, W), Count(vs, W))
  {
    if |vs| > 0 {
      var l := |vs| - 1;
      assert Listed(s, vs[..l]);
      CopiedFacts(s, vs[..l], W);
      if vs[l] in W {
        ExtendedStep(s, Copied(s, vs[..l], W), Count(vs[..l], W), CoordsOnly(s.vertex[vs[l]]));
      }
    }
  }

  /** Adding one more vertex to an extension extends it by one. */
  lemma ExtendedStep(s: Store, c: Store, k: nat, a: Attrs)
    requires VerticesOk(s) && Extended(s, c, k)
    ensures Extended(s, AddVertexTo(c, a), k + 1)
  {
    var n, d := s.nextVertex, AddVertexTo(c, a);
    assert n + k !in s.vertex && n + k !in s.halfedge;
    forall x | x in s.vertex ensures d.vertex[x] == s.vertex[x] {
      assert x != n + k;
    }
    forall x | x in s.halfedge ensures d.halfedge[x] == s.halfedge[x] {
      assert x != n + k;
    }
    forall x | n <= x < n + k + 1 ensures d.halfedge[x] == map[] {
      if x < n + k {
        assert d.halfedge[x] == c.halfedge[x];
      }
    }
  }

  /** The copy of `vs[i]` has the key `n + Count(vs[..i], W)` and the
      coordinates of `vs[i]`, and nothing else. */
  lemma {:induction false} CopiedVertex(s: Store, vs: seq<VKey>, W: seq<VKey>, i: nat)
    requires VerticesOk(s) && Listed(s, vs) && i < |vs| && vs[i] in W
    ensures var k := s.nextVertex + Count(vs[..i], W);
            k in Copied(s, vs, W).vertex && Copied(s, vs, W).vertex[k] == CoordsOnly(s.vertex[vs[i]])
  {
    var l := |vs| - 1;
    assert Listed(s, vs[..l]);
    CopiedFacts(s, vs[..l], W);
    if i < l {
      CopiedVertex(s, vs[..l], W, i);
      assert vs[..l][..i] == vs[..i];
      CountGrows(vs, W, i, l);
    } else {
      assert vs[..i] == vs[..l];
    }
  }

  lemma {:induction false} CopiedWellFormed(s: Store, vs: seq<VKey>, W: seq<VKey>)
    requires WellFormed(s) && Listed(s, vs)
    ensures WellFormed(Copied(s, vs, W))
  {
    if |vs| > 0 {
      var l := |vs| - 1;
      assert Listed(s, vs[..l]);
      CopiedWellFormed(s, vs[..l], W);
      if vs[l] in W {
        AddVertexKeepsWellFormed(Copied(s, vs[..l], W), CoordsOnly(s.vertex[vs[l]]));
      }
    }
  }

  // ---------------------------------------------------------------------------
  // The cut half-edges
  // ---------------------------------------------------------------------------

  type Rows = map<VKey, map<VKey, Option<FKey>>>

  /** (x, y) is a step of the old face `m` next to a vertex of `W`: the
      half-edge `halfedge[pred(key)][key]` or `halfedge[key][succ(key)]` of
      some `key` in `W`. */
  predicate CutPair(m: Successors, W: seq<VKey>, x: VKey, y: VKey) {
    x in m && m[x] == y && (x in W || y in W)
  }

  /** The half-edges with every cut pair set to `None`. */
  function CutTo(h: Rows, m: Successors, W: seq<VKey>): (r: Rows)
    ensures forall x :: x in r <==> x in h
  {
    map x | x in h :: CutRow(h[x], m, W, x)
  }

  function CutRow(row: map<VKey, Option<FKey>>, m: Successors, W: seq<VKey>, x: VKey): (r: map<VKey, Option<FKey>>)
    ensures forall y :: y in r <==> y in row
  {
    map y | y in row :: if CutPair(m, W, x, y) then None else row[y]
  }

  lemma CutNothing(h: Rows, m: Successors)
    ensures CutTo(h, m, []) == h
  {
    forall x | x in h ensures CutRow(h[x], m, [], x) == h[x] {
      assert forall y :: y in h[x] ==> !CutPair(m, [], x, y);
    }
  }

  /** One round of the cut loop: `halfedge[a][key] = None` then
      `halfedge[key][d] = None`, with `a` before and `d` after `key` in the
      old face. */
  lemma CutStep(h: Rows, m: Successors, W: seq<VKey>, key: VKey, a: VKey)
    requires Injective(m) && key in m && a in m && m[a] == key && a != key
    requires a in h && key in h[a] && key in h && m[key] in h[key]
    ensures var c := CutTo(h, m, W);
            var c1 := c[a := c[a][key := None]];
            CutTo(h, m, W + [key]) == c1[key := c1[key][m[key] := None]]
  {
    var V := W + [key];
    var c := CutTo(h, m, W);
    var c1 := c[a := c[a][key := None]];
    var c2 := c1[key := c1[key][m[key] := None]];
    forall x | x in h ensures CutRow(h[x], m, V, x) == c2[x] {
      forall y | y in h[x] ensures CutRow(h[x], m, V, x)[y] == c2[x][y] {
        assert CutPair(m, V, x, y) <==> CutPair(m, W, x, y) || (x in m && m[x] == y && (x == key || y == key));
        assert x in m && m[x] == m[a] ==> x == a;
      }
    }
  }

  // ---------------------------------------------------------------------------
  // The operation
  // ---------------------------------------------------------------------------

  /** The store after the first loop and `add_face(face)`. */
  function Rebuilt(s: Store, vs: seq<VKey>, W: seq<VKey>): Store
    requires Listed(s, vs)
  {
    var c := Copied(s, vs, W);
    AddFaceTo(c, Replaced(vs, W, s.nextVertex), c.nextFace)
  }

  /** The store `t` with the pairs of `m` next to `V` cut. */
  function CutStore(t: Store, m: Successors, V: seq<VKey>): Store {
    Store(t.vertex, CutTo(t.halfedge, m, V), t.face, t.nextVertex, t.nextFace)
  }

  /** The store when the cut loop stops after `W[..j]`. */
  function Interrupted(s: Store, f: FKey, vs: seq<VKey>, W: seq<VKey>, j: nat): Store
    requires Listed(s, vs) && f in s.face && j <= |W|
  {
    CutStore(Rebuilt(s, vs, W), s.face[f], W[..j])
  }

  /** The store after `unweld` returns: all of `W` cut and the old face deleted. */
  function UnweldTo(s: Store, f: FKey, vs: seq<VKey>, W: seq<VKey>): (t: Store)
    requires Listed(s, vs) && f in s.face
    ensures f !in t.face && t.face.Keys == (s.face.Keys + {s.nextFace}) - {f}
    ensures t.nextVertex == s.nextVertex + Count(vs, W)
  {
    var c := CutStore(Rebuilt(s, vs, W), s.face[f], W);
    c.(face := c.face - {f})
  }

  lemma UnweldToDeletes(s: Store, f: FKey, vs: seq<VKey>, W: seq<VKey>, t: Store, u: Store)
    requires Listed(s, vs) && f in s.face && t == Rebuilt(s, vs, W) && u == CutStore(t, s.face[f], W)
    ensures UnweldTo(s, f, vs, W) == u.(face := u.face - {f})
  {
  }

  /** How `unweld` ends once `face_vertices` has listed the face as `vs`:
      normally when every entry of `W` is a vertex of the face, else with
      `KeyError` at the first one that is not. */
  function UnweldOutcome(s: Store, f: FKey, vs: seq<VKey>, W: seq<VKey>): (r: (Status, Store))
    requires Listed(s, vs) && f in s.face
    ensures r.0 == Done <==> forall i :: 0 <= i < |W| ==> W[i] in s.face[f]
    ensures r.0 != Done ==> r.0 == Raised(KeyError)
  {
    var j := FirstMissing(W, s.face[f]);
    if j == |W| then (Done, UnweldTo(s, f, vs, W)) else (Raised(KeyError), Interrupted(s, f, vs, W, j))
  }

  /** The position of the first entry of `W` that is not a vertex of the face. */
  function FirstMissing(W: seq<VKey>, m: Successors): (j: nat)
    ensures j <= |W|
    ensures j < |W| ==> W[j] !in m
    ensures forall l :: 0 <= l < j ==> W[l] in m
  {
    if |W| == 0 then 0
    else if W[0] !in m then 0
    else 1 + FirstMissing(W[1..], m)
  }

  // ---------------------------------------------------------------------------
  // Facts the method needs
  // ---------------------------------------------------------------------------

  /** A list that goes once round a face holds every vertex of the face. */
  lemma ListsCycleCovers(vs: seq<VKey>, m: Successors)
    requires ListsCycle(vs, m)
    ensures Covers(vs, m)
  {
    var S := set x | x in vs;
    forall x | x in S ensures x in m {
      var i :| 0 <= i < |vs| && vs[i] == x;
      StepsAt(vs, m, i);
    }
    DistinctCard(vs);
    SameSize(S, m.Keys);
  }

  lemma SameSize<X>(A: set<X>, B: set<X>)
    requires A <= B && |A| == |B|
    ensures A == B
  {
    assert B == A + (B - A);
    assert |B - A| == 0;
  }

  /** Every vertex of a face has a predecessor in it. */
  lemma Predecessor(vs: seq<VKey>, m: Successors, x: VKey) returns (a: VKey)
    requires ListsCycle(vs, m) && x in m
    ensures a in m && m[a] == x
  {
    ListsCycleCovers(vs, m);
    var i :| 0 <= i < |vs| && vs[i] == x;
    var l := if i == 0 then |vs| - 1 else i - 1;
    StepsAt(vs, m, l);
    a := vs[l];
  }

  /** The vertices of a face of a well-formed store are placed vertices
      with keys below the counter. */
  lemma FaceListed(s: Store, f: FKey, vs: seq<VKey>)
    requires WellFormed(s) && f in s.face && ListsCycle(vs, s.face[f])
    ensures Listed(s, vs) && forall i :: 0 <= i < |vs| ==> vs[i] < s.nextVertex
  {
    forall i | 0 <= i < |vs| ensures vs[i] in s.vertex && Placed(s.vertex[vs[i]]) && vs[i] < s.nextVertex {
      StepsAt(vs, s.face[f], i);
      assert FaceEdgeOk(s, f, vs[i]);
    }
  }

  /** `add_face` accepts the rebuilt list. */
  lemma RebuiltAdmissible(s: Store, vs: seq<VKey>, W: seq<VKey>)
    requires VerticesOk(s) && Listed(s, vs) && Distinct(vs) && |vs| >= 3
    requires forall i :: 0 <= i < |vs| ==> vs[i] < s.nextVertex
    ensures Admissible(Copied(s, vs, W), Replaced(vs, W, s.nextVertex))
  {
    var c, nf := Copied(s, vs, W), Replaced(vs, W, s.nextVertex);
    CopiedFacts(s, vs, W);
    ReplacedDistinct(vs, W, s.nextVertex);
    forall i | 0 <= i < |nf| ensures nf[i] in c.vertex && nf[i] in c.halfedge {
      ReplacedAt(vs, W, s.nextVertex, i);
      if vs[i] in W {
        ReplacedFresh(vs, W, s.nextVertex, i);
      }
    }
  }

  /** The old face is still there after the rebuild, and each of its
      steps is still a half-edge. */
  lemma RebuiltFace(s: Store, f: FKey, vs: seq<VKey>, W: seq<VKey>)
    requires WellFormed(s) && Listed(s, vs) && f in s.face
    ensures var t := Rebuilt(s, vs, W);
            && f in t.face && t.face[f] == s.face[f] && FaceCycle(s.face[f])
            && forall x :: x in s.face[f] ==> x in t.halfedge && s.face[f][x] in t.halfedge[x]
  {
    RebuiltKeepsFace(s, f, vs, W);
    forall x | x in s.face[f] ensures x in Rebuilt(s, vs, W).halfedge && s.face[f][x] in Rebuilt(s, vs, W).halfedge[x] {
      RebuiltKeepsStep(s, f, vs, W, x);
    }
  }

  /** The rebuild adds a face under a fresh key and keeps the old one. */
  lemma RebuiltKeepsFace(s: Store, f: FKey, vs: seq<VKey>, W: seq<VKey>)
    requires FacesOk(s) && VerticesOk(s) && Listed(s, vs) && f in s.face
    ensures f in Rebuilt(s, vs, W).face && Rebuilt(s, vs, W).face[f] == s.face[f] && FaceCycle(s.face[f])
  {
    CopiedFacts(s, vs, W);
    assert f < s.nextFace;
  }

  /** Every step of the old face is still a half-edge after the rebuild. */
  lemma RebuiltKeepsStep(s: Store, f: FKey, vs: seq<VKey>, W: seq<VKey>, x: VKey)
    requires WellFormed(s) && Listed(s, vs) && f in s.face && x in s.face[f]
    ensures var t := Rebuilt(s, vs, W);
            x in t.halfedge && s.face[f][x] in t.halfedge[x]
  {
    var c := Copied(s, vs, W);
    CopiedFacts(s, vs, W);
    assert FaceEdgeOk(s, f, x);
    RowAt(c, Replaced(vs, W, s.nextVertex), c.nextFace, x);
  }

  // ---------------------------------------------------------------------------
  // The operation
  // ---------------------------------------------------------------------------

  /** The first loop of `unweld`: a copy of every vertex of `vs` that is in
      `W`, holding only its coordinates, and the vertex list of the new face. */
  method CopyVertices(mesh: Mesh, vs: seq<VKey>, W: seq<VKey>) returns (face: seq<VKey>)
    requires mesh.Valid() && Listed(mesh.State(), vs)
    modifies mesh
    ensures mesh.Valid()
    ensures mesh.State() == Copied(old(mesh.State()), vs, W)
    ensures face == Replaced(vs, W, old(mesh.nextVertex))
  {
    ghost var s := mesh.State();
    assert VerticesOk(s);
    face := [];
    var i := 0;
    while i < |vs|
      invariant 0 <= i <= |vs|
      invariant Listed(s, vs[..i])
      invariant mesh.Valid() && mesh.State() == Copied(s, vs[..i], W)
      invariant face == Replaced(vs[..i], W, s.nextVertex)
    {
      CopyStep(s, vs, W, i);
      var key := CopyNext(mesh, s, vs, W, i);
      face := face + [key];
      i := i + 1;
    }
    assert vs[..|vs|] == vs;
  }

  /** The body of the first loop for `vs[i]`: a vertex in `W` is copied and
      the copy's key is used, any other vertex is kept. */
  method CopyNext(mesh: Mesh, ghost s: Store, vs: seq<VKey>, W: seq<VKey>, i: nat) returns (key: VKey)
    requires VerticesOk(s) && Listed(s, vs) && i < |vs|
    requires mesh.Valid() && mesh.State() == Copied(s, vs[..i], W)
    modifies mesh
    ensures mesh.Valid() && mesh.State() == Copied(s, vs[..i + 1], W)
    ensures key == if vs[i] in W then old(mesh.nextVertex) else vs[i]
  {
    CopyStep(s, vs, W, i);
    key := vs[i];
    if key in W {
      CopiedFacts(s, vs[..i], W);
      var p := Coordinates(mesh.vertex[key]);
      key := mesh.AddVertex(WithPosition(map[], p));
    }
  }

  /** One more vertex of the face through the first loop. */
  lemma CopyStep(s: Store, vs: seq<VKey>, W: seq<VKey>, i: nat)
    requires Listed(s, vs) && i < |vs|
    ensures Listed(s, vs[..i]) && Listed(s, vs[..i + 1])
    ensures var c := Copied(s, vs[..i], W);
            Copied(s, vs[..i + 1], W) == if vs[i] in W then AddVertexTo(c, CoordsOnly(s.vertex[vs[i]])) else c
    ensures var c := Copied(s, vs[..i], W);
            Replaced(vs[..i + 1], W, s.nextVertex) ==
              Replaced(vs[..i], W, s.nextVertex) + [if vs[i] in W then c.nextVertex else vs[i]]
  {
    assert vs[..i + 1][..i] == vs[..i];
  }

  /** The second loop of `unweld`: for each `key` of `W` in turn, the
      half-edges from its predecessor and to its successor in the old face
      `m` become `None`; a `key` that is not a vertex of the face raises
      `KeyError` and ends the loop. */
  method CutAround(mesh: Mesh, f: FKey, ghost vs: seq<VKey>, W: seq<VKey>) returns (r: Status)
    requires f in mesh.face && Injective(mesh.face[f]) && NoShortCycles(mesh.face[f])
    requires ListsCycle(vs, mesh.face[f])
    requires forall x :: x in mesh.face[f] ==> x in mesh.halfedge && mesh.face[f][x] in mesh.halfedge[x]
    modifies mesh
    ensures var m := old(mesh.face[f]);
            var j := FirstMissing(W, m);
            && (j == |W| ==> r == Done && mesh.State() == CutStore(old(mesh.State()), m, W))
            && (j < |W| ==> r == Raised(KeyError) && mesh.State() == CutStore(old(mesh.State()), m, W[..j]))
  {
    ghost var t := mesh.State();
    var fface := mesh.face[f];
    ghost var m := fface;
    var rface := Inverse(fface);
    CutNothing(t.halfedge, m);
    assert W[..0] == [];
    var j := 0;
    while j < |W|
      invariant 0 <= j <= |W|
      invariant forall l :: 0 <= l < j ==> W[l] in m
      invariant mesh.State() == CutStore(t, m, W[..j])
    {
      var key := W[j];
      if key !in fface {
        return Raised(KeyError);
      }
      var d := fface[key];
      ghost var a0 := Predecessor(vs, m, key);
      var a := rface[key];
      assert NoShortCycle(m, a);
      CutStep(t.halfedge, m, W[..j], key, a);
      PrefixStep(W, j);
      mesh.halfedge := mesh.halfedge[a := mesh.halfedge[a][key := None]];
      mesh.halfedge := mesh.halfedge[key := mesh.halfedge[key][d := None]];
      j := j + 1;
    }
    PrefixAll(W);
    r := Done;
  }

  /** `W[..j + 1]` extends `W[..j]` by one entry. */
  lemma PrefixStep(W: seq<VKey>, j: nat)
    requires j < |W|
    ensures W[..j + 1] == W[..j] + [W[j]]
  {
  }

  lemma PrefixAll(W: seq<VKey>)
    ensures W[..|W|] == W
  {
  }

  /** `dict((v, u) for u, v in m.items())`: the predecessor map of a face. */
  method Inverse(m: Successors) returns (r: Successors)
    requires Injective(m)
    ensures forall x :: x in m ==> m[x] in r && r[m[x]] == x
    ensures forall y :: y in r ==> r[y] in m && m[r[y]] == y
  {
    r := map u | u in m :: m[u] := u;
  }

  /** The first loop of `unweld` and `add_face(face)`: the copies and the
      new face, with the old face and its half-edges still in place. */
  method Rebuild(mesh: Mesh, f: FKey, vs: seq<VKey>, W: seq<VKey>)
    requires mesh.Valid() && f in mesh.face && ListsCycle(vs, mesh.face[f])
    modifies mesh
    ensures Listed(old(mesh.State()), vs) && mesh.State() == Rebuilt(old(mesh.State()), vs, W)
    ensures f in mesh.face && mesh.face[f] == old(mesh.face[f])
    ensures Injective(mesh.face[f]) && NoShortCycles(mesh.face[f])
    ensures forall x :: x in mesh.face[f] ==> x in mesh.halfedge && mesh.face[f][x] in mesh.halfedge[x]
  {
    ghost var s := mesh.State();
    FaceListed(s, f, vs);
    var face := CopyVertices(mesh, vs, W);
    ghost var c := mesh.State();
    FaceCycleHasThree(s.face[f]);
    RebuiltAdmissible(s, vs, W);
    assert Admissible(c, face);
    var added := mesh.AddFace(face, None);
    assert added.Ok? && added.value == c.nextFace;
    RebuiltFace(s, f, vs, W);
  }

  /** `unweld(mesh, fkey, where)`. An empty `where` stands for `None` and
      for an empty list alike; `vs` is the list `face_vertices` returns. The
      cut loop raises `KeyError` at the first entry of `where` that is not a
      vertex of the face, after the copies and the new face are in place. */
  method Unweld(mesh: Mesh, f: FKey, where: seq<VKey>) returns (r: Status, vs: seq<VKey>)
    requires mesh.Valid()
    modifies mesh
    ensures f !in old(mesh.face) ==> r == Raised(KeyError) && mesh.State() == old(mesh.State())
    ensures f in old(mesh.face) ==>
              && ListsCycle(vs, old(mesh.face[f])) && Listed(old(mesh.State()), vs)
              && (r, mesh.State()) == UnweldOutcome(old(mesh.State()), f, vs, Effective(where, vs))
    ensures r == Done ==> mesh.Valid()
  {
    ghost var s := mesh.State();
    var listed := mesh.FaceVertices(f);
    if listed.Err? {
      return Raised(KeyError), [];
    }
    vs := listed.value;
    FaceListed(s, f, vs);
    var W := if |where| == 0 then vs else where;
    r := UnweldFace(mesh, f, vs, W);
  }

  /** `unweld` once the face is listed as `vs` and `where` is settled as `W`. */
  method UnweldFace(mesh: Mesh, f: FKey, vs: seq<VKey>, W: seq<VKey>) returns (r: Status)
    requires mesh.Valid() && f in mesh.face && ListsCycle(vs, mesh.face[f]) && Listed(mesh.State(), vs)
    modifies mesh
    ensures (r, mesh.State()) == UnweldOutcome(old(mesh.State()), f, vs, W)
    ensures r == Done ==> mesh.Valid()
  {
    ghost var s := mesh.State();
    Rebuild(mesh, f, vs, W);
    ghost var t := mesh.State();
    r := CutAround(mesh, f, vs, W);
    if r == Done {
      ghost var u := mesh.State();
      assert FirstMissing(W, s.face[f]) == |W|;
      assert u == CutStore(t, s.face[f], W);
      UnweldToDeletes(s, f, vs, W, t, u);
      DeleteFace(mesh, f);
      UnweldKeepsWellFormed(s, f, vs, W);
    }
  }

  /** `del mesh.face[fkey]`. */
  method DeleteFace(mesh: Mesh, f: FKey)
    modifies mesh
    ensures mesh.State() == old(mesh.State()).(face := old(mesh.face) - {f})
  {
    mesh.face := mesh.face - {f};
  }

  // ---------------------------------------------------------------------------
  // What `unweld` leaves behind
  // ---------------------------------------------------------------------------

  /** After `unweld` returns one vertex was added per face vertex in `W`,
      with the keys right after the old ones. */
  lemma UnweldCopies(s: Store, f: FKey, vs: seq<VKey>, W: seq<VKey>)
    requires VerticesOk(s) && f in s.face && Distinct(vs) && Listed(s, vs)
    ensures var t, n := UnweldTo(s, f, vs, W), s.nextVertex;
            && t.nextVertex == n + Count(vs, W)
            && Count(vs, W) == |set x | x in vs && x in W|
            && (forall x :: x in t.vertex <==> x in s.vertex || n <= x < n + Count(vs, W))
  {
    CopiedFacts(s, vs, W);
    CountMembers(vs, W);
  }

  /** After `unweld` returns the old face is gone and the new face, under
      the next face key, lists the old one with the vertices of `W`
      replaced by their copies. */
  lemma UnweldFaces(s: Store, f: FKey, vs: seq<VKey>, W: seq<VKey>)
    requires VerticesOk(s) && f in s.face && f < s.nextFace && Listed(s, vs)
    ensures var t := UnweldTo(s, f, vs, W);
            && f !in t.face
            && s.nextFace in t.face && t.face[s.nextFace] == CycleMap(Replaced(vs, W, s.nextVertex))
  {
    CopiedFacts(s, vs, W);
  }

  /** Each step of the old face next to a vertex of `W` is a boundary
      half-edge once `unweld` returns. */
  lemma UnweldCuts(s: Store, f: FKey, vs: seq<VKey>, W: seq<VKey>)
    requires WellFormed(s) && f in s.face && Listed(s, vs)
    ensures var t, m := UnweldTo(s, f, vs, W), s.face[f];
            forall x :: x in m && (x in W || m[x] in W) ==>
              x in t.halfedge && m[x] in t.halfedge[x] && t.halfedge[x][m[x]] == None
  {
    RebuiltFace(s, f, vs, W);
    var t, m := UnweldTo(s, f, vs, W), s.face[f];
    forall x | x in m && (x in W || m[x] in W)
      ensures x in t.halfedge && m[x] in t.halfedge[x] && t.halfedge[x][m[x]] == None
    {
      assert CutPair(m, W, x, m[x]);
    }
  }

  /** The half-edges `unweld` does not cut keep what the rebuild gave them. */
  lemma UnweldKeepsOtherHalfedges(s: Store, f: FKey, vs: seq<VKey>, W: seq<VKey>)
    requires Listed(s, vs) && f in s.face
    ensures var t, r, m := UnweldTo(s, f, vs, W), Rebuilt(s, vs, W), s.face[f];
            forall x, y :: x in r.halfedge && y in r.halfedge[x] && !CutPair(m, W, x, y) ==>
              x in t.halfedge && y in t.halfedge[x] && t.halfedge[x][y] == r.halfedge[x][y]
  {
  }

  // ---------------------------------------------------------------------------
  // A completed `unweld` leaves a well-formed mesh
  // ---------------------------------------------------------------------------

  /** The preconditions of `unweld` once the face is listed as `vs`. */
  ghost predicate Unweldable(s: Store, f: FKey, vs: seq<VKey>) {
    WellFormed(s) && f in s.face && ListsCycle(vs, s.face[f]) && Listed(s, vs)
  }

  /** An entry of the rebuilt list below the first copy's key is the old
      entry, and it is not unwelded. */
  lemma OldEntry(vs: seq<VKey>, W: seq<VKey>, n: VKey, i: nat)
    requires i < |vs| && Replaced(vs, W, n)[i] < n
    ensures vs[i] !in W && Replaced(vs, W, n)[i] == vs[i]
  {
    ReplacedAt(vs, W, n, i);
    if vs[i] in W {
      ReplacedFresh(vs, W, n, i);
    }
  }

  /** A step of the new face between two old vertices is a step of the old
      face between two kept vertices. */
  lemma NewStepOld(s: Store, f: FKey, vs: seq<VKey>, W: seq<VKey>, u: VKey)
    requires Unweldable(s, f, vs)
    requires var r := Replaced(vs, W, s.nextVertex); u in r && u in s.halfedge && Next(r, u) in s.halfedge
    ensures var m, r := s.face[f], Replaced(vs, W, s.nextVertex);
            u in m && m[u] == Next(r, u) && u !in W && m[u] !in W
  {
    var n := s.nextVertex;
    FaceListed(s, f, vs);
    assert VerticesOk(s);
    var r := Replaced(vs, W, n);
    assert u < n && Next(r, u) < n;
    StepOld(vs, s.face[f], W, n, u);
  }

  /** `NewStepOld` on the lists alone: with every old key below `n`, a step
      of the rebuilt cycle between keys below `n` is a step of the old
      cycle between two kept vertices. */
  lemma StepOld(vs: seq<VKey>, m: Successors, W: seq<VKey>, n: VKey, u: VKey)
    requires ListsCycle(vs, m) && forall i :: 0 <= i < |vs| ==> vs[i] < n
    requires var r := Replaced(vs, W, n); u in r && u < n && Next(r, u) < n
    ensures var r := Replaced(vs, W, n); u in m && m[u] == Next(r, u) && u !in W && m[u] !in W
  {
    var r := Replaced(vs, W, n);
    ReplacedDistinct(vs, W, n);
    var i := IndexOf(r, u);
    var j := After(|vs|, i);
    NextAt(r, i);
    OldEntry(vs, W, n, i);
    OldEntry(vs, W, n, j);
    StepsAt(vs, m, i);
  }

  /** A step of the old face between two kept vertices is a step of the new face. */
  lemma KeptStep(s: Store, f: FKey, vs: seq<VKey>, W: seq<VKey>, x: VKey)
    requires Unweldable(s, f, vs) && x in s.face[f] && x !in W && s.face[f][x] !in W
    ensures var r := Replaced(vs, W, s.nextVertex); x in r && Next(r, x) == s.face[f][x]
  {
    var n, m := s.nextVertex, s.face[f];
    var r := Replaced(vs, W, n);
    FaceListed(s, f, vs);
    ReplacedDistinct(vs, W, n);
    ListsCycleCovers(vs, m);
    var i :| 0 <= i < |vs| && vs[i] == x;
    var j := After(|vs|, i);
    StepsAt(vs, m, i);
    ReplacedAt(vs, W, n, i);
    ReplacedAt(vs, W, n, j);
    NextAt(r, i);
  }

  /** The facts about the rebuild that the proofs below share. */
  lemma RebuiltSetting(s: Store, f: FKey, vs: seq<VKey>, W: seq<VKey>)
    requires Unweldable(s, f, vs)
    ensures var c, r := Copied(s, vs, W), Replaced(vs, W, s.nextVertex);
            && WellFormed(c) && Extended(s, c, Count(vs, W))
            && Admissible(c, r) && c.nextFace !in c.face && c.nextFace != f
            && Rebuilt(s, vs, W) == AddFaceTo(c, r, c.nextFace)
  {
    CopiedWellFormed(s, vs, W);
    CopiedFacts(s, vs, W);
    FaceListed(s, f, vs);
    FaceCycleHasThree(s.face[f]);
    RebuiltAdmissible(s, vs, W);
  }

  /** No half-edge the cut loop leaves alone is bound to the old face. */
  lemma NotBoundToOld(s: Store, f: FKey, vs: seq<VKey>, W: seq<VKey>, u: VKey, v: VKey)
    requires Unweldable(s, f, vs)
    requires var t := Rebuilt(s, vs, W); u in t.halfedge && v in t.halfedge[u]
    requires !CutPair(s.face[f], W, u, v)
    ensures Rebuilt(s, vs, W).halfedge[u][v] != Some(f)
  {
    var c, r, m := Copied(s, vs, W), Replaced(vs, W, s.nextVertex), s.face[f];
    RebuiltSetting(s, f, vs, W);
    RebuiltKeepsFace(s, f, vs, W);
    AddFaceHalfedge(c, r, c.nextFace, u, v);
    if u in m && m[u] == v {
      KeptStep(s, f, vs, W, u);
      CycleHalfedge(c, r, c.nextFace, u);
    }
  }

  /** Every half-edge left by `unweld` has its twin and, when bound, a face
      that steps along it. */
  lemma UnweldHalfedge(s: Store, f: FKey, vs: seq<VKey>, W: seq<VKey>, u: VKey, v: VKey)
    requires Unweldable(s, f, vs)
    requires var t := UnweldTo(s, f, vs, W); u in t.halfedge && v in t.halfedge[u]
    ensures HalfedgeOk(UnweldTo(s, f, vs, W), u, v)
  {
    var c, r := Copied(s, vs, W), Replaced(vs, W, s.nextVertex);
    var t, R := UnweldTo(s, f, vs, W), Rebuilt(s, vs, W);
    UnweldRow(s, f, vs, W, u, v);
    RebuiltSetting(s, f, vs, W);
    AddFaceHalfedge(c, r, c.nextFace, u, v);
    assert HalfedgeOk(R, u, v);
    UnweldRow(s, f, vs, W, v, u);
    var cut := CutPair(s.face[f], W, u, v);
    if !cut {
      NotBoundToOld(s, f, vs, W, u, v);
    }
    UnweldToDeletes(s, f, vs, W, R, CutStore(R, s.face[f], W));
    CutHalfedgeOk(R, t, f, u, v, cut);
  }

  /** A half-edge of `R` that is either cut to `None` or kept and not bound
      to `f` stays well-formed once `f` is dropped. */
  lemma CutHalfedgeOk(R: Store, t: Store, f: FKey, u: VKey, v: VKey, cut: bool)
    requires u in R.halfedge && v in R.halfedge[u] && HalfedgeOk(R, u, v)
    requires u in t.halfedge && v in t.halfedge[u] && v in t.halfedge && u in t.halfedge[v]
    requires t.face == R.face - {f}
    requires t.halfedge[u][v] == if cut then None else R.halfedge[u][v]
    requires !cut ==> R.halfedge[u][v] != Some(f)
    ensures HalfedgeOk(t, u, v)
  {
  }

  /** The cut loop keeps every half-edge and sets exactly the cut pairs to `None`. */
  lemma UnweldRow(s: Store, f: FKey, vs: seq<VKey>, W: seq<VKey>, u: VKey, v: VKey)
    requires Listed(s, vs) && f in s.face
    requires var t, R := UnweldTo(s, f, vs, W), Rebuilt(s, vs, W);
             (u in t.halfedge && v in t.halfedge[u]) || (u in R.halfedge && v in R.halfedge[u])
    ensures var t, R := UnweldTo(s, f, vs, W), Rebuilt(s, vs, W);
            && u in t.halfedge && v in t.halfedge[u] && u in R.halfedge && v in R.halfedge[u]
            && t.halfedge[u][v] == if CutPair(s.face[f], W, u, v) then None else R.halfedge[u][v]
  {
  }

  /** Every face left by `unweld` binds each of its steps. */
  lemma UnweldFaceEdge(s: Store, f: FKey, vs: seq<VKey>, W: seq<VKey>, g: FKey, u: VKey)
    requires Unweldable(s, f, vs)
    requires var t := UnweldTo(s, f, vs, W); g in t.face && u in t.face[g]
    ensures FaceEdgeOk(UnweldTo(s, f, vs, W), g, u)
  {
    RebuiltSetting(s, f, vs, W);
    UnweldToDeletes(s, f, vs, W, Rebuilt(s, vs, W), CutStore(Rebuilt(s, vs, W), s.face[f], W));
    if g == Copied(s, vs, W).nextFace {
      NewFaceEdge(s, f, vs, W, u);
    } else {
      KeptFaceEdge(s, f, vs, W, g, u);
    }
  }

  /** The new face binds each of its steps: none of them is a cut pair. */
  lemma NewFaceEdge(s: Store, f: FKey, vs: seq<VKey>, W: seq<VKey>, u: VKey)
    requires Unweldable(s, f, vs)
    requires u in Replaced(vs, W, s.nextVertex)
    ensures var t, r, k := UnweldTo(s, f, vs, W), Replaced(vs, W, s.nextVertex), Copied(s, vs, W).nextFace;
            u in t.halfedge && Next(r, u) in t.halfedge[u] && t.halfedge[u][Next(r, u)] == Some(k)
  {
    var c, r, m := Copied(s, vs, W), Replaced(vs, W, s.nextVertex), s.face[f];
    var k, y := c.nextFace, Next(r, u);
    RebuiltSetting(s, f, vs, W);
    CycleHalfedge(c, r, k, u);
    if u in m && m[u] == y {
      assert FaceEdgeOk(s, f, u);
      assert HalfedgeOk(s, u, y);
      NewStepOld(s, f, vs, W, u);
    }
    UnweldRow(s, f, vs, W, u, y);
  }

  /** Every other face left by `unweld` still binds its steps: none of them
      belongs to the old face or to the new one. */
  lemma KeptFaceEdge(s: Store, f: FKey, vs: seq<VKey>, W: seq<VKey>, g: FKey, u: VKey)
    requires Unweldable(s, f, vs)
    requires g in s.face && g != f && u in s.face[g]
    ensures var t := UnweldTo(s, f, vs, W);
            u in t.halfedge && s.face[g][u] in t.halfedge[u] && t.halfedge[u][s.face[g][u]] == Some(g)
  {
    var c, r, m := Copied(s, vs, W), Replaced(vs, W, s.nextVertex), s.face[f];
    var k := c.nextFace;
    RebuiltSetting(s, f, vs, W);
    assert FaceEdgeOk(s, g, u);
    var y := s.face[g][u];
    assert HalfedgeOk(s, u, y);
    if u in m {
      assert FaceEdgeOk(s, f, u);
    }
    if u in r && Next(r, u) == y {
      NewStepOld(s, f, vs, W, u);
    }
    KeptHalfedge(c, r, k, u, y);
    UnweldRow(s, f, vs, W, u, y);
  }

  /** A completed `unweld` keeps the mesh well-formed: the steps between
      kept vertices now belong to the new face, the steps next to an
      unwelded vertex are boundary, and the old face is gone. */
  lemma UnweldKeepsWellFormed(s: Store, f: FKey, vs: seq<VKey>, W: seq<VKey>)
    requires Unweldable(s, f, vs)
    ensures WellFormed(UnweldTo(s, f, vs, W))
  {
    var c, r := Copied(s, vs, W), Replaced(vs, W, s.nextVertex);
    var t := UnweldTo(s, f, vs, W);
    RebuiltSetting(s, f, vs, W);
    AddFaceFaces(c, r, c.nextFace);
    assert VerticesOk(t);
    assert FacesOk(t);
    forall u, v | u in t.halfedge && v in t.halfedge[u] ensures HalfedgeOk(t, u, v) {
      UnweldHalfedge(s, f, vs, W, u, v);
    }
    forall g, u | g in t.face && u in t.face[g] ensures FaceEdgeOk(t, g, u) {
      UnweldFaceEdge(s, f, vs, W, g, u);
    }
  }
}
