/** `TriMesh.add_face`: a mesh whose faces are triangles. A closing
    duplicate of the first vertex is stripped from the caller's list, then
    anything but three vertices is refused. */
module TriMesh {
  import opened Wrappers
  import opened HalfEdgeMesh

  /** The caller's Python list of vertex keys, which `add_face` edits. */
  class VertexList {
    var items: seq<VKey>

    constructor (xs: seq<VKey>)
      ensures items == xs
    {
      items := xs;
    }

    /** `if vertices[-1] == vertices[0]: del vertices[-1]`. */
    method DropClosing()
      requires |items| > 0
      modifies this
      ensures items == Trimmed(old(items))
    {
      if items[|items| - 1] == items[0] {
        items := items[..|items| - 1];
      }
    }
  }

  /** The list after `if vertices[-1] == vertices[0]: del vertices[-1]`. */
  function Trimmed(xs: seq<VKey>): (ys: seq<VKey>)
    requires |xs| > 0
    ensures ys == xs || (|xs| >= 1 && ys == xs[..|xs| - 1] && xs[|xs| - 1] == xs[0])
  {
    if xs[|xs| - 1] == xs[0] then xs[..|xs| - 1] else xs
  }

  /** The vertices handed to the base `add_face`, or the error raised first:
      `IndexError` for an empty list (`vertices[-1]`), `MeshError` when the
      trimmed list does not have exactly three entries. */
  function Normalised(xs: seq<VKey>): (r: Result<seq<VKey>>)
    ensures |xs| == 0 <==> r == Err(IndexError)
    ensures r.Err? ==> r.error == IndexError || r.error == MeshError
    ensures r.Ok? ==> |r.value| == 3
  {
    if |xs| == 0 then Err(IndexError)
    else if |Trimmed(xs)| != 3 then Err(MeshError)
    else Ok(Trimmed(xs))
  }

  /** `TriMesh.add_face(vertices, fkey)`. */
  method AddFace(mesh: Mesh, vertices: VertexList, fkey: Option<FKey>) returns (r: Result<FKey>)
    requires mesh.Valid()
    modifies mesh, vertices
    ensures |old(vertices.items)| > 0 ==> vertices.items == Trimmed(old(vertices.items))
    ensures |old(vertices.items)| == 0 ==> vertices.items == old(vertices.items)
    ensures var n := Normalised(old(vertices.items));
            n.Err? ==> r == Err(n.error) && mesh.State() == old(mesh.State())
    ensures var n := Normalised(old(vertices.items));
            n.Ok? ==>
              && (r.Ok? <==> Admissible(old(mesh.State()), n.value) && (fkey.Some? ==> fkey.value !in old(mesh.face)))
              && (r.Ok? ==> mesh.State() == AddFaceTo(old(mesh.State()), n.value, r.value))
              && (r.Ok? ==> r.value == if fkey.Some? then fkey.value else old(mesh.nextFace))
              && (r.Err? ==> mesh.State() == old(mesh.State()))
    ensures var n := Normalised(old(vertices.items));
            n.Ok? && r.Ok? && Unbound(old(mesh.State()), n.value) ==> mesh.Valid()
  {
    if |vertices.items| == 0 {
      return Err(IndexError);
    }
    ghost var xs := vertices.items;
    vertices.DropClosing();
    var ys := vertices.items;
    if |ys| != 3 {
      return Err(MeshError);
    }
    assert Normalised(xs) == Ok(ys);
    r := mesh.AddFace(ys, fkey);
  }

  /** What `add_face` accepts, both ways: exactly a triangle whose last
      vertex is not its first, or such a triangle closed by a repeat of its
      first vertex. */
  lemma NormalisedIff(xs: seq<VKey>, ys: seq<VKey>)
    ensures Normalised(xs) == Ok(ys) <==>
              |ys| == 3 && ((xs == ys && ys[2] != ys[0]) || xs == ys + [ys[0]])
  {
    if |ys| == 3 && xs == ys + [ys[0]] {
      assert xs[|xs| - 1] == xs[0];
      assert xs[..|xs| - 1] == ys;
    }
  }

  /** `[a, b, c, a]` is the triangle `[a, b, c]`. */
  lemma ClosedTriangleAccepted(a: VKey, b: VKey, c: VKey)
    ensures Normalised([a, b, c, a]) == Ok([a, b, c])
  {
    assert [a, b, c, a][..3] == [a, b, c];
  }

  /** Only one closing entry is stripped, so `[a, b, c, a, a]` is refused. */
  lemma DoublyClosedRejected(a: VKey, b: VKey, c: VKey)
    ensures Normalised([a, b, c, a, a]) == Err(MeshError)
  {
    assert |[a, b, c, a, a][..4]| == 4;
  }
}
