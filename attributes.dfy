/** Vertex attribute dictionaries and the averaging rule that `split_edge`
    uses to give the inserted vertex the attributes of its two end points. */
module Attributes {
  import opened Wrappers

  /** A Python attribute value, by the kinds the averaging rule tells apart:
      a number, a list or tuple, a string, and `None` (or any other object
      that supports neither `+` nor `len`). */
  datatype Value = Num(r: real) | List(items: seq<Value>) | Text(s: string) | Null

  type Attrs = map<string, Value>

  datatype Point = Point(x: real, y: real, z: real)

  /** The vertex has numeric `x`, `y` and `z` attributes. */
  predicate Placed(a: Attrs) {
    && "x" in a && a["x"].Num?
    && "y" in a && a["y"].Num?
    && "z" in a && a["z"].Num?
  }

  /** `vertex_coordinates`: the position stored in the attributes. */
  function Coordinates(a: Attrs): (p: Point)
    requires Placed(a)
    ensures a["x"] == Num(p.x) && a["y"] == Num(p.y) && a["z"] == Num(p.z)
  {
    Point(a["x"].r, a["y"].r, a["z"].r)
  }

  /** `add_vertex(attr_dict=a, x=.., y=.., z=..)`: the keyword coordinates
      override whatever `a` holds under those names. */
  function WithPosition(a: Attrs, p: Point): (r: Attrs)
    ensures Placed(r) && Coordinates(r) == p
    ensures forall n :: n in r <==> n in a || n == "x" || n == "y" || n == "z"
    ensures forall n :: n in a && n !in {"x", "y", "z"} ==> r[n] == a[n]
  {
    a["x" := Num(p.x)]["y" := Num(p.y)]["z" := Num(p.z)]
  }

  predicate AllNumbers(xs: seq<Value>) {
    forall i :: 0 <= i < |xs| ==> xs[i].Num?
  }

  /** The second attempt, `[0.5 * (a[i] + b[i]) for i in range(len(a))]`,
      succeeds: `a` is a list (or the empty string) and, unless it is empty,
      `b` is present, a list at least as long, and both are numbers
      position by position. An empty `a` never touches `b`. */
  predicate ElementwiseDefined(a: Value, b: Option<Value>) {
    || a == Text("")
    || (a.List? && |a.items| == 0)
    || (&& a.List? && b.Some? && b.value.List?
        && |a.items| <= |b.value.items|
        && AllNumbers(a.items) && AllNumbers(b.value.items[..|a.items|]))
  }

  /** The attribute the inserted vertex gets from `a` (the value at `u`) and
      `b` (the value at `v`, `None` when `v` lacks the name): the scalar
      average if `0.5 * (a + b)` succeeds, else the element-wise average if
      that succeeds, else `None`. */
  function Average(a: Value, b: Option<Value>): (r: Value)
    ensures r.Num? <==> a.Num? && b.Some? && b.value.Num?
    ensures r.Num? ==> 2.0 * r.r == a.r + b.value.r
    ensures r.List? <==> !r.Num? && ElementwiseDefined(a, b)
    ensures r.List? && a.List? ==> |r.items| == |a.items|
    ensures r.List? && !a.List? ==> r.items == []
    ensures r.List? ==> forall i :: 0 <= i < |r.items| ==>
              a.List? && r.items[i].Num? && 2.0 * r.items[i].r == a.items[i].r + b.value.items[i].r
    ensures !r.Num? && !r.List? ==> r == Null
  {
    if a.Num? && b.Some? && b.value.Num? then
      Num(0.5 * (a.r + b.value.r))
    else if a == Text("") || (a.List? && |a.items| == 0) then
      List([])
    else if ElementwiseDefined(a, b) then
      var xs, ys := a.items, b.value.items;
      List(seq(|xs|, i requires 0 <= i < |xs| => Num(0.5 * (xs[i].r + ys[i].r))))
    else
      Null
  }

  /** A value whose average with itself is itself: a number or a list of numbers. */
  predicate Averageable(a: Value) {
    a.Num? || (a.List? && AllNumbers(a.items))
  }

  lemma AverageOfSelf(a: Value)
    requires Averageable(a)
    ensures Average(a, Some(a)) == a
  {
    if a.List? {
      var r := Average(a, Some(a));
      assert |r.items| == |a.items|;
      forall i | 0 <= i < |a.items| ensures r.items[i] == a.items[i] {
      }
    }
  }

  lemma AverageSymmetric(a: Value, b: Value)
    requires (a.Num? && b.Num?) || (a.List? && b.List? && |a.items| == |b.items|)
    ensures Average(a, Some(b)) == Average(b, Some(a))
  {
    if a.List? {
      var r, s := Average(a, Some(b)), Average(b, Some(a));
      assert ElementwiseDefined(a, Some(b)) <==> ElementwiseDefined(b, Some(a)) by {
        assert a.items[..|a.items|] == a.items;
        assert b.items[..|b.items|] == b.items;
      }
      if r.List? {
        assert |r.items| == |s.items|;
        forall i | 0 <= i < |r.items| ensures r.items[i] == s.items[i] {
        }
      }
    }
  }

  lemma AverageBetween(a: real, b: real)
    ensures var r := Average(Num(a), Some(Num(b))).r;
            (a <= b ==> a <= r <= b) && (b <= a ==> b <= r <= a)
  {
  }

  /** The attributes of the inserted vertex before its position is set:
      one entry per attribute name of `u`, each the average of `u`'s and
      `v`'s value under that name. */
  function Merged(ua: Attrs, va: Attrs): (w: Attrs)
    ensures forall n :: n in w <==> n in ua
  {
    map n | n in ua :: Average(ua[n], Get(va, n))
  }

  /** The loop at the head of `split_edge` that builds `w_attr`. */
  method MergeAttributes(ua: Attrs, va: Attrs) returns (w: Attrs)
    ensures w == Merged(ua, va)
  {
    w := map[];
    var names := ua.Keys;
    while names != {}
      invariant names <= ua.Keys
      invariant forall n :: n in w <==> n in ua && n !in names
      invariant forall n :: n in w ==> w[n] == Average(ua[n], Get(va, n))
      decreases names
    {
      var n :| n in names;
      w := w[n := Average(ua[n], Get(va, n))];
      names := names - {n};
    }
  }

  /** The attributes `add_vertex` stores for the inserted vertex: the merged
      attributes with `x`, `y` and `z` overridden by the position `p`. */
  function SplitVertexAttributes(ua: Attrs, va: Attrs, p: Point): (r: Attrs)
    ensures Placed(r) && Coordinates(r) == p
    ensures forall n :: n in r <==> n in ua || n == "x" || n == "y" || n == "z"
    ensures forall n :: n in ua && n != "x" && n != "y" && n != "z" ==> r[n] == Average(ua[n], Get(va, n))
  {
    WithPosition(Merged(ua, va), p)
  }

  /** The attribute dictionary `split_edge` hands to `add_vertex`. */
  method SplitAttributes(ua: Attrs, va: Attrs, p: Point) returns (r: Attrs)
    ensures r == SplitVertexAttributes(ua, va, p)
  {
    var merged := MergeAttributes(ua, va);
    r := WithPosition(merged, p);
  }
}
