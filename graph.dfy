/** The network checks `is_network_crossed`, `are_network_edges_crossed`,
    `count_network_crossings`, `find_network_crossings`, `is_network_2d`
    and `is_network_planar_embedding`.

    The crossing checks run over every ordered pair of edges, row by row,
    skip the pairs that share an end point (an edge with itself included),
    read the planar coordinates of the four end points and hand them to a
    segment-intersection test. That test is a parameter here (`hit`): the
    model says which pairs reach it, in which order, and what is done with
    its answers. */
module Graph {
  import opened Wrappers
  import opened Attributes

  type Key = int
  type Edge = (Key, Key)
  type EdgePair = (Edge, Edge)

  /** The planar coordinates handed to the intersection test, as stored. */
  type XY = (Value, Value)

  /** The segment-intersection test on the end points of two edges. */
  type Hit = (XY, XY, XY, XY) -> bool

  /** A network: the vertex attribute dicts and the edges in the order
      `edges_iter` yields them. */
  datatype Network = Network(vertex: map<Key, Attrs>, edges: seq<Edge>)

  /** Where the coordinates come from: the `x` and `y` attributes of the
      network's vertices, or the mapping the caller passes. */
  datatype Coordinates = FromAttributes(vertex: map<Key, Attrs>) | Given(points: map<Key, XY>)

  /** The coordinates of `u`; a missing vertex or attribute raises `KeyError`. */
  function Lookup(co: Coordinates, u: Key): (r: Result<XY>)
    ensures r.Err? ==> r.error == KeyError
    ensures co.Given? ==> (r.Ok? <==> u in co.points)
    ensures co.FromAttributes? ==> (r.Ok? <==> u in co.vertex && "x" in co.vertex[u] && "y" in co.vertex[u])
    ensures r.Ok? ==> r.value == if co.Given? then co.points[u] else (co.vertex[u]["x"], co.vertex[u]["y"])
  {
    match co
    case FromAttributes(vertex) =>
      if u in vertex && "x" in vertex[u] && "y" in vertex[u] then Ok((vertex[u]["x"], vertex[u]["y"]))
      else Err(KeyError)
    case Given(points) =>
      if u in points then Ok(points[u]) else Err(KeyError)
  }

  // ---------------------------------------------------------------------------
  // The pairs
  // ---------------------------------------------------------------------------

  /** The pairs `(e, f)` for `f` in `F`, in order. */
  function Row(e: Edge, F: seq<Edge>): (r: seq<EdgePair>)
    ensures |r| == |F| && forall j :: 0 <= j < |F| ==> r[j] == (e, F[j])
  {
    seq(|F|, j requires 0 <= j < |F| => (e, F[j]))
  }

  /** The rows of `E` for the edges of `F`, in order. */
  function Rows(F: seq<Edge>, E: seq<Edge>): seq<EdgePair>
    decreases |F|
  {
    if F == [] then [] else Rows(F[..|F| - 1], E) + Row(F[|F| - 1], E)
  }

  /** Every ordered pair of edges, in the order of the two nested loops. */
  function Pairs(E: seq<Edge>): seq<EdgePair> {
    Rows(E, E)
  }

  /** The pairs are exactly the ordered pairs of edges of the list. */
  lemma {:induction false} RowsMembers(F: seq<Edge>, E: seq<Edge>, x: EdgePair)
    ensures x in Rows(F, E) <==> x.0 in F && x.1 in E
    decreases |F|
  {
    if F != [] {
      var G := F[..|F| - 1];
      RowsMembers(G, E, x);
      assert F == G + [F[|F| - 1]];
      var R := Row(F[|F| - 1], E);
      if x in R {
        var j :| 0 <= j < |R| && R[j] == x;
      }
      if x.0 == F[|F| - 1] && x.1 in E {
        var j :| 0 <= j < |E| && E[j] == x.1;
        assert R[j] == x;
      }
    }
  }

  /** The test skips a pair of edges with a common end point. */
  predicate SharesEnd(x: EdgePair) {
    var (u1, v1) := x.0;
    var (u2, v2) := x.1;
    u1 == u2 || v1 == v2 || u1 == v2 || u2 == v1
  }

  /** An edge always shares its end points with itself. */
  lemma NeverWithItself(e: Edge)
    ensures SharesEnd((e, e))
  {
  }

  /** The test on one pair: the four lookups, then the intersection test. */
  function Test(co: Coordinates, hit: Hit, x: EdgePair): (r: Result<bool>)
    ensures r.Err? <==> Lookup(co, x.0.0).Err? || Lookup(co, x.0.1).Err? || Lookup(co, x.1.0).Err? || Lookup(co, x.1.1).Err?
    ensures r.Err? ==> r.error == KeyError
  {
    var a, b, c, d := Lookup(co, x.0.0), Lookup(co, x.0.1), Lookup(co, x.1.0), Lookup(co, x.1.1);
    if a.Err? || b.Err? || c.Err? || d.Err? then Err(KeyError)
    else Ok(hit(a.value, b.value, c.value, d.value))
  }

  // ---------------------------------------------------------------------------
  // The three scans, specified on the pairs seen so far
  // ---------------------------------------------------------------------------

  /** `find_network_crossings` after the pairs `ps`: the disjoint pairs the
      intersection test accepts, in order, or the first lookup error. */
  function Found(co: Coordinates, hit: Hit, ps: seq<EdgePair>): (r: Result<seq<EdgePair>>)
    ensures r.Err? ==> r.error == KeyError
    ensures r.Ok? ==> |r.value| <= |ps|
    decreases |ps|
  {
    if ps == [] then Ok([])
    else
      var r := Found(co, hit, ps[..|ps| - 1]);
      var x := ps[|ps| - 1];
      if r.Err? || SharesEnd(x) then r
      else
        var t := Test(co, hit, x);
        if t.Err? then Err(t.error) else if t.value then Ok(r.value + [x]) else r
  }

  /** `count_network_crossings` after the pairs `ps`. */
  function Counted(co: Coordinates, hit: Hit, ps: seq<EdgePair>): (r: Result<nat>)
    ensures r.Err? ==> r.error == KeyError
    ensures r.Ok? ==> r.value <= |ps|
    decreases |ps|
  {
    if ps == [] then Ok(0)
    else
      var r := Counted(co, hit, ps[..|ps| - 1]);
      var x := ps[|ps| - 1];
      if r.Err? || SharesEnd(x) then r
      else
        var t := Test(co, hit, x);
        if t.Err? then Err(t.error) else if t.value then Ok(r.value + 1) else r
  }

  /** `is_network_crossed` after the pairs `ps`: `Ok(true)` once a disjoint
      pair is accepted, an error once a lookup fails first, else `Ok(false)`. */
  function Crossed(co: Coordinates, hit: Hit, ps: seq<EdgePair>): (r: Result<bool>)
    ensures r.Err? ==> r.error == KeyError
    ensures r == Ok(true) ==> exists i :: 0 <= i < |ps| && !SharesEnd(ps[i]) && Test(co, hit, ps[i]) == Ok(true)
    decreases |ps|
  {
    if ps == [] then Ok(false)
    else
      var r := Crossed(co, hit, ps[..|ps| - 1]);
      var x := ps[|ps| - 1];
      if r != Ok(false) || SharesEnd(x) then r
      else Test(co, hit, x)
  }

  /** One more pair, unfolded. */
  lemma Snoc(ps: seq<EdgePair>, x: EdgePair)
    ensures (ps + [x])[..|ps + [x]| - 1] == ps && (ps + [x])[|ps + [x]| - 1] == x
  {
  }

  /** The list of crossings holds exactly the disjoint pairs the
      intersection test accepts. */
  lemma {:induction false} FoundMembers(co: Coordinates, hit: Hit, ps: seq<EdgePair>, x: EdgePair)
    requires Found(co, hit, ps).Ok?
    ensures x in Found(co, hit, ps).value <==> x in ps && !SharesEnd(x) && Test(co, hit, x) == Ok(true)
    decreases |ps|
  {
    if ps != [] {
      var qs, y := ps[..|ps| - 1], ps[|ps| - 1];
      assert ps == qs + [y];
      FoundMembers(co, hit, qs, x);
      if x == y && !SharesEnd(y) {
        assert Test(co, hit, y).Ok?;
      }
    }
  }

  /** The count is the length of the list of crossings; both raise on the
      same pairs. */
  lemma {:induction false} CountedIsFound(co: Coordinates, hit: Hit, ps: seq<EdgePair>)
    ensures Counted(co, hit, ps).Ok? <==> Found(co, hit, ps).Ok?
    ensures Counted(co, hit, ps).Ok? ==> Counted(co, hit, ps).value == |Found(co, hit, ps).value|
    decreases |ps|
  {
    if ps != [] {
      CountedIsFound(co, hit, ps[..|ps| - 1]);
    }
  }

  /** When the count raises nothing, the network is crossed exactly when
      the count is positive. */
  lemma {:induction false} CrossedIsCountPositive(co: Coordinates, hit: Hit, ps: seq<EdgePair>)
    requires Counted(co, hit, ps).Ok?
    ensures Crossed(co, hit, ps) == Ok(Counted(co, hit, ps).value > 0)
    decreases |ps|
  {
    if ps != [] {
      CrossedIsCountPositive(co, hit, ps[..|ps| - 1]);
    }
  }

  /** An answer other than `Ok(false)` is final: more pairs do not change it. */
  lemma {:induction false} CrossedSettled(co: Coordinates, hit: Hit, ps: seq<EdgePair>, qs: seq<EdgePair>)
    requires Crossed(co, hit, ps) != Ok(false)
    ensures Crossed(co, hit, ps + qs) == Crossed(co, hit, ps)
    decreases |qs|
  {
    if qs != [] {
      var rs := qs[..|qs| - 1];
      assert ps + qs == (ps + rs) + [qs[|qs| - 1]];
      CrossedSettled(co, hit, ps, rs);
      Snoc(ps + rs, qs[|qs| - 1]);
    } else {
      assert ps + qs == ps;
    }
  }

  /** An error is final for the list of crossings too. */
  lemma {:induction false} FoundSettled(co: Coordinates, hit: Hit, ps: seq<EdgePair>, qs: seq<EdgePair>)
    requires Found(co, hit, ps).Err?
    ensures Found(co, hit, ps + qs) == Found(co, hit, ps)
    decreases |qs|
  {
    if qs != [] {
      var rs := qs[..|qs| - 1];
      assert ps + qs == (ps + rs) + [qs[|qs| - 1]];
      FoundSettled(co, hit, ps, rs);
      Snoc(ps + rs, qs[|qs| - 1]);
    } else {
      assert ps + qs == ps;
    }
  }

  lemma {:induction false} CountedSettled(co: Coordinates, hit: Hit, ps: seq<EdgePair>, qs: seq<EdgePair>)
    requires Counted(co, hit, ps).Err?
    ensures Counted(co, hit, ps + qs) == Counted(co, hit, ps)
    decreases |qs|
  {
    if qs != [] {
      var rs := qs[..|qs| - 1];
      assert ps + qs == (ps + rs) + [qs[|qs| - 1]];
      CountedSettled(co, hit, ps, rs);
      Snoc(ps + rs, qs[|qs| - 1]);
    } else {
      assert ps + qs == ps;
    }
  }

  /** The pairs of a two-edge list, in loop order. */
  lemma TwoEdgePairs(e: Edge, f: Edge)
    ensures Pairs([e, f]) == [(e, e), (e, f), (f, e), (f, f)]
  {
    var E: seq<Edge> := [e, f];
    assert E[..1] == [e] && E[..1][..0] == [];
    assert Row(e, E) == [(e, e), (e, f)];
    assert Row(f, E) == [(f, e), (f, f)];
    assert Rows(E[..1], E) == [(e, e), (e, f)];
  }

  /** The scans over the four pairs of two disjoint edges that cross both ways. */
  lemma CrossingBothWays(co: Coordinates, hit: Hit, e: Edge, f: Edge)
    requires !SharesEnd((e, f)) && !SharesEnd((f, e))
    requires Test(co, hit, (e, f)) == Ok(true) && Test(co, hit, (f, e)) == Ok(true)
    ensures var ps := [(e, e), (e, f), (f, e), (f, f)];
            && Counted(co, hit, ps) == Ok(2)
            && Found(co, hit, ps) == Ok([(e, f), (f, e)])
  {
    var ps := [(e, e), (e, f), (f, e), (f, f)];
    NeverWithItself(e);
    NeverWithItself(f);
    assert ps[..3] == [(e, e), (e, f), (f, e)];
    assert ps[..3][..2] == [(e, e), (e, f)];
    assert ps[..3][..2][..1] == [(e, e)];
    assert ps[..3][..2][..1][..0] == [];
    assert Counted(co, hit, ps[..3][..2][..1]) == Ok(0);
    assert Found(co, hit, ps[..3][..2][..1]) == Ok([]);
    assert Counted(co, hit, ps[..3][..2]) == Ok(1);
    assert [] + [(e, f)] == [(e, f)];
    assert Found(co, hit, ps[..3][..2]) == Ok([(e, f)]);
    assert [(e, f)] + [(f, e)] == [(e, f), (f, e)];
  }

  /** Ordered pairs count twice: two crossing edges give a count of 2 and
      both orders in the list. */
  lemma BothOrdersCount(hit: Hit, a: XY, b: XY, c: XY, d: XY)
    requires hit(a, b, c, d) && hit(c, d, a, b)
    ensures var co := Given(map[0 := a, 1 := b, 2 := c, 3 := d]);
            && Counted(co, hit, Pairs([(0, 1), (2, 3)])) == Ok(2)
            && Found(co, hit, Pairs([(0, 1), (2, 3)])) == Ok([((0, 1), (2, 3)), ((2, 3), (0, 1))])
  {
    var co := Given(map[0 := a, 1 := b, 2 := c, 3 := d]);
    var e, f := (0, 1), (2, 3);
    TwoEdgePairs(e, f);
    assert Lookup(co, 0) == Ok(a) && Lookup(co, 1) == Ok(b) && Lookup(co, 2) == Ok(c) && Lookup(co, 3) == Ok(d);
    CrossingBothWays(co, hit, e, f);
  }

  // ---------------------------------------------------------------------------
  // The nested loops
  // ---------------------------------------------------------------------------

  /** The pairs visited before the inner loop reaches index `j` of row `i`. */
  function Seen(E: seq<Edge>, i: nat, j: nat): seq<EdgePair>
    requires i < |E| && j <= |E|
  {
    Rows(E[..i], E) + Row(E[i], E[..j])
  }

  /** One step of the inner loop appends the pair `(E[i], E[j])`. */
  lemma SeenStep(E: seq<Edge>, i: nat, j: nat)
    requires i < |E| && j < |E|
    ensures Seen(E, i, j + 1) == Seen(E, i, j) + [(E[i], E[j])]
  {
    assert Row(E[i], E[..j + 1]) == Row(E[i], E[..j]) + [(E[i], E[j])];
  }

  /** A finished row is the start of the next one, and the last row is
      all the pairs. */
  lemma SeenRow(E: seq<Edge>, i: nat)
    requires i < |E|
    ensures Seen(E, i, |E|) == Rows(E[..i + 1], E)
    ensures i + 1 == |E| ==> Seen(E, i, |E|) == Pairs(E)
  {
    assert E[..i + 1][..i] == E[..i];
    assert E[..|E|] == E;
  }

  /** Row `i` starts with the rows before it seen. */
  lemma SeenStart(E: seq<Edge>, i: nat)
    requires i < |E|
    ensures Seen(E, i, 0) == Rows(E[..i], E)
  {
    assert Row(E[i], E[..0]) == [];
  }

  /** All the rows are all the pairs. */
  lemma AllRows(E: seq<Edge>)
    ensures Rows(E[..|E|], E) == Pairs(E)
  {
    assert E[..|E|] == E;
  }

  /** The pairs seen so far are a prefix of all the pairs. */
  lemma SeenPrefix(E: seq<Edge>, i: nat, j: nat)
    requires i < |E| && j <= |E|
    ensures Seen(E, i, j) <= Pairs(E)
  {
    RowsPrefix(E, i + 1);
    SeenRow(E, i);
    assert Row(E[i], E[..j]) == Row(E[i], E)[..j];
    assert Seen(E, i, j) <= Seen(E, i, |E|);
  }

  /** A prefix and the rest of a sequence make it up again. */
  lemma PrefixRest(ps: seq<EdgePair>, all: seq<EdgePair>)
    requires ps <= all
    ensures all == ps + all[|ps|..]
  {
  }

  /** A lookup error among the pairs seen so far is the result of the whole
      enumeration. */
  lemma FoundAbort(co: Coordinates, hit: Hit, E: seq<Edge>, i: nat, j: nat)
    requires i < |E| && j <= |E| && Found(co, hit, Seen(E, i, j)).Err?
    ensures Found(co, hit, Pairs(E)) == Found(co, hit, Seen(E, i, j))
  {
    var ps := Seen(E, i, j);
    SeenPrefix(E, i, j);
    PrefixRest(ps, Pairs(E));
    FoundSettled(co, hit, ps, Pairs(E)[|ps|..]);
  }

  /** A lookup error among the pairs seen so far is the result of the count. */
  lemma CountedAbort(co: Coordinates, hit: Hit, E: seq<Edge>, i: nat, j: nat)
    requires i < |E| && j <= |E| && Counted(co, hit, Seen(E, i, j)).Err?
    ensures Counted(co, hit, Pairs(E)) == Counted(co, hit, Seen(E, i, j))
  {
    var ps := Seen(E, i, j);
    SeenPrefix(E, i, j);
    PrefixRest(ps, Pairs(E));
    CountedSettled(co, hit, ps, Pairs(E)[|ps|..]);
  }

  /** A hit or a lookup error among the pairs seen so far is the result of
      the crossing test. */
  lemma CrossedAbort(co: Coordinates, hit: Hit, E: seq<Edge>, i: nat, j: nat)
    requires i < |E| && j <= |E| && Crossed(co, hit, Seen(E, i, j)) != Ok(false)
    ensures Crossed(co, hit, Pairs(E)) == Crossed(co, hit, Seen(E, i, j))
  {
    var ps := Seen(E, i, j);
    SeenPrefix(E, i, j);
    PrefixRest(ps, Pairs(E));
    CrossedSettled(co, hit, ps, Pairs(E)[|ps|..]);
  }

  /** The rows of a prefix of the edges are a prefix of all the pairs. */
  lemma {:induction false} RowsPrefix(E: seq<Edge>, k: nat)
    requires k <= |E|
    ensures Rows(E[..k], E) <= Pairs(E)
    decreases |E| - k
  {
    if k < |E| {
      RowsPrefix(E, k + 1);
      assert E[..k + 1][..k] == E[..k];
    } else {
      assert E[..k] == E;
    }
  }

  /** One step of the inner loop of `find_network_crossings`. */
  lemma FoundStep(co: Coordinates, hit: Hit, E: seq<Edge>, i: nat, j: nat, acc: seq<EdgePair>)
    requires i < |E| && j < |E| && Found(co, hit, Seen(E, i, j)) == Ok(acc)
    ensures SharesEnd((E[i], E[j])) || Test(co, hit, (E[i], E[j])) == Ok(false) ==>
              Found(co, hit, Seen(E, i, j + 1)) == Ok(acc)
    ensures !SharesEnd((E[i], E[j])) && Test(co, hit, (E[i], E[j])) == Ok(true) ==>
              Found(co, hit, Seen(E, i, j + 1)) == Ok(acc + [(E[i], E[j])])
    ensures !SharesEnd((E[i], E[j])) && Test(co, hit, (E[i], E[j])).Err? ==>
              Found(co, hit, Pairs(E)) == Err(KeyError)
  {
    var x := (E[i], E[j]);
    SeenStep(E, i, j);
    Snoc(Seen(E, i, j), x);
    if !SharesEnd(x) && Test(co, hit, x).Err? {
      FoundAbort(co, hit, E, i, j + 1);
    }
  }

  /** One step of the inner loop of `count_network_crossings`. */
  lemma CountedStep(co: Coordinates, hit: Hit, E: seq<Edge>, i: nat, j: nat, acc: nat)
    requires i < |E| && j < |E| && Counted(co, hit, Seen(E, i, j)) == Ok(acc)
    ensures SharesEnd((E[i], E[j])) || Test(co, hit, (E[i], E[j])) == Ok(false) ==>
              Counted(co, hit, Seen(E, i, j + 1)) == Ok(acc)
    ensures !SharesEnd((E[i], E[j])) && Test(co, hit, (E[i], E[j])) == Ok(true) ==>
              Counted(co, hit, Seen(E, i, j + 1)) == Ok(acc + 1)
    ensures !SharesEnd((E[i], E[j])) && Test(co, hit, (E[i], E[j])).Err? ==>
              Counted(co, hit, Pairs(E)) == Err(KeyError)
  {
    var x := (E[i], E[j]);
    SeenStep(E, i, j);
    Snoc(Seen(E, i, j), x);
    if !SharesEnd(x) && Test(co, hit, x).Err? {
      CountedAbort(co, hit, E, i, j + 1);
    }
  }

  /** One step of the inner loop of `is_network_crossed`. */
  lemma CrossedStep(co: Coordinates, hit: Hit, E: seq<Edge>, i: nat, j: nat)
    requires i < |E| && j < |E| && Crossed(co, hit, Seen(E, i, j)) == Ok(false)
    ensures SharesEnd((E[i], E[j])) || Test(co, hit, (E[i], E[j])) == Ok(false) ==>
              Crossed(co, hit, Seen(E, i, j + 1)) == Ok(false)
    ensures !SharesEnd((E[i], E[j])) && Test(co, hit, (E[i], E[j])) != Ok(false) ==>
              Crossed(co, hit, Pairs(E)) == Test(co, hit, (E[i], E[j]))
  {
    var x := (E[i], E[j]);
    SeenStep(E, i, j);
    Snoc(Seen(E, i, j), x);
    if !SharesEnd(x) && Test(co, hit, x) != Ok(false) {
      CrossedAbort(co, hit, E, i, j + 1);
    }
  }

  /** `find_network_crossings(network)` (`crossings` collects the pairs). */
  method FindNetworkCrossings(network: Network, hit: Hit) returns (r: Result<seq<EdgePair>>)
    ensures r == Found(FromAttributes(network.vertex), hit, Pairs(network.edges))
  {
    var co := FromAttributes(network.vertex);
    var E := network.edges;
    var crossings: seq<EdgePair> := [];
    for i := 0 to |E|
      invariant Found(co, hit, Rows(E[..i], E)) == Ok(crossings)
    {
      var t := CrossingsInRow(co, hit, E, i, crossings);
      if t.Err? {
        return t;
      }
      crossings := t.value;
    }
    AllRows(E);
    r := Ok(crossings);
  }

  /** The inner loop of `find_network_crossings` for the edge `E[i]`: the
      crossings so far extended by the row, or the error that ends the scan. */
  method CrossingsInRow(co: Coordinates, hit: Hit, E: seq<Edge>, i: nat, acc: seq<EdgePair>)
    returns (t: Result<seq<EdgePair>>)
    requires i < |E| && Found(co, hit, Rows(E[..i], E)) == Ok(acc)
    ensures t.Ok? ==> Found(co, hit, Rows(E[..i + 1], E)) == t
    ensures t.Err? ==> t == Found(co, hit, Pairs(E))
  {
    SeenStart(E, i);
    var crossings := acc;
    for j := 0 to |E|
      invariant Found(co, hit, Seen(E, i, j)) == Ok(crossings)
    {
      var x := CrossingsPair(co, hit, E, i, j, crossings);
      if x.Err? {
        return x;
      }
      crossings := x.value;
    }
    SeenRow(E, i);
    t := Ok(crossings);
  }

  /** One pass of the inner loop of `find_network_crossings`: skip a pair
      with a common end point, else test it and collect a crossing. */
  method CrossingsPair(co: Coordinates, hit: Hit, E: seq<Edge>, i: nat, j: nat, acc: seq<EdgePair>)
    returns (t: Result<seq<EdgePair>>)
    requires i < |E| && j < |E| && Found(co, hit, Seen(E, i, j)) == Ok(acc)
    ensures t.Ok? ==> Found(co, hit, Seen(E, i, j + 1)) == t
    ensures t.Err? ==> t == Found(co, hit, Pairs(E))
  {
    FoundStep(co, hit, E, i, j, acc);
    var u1, v1, u2, v2 := E[i].0, E[i].1, E[j].0, E[j].1;
    if u1 == u2 || v1 == v2 || u1 == v2 || u2 == v1 {
      return Ok(acc);
    }
    var x := Test(co, hit, (E[i], E[j]));
    if x.Err? {
      return Err(x.error);
    }
    t := if x.value then Ok(acc + [(E[i], E[j])]) else Ok(acc);
  }

  /** `count_network_crossings(network)`. */
  method CountNetworkCrossings(network: Network, hit: Hit) returns (r: Result<nat>)
    ensures r == Counted(FromAttributes(network.vertex), hit, Pairs(network.edges))
  {
    var co := FromAttributes(network.vertex);
    var E := network.edges;
    var count: nat := 0;
    for i := 0 to |E|
      invariant Counted(co, hit, Rows(E[..i], E)) == Ok(count)
    {
      var t := CountInRow(co, hit, E, i, count);
      if t.Err? {
        return t;
      }
      count := t.value;
    }
    AllRows(E);
    r := Ok(count);
  }

  /** The inner loop of `count_network_crossings` for the edge `E[i]`: the
      count so far raised by the row, or the error that ends the scan. */
  method CountInRow(co: Coordinates, hit: Hit, E: seq<Edge>, i: nat, acc: nat) returns (t: Result<nat>)
    requires i < |E| && Counted(co, hit, Rows(E[..i], E)) == Ok(acc)
    ensures t.Ok? ==> Counted(co, hit, Rows(E[..i + 1], E)) == t
    ensures t.Err? ==> t == Counted(co, hit, Pairs(E))
  {
    SeenStart(E, i);
    var count := acc;
    for j := 0 to |E|
      invariant Counted(co, hit, Seen(E, i, j)) == Ok(count)
    {
      var x := CountPair(co, hit, E, i, j, count);
      if x.Err? {
        return x;
      }
      count := x.value;
    }
    SeenRow(E, i);
    t := Ok(count);
  }

  /** One pass of the inner loop of `count_network_crossings`: skip a pair
      with a common end point, else test it and count a crossing. */
  method CountPair(co: Coordinates, hit: Hit, E: seq<Edge>, i: nat, j: nat, acc: nat) returns (t: Result<nat>)
    requires i < |E| && j < |E| && Counted(co, hit, Seen(E, i, j)) == Ok(acc)
    ensures t.Ok? ==> Counted(co, hit, Seen(E, i, j + 1)) == t
    ensures t.Err? ==> t == Counted(co, hit, Pairs(E))
  {
    CountedStep(co, hit, E, i, j, acc);
    var u1, v1, u2, v2 := E[i].0, E[i].1, E[j].0, E[j].1;
    if u1 == u2 || v1 == v2 || u1 == v2 || u2 == v1 {
      return Ok(acc);
    }
    var x := Test(co, hit, (E[i], E[j]));
    if x.Err? {
      return Err(x.error);
    }
    t := if x.value then Ok(acc + 1) else Ok(acc);
  }

  /** The shared scan of `is_network_crossed` and
      `are_network_edges_crossed`: stop at the first accepted pair. */
  method AnyCrossing(co: Coordinates, hit: Hit, E: seq<Edge>) returns (r: Result<bool>)
    ensures r == Crossed(co, hit, Pairs(E))
  {
    for i := 0 to |E|
      invariant Crossed(co, hit, Rows(E[..i], E)) == Ok(false)
    {
      var t := CrossingInRow(co, hit, E, i);
      if t != Ok(false) {
        return t;
      }
    }
    AllRows(E);
    r := Ok(false);
  }

  /** The inner loop of `is_network_crossed` for the edge `E[i]`: `Ok(false)`
      when the row adds no crossing, else the answer for the whole network. */
  method CrossingInRow(co: Coordinates, hit: Hit, E: seq<Edge>, i: nat) returns (t: Result<bool>)
    requires i < |E| && Crossed(co, hit, Rows(E[..i], E)) == Ok(false)
    ensures t == Ok(false) ==> Crossed(co, hit, Rows(E[..i + 1], E)) == Ok(false)
    ensures t != Ok(false) ==> t == Crossed(co, hit, Pairs(E))
  {
    SeenStart(E, i);
    for j := 0 to |E|
      invariant Crossed(co, hit, Seen(E, i, j)) == Ok(false)
    {
      CrossedStep(co, hit, E, i, j);
      var u1, v1, u2, v2 := E[i].0, E[i].1, E[j].0, E[j].1;
      if u1 == u2 || v1 == v2 || u1 == v2 || u2 == v1 {
        continue;
      }
      t := Test(co, hit, (E[i], E[j]));
      if t != Ok(false) {
        return;
      }
    }
    SeenRow(E, i);
    t := Ok(false);
  }

  /** `is_network_crossed(network)`. */
  method IsNetworkCrossed(network: Network, hit: Hit) returns (r: Result<bool>)
    ensures r == Crossed(FromAttributes(network.vertex), hit, Pairs(network.edges))
  {
    r := AnyCrossing(FromAttributes(network.vertex), hit, network.edges);
  }

  /** `are_network_edges_crossed(edges, vertices)`, with the coordinates
      given by the caller. */
  method AreNetworkEdgesCrossed(edges: seq<Edge>, vertices: map<Key, XY>, hit: Hit) returns (r: Result<bool>)
    ensures r == Crossed(Given(vertices), hit, Pairs(edges))
  {
    r := AnyCrossing(Given(vertices), hit, edges);
  }

  /** Both directions of the crossing test: when every end point has
      coordinates, the network is crossed exactly when some ordered pair
      of edges without a common end point passes the intersection test. */
  lemma CrossedIff(co: Coordinates, hit: Hit, E: seq<Edge>)
    requires forall e :: e in E ==> Lookup(co, e.0).Ok? && Lookup(co, e.1).Ok?
    ensures Crossed(co, hit, Pairs(E)).Ok?
    ensures Crossed(co, hit, Pairs(E)).value <==>
              exists e, f :: e in E && f in E && !SharesEnd((e, f)) && Test(co, hit, (e, f)) == Ok(true)
  {
    var ps := Pairs(E);
    forall x | x in ps ensures Test(co, hit, x).Ok? {
      RowsMembers(E, E, x);
    }
    FoundTotal(co, hit, ps);
    CountedIsFound(co, hit, ps);
    CrossedIsCountPositive(co, hit, ps);
    var F := Found(co, hit, ps).value;
    if |F| > 0 {
      FoundMembers(co, hit, ps, F[0]);
      RowsMembers(E, E, F[0]);
    }
    if exists e, f :: e in E && f in E && !SharesEnd((e, f)) && Test(co, hit, (e, f)) == Ok(true) {
      var e, f :| e in E && f in E && !SharesEnd((e, f)) && Test(co, hit, (e, f)) == Ok(true);
      RowsMembers(E, E, (e, f));
      FoundMembers(co, hit, ps, (e, f));
    }
  }

  /** With every lookup defined, the list of crossings raises nothing. */
  lemma {:induction false} FoundTotal(co: Coordinates, hit: Hit, ps: seq<EdgePair>)
    requires forall x :: x in ps ==> Test(co, hit, x).Ok?
    ensures Found(co, hit, ps).Ok?
    decreases |ps|
  {
    if ps != [] {
      var qs := ps[..|ps| - 1];
      assert forall x :: x in qs ==> x in ps;
      FoundTotal(co, hit, qs);
    }
  }

  // ---------------------------------------------------------------------------
  // is_network_2d and is_network_planar_embedding
  // ---------------------------------------------------------------------------

  /** `network[key].get('z', 0.0)`. */
  function Z(a: Attrs): Value {
    if "z" in a then a["z"] else Num(0.0)
  }

  /** `ks` is the order in which `for key in network` yields the vertex
      keys: each key of the network once. */
  ghost predicate Enumerates(ks: seq<Key>, vertex: map<Key, Attrs>) {
    && (forall i, j :: 0 <= i < j < |ks| ==> ks[i] != ks[j])
    && (forall i :: 0 <= i < |ks| ==> ks[i] in vertex)
    && (forall k :: k in vertex ==> k in ks)
  }

  /** The heights of the vertices `ks`, in that order. */
  function Heights(vertex: map<Key, Attrs>, ks: seq<Key>): (zs: seq<Value>)
    requires forall i :: 0 <= i < |ks| ==> ks[i] in vertex
    ensures |zs| == |ks| && forall i :: 0 <= i < |ks| ==> zs[i] == Z(vertex[ks[i]])
  {
    seq(|ks|, i requires 0 <= i < |ks| => Z(vertex[ks[i]]))
  }

  /** The scan of `is_network_2d` over the `z` values left, `z` being the
      value held (`Null` while it is `None`): a held `None` takes the next
      value, anything else must equal it. */
  function Flat(zs: seq<Value>, z: Value): (r: bool)
    ensures r && z != Null ==> forall i :: 0 <= i < |zs| ==> zs[i] == z
    decreases |zs|
  {
    if zs == [] then true
    else if z == Null then Flat(zs[1..], zs[0])
    else z == zs[0] && Flat(zs[1..], z)
  }

  /** `is_network_2d(network)`, visiting the vertices in the order `ks`
      in which the network yields its keys. */
  method IsNetwork2d(network: Network, ks: seq<Key>) returns (r: bool)
    requires Enumerates(ks, network.vertex)
    ensures r == Flat(Heights(network.vertex, ks), Null)
  {
    ghost var zs := Heights(network.vertex, ks);
    var z := Null;
    for i := 0 to |ks|
      invariant Flat(zs, Null) == Flat(zs[i..], z)
    {
      assert zs[i..][1..] == zs[i + 1..];
      var key := ks[i];
      if z == Null {
        z := Z(network.vertex[key]);
      } else if z != Z(network.vertex[key]) {
        return false;
      }
    }
    r := true;
  }

  /** Without `None` values, the scan says that all the `z` values are
      equal, in both directions; an empty network is flat. */
  lemma FlatIff(zs: seq<Value>)
    requires forall i :: 0 <= i < |zs| ==> zs[i] != Null
    ensures Flat(zs, Null) <==> forall i, j :: 0 <= i < |zs| && 0 <= j < |zs| ==> zs[i] == zs[j]
    ensures Flat([], Null)
  {
    if zs != [] {
      FlatHeld(zs[1..], zs[0]);
      if forall i, j :: 0 <= i < |zs| && 0 <= j < |zs| ==> zs[i] == zs[j] {
        forall i | 0 <= i < |zs[1..]| ensures zs[1..][i] == zs[0] {
          assert zs[1..][i] == zs[i + 1];
        }
      }
      if Flat(zs, Null) {
        forall i, j | 0 <= i < |zs| && 0 <= j < |zs| ensures zs[i] == zs[j] {
          if i > 0 { assert zs[i] == zs[1..][i - 1]; }
          if j > 0 { assert zs[j] == zs[1..][j - 1]; }
        }
      }
    }
  }

  /** With a value held and no `None` to come, the scan checks that every
      value equals it. */
  lemma {:induction false} FlatHeld(zs: seq<Value>, z: Value)
    requires z != Null && forall i :: 0 <= i < |zs| ==> zs[i] != Null
    ensures Flat(zs, z) <==> forall i :: 0 <= i < |zs| ==> zs[i] == z
    decreases |zs|
  {
    if zs != [] {
      FlatHeld(zs[1..], z);
      assert forall i :: 1 <= i < |zs| ==> zs[i] == zs[1..][i - 1];
    }
  }

  /** Without `None` heights, whatever order the network yields its keys
      in, it is flat iff all its vertices have the same height. */
  lemma FlatNetwork(network: Network, ks: seq<Key>)
    requires Enumerates(ks, network.vertex)
    requires forall k :: k in network.vertex ==> Z(network.vertex[k]) != Null
    ensures Flat(Heights(network.vertex, ks), Null) <==>
              forall a, b :: a in network.vertex && b in network.vertex ==> Z(network.vertex[a]) == Z(network.vertex[b])
  {
    var V, zs := network.vertex, Heights(network.vertex, ks);
    forall i | 0 <= i < |zs| ensures zs[i] != Null {
      var k := ks[i];
      assert k in V && Z(V[k]) != Null;
    }
    FlatIff(zs);
    if forall i, j :: 0 <= i < |zs| && 0 <= j < |zs| ==> zs[i] == zs[j] {
      forall a, b | a in V && b in V ensures Z(V[a]) == Z(V[b]) {
        var i :| 0 <= i < |ks| && ks[i] == a;
        var j :| 0 <= j < |ks| && ks[j] == b;
        assert zs[i] == zs[j];
      }
    }
  }

  /** A `z` of `None` lets the next vertex set the height anew, so
      different heights around it still count as flat. */
  lemma NoneResetsHeight()
    ensures Flat([Null, Num(1.0)], Null)
    ensures Flat([Num(1.0), Null], Null) == false
  {
    assert [Null, Num(1.0)][1..] == [Num(1.0)];
    assert [Num(1.0), Null][1..] == [Null];
  }

  /** `is_network_planar_embedding(network)`: planar, flat and not
      crossed, evaluated left to right with short-circuiting; the
      planarity answer is a parameter. */
  function PlanarEmbedding(planar: bool, network: Network, ks: seq<Key>, hit: Hit): (r: Result<bool>)
    requires Enumerates(ks, network.vertex)
    ensures r == Ok(true) <==>
              && planar
              && Flat(Heights(network.vertex, ks), Null)
              && Crossed(FromAttributes(network.vertex), hit, Pairs(network.edges)) == Ok(false)
    ensures !planar ==> r == Ok(false)
  {
    if !planar then Ok(false)
    else if !Flat(Heights(network.vertex, ks), Null) then Ok(false)
    else
      var c := Crossed(FromAttributes(network.vertex), hit, Pairs(network.edges));
      if c.Err? then Err(c.error) else Ok(!c.value)
  }
}
