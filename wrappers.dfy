/** Option, Result and the Python exceptions that the modelled code can raise. */
module Wrappers {

  datatype Option<+T> = None | Some(value: T)

  /** The exceptions the modelled functions raise, by their Python names. */
  datatype Error =
    | ValueError         // bad parameter, or `max` of an empty sequence
    | KeyError           // dictionary lookup of a missing key
    | TypeError          // an operand of the wrong type (`None / x`, `float(None)`)
    | ZeroDivisionError  // division by zero
    | IndexError         // `vertices[-1]` of an empty list
    | MeshError          // raised by TriMesh.add_face
    | TopologyError      // refused by the base add_face

  datatype Result<+T> = Ok(value: T) | Err(error: Error)

  function Get<K, V>(m: map<K, V>, k: K): (r: Option<V>)
    ensures r.Some? <==> k in m
    ensures r.Some? ==> r.value == m[k]
  {
    if k in m then Some(m[k]) else None
  }

  /** Some member of a non-empty set. */
  lemma Pick<T>(S: set<T>) returns (x: T)
    requires S != {}
    ensures x in S
  {
    x :| x in S;
  }
}
