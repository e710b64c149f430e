/**
 * The dynamically typed values a YAML decoder hands to the generator's data
 * loader and to the data-update tool: Go's interface{} as a datatype.
 */
module Dynamic {

  /**
   * A decoded scalar. Go's dynamic types int, int64 and float64 are kept
   * apart because the code treats them differently; a float64 is modelled by
   * the integer it truncates to (the only thing the code ever uses).
   */
  datatype Scalar =
    | GoInt(n: int)
    | GoInt64(n: int)
    | GoFloat64(n: int)
    | GoString(s: string)
    | GoBool(b: bool)

  /** A decoded YAML value, one variant per dynamic type the code switches on. */
  datatype Node =
    | IntMap(entries: map<int, Node>)        // map[int]interface{}
    | AnyMap(pairs: map<Scalar, Node>)       // map[interface{}]interface{}
    | IntList(ints: seq<int>)                // []int
    | AnyList(items: seq<Node>)              // []interface{}
    | Nil                                    // nil
    | Atom(value: Scalar)                    // any other scalar

  // A non-empty set has an element; stated per key type, for the choices
  // the map walks below make.

  lemma NonEmptyInts(ks: set<int>)
    requires ks != {}
    ensures exists k :: k in ks
  {
    if forall k :: k !in ks { assert false; }
  }

  lemma NonEmptyScalars(ks: set<Scalar>)
    requires ks != {}
    ensures exists k :: k in ks
  {
    if forall k :: k !in ks { assert false; }
  }

  lemma NonEmptyStrings(ks: set<string>)
    requires ks != {}
    ensures exists k :: k in ks
  {
    if forall k :: k !in ks { assert false; }
  }
}
