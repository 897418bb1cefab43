// Values and small functions that several modules share.

module MemoryValues {
  type Id = string
  type Time = int

  const LONG_TERM := "long_term"

  /** A relation is identified by its end points and its id. */
  datatype RelationKey = RelationKey(source: Id, id: Id, target: Id)

  ghost predicate Distinct<T>(items: seq<T>) {
    forall i, j :: 0 <= i < j < |items| ==> items[i] != items[j]
  }

  /** `n` lookups in the map, stopping where there is nothing to look up. */
  function Follow(m: map<Id, Id>, id: Id, n: nat): Id
    decreases n
  {
    if n == 0 || id !in m then id else Follow(m, m[id], n - 1)
  }

  function MaxReal(a: real, b: real): real {
    if a >= b then a else b
  }

  function MaxInt(a: int, b: int): int {
    if a >= b then a else b
  }
}
