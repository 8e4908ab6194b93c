/** Go's map iteration order, for maps keyed by process id. */
module MapOrder {

  type Pid = int

  ghost predicate Distinct(s: seq<Pid>) {
    forall i, j :: 0 <= i < j < |s| ==> s[i] != s[j]
  }

  /** An iteration order: every key once. */
  ghost predicate Enumerates(order: seq<Pid>, keys: set<Pid>) {
    Distinct(order) && forall p :: p in order <==> p in keys
  }
}
