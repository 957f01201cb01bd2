/**
 * Release versions as already-parsed (major, minor, patch) triples, their
 * precedence, and the maximum of a non-empty list of them.
 */
module Versions {
  import opened Wrappers

  type Region = string

  datatype Version = Version(major: nat, minor: nat, patch: nat)

  /** A semantic-version parser: partial, so it may fail on a string. */
  type Parser = string -> Option<Version>

  /** Strict precedence: major first, then minor, then patch. */
  predicate Below(a: Version, b: Version): (r: bool)
    ensures r ==> a != b
    ensures a.major != b.major ==> (r <==> a.major < b.major)
  {
    || a.major < b.major
    || (a.major == b.major && a.minor < b.minor)
    || (a.major == b.major && a.minor == b.minor && a.patch < b.patch)
  }

  predicate AtMost(a: Version, b: Version): (r: bool)
    ensures r <==> !Below(b, a)
  {
    a == b || Below(a, b)
  }

  lemma AtMostIsTotalOrder(a: Version, b: Version, c: Version)
    ensures AtMost(a, a)
    ensures AtMost(a, b) || AtMost(b, a)
    ensures AtMost(a, b) && AtMost(b, a) ==> a == b
    ensures AtMost(a, b) && AtMost(b, c) ==> AtMost(a, c)
  {
  }

  /**
   * The larger of two versions, keeping the first when neither is above the
   * other, as Python's `max` replaces its running maximum only on a strictly
   * greater item.
   */
  function Max(a: Version, b: Version): (r: Version)
    ensures AtMost(a, r) && AtMost(b, r)
    ensures r == a || r == b
  {
    if Below(a, b) then b else a
  }

  /** `max(versions)` over a non-empty list, folded from the left. */
  function MaxOf(vs: seq<Version>): (r: Version)
    requires |vs| > 0
    ensures r in vs
    ensures forall v :: v in vs ==> AtMost(v, r)
  {
    if |vs| == 1 then vs[0] else Max(MaxOf(vs[..|vs| - 1]), vs[|vs| - 1])
  }

  /** An upper bound that belongs to the list is the one `MaxOf` returns. */
  lemma MaxOfIsTheUpperBoundInList(vs: seq<Version>, m: Version)
    requires m in vs
    requires forall v :: v in vs ==> AtMost(v, m)
    ensures MaxOf(vs) == m
  {
    var r := MaxOf(vs);
    AtMostIsTotalOrder(r, m, m);
  }
}
