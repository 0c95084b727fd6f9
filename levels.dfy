/** The level map built by the parser and read by the layout. */
module Levels {

  /** `BTreeMap<i32, Vec<String>>`: level index to its labels, in input order. */
  type LevelMap = map<int, seq<string>>

  /** The indices `0..n-1`. */
  ghost function Range(n: nat): (r: set<int>)
    ensures forall i :: i in r <==> 0 <= i < n
    ensures |r| == n
  {
    if n == 0 then {} else Range(n - 1) + {n - 1}
  }

  /** The keys of `m` are exactly `0, 1, ..., |m| - 1`. */
  ghost predicate Contiguous(m: LevelMap) {
    m.Keys == Range(|m|)
  }

  /**
   * A map with `n` keys that holds every index below `n` holds nothing else:
   * this is why `validate_map` only needs to look up `0..len`.
   */
  lemma {:induction false} CoveredMeansContiguous(m: LevelMap)
    requires forall i :: 0 <= i < |m| ==> i in m
    ensures Contiguous(m)
  {
    var r := Range(|m|);
    assert r <= m.Keys;
    var rest := m.Keys - r;
    assert m.Keys == r + rest && r * rest == {};
    assert |m.Keys| == |r| + |rest|;
    assert rest == {};
  }
}
