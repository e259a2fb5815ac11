/** JavaScript's Set read back in iteration order: the getAvailable* facets
    and the genre Set of calculateIntegratedRanking both rely on it. */
module OrderedSets {
  import opened Sorting

  /** `new Set(values)` read back in iteration order: each value once, in the
      order of its first appearance. */
  function Distinct(s: seq<string>): (r: seq<string>)
    ensures NoDuplicates(r)
    ensures forall x :: x in r <==> x in s
  {
    if s == [] then []
    else
      var init, last := s[..|s| - 1], s[|s| - 1];
      assert s == init + [last];
      var seen := Distinct(init);
      if last in seen then seen else seen + [last]
  }

  /** The first value of a Set built from s is the first value of s. */
  lemma {:induction false} DistinctHead(s: seq<string>)
    requires s != []
    ensures Distinct(s) != [] && Distinct(s)[0] == s[0]
  {
    if |s| > 1 {
      var init := s[..|s| - 1];
      DistinctHead(init);
      assert init[0] == s[0];
    }
  }
}
