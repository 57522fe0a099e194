/** Finite sets, and the places of a sequence. */
module Sets {

  lemma {:induction false} SubsetSize<T>(a: set<T>, b: set<T>)
    requires a <= b
    ensures |a| <= |b|
  {
    if a != {} {
      var x :| x in a;
      SubsetSize(a - {x}, b - {x});
    }
  }

  /** The places of `s` whose element is as `p` says. */
  ghost function Places<T>(s: seq<T>, p: T -> bool): set<nat> {
    set i: nat | i < |s| && p(s[i])
  }

  lemma NoPlaces<T>(p: T -> bool)
    ensures |Places([], p)| == 0
  {
    assert Places([], p) == {};
  }

  lemma PlacesMore<T>(s: seq<T>, p: T -> bool)
    requires s != []
    ensures |Places(s, p)| == |Places(s[..|s| - 1], p)| + if p(s[|s| - 1]) then 1 else 0
  {
    var n := |s| - 1;
    assert Places(s, p) == Places(s[..n], p) + if p(s[n]) then {n} else {};
  }
}
