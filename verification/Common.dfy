/** What several components need and no source file has of its own. */
module Wrappers {
  datatype Option<+T> = None | Some(value: T)
}

module Numbers {
  function Min(a: nat, b: nat): nat { if a < b then a else b }
}

module Sequences {
  function Filled<T>(x: T, n: nat): (s: seq<T>)
    ensures |s| == n
  {
    seq(n, _ => x)
  }
}

module Sets {
  lemma SubsetSize<T>(a: set<T>, b: set<T>)
    requires a <= b
    ensures |a| <= |b|
    ensures |a| == |b| ==> a == b
  {
    assert b == a + (b - a);
  }
}

module Powers {
  function Pow2(e: nat): (p: nat)
    ensures p >= 1
  {
    if e == 0 then 1 else 2 * Pow2(e - 1)
  }
}
