/** Counting the entries of a map that point at a given layer. */
module Pointers {
  import opened Wrappers
  import opened ChainIDs

  ghost function Pointing<K>(m: map<K, Option<ChainID>>, c: ChainID): set<K> {
    set k | k in m && m[k] == Some(c)
  }

  /** Every pointer of `m` is in `s`. */
  ghost predicate Within<K>(m: map<K, Option<ChainID>>, s: set<ChainID>) {
    forall c :: c !in s ==> Pointing(m, c) == {}
  }

  lemma PointsWithin<K>(m: map<K, Option<ChainID>>, s: set<ChainID>, k: K)
    requires Within(m, s) && k in m && m[k].Some?
    ensures m[k].value in s
  {
    assert k in Pointing(m, m[k].value);
  }

  /** 1 when `o` points at `c`, else 0. */
  function At(o: Option<ChainID>, c: ChainID): nat {
    if o == Some(c) then 1 else 0
  }

  lemma PointingInsert<K>(m: map<K, Option<ChainID>>, k: K, o: Option<ChainID>, c: ChainID)
    requires k !in m
    ensures |Pointing(m[k := o], c)| == |Pointing(m, c)| + At(o, c)
  {
    if o == Some(c) {
      assert Pointing(m[k := o], c) == Pointing(m, c) + {k};
    } else {
      assert Pointing(m[k := o], c) == Pointing(m, c);
    }
  }

  lemma PointingRemove<K>(m: map<K, Option<ChainID>>, k: K, c: ChainID)
    requires k in m
    ensures |Pointing(m - {k}, c)| + At(m[k], c) == |Pointing(m, c)|
  {
    if m[k] == Some(c) {
      assert Pointing(m, c) == Pointing(m - {k}, c) + {k};
    } else {
      assert Pointing(m - {k}, c) == Pointing(m, c);
    }
  }
}
