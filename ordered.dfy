/** The part of `std::map` the cache relies on beyond plain map operations: `begin()`. */
module OrderedMaps {
  import opened CTypes

  /** Is `k` the least element of `s`? */
  ghost predicate IsLeast(k: Int32, s: set<Int32>)
  {
    k in s && forall j | j in s :: k <= j
  }

  /** A least element of a non-empty set of keys, found by taking one element out at a time. */
  ghost function Least(s: set<Int32>): (k: Int32)
    requires s != {}
    ensures IsLeast(k, s)
    decreases |s|
  {
    var x :| x in s;
    if s == {x} then x
    else
      var k := Least(s - {x});
      assert forall j | j in s :: j == x || j in s - {x};
      if x < k then x else k
  }

  /** The least element is unique. */
  lemma LeastUnique(k: Int32, s: set<Int32>)
    requires IsLeast(k, s)
    ensures s != {} && k == Least(s)
  {
  }

  /** The key of `m.begin()`: the least key of a non-empty ordered map. */
  ghost function MinKey<V>(m: map<Int32, V>): (k: Int32)
    requires m != map[]
    ensures IsLeast(k, m.Keys)
  {
    assert m.Keys != {} by { var x :| x in m; assert x in m.Keys; }
    Least(m.Keys)
  }

  /** `m.begin()->first`: picks the key no other key of `m` is below. */
  method First<V>(m: map<Int32, V>) returns (k: Int32)
    requires m != map[]
    ensures k in m && k == MinKey(m)
  {
    assert MinKey(m) in m;
    k :| k in m && forall j | j in m :: k <= j;
    LeastUnique(k, m.Keys);
  }
}
