/**
 * The priority directory of the cache at the level of ring order: `mPriorityItems` (priority to
 * anchor) together with each priority's ring listed from its anchor, and the ring operations
 * `list_push_back`/`list_insert`, `list_rebuild` and `list_remove` as they change that order.
 */
module Directory {
  import opened CTypes
  import opened Rings

  /** The data fields of an `Item`: its key, payload, priority and expiry time. */
  datatype Record = Record(key: string, value: Int32, priority: Int32, expireTime: Int32)

  /**
   * `anchors` is `mPriorityItems`. `rings[p]` lists the items still linked into priority p's
   * ring, starting from the anchor when the anchor is one of them.
   */
  datatype Dir = Dir(anchors: map<Int32, Handle>, rings: map<Int32, seq<Handle>>)

  /** Priority p's anchor is the first member of its ring. */
  predicate Sound(d: Dir, p: Int32)
  {
    p in d.anchors && p in d.rings && d.rings[p] != [] && d.rings[p][0] == d.anchors[p]
  }

  /**
   * The directory is well formed over the arena `nodes`: one ring per registered priority,
   * rings without repeats, every member carrying its ring's priority, and every anchor either
   * the first member of its ring or (a stale anchor, left by `list_remove`) no member at all.
   */
  ghost predicate DirOK(d: Dir, nodes: map<Handle, Record>)
  {
    KeysMatch(d) && RingsDistinct(d) && MembersTyped(d, nodes) && AnchorsOK(d, nodes)
  }

  /** Every registered priority has a ring and every ring a registered priority. */
  ghost predicate KeysMatch(d: Dir)
  {
    d.anchors.Keys == d.rings.Keys
  }

  ghost predicate RingsDistinct(d: Dir)
  {
    forall p | p in d.rings :: Distinct(d.rings[p])
  }

  /** Every member of priority p's ring is an item of priority p. */
  ghost predicate MembersTyped(d: Dir, nodes: map<Handle, Record>)
  {
    forall p, x | p in d.rings && x in d.rings[p] :: x in nodes && nodes[x].priority == p
  }

  /** Every anchor is an item of its priority that is either first in its ring or in no ring. */
  ghost predicate AnchorsOK(d: Dir, nodes: map<Handle, Record>)
  {
    forall p | p in d.anchors ::
      && d.anchors[p] in nodes && nodes[d.anchors[p]].priority == p
      && (Sound(d, p) || (p in d.rings && d.anchors[p] !in d.rings[p]))
  }

  /** `list_push_back` dereferences the anchor's prev: the priority is new or its anchor sound. */
  ghost predicate PushSafe(d: Dir, p: Int32)
  {
    p in d.anchors ==> Sound(d, p)
  }

  /** `list_push_back`: a new one-element ring anchored at `h`, or `h` appended after the tail. */
  function PushBack(d: Dir, p: Int32, h: Handle): Dir
    requires PushSafe(d, p)
  {
    if p in d.anchors then Dir(d.anchors, d.rings[p := d.rings[p] + [h]])
    else Dir(d.anchors[p := h], d.rings[p := [h]])
  }

  /**
   * `list_rebuild` keeps the ring a ring only on a member of a sound ring that is alone in it
   * or is neither the anchor nor the anchor's predecessor.
   */
  ghost predicate TouchSafe(d: Dir, p: Int32, x: Handle)
  {
    && Sound(d, p) && x in d.rings[p]
    && (|d.rings[p]| == 1 || (x != d.rings[p][0] && x != d.rings[p][|d.rings[p]| - 1]))
  }

  /** `list_rebuild` on a safe member: it becomes the most recently used, just before the anchor. */
  function Touch(d: Dir, p: Int32, x: Handle): Dir
    requires TouchSafe(d, p, x)
  {
    var s := d.rings[p];
    Dir(d.anchors, d.rings[p := MoveToBack(s, IndexOf(s, x))])
  }

  /**
   * `list_remove` on a member of a sound ring: when the anchor is its own successor (a ring of
   * one) the priority is erased; otherwise the item is unlinked and the anchor is left as it
   * was, even when the removed item is the anchor itself.
   */
  function Remove(d: Dir, p: Int32, x: Handle): Dir
    requires Sound(d, p) && x in d.rings[p]
  {
    var s := d.rings[p];
    if |s| == 1 then Dir(d.anchors - {p}, d.rings - {p})
    else Dir(d.anchors, d.rings[p := RemoveAt(s, IndexOf(s, x))])
  }

  /** A member of a well-formed directory is in the arena and carries its ring's priority. */
  lemma MemberPriority(d: Dir, nodes: map<Handle, Record>, p: Int32, x: Handle)
    requires DirOK(d, nodes) && p in d.rings && x in d.rings[p]
    ensures x in nodes && nodes[x].priority == p
    ensures forall q | q in d.rings && x in d.rings[q] :: q == p
  {
  }

  /**
   * Replacing priority p's anchor and ring by `a` and `t` keeps the directory well formed when
   * `t` has no repeats, holds items of priority p only, and `a` is an item of priority p that is
   * either first in `t` or not in it.
   */
  lemma ReplaceOK(d: Dir, nodes: map<Handle, Record>, p: Int32, a: Handle, t: seq<Handle>, r: Dir)
    requires DirOK(d, nodes)
    requires Distinct(t) && forall y | y in t :: y in nodes && nodes[y].priority == p
    requires a in nodes && nodes[a].priority == p && ((t != [] && t[0] == a) || a !in t)
    requires r.anchors == d.anchors[p := a] && r.rings == d.rings[p := t]
    ensures DirOK(r, nodes)
  {
    assert MembersTyped(r, nodes) by {
      forall q, y | q in r.rings && y in r.rings[q] ensures y in nodes && nodes[y].priority == q {
        if q != p { assert y in d.rings[q]; }
      }
    }
    assert AnchorsOK(r, nodes) by {
      forall q | q in r.anchors
        ensures && r.anchors[q] in nodes && nodes[r.anchors[q]].priority == q
                && (Sound(r, q) || (q in r.rings && r.anchors[q] !in r.rings[q]))
      {
        if q != p { assert Sound(r, q) == Sound(d, q); }
      }
    }
  }

  /** Erasing priority p altogether keeps the directory well formed. */
  lemma EraseOK(d: Dir, nodes: map<Handle, Record>, p: Int32)
    requires DirOK(d, nodes)
    ensures DirOK(Dir(d.anchors - {p}, d.rings - {p}), nodes)
  {
    var r := Dir(d.anchors - {p}, d.rings - {p});
    assert AnchorsOK(r, nodes) by {
      forall q | q in r.anchors
        ensures && r.anchors[q] in nodes && nodes[r.anchors[q]].priority == q
                && (Sound(r, q) || (q in r.rings && r.anchors[q] !in r.rings[q]))
      {
        assert Sound(r, q) == Sound(d, q);
      }
    }
  }

  /** Rewriting the record of an item that is in no ring and anchors nothing keeps the directory well formed. */
  lemma RetypeOK(d: Dir, nodes: map<Handle, Record>, x: Handle, rec: Record)
    requires DirOK(d, nodes)
    requires forall p | p in d.rings :: x !in d.rings[p]
    requires forall p | p in d.anchors :: d.anchors[p] != x
    ensures DirOK(d, nodes[x := rec])
  {
    var nodes' := nodes[x := rec];
    assert MembersTyped(d, nodes') by {
      forall p, y | p in d.rings && y in d.rings[p] ensures y in nodes' && nodes'[y].priority == p {
        assert y != x;
      }
    }
  }

  /** Well-formedness depends on the records only through their priorities. */
  lemma KeepPrioritiesOK(d: Dir, nodes: map<Handle, Record>, nodes': map<Handle, Record>)
    requires DirOK(d, nodes)
    requires forall h | h in nodes :: h in nodes' && nodes'[h].priority == nodes[h].priority
    ensures DirOK(d, nodes')
  {
    forall p, x | p in d.rings && x in d.rings[p] ensures x in nodes' && nodes'[x].priority == p {
      assert x in nodes;
    }
    forall p | p in d.anchors ensures d.anchors[p] in nodes' && nodes'[d.anchors[p]].priority == p {
      var a := d.anchors[p];
      assert a in nodes && nodes[a].priority == p;
      assert nodes'[a].priority == nodes[a].priority;
    }
  }

  /**
   * Pushing an item of priority p that is in no ring keeps the directory well formed: p's
   * ring is sound, `h` is its tail, the anchor is kept when there was one and is `h` when the
   * ring is new, and every other priority is unchanged.
   */
  lemma PushBackOK(d: Dir, nodes: map<Handle, Record>, p: Int32, h: Handle)
    requires DirOK(d, nodes) && PushSafe(d, p)
    requires h in nodes && nodes[h].priority == p && (p in d.rings ==> h !in d.rings[p])
    ensures var r := PushBack(d, p, h);
            && DirOK(r, nodes) && Sound(r, p)
            && r.rings[p] == (if p in d.rings then d.rings[p] else []) + [h]
            && r.anchors[p] == (if p in d.anchors then d.anchors[p] else h)
            && (forall q | q != p :: (q in r.rings <==> q in d.rings) && (q in r.rings ==> r.rings[q] == d.rings[q] && r.anchors[q] == d.anchors[q]))
  {
    var r := PushBack(d, p, h);
    if p in d.anchors {
      var s := d.rings[p];
      var a := d.anchors[p];
      assert Distinct(s + [h]) by {
        forall i, j | 0 <= i < j < |s + [h]| ensures (s + [h])[i] != (s + [h])[j] {
          if j == |s| { assert s[i] in s; }
        }
      }
      forall y | y in s + [h] ensures y in nodes && nodes[y].priority == p {
        if y != h {
          assert y in s;
          MemberPriority(d, nodes, p, y);
        }
      }
      assert r.anchors == d.anchors[p := a];
      ReplaceOK(d, nodes, p, a, s + [h], r);
    } else {
      ReplaceOK(d, nodes, p, h, [h], r);
    }
  }

  /**
   * Touching a safe member keeps the directory well formed, priority p sound and every anchor
   * in place, and changes no other priority's ring.
   */
  lemma TouchOK(d: Dir, nodes: map<Handle, Record>, p: Int32, x: Handle)
    requires DirOK(d, nodes) && TouchSafe(d, p, x)
    ensures var r := Touch(d, p, x);
            && DirOK(r, nodes) && Sound(r, p)
            && r.anchors == d.anchors && r.rings.Keys == d.rings.Keys
            && (forall q | q in r.rings && q != p :: r.rings[q] == d.rings[q])
  {
    var s := d.rings[p];
    var j := IndexOf(s, x);
    var a := d.anchors[p];
    MoveToBackMembers(s, j);
    var r := Touch(d, p, x);
    var s' := MoveToBack(s, j);
    assert s'[0] == s[0] by {
      if |s| > 1 { assert j != 0; }
    }
    forall y | y in s' ensures y in nodes && nodes[y].priority == p {
      MemberPriority(d, nodes, p, y);
    }
    assert r.anchors == d.anchors[p := a] && r.rings == d.rings[p := s'];
    ReplaceOK(d, nodes, p, a, s', r);
    assert r.rings.Keys == d.rings.Keys;
  }

  /**
   * Touching a safe member keeps the members of its ring and makes it the tail, the others
   * keeping their order.
   */
  lemma TouchOrder(d: Dir, p: Int32, x: Handle)
    requires RingsDistinct(d) && TouchSafe(d, p, x)
    ensures var s, s' := d.rings[p], Touch(d, p, x).rings[p];
            && multiset(s') == multiset(s) && (forall y :: y in s' <==> y in s)
            && |s'| == |s| && s'[|s'| - 1] == x
            && s'[..|s'| - 1] == RemoveAt(s, IndexOf(s, x))
  {
    var s := d.rings[p];
    var j := IndexOf(s, x);
    MoveToBackMembers(s, j);
    assert MoveToBack(s, j)[..|s| - 1] == RemoveAt(s, j);
  }

  /**
   * Removing a member of a sound ring keeps the directory well formed and drops exactly that
   * item: it is then in no ring, every other priority is unchanged, and priority p's other
   * members keep their order. A ring of one is erased; otherwise the anchor stays, and when
   * the removed item was that anchor priority p is left with a stale anchor.
   */
  lemma RemoveOK(d: Dir, nodes: map<Handle, Record>, p: Int32, x: Handle)
    requires DirOK(d, nodes) && Sound(d, p) && x in d.rings[p]
    ensures var r := Remove(d, p, x);
            var s := d.rings[p];
            && DirOK(r, nodes)
            && (forall q | q in r.rings :: x !in r.rings[q])
            && (forall q | q != p :: (q in r.rings <==> q in d.rings) && (q in r.rings ==> r.rings[q] == d.rings[q] && r.anchors[q] == d.anchors[q]))
            && (|s| == 1 ==> p !in r.anchors && p !in r.rings)
            && (|s| > 1 ==>
                  && p in r.anchors && r.anchors[p] == d.anchors[p]
                  && r.rings[p] == RemoveAt(s, IndexOf(s, x))
                  && (forall y :: y in r.rings[p] <==> y in s && y != x)
                  && (Sound(r, p) <==> x != d.anchors[p]))
  {
    var s := d.rings[p];
    var r := Remove(d, p, x);
    MemberPriority(d, nodes, p, x);
    if |s| == 1 {
      EraseOK(d, nodes, p);
    } else {
      var j := IndexOf(s, x);
      var a := d.anchors[p];
      RemoveAtMembers(s, j);
      var s' := RemoveAt(s, j);
      forall y | y in s' ensures y in nodes && nodes[y].priority == p {
        assert y in s;
        MemberPriority(d, nodes, p, y);
      }
      if x == a {
        assert a !in s';
      } else {
        assert j != 0 && s'[0] == s[0];
      }
      assert r.anchors == d.anchors[p := a];
      ReplaceOK(d, nodes, p, a, s', r);
    }
  }
}
