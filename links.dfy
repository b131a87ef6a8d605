/**
 * The pointer writes of `list_rebuild`, `list_insert`, `list_push_back` and `list_remove`
 * on the `next`/`prev` links of every ring at once: each keeps every ring linked as the
 * directory says it is ordered after the operation.
 */
module Links {
  import opened CTypes
  import opened Rings
  import opened Directory

  /** Every ring of the directory is linked by `next` and `prev`. */
  ghost predicate AllLinked(next: map<Handle, Handle>, prev: map<Handle, Handle>, rings: map<Int32, seq<Handle>>)
  {
    forall p | p in rings :: Linked(next, prev, rings[p])
  }

  /** Writes confined to the handles `w`, none of them in a ring other than p's, keep those rings linked. */
  lemma OthersLinked(next: map<Handle, Handle>, prev: map<Handle, Handle>,
                     next': map<Handle, Handle>, prev': map<Handle, Handle>,
                     d: Dir, nodes: map<Handle, Record>, p: Int32, w: set<Handle>)
    requires DirOK(d, nodes) && AllLinked(next, prev, d.rings)
    requires forall y | y in next && y !in w :: y in next' && next'[y] == next[y]
    requires forall y | y in prev && y !in w :: y in prev' && prev'[y] == prev[y]
    requires forall y | y in w :: y !in nodes || nodes[y].priority == p
    ensures forall q | q in d.rings && q != p :: Linked(next', prev', d.rings[q])
  {
    forall q | q in d.rings && q != p
      ensures Linked(next', prev', d.rings[q])
    {
      var s := d.rings[q];
      forall y | y in s
        ensures y in next && y in prev && y in next' && next'[y] == next[y] && y in prev' && prev'[y] == prev[y]
      {
        MemberPriority(d, nodes, q, y);
        var i :| 0 <= i < |s| && s[i] == y;
        assert LinkedAt(next, prev, s, i);
      }
      LinkedFrame(next, prev, next', prev', s);
    }
  }

  /** The links of a member of a linked ring: the ring's neighbours of its position. */
  lemma MemberLinks(next: map<Handle, Handle>, prev: map<Handle, Handle>, s: seq<Handle>, j: nat)
    requires Linked(next, prev, s) && j < |s|
    ensures s[j] in next && next[s[j]] == Succ(s, j) && s[j] in prev && prev[s[j]] == Pred(s, j)
  {
    assert LinkedAt(next, prev, s, j);
  }

  /**
   * `list_rebuild` on a safely touched member (`head` the anchor, `tail` its prev): the
   * writes leave every ring linked in the order `Touch` gives.
   */
  lemma RebuildLinked(next: map<Handle, Handle>, prev: map<Handle, Handle>, d: Dir, nodes: map<Handle, Record>, p: Int32, x: Handle)
    requires DirOK(d, nodes) && AllLinked(next, prev, d.rings) && TouchSafe(d, p, x)
    ensures var head := d.anchors[p];
            && head in prev && x in prev && x in next
            && var tail := prev[head];
               AllLinked(next[prev[x] := next[x]][tail := x][x := head],
                         prev[next[x] := prev[x]][x := tail][head := x],
                         Touch(d, p, x).rings)
  {
    var s := d.rings[p];
    var j := IndexOf(s, x);
    MemberLinks(next, prev, s, 0);
    MemberLinks(next, prev, s, j);
    MemberLinks(next, prev, s, |s| - 1);
    if |s| == 1 {
      RebuildLinkedAlone(next, prev, d, p, x);
    } else {
      RebuildLinkedInside(next, prev, d, nodes, p, x);
    }
  }

  /**
   * On the only member of its ring every write of `list_rebuild` rewrites a link as it was:
   * the links, and the ring, are left unchanged.
   */
  lemma RebuildLinkedAlone(next: map<Handle, Handle>, prev: map<Handle, Handle>, d: Dir, p: Int32, x: Handle)
    requires AllLinked(next, prev, d.rings) && TouchSafe(d, p, x) && |d.rings[p]| == 1
    ensures var head := d.anchors[p];
            && head in prev && x in prev && x in next
            && var tail := prev[head];
               && AllLinked(next[prev[x] := next[x]][tail := x][x := head],
                            prev[next[x] := prev[x]][x := tail][head := x],
                            Touch(d, p, x).rings)
               && next[prev[x] := next[x]][tail := x][x := head] == next
               && prev[next[x] := prev[x]][x := tail][head := x] == prev
               && Touch(d, p, x) == d
  {
    var s := d.rings[p];
    MemberLinks(next, prev, s, 0);
    assert LinkedAt(next, prev, d.rings[p], 0);
    assert x == s[0];
    assert next[x := x][x := x][x := x] == next;
    assert prev[x := x][x := x][x := x] == prev;
    assert MoveToBack(s, 0) == s;
    assert Touch(d, p, x).rings == d.rings;
  }

  /** On a member that is neither the anchor nor the tail, `list_rebuild` moves it to the back. */
  lemma RebuildLinkedInside(next: map<Handle, Handle>, prev: map<Handle, Handle>, d: Dir, nodes: map<Handle, Record>, p: Int32, x: Handle)
    requires DirOK(d, nodes) && AllLinked(next, prev, d.rings) && TouchSafe(d, p, x) && |d.rings[p]| > 1
    ensures var head := d.anchors[p];
            && head in prev && x in prev && x in next
            && var tail := prev[head];
               AllLinked(next[prev[x] := next[x]][tail := x][x := head],
                         prev[next[x] := prev[x]][x := tail][head := x],
                         Touch(d, p, x).rings)
  {
    var s := d.rings[p];
    var n := |s|;
    var j := IndexOf(s, x);
    assert 0 < j < n - 1;
    MemberLinks(next, prev, s, 0);
    MemberLinks(next, prev, s, j);
    MemberLinks(next, prev, s, n - 1);
    var next': map<Handle, Handle> := next[s[j - 1] := s[j + 1]][s[n - 1] := s[j]][s[j] := s[0]];
    var prev': map<Handle, Handle> := prev[s[j + 1] := s[j - 1]][s[j] := s[n - 1]][s[0] := s[j]];
    LinkedMoveToBack(next, prev, s, j);
    var w := {s[j - 1], s[j + 1], s[n - 1], s[j], s[0]};
    forall y | y in w ensures y !in nodes || nodes[y].priority == p {
      MemberPriority(d, nodes, p, y);
    }
    OthersLinked(next, prev, next', prev', d, nodes, p, w);
  }

  /**
   * `list_insert`, and `list_push_back` on a registered priority: linking an item of priority p
   * that is in no ring between the tail and the anchor of p's sound ring appends it.
   */
  lemma InsertLinked(next: map<Handle, Handle>, prev: map<Handle, Handle>, d: Dir, nodes: map<Handle, Record>, p: Int32, h: Handle)
    requires DirOK(d, nodes) && AllLinked(next, prev, d.rings) && Sound(d, p)
    requires h in nodes && nodes[h].priority == p && h !in d.rings[p]
    ensures var head := d.anchors[p];
            && head in prev
            && var tail := prev[head];
               AllLinked(next[tail := h][h := head], prev[h := tail][head := h], PushBack(d, p, h).rings)
  {
    var s := d.rings[p];
    var n := |s|;
    MemberLinks(next, prev, s, 0);
    var next': map<Handle, Handle> := next[s[n - 1] := h][h := s[0]];
    var prev': map<Handle, Handle> := prev[h := s[n - 1]][s[0] := h];
    LinkedPushBack(next, prev, s, h);
    var w := {s[n - 1], h, s[0]};
    forall y | y in w ensures y !in nodes || nodes[y].priority == p {
      if y != h { MemberPriority(d, nodes, p, y); }
    }
    OthersLinked(next, prev, next', prev', d, nodes, p, w);
  }

  /** `list_push_back` on a new priority: an item linked to itself is a ring of one. */
  lemma NewRingLinked(next: map<Handle, Handle>, prev: map<Handle, Handle>, d: Dir, nodes: map<Handle, Record>, p: Int32, h: Handle)
    requires DirOK(d, nodes) && AllLinked(next, prev, d.rings) && p !in d.anchors
    requires h in nodes && nodes[h].priority == p
    ensures AllLinked(next[h := h], prev[h := h], PushBack(d, p, h).rings)
  {
    var next': map<Handle, Handle> := next[h := h];
    var prev': map<Handle, Handle> := prev[h := h];
    assert LinkedAt(next', prev', [h], 0);
    OthersLinked(next, prev, next', prev', d, nodes, p, {h});
  }

  /**
   * `list_remove` on a member of a sound ring of two or more: bridging its neighbours and
   * clearing its own links leaves the ring without it, linked.
   */
  lemma RemoveLinked(next: map<Handle, Handle>, prev: map<Handle, Handle>, d: Dir, nodes: map<Handle, Record>, p: Int32, x: Handle)
    requires DirOK(d, nodes) && AllLinked(next, prev, d.rings) && Sound(d, p) && x in d.rings[p] && |d.rings[p]| > 1
    ensures && x in prev && x in next
            && AllLinked(next[prev[x] := next[x]] - {x}, prev[next[x] := prev[x]] - {x}, Remove(d, p, x).rings)
  {
    var s := d.rings[p];
    var j := IndexOf(s, x);
    MemberLinks(next, prev, s, j);
    var next': map<Handle, Handle> := next[Pred(s, j) := Succ(s, j)] - {s[j]};
    var prev': map<Handle, Handle> := prev[Succ(s, j) := Pred(s, j)] - {s[j]};
    LinkedRemoveAt(next, prev, s, j);
    var w := {Pred(s, j), Succ(s, j), x};
    forall y | y in w ensures y !in nodes || nodes[y].priority == p {
      MemberPriority(d, nodes, p, y);
    }
    OthersLinked(next, prev, next', prev', d, nodes, p, w);
  }

  /** `list_remove` on a ring of one erases the priority; the remaining rings stay linked. */
  lemma RemoveAloneLinked(next: map<Handle, Handle>, prev: map<Handle, Handle>, d: Dir, p: Int32, x: Handle)
    requires AllLinked(next, prev, d.rings) && Sound(d, p) && d.rings[p] == [x]
    ensures AllLinked(next, prev, Remove(d, p, x).rings)
  {
  }

  /**
   * On a sound linked ring the anchor and every member have both links, and the anchor is its
   * own successor exactly when the ring holds one item (which `list_remove` tests).
   */
  lemma SoundLinks(next: map<Handle, Handle>, prev: map<Handle, Handle>, d: Dir, p: Int32, x: Handle)
    requires AllLinked(next, prev, d.rings) && Sound(d, p) && Distinct(d.rings[p]) && x in d.rings[p]
    ensures var head := d.anchors[p];
            && x in next && x in prev && head in next && head in prev
            && (next[head] == head <==> d.rings[p] == [x])
  {
    var s := d.rings[p];
    MemberLinks(next, prev, s, 0);
    MemberLinks(next, prev, s, IndexOf(s, x));
    if |s| > 1 {
      assert s[0] != s[1];
    }
  }
}
