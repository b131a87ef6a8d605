/**
 * The circular doubly-linked recency rings of the cache, on an arena of items addressed
 * by handle. `next` and `prev` hold `Item::next` and `Item::prev`; a handle that is not a
 * key of one of them has a null link there.
 */
module Rings {
  import opened CTypes

  /** The address of an item in the arena. */
  newtype Handle = int

  /** The element after position `i` of a ring listed from its anchor. */
  function Succ(s: seq<Handle>, i: nat): Handle
    requires i < |s|
  {
    if i + 1 < |s| then s[i + 1] else s[0]
  }

  /** The element before position `i` of a ring listed from its anchor. */
  function Pred(s: seq<Handle>, i: nat): Handle
    requires i < |s|
  {
    if i > 0 then s[i - 1] else s[|s| - 1]
  }

  ghost predicate Distinct(s: seq<Handle>)
  {
    forall i, j | 0 <= i < j < |s| :: s[i] != s[j]
  }

  /** The links of the member at position `i` of a ring listed from its anchor are right. */
  ghost predicate LinkedAt(next: map<Handle, Handle>, prev: map<Handle, Handle>, s: seq<Handle>, i: nat)
    requires i < |s|
  {
    s[i] in next && next[s[i]] == Succ(s, i) && s[i] in prev && prev[s[i]] == Pred(s, i)
  }

  /** The links of `s`'s members close `s` into a ring, `next` going forward and `prev` back. */
  ghost predicate Linked(next: map<Handle, Handle>, prev: map<Handle, Handle>, s: seq<Handle>)
  {
    forall i | 0 <= i < |s| :: LinkedAt(next, prev, s, i)
  }

  /** A sequence with two different members has at least two elements. */
  lemma TwoMembers(s: seq<Handle>, x: Handle, y: Handle)
    requires x in s && y in s && x != y
    ensures |s| > 1
  {
    var i, j :| 0 <= i < |s| && 0 <= j < |s| && s[i] == x && s[j] == y;
    assert i != j;
  }

  /** `s` without its element at position `j`. */
  function RemoveAt(s: seq<Handle>, j: nat): (r: seq<Handle>)
    requires j < |s|
    ensures |r| == |s| - 1
    ensures forall i | 0 <= i < |r| :: r[i] == if i < j then s[i] else s[i + 1]
  {
    s[..j] + s[j + 1..]
  }

  /** `s` with its element at position `j` moved to the back: the order of a touched ring. */
  function MoveToBack(s: seq<Handle>, j: nat): (r: seq<Handle>)
    requires j < |s|
    ensures |r| == |s| && r[|s| - 1] == s[j]
    ensures forall i | 0 <= i < |s| - 1 :: r[i] == if i < j then s[i] else s[i + 1]
  {
    RemoveAt(s, j) + [s[j]]
  }

  /** The position of `x` in `s`: the first one, and the only one when `s` is distinct. */
  function IndexOf(s: seq<Handle>, x: Handle): (i: nat)
    requires x in s
    ensures i < |s| && s[i] == x && x !in s[..i]
  {
    if s[0] == x then 0
    else
      var i := IndexOf(s[1..], x);
      assert s[..i + 1] == [s[0]] + s[1..][..i];
      1 + i
  }

  /** Removing an element keeps every other one, in order, and no duplicate appears. */
  lemma RemoveAtMembers(s: seq<Handle>, j: nat)
    requires j < |s| && Distinct(s)
    ensures Distinct(RemoveAt(s, j))
    ensures forall y :: y in RemoveAt(s, j) <==> y in s && y != s[j]
  {
    var r := RemoveAt(s, j);
    forall y | y in s && y != s[j] ensures y in r {
      var k :| 0 <= k < |s| && s[k] == y;
      if k < j { assert r[k] == y; } else { assert r[k - 1] == y; }
    }
  }

  /** A touched ring has the same members, still distinct, in the same relative order. */
  lemma MoveToBackMembers(s: seq<Handle>, j: nat)
    requires j < |s| && Distinct(s)
    ensures Distinct(MoveToBack(s, j))
    ensures forall y :: y in MoveToBack(s, j) <==> y in s
    ensures multiset(MoveToBack(s, j)) == multiset(s)
  {
    RemoveAtMembers(s, j);
    var r := RemoveAt(s, j);
    assert s == s[..j] + [s[j]] + s[j + 1..];
    calc {
      multiset(MoveToBack(s, j));
      multiset(s[..j] + s[j + 1..]) + multiset([s[j]]);
      multiset(s[..j]) + multiset(s[j + 1..]) + multiset([s[j]]);
      multiset(s);
    }
  }

  /** Following `next` links `k` times from `a`, or None if a null link is met first. */
  ghost function Follow(next: map<Handle, Handle>, a: Handle, k: nat): Option<Handle>
    decreases k
  {
    if k == 0 then Some(a)
    else if a in next then Follow(next, next[a], k - 1)
    else None
  }

  /** `next` leads from each element of `path` to the one after it. */
  ghost predicate Path(next: map<Handle, Handle>, path: seq<Handle>)
  {
    forall i | 0 <= i < |path| - 1 :: path[i] in next && next[path[i]] == path[i + 1]
  }

  lemma {:induction false} FollowPath(next: map<Handle, Handle>, path: seq<Handle>, m: nat, k: nat)
    requires Path(next, path) && m + k < |path|
    ensures Follow(next, path[m], k) == Some(path[m + k])
    decreases k
  {
    if k > 0 {
      FollowPath(next, path, m + 1, k - 1);
    }
  }

  /**
   * A linked ring is circular: from its anchor, `next` visits every member in ring order and
   * is back at the anchor after `|s|` steps; `prev` visits them in the reverse order.
   */
  lemma LinkedWalk(next: map<Handle, Handle>, prev: map<Handle, Handle>, s: seq<Handle>)
    requires Linked(next, prev, s) && |s| > 0
    ensures forall i | 0 <= i < |s| :: Follow(next, s[0], i) == Some(s[i])
    ensures Follow(next, s[0], |s|) == Some(s[0])
    ensures forall i | 0 < i <= |s| :: Follow(prev, s[0], i) == Some(s[|s| - i])
  {
    var forward := s + [s[0]];
    assert Path(next, forward) by {
      forall i | 0 <= i < |forward| - 1
        ensures forward[i] in next && next[forward[i]] == forward[i + 1]
      {
        assert forward[i] == s[i] && LinkedAt(next, prev, s, i);
      }
    }
    var back := seq(|s| + 1, i requires 0 <= i <= |s| => if i == 0 then s[0] else s[|s| - i]);
    assert Path(prev, back) by {
      forall i | 0 <= i < |back| - 1
        ensures back[i] in prev && prev[back[i]] == back[i + 1]
      {
        if i == 0 {
          assert LinkedAt(next, prev, s, 0);
        } else {
          assert LinkedAt(next, prev, s, |s| - i);
        }
      }
    }
    forall i | 0 <= i <= |s|
      ensures Follow(next, s[0], i) == Some(forward[i])
    {
      FollowPath(next, forward, 0, i);
    }
    forall i | 0 < i <= |s|
      ensures Follow(prev, s[0], i) == Some(s[|s| - i])
    {
      FollowPath(prev, back, 0, i);
    }
  }

  /** Links agreeing with linked ones on the members of `s` link `s` too. */
  lemma LinkedFrame(next: map<Handle, Handle>, prev: map<Handle, Handle>,
                    next': map<Handle, Handle>, prev': map<Handle, Handle>, s: seq<Handle>)
    requires Linked(next, prev, s)
    requires forall y | y in s :: y in next && y in prev && y in next' && next'[y] == next[y] && y in prev' && prev'[y] == prev[y]
    ensures Linked(next', prev', s)
  {
    forall i | 0 <= i < |s|
      ensures LinkedAt(next', prev', s, i)
    {
      var y := s[i];
      assert y in s && LinkedAt(next, prev, s, i);
      assert next'[y] == next[y] && prev'[y] == prev[y];
    }
  }

  /**
   * The four writes of `list_push_back` (and `list_insert`) on a linked ring: the tail's next,
   * the new item's prev and next, the anchor's prev. They append `h` to the ring.
   */
  lemma LinkedPushBack(next: map<Handle, Handle>, prev: map<Handle, Handle>, s: seq<Handle>, h: Handle)
    requires Linked(next, prev, s) && Distinct(s) && |s| > 0 && h !in s
    ensures Linked(next[s[|s| - 1] := h][h := s[0]], prev[h := s[|s| - 1]][s[0] := h], s + [h])
  {
    var next', prev' := next[s[|s| - 1] := h][h := s[0]], prev[h := s[|s| - 1]][s[0] := h];
    var r := s + [h];
    var n := |s|;
    forall i | 0 <= i < |r|
      ensures LinkedAt(next', prev', r, i)
    {
      if i == n {
        assert r[i] == h && Succ(r, i) == s[0] && Pred(r, i) == s[n - 1];
      } else {
        assert r[i] == s[i] && s[i] != h;
        assert LinkedAt(next, prev, s, i);
        assert Succ(r, i) == if i == n - 1 then h else s[i + 1];
        assert Pred(r, i) == if i == 0 then h else s[i - 1];
      }
    }
  }

  /**
   * The six writes of `list_rebuild` on a member that is neither the anchor nor the tail:
   * unlink it (its predecessor's next, its successor's prev), then splice it between the tail
   * and the anchor. They move it to the back of the ring.
   */
  lemma LinkedMoveToBack(next: map<Handle, Handle>, prev: map<Handle, Handle>, s: seq<Handle>, j: nat)
    requires Linked(next, prev, s) && Distinct(s) && 0 < j < |s| - 1
    ensures Linked(next[s[j - 1] := s[j + 1]][s[|s| - 1] := s[j]][s[j] := s[0]],
                   prev[s[j + 1] := s[j - 1]][s[j] := s[|s| - 1]][s[0] := s[j]],
                   MoveToBack(s, j))
  {
    var n := |s|;
    var x, a, b, head, tail := s[j], s[j - 1], s[j + 1], s[0], s[n - 1];
    var next' := next[a := b][tail := x][x := head];
    var prev' := prev[b := a][x := tail][head := x];
    var r := MoveToBack(s, j);
    forall i | 0 <= i < n
      ensures LinkedAt(next', prev', r, i)
    {
      if i == n - 1 {
        assert r[i] == x && Succ(r, i) == head && Pred(r, i) == tail;
        assert x != head;
      } else if i < j {
        var y := s[i];
        assert r[i] == y && y != x && y != tail;
        assert LinkedAt(next, prev, s, i);
        assert Succ(r, i) == if i == j - 1 then b else s[i + 1];
        assert Pred(r, i) == if i == 0 then x else s[i - 1];
        assert y == a <==> i == j - 1;
        assert y == b <==> false;
        assert y == head <==> i == 0;
      } else {
        var y := s[i + 1];
        assert r[i] == y && y != x && y != a && y != head;
        assert LinkedAt(next, prev, s, i + 1);
        assert Succ(r, i) == if i + 1 == n - 1 then x else s[i + 2];
        assert Pred(r, i) == if i == j then a else s[i];
        assert y == tail <==> i + 1 == n - 1;
        assert y == b <==> i == j;
      }
    }
  }

  /**
   * The writes of the unlinking branch of `list_remove`: the item's predecessor and successor
   * are linked to each other and the item's own links are nulled. They remove it from the ring.
   */
  lemma LinkedRemoveAt(next: map<Handle, Handle>, prev: map<Handle, Handle>, s: seq<Handle>, j: nat)
    requires Linked(next, prev, s) && Distinct(s) && j < |s|
    ensures Linked(next[Pred(s, j) := Succ(s, j)] - {s[j]}, prev[Succ(s, j) := Pred(s, j)] - {s[j]}, RemoveAt(s, j))
  {
    var next' := next[Pred(s, j) := Succ(s, j)] - {s[j]};
    var prev' := prev[Succ(s, j) := Pred(s, j)] - {s[j]};
    var r := RemoveAt(s, j);
    var n := |s|;
    forall i | 0 <= i < |r|
      ensures LinkedAt(next', prev', r, i)
    {
      var k := if i < j then i else i + 1;
      assert r[i] == s[k] && s[k] != s[j];
      assert LinkedAt(next, prev, s, k);
      if i + 1 < |r| { assert r[i + 1] == if i + 1 < j then s[i + 1] else s[i + 2]; }
      if i > 0 { assert r[i - 1] == if i - 1 < j then s[i - 1] else s[i]; }
      assert r[0] == if j == 0 then s[1] else s[0];
      assert r[|r| - 1] == if j == n - 1 then s[n - 2] else s[n - 1];
    }
  }

  /**
   * The writes of `list_rebuild` on the tail (`anchor->prev`) of a ring of two or more: the
   * tail's predecessor is linked back to the anchor, then the tail is spliced "between itself
   * and the anchor". Walking `next` from the anchor now closes a ring of the other members
   * only, and the touched item's prev points to itself.
   */
  lemma {:induction false} TouchTailDetaches(next: map<Handle, Handle>, prev: map<Handle, Handle>, s: seq<Handle>)
    requires Linked(next, prev, s) && Distinct(s) && |s| >= 2
    ensures var n := |s|;
            var next' := next[s[n - 2] := s[0]][s[n - 1] := s[n - 1]][s[n - 1] := s[0]];
            var prev' := prev[s[0] := s[n - 2]][s[n - 1] := s[n - 1]][s[0] := s[n - 1]];
            && (forall i | 0 <= i < n - 1 :: Follow(next', s[0], i) == Some(s[i]))
            && Follow(next', s[0], n - 1) == Some(s[0])
            && prev'[s[n - 1]] == s[n - 1]
  {
    var n := |s|;
    var next' := next[s[n - 2] := s[0]][s[n - 1] := s[n - 1]][s[n - 1] := s[0]];
    var path := s[..n - 1] + [s[0]];
    forall i | 0 <= i < |path| - 1
      ensures path[i] in next' && next'[path[i]] == path[i + 1]
    {
      assert path[i] == s[i] && LinkedAt(next, prev, s, i);
    }
    forall i | 0 <= i <= n - 1
      ensures Follow(next', s[0], i) == Some(path[i])
    {
      FollowPath(next', path, 0, i);
    }
  }

  /**
   * The writes of `list_rebuild` on the anchor of a ring of two or more: the anchor ends up
   * linked to itself both ways, so walking from it never reaches the other members, while the
   * tail still points forward to it.
   */
  lemma TouchAnchorIsolates(next: map<Handle, Handle>, prev: map<Handle, Handle>, s: seq<Handle>)
    requires Linked(next, prev, s) && Distinct(s) && |s| >= 2
    ensures var n := |s|;
            var next' := next[s[n - 1] := s[1]][s[n - 1] := s[0]][s[0] := s[0]];
            var prev' := prev[s[1] := s[n - 1]][s[0] := s[n - 1]][s[0] := s[0]];
            && next'[s[0]] == s[0] && prev'[s[0]] == s[0]
            && Follow(next', s[0], 1) == Some(s[0])
            && next'[s[n - 1]] == s[0]
  {
  }
}
