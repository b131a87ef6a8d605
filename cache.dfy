/**
 * The `PECache` class itself: its maps, the items' `prev`/`next` pointers and the ring
 * operations that rewrite them, and the public `get`, `set` and `set_capacity`, each proved to
 * change the cache exactly as the functions of `CacheSpec` say.
 *
 * Items live in an arena: a pointer to an item is a `Handle`, the items' data fields are
 * `nodes`, and their `prev`/`next` pointers are the maps `prev`/`next`, where a handle with no
 * entry holds a null pointer. Items are never freed.
 */
module Cache {
  import opened CTypes
  import opened OrderedMaps
  import opened Rings
  import opened Directory
  import opened Links
  import CacheSpec

  class PECache {
    var maxCapacity: Int32
    /** `mItems`: key to item. */
    var items: map<string, Handle>
    /** `mExpireItems`: expiry time to item. */
    var expireItems: map<Int32, Handle>
    /** `mPriorityItems`: priority to the anchor of that priority's ring. */
    var priorityItems: map<Int32, Handle>
    /** The data fields of every item allocated so far. */
    var nodes: map<Handle, Record>
    var prev: map<Handle, Handle>
    var next: map<Handle, Handle>
    /** The handle the next allocated item gets. */
    var nextHandle: Handle
    /** Each priority's ring in `next` order from its anchor, as far as it is still linked. */
    ghost var rings: map<Int32, seq<Handle>>

    ghost function Priorities(): Dir
      reads this
    {
      Dir(priorityItems, rings)
    }

    ghost function State(): CacheSpec.View
      reads this
    {
      CacheSpec.View(items, expireItems, Priorities(), nodes)
    }

    /** The cache is consistent, its rings are linked as listed, and the allocator is past every item. */
    ghost predicate Valid()
      reads this
    {
      && CacheSpec.ViewOK(State())
      && AllLinked(next, prev, rings)
      && Allocated()
    }

    /** `PECache(capacity)`: an empty cache. */
    constructor (capacity: Int32)
      ensures Valid() && State() == CacheSpec.Empty && maxCapacity == capacity && nextHandle == 0
    {
      maxCapacity := capacity;
      items := map[];
      expireItems := map[];
      priorityItems := map[];
      nodes := map[];
      prev := map[];
      next := map[];
      nextHandle := 0;
      rings := map[];
    }

    /**
     * `list_rebuild`: unlink `oldItem` and relink it between the anchor's prev (the tail) and
     * the anchor. The pointer writes happen whatever `oldItem` is; the ring listing follows
     * `Touch` when `oldItem` is a safely touched member (`RebuildLinked` shows the writes then
     * link exactly that listing) and is not meaningful otherwise.
     */
    method ListRebuild(key: Int32, oldItem: Handle)
      requires key in priorityItems && priorityItems[key] in prev && oldItem in prev && oldItem in next
      modifies this
      ensures var head := old(priorityItems[key]);
              var tail := old(prev[head]);
              && next == old(next[prev[oldItem] := next[oldItem]])[tail := oldItem][oldItem := head]
              && prev == old(prev[next[oldItem] := prev[oldItem]])[oldItem := tail][head := oldItem]
      ensures old(TouchSafe(Priorities(), key, oldItem)) ==> Priorities() == Touch(old(Priorities()), key, oldItem)
      ensures unchanged(this`items, this`expireItems, this`priorityItems, this`nodes, this`maxCapacity, this`nextHandle)
    {
      var head := priorityItems[key];
      var tail := prev[head];
      // break the old link, then splice the item in between the tail and the anchor
      var next1 := next[prev[oldItem] := next[oldItem]];
      var prev1 := prev[next1[oldItem] := prev[oldItem]];
      if TouchSafe(Priorities(), key, oldItem) {
        rings := Touch(Priorities(), key, oldItem).rings;
      }
      next, prev := next1[tail := oldItem][oldItem := head], prev1[oldItem := tail][head := oldItem];
    }

    /** `list_insert`: link `newItem` between the tail and the anchor of a sound ring. */
    method ListInsert(key: Int32, newItem: Handle)
      requires Sound(Priorities(), key) && priorityItems[key] in prev
      modifies this
      ensures var head := old(priorityItems[key]);
              && next == old(next)[old(prev[head]) := newItem][newItem := head]
              && prev == old(prev)[newItem := old(prev[head])][head := newItem]
      ensures Priorities() == PushBack(old(Priorities()), key, newItem)
      ensures unchanged(this`items, this`expireItems, this`priorityItems, this`nodes, this`maxCapacity, this`nextHandle)
    {
      var head := priorityItems[key];
      var tail := prev[head];
      // move the item to the end
      next, prev := next[tail := newItem][newItem := head], prev[newItem := tail][head := newItem];
      rings := PushBack(Priorities(), key, newItem).rings;
    }

    /**
     * `list_push_back`: a new priority gets a ring of `newItem` alone, anchored at it; a
     * registered one gets `newItem` linked in as by `list_insert`.
     */
    method ListPushBack(key: Int32, newItem: Handle)
      requires PushSafe(Priorities(), key) && (key in priorityItems ==> priorityItems[key] in prev)
      modifies this
      ensures key !in old(priorityItems) ==> next == old(next)[newItem := newItem] && prev == old(prev)[newItem := newItem]
      ensures key in old(priorityItems) ==>
                var head := old(priorityItems[key]);
                && next == old(next)[old(prev[head]) := newItem][newItem := head]
                && prev == old(prev)[newItem := old(prev[head])][head := newItem]
      ensures Priorities() == PushBack(old(Priorities()), key, newItem)
      ensures unchanged(this`items, this`expireItems, this`nodes, this`maxCapacity, this`nextHandle)
    {
      if key !in priorityItems {
        rings := PushBack(Priorities(), key, newItem).rings;
        priorityItems := priorityItems[key := newItem];
        next, prev := next[newItem := newItem], prev[newItem := newItem];
      } else {
        // the same writes as `list_insert`
        ListInsert(key, newItem);
      }
    }

    /**
     * `list_remove`: when the anchor is its own successor the priority is erased (the item is
     * then the anchor, as the source asserts); otherwise `oldItem` is unlinked from its
     * neighbours, its own links are cleared, and the anchor stays as it was.
     */
    method ListRemove(key: Int32, oldItem: Handle)
      requires Sound(Priorities(), key) && oldItem in rings[key] && oldItem in prev && oldItem in next
      requires var head := priorityItems[key]; head in next && (next[head] == head <==> rings[key] == [oldItem])
      modifies this
      ensures |old(rings[key])| == 1 ==> next == old(next) && prev == old(prev)
      ensures |old(rings[key])| > 1 ==>
                && next == old(next[prev[oldItem] := next[oldItem]]) - {oldItem}
                && prev == old(prev[next[oldItem] := prev[oldItem]]) - {oldItem}
      ensures Priorities() == Remove(old(Priorities()), key, oldItem)
      ensures unchanged(this`items, this`expireItems, this`nodes, this`maxCapacity, this`nextHandle)
    {
      var head := priorityItems[key];
      if next[head] == head {
        // the last item: the whole ring goes
        assert head == oldItem;
        priorityItems := priorityItems - {key};
        rings := rings - {key};
        return;
      }
      rings := Remove(Priorities(), key, oldItem).rings;
      var next1 := next[prev[oldItem] := next[oldItem]];
      var prev1 := prev[next[oldItem] := prev[oldItem]];
      next, prev := next1 - {oldItem}, prev1 - {oldItem};
    }

    /** `get`: the item under `key`, if any, after making it the most recently used of its priority. */
    method Get(key: string) returns (r: Option<Handle>)
      requires Valid() && CacheSpec.GetSafe(State(), key)
      modifies this
      ensures Valid() && State() == CacheSpec.Get(old(State()), key)
      ensures r == if key in old(items) then Some(old(items[key])) else None
      ensures unchanged(this`maxCapacity, this`nextHandle)
    {
      if key !in items {
        return None;
      }
      var item := items[key];
      ghost var v := State();
      var p := nodes[item].priority;
      SoundLinks(next, prev, v.dir, p, item);
      RebuildLinked(next, prev, v.dir, v.nodes, p, item);
      ListRebuild(p, item);
      CacheSpec.GetOK(v, key);
      return Some(item);
    }

    /**
     * `set`: a new key stores `item` in a freshly allocated item appended to its priority's
     * ring; an existing key updates the item it already names.
     */
    method Set(item: Record)
      requires Valid() && CacheSpec.SetSafe(State(), item, nextHandle)
      modifies this
      ensures Valid() && State() == CacheSpec.Set(old(State()), item, old(nextHandle))
      ensures nextHandle == old(nextHandle) + (if item.key in old(items) then 0 else 1)
      ensures unchanged(this`maxCapacity)
    {
      ghost var v := State();
      ghost var h := nextHandle;
      if item.key in items {
        var oldItem := items[item.key];
        SetExisting(oldItem, item);
      } else {
        SetNew(item);
      }
      CacheSpec.SetOK(v, item, h);
    }

    /** Every allocated item has a handle below the allocator's. */
    ghost predicate Allocated()
      reads this
    {
      forall h | h in nodes :: h < nextHandle
    }

    /** The new-key branch of `set`: allocate, append to the ring, then register key and expiry time. */
    method SetNew(item: Record)
      requires DirOK(Priorities(), nodes) && AllLinked(next, prev, rings) && Allocated()
      requires item.key !in items && PushSafe(Priorities(), item.priority)
      modifies this
      ensures State() == CacheSpec.AddItem(old(State()), item, old(nextHandle))
      ensures AllLinked(next, prev, rings) && Allocated() && nextHandle == old(nextHandle) + 1
      ensures unchanged(this`maxCapacity)
    {
      var h := nextHandle;
      nextHandle := nextHandle + 1;
      Attach(h, item);
      items := items[item.key := h];
      if item.expireTime !in expireItems {
        expireItems := expireItems[item.expireTime := h];
      }
    }

    /** A fresh item `h` holding `item` is stored and appended to its priority's ring. */
    method Attach(h: Handle, item: Record)
      requires DirOK(Priorities(), nodes) && AllLinked(next, prev, rings) && h !in nodes
      requires PushSafe(Priorities(), item.priority)
      modifies this
      ensures Priorities() == PushBack(old(Priorities()), item.priority, h) && nodes == old(nodes)[h := item]
      ensures AllLinked(next, prev, rings)
      ensures unchanged(this`items, this`expireItems, this`maxCapacity, this`nextHandle)
    {
      ghost var v, next0, prev0 := State(), next, prev;
      assert item.priority in priorityItems ==> priorityItems[item.priority] in prev by {
        if item.priority in priorityItems {
          SoundLinks(next, prev, v.dir, item.priority, priorityItems[item.priority]);
        }
      }
      nodes := nodes[h := item];
      ListPushBack(item.priority, h);
      assert AllLinked(next, prev, rings) by {
        CacheSpec.FreshUnlinked(v, h);
        RetypeOK(v.dir, v.nodes, h, item);
        if item.priority in v.dir.anchors {
          InsertLinked(next0, prev0, v.dir, v.nodes[h := item], item.priority, h);
        } else {
          NewRingLinked(next0, prev0, v.dir, v.nodes[h := item], item.priority, h);
        }
      }
    }

    /**
     * The existing-key branch of `set` on the item `oldItem`: with expiry time and priority
     * unchanged it is only touched; otherwise its expiry entry is moved, its time updated, and
     * it is either moved to the ring of its new priority or touched in its own.
     */
    method SetExisting(oldItem: Handle, item: Record)
      requires DirOK(Priorities(), nodes) && AllLinked(next, prev, rings) && Allocated()
      requires CacheSpec.UpdateSafe(State(), oldItem, item)
      modifies this
      ensures State() == CacheSpec.UpdateItem(old(State()), oldItem, item)
      ensures AllLinked(next, prev, rings) && Allocated()
      ensures unchanged(this`maxCapacity, this`nextHandle)
    {
      ghost var v, next0, prev0 := State(), next, prev;
      var o := nodes[oldItem];
      assert v.dir.anchors[o.priority] in prev && oldItem in prev && oldItem in next by {
        SoundLinks(next, prev, v.dir, o.priority, oldItem);
      }
      if o.expireTime == item.expireTime && o.priority == item.priority {
        // no data update, only the recency order
        ListRebuild(o.priority, oldItem);
        assert AllLinked(next, prev, rings) by {
          RebuildLinked(next0, prev0, v.dir, v.nodes, o.priority, oldItem);
        }
      } else {
        Retime(oldItem, item.expireTime);
        if o.priority != item.priority {
          assert DirOK(Priorities(), nodes) by {
            KeepPrioritiesOK(v.dir, v.nodes, nodes);
          }
          Reprioritize(oldItem, item.priority);
        } else {
          ListRebuild(o.priority, oldItem);
          assert AllLinked(next, prev, rings) by {
            RebuildLinked(next0, prev0, v.dir, v.nodes, o.priority, oldItem);
          }
        }
      }
    }

    /**
     * The expiry update inside `set`: erase the item's old expiry entry when the time changes,
     * give the item the new time, and register that time unless it is taken.
     */
    method Retime(x: Handle, t: Int32)
      requires x in nodes && Allocated()
      modifies this
      ensures State() == CacheSpec.Retime(old(State()), x, t) && Allocated()
      ensures unchanged(this`next, this`prev, this`maxCapacity, this`nextHandle)
    {
      if nodes[x].expireTime != t {
        expireItems := expireItems - {nodes[x].expireTime};
      }
      nodes := nodes[x := nodes[x].(expireTime := t)];
      if t !in expireItems {
        expireItems := expireItems[t := x];
      }
    }

    /** The priority change inside `set`: unlink from the old ring, retag, link into the new ring. */
    method Reprioritize(x: Handle, np: Int32)
      requires DirOK(Priorities(), nodes) && AllLinked(next, prev, rings) && Allocated() && x in nodes
      requires var op := nodes[x].priority;
               && op != np && Sound(Priorities(), op) && x in rings[op] && x != priorityItems[op]
               && Sound(Priorities(), np)
      modifies this
      ensures State() == CacheSpec.Move(old(State()), x, np)
      ensures AllLinked(next, prev, rings) && Allocated()
      ensures unchanged(this`maxCapacity, this`nextHandle)
    {
      ghost var d := Priorities();
      var op := nodes[x].priority;
      TwoMembers(rings[op], x, priorityItems[op]);
      SoundLinks(next, prev, d, op, x);
      RemoveLinked(next, prev, d, nodes, op, x);
      RemoveOK(d, nodes, op, x);
      ListRemove(op, x);
      ghost var d1 := Priorities();
      forall q | q in d1.anchors ensures d1.anchors[q] != x {
        if d1.anchors[q] == x {
          MemberPriority(d, nodes, op, x);
        }
      }
      var rec := nodes[x].(priority := np);
      RetypeOK(d1, nodes, x, rec);
      SoundLinks(next, prev, d1, np, d1.anchors[np]);
      InsertLinked(next, prev, d1, nodes[x := rec], np, x);
      nodes := nodes[x := rec];
      ListInsert(np, x);
    }

    /**
     * `set_capacity`: while the cache holds more items than `capacity` (read as unsigned, so
     * a negative capacity evicts nothing) and the capacity shrinks, evict one item per round;
     * then record the new capacity. `timeLimit` is `PECache::TIME_LIMIT`.
     */
    method SetCapacity(capacity: Int32, timeLimit: Int32)
      requires Valid() && (capacity < maxCapacity ==> CacheSpec.EvictionSafe(State(), capacity, timeLimit))
      modifies this
      ensures Valid() && maxCapacity == capacity && nextHandle == old(nextHandle)
      ensures State() == if capacity < old(maxCapacity) then CacheSpec.EvictAll(old(State()), capacity, timeLimit) else old(State())
    {
      if capacity < maxCapacity {
        ghost var v0 := State();
        while 0 <= capacity && capacity as int < |items|
          invariant Valid() && CacheSpec.EvictionSafe(State(), capacity, timeLimit)
          invariant CacheSpec.EvictAll(State(), capacity, timeLimit) == CacheSpec.EvictAll(v0, capacity, timeLimit)
          invariant maxCapacity == old(maxCapacity) && nextHandle == old(nextHandle)
          decreases |items|
        {
          ghost var v := State();
          CacheSpec.EvictStepOK(v, timeLimit);
          EvictOne(timeLimit);
        }
      }
      maxCapacity := capacity;
    }

    /**
     * One round of the loop of `set_capacity`: the victim is the item of the earliest expiry
     * time when that time is within `timeLimit`, otherwise the anchor of the lowest priority;
     * it leaves `mItems`, `mExpireItems` and its ring.
     */
    method EvictOne(timeLimit: Int32)
      requires DirOK(Priorities(), nodes) && AllLinked(next, prev, rings) && Allocated()
      requires CacheSpec.StepSafe(State(), timeLimit)
      modifies this
      ensures State() == CacheSpec.EvictStep(old(State()), timeLimit)
      ensures AllLinked(next, prev, rings) && Allocated()
      ensures unchanged(this`maxCapacity, this`nextHandle)
    {
      var expiredItem := PickVictim(timeLimit);
      Evict(expiredItem);
    }

    /**
     * The victim of one round of `set_capacity`: the item under the first entry of
     * `mExpireItems` when that entry's time is within `timeLimit`, otherwise the item under the
     * first entry of `mPriorityItems`.
     */
    method PickVictim(timeLimit: Int32) returns (expiredItem: Handle)
      requires CacheSpec.CanPick(State(), timeLimit)
      ensures expiredItem == CacheSpec.Victim(State(), timeLimit)
    {
      // the first entry of `mExpireItems`
      var first := First(expireItems);
      if first <= timeLimit {
        // some item expired
        expiredItem := expireItems[first];
      } else {
        // the anchor of the lowest priority
        var lowest := First(priorityItems);
        expiredItem := priorityItems[lowest];
      }
    }

    /** The victim leaves `mItems` under its key, `mExpireItems` under its time, and its ring. */
    method Evict(expiredItem: Handle)
      requires DirOK(Priorities(), nodes) && AllLinked(next, prev, rings) && Allocated()
      requires CacheSpec.Evictable(State(), expiredItem)
      modifies this
      ensures State() == CacheSpec.Evict(old(State()), expiredItem)
      ensures AllLinked(next, prev, rings) && Allocated()
      ensures unchanged(this`maxCapacity, this`nextHandle)
    {
      ghost var v, next0, prev0 := State(), next, prev;
      var rec := nodes[expiredItem];
      SoundLinks(next, prev, v.dir, rec.priority, expiredItem);
      items := items - {rec.key};
      expireItems := expireItems - {rec.expireTime};
      ListRemove(rec.priority, expiredItem);
      assert AllLinked(next, prev, rings) by {
        if |v.dir.rings[rec.priority]| == 1 {
          RemoveAloneLinked(next0, prev0, v.dir, rec.priority, expiredItem);
        } else {
          RemoveLinked(next0, prev0, v.dir, v.nodes, rec.priority, expiredItem);
        }
      }
    }
  }
}
