/**
 * The abstract state of a `PECache` and its public operations as functions on that state:
 * `get`, `set` and the eviction loop of `set_capacity`. The class in `cache.dfy` is proved to
 * change its state exactly as these functions say.
 */
module CacheSpec {
  import opened CTypes
  import opened OrderedMaps
  import opened Rings
  import opened Directory

  /**
   * What the cache holds: `mItems` (key to item), `mExpireItems` (expiry time to item), the
   * priority directory and the records of the items in the arena.
   */
  datatype View = View(items: map<string, Handle>, expireItems: map<Int32, Handle>, dir: Dir, nodes: map<Handle, Record>)

  /** The cache right after construction: nothing in it. */
  const Empty: View := View(map[], map[], Dir(map[], map[]), map[])

  /** `h` is the item `mItems` holds under its own key. */
  predicate IsLive(v: View, h: Handle)
  {
    h in v.nodes && v.nodes[h].key in v.items && v.items[v.nodes[h].key] == h
  }

  /**
   * The cache is consistent: the directory is well formed, every key names a live item with
   * that key, the rings hold exactly the live items, each in the ring of its own priority,
   * and every registered expiry time names a live item that expires then.
   */
  ghost predicate ViewOK(v: View)
  {
    DirOK(v.dir, v.nodes) && ItemsOK(v) && RingsLive(v) && LiveRinged(v) && ExpiryOK(v)
  }

  ghost predicate ItemsOK(v: View)
  {
    forall k | k in v.items :: v.items[k] in v.nodes && v.nodes[v.items[k]].key == k
  }

  ghost predicate RingsLive(v: View)
  {
    forall p, h | p in v.dir.rings && h in v.dir.rings[p] :: IsLive(v, h)
  }

  ghost predicate LiveRinged(v: View)
  {
    forall k | k in v.items ::
      v.items[k] in v.nodes && v.nodes[v.items[k]].priority in v.dir.rings
      && v.items[k] in v.dir.rings[v.nodes[v.items[k]].priority]
  }

  ghost predicate ExpiryOK(v: View)
  {
    forall t | t in v.expireItems :: IsLive(v, v.expireItems[t]) && v.nodes[v.expireItems[t]].expireTime == t
  }

  /** `std::map::insert`: the entry is added only when the key is not there yet. */
  function InsertIfAbsent(m: map<Int32, Handle>, t: Int32, h: Handle): map<Int32, Handle>
  {
    if t in m then m else m[t := h]
  }

  /**
   * The `get` of a key that names an item `list_rebuild` keeps in its ring. An absent key
   * asks nothing.
   */
  ghost predicate GetSafe(v: View, key: string)
  {
    key in v.items ==> v.items[key] in v.nodes && TouchSafe(v.dir, v.nodes[v.items[key]].priority, v.items[key])
  }

  /** `get`: a present key's item becomes the most recently used of its priority. */
  function Get(v: View, key: string): View
    requires GetSafe(v, key)
  {
    if key in v.items then
      var x := v.items[key];
      v.(dir := Touch(v.dir, v.nodes[x].priority, x))
    else v
  }

  /**
   * The `set` of `item`, which is stored at the fresh handle `h` when its key is new, is one
   * the ring code keeps well formed: a new item joins a new or sound ring; an existing item
   * whose priority stays is touched safely; an existing item that changes priority is not
   * the anchor of its sound old ring and the new priority has a sound ring to join.
   */
  ghost predicate SetSafe(v: View, item: Record, h: Handle)
  {
    if item.key !in v.items then h !in v.nodes && PushSafe(v.dir, item.priority)
    else
      UpdateSafe(v, v.items[item.key], item)
  }

  /**
   * Updating the existing item `x` from `item` is safe: when its priority stays it is touched
   * safely, otherwise it is not the anchor of its sound ring and the new priority's ring is sound.
   */
  ghost predicate UpdateSafe(v: View, x: Handle, item: Record)
  {
    && x in v.nodes
    && var p := v.nodes[x].priority;
       if p == item.priority then TouchSafe(v.dir, p, x)
       else
         && Sound(v.dir, p) && x in v.dir.rings[p] && x != v.dir.anchors[p]
         && Sound(v.dir, item.priority)
  }

  /**
   * `set`. A new key stores `item` at `h`; an existing key keeps its item, which is updated.
   */
  function Set(v: View, item: Record, h: Handle): View
    requires SetSafe(v, item, h)
  {
    if item.key !in v.items then AddItem(v, item, h) else UpdateItem(v, v.items[item.key], item)
  }

  /** `set` of a key not yet in `mItems` takes the new-key branch. */
  lemma SetNewKey(v: View, item: Record, h: Handle)
    requires item.key !in v.items && h !in v.nodes && PushSafe(v.dir, item.priority)
    ensures SetSafe(v, item, h) && Set(v, item, h) == AddItem(v, item, h)
  {
  }

  /**
   * The new-key branch of `set`: `item` is stored at `h` under its key, its expiry time is
   * registered unless taken, and it is appended to its priority's ring.
   */
  function AddItem(v: View, item: Record, h: Handle): View
    requires PushSafe(v.dir, item.priority)
  {
    View(v.items[item.key := h], InsertIfAbsent(v.expireItems, item.expireTime, h),
         PushBack(v.dir, item.priority, h), v.nodes[h := item])
  }

  /**
   * The existing-key branch of `set` on the item `x`, whose value is never changed. When
   * expiry time and priority are unchanged the item is only touched. Otherwise its expiry is
   * moved to the new time, and the item either moves to the back of the new priority's ring
   * or is touched in its own.
   */
  function UpdateItem(v: View, x: Handle, item: Record): View
    requires UpdateSafe(v, x, item)
  {
    var o := v.nodes[x];
    if o.expireTime == item.expireTime && o.priority == item.priority then
      v.(dir := Touch(v.dir, o.priority, x))
    else
      var w := Retime(v, x, item.expireTime);
      if o.priority != item.priority then Move(w, x, item.priority)
      else w.(dir := Touch(w.dir, o.priority, x))
  }

  /**
   * The expiry part of an update: the item's old expiry entry is erased when the time
   * changes, the new time is registered unless taken, and the record takes the new time.
   */
  function Retime(v: View, x: Handle, t: Int32): View
    requires x in v.nodes
  {
    var o := v.nodes[x];
    var ex := if o.expireTime != t then v.expireItems - {o.expireTime} else v.expireItems;
    View(v.items, InsertIfAbsent(ex, t, x), v.dir, v.nodes[x := o.(expireTime := t)])
  }

  /** The priority part of an update: the item leaves its ring, takes priority `np` and joins that ring. */
  function Move(v: View, x: Handle, np: Int32): View
    requires x in v.nodes && Sound(v.dir, v.nodes[x].priority) && x in v.dir.rings[v.nodes[x].priority]
    requires PushSafe(Remove(v.dir, v.nodes[x].priority, x), np)
  {
    var o := v.nodes[x];
    v.(dir := PushBack(Remove(v.dir, o.priority, x), np, x), nodes := v.nodes[x := o.(priority := np)])
  }

  /** The eviction loop can pick a victim: some expiry time is registered, and a priority when needed. */
  ghost predicate CanPick(v: View, timeLimit: Int32)
  {
    v.expireItems != map[] && (MinKey(v.expireItems) > timeLimit ==> v.dir.anchors != map[])
  }

  /**
   * The item one round of the eviction loop removes: the earliest-expiring registered item
   * when it expires by `timeLimit`, otherwise the anchor of the lowest priority.
   */
  ghost function Victim(v: View, timeLimit: Int32): Handle
    requires CanPick(v, timeLimit)
  {
    var t := MinKey(v.expireItems);
    if t <= timeLimit then v.expireItems[t] else v.dir.anchors[MinKey(v.dir.anchors)]
  }

  /** One round of eviction is defined: there is a victim and the ring it is removed from is sound. */
  ghost predicate StepSafe(v: View, timeLimit: Int32)
  {
    && CanPick(v, timeLimit)
    && Evictable(v, Victim(v, timeLimit))
  }

  /** An item can be evicted: it is in the sound ring of its own priority. */
  predicate Evictable(v: View, x: Handle)
  {
    x in v.nodes && Sound(v.dir, v.nodes[x].priority) && x in v.dir.rings[v.nodes[x].priority]
  }

  /** Evicting `x`: it leaves `mItems` and `mExpireItems` under its own key and time, and its ring. */
  function Evict(v: View, x: Handle): View
    requires Evictable(v, x)
  {
    var r := v.nodes[x];
    View(v.items - {r.key}, v.expireItems - {r.expireTime}, Remove(v.dir, r.priority, x), v.nodes)
  }

  /** One round of the eviction loop. */
  ghost function EvictStep(v: View, timeLimit: Int32): View
    requires StepSafe(v, timeLimit)
  {
    Evict(v, Victim(v, timeLimit))
  }

  /** The loop of `set_capacity` runs while the item count exceeds the capacity read as unsigned. */
  predicate OverCapacity(v: View, capacity: Int32)
  {
    0 <= capacity && capacity as int < |v.items|
  }

  /** Every round the eviction loop runs, down to `capacity` items, is safe. */
  ghost predicate EvictionSafe(v: View, capacity: Int32, timeLimit: Int32)
    requires ViewOK(v)
    decreases |v.items|
  {
    OverCapacity(v, capacity) ==>
      && StepSafe(v, timeLimit)
      && (EvictStepOK(v, timeLimit); EvictionSafe(EvictStep(v, timeLimit), capacity, timeLimit))
  }

  /** The whole eviction loop of `set_capacity`. */
  ghost function EvictAll(v: View, capacity: Int32, timeLimit: Int32): View
    requires ViewOK(v) && EvictionSafe(v, capacity, timeLimit)
    decreases |v.items|
  {
    if OverCapacity(v, capacity) then
      EvictStepOK(v, timeLimit);
      EvictAll(EvictStep(v, timeLimit), capacity, timeLimit)
    else v
  }

  /**
   * The victim of a round is a live item and leaves the cache: its key is the one key gone,
   * it is in no ring any more, and every record and the consistency of the cache are kept.
   */
  lemma EvictStepOK(v: View, timeLimit: Int32)
    requires ViewOK(v) && StepSafe(v, timeLimit)
    ensures var x, r := Victim(v, timeLimit), EvictStep(v, timeLimit);
            && IsLive(v, x) && ViewOK(r)
            && r.items.Keys == v.items.Keys - {v.nodes[x].key} && |r.items| == |v.items| - 1
            && (forall k | k in r.items :: r.items[k] == v.items[k])
            && (forall p | p in r.dir.rings :: x !in r.dir.rings[p])
            && r.nodes == v.nodes
  {
    var x := Victim(v, timeLimit);
    VictimLive(v, timeLimit);
    EvictOK(v, x);
  }

  /**
   * Evicting a live item keeps the cache consistent, takes exactly its key out of `mItems`,
   * leaves it in no ring and keeps every record.
   */
  lemma EvictOK(v: View, x: Handle)
    requires ViewOK(v) && IsLive(v, x) && Evictable(v, x)
    ensures var r := Evict(v, x);
            && ViewOK(r)
            && r.items.Keys == v.items.Keys - {v.nodes[x].key} && |r.items| == |v.items| - 1
            && (forall k | k in r.items :: r.items[k] == v.items[k])
            && (forall p | p in r.dir.rings :: x !in r.dir.rings[p])
            && r.nodes == v.nodes
  {
    var r := Evict(v, x);
    RemoveOK(v.dir, v.nodes, v.nodes[x].priority, x);
    EvictRingsLive(v, x);
    EvictLiveRinged(v, x);
    EvictExpiry(v, x);
  }

  lemma EvictRingsLive(v: View, x: Handle)
    requires DirOK(v.dir, v.nodes) && ItemsOK(v) && RingsLive(v) && IsLive(v, x) && Evictable(v, x)
    ensures RingsLive(Evict(v, x))
  {
    var r := Evict(v, x);
    var p := v.nodes[x].priority;
    RemoveOK(v.dir, v.nodes, p, x);
    forall q, h | q in r.dir.rings && h in r.dir.rings[q] ensures IsLive(r, h) {
      assert h in v.dir.rings[q] && h != x;
      assert IsLive(v, h);
    }
  }

  lemma EvictLiveRinged(v: View, x: Handle)
    requires DirOK(v.dir, v.nodes) && ItemsOK(v) && LiveRinged(v) && IsLive(v, x) && Evictable(v, x)
    ensures LiveRinged(Evict(v, x))
  {
    var r := Evict(v, x);
    var p := v.nodes[x].priority;
    var s := v.dir.rings[p];
    RemoveOK(v.dir, v.nodes, p, x);
    forall k | k in r.items
      ensures r.items[k] in r.nodes && r.nodes[r.items[k]].priority in r.dir.rings
              && r.items[k] in r.dir.rings[r.nodes[r.items[k]].priority]
    {
      var h := v.items[k];
      assert h != x;
      var ph := v.nodes[h].priority;
      assert h in v.dir.rings[ph];
      if ph == p {
        TwoMembers(s, h, x);
      }
    }
  }

  lemma EvictExpiry(v: View, x: Handle)
    requires ItemsOK(v) && ExpiryOK(v) && IsLive(v, x) && Evictable(v, x)
    ensures ExpiryOK(Evict(v, x))
  {
    var r := Evict(v, x);
    forall t | t in r.expireItems
      ensures IsLive(r, r.expireItems[t]) && r.nodes[r.expireItems[t]].expireTime == t
    {
      assert v.expireItems[t] != x;
    }
  }

  /** The victim of a round is a live item, in the sound ring of its own priority. */
  lemma VictimLive(v: View, timeLimit: Int32)
    requires ViewOK(v) && StepSafe(v, timeLimit)
    ensures IsLive(v, Victim(v, timeLimit))
  {
    var t := MinKey(v.expireItems);
    if t > timeLimit {
      var m := MinKey(v.dir.anchors);
      var x := v.dir.anchors[m];
      assert v.nodes[x].priority == m;
      assert v.dir.rings[m][0] == x;
    }
  }

  /**
   * When the earliest expiry time is past `timeLimit` the victim is the anchor of the least
   * priority in `mPriorityItems`.
   */
  lemma FallbackVictim(v: View, timeLimit: Int32, t: Int32, p: Int32)
    requires IsLeast(t, v.expireItems.Keys) && t > timeLimit && IsLeast(p, v.dir.anchors.Keys)
    ensures CanPick(v, timeLimit) && Victim(v, timeLimit) == v.dir.anchors[p]
  {
    LeastUnique(t, v.expireItems.Keys);
    LeastUnique(p, v.dir.anchors.Keys);
  }

  /**
   * Under the default time limit, `INT_MAX`, every registered item counts as expired: the
   * victim is always the item under the earliest expiry time.
   */
  lemma VictimByDefault(v: View)
    requires v.expireItems != map[]
    ensures CanPick(v, INT_MAX) && Victim(v, INT_MAX) == v.expireItems[MinKey(v.expireItems)]
  {
  }

  /**
   * The victim policy of `set_capacity`: when some registered item expires by `timeLimit` the
   * victim is the earliest-expiring one; otherwise it is the least recently used item (the
   * anchor, first in its ring) of the lowest priority any item has.
   */
  lemma VictimPolicy(v: View, timeLimit: Int32)
    requires ViewOK(v) && StepSafe(v, timeLimit)
    ensures var x := Victim(v, timeLimit);
            && IsLive(v, x)
            && ((exists t | t in v.expireItems :: t <= timeLimit) ==>
                  var e := v.nodes[x].expireTime;
                  && e <= timeLimit && e in v.expireItems && v.expireItems[e] == x
                  && forall t | t in v.expireItems :: e <= t)
            && ((forall t | t in v.expireItems :: t > timeLimit) ==>
                  var p := v.nodes[x].priority;
                  && Sound(v.dir, p) && v.dir.rings[p][0] == x
                  && forall k | k in v.items :: p <= v.nodes[v.items[k]].priority)
  {
    var x := Victim(v, timeLimit);
    VictimLive(v, timeLimit);
    var t0 := MinKey(v.expireItems);
    if t0 > timeLimit {
      var m := MinKey(v.dir.anchors);
      assert v.nodes[x].priority == m;
      forall k | k in v.items ensures m <= v.nodes[v.items[k]].priority {
        assert v.nodes[v.items[k]].priority in v.dir.anchors;
      }
    }
  }

  /**
   * The eviction loop keeps the cache consistent and every record, ends with at most
   * `capacity` items (exactly `capacity` when it ran at all) and keeps each surviving key
   * with its own item.
   */
  lemma {:induction false} EvictAllOK(v: View, capacity: Int32, timeLimit: Int32)
    requires ViewOK(v) && EvictionSafe(v, capacity, timeLimit)
    ensures var r := EvictAll(v, capacity, timeLimit);
            && ViewOK(r) && r.nodes == v.nodes && !OverCapacity(r, capacity)
            && |r.items| == (if OverCapacity(v, capacity) then capacity as int else |v.items|)
            && (forall k | k in r.items :: k in v.items && r.items[k] == v.items[k])
    decreases |v.items|
  {
    if OverCapacity(v, capacity) {
      EvictStepOK(v, timeLimit);
      EvictAllOK(EvictStep(v, timeLimit), capacity, timeLimit);
    }
  }

  /** A round over capacity that is safe and leaves a safe loop behind makes the whole loop safe. */
  lemma EvictionRound(v: View, capacity: Int32, timeLimit: Int32, w: View)
    requires ViewOK(v) && OverCapacity(v, capacity) && StepSafe(v, timeLimit) && EvictStep(v, timeLimit) == w
    requires ViewOK(w) && EvictionSafe(w, capacity, timeLimit)
    ensures EvictionSafe(v, capacity, timeLimit) && EvictAll(v, capacity, timeLimit) == EvictAll(w, capacity, timeLimit)
  {
  }

  /** At or under capacity the loop does not run. */
  lemma EvictionStops(v: View, capacity: Int32, timeLimit: Int32)
    requires ViewOK(v) && !OverCapacity(v, capacity)
    ensures EvictionSafe(v, capacity, timeLimit) && EvictAll(v, capacity, timeLimit) == v
  {
  }

  /** An item that is not in the arena is in no ring and anchors nothing. */
  lemma FreshUnlinked(v: View, h: Handle)
    requires DirOK(v.dir, v.nodes) && h !in v.nodes
    ensures forall p | p in v.dir.rings :: h !in v.dir.rings[p]
    ensures forall p | p in v.dir.anchors :: v.dir.anchors[p] != h
  {
    forall p | p in v.dir.rings ensures h !in v.dir.rings[p] {
      if h in v.dir.rings[p] { MemberPriority(v.dir, v.nodes, p, h); }
    }
  }

  /** Adding a new key at a fresh handle keeps the cache consistent. */
  lemma AddItemOK(v: View, item: Record, h: Handle)
    requires ViewOK(v) && item.key !in v.items && h !in v.nodes && PushSafe(v.dir, item.priority)
    ensures ViewOK(AddItem(v, item, h))
  {
    var r := AddItem(v, item, h);
    FreshUnlinked(v, h);
    RetypeOK(v.dir, v.nodes, h, item);
    PushBackOK(v.dir, v.nodes[h := item], item.priority, h);
    AddItemRings(v, item, h);
    AddItemExpiry(v, item, h);
  }

  lemma AddItemRings(v: View, item: Record, h: Handle)
    requires DirOK(v.dir, v.nodes) && ItemsOK(v) && RingsLive(v) && LiveRinged(v)
    requires item.key !in v.items && h !in v.nodes && PushSafe(v.dir, item.priority)
    ensures var r := AddItem(v, item, h); ItemsOK(r) && RingsLive(r) && LiveRinged(r)
  {
    FreshUnlinked(v, h);
    RetypeOK(v.dir, v.nodes, h, item);
    PushBackOK(v.dir, v.nodes[h := item], item.priority, h);
    AddItemKeys(v, item, h);
    AddItemRingsLive(v, item, h);
    AddItemLiveRinged(v, item, h);
  }

  lemma AddItemKeys(v: View, item: Record, h: Handle)
    requires ItemsOK(v) && item.key !in v.items && h !in v.nodes && PushSafe(v.dir, item.priority)
    ensures ItemsOK(AddItem(v, item, h))
  {
    var r := AddItem(v, item, h);
    forall k | k in r.items ensures r.items[k] in r.nodes && r.nodes[r.items[k]].key == k {
      if k != item.key { assert v.items[k] in v.nodes; }
    }
  }

  lemma AddItemRingsLive(v: View, item: Record, h: Handle)
    requires RingsLive(v) && item.key !in v.items && h !in v.nodes && PushSafe(v.dir, item.priority)
    requires forall p | p in v.dir.rings :: h !in v.dir.rings[p]
    ensures RingsLive(AddItem(v, item, h))
  {
    var r := AddItem(v, item, h);
    var p := item.priority;
    forall q, y | q in r.dir.rings && y in r.dir.rings[q] ensures IsLive(r, y) {
      if y != h {
        assert y in v.dir.rings[q] by {
          if q == p && p in v.dir.rings { assert y in v.dir.rings[p] + [h]; }
        }
        assert IsLive(v, y);
      }
    }
  }

  lemma AddItemLiveRinged(v: View, item: Record, h: Handle)
    requires KeysMatch(v.dir) && ItemsOK(v) && LiveRinged(v)
    requires item.key !in v.items && h !in v.nodes && PushSafe(v.dir, item.priority)
    ensures LiveRinged(AddItem(v, item, h))
  {
    var r := AddItem(v, item, h);
    var p := item.priority;
    forall k | k in r.items
      ensures r.items[k] in r.nodes && r.nodes[r.items[k]].priority in r.dir.rings
              && r.items[k] in r.dir.rings[r.nodes[r.items[k]].priority]
    {
      if k != item.key {
        var y := v.items[k];
        assert y != h;
        var q := v.nodes[y].priority;
        assert y in v.dir.rings[q];
        if q == p { assert y in v.dir.rings[p] + [h]; }
      } else {
        assert h in r.dir.rings[p];
      }
    }
  }

  lemma AddItemExpiry(v: View, item: Record, h: Handle)
    requires ItemsOK(v) && ExpiryOK(v) && item.key !in v.items && h !in v.nodes && PushSafe(v.dir, item.priority)
    ensures ExpiryOK(AddItem(v, item, h))
  {
    var r := AddItem(v, item, h);
    forall t | t in r.expireItems
      ensures IsLive(r, r.expireItems[t]) && r.nodes[r.expireItems[t]].expireTime == t
    {
      if t in v.expireItems {
        assert IsLive(v, v.expireItems[t]);
      }
    }
  }

  /** Updating an existing item from `item` keeps the cache consistent. */
  lemma UpdateItemOK(v: View, x: Handle, item: Record)
    requires ViewOK(v) && IsLive(v, x) && UpdateSafe(v, x, item)
    ensures ViewOK(UpdateItem(v, x, item))
  {
    UpdateKeys(v, x, item);
    UpdateExpiry(v, x, item);
    if v.nodes[x].priority == item.priority {
      UpdateTouchRings(v, x, item);
    } else {
      UpdateMoveRings(v, x, item);
    }
  }

  /** An update keeps every key, every handle and every item's key, so the same items are live. */
  lemma UpdateKeys(v: View, x: Handle, item: Record)
    requires ItemsOK(v) && UpdateSafe(v, x, item)
    ensures var r := UpdateItem(v, x, item);
            && ItemsOK(r) && r.items == v.items && r.nodes.Keys == v.nodes.Keys
            && (forall y | y in v.nodes :: r.nodes[y].key == v.nodes[y].key)
            && (forall y :: IsLive(r, y) <==> IsLive(v, y))
  {
  }

  lemma UpdateExpiry(v: View, x: Handle, item: Record)
    requires ItemsOK(v) && ExpiryOK(v) && IsLive(v, x) && UpdateSafe(v, x, item)
    ensures ExpiryOK(UpdateItem(v, x, item))
  {
    var r := UpdateItem(v, x, item);
    var o := v.nodes[x];
    UpdateKeys(v, x, item);
    if !(o.expireTime == item.expireTime && o.priority == item.priority) {
      forall t | t in r.expireItems
        ensures IsLive(r, r.expireItems[t]) && r.nodes[r.expireItems[t]].expireTime == t
      {
        if t in v.expireItems && (t != o.expireTime || o.expireTime == item.expireTime) {
          var y := v.expireItems[t];
          assert r.expireItems[t] == y;
          assert IsLive(v, y);
          if y == x { assert t == o.expireTime == item.expireTime; }
        } else {
          assert t == item.expireTime && r.expireItems[t] == x;
        }
      }
    }
  }

  /** Touching an item in its own ring, possibly with a new expiry time, keeps the rings consistent. */
  lemma UpdateTouchRings(v: View, x: Handle, item: Record)
    requires DirOK(v.dir, v.nodes) && ItemsOK(v) && RingsLive(v) && LiveRinged(v)
    requires UpdateSafe(v, x, item) && v.nodes[x].priority == item.priority
    ensures var r := UpdateItem(v, x, item); DirOK(r.dir, r.nodes) && RingsLive(r) && LiveRinged(r)
  {
    var r := UpdateItem(v, x, item);
    assert r.dir == Touch(v.dir, item.priority, x) && r.items == v.items && r.nodes.Keys == v.nodes.Keys;
    TouchRings(v, r, item.priority, x);
  }

  /**
   * A view that differs from a consistent one only by touching a safe member and by records
   * that keep their keys and priorities has consistent rings.
   */
  lemma TouchRings(v: View, r: View, p: Int32, x: Handle)
    requires DirOK(v.dir, v.nodes) && ItemsOK(v) && RingsLive(v) && LiveRinged(v) && TouchSafe(v.dir, p, x)
    requires r.dir == Touch(v.dir, p, x) && r.items == v.items && r.nodes.Keys == v.nodes.Keys
    requires forall y | y in v.nodes :: r.nodes[y].key == v.nodes[y].key && r.nodes[y].priority == v.nodes[y].priority
    ensures DirOK(r.dir, r.nodes) && RingsLive(r) && LiveRinged(r)
  {
    TouchDirOK(v, r, p, x);
    TouchOK(v.dir, v.nodes, p, x);
    TouchOrder(v.dir, p, x);
    forall y ensures IsLive(r, y) <==> IsLive(v, y) {
      if y in v.nodes { assert r.nodes[y].key == v.nodes[y].key; }
    }
    forall q, y | q in v.dir.rings ensures y in r.dir.rings[q] <==> y in v.dir.rings[q] {
      if q == p {
        assert r.dir.rings[p] == Touch(v.dir, p, x).rings[p];
      }
    }
    SameRingsLive(v, r);
    SameLiveRinged(v, r);
  }

  lemma TouchDirOK(v: View, r: View, p: Int32, x: Handle)
    requires DirOK(v.dir, v.nodes) && TouchSafe(v.dir, p, x) && r.dir == Touch(v.dir, p, x)
    requires forall y | y in v.nodes :: y in r.nodes && r.nodes[y].priority == v.nodes[y].priority
    ensures DirOK(r.dir, r.nodes)
  {
    TouchOK(v.dir, v.nodes, p, x);
    KeepPrioritiesOK(r.dir, v.nodes, r.nodes);
  }

  /**
   * A change that keeps every key, which item is live, and each ring's members keeps the
   * rings holding live items only.
   */
  lemma SameRingsLive(v: View, r: View)
    requires RingsLive(v) && (forall y :: IsLive(r, y) <==> IsLive(v, y))
    requires r.dir.rings.Keys == v.dir.rings.Keys
    requires forall q, y | q in v.dir.rings :: y in r.dir.rings[q] <==> y in v.dir.rings[q]
    ensures RingsLive(r)
  {
    forall q, y | q in r.dir.rings && y in r.dir.rings[q] ensures IsLive(r, y) {
      assert y in v.dir.rings[q];
    }
  }

  /** The same change, when it also keeps every priority, keeps every live item in its ring. */
  lemma SameLiveRinged(v: View, r: View)
    requires ItemsOK(v) && LiveRinged(v) && r.items == v.items && r.nodes.Keys == v.nodes.Keys
    requires forall y | y in v.nodes :: r.nodes[y].priority == v.nodes[y].priority
    requires r.dir.rings.Keys == v.dir.rings.Keys
    requires forall q, y | q in v.dir.rings :: y in r.dir.rings[q] <==> y in v.dir.rings[q]
    ensures LiveRinged(r)
  {
    forall k | k in r.items
      ensures r.items[k] in r.nodes && r.nodes[r.items[k]].priority in r.dir.rings
              && r.items[k] in r.dir.rings[r.nodes[r.items[k]].priority]
    {
      var y := v.items[k];
      assert y in v.dir.rings[v.nodes[y].priority];
    }
  }

  /** Moving an item from its ring to the back of another priority's ring keeps the rings consistent. */
  lemma UpdateMoveRings(v: View, x: Handle, item: Record)
    requires DirOK(v.dir, v.nodes) && ItemsOK(v) && RingsLive(v) && LiveRinged(v) && IsLive(v, x)
    requires UpdateSafe(v, x, item) && v.nodes[x].priority != item.priority
    ensures var r := UpdateItem(v, x, item); DirOK(r.dir, r.nodes) && RingsLive(r) && LiveRinged(r)
  {
    var d1 := Remove(v.dir, v.nodes[x].priority, x);
    MoveRemoveOK(v, x, item);
    MoveDirOK(v, x, item);
    UpdateKeys(v, x, item);
    MoveRingsLive(v, x, item, d1);
    MoveLiveRinged(v, x, item, d1);
  }

  /**
   * The first half of a priority change, `list_remove` on the item's old ring: the directory
   * stays well formed, the item is in no ring and anchors none, and the new priority's ring is
   * still sound; every other member stays where it was.
   */
  lemma MoveRemoveOK(v: View, x: Handle, item: Record)
    requires DirOK(v.dir, v.nodes) && UpdateSafe(v, x, item) && v.nodes[x].priority != item.priority
    ensures var d1 := Remove(v.dir, v.nodes[x].priority, x);
            && DirOK(d1, v.nodes) && Sound(d1, item.priority)
            && (forall q | q in d1.rings :: x !in d1.rings[q])
            && (forall q | q in d1.anchors :: d1.anchors[q] != x)
            && (forall q | q in d1.rings :: q in v.dir.rings && forall y | y in d1.rings[q] :: y in v.dir.rings[q])
            && (forall q, y | q in v.dir.rings && y in v.dir.rings[q] && y != x :: q in d1.rings && y in d1.rings[q])
  {
    var op := v.nodes[x].priority;
    TwoMembers(v.dir.rings[op], x, v.dir.anchors[op]);
    RemoveOK(v.dir, v.nodes, op, x);
    var d1 := Remove(v.dir, op, x);
    forall q | q in d1.anchors ensures d1.anchors[q] != x {
      assert d1.anchors[q] in v.nodes && v.nodes[d1.anchors[q]].priority == q;
      if q == op { assert d1.anchors[q] == v.dir.anchors[op]; }
    }
  }

  /**
   * Moving an item to another priority is removing it from its ring, giving its record the
   * new priority and pushing it on the new ring, and keeps the directory well formed.
   */
  lemma MoveDirOK(v: View, x: Handle, item: Record)
    requires DirOK(v.dir, v.nodes) && UpdateSafe(v, x, item) && v.nodes[x].priority != item.priority
    ensures var r, d1 := UpdateItem(v, x, item), Remove(v.dir, v.nodes[x].priority, x);
            && DirOK(r.dir, r.nodes) && PushSafe(d1, item.priority)
            && r.dir == PushBack(d1, item.priority, x)
  {
    var op, np := v.nodes[x].priority, item.priority;
    var w := Retime(v, x, item.expireTime);
    MoveRemoveOK(v, x, item);
    var d1 := Remove(v.dir, op, x);
    KeepPrioritiesOK(d1, v.nodes, w.nodes);
    var o' := w.nodes[x].(priority := np);
    RetypeOK(d1, w.nodes, x, o');
    PushBackOK(d1, w.nodes[x := o'], np, x);
  }

  lemma MoveRingsLive(v: View, x: Handle, item: Record, d1: Dir)
    requires RingsLive(v) && IsLive(v, x) && UpdateSafe(v, x, item) && v.nodes[x].priority != item.priority
    requires (forall y :: IsLive(UpdateItem(v, x, item), y) <==> IsLive(v, y))
    requires d1 == Remove(v.dir, v.nodes[x].priority, x) && PushSafe(d1, item.priority)
    requires UpdateItem(v, x, item).dir == PushBack(d1, item.priority, x)
    requires forall q | q in d1.rings :: q in v.dir.rings && forall y | y in d1.rings[q] :: y in v.dir.rings[q]
    ensures RingsLive(UpdateItem(v, x, item))
  {
    var r := UpdateItem(v, x, item);
    var np := item.priority;
    forall q, y | q in r.dir.rings && y in r.dir.rings[q] ensures IsLive(r, y) {
      if y != x {
        assert y in d1.rings[q] by {
          if q == np && np in d1.rings { assert y in d1.rings[np] + [x]; }
        }
      }
    }
  }

  lemma MoveLiveRinged(v: View, x: Handle, item: Record, d1: Dir)
    requires ItemsOK(v) && LiveRinged(v) && IsLive(v, x) && UpdateSafe(v, x, item) && v.nodes[x].priority != item.priority
    requires d1 == Remove(v.dir, v.nodes[x].priority, x) && PushSafe(d1, item.priority) && KeysMatch(d1)
    requires UpdateItem(v, x, item).dir == PushBack(d1, item.priority, x)
    requires forall q, y | q in v.dir.rings && y in v.dir.rings[q] && y != x :: q in d1.rings && y in d1.rings[q]
    ensures LiveRinged(UpdateItem(v, x, item))
  {
    var r := UpdateItem(v, x, item);
    var np := item.priority;
    forall k | k in r.items
      ensures r.items[k] in r.nodes && r.nodes[r.items[k]].priority in r.dir.rings
              && r.items[k] in r.dir.rings[r.nodes[r.items[k]].priority]
    {
      var y := v.items[k];
      if y != x {
        var q := v.nodes[y].priority;
        assert y in v.dir.rings[q];
        assert y in d1.rings[q];
        if q == np { assert y in d1.rings[np] + [x]; }
      }
    }
  }

  /** `set` keeps the cache consistent. */
  lemma SetOK(v: View, item: Record, h: Handle)
    requires ViewOK(v) && SetSafe(v, item, h)
    ensures ViewOK(Set(v, item, h))
  {
    if item.key !in v.items {
      AddItemOK(v, item, h);
    } else {
      UpdateItemOK(v, v.items[item.key], item);
    }
  }

  /**
   * After `set` the key names the item: a new key the stored `item`, an existing key its old
   * item, which keeps its value and takes the new priority and expiry time. Every other key
   * keeps its item and that item its record.
   */
  lemma SetLookup(v: View, item: Record, h: Handle)
    requires ItemsOK(v) && SetSafe(v, item, h)
    ensures var r := Set(v, item, h);
            var isNew := item.key !in v.items;
            var x := if isNew then h else v.items[item.key];
            && r.items.Keys == v.items.Keys + {item.key}
            && |r.items| == |v.items| + (if isNew then 1 else 0)
            && r.items[item.key] == x
            && r.nodes[x] == Record(item.key, if isNew then item.value else v.nodes[x].value, item.priority, item.expireTime)
            && (forall k | k in v.items && k != item.key :: r.items[k] == v.items[k] && r.nodes[v.items[k]] == v.nodes[v.items[k]])
  {
    if item.key !in v.items {
      AddLookup(v, item, h);
    } else {
      UpdateLookup(v, item);
    }
  }

  /** The new-key branch of `SetLookup`. */
  lemma AddLookup(v: View, item: Record, h: Handle)
    requires ItemsOK(v) && item.key !in v.items && h !in v.nodes && PushSafe(v.dir, item.priority)
    ensures var r := AddItem(v, item, h);
            && r.items.Keys == v.items.Keys + {item.key}
            && |r.items| == |v.items| + 1
            && r.items[item.key] == h && r.nodes[h] == item
            && (forall k | k in v.items :: r.items[k] == v.items[k] && r.nodes[v.items[k]] == v.nodes[v.items[k]])
  {
    forall k | k in v.items ensures v.items[k] != h {
      assert v.items[k] in v.nodes;
    }
  }

  /** The existing-key branch of `SetLookup`: only the record of the key's own item changes. */
  lemma UpdateLookup(v: View, item: Record)
    requires ItemsOK(v) && item.key in v.items && UpdateSafe(v, v.items[item.key], item)
    ensures var x := v.items[item.key];
            var r := UpdateItem(v, x, item);
            && r.items == v.items
            && r.nodes[x] == Record(item.key, v.nodes[x].value, item.priority, item.expireTime)
            && (forall k | k in v.items && k != item.key :: r.nodes[v.items[k]] == v.nodes[v.items[k]])
  {
    var x := v.items[item.key];
    UpdateRecord(v, x, item);
    forall k | k in v.items && k != item.key ensures v.items[k] != x {
      assert v.nodes[v.items[k]].key == k;
    }
  }

  /**
   * An update rewrites only the record of `x`: it keeps its key and value and takes the new
   * priority and expiry time; `mItems` is unchanged.
   */
  lemma UpdateRecord(v: View, x: Handle, item: Record)
    requires UpdateSafe(v, x, item)
    ensures var r := UpdateItem(v, x, item);
            && r.items == v.items && r.nodes.Keys == v.nodes.Keys
            && r.nodes[x] == v.nodes[x].(priority := item.priority, expireTime := item.expireTime)
            && (forall y | y in v.nodes && y != x :: r.nodes[y] == v.nodes[y])
  {
  }

  /** After `set` the item is the most recently used of its (new) priority. */
  lemma SetRecency(v: View, item: Record, h: Handle)
    requires RingsDistinct(v.dir) && SetSafe(v, item, h)
    ensures var r := Set(v, item, h);
            var x := if item.key !in v.items then h else v.items[item.key];
            item.priority in r.dir.rings && r.dir.rings[item.priority][|r.dir.rings[item.priority]| - 1] == x
  {
    if item.key in v.items && v.nodes[v.items[item.key]].priority == item.priority {
      TouchOrder(v.dir, item.priority, v.items[item.key]);
    }
  }

  /**
   * After `set` that changes something, the item's new expiry time is registered, and to the
   * item when that time was free; a time already taken keeps its earlier item; the item's old
   * time is erased when the time changes; every expiry entry other than the item's old and new
   * times stays as it was; and a `set` that changes neither time nor priority leaves the
   * expiry index as it was.
   */
  lemma SetExpiry(v: View, item: Record, h: Handle)
    requires SetSafe(v, item, h)
    ensures var r := Set(v, item, h);
            var isNew := item.key !in v.items;
            var x := if isNew then h else v.items[item.key];
            && ((isNew || v.nodes[x].expireTime != item.expireTime || v.nodes[x].priority != item.priority) ==>
                  item.expireTime in r.expireItems && (item.expireTime !in v.expireItems ==> r.expireItems[item.expireTime] == x))
            && (forall t | t in v.expireItems && t != item.expireTime && (isNew || t != v.nodes[x].expireTime) ::
                  t in r.expireItems && r.expireItems[t] == v.expireItems[t])
            && (item.expireTime in v.expireItems ==> r.expireItems[item.expireTime] == v.expireItems[item.expireTime])
            && (!isNew && v.nodes[x].expireTime != item.expireTime ==> v.nodes[x].expireTime !in r.expireItems)
            && (!isNew && v.nodes[x].expireTime == item.expireTime && v.nodes[x].priority == item.priority ==>
                  r.expireItems == v.expireItems)
  {
  }

  /**
   * `get` keeps the cache consistent and changes nothing but the recency order of the found
   * item's ring, where the item becomes the most recently used; an absent key changes nothing.
   */
  lemma GetOK(v: View, key: string)
    requires ViewOK(v) && GetSafe(v, key)
    ensures var r := Get(v, key);
            && ViewOK(r)
            && r.items == v.items && r.expireItems == v.expireItems && r.nodes == v.nodes
            && r.dir.anchors == v.dir.anchors
            && (key !in v.items ==> r == v)
            && (key in v.items ==>
                  var x := v.items[key];
                  var p := v.nodes[x].priority;
                  && r.dir.rings.Keys == v.dir.rings.Keys
                  && (forall q | q in v.dir.rings && q != p :: r.dir.rings[q] == v.dir.rings[q])
                  && multiset(r.dir.rings[p]) == multiset(v.dir.rings[p])
                  && r.dir.rings[p][|r.dir.rings[p]| - 1] == x)
  {
    if key in v.items {
      var r := Get(v, key);
      var x := v.items[key];
      var p := v.nodes[x].priority;
      TouchOK(v.dir, v.nodes, p, x);
      TouchOrder(v.dir, p, x);
      TouchRings(v, r, p, x);
    }
  }
}
