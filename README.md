# PECache: a priority/expiry cache, modelled in Dafny

`PECache` (`source.cpp`) is a bounded key/value cache whose items carry a priority and an
expiry time. It keeps three indexes over the same heap-allocated `Item`s:

- `mItems`, key to item;
- `mExpireItems`, an ordered map from expiry time to item;
- `mPriorityItems`, an ordered map from priority to the *anchor* of that priority's ring.
  The ring is a circular doubly-linked list threaded through the items' `prev`/`next`
  pointers. The anchor is its least recently used member and the anchor's `prev` (the tail)
  its most recently used one.

`get` touches the found item, moving it to the tail of its ring. `set` either stores a new
item or updates the existing one. `set_capacity` shrinks the cache one victim at a time. A
victim is the earliest-expiring item when its time is within `TIME_LIMIT`, and otherwise the
anchor of the lowest priority.

The model has four layers:

- **Rings** (`rings.dfy`): the pointer level. `next`/`prev` are maps on an arena of `Handle`s,
  where a missing entry is a null pointer. `Linked(next, prev, s)` says the pointers close the
  sequence `s` into a ring. There is one lemma per write pattern of the list functions. Each
  shows what ring the writes leave, including the two `list_rebuild` cases that break a ring.
- **Directory** (`directory.dfy`, `links.dfy`): `mPriorityItems` together with each ring's
  order, as the datatype `Dir`.
  - `PushBack`, `Touch` and `Remove` are the list functions at the level of order.
  - `DirOK` is the well-formedness they keep.
  - The `Links` lemmas prove that the pointer writes link every ring exactly as `Dir` lists it.
  - A *stale* anchor is an anchor that `list_remove` unlinked but left registered. It is
    represented, not excluded, because eviction produces it routinely.
- **CacheSpec** (`cachespec.dfy`): the abstract state `View` and `get`, `set` and the eviction
  loop as functions on it. Alongside them are:
  - the consistency invariant `ViewOK` and the lemmas that each operation keeps it;
  - the victim policy;
  - what `set` does to lookup, recency and expiry.
- **Cache** (`cache.dfy`): the class `PECache` with the source's fields. Each method changes
  them in place, with exactly the pointer writes of the source, and is proved to change
  `State()` as the matching `CacheSpec` function says. `Trace` (`trace.dfy`) runs the five
  `set`s of `main`, and then a `set_capacity(3)`, at the level of `View`.

Where the source would dereference a null pointer, break a ring, or read or write an item it
has already deleted, the model's preconditions exclude the case. The `Safe` predicates name
those cases; see "Left out".

The model follows the code as written:

- `list_remove` does not advance the anchor when it unlinks the anchor of a larger ring. The
  anchor goes stale.
- `std::map::insert` does not overwrite an existing expiry entry, so a colliding expiry time
  keeps its old item.
- `set` on an existing key never changes the stored value.
- `get` returns the item, not its value.
- There is no priority-range check and no capacity error.
  - A negative capacity converts to a huge unsigned size in `mItems.size() > capacity`, so it
    evicts nothing.
  - It is still stored as the new `maxCapacity`.

## Model

| member | source | states |
|---|---|---|
| OrderedMaps.Least | source.cpp:165 | a non-empty key set has a least element |
| OrderedMaps.LeastUnique | source.cpp:165 | the least element of a key set is unique, so `begin()` is well defined |
| OrderedMaps.MinKey | source.cpp:165 | `begin()->first` of a non-empty ordered map is its least key |
| OrderedMaps.First | source.cpp:165-173 | returns a key of the map that no other key is below, which is `MinKey` |
| Rings.RemoveAt | source.cpp:78-82 | the ring without position `j`: one shorter, elements before `j` kept, later ones shifted down |
| Rings.MoveToBack | source.cpp:42-50 | same length, the element at `j` last, the others in their old order |
| Rings.RemoveAtMembers | source.cpp:78-82 | unlinking keeps the ring free of repeats and drops exactly the removed member |
| Rings.MoveToBackMembers | source.cpp:42-50 | relinking at the tail keeps the same members (as a multiset) without repeats |
| Rings.LinkedWalk | source.cpp:231-235 | walking `next` from the anchor visits every member in order and is back at the anchor after `\|s\|` steps; `prev` walks them in reverse |
| Rings.LinkedPushBack | source.cpp:100-104 | the four writes of `list_push_back`/`list_insert` on a linked ring link it with the new item appended |
| Rings.LinkedMoveToBack | source.cpp:42-50 | the six writes of `list_rebuild` on an inner member link the ring with that member moved to the back |
| Rings.LinkedRemoveAt | source.cpp:78-82 | bridging the neighbours and nulling the item's links link the ring without the item |
| Rings.TouchTailDetaches | source.cpp:36-51 | `list_rebuild` on the tail of a ring of two or more makes the tail point to itself and leaves `next` from the anchor going round the others only |
| Rings.TouchAnchorIsolates | source.cpp:36-51 | `list_rebuild` on the anchor of a ring of two or more links the anchor to itself both ways, cutting off the other members |
| Directory.PushBack | source.cpp:85-106 | the ring order after `list_push_back`: a new priority gets a ring of the item alone, anchored at it; otherwise the item is appended after the tail (no contract; `PushBackOK` states its properties) |
| Directory.Touch | source.cpp:42-50 | the ring order after `list_rebuild` on a safe member: the member moved to the back, the anchor kept (no contract; `TouchOK` and `TouchOrder`) |
| Directory.Remove | source.cpp:65-83 | the ring order after `list_remove`: a ring of one erases the priority, otherwise the item leaves the ring and the anchor stays (no contract; `RemoveOK`) |
| Directory.PushBackOK | source.cpp:85-106 | `list_push_back` of an item in no ring keeps the directory well formed, makes the item the tail, keeps an existing anchor or anchors a new ring at the item, and changes no other priority |
| Directory.TouchOK | source.cpp:36-51 | a safe `list_rebuild` keeps the directory well formed, every anchor in place and every other ring unchanged |
| Directory.TouchOrder | source.cpp:46-50 | a touched ring has the same members, the touched item last and the others in their old relative order |
| Directory.RemoveOK | source.cpp:65-83 | `list_remove` keeps the directory well formed and drops exactly the item; a ring of one is erased; otherwise the anchor stays (stale when it was the item) and the other members keep their order |
| Directory.RetypeOK | source.cpp:145-147 | an item in no ring and anchoring nothing can take a new record (priority) without breaking the directory |
| Directory.KeepPrioritiesOK | source.cpp:140 | records that keep their priorities (an expiry change) keep the directory well formed |
| Links.SoundLinks | source.cpp:67-71 | on a sound linked ring the anchor and the members have both links, and `head->next == head` holds exactly for a ring of one |
| Links.RebuildLinked | source.cpp:36-51 | the writes of `list_rebuild` on a safely touched member leave every ring linked in `Touch` order |
| Links.RebuildLinkedAlone | source.cpp:36-51 | on the only member of a ring the writes of `list_rebuild` leave `next` and `prev` equal to what they were, and `Touch` leaves the directory unchanged |
| Links.RebuildLinkedInside | source.cpp:42-50 | on an inner member `list_rebuild` links its ring with that member moved to the back |
| Links.InsertLinked | source.cpp:53-63 | the writes of `list_insert` leave every ring linked, the item appended to its priority's ring |
| Links.NewRingLinked | source.cpp:89-94 | an item linked to itself is a new ring of one and the other rings stay linked |
| Links.RemoveLinked | source.cpp:78-82 | the unlinking writes of `list_remove` leave every ring linked, the item removed from its ring |
| Links.RemoveAloneLinked | source.cpp:67-76 | erasing the priority of a ring of one leaves the other rings linked |
| CacheSpec.InsertIfAbsent | source.cpp:141 | `std::map::insert`: the entry is added only when the time is not registered yet (no contract; `SetExpiry` states the effect) |
| CacheSpec.Get | source.cpp:113-124 | `get` on the abstract state: a present key's item is touched in its ring, a missing key changes nothing (no contract; `GetOK`) |
| CacheSpec.Set | source.cpp:126-158 | `set` on the abstract state: the new-key branch `AddItem` or the existing-key branch `UpdateItem` (no contract; `SetOK`, `SetLookup`, `SetRecency`, `SetExpiry`) |
| CacheSpec.AddItem | source.cpp:153-157 | the new-key branch: push back on the priority's ring, insert the key, insert the expiry time if absent (no contract; `AddItemOK`) |
| CacheSpec.UpdateItem | source.cpp:129-152 | the existing-key branch: touch only when time and priority are unchanged, else retime and then move or touch (no contract; `UpdateItemOK`) |
| CacheSpec.Retime | source.cpp:136-141 | erase the old time when it changes, write the new time, insert it if absent (no contract; `UpdateExpiry`, `SetExpiry`) |
| CacheSpec.Move | source.cpp:143-148 | remove from the old ring, take the new priority, push on the new ring (no contract; `MoveDirOK`, `UpdateMoveRings`) |
| CacheSpec.Victim | source.cpp:165-175 | the item under the least expiry time when it is within the limit, else the anchor of the least priority (no contract; `VictimPolicy`, `VictimLive`) |
| CacheSpec.Evict | source.cpp:177-180 | the victim leaves `mItems` under its key, `mExpireItems` under its time, and its ring (no contract; `EvictOK`) |
| CacheSpec.EvictStep | source.cpp:165-184 | one round of the loop: evict the victim (no contract; `EvictStepOK`) |
| CacheSpec.EvictAll | source.cpp:163-186 | the loop: rounds while over capacity read as unsigned (no contract; `EvictAllOK`) |
| CacheSpec.SetNewKey | source.cpp:153-157 | `set` of a key not in `mItems` is safe when the priority can be pushed, and is the new-key branch |
| CacheSpec.SetOK | source.cpp:126-158 | `set` keeps the cache consistent: keys name live items, rings hold exactly the live items by priority, expiry entries name live items with that time |
| CacheSpec.AddItemOK | source.cpp:153-157 | storing a new key at a fresh item keeps the cache consistent |
| CacheSpec.UpdateItemOK | source.cpp:129-152 | updating an existing item keeps the cache consistent |
| CacheSpec.UpdateKeys | source.cpp:129-152 | an update keeps every key, every item and every item's key, so the same items stay live |
| CacheSpec.UpdateExpiry | source.cpp:136-141 | erasing the old time and inserting the new one keep every expiry entry naming a live item with that time |
| CacheSpec.UpdateTouchRings | source.cpp:131-134 | an update that keeps the priority keeps the rings consistent |
| CacheSpec.UpdateMoveRings | source.cpp:143-148 | a priority change keeps the rings consistent |
| CacheSpec.MoveRemoveOK | source.cpp:145 | `list_remove` from the old ring leaves the item in no ring and anchoring nothing, the directory well formed and the new ring still sound |
| CacheSpec.MoveDirOK | source.cpp:143-148 | a priority change is remove, retag, push back on the new ring, and keeps the directory well formed |
| CacheSpec.SetLookup | source.cpp:126-158 | after `set` the key names the stored item (new key) or its old item, which keeps its value and takes the new priority and expiry time; other keys and their records are unchanged |
| CacheSpec.AddLookup | source.cpp:153-157 | a new key names the freshly stored item, one more key, every other key and its record unchanged |
| CacheSpec.UpdateLookup | source.cpp:129-152 | an existing key keeps its item, whose value stays and which takes the new priority and time; other keys' records unchanged |
| CacheSpec.UpdateRecord | source.cpp:140-146 | an update changes only the item's priority and expiry time in its record, and no key |
| CacheSpec.SetRecency | source.cpp:131-157 | after `set` the item is the tail (most recently used) of its new priority's ring |
| CacheSpec.SetExpiry | source.cpp:135-156 | after `set` that changes something the new expiry time is registered, to the item when it was free and to its earlier item when taken; a changed old time is erased; other expiry entries are unchanged; a `set` changing neither time nor priority leaves the expiry index as it was |
| CacheSpec.GetOK | source.cpp:113-124 | `get` keeps the cache consistent and changes only the recency order of the found item's ring, where the item becomes the tail; a missing key changes nothing |
| CacheSpec.VictimLive | source.cpp:165-175 | the victim of a safe round is a live item |
| CacheSpec.VictimPolicy | source.cpp:165-175 | the victim is the earliest-expiring item when some time is within the limit; otherwise the anchor (first in its sound ring) of a priority no live item is below |
| CacheSpec.FallbackVictim | source.cpp:171-175 | when the least expiry time is past the limit the victim is the anchor of the least priority |
| CacheSpec.VictimByDefault | source.cpp:165-170 | with `TIME_LIMIT == INT_MAX` the victim is always the item under the earliest expiry time |
| CacheSpec.EvictOK | source.cpp:177-184 | evicting a live item keeps the cache consistent, takes exactly its key out, leaves it in no ring and keeps every other key's item |
| CacheSpec.EvictStepOK | source.cpp:164-185 | one round removes a live victim, exactly one key, and keeps the cache consistent |
| CacheSpec.EvictAllOK | source.cpp:163-186 | the loop keeps the cache consistent, ends at or under capacity (exactly at it when it ran) and keeps each surviving key with its item |
| CacheSpec.EvictionRound | source.cpp:164-185 | a safe round over capacity followed by a safe loop is a safe loop ending where that one ends |
| CacheSpec.EvictionStops | source.cpp:164 | at or under capacity the loop does nothing |
| Cache.PECache.constructor | source.cpp:109-111 | an empty, consistent cache with the given capacity |
| Cache.PECache.ListRebuild | source.cpp:36-51 | the exact pointer writes of `list_rebuild`; on a safe member the rings become `Touch` of the old ones |
| Cache.PECache.ListInsert | source.cpp:53-63 | the exact pointer writes of `list_insert`; the rings become `PushBack` of the old ones |
| Cache.PECache.ListPushBack | source.cpp:85-106 | a new priority is registered with a self-linked item; otherwise the writes of `list_insert`; the directory becomes `PushBack` of the old one |
| Cache.PECache.ListRemove | source.cpp:65-83 | a ring of one leaves the links untouched and erases the priority; otherwise the neighbours are bridged and the item's links nulled; the directory becomes `Remove` of the old one |
| Cache.PECache.Get | source.cpp:113-124 | returns the item under the key or none, keeps the cache consistent and changes it as `CacheSpec.Get` |
| Cache.PECache.Set | source.cpp:126-158 | keeps the cache consistent, changes it as `CacheSpec.Set`, allocates exactly when the key is new |
| Cache.PECache.SetNew | source.cpp:153-157 | the new-key branch: the state becomes `AddItem` of the old one and the allocator advances by one |
| Cache.PECache.Attach | source.cpp:154 | the fresh item is stored and appended to its ring, all rings stay linked, the indexes are untouched |
| Cache.PECache.SetExisting | source.cpp:129-152 | the existing-key branch: the state becomes `UpdateItem` of the old one and the rings stay linked |
| Cache.PECache.Retime | source.cpp:136-141 | the expiry update: the state becomes `CacheSpec.Retime` of the old one, pointers untouched |
| Cache.PECache.Reprioritize | source.cpp:143-148 | the priority change: the state becomes `CacheSpec.Move` of the old one and the rings stay linked |
| Cache.PECache.SetCapacity | source.cpp:160-188 | keeps the cache consistent, stores the new capacity, and the state becomes `EvictAll` of the old one when the capacity shrinks and stays otherwise |
| Cache.PECache.EvictOne | source.cpp:165-184 | one round: the state becomes `EvictStep` of the old one and the rings stay linked |
| Cache.PECache.PickVictim | source.cpp:165-175 | returns `CacheSpec.Victim` of the current state |
| Cache.PECache.Evict | source.cpp:177-184 | the state becomes `CacheSpec.Evict` of the old one and the rings stay linked |
| Trace.SetA | source.cpp:246 | the first `set` of `main` on the empty cache gives V1 |
| Trace.SetB | source.cpp:247 | the second `set` gives V2, a new ring for priority 4 |
| Trace.SetC | source.cpp:248 | the third `set` gives V3, C appended after A in priority 5 |
| Trace.SetD | source.cpp:249 | the fourth `set` gives V4, D appended after C |
| Trace.SetE | source.cpp:250 | the fifth `set` gives V5, a new ring for priority 6 |
| Trace.MainRun | source.cpp:243-250 | the five `set`s of `main` from the empty cache end in V5 |
| Trace.MainKeys | source.cpp:246-250 | after `main`'s `set`s the keys are A to E |
| Trace.MainTimes | source.cpp:246-250 | after `main`'s `set`s the expiry times are 11 to 15 |
| Trace.MainPriorities | source.cpp:246-250 | after `main`'s `set`s the priorities are 4, 5 and 6 |
| Trace.MainRing | source.cpp:246-249 | priority 5's ring is A, C, D anchored at A |
| Trace.MainConsistent | source.cpp:243-250 | every state `main` passes through is consistent |
| Trace.MainOK | source.cpp:243-250 | the cache `main` builds is consistent |
| Trace.MainSize | source.cpp:246-250 | it holds five items |
| Trace.FirstVictim | source.cpp:171-175 | with time limit 10 the first victim of `set_capacity(3)` is B, the anchor of priority 4 |
| Trace.UnlinkB | source.cpp:67-75 | removing B, alone in its ring, erases priority 4 |
| Trace.RemoveB | source.cpp:177-180 | evicting B gives V6 |
| Trace.EvictB | source.cpp:164-185 | the first round gives V6 |
| Trace.KeysWithoutB | source.cpp:177-180 | V6 has expiry times 11, 13, 14, 15 and priorities 5, 6 |
| Trace.AfterB | source.cpp:164-185 | V6 is consistent and holds four items |
| Trace.SecondVictim | source.cpp:171-175 | the second victim is A, the anchor of priority 5 |
| Trace.RingWithoutB | source.cpp:65-83 | priority 5's ring is still A, C, D anchored at A |
| Trace.UnlinkA | source.cpp:78-82 | unlinking A leaves the ring C, D with A still the anchor |
| Trace.RemoveA | source.cpp:177-180 | evicting A gives V7 |
| Trace.EvictA | source.cpp:164-185 | the second round gives V7 |
| Trace.AfterA | source.cpp:164 | V7 is consistent, holds three items and stops the loop |
| Trace.SecondRound | source.cpp:164-185 | from V6 the loop ends in V7 |
| Trace.CapacityThree | source.cpp:160-188 | `set_capacity(3)` with time limit 10 on `main`'s cache is safe and ends in V7 |
| Trace.CapacityThreeKeys | source.cpp:160-188 | the keys left are C, D and E |
| Trace.StaleAnchor | source.cpp:65-83 | priority 5 is still anchored at A, which is no longer live, while its ring is C, D |

## Left out

- `empty`, `print` and `build_from_file` are left out: they only free memory, write to the
  console or read a file and echo its lines. `LinkedWalk` states what the ring walk of
  `print` relies on.
- Memory is not freed: items live in an arena and are never reclaimed. `set_capacity` deletes
  a victim that was alone in its ring twice, once in `list_remove` and once after it. The model
  does not track that, since nothing is freed.
- `PECache::TIME_LIMIT` is a parameter `timeLimit` of `SetCapacity` and the eviction
  functions. `VictimByDefault` covers its initial value `INT_MAX`.
- Stale anchors are freed items. A ring's anchor goes stale only when eviction removes it
  (`set` never moves an anchor, see below), and `set_capacity` deletes every victim (line
  182). Every later `list_rebuild`, `list_insert`, `list_push_back` or `list_remove` on that
  priority starts by reading the anchor (`head->prev`, `head->next`), which is a
  use-after-free. The `Safe` predicates therefore require the ring they work on to be sound
  (`Directory.Sound`: the anchor is its first member). That also excludes every live member
  of a ring whose anchor went stale.
- Cache.PECache.Get: requires `CacheSpec.GetSafe`. Two cases are excluded:
  - a found item whose ring's anchor is stale, which is a use-after-free in `list_rebuild`;
  - a found item that is the anchor or the tail of a ring of two or more, which breaks that
    ring. The broken links are stated (`Rings.TouchAnchorIsolates`, `Rings.TouchTailDetaches`,
    `ListRebuild`'s pointer postcondition), but the cache is not followed past them.
- Cache.PECache.Set: requires `CacheSpec.SetSafe`. It excludes:
  - the same touches as `get`;
  - a new item pushed onto a ring whose anchor is stale (use-after-free);
  - a change to a priority whose ring is missing (`list_insert`'s `at` throws) or stale
    (use-after-free);
  - a priority change of an anchor. When the anchor is alone in its ring, `list_remove`
    deletes it (line 73) and line 146 then writes through the freed pointer. In a larger ring
    it would stay the registered anchor of its old ring while linked into the new one.
- Cache.PECache.SetCapacity: requires `CacheSpec.EvictionSafe` when the capacity shrinks.
  Every round must have:
  - a non-empty `mExpireItems` (`begin()` of an empty map is not dereferenceable);
  - a lowest priority to fall back on when nothing has expired;
  - a victim whose ring is sound. A victim that is a stale anchor, or a live member of a ring
    whose anchor was evicted in an earlier round, makes `list_remove` read the deleted anchor.
  
  With the default `TIME_LIMIT` and capacity 2, the cache `main` builds already reaches the
  second case. The first round evicts A (earliest expiry), which stays the anchor of priority
  5. The third round picks C, and `list_remove` reads A's `next`. The source's null check on
  the victim is always true here, since `begin()->second` is never null.
- Cache.PECache.Set: for an existing key the caller's `Item` is neither stored nor freed, and
  its value is ignored. The model passes the record by value.
- Cache.PECache.ListRebuild: after a touch that breaks a ring, the ghost ring listing is left
  as it was and no longer describes the pointers. Only the pointer writes are stated for that
  case.
- `Trace` follows `main` and the `set_capacity(3)` scenario on the abstract state `View`, not
  through the class's methods.
- Integer width: all source integers are `Int32`. Nothing in the modelled code does
  arithmetic on them. `mItems.size() > capacity` is modelled with its unsigned conversion
  (`CacheSpec.OverCapacity`).
