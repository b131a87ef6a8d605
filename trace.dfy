/**
 * The run of `main`: a cache of capacity 5 receives the items A to E, and the directory that
 * `print` would walk is then known exactly. After it, `set_capacity(3)` with a time limit
 * below every expiry time evicts B and then A, leaving a stale anchor for priority 5.
 */
module Trace {
  import opened CTypes
  import opened Rings
  import opened Directory
  import CacheSpec

  /** The items `main` sets, in order: key, value, priority, expiry time. */
  const A := Record("A", 12, 5, 11)
  const B := Record("B", 12, 4, 12)
  const C := Record("C", 12, 5, 13)
  const D := Record("D", 12, 5, 14)
  const E := Record("E", 12, 6, 15)

  /**
   * The state after each `set` of `main`, each written as the one before plus the new item:
   * the n-th item set is stored at handle n - 1, registered under its expiry time and put at
   * the back of its priority's ring.
   */
  const V1 := CacheSpec.View(map["A" := 0], map[11 := 0], Dir(map[5 := 0], map[5 := [0]]), map[0 := A])
  const V2 := CacheSpec.View(V1.items["B" := 1], V1.expireItems[12 := 1],
                             Dir(V1.dir.anchors[4 := 1], V1.dir.rings[4 := [1]]), V1.nodes[1 := B])
  const V3 := CacheSpec.View(V2.items["C" := 2], V2.expireItems[13 := 2],
                             Dir(V2.dir.anchors, V2.dir.rings[5 := [0, 2]]), V2.nodes[2 := C])
  const V4 := CacheSpec.View(V3.items["D" := 3], V3.expireItems[14 := 3],
                             Dir(V3.dir.anchors, V3.dir.rings[5 := [0, 2, 3]]), V3.nodes[3 := D])
  const V5 := CacheSpec.View(V4.items["E" := 4], V4.expireItems[15 := 4],
                             Dir(V4.dir.anchors[6 := 4], V4.dir.rings[6 := [4]]), V4.nodes[4 := E])

  /** The first `set` of `main`: A opens priority 5's ring. */
  lemma SetA()
    ensures CacheSpec.SetSafe(CacheSpec.Empty, A, 0) && CacheSpec.Set(CacheSpec.Empty, A, 0) == V1
  {
    CacheSpec.SetNewKey(CacheSpec.Empty, A, 0);
  }

  /** B opens priority 4's ring. */
  lemma SetB()
    ensures CacheSpec.SetSafe(V1, B, 1) && CacheSpec.Set(V1, B, 1) == V2
  {
    CacheSpec.SetNewKey(V1, B, 1);
  }

  /** Before C is set its key and handle are unused and priority 5's ring is sound. */
  lemma FreshC()
    ensures "C" !in V2.items && 2 !in V2.nodes && Sound(V2.dir, 5)
  {
  }

  /** C joins priority 5's ring behind A. */
  lemma SetC()
    ensures CacheSpec.SetSafe(V2, C, 2) && CacheSpec.Set(V2, C, 2) == V3
  {
    FreshC();
    CacheSpec.SetNewKey(V2, C, 2);
    assert V2.dir.rings[5] + [2] == [0, 2];
  }

  /** Before D is set its key and handle are unused and priority 5's ring is sound. */
  lemma FreshD()
    ensures "D" !in V3.items && 3 !in V3.nodes && Sound(V3.dir, 5)
  {
  }

  /** D joins priority 5's ring behind C. */
  lemma SetD()
    ensures CacheSpec.SetSafe(V3, D, 3) && CacheSpec.Set(V3, D, 3) == V4
  {
    FreshD();
    CacheSpec.SetNewKey(V3, D, 3);
    assert V3.dir.rings[5] + [3] == [0, 2, 3];
  }

  /** Before E is set its key and handle are unused and priority 6 has no ring. */
  lemma FreshE()
    ensures "E" !in V4.items && 4 !in V4.nodes && 6 !in V4.dir.anchors
  {
  }

  /** E opens priority 6's ring. */
  lemma SetE()
    ensures CacheSpec.SetSafe(V4, E, 4) && CacheSpec.Set(V4, E, 4) == V5
  {
    FreshE();
    CacheSpec.SetNewKey(V4, E, 4);
  }

  /** `main`'s five calls of `set` on an empty cache whose allocator starts at handle 0. */
  ghost function MainRun(): (v: CacheSpec.View)
    ensures v == V5
  {
    SetA(); SetB(); SetC(); SetD(); SetE();
    CacheSpec.Set(CacheSpec.Set(CacheSpec.Set(CacheSpec.Set(CacheSpec.Set(CacheSpec.Empty, A, 0), B, 1), C, 2), D, 3), E, 4)
  }

  /** After `main` (`MainRun` is `V5`) the keys A to E are registered. */
  lemma MainKeys()
    ensures V5.items.Keys == {"A", "B", "C", "D", "E"}
  {
  }

  /** After `main` every expiry time from 11 to 15 is registered. */
  lemma MainTimes()
    ensures V5.expireItems.Keys == {11, 12, 13, 14, 15}
  {
  }

  /** After `main` the priorities are 4, 5 and 6. */
  lemma MainPriorities()
    ensures V5.dir.anchors.Keys == {4, 5, 6}
  {
  }

  /** After `main` priority 5's ring lists A, C and D (handles 0, 2 and 3) from its anchor A. */
  lemma MainRing()
    ensures V5.dir.anchors[5] == 0 && V5.dir.rings[5] == [0, 2, 3]
  {
  }

  /** The cache is consistent after every `set` of `main`. */
  lemma MainConsistent()
    ensures CacheSpec.ViewOK(V1) && CacheSpec.ViewOK(V2) && CacheSpec.ViewOK(V3)
    ensures CacheSpec.ViewOK(V4) && CacheSpec.ViewOK(MainRun())
  {
    SetA(); SetB(); SetC(); SetD(); SetE();
    CacheSpec.SetOK(CacheSpec.Empty, A, 0);
    CacheSpec.SetOK(V1, B, 1);
    CacheSpec.SetOK(V2, C, 2);
    CacheSpec.SetOK(V3, D, 3);
    CacheSpec.SetOK(V4, E, 4);
  }

  /**
   * `set_capacity(3)` after `main` with a time limit of 10, below every expiry time: the states
   * after its first and second round. B, the anchor of the lowest priority 4 and alone in its
   * ring, goes first and takes priority 4 with it; then A, the anchor of priority 5, whose
   * ring keeps C and D while `mPriorityItems` still names A.
   */
  const V6 := CacheSpec.View(V5.items - {"B"}, V5.expireItems - {12}, Dir(V5.dir.anchors - {4}, V5.dir.rings - {4}), V5.nodes)
  const V7 := CacheSpec.View(V6.items - {"A"}, V6.expireItems - {11}, Dir(V6.dir.anchors, V6.dir.rings[5 := [2, 3]]), V6.nodes)

  /** Nothing in `main`'s cache expires by time 10; the lowest priority is 4, anchored at B. */
  lemma FirstVictim()
    ensures CacheSpec.CanPick(V5, 10) && CacheSpec.Victim(V5, 10) == 1
  {
    MainTimes();
    MainPriorities();
    CacheSpec.FallbackVictim(V5, 10, 11, 4);
  }

  /** B is alone in priority 4's sound ring, so evicting it erases that priority. */
  lemma RemoveB()
    ensures CacheSpec.Evictable(V5, 1) && CacheSpec.Evict(V5, 1) == V6
  {
    UnlinkB();
    assert V5.nodes[1] == B;
  }

  /** Priority 4's ring holds B alone, so removing B drops the priority from the directory. */
  lemma UnlinkB()
    ensures Sound(V5.dir, 4) && 1 in V5.dir.rings[4] && Remove(V5.dir, 4, 1) == V6.dir
  {
    assert V5.dir.rings[4] == [1];
  }

  /** The first round of `set_capacity(3)` evicts B. */
  lemma EvictB()
    ensures CacheSpec.StepSafe(V5, 10) && CacheSpec.EvictStep(V5, 10) == V6
  {
    FirstVictim();
    RemoveB();
  }

  /** Without B the expiry times are 11, 13, 14 and 15 and the priorities 5 and 6. */
  lemma KeysWithoutB()
    ensures V6.expireItems.Keys == {11, 13, 14, 15} && V6.dir.anchors.Keys == {5, 6}
  {
    MainTimes();
    MainPriorities();
  }

  /** Without B nothing expires by time 10 still, and the lowest priority is 5, anchored at A. */
  lemma SecondVictim()
    ensures CacheSpec.CanPick(V6, 10) && CacheSpec.Victim(V6, 10) == 0
  {
    KeysWithoutB();
    CacheSpec.FallbackVictim(V6, 10, 11, 5);
  }

  /** Evicting B leaves priority 5's ring A, C, D anchored at A. */
  lemma RingWithoutB()
    ensures 5 in V6.dir.rings && V6.dir.rings[5] == [0, 2, 3] && 5 in V6.dir.anchors && V6.dir.anchors[5] == 0
  {
    MainRing();
  }

  /** A is the anchor of priority 5's sound ring; removing it unlinks it and leaves the anchor. */
  lemma UnlinkA()
    ensures Sound(V6.dir, 5) && 0 in V6.dir.rings[5] && Remove(V6.dir, 5, 0) == V7.dir
  {
    RingWithoutB();
    assert RemoveAt([0, 2, 3], IndexOf([0, 2, 3], 0)) == [2, 3];
  }

  /** Evicting A drops key "A" and time 11 and unlinks A from priority 5's ring. */
  lemma RemoveA()
    ensures CacheSpec.Evictable(V6, 0) && CacheSpec.Evict(V6, 0) == V7
  {
    UnlinkA();
    assert V6.nodes[0] == A;
  }

  /** The second round evicts A. */
  lemma EvictA()
    ensures CacheSpec.StepSafe(V6, 10) && CacheSpec.EvictStep(V6, 10) == V7
  {
    SecondVictim();
    RemoveA();
  }

  /** The cache `main` builds is consistent. */
  lemma MainOK()
    ensures CacheSpec.ViewOK(V5)
  {
    MainConsistent();
  }

  /** Five items fill `main`'s cache. */
  lemma MainSize()
    ensures |V5.items| == 5
  {
    MainKeys();
    assert |V5.items.Keys| == |{"A", "B", "C", "D", "E"}|;
  }

  /** After the first round the cache is consistent and holds four items. */
  lemma AfterB()
    ensures CacheSpec.ViewOK(V6) && |V6.items| == 4
  {
    MainOK();
    MainSize();
    EvictB();
    CacheSpec.EvictStepOK(V5, 10);
  }

  /** After the second round the cache is consistent and holds three items: the loop stops. */
  lemma AfterA()
    ensures CacheSpec.ViewOK(V7) && |V7.items| == 3 && !CacheSpec.OverCapacity(V7, 3)
  {
    AfterB();
    EvictA();
    CacheSpec.EvictStepOK(V6, 10);
  }

  /** From four items, one more round brings the cache down to three. */
  lemma SecondRound()
    ensures CacheSpec.ViewOK(V6) && CacheSpec.EvictionSafe(V6, 3, 10) && CacheSpec.EvictAll(V6, 3, 10) == V7
  {
    AfterB();
    EvictA();
    AfterA();
    CacheSpec.EvictionStops(V7, 3, 10);
    CacheSpec.EvictionRound(V6, 3, 10, V7);
  }

  /** `set_capacity(3)` with time limit 10 evicts B and then A and stops at three items. */
  lemma CapacityThree()
    ensures CacheSpec.ViewOK(V5) && CacheSpec.EvictionSafe(V5, 3, 10) && CacheSpec.EvictAll(V5, 3, 10) == V7
  {
    MainOK();
    MainSize();
    EvictB();
    SecondRound();
    CacheSpec.EvictionRound(V5, 3, 10, V6);
  }

  /** What is left is C, D and E. */
  lemma CapacityThreeKeys()
    ensures V7.items.Keys == {"C", "D", "E"}
  {
    MainKeys();
  }

  /** A left its ring but `mPriorityItems` still names it for priority 5: a stale anchor. */
  lemma StaleAnchor()
    ensures 5 in V7.dir.anchors && V7.dir.anchors[5] == 0 && V7.dir.rings[5] == [2, 3]
    ensures !CacheSpec.IsLive(V7, 0)
  {
    RingWithoutB();
  }
}
