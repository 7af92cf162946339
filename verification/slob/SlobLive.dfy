/** The blocks handed out and not yet freed, and how they share a page with the free list. */
module SlobLive {
  import opened SlobList
  import opened SlobFit

  /** Start offset of each live block, with the size in bytes it was asked for. */
  type Live = map<nat, nat>

  predicate Holds(live: Live, s: nat, k: int) {
    s in live && s <= k < s + SlobUnits(live[s])
  }

  ghost predicate LiveAt(live: Live, k: int) {
    exists s :: Holds(live, s, k)
  }

  /** Live blocks are non-empty, inside the page and disjoint. */
  ghost predicate LiveOk(live: Live, U: nat) {
    && (forall s :: s in live ==> live[s] > 0 && s + SlobUnits(live[s]) <= U)
    && (forall s, t, k :: Holds(live, s, k) && Holds(live, t, k) ==> s == t)
  }

  /** Every unit is free or in a live block, and never both. */
  ghost predicate Partition(list: seq<Block>, live: Live, U: nat) {
    && LiveOk(live, U)
    && forall k :: 0 <= k < U ==> (FreeAt(list, k) <==> !LiveAt(live, k))
  }

  ghost function LiveUnits(live: Live): nat {
    if live == map[] then 0
    else
      var s :| s in live;
      SlobUnits(live[s]) + LiveUnits(live - {s})
  }

  /** Any block may be taken out first. */
  lemma {:induction false} LiveUnitsRemove(live: Live, t: nat)
    requires t in live
    ensures LiveUnits(live) == SlobUnits(live[t]) + LiveUnits(live - {t})
    decreases |live|
  {
    var s :| s in live && LiveUnits(live) == SlobUnits(live[s]) + LiveUnits(live - {s});
    if s == t {
    } else {
      LiveUnitsRemove(live - {s}, t);
      LiveUnitsRemove(live - {t}, s);
      assert live - {s} - {t} == live - {t} - {s};
    }
  }

  lemma LiveUnitsAdd(live: Live, t: nat, size: nat)
    requires t !in live
    ensures LiveUnits(live[t := size]) == LiveUnits(live) + SlobUnits(size)
  {
    LiveUnitsRemove(live[t := size], t);
    assert live[t := size] - {t} == live;
  }

  lemma LiveAtAdd(live: Live, t: nat, size: nat, k: int)
    requires t !in live
    ensures LiveAt(live[t := size], k) <==> LiveAt(live, k) || t <= k < t + SlobUnits(size)
  {
    var more := live[t := size];
    if LiveAt(live, k) {
      var s :| Holds(live, s, k);
      assert Holds(more, s, k);
    }
    if t <= k < t + SlobUnits(size) {
      assert Holds(more, t, k);
    }
    if LiveAt(more, k) {
      var s :| Holds(more, s, k);
      assert s == t || Holds(live, s, k);
    }
  }

  lemma LiveAtRemove(live: Live, t: nat, k: int, U: nat)
    requires t in live && LiveOk(live, U)
    ensures LiveAt(live - {t}, k) <==> LiveAt(live, k) && !(t <= k < t + SlobUnits(live[t]))
  {
    if LiveAt(live - {t}, k) {
      var s :| Holds(live - {t}, s, k);
      assert Holds(live, s, k);
      assert t <= k < t + SlobUnits(live[t]) ==> Holds(live, t, k);
    }
    if LiveAt(live, k) && !(t <= k < t + SlobUnits(live[t])) {
      var s :| Holds(live, s, k);
      assert Holds(live - {t}, s, k);
    }
  }

  /** Carving a free range out of the list and handing it over keeps the partition. */
  lemma PartitionAlloc(list: seq<Block>, live: Live, U: nat, more: seq<Block>, a: nat, size: nat)
    requires Partition(list, live, U) && size > 0 && a + SlobUnits(size) <= U
    requires forall k :: a <= k < a + SlobUnits(size) ==> FreeAt(list, k)
    requires forall k :: 0 <= k < U ==> (FreeAt(more, k) <==> FreeAt(list, k) && !(a <= k < a + SlobUnits(size)))
    ensures a !in live && Partition(more, live[a := size], U)
  {
    assert !LiveAt(live, a);
    assert a in live ==> Holds(live, a, a);
    var after := live[a := size];
    forall s, t, k | Holds(after, s, k) && Holds(after, t, k) ensures s == t {
      assert s != a ==> Holds(live, s, k);
      assert t != a ==> Holds(live, t, k);
      assert s == a || t == a ==> FreeAt(list, k) && !LiveAt(live, k);
    }
    forall k | 0 <= k < U ensures FreeAt(more, k) <==> !LiveAt(after, k) {
      LiveAtAdd(live, a, size, k);
    }
  }

  /** Giving a live block back keeps it too. */
  lemma PartitionFree(list: seq<Block>, live: Live, U: nat, less: seq<Block>, b: nat)
    requires Partition(list, live, U) && b in live
    requires forall k :: 0 <= k < U ==> (FreeAt(less, k) <==> FreeAt(list, k) || b <= k < b + SlobUnits(live[b]))
    ensures Partition(less, live - {b}, U)
  {
    var after := live - {b};
    forall s, t, k | Holds(after, s, k) && Holds(after, t, k) ensures s == t {
      assert Holds(live, s, k) && Holds(live, t, k);
    }
    forall k | 0 <= k < U ensures FreeAt(less, k) <==> !LiveAt(after, k) {
      LiveAtRemove(live, b, k, U);
    }
  }

  /** The live blocks alone determine the free list. */
  lemma ListFromLive(l: seq<Block>, m: seq<Block>, live: Live, U: nat)
    requires WellFormed(l, U) && WellFormed(m, U)
    requires Partition(l, live, U) && Partition(m, live, U)
    ensures l == m
  {
    Canonical(l, m, U);
  }
}
