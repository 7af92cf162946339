/** One page as a value: its contents, its three fields, and the blocks clients hold;
    and what allocation, freeing and a client's write do to it. */
module SlobSteps {
  import opened SlobList
  import opened SlobCode
  import opened SlobFit
  import opened SlobLive

  datatype PageState = PageState(cells: Cells, freelist: nat, units: int, live: Live)

  /** What the allocator knows of a page in use: its state, its PageSlobFree flag, the list it was set up for. */
  datatype PageInfo = PageInfo(state: PageState, slobFree: bool, sizeClass: nat)

  /** The free list as it stands in the page. */
  ghost function FreeList(s: PageState): seq<Block> {
    Decode(s.cells, s.freelist)
  }

  /** The page's memory holds a coalesced free list, and `units` is its total. */
  ghost predicate ListOk(s: PageState) {
    var list := FreeList(s);
    && 0 < |s.cells| <= MAX_UNITS
    && WellFormed(list, |s.cells|)
    && Linked(s.cells, list, |s.cells|)
    && s.freelist == StartAt(list, 0, |s.cells|)
    && s.units == SumLens(list)
  }

  /** The page invariant: the free list and the live blocks share out the page exactly. */
  ghost predicate Inv(s: PageState) {
    && ListOk(s)
    && Partition(FreeList(s), s.live, |s.cells|)
    && s.units + LiveUnits(s.live) == |s.cells|
  }

  /** A page just obtained from the page allocator. */
  ghost predicate Fresh(s: PageState) {
    && 0 < |s.cells| <= MAX_UNITS
    && FreeList(s) == [Block(0, |s.cells|)]
    && ListOk(s)
    && s.live == map[]
  }

  /** Which free block serves a request, and where in it the new block begins. */
  ghost predicate BestFitAt(list: seq<Block>, n: nat, align: nat, a: nat) {
    exists i: nat :: IsBestFit(list, i, n, align) && a == list[i].start + Delta(list[i].start, align)
  }

  ghost predicate FirstFitAt(list: seq<Block>, n: nat, align: nat, a: nat) {
    exists i: nat :: IsFirstFit(list, i, n, align) && a == list[i].start + Delta(list[i].start, align)
  }

  ghost predicate AllFree(s: PageState, a: nat, n: nat) {
    forall k :: a <= k < a + n ==> FreeAt(FreeList(s), k)
  }

  /** The free units of t are those of s without [a, a + n). */
  ghost predicate Loses(s: PageState, t: PageState, a: nat, n: nat) {
    forall k :: 0 <= k < |s.cells| ==> (FreeAt(FreeList(t), k) <==> FreeAt(FreeList(s), k) && !(a <= k < a + n))
  }

  /** The free units of t are those of s and [b, b + n). */
  ghost predicate Gains(s: PageState, t: PageState, b: nat, n: nat) {
    forall k :: 0 <= k < |s.cells| ==> (FreeAt(FreeList(t), k) <==> FreeAt(FreeList(s), k) || b <= k < b + n)
  }

  /** No unit in use, other than those of [b, b + n), is written. */
  ghost predicate KeepsUsed(s: PageState, t: PageState, b: nat, n: nat)
    requires |t.cells| == |s.cells|
  {
    forall k :: 0 <= k < |s.cells| && !FreeAt(FreeList(s), k) && !(b <= k < b + n) ==> t.cells[k] == s.cells[k]
  }

  /** The effect of handing out the units [a, a + SlobUnits(size)). */
  ghost predicate Handout(s: PageState, t: PageState, size: nat, a: nat) {
    var n := SlobUnits(size);
    && size > 0 && a + n <= |s.cells| && |t.cells| == |s.cells|
    && AllFree(s, a, n)
    && t.live == s.live[a := size]
    && t.units == s.units - n
    && ListOk(t)
    && Loses(s, t, a, n)
    && KeepsUsed(s, t, a, 0)
  }

  /** The effect of giving back the live block at b. */
  ghost predicate Giveback(s: PageState, t: PageState, b: nat) {
    && b in s.live && |t.cells| == |s.cells|
    && var n := SlobUnits(s.live[b]);
    && t.live == s.live - {b}
    && t.units == s.units + n
    && ListOk(t)
    && Gains(s, t, b, n)
    && KeepsUsed(s, t, b, n)
  }

  /** A client stores v at unit k of a block it holds. */
  ghost predicate ClientWrite(s: PageState, t: PageState, k: nat, v: SlobIdx) {
    && k < |s.cells| && LiveAt(s.live, k)
    && t == s.(cells := s.cells[k := v])
  }

  // ---------- Each step keeps the invariant ----------

  lemma FreshInv(s: PageState)
    requires Fresh(s)
    ensures Inv(s)
  {
    var list := FreeList(s);
    forall k | 0 <= k < |s.cells| ensures FreeAt(list, k) <==> !LiveAt(s.live, k) {
      FreeAtSingle(list[0], k);
    }
    assert SumLens(list) == |s.cells|;
  }

  lemma HandoutInv(s: PageState, t: PageState, size: nat, a: nat)
    requires Inv(s) && Handout(s, t, size, a)
    ensures Inv(t) && a !in s.live
  {
    PartitionAlloc(FreeList(s), s.live, |s.cells|, FreeList(t), a, size);
    LiveUnitsAdd(s.live, a, size);
  }

  lemma GivebackInv(s: PageState, t: PageState, b: nat)
    requires Inv(s) && Giveback(s, t, b)
    ensures Inv(t)
  {
    PartitionFree(FreeList(s), s.live, |s.cells|, FreeList(t), b);
    LiveUnitsRemove(s.live, b);
  }

  /** A client that stays inside its blocks cannot disturb the free list. */
  lemma ClientWriteInv(s: PageState, t: PageState, k: nat, v: SlobIdx)
    requires Inv(s) && ClientWrite(s, t, k, v)
    ensures Inv(t) && FreeList(t) == FreeList(s)
  {
    var list := FreeList(s);
    assert !FreeAt(list, k);
    LinkedFrame(s.cells, t.cells, list, |s.cells|);
    WellFormedIsOrdered(list, |s.cells|);
    DecodeLinked(t.cells, list);
  }
}
