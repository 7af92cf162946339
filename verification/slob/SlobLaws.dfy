/** What the allocator does, in bytes and in free units: which requests a page can serve and
    where it puts them, which list each request and each page belongs to, and in what order a
    list is left. */
module SlobLaws {
  import opened Arithmetic

  import opened SlobList
  import opened SlobCode
  import opened SlobFit
  import opened SlobLive
  import opened SlobSteps
  import opened SlobHeap
  import opened SlobHeapRuns

  // ---------- Room on a page ----------

  /** An allocation of n units can begin at unit a. */
  predicate AlignedAt(a: nat, align: nat) {
    align == 0 || (a * SLOB_UNIT) % align == 0
  }

  /** Units [a, a + n) lie in block x, from an aligned address on. */
  predicate PlaceIn(x: Block, a: nat, n: nat, align: nat) {
    AlignedAt(a, align) && x.start <= a && a + n <= x.start + x.len
  }

  /** The lowest such place in the block. */
  ghost predicate FirstPlace(x: Block, a: nat, n: nat, align: nat) {
    PlaceIn(x, a, n, align) && forall s: nat :: PlaceIn(x, s, n, align) ==> a <= s
  }

  /** A block has room exactly when some place in it is aligned; the lowest is the one taken. */
  lemma FitsMeans(x: Block, n: nat, align: nat)
    requires align == 0 || IsPowerOfTwo(align)
    ensures Fits(x, n, align) <==> exists a: nat :: PlaceIn(x, a, n, align)
    ensures Fits(x, n, align) ==> FirstPlace(x, x.start + Delta(x.start, align), n, align)
    ensures Leftover(x, n, align) == x.start + x.len - (x.start + Delta(x.start, align) + n)
  {
    var a := x.start + Delta(x.start, align);
    if align > 0 {
      DeltaExact(x.start, align);
      AlignUpIsUp(x.start * SLOB_UNIT, align);
    }
    assert Fits(x, n, align) ==> PlaceIn(x, a, n, align);
    forall s: nat | PlaceIn(x, s, n, align) ensures a <= s {
      PlaceNotBelow(x, s, n, align);
    }
  }

  lemma PlaceNotBelow(x: Block, s: nat, n: nat, align: nat)
    requires (align == 0 || IsPowerOfTwo(align)) && PlaceIn(x, s, n, align)
    ensures x.start + Delta(x.start, align) <= s
  {
    if align > 0 {
      DeltaExact(x.start, align);
      AlignUpLeast(x.start * SLOB_UNIT, align, s * SLOB_UNIT);
    }
  }

  lemma AlignUpLeast(x: nat, a: nat, y: nat)
    requires a > 0 && x <= y && y % a == 0
    ensures AlignUp(x, a) <= y
  {
    AlignUpIsUp(x, a);
    var q, p := (x + a - 1) / a, y / a;
    assert y == p * a;
    NotBeyond(q, p, a);
  }

  lemma NotBeyond(q: nat, p: nat, a: nat)
    requires a > 0 && q * a < p * a + a
    ensures q * a <= p * a
  {
    if q > p {
      Distribute(q, p, a);
      GrowsByFactor(q - p, a);
    }
  }

  /** Some run of n units, from an aligned address on, lies in no block in use. */
  ghost predicate FreeRun(s: PageState, a: nat, n: nat, align: nat) {
    AlignedAt(a, align) && a + n <= |s.cells| && forall k :: a <= k < a + n ==> !LiveAt(s.live, k)
  }

  /** A page turns a request down exactly when it has no such run: nothing is lost to the way
      the free units are split into blocks. */
  lemma RoomIff(s: PageState, n: nat, align: nat)
    requires Inv(s) && n > 0 && (align == 0 || IsPowerOfTwo(align))
    ensures NoneFits(FreeList(s), n, align) <==> forall a: nat :: !FreeRun(s, a, n, align)
  {
    var list := FreeList(s);
    if a: nat :| FreeRun(s, a, n, align) {
      RunHasBlock(s, a, n, align);
    }
    if i: nat :| i < |list| && Fits(list[i], n, align) {
      BlockHasRun(s, i, n, align);
    }
  }

  lemma RunHasBlock(s: PageState, a: nat, n: nat, align: nat)
    requires Inv(s) && n > 0 && (align == 0 || IsPowerOfTwo(align)) && FreeRun(s, a, n, align)
    ensures !NoneFits(FreeList(s), n, align)
  {
    var list := FreeList(s);
    assert forall k :: a <= k < a + n ==> FreeAt(list, k);
    var i := RunInOneBlock(list, |s.cells|, a, n);
    FitsMeans(list[i], n, align);
    assert PlaceIn(list[i], a, n, align);
    assert Fits(list[i], n, align);
  }

  lemma BlockHasRun(s: PageState, i: nat, n: nat, align: nat)
    requires Inv(s) && (align == 0 || IsPowerOfTwo(align)) && i < |FreeList(s)| && Fits(FreeList(s)[i], n, align)
    ensures exists a: nat :: FreeRun(s, a, n, align)
  {
    var x := FreeList(s)[i];
    FitsMeans(x, n, align);
    var a := x.start + Delta(x.start, align);
    forall k | a <= k < a + n ensures !LiveAt(s.live, k) {
      assert x.Covers(k);
      assert FreeAt(FreeList(s), k);
    }
    assert FreeRun(s, a, n, align);
  }

  /** In a coalesced list, free units in a row are in one block. */
  lemma {:induction false} RunInOneBlock(list: seq<Block>, U: nat, a: nat, n: nat) returns (i: nat)
    requires WellFormed(list, U) && n > 0 && forall k :: a <= k < a + n ==> FreeAt(list, k)
    ensures i < |list| && list[i].start <= a && a + n <= list[i].start + list[i].len
  {
    if n == 1 {
      assert FreeAt(list, a);
      i :| 0 <= i < |list| && list[i].Covers(a);
    } else {
      i := RunInOneBlock(list, U, a, n - 1);
      assert FreeAt(list, a + n - 1);
      var j: nat :| j < |list| && list[j].Covers(a + n - 1);
      assert i < j ==> Apart(list, i, j, 1);
      assert j < i ==> Apart(list, j, i, 1);
    }
  }

  /** Block i is where best fit puts n units, at unit a: it has the least left behind them, and
      of those the lowest address. */
  ghost predicate BestPlace(list: seq<Block>, i: nat, a: nat, n: nat, align: nat) {
    && i < |list| && FirstPlace(list[i], a, n, align)
    && forall j: nat, b: nat :: j < |list| && FirstPlace(list[j], b, n, align) ==>
         && list[i].start + list[i].len - a <= list[j].start + list[j].len - b
         && (j < i ==> list[i].start + list[i].len - a < list[j].start + list[j].len - b)
  }

  lemma BestFitMeans(list: seq<Block>, n: nat, align: nat, a: nat)
    requires align == 0 || IsPowerOfTwo(align)
    ensures BestFitAt(list, n, align, a) <==> exists i: nat :: BestPlace(list, i, a, n, align)
  {
    if BestFitAt(list, n, align, a) {
      var i := BestPlaceFound(list, n, align, a);
    }
    if i: nat :| BestPlace(list, i, a, n, align) {
      PlaceIsBest(list, i, a, n, align);
    }
  }

  lemma BestPlaceFound(list: seq<Block>, n: nat, align: nat, a: nat) returns (i: nat)
    requires (align == 0 || IsPowerOfTwo(align)) && BestFitAt(list, n, align, a)
    ensures BestPlace(list, i, a, n, align)
  {
    i :| IsBestFit(list, i, n, align) && a == list[i].start + Delta(list[i].start, align);
    BestIsPlace(list, i, n, align);
  }

  lemma PlaceIs(x: Block, a: nat, n: nat, align: nat)
    requires align == 0 || IsPowerOfTwo(align)
    ensures FirstPlace(x, a, n, align) <==> Fits(x, n, align) && a == x.start + Delta(x.start, align)
  {
    FitsMeans(x, n, align);
    if FirstPlace(x, a, n, align) {
      assert PlaceIn(x, a, n, align);
      assert PlaceIn(x, x.start + Delta(x.start, align), n, align);
      PlaceNotBelow(x, a, n, align);
    }
  }

  lemma BestIsPlace(list: seq<Block>, i: nat, n: nat, align: nat)
    requires (align == 0 || IsPowerOfTwo(align)) && IsBestFit(list, i, n, align)
    ensures BestPlace(list, i, list[i].start + Delta(list[i].start, align), n, align)
  {
    var a := list[i].start + Delta(list[i].start, align);
    PlaceIs(list[i], a, n, align);
    forall j: nat, b: nat | j < |list| && FirstPlace(list[j], b, n, align)
      ensures list[i].start + list[i].len - a <= list[j].start + list[j].len - b
      ensures j < i ==> list[i].start + list[i].len - a < list[j].start + list[j].len - b
    {
      PlaceIs(list[j], b, n, align);
    }
  }

  lemma PlaceIsBest(list: seq<Block>, i: nat, a: nat, n: nat, align: nat)
    requires (align == 0 || IsPowerOfTwo(align)) && BestPlace(list, i, a, n, align)
    ensures BestFitAt(list, n, align, a)
  {
    PlaceIs(list[i], a, n, align);
    forall j: nat | j < |list| && Fits(list[j], n, align)
      ensures Leftover(list[i], n, align) <= Leftover(list[j], n, align)
      ensures j < i ==> Leftover(list[i], n, align) < Leftover(list[j], n, align)
    {
      PlaceIs(list[j], list[j].start + Delta(list[j].start, align), n, align);
    }
    assert IsBestFit(list, i, n, align);
  }

  // ---------- What a page's memory holds ----------

  /** Free block i of a page: two units or more begin with their number and the offset of the next
      free block, a single unit holds that offset negated; the last one points past the page. */
  lemma PageLayout(s: PageState, i: nat)
    requires Inv(s) && i < |FreeList(s)|
    ensures var list, U := FreeList(s), |s.cells|;
            var x, next := list[i], if i + 1 < |list| then list[i + 1].start else U;
            && s.freelist == list[0].start && x.start + x.len <= U
            && if x.len == 1 then s.cells[x.start] == 0 - next
               else x.len > 1 && s.cells[x.start] == x.len && s.cells[x.start + 1] == next
  {
    assert EncodedAt(s.cells, FreeList(s), i, |s.cells|);
  }

  /** Two-byte units serve pages of up to 65534 bytes. */
  lemma PageSizes(U: nat)
    ensures SLOB_UNIT == 2 ==> (U <= MAX_UNITS <==> U * SLOB_UNIT <= 65534)
    ensures SLOB_UNIT == 4 ==> (U <= MAX_UNITS <==> U < 0x8000_0000)
  {
  }

  // ---------- The order of a list ----------

  lemma ModOnce(x: nat, n: nat)
    requires n > 0 && x < n + n
    ensures x % n == if x < n then x else x - n
  {
    if x < n {
      QuotientUnique(x, n, 0, x);
    } else {
      QuotientUnique(x, n, 1, x - n);
    }
  }

  /** After page k of q served a request, the list goes round from there, and the page itself
      is in front when it stays. */
  lemma AfterAllocOrder<T>(q: seq<T>, k: nat, stays: bool, j: nat)
    requires k < |q| && j < |AfterAlloc(q, k, stays)|
    ensures |AfterAlloc(q, k, stays)| == (if stays then |q| else |q| - 1)
    ensures AfterAlloc(q, k, stays)[j] == q[(k + (if stays then 0 else 1) + j) % |q|]
  {
    var x := k + (if stays then 0 else 1) + j;
    AfterAllocAt(q, k, stays, j, x);
    ModOnce(x, |q|);
  }

  lemma AfterAllocAt<T>(q: seq<T>, k: nat, stays: bool, j: nat, x: nat)
    requires k < |q| && j < |AfterAlloc(q, k, stays)| && x == k + (if stays then 0 else 1) + j
    ensures |AfterAlloc(q, k, stays)| == (if stays then |q| else |q| - 1)
    ensures AfterAlloc(q, k, stays)[j] == q[if x < |q| then x else x - |q|]
  {
    if stays {
      RotatedAt(q, k, j);
    } else {
      RotatedWithoutAt(q, k, j);
    }
  }

  lemma RotatedAt<T>(q: seq<T>, k: nat, j: nat)
    requires j < |Rotated(q, k)|
    ensures |Rotated(q, k)| == |q|
    ensures Rotated(q, k)[j] == q[if !(0 < k < |q|) then j else if k + j < |q| then k + j else k + j - |q|]
  {
  }

  lemma RotatedWithoutAt<T>(q: seq<T>, k: nat, j: nat)
    requires k < |q| && j < |Rotated(Without(q, k), k)|
    ensures |Rotated(Without(q, k), k)| == |q| - 1
    ensures Rotated(Without(q, k), k)[j] == q[if k + 1 + j < |q| then k + 1 + j else k + 1 + j - |q|]
  {
    var w := Without(q, k);
    RotatedAt(w, k, j);
    WithoutAt(q, k, if !(0 < k < |w|) then j else if k + j < |w| then k + j else k + j - |w|);
  }

  lemma WithoutAt<T>(q: seq<T>, k: nat, i: nat)
    requires k < |q| && i < |Without(q, k)|
    ensures |Without(q, k)| == |q| - 1
    ensures Without(q, k)[i] == q[if i < k then i else i + 1]
  {
  }

  // ---------- Which list ----------

  /** In every history: what is allocated on the pages of a list is under 256 bytes a block on the
      first list, 256 to 1023 on the second, and 1024 or more on the third. */
  lemma ListsByBytes<P>(heaps: seq<Heap<P>>, events: seq<HeapEvent<P>>, U: nat, i: nat, c: nat, p: P, s: nat)
    requires HeapRun(heaps, events, U) && i < |heaps|
    requires c < |heaps[i].lists| && p in heaps[i].lists[c]
    ensures |heaps[i].lists| == 3 && p in heaps[i].table
    ensures var live := heaps[i].table[p].state.live;
            s in live ==> if c == 0 then live[s] < 256 else if c == 1 then 256 <= live[s] < 1024 else 1024 <= live[s]
  {
    HeapRunOk(heaps, events, U, i);
    var k: nat :| k < |heaps[i].lists[c]| && heaps[i].lists[c][k] == p;
    ListedInfo(heaps[i], U, c, k);
  }

  /** The same for any page, listed or full: its blocks are of one range. */
  lemma PagesByBytes<P>(heaps: seq<Heap<P>>, events: seq<HeapEvent<P>>, U: nat, i: nat, p: P, s: nat, t: nat)
    requires HeapRun(heaps, events, U) && i < |heaps| && p in heaps[i].table
    requires s in heaps[i].table[p].state.live && t in heaps[i].table[p].state.live
    ensures var live := heaps[i].table[p].state.live;
            (live[s] < 256 <==> live[t] < 256) && (live[s] < 1024 <==> live[t] < 1024)
  {
    HeapRunOk(heaps, events, U, i);
    assert InfoOk(heaps[i].table[p], U);
  }

  /** The lists other than c stay as they are, and so do the pages other than p. */
  ghost predicate OnlyChanges<P>(h: Heap<P>, t: Heap<P>, c: nat, p: P) {
    && |h.lists| == |t.lists| == 3 && c < 3
    && (forall d :: 0 <= d < 3 && d != c ==> t.lists[d] == h.lists[d])
    && t.table - {p} == h.table - {p}
  }

  /** r is q, going round from position k, or, with page k gone, from the one after it. */
  ghost predicate GoesRound<T>(q: seq<T>, r: seq<T>, k: nat, gone: nat) {
    |r| + gone == |q| && forall j :: 0 <= j < |r| ==> r[j] == q[(k + gone + j) % |q|]
  }

  /** A request that a listed page serves is served from the list of its byte range; the list
      then goes round from that page, or from the next one if the page is full now. */
  lemma ServedFromList<P>(h: Heap<P>, t: Heap<P>, U: nat, size: nat, align: nat, k: nat, b: nat)
    requires HeapOk(h, U) && HeapStep(h, FromList(size, align, k, b), t, U)
    ensures var c := if size < 256 then 0 else if size < 1024 then 1 else 2;
            && |h.lists| == 3 && k < |h.lists[c]|
            && var q, p := h.lists[c], h.lists[c][k];
            && OnlyChanges(h, t, c, p) && p in h.table && p in t.table
            && t.table[p].state.live == h.table[p].state.live[b := size]
            && GoesRound(q, t.lists[c], k, if t.table[p].state.units == 0 then 1 else 0)
  {
    var c := if size < 256 then 0 else if size < 1024 then 1 else 2;
    assert c == ClassOf(size);
    AfterAllocGoesRound(h.lists[c], k, t.table[h.lists[c][k]].slobFree);
  }

  lemma AfterAllocGoesRound<T>(q: seq<T>, k: nat, stays: bool)
    requires k < |q|
    ensures GoesRound(q, AfterAlloc(q, k, stays), k, if stays then 0 else 1)
  {
    var r := AfterAlloc(q, k, stays);
    AfterAllocLength(q, k, stays);
    forall j | 0 <= j < |r| ensures r[j] == q[(k + (if stays then 0 else 1) + j) % |q|] {
      AfterAllocOrder(q, k, stays, j);
    }
  }

  lemma AfterAllocLength<T>(q: seq<T>, k: nat, stays: bool)
    requires k < |q|
    ensures |AfterAlloc(q, k, stays)| == (if stays then |q| else |q| - 1)
  {
  }

  /** And no page before it on that list has a run of free units for the request. */
  lemma ServedFirst<P>(h: Heap<P>, t: Heap<P>, U: nat, size: nat, align: nat, k: nat, b: nat, j: nat)
    requires HeapOk(h, U) && HeapStep(h, FromList(size, align, k, b), t, U) && ValidAlign(align, U)
    ensures size > 0
    ensures var c := if size < 256 then 0 else if size < 1024 then 1 else 2;
            && |h.lists| == 3 && k < |h.lists[c]|
            && (j < k ==> h.lists[c][j] in h.table
                          && forall a: nat :: !FreeRun(h.table[h.lists[c][j]].state, a, SlobUnits(size), align))
  {
    var c := ClassOf(size);
    if j < k {
      ListedInfo(h, U, c, j);
      RoomIff(h.table[h.lists[c][j]].state, SlobUnits(size), align);
    }
  }

  /** A new page goes in front of the list of the request's byte range, unless the request fills it. */
  lemma ServedFromFresh<P>(h: Heap<P>, t: Heap<P>, U: nat, size: nat, align: nat, p: P, b: nat)
    requires HeapOk(h, U) && HeapStep(h, FromFresh(size, align, p, b), t, U)
    ensures var c := if size < 256 then 0 else if size < 1024 then 1 else 2;
            && OnlyChanges(h, t, c, p) && p !in h.table && p in t.table
            && t.table[p].state.live == map[b := size]
            && t.lists[c] == if t.table[p].state.units > 0 then [p] + h.lists[c] else h.lists[c]
  {
    assert ClassOf(size) == if size < 256 then 0 else if size < 1024 then 1 else 2;
  }

  /** A page that loses its last block goes, and leaves the list of that block's byte range if it
      was on it. Otherwise a page that was full goes in front of that list, and any other page
      stays where it is. */
  lemma GivenBack<P>(h: Heap<P>, t: Heap<P>, U: nat, p: P, b: nat)
    requires HeapOk(h, U) && HeapStep(h, Give(p, b), t, U)
    ensures p in h.table && b in h.table[p].state.live
    ensures var live, units := h.table[p].state.live, h.table[p].state.units;
            var c := if live[b] < 256 then 0 else if live[b] < 1024 then 1 else 2;
            && OnlyChanges(h, t, c, p)
            && (p in t.table <==> live != map[b := live[b]])
            && (p in t.table ==> t.table[p].state.live == live - {b})
            && t.lists[c] == (if p !in t.table then Removed(h.lists[c], p)
                              else if units == 0 then [p] + h.lists[c]
                              else h.lists[c])
  {
    var i := h.table[p];
    assert InfoOk(i, U);
    LastBlock(i, U, b);
    assert ClassOf(i.state.live[b]) == i.sizeClass;
    if !i.slobFree {
      NotListed(h, U, p, i.sizeClass);
    }
  }

  /** Taking out a page that is not there changes nothing. */
  lemma NotListed<P>(h: Heap<P>, U: nat, p: P, c: nat)
    requires HeapOk(h, U) && p in h.table && !h.table[p].slobFree && c < 3
    ensures Removed(h.lists[c], p) == h.lists[c]
  {
    forall j | 0 <= j < |h.lists[c]| ensures h.lists[c][j] != p {
      ListedInfo(h, U, c, j);
    }
    RemovedAt(h.lists[c], p, |h.lists[c]|);
  }

  /** No room, for a request of so many bytes: no page on the list of its byte range has a run of
      free units for it. */
  lemma NoRoomMeans<P>(h: Heap<P>, U: nat, size: nat, align: nat)
    requires HeapOk(h, U) && size > 0 && ValidAlign(align, U)
    ensures var c := if size < 256 then 0 else if size < 1024 then 1 else 2;
            NoRoomListed(h, size, align) <==>
              forall j: nat, a: nat :: j < |h.lists[c]| ==>
                h.lists[c][j] in h.table && !FreeRun(h.table[h.lists[c][j]].state, a, SlobUnits(size), align)
  {
    var c := ClassOf(size);
    forall j: nat | j < |h.lists[c]|
      ensures h.lists[c][j] in h.table
      ensures NoneFits(FreeList(h.table[h.lists[c][j]].state), SlobUnits(size), align)
              <==> forall a: nat :: !FreeRun(h.table[h.lists[c][j]].state, a, SlobUnits(size), align)
    {
      ListedInfo(h, U, c, j);
      RoomIff(h.table[h.lists[c][j]].state, SlobUnits(size), align);
    }
  }
}
