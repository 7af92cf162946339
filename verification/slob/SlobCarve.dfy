/** From the writes of an allocation to its effect on the page. */
module SlobCarve {
  import opened SlobList
  import opened SlobCode
  import opened SlobFit
  import opened SlobEdit
  import opened SlobLive
  import opened SlobSteps

  /** The free list, with block x singled out. */
  ghost predicate ListIs(s: PageState, a: seq<Block>, x: Block, b: seq<Block>) {
    && FreeList(s) == a + [x] + b
    && |s.cells| <= MAX_UNITS
    && Around(a, x, b, |s.cells|, 0)
    && Linked(s.cells, a + [x] + b, |s.cells|)
    && s.freelist == StartAt(a + [x] + b, 0, |s.cells|)
  }

  lemma SplitAt(s: PageState, i: nat)
    requires ListOk(s) && i < |FreeList(s)|
    ensures var list := FreeList(s);
            && ListIs(s, list[..i], list[i], list[i + 1..])
            && (i > 0 ==> list[..i] != [] && list[..i][|list[..i]| - 1] == list[i - 1])
            && (i == 0 ==> list[..i] == [])
  {
    var list := FreeList(s);
    assert list == list[..i] + [list[i]] + list[i + 1..];
    WellFormedIsOrdered(list, |s.cells|);
    AroundFromSpaced(list[..i], list[i], list[i + 1..], |s.cells|, 0);
  }

  /** What a walk along the free list reads at block i. */
  lemma Walk(s: PageState, i: nat)
    requires ListOk(s) && i < |FreeList(s)|
    ensures var list, U := FreeList(s), |s.cells|;
            && Readable(s.cells, list[i].start)
            && Units(s.cells, list[i].start) == list[i].len
            && Next(s.cells, list[i].start) == StartAt(list, i + 1, U)
            && (Last(s.cells, list[i].start) <==> i + 1 == |list|)
  {
    WellFormedIsOrdered(FreeList(s), |s.cells|);
    LinkedReads(s.cells, FreeList(s), i);
  }

  /** Growing the scanned prefix by one block. */
  lemma ScanBest(list: seq<Block>, i: nat, b: nat, n: nat, align: nat)
    requires i < |list| && IsBestFit(list[..i], b, n, align)
    ensures var better := Fits(list[i], n, align) && Leftover(list[i], n, align) < Leftover(list[b], n, align);
            IsBestFit(list[..i + 1], if better then i else b, n, align)
  {
    var p, q := list[..i], list[..i + 1];
    assert forall j :: 0 <= j < i ==> q[j] == p[j];
    assert q[i] == list[i];
  }

  lemma ScanFirst(list: seq<Block>, i: nat, n: nat, align: nat)
    requires i < |list| && NoneFits(list[..i], n, align)
    ensures if Fits(list[i], n, align) then IsBestFit(list[..i + 1], i, n, align) && IsFirstFit(list, i, n, align)
            else NoneFits(list[..i + 1], n, align)
  {
    var p, q := list[..i], list[..i + 1];
    assert forall j :: 0 <= j < i ==> q[j] == p[j] == list[j];
    assert forall j :: 0 <= j < i ==> !Fits(p[j], n, align);
  }

  /** The state of the best-fit scan once the first i blocks are seen. */
  ghost predicate Scanned(list: seq<Block>, i: nat, found: bool, b: nat, n: nat, align: nat)
    requires i <= |list|
  {
    if found then b < i && IsBestFit(list[..i], b, n, align) else NoneFits(list[..i], n, align)
  }

  lemma ScanStep(list: seq<Block>, i: nat, found: bool, b: nat, n: nat, align: nat)
    requires i < |list| && Scanned(list, i, found, b, n, align)
    ensures var better := Fits(list[i], n, align)
                          && (!found || Leftover(list[i], n, align) < Leftover(list[b], n, align));
            Scanned(list, i + 1, found || better, if better then i else b, n, align)
  {
    if found {
      ScanBest(list, i, b, n, align);
    } else {
      ScanFirst(list, i, n, align);
    }
  }

  /** The page's contents after carving n units, d units into block x. */
  ghost function Carved(c: Cells, a: seq<Block>, x: Block, b: seq<Block>, d: nat, n: nat): (e: Cells)
    requires |c| <= MAX_UNITS && Around(a, x, b, |c|, 0) && 0 < n && d + n <= x.len
    ensures |e| == |c|
  {
    if d == 0 then TakenFront(c, a, x, b, n)
    else
      CutHeadOrder(a, x, b, d, |c|);
      TakenFront(CutHead(c, x, d, StartAt(b, 0, |c|)), a + [Block(x.start, d)], Block(x.start + d, x.len - d), b, n)
  }

  lemma CarvedLinks(c: Cells, a: seq<Block>, x: Block, b: seq<Block>, d: nat, n: nat)
    requires |c| <= MAX_UNITS && Around(a, x, b, |c|, 0) && 0 < n && d + n <= x.len && Linked(c, a + [x] + b, |c|)
    ensures Linked(Carved(c, a, x, b, d, n), a + Remains(x, d, n) + b, |c|)
  {
    if d == 0 {
      TakenFrontLinks(c, a, x, b, n);
      assert Remains(x, d, n) == Behind(x, n);
    } else {
      CarvedLinksCut(c, a, x, b, d, n, Block(x.start, d), Block(x.start + d, x.len - d));
      CutHeadStarts(a, x, b, d, n, |c|);
    }
  }

  lemma CarvedLinksCut(c: Cells, a: seq<Block>, x: Block, b: seq<Block>, d: nat, n: nat, y: Block, z: Block)
    requires |c| <= MAX_UNITS && Around(a, x, b, |c|, 0) && 0 < n && 0 < d && d + n <= x.len
    requires Linked(c, a + [x] + b, |c|) && y == Block(x.start, d) && z == Block(x.start + d, x.len - d)
    ensures Linked(Carved(c, a, x, b, d, n), a + [y] + Behind(z, n) + b, |c|)
  {
    CutHeadLinks(c, a, x, b, d, StartAt(b, 0, |c|));
    CutHeadOrder(a, x, b, d, |c|);
    TakenFrontLinks(CutHead(c, x, d, StartAt(b, 0, |c|)), a + [y], z, b, n);
  }

  lemma CarvedFrame(c: Cells, a: seq<Block>, x: Block, b: seq<Block>, d: nat, n: nat, k: nat)
    requires |c| <= MAX_UNITS && Around(a, x, b, |c|, 0) && 0 < n && d + n <= x.len
    requires k < |c| && !FreeAt(a + [x] + b, k)
    ensures Carved(c, a, x, b, d, n)[k] == c[k]
  {
    if d == 0 {
      TakenFrontFrame(c, a, x, b, n);
    } else {
      var y, z := Block(x.start, d), Block(x.start + d, x.len - d);
      CutHeadOrder(a, x, b, d, |c|);
      CutHeadEncodes(c, x, d, StartAt(b, 0, |c|));
      FreeAtMiddle(a, [x], b, k);
      FreeAtSingle(x, k);
      FreeAtMiddle(a + [y], [z], b, k);
      FreeAtConcat(a, [y], k);
      FreeAtSingle(y, k);
      FreeAtSingle(z, k);
      TakenFrontFrame(CutHead(c, x, d, StartAt(b, 0, |c|)), a + [y], z, b, n);
    }
  }

  /** A page that links a well-formed list from its first block on holds that list. */
  lemma HoldsList(t: PageState, list: seq<Block>)
    requires 0 < |t.cells| <= MAX_UNITS && WellFormed(list, |t.cells|) && Linked(t.cells, list, |t.cells|)
    requires t.freelist == StartAt(list, 0, |t.cells|) && t.units == SumLens(list)
    ensures FreeList(t) == list && ListOk(t)
  {
    WellFormedIsOrdered(list, |t.cells|);
    DecodeLinked(t.cells, list);
  }

  /** The writes of carving n units, d units into free block x, in terms of the page's state. */
  ghost predicate CarveWrites(s: PageState, t: PageState, a: seq<Block>, x: Block, b: seq<Block>, d: nat, n: nat)
    requires ListIs(s, a, x, b) && 0 < n && d + n <= x.len
  {
    && t.cells == Carved(s.cells, a, x, b, d, n)
    && t.freelist == StartAt(a + Remains(x, d, n) + b, 0, |s.cells|)
    && t.units == s.units - n
  }

  lemma CarveKeepsListOk(s: PageState, t: PageState, a: seq<Block>, x: Block, b: seq<Block>, d: nat, n: nat)
    requires ListOk(s) && ListIs(s, a, x, b) && 0 < n && d + n <= x.len && CarveWrites(s, t, a, x, b, d, n)
    ensures |t.cells| == |s.cells| && ListOk(t) && FreeList(t) == a + Remains(x, d, n) + b
  {
    CarvedLinks(s.cells, a, x, b, d, n);
    CarvedList(a, x, b, d, n, |s.cells|);
    HoldsList(t, a + Remains(x, d, n) + b);
  }

  lemma CarvedList(a: seq<Block>, x: Block, b: seq<Block>, d: nat, n: nat, U: nat)
    requires WellFormed(a + [x] + b, U) && 0 < n && d + n <= x.len
    ensures WellFormed(a + Remains(x, d, n) + b, U)
    ensures SumLens(a + Remains(x, d, n) + b) == SumLens(a + [x] + b) - n
  {
    RemainsWellFormed(a, x, b, d, n, U);
    RemainsSum(a, x, b, d, n);
  }

  lemma CarveCover(s: PageState, t: PageState, a: seq<Block>, x: Block, b: seq<Block>, d: nat, n: nat)
    requires ListIs(s, a, x, b) && 0 < n && d + n <= x.len && FreeList(t) == a + Remains(x, d, n) + b
    ensures AllFree(s, x.start + d, n) && Loses(s, t, x.start + d, n)
  {
    forall k ensures FreeAt(FreeList(t), k) <==> FreeAt(FreeList(s), k) && !(x.start + d <= k < x.start + d + n) {
      RemainsCover(a, x, b, d, n, |s.cells|, k);
    }
    forall k | x.start + d <= k < x.start + d + n ensures FreeAt(FreeList(s), k) {
      FreeAtMiddle(a, [x], b, k);
      FreeAtSingle(x, k);
    }
  }

  lemma CarveKeepsOthers(s: PageState, t: PageState, a: seq<Block>, x: Block, b: seq<Block>, d: nat, n: nat)
    requires ListIs(s, a, x, b) && 0 < n && d + n <= x.len && CarveWrites(s, t, a, x, b, d, n)
    ensures |t.cells| == |s.cells| && KeepsUsed(s, t, x.start + d, 0)
  {
    forall k | 0 <= k < |s.cells| && !FreeAt(FreeList(s), k) ensures t.cells[k] == s.cells[k] {
      CarvedFrame(s.cells, a, x, b, d, n, k);
    }
  }

  /** The whole effect of carving. */
  lemma CarveHandout(s: PageState, t: PageState, a: seq<Block>, x: Block, b: seq<Block>, d: nat, size: nat, at: nat)
    requires ListOk(s) && ListIs(s, a, x, b) && size > 0 && d + SlobUnits(size) <= x.len
    requires CarveWrites(s, t, a, x, b, d, SlobUnits(size))
    requires at == x.start + d && t.live == s.live[at := size]
    ensures Handout(s, t, size, at)
  {
    var n := SlobUnits(size);
    assert 0 < n && x.End() <= |s.cells|;
    CarveKeepsListOk(s, t, a, x, b, d, n);
    CarveCover(s, t, a, x, b, d, n);
    CarveKeepsOthers(s, t, a, x, b, d, n);
  }

  /** Which blocks are live is no matter of the writes. */
  lemma CarveWritesLive(s: PageState, t: PageState, live: Live, a: seq<Block>, x: Block, b: seq<Block>, d: nat, n: nat)
    requires ListIs(s, a, x, b) && 0 < n && d + n <= x.len && CarveWrites(s, t, a, x, b, d, n)
    ensures CarveWrites(s, t.(live := live), a, x, b, d, n)
  {
  }
}
