/** From the writes of a free to its effect on the page. */
module SlobInsert {
  import opened SlobList
  import opened SlobCode
  import opened SlobFit
  import opened SlobLive
  import opened SlobEdit
  import opened SlobSteps
  import opened SlobCarve

  /** A live block keeps clear of every free block. */
  lemma LiveIsClear(s: PageState, b: nat, j: nat)
    requires Inv(s) && b in s.live && j < |FreeList(s)|
    ensures var y := FreeList(s)[j];
            if y.start < b then y.End() <= b else b + SlobUnits(s.live[b]) <= y.start
  {
    var list, n := FreeList(s), SlobUnits(s.live[b]);
    var y := list[j];
    assert Holds(s.live, b, b);
    assert LiveAt(s.live, b);
    assert y.Covers(y.start);
    assert FreeAt(list, y.start);
    assert !Holds(s.live, b, y.start);
    assert !y.Covers(b);
  }

  /** No free block begins where a live block does. */
  lemma LiveNotFree(s: PageState, b: nat)
    requires Inv(s) && b in s.live
    ensures b + SlobUnits(s.live[b]) <= |s.cells| && SlobUnits(s.live[b]) > 0
    ensures forall j :: 0 <= j < |FreeList(s)| ==> FreeList(s)[j].start != b
  {
    forall j | 0 <= j < |FreeList(s)| ensures FreeList(s)[j].start != b {
      LiveIsClear(s, b, j);
    }
  }

  /** Freeing into a page that has nothing free. */
  lemma FirstFree(s: PageState, b: nat)
    requires Inv(s) && b in s.live && s.units == 0
    ensures var x := Block(b, SlobUnits(s.live[b]));
            && SplitsAt(s, [], x, [])
            && HeaderWritten(s.cells, x, []) == SetSlob(s.cells, b, x.len, |s.cells|)
            && Meets([], MergeNext(x, []), |s.cells|)
            && PrevWritten(HeaderWritten(s.cells, x, []), [], MergeNext(x, [])) == HeaderWritten(s.cells, x, [])
  {
    SplitAround(s, 0, b);
    assert FreeList(s) == [];
    MeetsAfter([], Block(b, SlobUnits(s.live[b])), [], |s.cells|);
  }

  /** The free list, split around the live block x: the blocks before it, and those after. */
  ghost predicate SplitsAt(s: PageState, lo: seq<Block>, x: Block, hi: seq<Block>) {
    && FreeList(s) == lo + hi
    && |s.cells| <= MAX_UNITS
    && WellFormed(lo, |s.cells|) && Below(lo, x.start)
    && Before(x, hi, |s.cells|)
    && Linked(s.cells, lo, StartAt(hi, 0, |s.cells|)) && Linked(s.cells, hi, |s.cells|)
    && s.freelist == StartAt(lo + hi, 0, |s.cells|)
  }

  /** Where to split: after the last free block that starts before b. */
  lemma SplitAround(s: PageState, i: nat, b: nat)
    requires Inv(s) && b in s.live && i <= |FreeList(s)|
    requires i > 0 ==> FreeList(s)[i - 1].start < b
    requires i < |FreeList(s)| ==> b <= FreeList(s)[i].start
    ensures SplitsAt(s, FreeList(s)[..i], Block(b, SlobUnits(s.live[b])), FreeList(s)[i..])
  {
    LiveNotFree(s, b);
    if i > 0 {
      LiveIsClear(s, b, i - 1);
    }
    if i < |FreeList(s)| {
      LiveIsClear(s, b, i);
    }
    assert FreeList(s) == FreeList(s)[..i] + FreeList(s)[i..];
    SplitList(s, FreeList(s)[..i], Block(b, SlobUnits(s.live[b])), FreeList(s)[i..]);
  }

  lemma SplitList(s: PageState, lo: seq<Block>, x: Block, hi: seq<Block>)
    requires ListOk(s) && FreeList(s) == lo + hi && x.len > 0 && x.End() <= |s.cells|
    requires lo != [] ==> lo[|lo| - 1].End() <= x.start
    requires hi != [] ==> x.End() <= hi[0].start
    ensures SplitsAt(s, lo, x, hi)
  {
    SpacedParts(lo, hi, |s.cells|, 1);
    LinkedConcat(s.cells, lo, hi, |s.cells|);
    if lo != [] {
      SpacedEnds(lo, |s.cells|, 1);
    }
    if hi != [] {
      SpacedEnds(hi, |s.cells|, 1);
      AboveFrom(hi, x.End());
    }
  }

  /** What freeing reads of the blocks on either side. */
  lemma ReadsBeside(s: PageState, lo: seq<Block>, x: Block, hi: seq<Block>)
    requires ListOk(s) && SplitsAt(s, lo, x, hi)
    ensures hi != [] ==> var y := hi[0].start;
              Readable(s.cells, y) && Units(s.cells, y) == hi[0].len && Next(s.cells, y) == StartAt(hi, 1, |s.cells|)
    ensures lo != [] ==> var p := lo[|lo| - 1].start;
              && Readable(s.cells, p) && Units(s.cells, p) == lo[|lo| - 1].len
              && Next(s.cells, p) == StartAt(hi, 0, |s.cells|) && (Last(s.cells, p) <==> hi == [])
  {
    var list := lo + hi;
    if hi != [] {
      Walk(s, |lo|);
      assert list[|lo|] == hi[0];
    }
    if lo != [] {
      Walk(s, |lo| - 1);
      assert list[|lo| - 1] == lo[|lo| - 1];
    }
  }

  /** What it reads back once the freed block's header is written. */
  lemma ReadsAfterHeader(c: Cells, lo: seq<Block>, x: Block, hi: seq<Block>)
    requires |c| <= MAX_UNITS && WellFormed(lo, |c|) && lo != [] && Below(lo, x.start) && Before(x, hi, |c|)
    requires Linked(c, lo, StartAt(hi, 0, |c|)) && Linked(c, hi, |c|)
    ensures var l, d, p := MergeNext(x, hi), HeaderWritten(c, x, hi), lo[|lo| - 1];
            && Readable(d, x.start) && Units(d, x.start) == l[0].len && Next(d, x.start) == StartAt(l, 1, |c|)
            && p.start < |c| && Units(d, p.start) == p.len
  {
    var l := MergeNext(x, hi);
    MergeNextLinks(c, x, hi);
    MergeNextWellFormed(x, hi, |c|);
    LinkedWrite(c, lo, StartAt(hi, 0, |c|), x.start, l[0].len, StartAt(l, 1, |c|));
    var d := HeaderWritten(c, x, hi);
    assert EncodedAt(d, l, 0, |c|);
    EncodedReads(d, l[0], StartAt(l, 1, |c|));
    assert EncodedAt(d, lo, |lo| - 1, StartAt(hi, 0, |c|));
  }

  /** The freed block's header. */
  ghost function HeaderWritten(c: Cells, x: Block, hi: seq<Block>): (e: Cells)
    requires |c| <= MAX_UNITS && Before(x, hi, |c|)
    ensures |e| == |c|
  {
    MergeNextWellFormed(x, hi, |c|);
    MergeNextNext(x, hi, |c|);
    var l := MergeNext(x, hi);
    SetSlob(c, x.start, l[0].len, StartAt(l, 1, |c|))
  }

  lemma MergeNextNext(x: Block, hi: seq<Block>, U: nat)
    requires Before(x, hi, U)
    ensures StartAt(MergeNext(x, hi), 1, U) <= U
    ensures StartAt(MergeNext(x, hi), 1, U) == if Touches(x, hi) then StartAt(hi, 1, U) else StartAt(hi, 0, U)
  {
  }

  /** The header of the block before it. */
  ghost function PrevWritten(c: Cells, lo: seq<Block>, l: seq<Block>): (e: Cells)
    requires |c| <= MAX_UNITS && Meets(lo, l, |c|)
    ensures |e| == |c|
  {
    if lo == [] then c
    else
      var p := lo[|lo| - 1];
      MeetsSplit(lo, l, |c|);
      MergeNextNext(p, l, |c|);
      if Touches(p, l) then SetSlob(c, p.start, p.len + l[0].len, StartAt(l, 1, |c|))
      else SetSlob(c, p.start, p.len, l[0].start)
  }

  lemma MeetsAfter(lo: seq<Block>, x: Block, hi: seq<Block>, U: nat)
    requires WellFormed(lo, U) && Below(lo, x.start) && Before(x, hi, U)
    ensures Meets(lo, MergeNext(x, hi), U)
  {
    MergeNextWellFormed(x, hi, U);
  }

  lemma WritesLink(c: Cells, lo: seq<Block>, x: Block, hi: seq<Block>)
    requires |c| <= MAX_UNITS && WellFormed(lo, |c|) && Below(lo, x.start) && Before(x, hi, |c|)
    requires Linked(c, lo, StartAt(hi, 0, |c|)) && Linked(c, hi, |c|)
    ensures Meets(lo, MergeNext(x, hi), |c|)
    ensures Linked(PrevWritten(HeaderWritten(c, x, hi), lo, MergeNext(x, hi)), MergePrev(lo, MergeNext(x, hi)), |c|)
  {
    MeetsAfter(lo, x, hi, |c|);
    HeaderLinks(c, lo, x, hi);
    PrevLinks(HeaderWritten(c, x, hi), lo, StartAt(hi, 0, |c|), MergeNext(x, hi));
  }

  /** Writing the freed block's header leaves two lists, the blocks before it and the rest. */
  lemma HeaderLinks(c: Cells, lo: seq<Block>, x: Block, hi: seq<Block>)
    requires |c| <= MAX_UNITS && Below(lo, x.start) && Before(x, hi, |c|)
    requires Linked(c, lo, StartAt(hi, 0, |c|)) && Linked(c, hi, |c|)
    ensures Linked(HeaderWritten(c, x, hi), lo, StartAt(hi, 0, |c|))
    ensures Linked(HeaderWritten(c, x, hi), MergeNext(x, hi), |c|)
  {
    var l := MergeNext(x, hi);
    MergeNextLinks(c, x, hi);
    LinkedWrite(c, lo, StartAt(hi, 0, |c|), x.start, l[0].len, StartAt(l, 1, |c|));
  }

  /** Writing the header before it makes one list of the two. */
  lemma PrevLinks(c: Cells, lo: seq<Block>, end: nat, l: seq<Block>)
    requires |c| <= MAX_UNITS && Meets(lo, l, |c|) && Linked(c, lo, end) && Linked(c, l, |c|)
    ensures Linked(PrevWritten(c, lo, l), MergePrev(lo, l), |c|)
  {
    if lo == [] {
      assert MergePrev(lo, l) == l;
    } else if Touches(lo[|lo| - 1], l) {
      MergePrevLinksTouching(c, lo, end, l);
    } else {
      MergePrevLinksApart(c, lo, end, l);
    }
  }

  lemma HeaderFrame(c: Cells, x: Block, hi: seq<Block>, k: nat)
    requires |c| <= MAX_UNITS && Before(x, hi, |c|) && k < |c| && !x.Covers(k) && !FreeAt(hi, k)
    ensures HeaderWritten(c, x, hi)[k] == c[k]
  {
    MergeNextCover(x, hi, k);
    assert !MergeNext(x, hi)[0].Covers(k);
  }

  lemma PrevFrame(c: Cells, lo: seq<Block>, l: seq<Block>, k: nat)
    requires |c| <= MAX_UNITS && Meets(lo, l, |c|) && k < |c| && !FreeAt(lo, k) && !FreeAt(l, k)
    ensures PrevWritten(c, lo, l)[k] == c[k]
  {
    if lo != [] {
      assert !lo[|lo| - 1].Covers(k);
      assert !l[0].Covers(k);
    }
  }

  /** What the writes of a free come to. */
  ghost predicate FreeWrites(s: PageState, t: PageState, lo: seq<Block>, x: Block, hi: seq<Block>)
    requires SplitsAt(s, lo, x, hi)
  {
    MeetsAfter(lo, x, hi, |s.cells|);
    && t.cells == PrevWritten(HeaderWritten(s.cells, x, hi), lo, MergeNext(x, hi))
    && t.freelist == (if lo == [] then x.start else s.freelist)
    && t.units == s.units + x.len
  }

  lemma MergePrevStart(lo: seq<Block>, l: seq<Block>, U: nat)
    requires l != []
    ensures StartAt(MergePrev(lo, l), 0, U) == if lo == [] then l[0].start else lo[0].start
  {
  }

  /** The new list, as a list. */
  lemma FreedList(lo: seq<Block>, x: Block, hi: seq<Block>, U: nat)
    requires WellFormed(lo, U) && Below(lo, x.start) && Before(x, hi, U)
    ensures var more := MergePrev(lo, MergeNext(x, hi));
            && WellFormed(more, U)
            && StartAt(more, 0, U) == (if lo == [] then x.start else lo[0].start)
            && SumLens(more) == SumLens(lo + hi) + x.len
  {
    var l := MergeNext(x, hi);
    MeetsAfter(lo, x, hi, U);
    MergePrevWellFormed(lo, l, U);
    MergePrevStart(lo, l, U);
    MergePrevSum(lo, l);
    MergeNextSum(x, hi);
    SumLensConcat(lo, hi);
  }

  lemma FreeKeepsListOk(s: PageState, t: PageState, lo: seq<Block>, x: Block, hi: seq<Block>)
    requires ListOk(s) && SplitsAt(s, lo, x, hi) && FreeWrites(s, t, lo, x, hi)
    ensures |t.cells| == |s.cells| && ListOk(t) && FreeList(t) == MergePrev(lo, MergeNext(x, hi))
  {
    FreedList(lo, x, hi, |s.cells|);
    WritesLink(s.cells, lo, x, hi);
    HoldsList(t, MergePrev(lo, MergeNext(x, hi)));
  }

  lemma FreedCover(lo: seq<Block>, x: Block, hi: seq<Block>, k: int)
    ensures FreeAt(MergePrev(lo, MergeNext(x, hi)), k) <==> FreeAt(lo + hi, k) || x.Covers(k)
  {
    MergePrevCover(lo, MergeNext(x, hi), k);
    MergeNextCover(x, hi, k);
    FreeAtConcat(lo, hi, k);
  }

  lemma FreedFrame(c: Cells, lo: seq<Block>, x: Block, hi: seq<Block>, k: nat)
    requires |c| <= MAX_UNITS && WellFormed(lo, |c|) && Below(lo, x.start) && Before(x, hi, |c|)
    requires k < |c| && !FreeAt(lo + hi, k) && !x.Covers(k)
    ensures Meets(lo, MergeNext(x, hi), |c|)
    ensures PrevWritten(HeaderWritten(c, x, hi), lo, MergeNext(x, hi))[k] == c[k]
  {
    FreeAtConcat(lo, hi, k);
    HeaderFrame(c, x, hi, k);
    MeetsAfter(lo, x, hi, |c|);
    MergeNextCover(x, hi, k);
    PrevFrame(HeaderWritten(c, x, hi), lo, MergeNext(x, hi), k);
  }

  lemma FreedCovers(s: PageState, t: PageState, lo: seq<Block>, x: Block, hi: seq<Block>)
    requires SplitsAt(s, lo, x, hi) && FreeList(t) == MergePrev(lo, MergeNext(x, hi))
    ensures Gains(s, t, x.start, x.len)
  {
    forall k ensures FreeAt(FreeList(t), k) <==> FreeAt(FreeList(s), k) || x.Covers(k) {
      FreedCover(lo, x, hi, k);
    }
  }

  lemma FreedKeeps(s: PageState, t: PageState, lo: seq<Block>, x: Block, hi: seq<Block>)
    requires SplitsAt(s, lo, x, hi) && FreeWrites(s, t, lo, x, hi)
    ensures |t.cells| == |s.cells| && KeepsUsed(s, t, x.start, x.len)
  {
    forall k | 0 <= k < |s.cells| && !FreeAt(FreeList(s), k) && !x.Covers(k) ensures t.cells[k] == s.cells[k] {
      FreedFrame(s.cells, lo, x, hi, k);
    }
  }

  /** The whole effect of a free. */
  lemma FreeDone(s: PageState, t: PageState, lo: seq<Block>, x: Block, hi: seq<Block>)
    requires Inv(s) && SplitsAt(s, lo, x, hi) && FreeWrites(s, t, lo, x, hi)
    requires x.start in s.live && x.len == SlobUnits(s.live[x.start]) && t.live == s.live - {x.start}
    ensures Giveback(s, t, x.start) && Inv(t)
  {
    FreeKeepsListOk(s, t, lo, x, hi);
    FreedCovers(s, t, lo, x, hi);
    FreedKeeps(s, t, lo, x, hi);
    GivebackInv(s, t, x.start);
  }
}
