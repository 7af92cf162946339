/** The pointer surgery of allocation and of freeing, as facts about page contents.

    A list is taken apart into what comes before a block, the block, and what comes after. Each
    page-valued function here is the page after some of the writes (`CutHead`, `Redirect`,
    `TakenFront`), and the lemmas say which list is linked in it then. */
module SlobEdit {
  import opened SlobList
  import opened SlobCode

  /** A list in address order around block x: what comes before, x, what comes after. */
  ghost predicate Around(a: seq<Block>, x: Block, b: seq<Block>, U: nat, gap: nat) {
    && Spaced(a, U, gap) && Spaced(b, U, gap)
    && x.len > 0 && x.End() <= U
    && (forall i :: 0 <= i < |a| ==> a[i].End() + gap <= x.start)
    && (forall i :: 0 <= i < |b| ==> x.End() + gap <= b[i].start)
  }

  lemma AroundFromSpaced(a: seq<Block>, x: Block, b: seq<Block>, U: nat, gap: nat)
    requires Spaced(a + [x] + b, U, gap)
    ensures Around(a, x, b, U, gap)
  {
    SpacedParts(a + [x], b, U, gap);
    SpacedParts(a, [x], U, gap);
    assert [x][0] == x;
    assert (a + [x])[|a|] == x;
    if a != [] {
      SpacedEnds(a, U, gap);
    }
    if b != [] {
      SpacedEnds(b, U, gap);
    }
  }

  lemma SpacedSkip(a: seq<Block>, b: seq<Block>, U: nat, gap: nat, m: nat)
    requires Spaced(a, U, gap) && Spaced(b, U, gap)
    requires a == [] || a[|a| - 1].End() + gap <= m
    requires b == [] || m <= b[0].start
    ensures Spaced(a + b, U, gap)
  {
    SpacedConcat(a, b, U, gap);
  }

  /** The pieces put in place of x keep apart, from each other and from the neighbours. */
  lemma SpacedReplace(a: seq<Block>, x: Block, b: seq<Block>, m: seq<Block>, U: nat, gap: nat)
    requires Around(a, x, b, U, gap) && Spaced(m, U, gap) && Above(m, x.start) && Below(m, x.End())
    ensures Spaced(a + m + b, U, gap)
  {
    SpacedSkip(a, m, U, gap, x.start);
    var am := a + m;
    if m == [] {
      assert am == a;
      SpacedSkip(am, b, U, gap, x.start);
    } else {
      assert am[|am| - 1] == m[|m| - 1];
      SpacedSkip(am, b, U, gap, x.End() + gap);
    }
  }

  /** What is left of block x when its first `n` units go. */
  ghost function Behind(x: Block, n: nat): seq<Block>
    requires n <= x.len
  {
    if n < x.len then [Block(x.start + n, x.len - n)] else []
  }

  /** What is left of block x when `n` units are taken `d` units into it. */
  ghost function Remains(x: Block, d: nat, n: nat): seq<Block>
    requires d + n <= x.len
  {
    (if d > 0 then [Block(x.start, d)] else []) + Behind(x, d + n)
  }

  // ---------- Carving ----------

  /** The two writes that cut block x into an unaligned head and an aligned tail. */
  ghost function CutHead(c: Cells, x: Block, d: nat, next: nat): (e: Cells)
    requires 0 < d < x.len && x.End() <= |c| <= MAX_UNITS && next <= |c|
    ensures |e| == |c|
  {
    SetSlob(SetSlob(c, x.start + d, x.len - d, next), x.start, d, x.start + d)
  }

  lemma CutHeadEncodes(c: Cells, x: Block, d: nat, next: nat)
    requires 0 < d < x.len && x.End() <= |c| <= MAX_UNITS && next <= |c|
    ensures Encoded(CutHead(c, x, d, next), Block(x.start, d), x.start + d)
    ensures Encoded(CutHead(c, x, d, next), Block(x.start + d, x.len - d), next)
    ensures forall k :: 0 <= k < |c| && !x.Covers(k) ==> CutHead(c, x, d, next)[k] == c[k]
  {
  }

  /** A list that lies clear of x reads the same after the cut. */
  lemma CutHeadFrame(c: Cells, x: Block, d: nat, next: nat, list: seq<Block>, end: nat)
    requires 0 < d < x.len && x.End() <= |c| <= MAX_UNITS && next <= |c|
    requires Linked(c, list, end) && (Below(list, x.start) || Above(list, x.End()))
    ensures Linked(CutHead(c, x, d, next), list, end)
  {
    LinkedWrite(c, list, end, x.start + d, x.len - d, next);
    LinkedWrite(SetSlob(c, x.start + d, x.len - d, next), list, end, x.start, d, x.start + d);
  }

  lemma CutHeadLinks(c: Cells, a: seq<Block>, x: Block, b: seq<Block>, d: nat, next: nat)
    requires |c| <= MAX_UNITS && Around(a, x, b, |c|, 0) && Linked(c, a + [x] + b, |c|)
    requires 0 < d < x.len && next == StartAt(b, 0, |c|) <= |c|
    ensures Linked(CutHead(c, x, d, next), a + [Block(x.start, d)] + [Block(x.start + d, x.len - d)] + b, |c|)
  {
    var y, z, e := Block(x.start, d), Block(x.start + d, x.len - d), CutHead(c, x, d, next);
    LinkedMiddle(c, a, [x], b, |c|);
    CutHeadFrame(c, x, d, next, a, x.start);
    CutHeadFrame(c, x, d, next, b, |c|);
    CutHeadEncodes(c, x, d, next);
    LinkedSingle(e, y, z.start);
    LinkedSingle(e, z, next);
    LinkedConcat(e, a, [y], z.start);
    LinkedMiddle(e, a + [y], [z], b, |c|);
  }

  /** The order survives the cut; the two pieces touch. */
  lemma CutHeadOrder(a: seq<Block>, x: Block, b: seq<Block>, d: nat, U: nat)
    requires Around(a, x, b, U, 0) && 0 < d < x.len
    ensures Around(a + [Block(x.start, d)], Block(x.start + d, x.len - d), b, U, 0)
  {
    var y := Block(x.start, d);
    assert Spaced([y], U, 0);
    SpacedConcat(a, [y], U, 0);
    assert forall i :: 0 <= i < |a| ==> (a + [y])[i] == a[i];
  }

  /** The first write that unlinks the front of x: the block before it, if any, is redirected. */
  ghost function Redirect(c: Cells, a: seq<Block>, next: nat): (e: Cells)
    requires |c| <= MAX_UNITS && Ordered(a, |c|) && next <= |c|
    ensures |e| == |c|
  {
    if a == [] then c else SetSlob(c, a[|a| - 1].start, a[|a| - 1].len, next)
  }

  lemma RedirectLinks(c: Cells, a: seq<Block>, end: nat, next: nat)
    requires |c| <= MAX_UNITS && Ordered(a, |c|) && next <= |c| && Linked(c, a, end)
    ensures Linked(Redirect(c, a, next), a, next)
    ensures forall k :: 0 <= k < |c| && !FreeAt(a, k) ==> Redirect(c, a, next)[k] == c[k]
  {
    if a != [] {
      LinkedRedirect(c, a, end, next, |c|);
      forall k | 0 <= k < |c| && !FreeAt(a, k) ensures Redirect(c, a, next)[k] == c[k] {
        assert !a[|a| - 1].Covers(k);
      }
    }
  }

  lemma RedirectFrame(c: Cells, a: seq<Block>, next: nat, b: seq<Block>, end: nat, m: nat)
    requires |c| <= MAX_UNITS && Ordered(a, |c|) && next <= |c| && Linked(c, b, end)
    requires Below(a, m) && Above(b, m)
    ensures Linked(Redirect(c, a, next), b, end)
  {
    if a != [] {
      assert a[|a| - 1].End() <= m;
      LinkedWrite(c, b, end, a[|a| - 1].start, a[|a| - 1].len, next);
    }
  }

  /** Exact fit: x is unlinked. */
  lemma UnlinkLinks(c: Cells, a: seq<Block>, x: Block, b: seq<Block>, next: nat)
    requires |c| <= MAX_UNITS && Around(a, x, b, |c|, 0) && Linked(c, a + [x] + b, |c|)
    requires next == StartAt(b, 0, |c|) <= |c|
    ensures Linked(Redirect(c, a, next), a + b, |c|)
  {
    LinkedMiddle(c, a, [x], b, |c|);
    RedirectLinks(c, a, x.start, next);
    RedirectFrame(c, a, next, b, |c|, x.start);
    LinkedConcat(Redirect(c, a, next), a, b, |c|);
  }

  /** Otherwise the rest of x takes its place. */
  lemma ShortenLinks(c: Cells, a: seq<Block>, x: Block, b: seq<Block>, n: nat, next: nat)
    requires |c| <= MAX_UNITS && Around(a, x, b, |c|, 0) && Linked(c, a + [x] + b, |c|)
    requires 0 < n < x.len && next == StartAt(b, 0, |c|) <= |c|
    ensures Linked(SetSlob(Redirect(c, a, x.start + n), x.start + n, x.len - n, next),
                   a + [Block(x.start + n, x.len - n)] + b, |c|)
  {
    var z := Block(x.start + n, x.len - n);
    RedirectAround(c, a, x, b, z.start);
    RestWritten(Redirect(c, a, z.start), a, z, b, next);
  }

  /** Redirecting the list before x leaves it, and the list behind x, linked. */
  lemma RedirectAround(c: Cells, a: seq<Block>, x: Block, b: seq<Block>, next: nat)
    requires |c| <= MAX_UNITS && Around(a, x, b, |c|, 0) && Linked(c, a + [x] + b, |c|) && next <= |c|
    ensures Linked(Redirect(c, a, next), a, next) && Linked(Redirect(c, a, next), b, |c|)
  {
    LinkedMiddle(c, a, [x], b, |c|);
    RedirectLinks(c, a, x.start, next);
    RedirectFrame(c, a, next, b, |c|, x.start);
  }

  /** Writing the header of z puts it between the two lists. */
  lemma RestWritten(c1: Cells, a: seq<Block>, z: Block, b: seq<Block>, next: nat)
    requires |c1| <= MAX_UNITS && z.len > 0 && z.End() <= |c1|
    requires Below(a, z.start) && Above(b, z.End()) && next == StartAt(b, 0, |c1|) <= |c1|
    requires Linked(c1, a, z.start) && Linked(c1, b, |c1|)
    ensures Linked(SetSlob(c1, z.start, z.len, next), a + [z] + b, |c1|)
  {
    var e := SetSlob(c1, z.start, z.len, next);
    LinkedWrite(c1, a, z.start, z.start, z.len, next);
    LinkedWrite(c1, b, |c1|, z.start, z.len, next);
    assert Encoded(e, z, next);
    LinkedSingle(e, z, next);
    LinkedMiddle(e, a, [z], b, |c1|);
  }

  /** What the allocator reads at block x and at the block before it. */
  lemma ReadsAround(c: Cells, a: seq<Block>, x: Block, b: seq<Block>)
    requires Around(a, x, b, |c|, 0) && Linked(c, a + [x] + b, |c|)
    ensures Readable(c, x.start) && Units(c, x.start) == x.len && Next(c, x.start) == StartAt(b, 0, |c|) <= |c|
    ensures a != [] ==> a[|a| - 1].start < |c| && Units(c, a[|a| - 1].start) == a[|a| - 1].len
  {
    LinkedMiddle(c, a, [x], b, |c|);
    LinkedSingle(c, x, StartAt(b, 0, |c|));
    EncodedReads(c, x, StartAt(b, 0, |c|));
    if a != [] {
      assert EncodedAt(c, a, |a| - 1, x.start);
      EncodedReads(c, a[|a| - 1], x.start);
    }
  }

  /** Neither the redirection nor the new header touches a unit that was not free. */
  lemma CarveFrame(c: Cells, a: seq<Block>, x: Block, b: seq<Block>, n: nat, next: nat, k: nat)
    requires |c| <= MAX_UNITS && Around(a, x, b, |c|, 0) && 0 < n <= x.len && next <= |c|
    requires k < |c| && !FreeAt(a + [x] + b, k)
    ensures Redirect(c, a, next)[k] == c[k]
    ensures n < x.len ==> SetSlob(Redirect(c, a, x.start + n), x.start + n, x.len - n, next)[k] == c[k]
  {
    FreeAtMiddle(a, [x], b, k);
    FreeAtSingle(x, k);
    if a != [] {
      assert !a[|a| - 1].Covers(k);
    }
  }

  /** The page once the first n units of x are off the list. */
  ghost function TakenFront(c: Cells, a: seq<Block>, x: Block, b: seq<Block>, n: nat): (e: Cells)
    requires |c| <= MAX_UNITS && Around(a, x, b, |c|, 0) && 0 < n <= x.len
    ensures |e| == |c|
  {
    var next := StartAt(b, 0, |c|);
    if n == x.len then Redirect(c, a, next)
    else SetSlob(Redirect(c, a, x.start + n), x.start + n, x.len - n, next)
  }

  lemma TakenFrontLinks(c: Cells, a: seq<Block>, x: Block, b: seq<Block>, n: nat)
    requires |c| <= MAX_UNITS && Around(a, x, b, |c|, 0) && 0 < n <= x.len && Linked(c, a + [x] + b, |c|)
    ensures Linked(TakenFront(c, a, x, b, n), a + Behind(x, n) + b, |c|)
  {
    var next := StartAt(b, 0, |c|);
    if n == x.len {
      UnlinkLinks(c, a, x, b, next);
      assert a + Behind(x, n) + b == a + b;
    } else {
      ShortenLinks(c, a, x, b, n, next);
    }
  }

  lemma TakenFrontFrame(c: Cells, a: seq<Block>, x: Block, b: seq<Block>, n: nat)
    requires |c| <= MAX_UNITS && Around(a, x, b, |c|, 0) && 0 < n <= x.len
    ensures forall k :: 0 <= k < |c| && !FreeAt(a + [x] + b, k) ==> TakenFront(c, a, x, b, n)[k] == c[k]
  {
    forall k | 0 <= k < |c| && !FreeAt(a + [x] + b, k) ensures TakenFront(c, a, x, b, n)[k] == c[k] {
      CarveFrame(c, a, x, b, n, StartAt(b, 0, |c|), k);
    }
  }

  /** Where the list begins, before and after. */
  lemma StartsAround(a: seq<Block>, x: Block, b: seq<Block>, n: nat, end: nat)
    requires 0 < n <= x.len
    ensures StartAt(a + [x] + b, 0, end) == if a == [] then x.start else a[0].start
    ensures StartAt(a + Behind(x, n) + b, 0, end) ==
            if a != [] then a[0].start else if n < x.len then x.start + n else StartAt(b, 0, end)
  {
  }

  lemma CutHeadStarts(a: seq<Block>, x: Block, b: seq<Block>, d: nat, n: nat, end: nat)
    requires 0 < d && 0 < n && d + n <= x.len
    ensures var y, z := Block(x.start, d), Block(x.start + d, x.len - d);
            && StartAt(a + [x] + b, 0, end) == StartAt(a + [y] + [z] + b, 0, end)
            && a + [y] + Behind(z, n) + b == a + Remains(x, d, n) + b
  {
  }

  lemma RemainsSpaced(x: Block, d: nat, n: nat, U: nat)
    requires 0 < n && d + n <= x.len && x.End() <= U
    ensures WellFormed(Remains(x, d, n), U) && Above(Remains(x, d, n), x.start) && Below(Remains(x, d, n), x.End())
  {
  }

  /** Coalescing survives: the pieces of x that remain touch neither each other nor a neighbour. */
  lemma RemainsWellFormed(a: seq<Block>, x: Block, b: seq<Block>, d: nat, n: nat, U: nat)
    requires WellFormed(a + [x] + b, U) && 0 < n && d + n <= x.len
    ensures WellFormed(a + Remains(x, d, n) + b, U)
  {
    AroundFromSpaced(a, x, b, U, 1);
    RemainsSpaced(x, d, n, U);
    SpacedReplace(a, x, b, Remains(x, d, n), U, 1);
  }

  lemma RemainsCoverOne(x: Block, d: nat, n: nat, k: int)
    requires 0 < n && d + n <= x.len
    ensures FreeAt(Remains(x, d, n), k) <==> x.Covers(k) && !(x.start + d <= k < x.start + d + n)
  {
    FreeAtConcat(if d > 0 then [Block(x.start, d)] else [], Behind(x, d + n), k);
    FreeAtSingle(Block(x.start, d), k);
    FreeAtSingle(Block(x.start + d + n, x.len - d - n), k);
  }

  lemma OutsideNotCovered(a: seq<Block>, x: Block, b: seq<Block>, U: nat, k: int)
    requires Around(a, x, b, U, 0) && x.Covers(k)
    ensures !FreeAt(a, k) && !FreeAt(b, k)
  {
    forall i | 0 <= i < |a| ensures !a[i].Covers(k) {
      assert a[i].End() + 0 <= x.start;
    }
    forall i | 0 <= i < |b| ensures !b[i].Covers(k) {
      assert x.End() + 0 <= b[i].start;
    }
  }

  lemma RemainsCover(a: seq<Block>, x: Block, b: seq<Block>, d: nat, n: nat, U: nat, k: int)
    requires Around(a, x, b, U, 0) && 0 < n && d + n <= x.len
    ensures FreeAt(a + Remains(x, d, n) + b, k)
            <==> FreeAt(a + [x] + b, k) && !(x.start + d <= k < x.start + d + n)
  {
    FreeAtMiddle(a, [x], b, k);
    FreeAtMiddle(a, Remains(x, d, n), b, k);
    FreeAtSingle(x, k);
    RemainsCoverOne(x, d, n, k);
    if x.Covers(k) {
      OutsideNotCovered(a, x, b, U, k);
    }
  }

  lemma RemainsSum(a: seq<Block>, x: Block, b: seq<Block>, d: nat, n: nat)
    requires 0 < n && d + n <= x.len
    ensures SumLens(a + Remains(x, d, n) + b) == SumLens(a + [x] + b) - n
  {
    SumLensMiddle(a, [x], b);
    SumLensMiddle(a, Remains(x, d, n), b);
    SumLensConcat(if d > 0 then [Block(x.start, d)] else [], Behind(x, d + n));
  }

  // ---------- Freeing ----------

  /** Do block x and the list that follows it touch? */
  ghost predicate Touches(x: Block, b: seq<Block>) {
    b != [] && x.End() == b[0].start
  }

  /** The freed block, merged with the first block of b when the two touch. */
  ghost function MergeNext(x: Block, b: seq<Block>): (l: seq<Block>)
    ensures l != [] && l[0].start == x.start
  {
    if Touches(x, b) then [Block(x.start, x.len + b[0].len)] + b[1..] else [x] + b
  }

  /** The last block of a, merged with the first of l when the two touch. */
  ghost function MergePrev(a: seq<Block>, l: seq<Block>): seq<Block>
    requires l != []
  {
    if a != [] && Touches(a[|a| - 1], l) then a[..|a| - 1] + MergeNext(a[|a| - 1], l) else a + l
  }

  /** x precedes the well-formed list b. */
  ghost predicate Before(x: Block, b: seq<Block>, U: nat) {
    WellFormed(b, U) && x.len > 0 && x.End() <= U && Above(b, x.End())
  }

  lemma FreeAtSplitFirst(b: seq<Block>, k: int)
    requires b != []
    ensures FreeAt(b, k) <==> b[0].Covers(k) || FreeAt(b[1..], k)
  {
    assert b == [b[0]] + b[1..];
    FreeAtConcat([b[0]], b[1..], k);
    FreeAtSingle(b[0], k);
  }

  lemma MergeNextCover(x: Block, b: seq<Block>, k: int)
    ensures FreeAt(MergeNext(x, b), k) <==> x.Covers(k) || FreeAt(b, k)
  {
    FreeAtSplitFirst(MergeNext(x, b), k);
    if Touches(x, b) {
      FreeAtSplitFirst(b, k);
      assert MergeNext(x, b)[1..] == b[1..];
    } else {
      assert MergeNext(x, b)[1..] == b;
    }
  }

  lemma MergeNextSum(x: Block, b: seq<Block>)
    ensures SumLens(MergeNext(x, b)) == x.len + SumLens(b)
  {
    if Touches(x, b) {
      assert MergeNext(x, b)[1..] == b[1..];
    } else {
      assert MergeNext(x, b)[1..] == b;
    }
  }

  lemma FirstSpaced(x: Block, b: seq<Block>, U: nat)
    requires WellFormed([x] + b, U)
    ensures WellFormed(b, U) && x.len > 0 && x.End() <= U
    ensures b != [] ==> x.End() + 1 <= b[0].start
  {
    SpacedParts([x], b, U, 1);
    assert [x][0] == x;
  }

  lemma FirstSpacedBack(x: Block, b: seq<Block>, U: nat)
    requires WellFormed(b, U) && x.len > 0 && x.End() <= U
    requires b != [] ==> x.End() + 1 <= b[0].start
    ensures WellFormed([x] + b, U)
  {
    assert WellFormed([x], U);
    SpacedConcat([x], b, U, 1);
  }

  lemma MergeNextWellFormed(x: Block, b: seq<Block>, U: nat)
    requires Before(x, b, U)
    ensures WellFormed(MergeNext(x, b), U)
    ensures |MergeNext(x, b)| > 1 ==> MergeNext(x, b)[0].End() + 1 <= MergeNext(x, b)[1].start
  {
    if Touches(x, b) {
      MergedWellFormed(x, b[0], b[1..], U);
      assert b == [b[0]] + b[1..];
    } else {
      FirstSpacedBack(x, b, U);
    }
  }

  lemma MergedWellFormed(x: Block, y: Block, rest: seq<Block>, U: nat)
    ensures WellFormed([y] + rest, U) && x.len > 0 && x.End() == y.start ==>
      WellFormed([Block(x.start, x.len + y.len)] + rest, U)
      && (rest != [] ==> x.start + (x.len + y.len) + 1 <= rest[0].start)
  {
    if WellFormed([y] + rest, U) && x.len > 0 && x.End() == y.start {
      FirstSpaced(y, rest, U);
      FirstSpacedBack(Block(x.start, x.len + y.len), rest, U);
    }
  }

  /** Writing the header of the freed block, merged to the right. */
  lemma MergeNextLinks(c: Cells, x: Block, b: seq<Block>)
    requires |c| <= MAX_UNITS && Before(x, b, |c|) && Linked(c, b, |c|)
    ensures var l := MergeNext(x, b);
            && l[0].End() <= |c| && StartAt(l, 1, |c|) <= |c|
            && Linked(SetSlob(c, x.start, l[0].len, StartAt(l, 1, |c|)), l, |c|)
  {
    MergeNextWellFormed(x, b, |c|);
    var l := MergeNext(x, b);
    var rest, next := l[1..], StartAt(l, 1, |c|);
    assert l == [l[0]] + rest;
    assert next == StartAt(rest, 0, |c|);
    var e := SetSlob(c, x.start, l[0].len, next);
    assert Linked(c, rest, |c|) by {
      if Touches(x, b) {
        assert b == [b[0]] + rest;
        LinkedConcat(c, [b[0]], rest, |c|);
      } else {
        assert rest == b;
      }
    }
    assert Above(rest, l[0].End()) by {
      forall i | 0 <= i < |rest| ensures l[0].End() <= rest[i].start {
        assert Apart(l, 0, i + 1, 1);
      }
    }
    LinkedWrite(c, rest, |c|, x.start, l[0].len, next);
    assert Encoded(e, l[0], next);
    LinkedSingle(e, l[0], next);
    LinkedConcat(e, [l[0]], rest, |c|);
  }

  /** a and l may touch where they meet, and keep apart everywhere else. */
  ghost predicate Meets(a: seq<Block>, l: seq<Block>, U: nat) {
    && WellFormed(a, U) && WellFormed(l, U) && l != []
    && (a != [] ==> a[|a| - 1].End() <= l[0].start)
  }

  lemma MeetsSplit(a: seq<Block>, l: seq<Block>, U: nat)
    requires Meets(a, l, U) && a != []
    ensures var p := a[|a| - 1];
            && a == a[..|a| - 1] + [p] && Before(p, l, U)
            && Around(a[..|a| - 1], p, [], U, 1) && Below(a[..|a| - 1], p.start)
  {
    var n := |a| - 1;
    assert a == a[..n] + [a[n]];
    assert a == a[..n] + [a[n]] + [];
    AroundFromSpaced(a[..n], a[n], [], U, 1);
    SpacedEnds(l, U, 1);
  }

  lemma MergePrevCover(a: seq<Block>, l: seq<Block>, k: int)
    requires l != []
    ensures FreeAt(MergePrev(a, l), k) <==> FreeAt(a, k) || FreeAt(l, k)
  {
    if a != [] && Touches(a[|a| - 1], l) {
      var n := |a| - 1;
      assert a == a[..n] + [a[n]];
      FreeAtConcat(a[..n], [a[n]], k);
      FreeAtSingle(a[n], k);
      FreeAtConcat(a[..n], MergeNext(a[n], l), k);
      MergeNextCover(a[n], l, k);
    } else {
      FreeAtConcat(a, l, k);
    }
  }

  lemma MergePrevSum(a: seq<Block>, l: seq<Block>)
    requires l != []
    ensures SumLens(MergePrev(a, l)) == SumLens(a) + SumLens(l)
  {
    if a != [] && Touches(a[|a| - 1], l) {
      var n := |a| - 1;
      assert a == a[..n] + [a[n]];
      SumLensConcat(a[..n], [a[n]]);
      SumLensConcat(a[..n], MergeNext(a[n], l));
      MergeNextSum(a[n], l);
      assert SumLens([a[n]]) == a[n].len;
    } else {
      SumLensConcat(a, l);
    }
  }

  lemma MergePrevWellFormed(a: seq<Block>, l: seq<Block>, U: nat)
    requires Meets(a, l, U)
    ensures WellFormed(MergePrev(a, l), U)
  {
    if a != [] && Touches(a[|a| - 1], l) {
      var n := |a| - 1;
      MeetsSplit(a, l, U);
      MergeNextWellFormed(a[n], l, U);
      SpacedConcat(a[..n], MergeNext(a[n], l), U, 1);
    } else {
      SpacedConcat(a, l, U, 1);
    }
  }

  /** Rewriting the header of the block before the freed one: the two merge. */
  lemma MergePrevLinksTouching(c: Cells, a: seq<Block>, end: nat, l: seq<Block>)
    requires |c| <= MAX_UNITS && a != [] && Meets(a, l, |c|) && Linked(c, a, end) && Linked(c, l, |c|)
    requires Touches(a[|a| - 1], l)
    ensures var p := a[|a| - 1];
            && p.len > 0 && p.start + p.len + l[0].len <= |c| && StartAt(l, 1, |c|) <= |c|
            && Linked(SetSlob(c, p.start, p.len + l[0].len, StartAt(l, 1, |c|)), MergePrev(a, l), |c|)
  {
    var init, p := a[..|a| - 1], a[|a| - 1];
    MeetsSplit(a, l, |c|);
    LinkedConcat(c, init, [p], end);
    assert Linked(c, init, p.start);
    assert MergePrev(a, l) == init + MergeNext(p, l);
    MergeNextLinks(c, p, l);
    TouchingParts(p, l, |c|);
    JoinLinks(c, init, p.start, MergeNext(p, l));
  }

  lemma TouchingParts(p: Block, l: seq<Block>, end: nat)
    requires Touches(p, l)
    ensures MergeNext(p, l)[0] == Block(p.start, p.len + l[0].len)
    ensures StartAt(MergeNext(p, l), 1, end) == StartAt(l, 1, end)
  {
  }

  /** A list that ends at s, continued by the list whose first header is written at s. */
  lemma JoinLinks(c: Cells, init: seq<Block>, s: nat, m: seq<Block>)
    requires |c| <= MAX_UNITS && m != [] && m[0].start == s && m[0].len > 0 && m[0].End() <= |c|
    requires StartAt(m, 1, |c|) <= |c|
    requires Linked(c, init, s) && Below(init, s)
    requires Linked(SetSlob(c, s, m[0].len, StartAt(m, 1, |c|)), m, |c|)
    ensures Linked(SetSlob(c, s, m[0].len, StartAt(m, 1, |c|)), init + m, |c|)
  {
    LinkedWrite(c, init, s, s, m[0].len, StartAt(m, 1, |c|));
    LinkedConcat(SetSlob(c, s, m[0].len, StartAt(m, 1, |c|)), init, m, |c|);
  }

  /** Rewriting the header of the block before the freed one: it now points to it. */
  lemma MergePrevLinksApart(c: Cells, a: seq<Block>, end: nat, l: seq<Block>)
    requires |c| <= MAX_UNITS && a != [] && Meets(a, l, |c|) && Linked(c, a, end) && Linked(c, l, |c|)
    requires !Touches(a[|a| - 1], l)
    ensures var p := a[|a| - 1];
            && p.len > 0 && p.End() <= |c| && l[0].start <= |c|
            && Linked(SetSlob(c, p.start, p.len, l[0].start), MergePrev(a, l), |c|)
  {
    var p := a[|a| - 1];
    WellFormedIsOrdered(a, |c|);
    SpacedEnds(l, |c|, 1);
    LinkedRedirect(c, a, end, l[0].start, |c|);
    AboveFrom(l, p.End());
    LinkedWrite(c, l, |c|, p.start, p.len, l[0].start);
    LinkedConcat(SetSlob(c, p.start, p.len, l[0].start), a, l, |c|);
  }

  lemma AboveFrom(l: seq<Block>, m: nat)
    requires l != [] && Above(l, l[0].start) && m <= l[0].start
    ensures Above(l, m)
  {
  }
}
