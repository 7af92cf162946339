/** A page of the SLOB allocator: `struct page` together with the memory it describes. */
module SlobPage {
  import opened Wrappers

  import opened SlobList
  import opened SlobCode
  import opened SlobFit
  import opened SlobLive
  import opened SlobEdit
  import opened SlobSteps
  import opened SlobCarve
  import opened SlobInsert

  class Page {
    const cells: array<SlobIdx>  // the page's memory, in units
    var freelist: nat            // offset of the first free block; the page's length when there is none
    var units: int               // free units
    var slobFree: bool           // the PageSlobFree flag
    ghost var live: Live         // blocks handed out
    ghost const sizeClass: nat   // the list the page was set up for

    ghost function State(): PageState
      reads this, cells
    {
      PageState(cells[..], freelist, units, live)
    }

    ghost function List(): seq<Block>
      reads this, cells
    {
      FreeList(State())
    }

    ghost function Info(): PageInfo
      reads this, cells
    {
      PageInfo(State(), slobFree, sizeClass)
    }

    ghost predicate Valid()
      reads this, cells
    {
      && Inv(State())
      && (slobFree <==> units > 0)
    }

    /** A new page, set up as one free block that ends at the page's end. */
    constructor (U: nat, ghost sizeClass: nat)
      requires 0 < U <= MAX_UNITS
      ensures Valid() && Fresh(State()) && cells.Length == U && fresh(cells) && this.sizeClass == sizeClass
    {
      this.sizeClass := sizeClass;
      cells := new SlobIdx[U](_ => 0);
      freelist, units, slobFree, live := 0, U, true, map[];
      new;
      WriteSlob(0, U, U);
      RoundTrip(seq(U, _ => 0), 0, U, U);
      assert Encoded(cells[..], Block(0, U), U);
      LinkedSingle(cells[..], Block(0, U), U);
      DecodeLinked(cells[..], [Block(0, U)]);
      FreshInv(State());
    }

    /** set_slob */
    method WriteSlob(s: nat, size: nat, next: nat)
      requires cells.Length <= MAX_UNITS && size > 0 && s + size <= cells.Length && next <= cells.Length
      modifies cells
      ensures cells[..] == SetSlob(old(cells[..]), s, size, next)
    {
      if size > 1 {
        cells[s] := size;
        cells[s + 1] := next;
      } else {
        cells[s] := Neg(next);
      }
    }

    /** slob_units */
    method ReadUnits(s: nat) returns (n: int)
      requires s < cells.Length
      ensures n == Units(cells[..], s)
    {
      n := if cells[s] > 0 then cells[s] else 1;
    }

    /** slob_next */
    method ReadNext(s: nat) returns (n: int)
      requires Readable(cells[..], s)
      ensures n == Next(cells[..], s)
    {
      if cells[s] < 0 {
        n := Neg(cells[s]);
      } else {
        n := cells[s + 1];
      }
    }

    /** slob_last */
    method IsLast(s: nat) returns (last: bool)
      requires Readable(cells[..], s)
      ensures last <==> Last(cells[..], s)
    {
      var n := ReadNext(s);
      last := n % cells.Length == 0;
    }

    /** Takes the first n units of free block x off the list; `prev` is the block before it, or -1. */
    method TakeFront(prev: int, cur: nat, n: nat, ghost a: seq<Block>, ghost x: Block, ghost b: seq<Block>)
      requires cells.Length <= MAX_UNITS && Around(a, x, b, cells.Length, 0)
      requires Linked(cells[..], a + [x] + b, cells.Length) && freelist == StartAt(a + [x] + b, 0, cells.Length)
      requires cur == x.start && prev == (if a == [] then -1 else a[|a| - 1].start) && 0 < n <= x.len
      modifies cells, this`freelist
      ensures cells[..] == TakenFront(old(cells[..]), a, x, b, n)
      ensures freelist == StartAt(a + Behind(x, n) + b, 0, cells.Length)
    {
      ReadsAround(cells[..], a, x, b);
      StartsAround(a, x, b, n, cells.Length);
      var avail := ReadUnits(cur);
      var next := ReadNext(cur);
      if avail == n {
        if prev != -1 {
          var p := ReadUnits(prev);
          WriteSlob(prev, p, next);
        } else {
          freelist := next;
        }
      } else {
        if prev != -1 {
          var p := ReadUnits(prev);
          WriteSlob(prev, p, cur + n);
        } else {
          freelist := cur + n;
        }
        WriteSlob(cur + n, avail - n, next);
      }
    }

    /** Cuts `delta` units off the front of free block x, to reach an aligned start. */
    method CutFront(cur: nat, delta: nat, ghost a: seq<Block>, ghost x: Block, ghost b: seq<Block>)
      requires cells.Length <= MAX_UNITS && Around(a, x, b, cells.Length, 0)
      requires Linked(cells[..], a + [x] + b, cells.Length)
      requires cur == x.start && 0 < delta < x.len
      modifies cells
      ensures StartAt(b, 0, cells.Length) <= cells.Length
      ensures cells[..] == CutHead(old(cells[..]), x, delta, StartAt(b, 0, cells.Length))
    {
      ReadsAround(cells[..], a, x, b);
      var avail := ReadUnits(cur);
      var next := ReadNext(cur);
      WriteSlob(cur + delta, avail - delta, next);
      WriteSlob(cur, delta, cur + delta);
    }

    /** Relinks the free list around n units taken `delta` units into free block x. */
    method Relink(prev: int, cur: nat, delta: nat, n: nat, ghost a: seq<Block>, ghost x: Block, ghost b: seq<Block>)
      requires cells.Length <= MAX_UNITS && Around(a, x, b, cells.Length, 0)
      requires Linked(cells[..], a + [x] + b, cells.Length) && freelist == StartAt(a + [x] + b, 0, cells.Length)
      requires cur == x.start && prev == (if a == [] then -1 else a[|a| - 1].start)
      requires 0 < n && delta + n <= x.len
      modifies cells, this`freelist
      ensures cells[..] == Carved(old(cells[..]), a, x, b, delta, n)
      ensures freelist == StartAt(a + Remains(x, delta, n) + b, 0, cells.Length)
    {
      if delta > 0 {
        ghost var c := cells[..];
        ghost var y, z := Block(x.start, delta), Block(x.start + delta, x.len - delta);
        CutFront(cur, delta, a, x, b);
        CutHeadLinks(c, a, x, b, delta, StartAt(b, 0, cells.Length));
        CutHeadOrder(a, x, b, delta, cells.Length);
        CutHeadStarts(a, x, b, delta, n, cells.Length);
        TakeFront(cur, cur + delta, n, a + [y], z, b);
      } else {
        assert Remains(x, 0, n) == Behind(x, n);
        TakeFront(prev, cur, n, a, x, b);
      }
    }

    /** Takes n units, `delta` units into free block x, off the list and off the count. */
    method CarveOut(prev: int, cur: nat, delta: nat, n: nat, ghost a: seq<Block>, ghost x: Block, ghost b: seq<Block>)
      requires ListIs(State(), a, x, b) && 0 < n && delta + n <= x.len
      requires cur == x.start && prev == (if a == [] then -1 else a[|a| - 1].start)
      modifies cells, this`freelist, this`units, this`slobFree
      ensures CarveWrites(old(State()), State(), a, x, b, delta, n)
      ensures slobFree == (old(slobFree) && units != 0)
    {
      Relink(prev, cur, delta, n, a, x, b);
      units := units - n;
      if units == 0 {
        slobFree := false;
      }
    }

    /** Carves n units, `delta` units into free block number i, and hands them out. */
    method Carve(prev: int, cur: nat, delta: nat, size: nat, ghost i: nat) returns (r: nat)
      requires Valid() && size > 0 && i < |List()|
      requires cur == List()[i].start && prev == (if i == 0 then -1 else List()[i - 1].start)
      requires delta + SlobUnits(size) <= List()[i].len
      modifies this, cells
      ensures r == cur + delta
      ensures Valid() && Handout(old(State()), State(), size, r)
    {
      ghost var s0 := State();
      ghost var a, x, b := List()[..i], List()[i], List()[i + 1..];
      SplitAt(s0, i);
      CarveOut(prev, cur, delta, SlobUnits(size), a, x, b);
      r := cur + delta;
      ghost var s1 := State();
      live := live[r := size];
      CarveWritesLive(s0, s1, live, a, x, b, delta, SlobUnits(size));
      assert State() == s1.(live := live);
      CarveHandout(s0, State(), a, x, b, delta, size, r);
      HandoutInv(s0, State(), size, r);
    }

    /** The scan of the best-fit branch: the block to carve, the one before it, the units to skip;
        -1 when no block has room. */
    method ScanBestFit(n: nat, align: nat) returns (bestPrev: int, bestCur: int, bestDelta: nat, ghost b: nat)
      requires ListOk(State()) && units > 0
      ensures bestCur == -1 <==> NoneFits(List(), n, align)
      ensures bestCur != -1 ==>
          && IsBestFit(List(), b, n, align)
          && bestCur == List()[b].start && bestPrev == (if b == 0 then -1 else List()[b - 1].start)
          && bestDelta == Delta(List()[b].start, align)
    {
      ghost var list := List();
      var prev, cur: int := -1, freelist;
      var bestDiff := 0;
      bestPrev, bestCur, bestDelta, b := -1, -1, 0, 0;
      ghost var i: nat := 0;
      while true
        invariant i < |list| && cur == list[i].start && prev == (if i == 0 then -1 else list[i - 1].start)
        invariant Scanned(list, i, bestCur != -1, b, n, align)
        invariant bestCur != -1 ==>
            && bestCur == list[b].start && bestPrev == (if b == 0 then -1 else list[b - 1].start)
            && bestDelta == Delta(list[b].start, align) && bestDiff == Leftover(list[b], n, align)
        decreases |list| - i
      {
        Walk(State(), i);
        var avail := ReadUnits(cur);
        var delta := Delta(cur, align);
        ScanStep(list, i, bestCur != -1, b, n, align);
        if avail >= n + delta {
          if bestCur == -1 || avail - (n + delta) < bestDiff {
            bestPrev, bestCur, bestDelta, bestDiff := prev, cur, delta, avail - (n + delta);
            b := i;
          }
        }
        var last := IsLast(cur);
        i := i + 1;
        if last {
          assert list[..i] == list;
          return;
        }
        prev := cur;
        cur := ReadNext(cur);
      }
    }

    /** The scan of the first-fit branch. */
    method ScanFirstFit(n: nat, align: nat) returns (prev: int, cur: int, ghost f: nat)
      requires ListOk(State()) && units > 0
      ensures cur == -1 <==> NoneFits(List(), n, align)
      ensures cur != -1 ==>
          && IsFirstFit(List(), f, n, align)
          && cur == List()[f].start && prev == (if f == 0 then -1 else List()[f - 1].start)
    {
      ghost var list := List();
      prev, cur, f := -1, freelist, 0;
      while true
        invariant f < |list| && cur == list[f].start && prev == (if f == 0 then -1 else list[f - 1].start)
        invariant NoneFits(list[..f], n, align)
        decreases |list| - f
      {
        Walk(State(), f);
        var avail := ReadUnits(cur);
        var delta := Delta(cur, align);
        ScanFirst(list, f, n, align);
        if avail >= n + delta {
          return;
        }
        var last := IsLast(cur);
        if last {
          assert list[..f + 1] == list;
          return -1, -1, 0;
        }
        prev := cur;
        cur := ReadNext(cur);
        f := f + 1;
      }
    }

    /** slob_page_alloc, the branch selected by USE_BEST_FIT. */
    method AllocBestFit(size: nat, align: nat) returns (r: Option<nat>)
      requires Valid() && units > 0 && size > 0 && ValidAlign(align, cells.Length)
      modifies this, cells
      ensures Valid()
      ensures r.None? <==> NoneFits(old(List()), SlobUnits(size), align)
      ensures r.None? ==> unchanged(this) && unchanged(cells)
      ensures r.Some? ==> BestFitAt(old(List()), SlobUnits(size), align, r.value)
      ensures r.Some? ==> Handout(old(State()), State(), size, r.value)
    {
      var prev, cur, delta, b := ScanBestFit(SlobUnits(size), align);
      if cur == -1 {
        return None;
      }
      var a := Carve(prev, cur, delta, size, b);
      return Some(a);
    }

    /** slob_page_alloc, the other branch. */
    method AllocFirstFit(size: nat, align: nat) returns (r: Option<nat>)
      requires Valid() && units > 0 && size > 0 && ValidAlign(align, cells.Length)
      modifies this, cells
      ensures Valid()
      ensures r.None? <==> NoneFits(old(List()), SlobUnits(size), align)
      ensures r.None? ==> unchanged(this) && unchanged(cells)
      ensures r.Some? ==> FirstFitAt(old(List()), SlobUnits(size), align, r.value)
      ensures r.Some? ==> Handout(old(State()), State(), size, r.value)
    {
      var prev, cur, f := ScanFirstFit(SlobUnits(size), align);
      if cur == -1 {
        return None;
      }
      var a := Carve(prev, cur, Delta(cur, align), size, f);
      return Some(a);
    }

    /** Puts freed block x in front of the whole list, merging it with the first block. */
    method FreeFront(b: nat, n: nat, ghost s: PageState, ghost hi: seq<Block>)
      requires ListOk(s) && s.cells == cells[..] && s.freelist == freelist
      requires SplitsAt(s, [], Block(b, n), hi) && hi != []
      modifies cells, this`freelist
      ensures cells[..] == HeaderWritten(old(cells[..]), Block(b, n), hi)
      ensures freelist == b
    {
      ReadsBeside(s, [], Block(b, n), hi);
      MergeNextNext(Block(b, n), hi, cells.Length);
      var total := n;
      if b + n == freelist {
        var u := ReadUnits(freelist);
        total := total + u;
        freelist := ReadNext(freelist);
      }
      WriteSlob(b, total, freelist);
      freelist := b;
    }

    /** Writes the header of freed block x, merged with the block at `next` when the two touch. */
    method WriteFreed(prev: nat, next: nat, b: nat, n: nat,
                      ghost s: PageState, ghost lo: seq<Block>, ghost hi: seq<Block>)
      requires ListOk(s) && s.cells == cells[..] && SplitsAt(s, lo, Block(b, n), hi) && lo != []
      requires prev == lo[|lo| - 1].start && next == StartAt(hi, 0, cells.Length)
      modifies cells
      ensures cells[..] == HeaderWritten(s.cells, Block(b, n), hi)
    {
      ReadsBeside(s, lo, Block(b, n), hi);
      MergeNextNext(Block(b, n), hi, cells.Length);
      var last := IsLast(prev);
      if !last && b + n == next {
        var u := ReadUnits(next);
        var after := ReadNext(next);
        WriteSlob(b, n + u, after);
      } else {
        WriteSlob(b, n, next);
      }
    }

    /** Joins the block at b, whose header is written, to the block at `prev` before it. */
    method JoinPrev(prev: nat, b: nat, ghost lo: seq<Block>, ghost l: seq<Block>)
      requires cells.Length <= MAX_UNITS && lo != [] && Meets(lo, l, cells.Length)
      requires prev == lo[|lo| - 1].start && b == l[0].start
      requires Readable(cells[..], b) && Units(cells[..], b) == l[0].len
      requires Next(cells[..], b) == StartAt(l, 1, cells.Length)
      requires Units(cells[..], prev) == lo[|lo| - 1].len
      modifies cells
      ensures cells[..] == PrevWritten(old(cells[..]), lo, l)
    {
      MeetsSplit(lo, l, cells.Length);
      MergeNextNext(lo[|lo| - 1], l, cells.Length);
      var p := ReadUnits(prev);
      if prev + p == b {
        var u := ReadUnits(b);
        var after := ReadNext(b);
        WriteSlob(prev, u + p, after);
      } else {
        WriteSlob(prev, p, b);
      }
    }

    /** Puts freed block x between `prev` and `next`, merging it on either side. */
    method FreeBetween(prev: nat, next: nat, b: nat, n: nat,
                       ghost s: PageState, ghost lo: seq<Block>, ghost hi: seq<Block>)
      requires ListOk(s) && s.cells == cells[..] && SplitsAt(s, lo, Block(b, n), hi) && lo != []
      requires prev == lo[|lo| - 1].start && next == StartAt(hi, 0, cells.Length)
      modifies cells
      ensures Meets(lo, MergeNext(Block(b, n), hi), cells.Length)
      ensures cells[..] == PrevWritten(HeaderWritten(s.cells, Block(b, n), hi), lo, MergeNext(Block(b, n), hi))
    {
      MeetsAfter(lo, Block(b, n), hi, cells.Length);
      WriteFreed(prev, next, b, n, s, lo, hi);
      ReadsAfterHeader(s.cells, lo, Block(b, n), hi);
      JoinPrev(prev, b, lo, MergeNext(Block(b, n), hi));
    }

    /** The free blocks on either side of b: the offsets `prev` and `next` the freeing walk stops at. */
    method FindPlace(b: nat, ghost s: PageState) returns (prev: nat, next: nat, ghost i: nat)
      requires Inv(s) && s.cells == cells[..] && s.freelist == freelist
      requires s.units > 0 && b in s.live && b >= freelist
      ensures 0 < i <= |FreeList(s)|
      ensures prev == FreeList(s)[i - 1].start && next == StartAt(FreeList(s), i, cells.Length)
      ensures prev < b < next
    {
      ghost var list := FreeList(s);
      LiveNotFree(s, b);
      prev, i := freelist, 1;
      Walk(s, 0);
      next := ReadNext(prev);
      while b > next
        invariant 0 < i <= |list| && prev == list[i - 1].start < b && next == StartAt(list, i, cells.Length)
        decreases |list| - i
      {
        prev := next;
        Walk(s, i);
        next := ReadNext(prev);
        i := i + 1;
      }
    }

    /** slob_free, for a page that stays in use: the block at b goes back on the list. */
    method Free(b: nat, size: nat)
      requires Valid() && b in live && size == live[b]
      modifies this, cells
      ensures Valid() && Giveback(old(State()), State(), b)
    {
      ghost var s := State();
      LiveNotFree(s, b);
      if !slobFree {
        FirstFree(s, b);
        units := SlobUnits(size);
        freelist := b;
        WriteSlob(b, SlobUnits(size), cells.Length);
        live := live - {b};
        FreeDone(s, State(), [], Block(b, SlobUnits(size)), []);
        slobFree := true;
      } else {
        Reinsert(b, size);
      }
    }

    /** The part of slob_free for a page that is partially free already. */
    method Reinsert(b: nat, size: nat)
      requires Valid() && slobFree && b in live && size == live[b]
      modifies this, cells
      ensures Valid() && Giveback(old(State()), State(), b)
    {
      ghost var s := State();
      LiveNotFree(s, b);
      units := units + SlobUnits(size);
      if b < freelist {
        ReinsertFirst(b, size, s);
      } else {
        ReinsertLater(b, size, s);
      }
    }

    /** In front of the first free block, once the count has gone up. */
    method ReinsertFirst(b: nat, size: nat, ghost s: PageState)
      requires Inv(s) && s.units > 0 && b in s.live && size == s.live[b]
      requires State() == s.(units := s.units + SlobUnits(size)) && b < freelist
      modifies cells, this`freelist, this`live
      ensures Inv(State()) && Giveback(s, State(), b)
    {
      ghost var list := FreeList(s);
      LiveNotFree(s, b);
      SplitAround(s, 0, b);
      FreeFront(b, SlobUnits(size), s, list);
      live := live - {b};
      FreeDone(s, State(), [], Block(b, SlobUnits(size)), list);
    }

    /** Behind it. */
    method ReinsertLater(b: nat, size: nat, ghost s: PageState)
      requires Inv(s) && s.units > 0 && b in s.live && size == s.live[b]
      requires State() == s.(units := s.units + SlobUnits(size)) && b >= freelist
      modifies cells, this`live
      ensures Inv(State()) && Giveback(s, State(), b)
    {
      ghost var list := FreeList(s);
      LiveNotFree(s, b);
      var prev, next, i := FindPlace(b, s);
      SplitAround(s, i, b);
      FreeBetween(prev, next, b, SlobUnits(size), s, list[..i], list[i..]);
      live := live - {b};
      FreeDone(s, State(), list[..i], Block(b, SlobUnits(size)), list[i..]);
    }
  }
}
