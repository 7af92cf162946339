/** The allocator: slob_alloc, slob_free and the counter system calls over pages in memory. */
module SlobAllocator {
  import opened Wrappers

  import opened SlobCode
  import opened SlobFit
  import opened SlobLive
  import opened SlobSteps
  import opened SlobRuns
  import opened SlobHeap
  import opened SlobHeapRuns
  import opened SlobCounters
  import opened SlobLaws
  import opened SlobPage

  class Allocator {
    const U: nat                            // units in a page
    var lists: seq<seq<Page>>               // free_slob_small, free_slob_medium, free_slob_large
    ghost var table: map<Page, PageInfo>    // every page in use, listed or full, and its state

    /** The allocator as a value. */
    ghost function View(): Heap<Page>
      reads this
    {
      Heap(lists, table)
    }

    ghost function Memory(): set<array<SlobIdx>>
      reads this
    {
      set p: Page | p in table :: p.cells
    }

    /** The table tells the truth about the pages, and no two pages share memory. */
    ghost predicate InSync()
      reads this, table.Keys, Memory()
    {
      && (forall p :: p in table ==> table[p] == p.Info())
      && (forall p, q {:trigger p.cells, q.cells} :: p in table && q in table && p != q ==> p.cells != q.cells)
    }

    ghost predicate Valid()
      reads this, table.Keys, Memory()
    {
      0 < U <= MAX_UNITS && InSync() && HeapOk(View(), U)
    }

    constructor (U: nat)
      requires 0 < U <= MAX_UNITS
      ensures Valid() && this.U == U && View() == Heap([[], [], []], map[])
    {
      this.U := U;
      lists := [[], [], []];
      table := map[];
      new;
      EmptyHeapOk<Page>(U);
    }

    /** A page with free units, which is what h says it is. */
    ghost predicate Ready(p: Page, h: Heap<Page>)
      reads p, p.cells
    {
      p.Valid() && p.slobFree && p.cells.Length == U && p in h.table && h.table[p] == p.Info()
    }

    /** Distinct pages of a list, each with free units. */
    ghost predicate Searchable(q: seq<Page>, h: Heap<Page>)
      reads q, set i | 0 <= i < |q| :: q[i].cells
    {
      && (forall i {:trigger Ready(q[i], h)} :: 0 <= i < |q| ==> Ready(q[i], h))
      && (forall i, j :: 0 <= i < j < |q| ==> q[i] != q[j] && q[i].cells != q[j].cells)
    }

    /** The allocator tries one page of the list: the filter first, then slob_page_alloc. */
    method TryPage(sp: Page, size: nat, align: nat) returns (r: Option<nat>)
      requires sp.Valid() && sp.slobFree && size > 0 && ValidAlign(align, sp.cells.Length)
      modifies sp, sp.cells
      ensures sp.Valid()
      ensures r.None? <==> NoneFits(old(sp.List()), SlobUnits(size), align)
      ensures r.None? ==> unchanged(sp) && unchanged(sp.cells)
      ensures r.Some? ==> StepBy(old(sp.State()), Alloc(size, align, r.value), sp.State())
    {
      if sp.units < SlobUnits(size) {
        FilterIsSafe(sp.List(), SlobUnits(size), align);
        return None;
      }
      r := sp.AllocBestFit(size, align);
    }

    /** The search of slob_alloc: the first page of the list with room serves the request. */
    method Search(q: seq<Page>, size: nat, align: nat, ghost h: Heap<Page>) returns (k: nat, b: nat)
      requires Searchable(q, h) && size > 0 && ValidAlign(align, U)
      modifies q, set i | 0 <= i < |q| :: q[i].cells
      ensures k <= |q| && NoRoomBefore(h, q, k, SlobUnits(size), align)
      ensures k < |q| ==> q[k] in h.table && q[k].Valid()
      ensures k < |q| ==> StepBy(h.table[q[k]].state, Alloc(size, align, b), q[k].State())
      ensures forall j :: 0 <= j < |q| && j != k ==> unchanged(q[j]) && unchanged(q[j].cells)
    {
      k, b := 0, 0;
      while k < |q|
        invariant k <= |q|
        invariant Searchable(q, h)
        invariant forall j :: 0 <= j < |q| ==> unchanged(q[j]) && unchanged(q[j].cells)
        invariant NoRoomBefore(h, q, k, SlobUnits(size), align)
      {
        assert Ready(q[k], h);
        var r := TryPage(q[k], size, align);
        if r.Some? {
          return k, r.value;
        }
        k := k + 1;
      }
    }

    lemma ListSearchable(c: nat)
      requires Valid() && c < 3
      ensures Searchable(lists[c], View())
      ensures forall i :: 0 <= i < |lists[c]| ==> lists[c][i] in table
    {
      forall i | 0 <= i < |lists[c]| ensures Ready(lists[c][i], View()) {
        ListedInfo(View(), U, c, i);
      }
    }

    /** The search through the list of one size class, in terms of the table of pages. */
    method SearchClass(c: nat, size: nat, align: nat) returns (k: nat, b: nat)
      requires Valid() && c < 3 && size > 0 && ValidAlign(align, U)
      modifies this`table, table.Keys, Memory()
      ensures InSync()
      ensures k <= |lists[c]| && NoRoomBefore(old(View()), lists[c], k, SlobUnits(size), align)
      ensures k == |lists[c]| ==> table == old(table)
      ensures k < |lists[c]| ==>
          var p := lists[c][k];
          && p in old(table) && (p.slobFree <==> p.units > 0)
          && StepBy(old(table)[p].state, Alloc(size, align, b), p.State())
          && table == old(table)[p := p.Info()]
    {
      ghost var q, before := lists[c], table;
      ListSearchable(c);
      k, b := Search(lists[c], size, align, View());
      forall p | p in table && (k == |q| || p != q[k]) ensures p.Info() == table[p] {
        if p in q {
          var j :| 0 <= j < |q| && q[j] == p;
          assert unchanged(q[j]) && unchanged(q[j].cells);
        }
      }
      if k < |q| {
        ghost var info := q[k].Info();
        table := table[q[k] := info];
        assert q[k].Info() == info;
        assert lists[c] == q && table == before[q[k] := q[k].Info()];
      }
    }

    /** The page list after the page at position k served a request. */
    method Relist(q: seq<Page>, k: nat, stays: bool) returns (r: seq<Page>)
      requires k < |q|
      ensures r == AfterAlloc(q, k, stays) && GoesRound(q, r, k, if stays then 0 else 1)
    {
      AfterAllocGoesRound(q, k, stays);
      r := q;
      if !stays {
        r := r[..k] + r[k + 1..];
      }
      if k != 0 && k != |r| {
        r := r[k..] + r[..k];
      }
    }

    /** The first locked region of slob_alloc, over the listed pages: k is the position of the page that served the
        request, or the list's length when no listed page has room. */
    method AllocFromLists(size: nat, align: nat) returns (k: nat, b: nat)
      requires Valid() && size > 0 && ValidAlign(align, U)
      modifies this, table.Keys, Memory()
      ensures Valid()
      ensures k <= |old(lists)[ClassOf(size)]|
      ensures k == |old(lists)[ClassOf(size)]| ==> View() == old(View())
      ensures NoRoomBefore(old(View()), old(lists)[ClassOf(size)], k, SlobUnits(size), align)
      ensures k < |old(lists)[ClassOf(size)]| ==> AllocListed(old(View()), View(), size, align, k, b)
    {
      var c := ClassOf(size);
      ghost var h, q := View(), lists[c];
      k, b := SearchClass(c, size, align);
      if k < |lists[c]| {
        ListedInfo(h, U, c, k);
        MoveServed(h, size, align, k, b);
      }
    }

    /** The list of the page that served, and so the allocator, afterwards. */
    method MoveServed(ghost h: Heap<Page>, size: nat, align: nat, k: nat, b: nat)
      requires 0 < U <= MAX_UNITS && InSync() && HeapOk(h, U) && lists == h.lists
      requires var q := lists[ClassOf(size)];
               && k < |q| && NoRoomBefore(h, q, k, SlobUnits(size), align)
               && var p := q[k];
               && p in h.table && h.table[p].sizeClass == p.sizeClass && (p.slobFree <==> p.units > 0)
               && StepBy(h.table[p].state, Alloc(size, align, b), p.State())
               && table == h.table[p := p.Info()]
      modifies this`lists
      ensures Valid() && AllocListed(h, View(), size, align, k, b)
    {
      var c := ClassOf(size);
      var p := lists[c][k];
      var r := Relist(lists[c], k, p.slobFree);
      lists := lists[c := r];
      AllocListedOk(h, View(), U, size, align, k, b);
    }

    /** A fresh page serves a request no larger than itself: the allocator's BUG_ON cannot fire. */
    method ServeFresh(size: nat, align: nat, ghost c: nat) returns (p: Page, b: nat, ghost s0: PageState)
      requires 0 < U <= MAX_UNITS && 0 < size <= U * SLOB_UNIT && ValidAlign(align, U)
      ensures fresh(p) && fresh(p.cells) && p.sizeClass == c && p.Valid()
      ensures Fresh(s0) && |s0.cells| == U && StepBy(s0, Alloc(size, align, b), p.State())
    {
      p := new Page(U, c);
      s0 := p.State();
      FreshPageFits(size, align, U);
      var r := p.AllocBestFit(size, align);
      assert r.Some?;
      b := r.value;
    }

    /** The second locked region of slob_alloc: the page allocator has given a page. Between the
        two regions the lock is free, so the lists may be any by now. */
    method AllocFromFresh(size: nat, align: nat) returns (p: Page, b: nat)
      requires Valid() && 0 < size <= U * SLOB_UNIT && ValidAlign(align, U)
      modifies this
      ensures Valid() && fresh(p) && fresh(p.cells)
      ensures AllocFresh(old(View()), View(), U, size, align, p, b)
    {
      var c := ClassOf(size);
      ghost var h := View();
      ghost var s0;
      p, b, s0 := ServeFresh(size, align, c);
      if p.slobFree {
        lists := lists[c := [p] + lists[c]];
      }
      table := table[p := p.Info()];
      AllocFreshOk(h, View(), U, size, align, p, b);
    }

    /** slob_alloc with nobody in between its two locked regions: the page and offset of the new
        block; null when neither a listed page nor the page allocator can serve the request. */
    method SlobAlloc(size: nat, align: nat, pageAvailable: bool)
      returns (p: Page?, b: nat, ghost e: HeapEvent<Page>)
      requires Valid() && 0 < size <= U * SLOB_UNIT && ValidAlign(align, U)
      modifies this, table.Keys, Memory()
      ensures Valid()
      ensures p == null <==> !pageAvailable && NoRoomListed(old(View()), size, align)
      ensures p == null ==> View() == old(View())
      ensures p != null ==> HeapStep(old(View()), e, View(), U) && Serves(old(View()), e, size, align, p, b)
      ensures p != null ==> (e.FromFresh? <==> NoRoomListed(old(View()), size, align))
      ensures p != null ==> p in table && b in p.live && p.live[b] == size
      ensures p != null ==> p in old(table) || (fresh(p) && fresh(p.cells))
    {
      ghost var h := View();
      var q := lists[ClassOf(size)];
      var k;
      k, b := AllocFromLists(size, align);
      if k < |q| {
        return q[k], b, FromList(size, align, k, b);
      }
      if !pageAvailable {
        return null, 0, FromList(size, align, k, b);
      }
      p, b := AllocFromFresh(size, align);
      e := FromFresh(size, align, p, b);
    }

    /** list_del on a page list. */
    method Unlist(q: seq<Page>, p: Page) returns (r: seq<Page>)
      ensures r == Removed(q, p)
    {
      var i := 0;
      while i < |q| && q[i] != p
        invariant i <= |q| && forall j :: 0 <= j < i ==> q[j] != p
      {
        i := i + 1;
      }
      RemovedAt(q, p, i);
      r := if i < |q| then q[..i] + q[i + 1..] else q;
    }

    /** slob_free: the block of `size` bytes at offset b of page p. */
    method SlobFree(p: Page?, b: nat, size: nat)
      requires Valid()
      requires p != null ==> p in table && b in p.live && p.live[b] == size
      modifies this, table.Keys, Memory()
      ensures Valid()
      ensures p == null ==> View() == old(View())
      ensures p != null ==> HeapStep(old(View()), Give(p, b), View(), U)
    {
      if p == null {
        return;
      }
      assert InfoOk(table[p], U);
      if p.units + SlobUnits(size) == U {
        FreePage(p, b, size);
      } else {
        FreeWithin(p, b, size);
      }
    }

    /** The last live block goes, and the page with it. */
    method FreePage(p: Page, b: nat, size: nat)
      requires Valid() && p in table && InfoOk(table[p], U)
      requires b in p.live && p.live[b] == size && p.units + SlobUnits(size) == U
      modifies this
      ensures Valid() && FreeBlock(old(View()), View(), U, p, b)
    {
      ghost var h := View();
      if p.slobFree {
        var c := ClassOf(size);
        var r := Unlist(lists[c], p);
        lists := lists[c := r];
      }
      table := table - {p};
      FreeBlockOk(h, View(), U, p, b);
    }

    /** The block goes back on its page's free list; a page that was full is listed again. */
    method FreeWithin(p: Page, b: nat, size: nat)
      requires Valid() && p in table && InfoOk(table[p], U)
      requires b in p.live && p.live[b] == size && p.units + SlobUnits(size) != U
      modifies this, table.Keys, Memory()
      ensures Valid() && FreeBlock(old(View()), View(), U, p, b)
    {
      ghost var h := View();
      var wasListed := p.slobFree;
      p.Free(b, size);
      if !wasListed {
        var c := ClassOf(size);
        lists := lists[c := [p] + lists[c]];
      }
      forall x | x in table && x != p ensures x.Info() == table[x] {
        assert x.cells != p.cells;
      }
      table := table[p := p.Info()];
      FreeBlockOk(h, View(), U, p, b);
    }

    /** A client, or kmalloc on its behalf, stores v at unit k of its block at b. */
    method StoreUnit(p: Page, ghost b: nat, k: nat, v: SlobIdx)
      requires Valid() && p in table && Holds(p.live, b, k)
      modifies this`table, p.cells
      ensures Valid() && p in table && k < p.cells.Length
      ensures p.cells[..] == old(p.cells[..])[k := v] && table[p].state.cells == p.cells[..]
      ensures HeapStep(old(View()), Store(p, k, v), View(), U)
    {
      ghost var h := View();
      assert InfoOk(table[p], U);
      StaysPut(p.State(), b, k);
      p.cells[k] := v;
      assert LiveAt(p.live, k);
      forall x | x in table && x != p ensures x.Info() == table[x] {
        assert x.cells != p.cells;
      }
      table := table[p := p.Info()];
      WriteBlockOk(h, View(), U, p, k, v);
    }

    /** The pages on one list, counted. */
    method CountPages(q: seq<Page>) returns (n: nat)
      ensures n == |q|
    {
      n := 0;
      for i := 0 to |q|
        invariant n == i
      {
        n := n + 1;
      }
    }

    /** The free units on one list, added up. */
    method CountFree(c: nat) returns (n: int)
      requires Valid() && c < 3
      ensures forall i :: 0 <= i < |lists[c]| ==> lists[c][i] in table
      ensures n == FreeOn(table, lists[c])
    {
      ListSearchable(c);
      var q := lists[c];
      n := 0;
      for i := 0 to |q|
        invariant n == FreeOn(table, q[..i])
      {
        assert q[..i + 1][..i] == q[..i];
        n := n + q[i].units;
      }
      assert q[..|q|] == q;
    }

    /** Every listed page is in use. */
    ghost predicate AllListed()
      reads this
    {
      |lists| == 3 && forall c, i :: 0 <= c < 3 && 0 <= i < |lists[c]| ==> lists[c][i] in table
    }

    lemma ListedInUse()
      requires Valid()
      ensures AllListed()
    {
      forall c, i | 0 <= c < 3 && 0 <= i < |lists[c]| ensures lists[c][i] in table {
        ListedInfo(View(), U, c, i);
      }
    }

    /** sys_get_slob_amt_total */
    method AmountTotal() returns (total: int)
      requires Valid()
      ensures total == (|lists[0]| + |lists[1]| + |lists[2]|) * U
    {
      var small := CountPages(lists[0]);
      var medium := CountPages(lists[1]);
      var large := CountPages(lists[2]);
      total := (small + medium + large) * U;
    }

    /** sys_get_slob_amt_free */
    method AmountFree() returns (free: int)
      requires Valid()
      ensures AllListed()
      ensures free == FreeOn(table, lists[0]) + FreeOn(table, lists[1]) + FreeOn(table, lists[2]) == FreeUnits(table)
    {
      ListedInUse();
      ListsMissNothing(View(), U);
      var small := CountFree(0);
      var medium := CountFree(1);
      var large := CountFree(2);
      free := small + medium + large;
    }

    /** The two counters differ by exactly the units live blocks occupy on the listed pages. */
    lemma AmountsDiffer()
      requires Valid()
      ensures AllListed()
      ensures (|lists[0]| + |lists[1]| + |lists[2]|) * U
              - (FreeOn(table, lists[0]) + FreeOn(table, lists[1]) + FreeOn(table, lists[2]))
              == LiveOn(table, lists[0]) + LiveOn(table, lists[1]) + LiveOn(table, lists[2])
    {
      ListedInUse();
      ListGap(0);
      ListGap(1);
      ListGap(2);
      ThreeTimes(|lists[0]|, |lists[1]|, |lists[2]|, U);
    }

    lemma ThreeTimes(a: nat, b: nat, c: nat, u: nat)
      ensures (a + b + c) * u == a * u + b * u + c * u
    {
    }

    lemma ListGap(c: nat)
      requires Valid() && c < 3
      ensures forall i :: 0 <= i < |lists[c]| ==> lists[c][i] in table
      ensures |lists[c]| * U - FreeOn(table, lists[c]) == LiveOn(table, lists[c])
    {
      forall i | 0 <= i < |lists[c]|
        ensures lists[c][i] in table && Inv(table[lists[c][i]].state) && |table[lists[c][i]].state.cells| == U {
        ListedInfo(View(), U, c, i);
      }
      CounterGap(table, lists[c], U);
    }
  }

  /** The event hands out offset b of page p for this request. */
  ghost predicate Serves(h: Heap<Page>, e: HeapEvent<Page>, size: nat, align: nat, p: Page, b: nat) {
    && |h.lists| == 3
    && var q := h.lists[ClassOf(size)];
    match e
    case FromList(s, a, k, at) => s == size && a == align && at == b && k < |q| && q[k] == p
    case FromFresh(s, a, page, at) => s == size && a == align && at == b && page == p
    case _ => false
  }
}
