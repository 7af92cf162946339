/** Whole histories of the allocator, and what the two counter system calls report. */
module SlobHeapRuns {
  import opened SlobList
  import opened SlobCode
  import opened SlobLive
  import opened SlobSteps
  import opened SlobRuns
  import opened SlobHeap

  datatype HeapEvent<P> =
    | FromList(size: nat, align: nat, position: nat, at: nat)
    | FromFresh(size: nat, align: nat, page: P, at: nat)
    | Give(page: P, block: nat)
    | Store(page: P, unit: nat, value: SlobIdx)

  ghost predicate HeapStep<P>(h: Heap<P>, e: HeapEvent<P>, t: Heap<P>, U: nat) {
    match e
    case FromList(size, align, k, b) => AllocListed(h, t, size, align, k, b)
    case FromFresh(size, align, p, b) => AllocFresh(h, t, U, size, align, p, b)
    case Give(p, b) => FreeBlock(h, t, U, p, b)
    case Store(p, k, v) => WriteBlock(h, t, p, k, v)
  }

  ghost predicate HeapRun<P>(heaps: seq<Heap<P>>, events: seq<HeapEvent<P>>, U: nat) {
    && |heaps| == |events| + 1
    && heaps[0] == Heap([[], [], []], map[])
    && forall i :: 0 <= i < |events| ==> HeapStep(heaps[i], events[i], heaps[i + 1], U)
  }

  lemma EmptyHeapOk<P>(U: nat)
    ensures HeapOk<P>(Heap([[], [], []], map[]), U)
  {
    forall c | 0 <= c < 3 ensures Lists<P>([[], [], []][c], Members<P>(map[], c)) {
      assert Elements<P>([]) == {};
    }
  }

  lemma HeapStepOk<P>(h: Heap<P>, e: HeapEvent<P>, t: Heap<P>, U: nat)
    requires HeapOk(h, U) && HeapStep(h, e, t, U)
    ensures HeapOk(t, U)
  {
    match e
    case FromList(size, align, k, b) => AllocListedOk(h, t, U, size, align, k, b);
    case FromFresh(size, align, p, b) => AllocFreshOk(h, t, U, size, align, p, b);
    case Give(p, b) => FreeBlockOk(h, t, U, p, b);
    case Store(p, k, v) => WriteBlockOk(h, t, U, p, k, v);
  }

  /** In every history: each page's memory holds the coalesced list of exactly the units no block
      uses, a page is on exactly the list of its size class exactly while it has both free and
      live units, and no wholly free page is kept. */
  lemma {:induction false} HeapRunOk<P>(heaps: seq<Heap<P>>, events: seq<HeapEvent<P>>, U: nat, i: nat)
    requires HeapRun(heaps, events, U) && i < |heaps|
    ensures HeapOk(heaps[i], U)
  {
    if i == 0 {
      EmptyHeapOk<P>(U);
    } else {
      HeapRunOk(heaps, events, U, i - 1);
      HeapStepOk(heaps[i - 1], events[i - 1], heaps[i], U);
    }
  }

  /** What being listed means. */
  lemma ListedIff<P>(h: Heap<P>, U: nat, p: P, c: nat)
    requires HeapOk(h, U) && p in h.table && c < 3
    ensures p in h.lists[c] <==> 0 < h.table[p].state.units < U && h.table[p].sizeClass == c
  {
    var i := h.table[p];
    assert InfoOk(i, U);
    assert p in h.lists[c] <==> p in Elements(h.lists[c]);
    var s :| s in i.state.live;
    LiveUnitsRemove(i.state.live, s);
    assert i.state.live[s] > 0;
  }

  /** A block in use by client b of page p keeps its contents through a step that neither frees it
      nor stores into it, whatever the step does to this page or to others. */
  lemma HeapStepKeepsBlock<P>(h: Heap<P>, e: HeapEvent<P>, t: Heap<P>, U: nat, p: P, b: nat, k: nat)
    requires HeapOk(h, U) && HeapStep(h, e, t, U)
    requires p in h.table && Holds(h.table[p].state.live, b, k)
    requires !(e.Give? && e.page == p && e.block == b)
    requires !(e.Store? && e.page == p && e.unit == k)
    ensures p in t.table && b in t.table[p].state.live
    ensures t.table[p].state.live[b] == h.table[p].state.live[b]
    ensures k < |h.table[p].state.cells| == |t.table[p].state.cells|
    ensures t.table[p].state.cells[k] == h.table[p].state.cells[k]
  {
    assert InfoOk(h.table[p], U);
    match e
    case FromList(size, align, j, a) =>
      if h.lists[ClassOf(size)][j] == p {
        StepKeepsUnit(h.table[p].state, Alloc(size, align, a), t.table[p].state, b, k);
      } else {
        StaysPut(h.table[p].state, b, k);
      }
    case FromFresh(size, align, q, a) => StaysPut(h.table[p].state, b, k);
    case Give(q, c) =>
      if q == p {
        LastBlock(h.table[p], U, c);
        StepKeepsUnit(h.table[p].state, Free(c), t.table[p].state, b, k);
      } else {
        StaysPut(h.table[p].state, b, k);
      }
    case Store(q, j, v) =>
      if q == p {
        StepKeepsUnit(h.table[p].state, Write(j, v), t.table[p].state, b, k);
      } else {
        StaysPut(h.table[p].state, b, k);
      }
  }

  lemma StaysPut(s: PageState, b: nat, k: nat)
    requires Inv(s) && Holds(s.live, b, k)
    ensures b in s.live && k < |s.cells|
  {
  }

  lemma StepKeepsUnit(s: PageState, e: Event, t: PageState, b: nat, k: nat)
    requires Inv(s) && StepBy(s, e, t) && Holds(s.live, b, k)
    requires e != Free(b) && !(e.Write? && e.unit == k)
    ensures b in t.live && t.live[b] == s.live[b] && k < |s.cells| == |t.cells| && t.cells[k] == s.cells[k]
  {
    assert LiveAt(s.live, k) && !FreeAt(FreeList(s), k);
    match e
    case Alloc(size, align, at) => HandoutInv(s, t, size, at);
    case Free(c) => assert Holds(s.live, c, k) ==> c == b;
    case Write(unit, v) =>
  }

  /** Event e frees block b of page p, or stores into it. */
  ghost predicate Disturbs<P>(h: Heap<P>, e: HeapEvent<P>, p: P, b: nat) {
    match e
    case Give(q, c) => q == p && c == b
    case Store(q, k, v) => q == p && p in h.table && Holds(h.table[p].state.live, b, k)
    case _ => false
  }

  /** Over a whole history, whatever is allocated, freed and stored elsewhere, a block keeps its
      place, its size and its contents until somebody frees it or stores into it. */
  lemma {:induction false} HeapBlockKept<P>(heaps: seq<Heap<P>>, events: seq<HeapEvent<P>>, U: nat,
                                            p: P, b: nat, k: nat, from: nat, to: nat)
    requires HeapRun(heaps, events, U) && from <= to < |heaps|
    requires p in heaps[from].table && Holds(heaps[from].table[p].state.live, b, k)
    requires forall i :: from <= i < to ==> !Disturbs(heaps[i], events[i], p, b)
    ensures p in heaps[to].table && b in heaps[to].table[p].state.live
    ensures heaps[to].table[p].state.live[b] == heaps[from].table[p].state.live[b]
    ensures k < |heaps[from].table[p].state.cells| == |heaps[to].table[p].state.cells|
    ensures heaps[to].table[p].state.cells[k] == heaps[from].table[p].state.cells[k]
  {
    HeapRunOk(heaps, events, U, to);
    if from == to {
      assert InfoOk(heaps[to].table[p], U);
      StaysPut(heaps[to].table[p].state, b, k);
    } else {
      HeapBlockKept(heaps, events, U, p, b, k, from, to - 1);
      HeapRunOk(heaps, events, U, to - 1);
      HeapStepKeepsBlock(heaps[to - 1], events[to - 1], heaps[to], U, p, b, k);
    }
  }

  // ---------- The counters ----------

  /** Free units on the listed pages, as sys_get_slob_amt_free adds them up. */
  ghost function FreeOn<P>(table: map<P, PageInfo>, q: seq<P>): int
    requires forall i :: 0 <= i < |q| ==> q[i] in table
  {
    if q == [] then 0 else FreeOn(table, q[..|q| - 1]) + table[q[|q| - 1]].state.units
  }

  ghost function LiveOn<P>(table: map<P, PageInfo>, q: seq<P>): nat
    requires forall i :: 0 <= i < |q| ==> q[i] in table
  {
    if q == [] then 0 else LiveOn(table, q[..|q| - 1]) + LiveUnits(table[q[|q| - 1]].state.live)
  }

  lemma OneMorePage(n: nat, U: nat)
    ensures (n + 1) * U == n * U + U
  {
  }

  /** Pages times their size, less the free units, is what the live blocks on those pages occupy. */
  lemma {:induction false} CounterGap<P>(table: map<P, PageInfo>, q: seq<P>, U: nat)
    requires forall i :: 0 <= i < |q| ==> q[i] in table && Inv(table[q[i]].state) && |table[q[i]].state.cells| == U
    ensures |q| * U - FreeOn(table, q) == LiveOn(table, q)
  {
    if q == [] {
    } else {
      var m := |q| - 1;
      CounterGap(table, q[..m], U);
      UnitsShared(table[q[m]].state);
      OneMorePage(m, U);
    }
  }

  lemma UnitsShared(s: PageState)
    requires Inv(s)
    ensures s.units + LiveUnits(s.live) == |s.cells|
  {
  }
}
