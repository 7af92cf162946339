/** The allocator as a value: the three page lists and the table of pages in use.
    `P` names pages. */
module SlobHeap {
  import opened SlobCode
  import opened SlobFit
  import opened SlobLive
  import opened SlobSteps
  import opened SlobRuns

  const SLOB_BREAK1: nat := 256
  const SLOB_BREAK2: nat := 1024

  /** Which list serves a size: 0 small, 1 medium, 2 large. */
  function ClassOf(size: nat): (c: nat)
    ensures c < 3
  {
    if size < SLOB_BREAK1 then 0 else if size < SLOB_BREAK2 then 1 else 2
  }

  // ---------- Page lists ----------

  ghost predicate NoDuplicates<T>(q: seq<T>) {
    forall i, j :: 0 <= i < j < |q| ==> q[i] != q[j]
  }

  function Elements<T>(q: seq<T>): set<T> {
    set x | x in q
  }

  /** q lists the elements of s, each once. */
  ghost predicate Lists<T>(q: seq<T>, s: set<T>) {
    NoDuplicates(q) && Elements(q) == s
  }

  function Without<T>(q: seq<T>, k: nat): seq<T>
    requires k < |q|
  {
    q[..k] + q[k + 1..]
  }

  /** list_del */
  function Removed<T(==)>(q: seq<T>, x: T): seq<T> {
    if q == [] then [] else if q[0] == x then q[1..] else [q[0]] + Removed(q[1..], x)
  }

  lemma {:induction false} RemovedAt<T>(q: seq<T>, x: T, i: nat)
    requires i <= |q| && (forall j :: 0 <= j < i ==> q[j] != x) && (i < |q| ==> q[i] == x)
    ensures Removed(q, x) == if i < |q| then q[..i] + q[i + 1..] else q
  {
    if i > 0 {
      RemovedAt(q[1..], x, i - 1);
      assert q == [q[0]] + q[1..];
    } else if q != [] {
      assert q[..0] + q[1..] == q[1..];
    }
  }

  /** The list head moves so that position k comes first, unless k is already first or past the end. */
  function Rotated<T>(q: seq<T>, k: nat): seq<T> {
    if 0 < k < |q| then q[k..] + q[..k] else q
  }

  /** A page list after page k served a request: a page with nothing left leaves the list,
      and the list is rotated to begin with what now follows position k - 1. */
  function AfterAlloc<T>(q: seq<T>, k: nat, stays: bool): seq<T>
    requires k < |q|
  {
    Rotated(if stays then q else Without(q, k), k)
  }

  lemma WithoutKeeps<T>(q: seq<T>, k: nat, s: set<T>)
    requires k < |q| && Lists(q, s)
    ensures Lists(Without(q, k), s - {q[k]})
  {
    var w := Without(q, k);
    forall x | x in s - {q[k]} ensures x in w {
      assert x in Elements(q);
      var i :| 0 <= i < |q| && q[i] == x;
      assert w[if i < k then i else i - 1] == x;
    }
    forall x | x in w ensures x in s - {q[k]} {
      var i :| 0 <= i < |w| && w[i] == x;
      var j := if i < k then i else i + 1;
      assert q[j] == x && q[j] in Elements(q);
    }
  }

  lemma RotatedPermutes<T>(q: seq<T>, k: nat)
    ensures multiset(Rotated(q, k)) == multiset(q)
  {
    if 0 < k < |q| {
      assert q == q[..k] + q[k..];
    }
  }

  lemma RotatedKeeps<T>(q: seq<T>, k: nat, s: set<T>)
    requires Lists(q, s)
    ensures Lists(Rotated(q, k), s)
  {
    RotatedPermutes(q, k);
    forall x ensures x in Rotated(q, k) <==> x in q {
      assert x in Rotated(q, k) <==> x in multiset(Rotated(q, k));
      assert x in q <==> x in multiset(q);
    }
  }

  /** A list stays a list of its pages, without the one that is now full. */
  lemma AfterAllocKeeps<T>(q: seq<T>, k: nat, stays: bool, s: set<T>)
    requires k < |q| && Lists(q, s)
    ensures Lists(AfterAlloc(q, k, stays), s - {q[k]} + (if stays then {q[k]} else {}))
  {
    if stays {
      RotatedKeeps(q, k, s);
      assert q[k] in Elements(q);
      assert s - {q[k]} + {q[k]} == s;
    } else {
      WithoutKeeps(q, k, s);
      RotatedKeeps(Without(q, k), k, s - {q[k]});
    }
  }

  /** Serving a request only permutes the list, apart from a page that is now full; and a page
      that served it and still has room is where the next search starts. */
  lemma AfterAllocPermutes<T>(q: seq<T>, k: nat, stays: bool)
    requires k < |q|
    ensures multiset(AfterAlloc(q, k, stays)) == (if stays then multiset(q) else multiset(q) - multiset{q[k]})
    ensures stays ==> AfterAlloc(q, k, stays)[0] == q[k]
  {
    if stays {
      RotatedPermutes(q, k);
    } else {
      RotatedPermutes(Without(q, k), k);
      assert q == q[..k] + [q[k]] + q[k + 1..];
    }
  }

  lemma PushKeeps<T>(q: seq<T>, x: T, s: set<T>)
    requires Lists(q, s) && x !in s
    ensures Lists([x] + q, s + {x})
  {
    var r := [x] + q;
    assert x !in Elements(q);
    assert r[0] == x;
    forall y | y in s ensures y in r {
      assert y in Elements(q);
    }
    forall i | 0 <= i < |q| ensures q[i] != x && r[i + 1] == q[i] && q[i] in s {
      assert q[i] in Elements(q);
    }
  }

  lemma {:induction false} RemovedKeeps<T>(q: seq<T>, x: T, s: set<T>)
    requires Lists(q, s) && x in s
    ensures Lists(Removed(q, x), s - {x})
  {
    assert x in Elements(q);
    assert q == [q[0]] + q[1..];
    forall i | 0 <= i < |q[1..]| ensures q[1..][i] != q[0] && q[1..][i] in s {
      assert q[1..][i] == q[i + 1];
      assert q[i + 1] in Elements(q);
    }
    assert Lists(q[1..], s - {q[0]}) by {
      forall y | y in s - {q[0]} ensures y in q[1..] {
        assert y in Elements(q);
      }
    }
    if q[0] == x {
    } else {
      RemovedKeeps(q[1..], x, s - {q[0]});
      PushKeeps(Removed(q[1..], x), q[0], s - {q[0]} - {x});
      assert s - {q[0]} - {x} + {q[0]} == s - {x} by {
        assert q[0] in Elements(q);
      }
    }
  }

  // ---------- The heap ----------

  datatype Heap<P> = Heap(lists: seq<seq<P>>, table: map<P, PageInfo>)

  /** One page in use: not wholly free, and all its blocks are of one size class. */
  ghost predicate InfoOk(i: PageInfo, U: nat) {
    && Inv(i.state) && |i.state.cells| == U
    && (i.slobFree <==> i.state.units > 0)
    && i.state.live != map[]
    && i.sizeClass < 3
    && (forall s :: s in i.state.live ==> ClassOf(i.state.live[s]) == i.sizeClass)
  }

  ghost predicate TableOk<P>(table: map<P, PageInfo>, U: nat) {
    forall p {:trigger InfoOk(table[p], U)} :: p in table ==> InfoOk(table[p], U)
  }

  /** The pages of class c that have free units. */
  ghost function Members<P>(table: map<P, PageInfo>, c: nat): set<P> {
    set p | p in table && table[p].slobFree && table[p].sizeClass == c
  }

  /** A page in use is flagged exactly when it has free units, and is on a list, that of its
      size class and once, exactly when it is flagged. */
  ghost predicate HeapOk<P>(h: Heap<P>, U: nat) {
    && TableOk(h.table, U)
    && |h.lists| == 3
    && (forall c :: 0 <= c < 3 ==> Lists(h.lists[c], Members(h.table, c)))
  }

  /** The first k pages of the list have no room for the request. */
  ghost predicate NoRoomBefore<P>(h: Heap<P>, q: seq<P>, k: nat, n: nat, align: nat)
    requires k <= |q|
  {
    forall j :: 0 <= j < k ==> q[j] in h.table && NoneFits(FreeList(h.table[q[j]].state), n, align)
  }

  /** No page listed for this size has room for the request. */
  ghost predicate NoRoomListed<P>(h: Heap<P>, size: nat, align: nat) {
    |h.lists| == 3 && NoRoomBefore(h, h.lists[ClassOf(size)], |h.lists[ClassOf(size)]|, SlobUnits(size), align)
  }

  /** A listed page serves the request: the first one of its class that has room. */
  ghost predicate AllocListed<P>(h: Heap<P>, t: Heap<P>, size: nat, align: nat, k: nat, b: nat) {
    && |h.lists| == 3
    && var c := ClassOf(size);
    && var q := h.lists[c];
    && k < |q| && q[k] in h.table && q[k] in t.table
    && NoRoomBefore(h, q, k, SlobUnits(size), align)
    && var i, j := h.table[q[k]], t.table[q[k]];
    && StepBy(i.state, Alloc(size, align, b), j.state)
    && j.sizeClass == i.sizeClass && (j.slobFree <==> j.state.units > 0)
    && t.table == h.table[q[k] := j]
    && t.lists == h.lists[c := AfterAlloc(q, k, j.slobFree)]
  }

  /** Page p, new from the page allocator, serves the request. Whether a listed page could have
      done so by now does not matter: the search for one is over, and others may have freed
      blocks since. */
  ghost predicate AllocFresh<P>(h: Heap<P>, t: Heap<P>, U: nat, size: nat, align: nat, p: P, b: nat) {
    && |h.lists| == 3
    && var c := ClassOf(size);
    && var q := h.lists[c];
    && p !in h.table && p in t.table
    && var j := t.table[p];
    && (exists s0 :: Fresh(s0) && |s0.cells| == U && StepBy(s0, Alloc(size, align, b), j.state))
    && j.sizeClass == c && (j.slobFree <==> j.state.units > 0)
    && t.table == h.table[p := j]
    && t.lists == h.lists[c := if j.slobFree then [p] + q else q]
  }

  /** The block at b of page p is freed; a page left with nothing live goes back to the page allocator. */
  ghost predicate FreeBlock<P>(h: Heap<P>, t: Heap<P>, U: nat, p: P, b: nat) {
    && |h.lists| == 3
    && p in h.table && b in h.table[p].state.live
    && var i := h.table[p];
    && var c := ClassOf(i.state.live[b]);
    && if i.state.units + SlobUnits(i.state.live[b]) == U then
         && t.table == h.table - {p}
         && t.lists == (if i.slobFree then h.lists[c := Removed(h.lists[c], p)] else h.lists)
       else
         && p in t.table
         && var j := t.table[p];
         && StepBy(i.state, Free(b), j.state)
         && j.sizeClass == i.sizeClass && j.slobFree
         && t.table == h.table[p := j]
         && t.lists == (if i.slobFree then h.lists else h.lists[c := [p] + h.lists[c]])
  }

  /** Clients write in their own blocks of page p. */
  ghost predicate WriteBlock<P>(h: Heap<P>, t: Heap<P>, p: P, k: nat, v: SlobIdx) {
    && p in h.table && p in t.table
    && StepBy(h.table[p].state, Write(k, v), t.table[p].state)
    && t == h.(table := h.table[p := h.table[p].(state := t.table[p].state)])
  }

  // ---------- Each step keeps the heap invariant ----------

  lemma MembersUpdate<P>(table: map<P, PageInfo>, p: P, j: PageInfo, c: nat)
    ensures Members(table[p := j], c) == Members(table, c) - {p} + (if j.slobFree && j.sizeClass == c then {p} else {})
  {
  }

  lemma UpdateOk<P>(h: Heap<P>, U: nat, p: P, j: PageInfo, lists: seq<seq<P>>)
    requires HeapOk(h, U) && InfoOk(j, U) && |lists| == 3
    requires forall c :: 0 <= c < 3 && c != j.sizeClass ==> lists[c] == h.lists[c]
    requires p in h.table ==> h.table[p].sizeClass == j.sizeClass
    requires Lists(lists[j.sizeClass], Members(h.table, j.sizeClass) - {p} + (if j.slobFree then {p} else {}))
    ensures HeapOk(Heap(lists, h.table[p := j]), U)
  {
    UpdateListsOk(h.lists, h.table, p, j, lists);
  }

  lemma UpdateListsOk<P>(before: seq<seq<P>>, table: map<P, PageInfo>, p: P, j: PageInfo, lists: seq<seq<P>>)
    requires |before| == 3 && |lists| == 3 && j.sizeClass < 3
    requires forall c :: 0 <= c < 3 ==> Lists(before[c], Members(table, c))
    requires forall c :: 0 <= c < 3 && c != j.sizeClass ==> lists[c] == before[c]
    requires p in table ==> table[p].sizeClass == j.sizeClass
    requires Lists(lists[j.sizeClass], Members(table, j.sizeClass) - {p} + (if j.slobFree then {p} else {}))
    ensures forall c :: 0 <= c < 3 ==> Lists(lists[c], Members(table[p := j], c))
  {
    forall c | 0 <= c < 3 ensures Lists(lists[c], Members(table[p := j], c)) {
      MembersUpdate(table, p, j, c);
      if c != j.sizeClass {
        assert p !in Members(table, c);
        assert Members(table, c) - {p} + {} == Members(table, c);
      }
    }
  }

  /** A page that serves a request of its class stays in order. */
  lemma InfoAfterAlloc(i: PageInfo, j: PageInfo, U: nat, size: nat, b: nat)
    requires Inv(i.state) && |i.state.cells| == U && Handout(i.state, j.state, size, b)
    requires j.sizeClass == i.sizeClass == ClassOf(size) && (j.slobFree <==> j.state.units > 0)
    requires forall s :: s in i.state.live ==> ClassOf(i.state.live[s]) == i.sizeClass
    ensures InfoOk(j, U)
  {
    HandoutInv(i.state, j.state, size, b);
    assert b in j.state.live;
  }

  lemma AllocListedOk<P>(h: Heap<P>, t: Heap<P>, U: nat, size: nat, align: nat, k: nat, b: nat)
    requires HeapOk(h, U) && AllocListed(h, t, size, align, k, b)
    ensures HeapOk(t, U)
  {
    var c := ClassOf(size);
    var q := h.lists[c];
    var p := q[k];
    ListedInfo(h, U, c, k);
    var j := t.table[p];
    InfoAfterAlloc(h.table[p], j, U, size, b);
    AfterAllocKeeps(q, k, j.slobFree, Members(h.table, c));
    UpdateOk(h, U, p, j, t.lists);
  }

  /** What a page is like because it is listed. */
  lemma ListedInfo<P>(h: Heap<P>, U: nat, c: nat, k: nat)
    requires HeapOk(h, U) && c < 3 && k < |h.lists[c]|
    ensures h.lists[c][k] in Members(h.table, c)
    ensures h.lists[c][k] in h.table && h.table[h.lists[c][k]].sizeClass == c && InfoOk(h.table[h.lists[c][k]], U)
  {
    assert h.lists[c][k] in Elements(h.lists[c]);
  }

  lemma AllocFreshOk<P>(h: Heap<P>, t: Heap<P>, U: nat, size: nat, align: nat, p: P, b: nat)
    requires HeapOk(h, U) && AllocFresh(h, t, U, size, align, p, b)
    ensures HeapOk(t, U)
  {
    var c := ClassOf(size);
    var j := t.table[p];
    var s0 :| Fresh(s0) && |s0.cells| == U && StepBy(s0, Alloc(size, align, b), j.state);
    FreshInv(s0);
    InfoAfterAlloc(PageInfo(s0, true, c), j, U, size, b);
    FreshListed(h.lists[c], h.table, p, c, j.slobFree);
    UpdateOk(h, U, p, j, t.lists);
  }

  /** The list that a new page joins, if it joins one. */
  lemma FreshListed<P>(q: seq<P>, table: map<P, PageInfo>, p: P, c: nat, joins: bool)
    requires Lists(q, Members(table, c)) && p !in table
    ensures Lists(if joins then [p] + q else q, Members(table, c) - {p} + (if joins then {p} else {}))
  {
    if joins {
      PushKeeps(q, p, Members(table, c));
    }
    assert Members(table, c) - {p} == Members(table, c);
  }

  /** The page goes exactly when the freed block was its last live one. */
  lemma LastBlock(i: PageInfo, U: nat, b: nat)
    requires InfoOk(i, U) && b in i.state.live
    ensures i.state.units + SlobUnits(i.state.live[b]) == U <==> i.state.live == map[b := i.state.live[b]]
  {
    var live: Live := i.state.live;
    LiveUnitsRemove(live, b);
    var rest: Live := live - {b};
    if rest == map[] {
      assert live == map[b := live[b]];
    } else {
      var s :| s in rest;
      LiveUnitsRemove(rest, s);
      assert live[s] > 0;
      assert s in live && s != b;
    }
  }

  lemma MembersRemove<P>(table: map<P, PageInfo>, p: P, c: nat)
    ensures Members(table - {p}, c) == Members(table, c) - {p}
  {
  }

  /** A page that gives a block back, and still has another, stays in order. */
  lemma InfoAfterFree(i: PageInfo, j: PageInfo, U: nat, b: nat)
    requires InfoOk(i, U) && Giveback(i.state, j.state, b) && i.state.live != map[b := i.state.live[b]]
    requires j.sizeClass == i.sizeClass && j.slobFree
    ensures InfoOk(j, U)
  {
    GivebackInv(i.state, j.state, b);
    var only := map[b := i.state.live[b]];
    assert j.state.live == map[] ==> i.state.live == only;
  }

  lemma FreeBlockOk<P>(h: Heap<P>, t: Heap<P>, U: nat, p: P, b: nat)
    requires HeapOk(h, U) && FreeBlock(h, t, U, p, b)
    ensures HeapOk(t, U)
  {
    var i := h.table[p];
    assert InfoOk(i, U);
    LastBlock(i, U, b);
    if i.state.units + SlobUnits(i.state.live[b]) == U {
      PageGone(h, t, U, p);
    } else {
      InfoAfterFree(i, t.table[p], U, b);
      PageStays(h, t, U, p);
    }
  }

  lemma PageGone<P>(h: Heap<P>, t: Heap<P>, U: nat, p: P)
    requires HeapOk(h, U) && p in h.table && h.table[p].sizeClass < 3 && t.table == h.table - {p}
    requires var i := h.table[p];
             t.lists == if i.slobFree then h.lists[i.sizeClass := Removed(h.lists[i.sizeClass], p)] else h.lists
    ensures HeapOk(t, U)
  {
    var i := h.table[p];
    var c := i.sizeClass;
    if i.slobFree {
      RemovedKeeps(h.lists[c], p, Members(h.table, c));
    }
    forall d | 0 <= d < 3 ensures Lists(t.lists[d], Members(t.table, d)) {
      MembersRemove(h.table, p, d);
      if d != c || !i.slobFree {
        assert Members(h.table, d) - {p} == Members(h.table, d);
      }
    }
  }

  lemma PageStays<P>(h: Heap<P>, t: Heap<P>, U: nat, p: P)
    requires HeapOk(h, U) && p in h.table && p in t.table && h.table[p].sizeClass < 3
    requires var i, j := h.table[p], t.table[p];
             && InfoOk(j, U) && j.sizeClass == i.sizeClass && j.slobFree && t.table == h.table[p := j]
             && t.lists == (if i.slobFree then h.lists else h.lists[i.sizeClass := [p] + h.lists[i.sizeClass]])
    ensures HeapOk(t, U)
  {
    var i, c := h.table[p], h.table[p].sizeClass;
    if !i.slobFree {
      PushKeeps(h.lists[c], p, Members(h.table, c));
    }
    assert Members(h.table, c) - {p} + {p} == if i.slobFree then Members(h.table, c) else Members(h.table, c) + {p};
    UpdateOk(h, U, p, t.table[p], t.lists);
  }

  lemma WriteBlockOk<P>(h: Heap<P>, t: Heap<P>, U: nat, p: P, k: nat, v: SlobIdx)
    requires HeapOk(h, U) && WriteBlock(h, t, p, k, v)
    ensures HeapOk(t, U)
  {
    var i, j := h.table[p], t.table[p];
    assert InfoOk(i, U);
    ClientWriteInv(i.state, j.state, k, v);
    assert j == i.(state := j.state);
    forall c | 0 <= c < 3 ensures Members(t.table, c) == Members(h.table, c) {
      MembersUpdate(h.table, p, j, c);
    }
  }
}
