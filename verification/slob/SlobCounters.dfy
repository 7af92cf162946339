/** What the free counter says of the whole heap, and how each step moves it. */
module SlobCounters {
  import opened SlobFit
  import opened SlobSteps
  import opened SlobRuns
  import opened SlobHeap
  import opened SlobHeapRuns

  /** The free units of all pages in use, listed or full. */
  ghost function FreeUnits<P>(table: map<P, PageInfo>): int {
    if table == map[] then 0
    else
      var p :| p in table;
      table[p].state.units + FreeUnits(table - {p})
  }

  /** Any page may be taken out first. */
  lemma {:induction false} FreeUnitsRemove<P>(table: map<P, PageInfo>, x: P)
    requires x in table
    ensures FreeUnits(table) == table[x].state.units + FreeUnits(table - {x})
    decreases |table|
  {
    var p :| p in table && FreeUnits(table) == table[p].state.units + FreeUnits(table - {p});
    if p == x {
    } else {
      FreeUnitsRemove(table - {p}, x);
      FreeUnitsRemove(table - {x}, p);
      assert table - {p} - {x} == table - {x} - {p};
    }
  }

  lemma FreeUnitsUpdate<P>(table: map<P, PageInfo>, x: P, j: PageInfo)
    ensures FreeUnits(table[x := j])
            == FreeUnits(table) + j.state.units - (if x in table then table[x].state.units else 0)
  {
    FreeUnitsRemove(table[x := j], x);
    if x in table {
      FreeUnitsRemove(table, x);
      assert table[x := j] - {x} == table - {x};
    } else {
      assert table[x := j] - {x} == table;
    }
  }

  lemma {:induction false} NoFreeUnits<P>(table: map<P, PageInfo>)
    requires forall p :: p in table ==> table[p].state.units == 0
    ensures FreeUnits(table) == 0
    decreases |table|
  {
    if table == map[] {
    } else {
      var p :| p in table;
      FreeUnitsRemove(table, p);
      NoFreeUnits(table - {p});
    }
  }

  // ---------- The lists miss nothing ----------

  lemma {:induction false} FreeOnConcat<P>(table: map<P, PageInfo>, a: seq<P>, b: seq<P>)
    requires forall i :: 0 <= i < |a| ==> a[i] in table
    requires forall i :: 0 <= i < |b| ==> b[i] in table
    ensures forall i :: 0 <= i < |a + b| ==> (a + b)[i] in table
    ensures FreeOn(table, a + b) == FreeOn(table, a) + FreeOn(table, b)
    decreases |b|
  {
    forall i | 0 <= i < |a + b| ensures (a + b)[i] in table {
      assert (a + b)[i] == if i < |a| then a[i] else b[i - |a|];
    }
    if b == [] {
      assert a + b == a;
    } else {
      var m := |b| - 1;
      FreeOnConcat(table, a, b[..m]);
      assert (a + b)[..|a| + m] == a + b[..m] && (a + b)[|a| + m] == b[m];
    }
  }

  lemma {:induction false} FreeOnWithout<P>(table: map<P, PageInfo>, q: seq<P>, x: P)
    requires forall i :: 0 <= i < |q| ==> q[i] in table && q[i] != x
    ensures FreeOn(table - {x}, q) == FreeOn(table, q)
  {
    if q == [] {
    } else {
      FreeOnWithout(table, q[..|q| - 1], x);
    }
  }

  /** Added up over distinct pages among which are all that have free units, the free units are
      those of the heap. */
  lemma {:induction false} FreeOnAll<P>(table: map<P, PageInfo>, q: seq<P>)
    requires NoDuplicates(q) && forall i :: 0 <= i < |q| ==> q[i] in table
    requires forall p :: p in table && table[p].state.units != 0 ==> p in q
    ensures FreeOn(table, q) == FreeUnits(table)
    decreases |q|
  {
    if q == [] {
      NoFreeUnits(table);
    } else {
      var m := |q| - 1;
      var x := q[m];
      assert q == q[..m] + [x];
      FreeOnWithout(table, q[..m], x);
      FreeOnAll(table - {x}, q[..m]);
      FreeUnitsRemove(table, x);
    }
  }

  /** What sys_get_slob_amt_free adds up is every free unit there is: no page with free units is
      off the lists, and none is on them twice. */
  lemma ListsMissNothing<P>(h: Heap<P>, U: nat)
    requires HeapOk(h, U)
    ensures forall c, i :: 0 <= c < 3 && 0 <= i < |h.lists[c]| ==> h.lists[c][i] in h.table
    ensures FreeOn(h.table, h.lists[0]) + FreeOn(h.table, h.lists[1]) + FreeOn(h.table, h.lists[2])
            == FreeUnits(h.table)
  {
    forall c, i | 0 <= c < 3 && 0 <= i < |h.lists[c]|
      ensures h.lists[c][i] in h.table && h.table[h.lists[c][i]].sizeClass == c
    {
      ListedInfo(h, U, c, i);
    }
    var a, b, c := h.lists[0], h.lists[1], h.lists[2];
    FreeOnConcat(h.table, a, b);
    FreeOnConcat(h.table, a + b, c);
    forall p | p in h.table && h.table[p].state.units != 0 ensures p in a + b + c {
      FreeIsListed(h, U, p);
    }
    FreeOnAll(h.table, a + b + c);
  }

  lemma FreeIsListed<P>(h: Heap<P>, U: nat, p: P)
    requires HeapOk(h, U) && p in h.table && h.table[p].state.units != 0
    ensures p in h.lists[0] || p in h.lists[1] || p in h.lists[2]
  {
    var c := h.table[p].sizeClass;
    assert InfoOk(h.table[p], U);
    ListedIff(h, U, p, c);
    assert c == 0 || c == 1 || c == 2;
  }

  // ---------- How a step moves the counter ----------

  /** An allocation takes the units of its request from the counter, after adding a page of them
      if it needed a new one; a free gives them back, and then takes away the page that goes. */
  lemma FreeUnitsStep<P>(h: Heap<P>, e: HeapEvent<P>, t: Heap<P>, U: nat)
    requires HeapOk(h, U) && HeapStep(h, e, t, U)
    ensures e.FromList? ==> FreeUnits(t.table) == FreeUnits(h.table) - SlobUnits(e.size)
    ensures e.FromFresh? ==> FreeUnits(t.table) == FreeUnits(h.table) + U - SlobUnits(e.size)
    ensures e.Give? ==>
              && e.page in h.table && e.block in h.table[e.page].state.live
              && FreeUnits(t.table) == FreeUnits(h.table) + SlobUnits(h.table[e.page].state.live[e.block])
                                       - (if e.page in t.table then 0 else U)
    ensures e.Store? ==> FreeUnits(t.table) == FreeUnits(h.table)
  {
    match e
    case FromList(size, align, k, b) => UnitsFromList(h, t, U, size, align, k, b);
    case FromFresh(size, align, p, b) => UnitsFromFresh(h, t, U, size, align, p, b);
    case Give(p, b) => UnitsGiven(h, t, U, p, b);
    case Store(p, k, v) => FreeUnitsUpdate(h.table, p, t.table[p]);
  }

  lemma UnitsFromList<P>(h: Heap<P>, t: Heap<P>, U: nat, size: nat, align: nat, k: nat, b: nat)
    requires HeapOk(h, U) && AllocListed(h, t, size, align, k, b)
    ensures FreeUnits(t.table) == FreeUnits(h.table) - SlobUnits(size)
  {
    var p := h.lists[ClassOf(size)][k];
    FreeUnitsUpdate(h.table, p, t.table[p]);
  }

  lemma UnitsFromFresh<P>(h: Heap<P>, t: Heap<P>, U: nat, size: nat, align: nat, p: P, b: nat)
    requires HeapOk(h, U) && AllocFresh(h, t, U, size, align, p, b)
    ensures FreeUnits(t.table) == FreeUnits(h.table) + U - SlobUnits(size)
  {
    var s0 :| Fresh(s0) && |s0.cells| == U && StepBy(s0, Alloc(size, align, b), t.table[p].state);
    UnitsOfFresh(s0);
    FreeUnitsUpdate(h.table, p, t.table[p]);
  }

  lemma UnitsOfFresh(s: PageState)
    requires Fresh(s)
    ensures s.units == |s.cells|
  {
    FreshInv(s);
  }

  lemma UnitsGiven<P>(h: Heap<P>, t: Heap<P>, U: nat, p: P, b: nat)
    requires HeapOk(h, U) && FreeBlock(h, t, U, p, b)
    ensures FreeUnits(t.table) == FreeUnits(h.table) + SlobUnits(h.table[p].state.live[b])
                                  - (if p in t.table then 0 else U)
  {
    if p in t.table {
      FreeUnitsUpdate(h.table, p, t.table[p]);
    } else {
      FreeUnitsRemove(h.table, p);
    }
  }
}
