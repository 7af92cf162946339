/** kmalloc, kfree and ksize: blocks that remember their own size in a header. */
module SlobKmalloc {
  import opened Arithmetic

  import opened SlobCode
  import opened SlobFit
  import opened SlobLive
  import opened SlobSteps
  import opened SlobHeap
  import opened SlobHeapRuns
  import opened SlobPage
  import opened SlobAllocator

  /** What kmalloc returns: nothing, the zero-size token, a byte offset into a SLOB page,
      or whole pages straight from the page allocator. */
  datatype Pointer = Null | ZeroSize | InPage(page: Page, offset: nat) | WholePages

  // ---------- The header: an unsigned 32-bit size, in one 32-bit unit, or in two 16-bit ones
  // with the low half first ----------

  const HEADER_UNITS: nat := if SLOB_UNIT == 2 then 2 else 1

  /** How many values a unit can hold. */
  const SPAN: nat := if SLOB_UNIT == 2 then 0x1_0000 else 0x1_0000_0000

  function ToUnit(part: nat): SlobIdx
    requires part < SPAN
  {
    if part <= MAX_UNITS then part else part - SPAN
  }

  function FromUnit(u: SlobIdx): (part: nat)
    ensures part < SPAN && ToUnit(part) == u
  {
    if u >= 0 then u else u + SPAN
  }

  predicate HasHeader(c: Cells, b: nat) {
    b + HEADER_UNITS <= |c|
  }

  function ReadHeader(c: Cells, b: nat): nat
    requires HasHeader(c, b)
  {
    if SLOB_UNIT == 2 then FromUnit(c[b]) + FromUnit(c[b + 1]) * 0x1_0000 else FromUnit(c[b])
  }

  /** What goes into the first unit of the header, and into the second if there is one. */
  function First(size: nat): SlobIdx
    requires size < 0x1_0000_0000
  {
    ToUnit(if SLOB_UNIT == 2 then size % 0x1_0000 else size)
  }

  function Second(size: nat): SlobIdx
    requires size < 0x1_0000_0000
  {
    ToUnit(size / 0x1_0000)
  }

  function WithHeader(c: Cells, b: nat, size: nat): Cells
    requires HasHeader(c, b) && size < 0x1_0000_0000
  {
    if SLOB_UNIT == 2 then c[b := First(size)][b + 1 := Second(size)] else c[b := First(size)]
  }

  lemma HeaderRoundTrip(c: Cells, b: nat, size: nat)
    requires HasHeader(c, b) && size < 0x1_0000_0000
    ensures ReadHeader(WithHeader(c, b, size), b) == size
  {
    PartRoundTrip(if SLOB_UNIT == 2 then size % 0x1_0000 else size);
    PartRoundTrip(size / 0x1_0000);
  }

  function Unsigned(u: int, span: nat): int {
    if u >= 0 then u else u + span
  }

  /** The header is the size as an unsigned number: its low 16 bits and then the others in two
      units of 16 bits, or all of it in one of 32. */
  lemma HeaderLayout(c: Cells, b: nat, size: nat)
    requires HasHeader(c, b) && size < 0x1_0000_0000
    ensures var d := WithHeader(c, b, size);
            && |d| == |c|
            && (SLOB_UNIT == 2 ==>
                  && b + 1 < |c|
                  && Unsigned(d[b], 65536) == size % 65536 && Unsigned(d[b + 1], 65536) == size / 65536)
            && (SLOB_UNIT == 4 ==> Unsigned(d[b], 4294967296) == size)
            && forall k :: 0 <= k < |c| && k != b && !(SLOB_UNIT == 2 && k == b + 1) ==> d[k] == c[k]
  {
  }

  lemma PartRoundTrip(part: nat)
    requires part < SPAN
    ensures FromUnit(ToUnit(part)) == part
  {
  }

  /** What kmalloc needs of the build: an alignment that is a power of two and leaves room for the
      header, and pages small enough for their size to fit the header. */
  predicate KmallocAlign(align: nat, U: nat) {
    align >= 4 && ValidAlign(align, U) && U * SLOB_UNIT <= 0x1_0000_0000
  }

  /** The block at b of page p was handed out by kmalloc for `size` bytes, and its header is intact. */
  ghost predicate IsKmalloced(p: Page, b: nat, size: nat, align: nat)
    reads p, p.cells
  {
    && b in p.live && p.live[b] == size + align
    && HasHeader(p.cells[..], b) && ReadHeader(p.cells[..], b) == size
  }

  /** Bytes ksize reports for a header that reads `size`. */
  function KSize(size: nat): nat {
    SlobUnits(size) * SLOB_UNIT
  }

  /** The alignment is a whole number of units. */
  lemma AlignInUnits(align: nat, U: nat)
    requires KmallocAlign(align, U)
    ensures align % SLOB_UNIT == 0 && align % 4 == 0
  {
    PowersOfTwo(align);
    MultipleOf(align, 4, SLOB_UNIT);
  }

  /** ksize covers the request, and from the client's pointer on stays inside the block. */
  lemma KSizeFits(size: nat, align: nat, U: nat)
    requires KmallocAlign(align, U)
    ensures size <= KSize(size)
    ensures align + KSize(size) <= SlobUnits(size + align) * SLOB_UNIT
  {
    AlignInUnits(align, U);
    WholeUnits(size, align);
  }

  lemma WholeUnits(size: nat, align: nat)
    requires align % 4 == 0
    ensures SlobUnits(size + align) == SlobUnits(size) + UnitsIn(align)
    ensures UnitsIn(align) * SLOB_UNIT == align
  {
  }

  /** A client that writes from its pointer on leaves the header alone. */
  lemma HeaderSurvives(s: PageState, t: PageState, b: nat, align: nat, k: nat, v: SlobIdx)
    requires ClientWrite(s, t, k, v) && HasHeader(s.cells, b) && align >= 4
    requires k * SLOB_UNIT >= b * SLOB_UNIT + align
    ensures |t.cells| == |s.cells| && ReadHeader(t.cells, b) == ReadHeader(s.cells, b)
  {
  }

  /** A new kmalloc block holds its header. */
  lemma HeaderFits(s: PageState, b: nat, size: nat, align: nat)
    requires Inv(s) && b in s.live && s.live[b] == size + align && align >= 4
    ensures Holds(s.live, b, b) && Holds(s.live, b, b + HEADER_UNITS - 1) && HasHeader(s.cells, b)
    ensures b * SLOB_UNIT + align + size <= |s.cells| * SLOB_UNIT
  {
    var n := SlobUnits(size + align);
    assert b + n <= |s.cells|;
    assert size + align <= n * SLOB_UNIT;
    assert (b + n) * SLOB_UNIT == b * SLOB_UNIT + n * SLOB_UNIT;
  }

  /** The units of the header are stored, one after the other. */
  ghost predicate HeaderStored(h: Heap<Page>, m: Heap<Page>, t: Heap<Page>, U: nat, p: Page, b: nat, size: nat) {
    && size < 0x1_0000_0000
    && HeapStep(h, Store(p, b, First(size)), m, U)
    && if SLOB_UNIT == 2 then HeapStep(m, Store(p, b + 1, Second(size)), t, U) else t == m
  }

  /** What one kmalloc does to the allocator: one block is handed out, for the request and its
      header, and then the header is stored in it. */
  ghost predicate Kmallocs(h: Heap<Page>, given: Heap<Page>, m: Heap<Page>, t: Heap<Page>, e: HeapEvent<Page>,
                           U: nat, p: Page, b: nat, size: nat, align: nat) {
    && HeapStep(h, e, given, U) && Serves(h, e, size + align, align, p, b)
    && HeaderStored(given, m, t, U, p, b, size)
  }

  /** __do_kmalloc_node. The two flags say whether the page allocator has a page for the SLOB
      lists, and whether it has the pages for a large request. */
  method Kmalloc(h: Allocator, size: nat, align: nat, pageAvailable: bool, pagesAvailable: bool)
    returns (r: Pointer, ghost b: nat, ghost given: Heap<Page>, ghost m: Heap<Page>, ghost e: HeapEvent<Page>)
    requires h.Valid() && KmallocAlign(align, h.U)
    modifies h, h.table.Keys, h.Memory()
    ensures h.Valid()
    ensures r.WholePages? <==> size + align >= h.U * SLOB_UNIT && pagesAvailable
    ensures r.ZeroSize? <==> size == 0 && align < h.U * SLOB_UNIT
    ensures r.InPage? <==>
        && 0 < size && size + align < h.U * SLOB_UNIT
        && (pageAvailable || !NoRoomListed(old(h.View()), size + align, align))
    ensures r.Null? <==>
        || (size + align >= h.U * SLOB_UNIT && !pagesAvailable)
        || (0 < size && size + align < h.U * SLOB_UNIT
            && !pageAvailable && NoRoomListed(old(h.View()), size + align, align))
    ensures r.InPage? ==>
        && r.page in h.table && r.offset == b * SLOB_UNIT + align && r.offset + size <= h.U * SLOB_UNIT
        && IsKmalloced(r.page, b, size, align)
        && Kmallocs(old(h.View()), given, m, h.View(), e, h.U, r.page, b, size, align)
    ensures !r.InPage? ==> h.View() == old(h.View())
  {
    b, given, m, e := 0, h.View(), h.View(), FromList(size, align, 0, 0);
    if size + align >= h.U * SLOB_UNIT {
      r := if pagesAvailable then WholePages else Null;
      return;
    }
    if size == 0 {
      r := ZeroSize;
      return;
    }
    ghost var noRoom := NoRoomListed(h.View(), size + align, align);
    var p, at;
    p, at, given, m, e := KmallocBlock(h, size, align, pageAvailable, noRoom);
    b := at;
    r := if p == null then Null else InPage(p, at * SLOB_UNIT + align);
  }

  /** The block with its header written. */
  method KmallocBlock(h: Allocator, size: nat, align: nat, pageAvailable: bool, ghost noRoom: bool)
    returns (p: Page?, b: nat, ghost given: Heap<Page>, ghost m: Heap<Page>, ghost e: HeapEvent<Page>)
    requires h.Valid() && KmallocAlign(align, h.U) && 0 < size && size + align < h.U * SLOB_UNIT
    requires noRoom <==> NoRoomListed(h.View(), size + align, align)
    modifies h, h.table.Keys, h.Memory()
    ensures h.Valid()
    ensures p == null <==> !pageAvailable && noRoom
    ensures p == null ==> h.View() == old(h.View())
    ensures p != null ==> p in h.table && IsKmalloced(p, b, size, align)
    ensures p != null ==> Kmallocs(old(h.View()), given, m, h.View(), e, h.U, p, b, size, align)
    ensures p != null ==> b * SLOB_UNIT + align + size <= h.U * SLOB_UNIT
  {
    p, b, e := h.SlobAlloc(size + align, align, pageAvailable);
    assert p == null <==> !pageAvailable && noRoom;
    given, m := h.View(), h.View();
    if p == null {
      return;
    }
    HeaderRoom(h, p, b, size, align);
    m := WriteHeader(h, p, b, size, align);
  }

  /** The bytes asked for end inside the page. */
  lemma HeaderRoom(h: Allocator, p: Page, b: nat, size: nat, align: nat)
    requires h.Valid() && p in h.table && b in p.live && p.live[b] == size + align && align >= 4
    ensures b * SLOB_UNIT + align + size <= h.U * SLOB_UNIT
  {
    assert InfoOk(h.table[p], h.U);
    HeaderFits(p.State(), b, size, align);
  }

  method WriteHeader(h: Allocator, p: Page, b: nat, size: nat, align: nat) returns (ghost m: Heap<Page>)
    requires size < 0x1_0000_0000
    requires h.Valid() && p in h.table && b in p.live && p.live[b] == size + align && align >= 4
    modifies h, p.cells
    ensures h.Valid() && p in h.table && IsKmalloced(p, b, size, align)
    ensures HeaderStored(old(h.View()), m, h.View(), h.U, p, b, size)
  {
    assert InfoOk(h.table[p], h.U);
    HeaderFits(p.State(), b, size, align);
    HeaderRoundTrip(p.cells[..], b, size);
    m := StoreHeader(h, p, b, size);
  }

  method StoreHeader(h: Allocator, p: Page, b: nat, size: nat) returns (ghost m: Heap<Page>)
    requires size < 0x1_0000_0000 && h.Valid() && p in h.table && HasHeader(p.cells[..], b)
    requires Holds(p.live, b, b) && Holds(p.live, b, b + HEADER_UNITS - 1)
    modifies h, p.cells
    ensures h.Valid() && p in h.table && p.cells[..] == WithHeader(old(p.cells[..]), b, size)
    ensures HeaderStored(old(h.View()), m, h.View(), h.U, p, b, size)
  {
    ghost var before := h.View();
    h.StoreUnit(p, b, b, First(size));
    m := h.View();
    if SLOB_UNIT == 2 {
      h.StoreUnit(p, b, b + 1, Second(size));
    }
    HeaderSteps(before, m, h.View(), h.U, p, b, size);
  }

  lemma HeaderSteps(h: Heap<Page>, m: Heap<Page>, t: Heap<Page>, U: nat, p: Page, b: nat, size: nat)
    requires size < 0x1_0000_0000
    ensures HeapStep(h, Store(p, b, First(size)), m, U)
            && (if SLOB_UNIT == 2 then HeapStep(m, Store(p, b + 1, Second(size)), t, U) else t == m)
            ==> HeaderStored(h, m, t, U, p, b, size)
  {
  }

  /** kfree: the header says how much to give back. */
  method Kfree(h: Allocator, r: Pointer, align: nat, ghost b: nat, ghost size: nat)
    requires h.Valid() && KmallocAlign(align, h.U)
    requires r.InPage? ==>
        r.page in h.table && r.offset == b * SLOB_UNIT + align && IsKmalloced(r.page, b, size, align)
    modifies h, h.table.Keys, h.Memory()
    ensures h.Valid()
    ensures !r.InPage? ==> h.View() == old(h.View())
    ensures r.InPage? ==> HeapStep(old(h.View()), Give(r.page, b), h.View(), h.U)
  {
    if r.InPage? {
      var m := (r.offset - align) / SLOB_UNIT;
      var recorded := ReadHeader(r.page.cells[..], m);
      h.SlobFree(r.page, m, recorded + align);
    }
  }

  /** ksize, for what kmalloc took from a SLOB page: at least the bytes asked for, and from the
      client's pointer on never past the end of the block. */
  method Ksize(h: Allocator, r: Pointer, align: nat, ghost b: nat, ghost size: nat) returns (n: nat)
    requires h.Valid() && KmallocAlign(align, h.U) && (r.ZeroSize? || r.InPage?)
    requires r.InPage? ==>
        r.page in h.table && r.offset == b * SLOB_UNIT + align && IsKmalloced(r.page, b, size, align)
    ensures r.ZeroSize? ==> n == 0
    ensures r.InPage? ==> n == SlobUnits(size) * SLOB_UNIT
    ensures r.InPage? ==> size <= n && r.offset + n <= (b + SlobUnits(r.page.live[b])) * SLOB_UNIT
  {
    if r.ZeroSize? {
      return 0;
    }
    var m := (r.offset - align) / SLOB_UNIT;
    var recorded := ReadHeader(r.page.cells[..], m);
    KSizeFits(size, align, h.U);
    return KSize(recorded);
  }
}
