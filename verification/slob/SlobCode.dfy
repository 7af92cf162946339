/** How a free list is written into the free units themselves.

    A free block of two units or more holds its size and the offset of the next
    free block; a block of one unit holds that offset, negated. */
module SlobCode {
  import opened SlobList

  /** Bytes in a slobidx_t: an s16, or an s32 where pages are too large for that. */
  type UnitSize = n: nat | n == 2 || n == 4 witness 2

  /** Either of the two; the build decides. */
  const SLOB_UNIT: UnitSize

  /** The largest slobidx_t, and so the most units that a page can have. */
  const MAX_UNITS: nat := if SLOB_UNIT == 2 then 0x7fff else 0x7fff_ffff

  type SlobIdx = x: int | 0 - MAX_UNITS - 1 <= x <= MAX_UNITS

  type Cells = seq<SlobIdx>

  function Neg(x: int): int {
    -x
  }

  /** The page after `set_slob(s, size, next)`. */
  ghost function SetSlob(c: Cells, s: nat, size: nat, next: nat): (d: Cells)
    requires s + size <= |c| <= MAX_UNITS && size > 0 && next <= |c|
    ensures |d| == |c|
  {
    if size > 1 then c[s := size][s + 1 := next] else c[s := Neg(next)]
  }

  /** Enough of the page is there to read the size and the successor of block s. */
  predicate Readable(c: Cells, s: nat) {
    s < |c| && (c[s] < 0 || s + 1 < |c|)
  }

  function Units(c: Cells, s: nat): int
    requires s < |c|
  {
    if c[s] > 0 then c[s] else 1
  }

  function Next(c: Cells, s: nat): int
    requires Readable(c, s)
  {
    if c[s] < 0 then Neg(c[s]) else c[s + 1]
  }

  /** The successor's address is page-aligned. */
  predicate Last(c: Cells, s: nat)
    requires Readable(c, s)
  {
    Next(c, s) % |c| == 0
  }

  lemma PageAligned(next: nat, U: nat)
    requires 0 < next <= U
    ensures next % U == 0 <==> next == U
  {
    if next == U {
      assert next == 1 * U;
    } else {
      assert next % U == next;
    }
  }

  /** Reading back what was written: every size and every later offset survives,
      and a block is last exactly when its successor is the end of the page. */
  lemma RoundTrip(c: Cells, s: nat, size: nat, next: nat)
    requires size > 0 && s + size <= |c| <= MAX_UNITS && s < next <= |c|
    ensures var d := SetSlob(c, s, size, next);
            Readable(d, s) && Units(d, s) == size && Next(d, s) == next && (Last(d, s) <==> next == |c|)
  {
    PageAligned(next, |c|);
  }

  /** The header of x says: x.len units, and then comes `next`. */
  ghost predicate Encoded(c: Cells, x: Block, next: nat) {
    && x.len > 0 && x.End() <= |c|
    && if x.len > 1 then c[x.start] == x.len && c[x.start + 1] == next else c[x.start] == Neg(next)
  }

  lemma EncodedReads(c: Cells, x: Block, next: nat)
    requires Encoded(c, x, next) && 0 < next <= |c|
    ensures Readable(c, x.start) && Units(c, x.start) == x.len && Next(c, x.start) == next
    ensures Last(c, x.start) <==> next == |c|
  {
    PageAligned(next, |c|);
  }

  /** Header i of the list is followed by header i + 1, or by `end`. */
  ghost predicate EncodedAt(c: Cells, list: seq<Block>, i: nat, end: nat)
    requires i < |list|
  {
    Encoded(c, list[i], StartAt(list, i + 1, end))
  }

  /** The page links the blocks of `list` in order and leaves the last one pointing to `end`. */
  ghost predicate Linked(c: Cells, list: seq<Block>, end: nat) {
    forall i :: 0 <= i < |list| ==> EncodedAt(c, list, i, end)
  }

  lemma LinkedConcat(c: Cells, a: seq<Block>, b: seq<Block>, end: nat)
    ensures Linked(c, a + b, end) <==> Linked(c, a, StartAt(b, 0, end)) && Linked(c, b, end)
  {
    var l := a + b;
    if Linked(c, l, end) {
      forall i | 0 <= i < |a| ensures EncodedAt(c, a, i, StartAt(b, 0, end)) {
        assert EncodedAt(c, l, i, end);
      }
      forall i | 0 <= i < |b| ensures EncodedAt(c, b, i, end) {
        assert EncodedAt(c, l, |a| + i, end);
      }
    }
    if Linked(c, a, StartAt(b, 0, end)) && Linked(c, b, end) {
      forall i | 0 <= i < |l| ensures EncodedAt(c, l, i, end) {
        if i < |a| {
          assert EncodedAt(c, a, i, StartAt(b, 0, end));
        } else {
          assert EncodedAt(c, b, i - |a|, end);
        }
      }
    }
  }

  lemma LinkedSingle(c: Cells, x: Block, end: nat)
    ensures Linked(c, [x], end) <==> Encoded(c, x, end)
  {
    assert EncodedAt(c, [x], 0, end) <==> Encoded(c, x, end);
  }

  lemma LinkedMiddle(c: Cells, a: seq<Block>, m: seq<Block>, b: seq<Block>, end: nat)
    ensures Linked(c, a + m + b, end) <==>
            && Linked(c, a, StartAt(m, 0, StartAt(b, 0, end)))
            && Linked(c, m, StartAt(b, 0, end))
            && Linked(c, b, end)
  {
    LinkedConcat(c, a + m, b, end);
    LinkedConcat(c, a, m, StartAt(b, 0, end));
  }

  /** Only the covered units matter. */
  lemma LinkedFrame(c: Cells, d: Cells, list: seq<Block>, end: nat)
    requires |c| == |d| && Linked(c, list, end)
    requires forall k :: 0 <= k < |c| && FreeAt(list, k) ==> c[k] == d[k]
    ensures Linked(d, list, end)
  {
    forall i | 0 <= i < |list| ensures EncodedAt(d, list, i, end) {
      assert EncodedAt(c, list, i, end);
      var x := list[i];
      assert x.Covers(x.start) && (x.len > 1 ==> x.Covers(x.start + 1));
    }
  }

  /** Writing one block's header disturbs no block that keeps clear of it. */
  lemma LinkedWrite(c: Cells, list: seq<Block>, end: nat, s: nat, size: nat, next: nat)
    requires Linked(c, list, end)
    requires size > 0 && s + size <= |c| <= MAX_UNITS && next <= |c|
    requires Below(list, s) || Above(list, s + size)
    ensures Linked(SetSlob(c, s, size, next), list, end)
  {
    forall i | 0 <= i < |list| ensures Encoded(SetSlob(c, s, size, next), list[i], StartAt(list, i + 1, end)) {
      assert EncodedAt(c, list, i, end);
    }
  }

  /** Rewriting the header of the last block redirects the list. */
  lemma LinkedRedirect(c: Cells, list: seq<Block>, end: nat, next: nat, U: nat)
    requires list != [] && Ordered(list, U) && U <= |c| <= MAX_UNITS && next <= |c|
    requires Linked(c, list, end)
    ensures var p := list[|list| - 1];
            p.End() <= |c| && p.len > 0 && Linked(SetSlob(c, p.start, p.len, next), list, next)
  {
    var n := |list| - 1;
    var p := list[n];
    var d := SetSlob(c, p.start, p.len, next);
    forall i | 0 <= i < |list| ensures EncodedAt(d, list, i, next) {
      assert EncodedAt(c, list, i, end);
      if i < n {
        assert Apart(list, i, n, 0);
      }
    }
  }

  // ---------- Decoding ----------

  /** The list as the allocator reads it, starting from the page's `freelist` pointer. */
  ghost function Decode(c: Cells, head: nat): (list: seq<Block>)
    decreases |c| - head
  {
    if !Readable(c, head) || Units(c, head) < 0 then []
    else [Block(head, Units(c, head))] + (if Next(c, head) > head then Decode(c, Next(c, head)) else [])
  }

  /** The walk from `freelist` visits exactly the linked blocks; it ends, for offsets only grow. */
  lemma {:induction false} DecodeLinked(c: Cells, list: seq<Block>)
    requires Ordered(list, |c|) && Linked(c, list, |c|)
    ensures Decode(c, StartAt(list, 0, |c|)) == list
    decreases |list|
  {
    if list == [] {
    } else {
      var x, rest := list[0], list[1..];
      assert list == [x] + rest;
      LinkedReads(c, list, 0);
      SpacedParts([x], rest, |c|, 0);
      LinkedConcat(c, [x], rest, |c|);
      assert StartAt(list, 1, |c|) == StartAt(rest, 0, |c|);
      DecodeLinked(c, rest);
    }
  }

  /** What a walk reads at block i. */
  lemma LinkedReads(c: Cells, list: seq<Block>, i: nat)
    requires Ordered(list, |c|) && Linked(c, list, |c|) && i < |list|
    ensures Readable(c, list[i].start)
    ensures Units(c, list[i].start) == list[i].len
    ensures Next(c, list[i].start) == StartAt(list, i + 1, |c|)
    ensures Last(c, list[i].start) <==> i + 1 == |list|
  {
    assert EncodedAt(c, list, i, |c|);
    if i + 1 < |list| {
      assert Apart(list, i, i + 1, 0);
    }
    EncodedReads(c, list[i], StartAt(list, i + 1, |c|));
  }
}
