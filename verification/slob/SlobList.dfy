/** Free lists of a SLOB page as values: address-ordered runs of free units.

    `U` is the number of units in a page; offsets run from 0 to U, and U itself
    stands for the pointer just past the page. */
module SlobList {

  /** A run of `len` units that begins at offset `start`. */
  datatype Block = Block(start: nat, len: nat) {
    function End(): nat {
      start + len
    }

    predicate Covers(k: int) {
      start <= k < start + len
    }
  }

  predicate Apart(list: seq<Block>, i: nat, j: nat, gap: nat)
    requires i < j < |list|
  {
    list[i].End() + gap <= list[j].start
  }

  /** Non-empty blocks inside the page, one after the other, at least `gap` units apart. */
  ghost predicate Spaced(list: seq<Block>, U: nat, gap: nat) {
    && (forall i :: 0 <= i < |list| ==> list[i].len > 0 && list[i].End() <= U)
    && (forall i, j :: 0 <= i < j < |list| ==> Apart(list, i, j, gap))
  }

  /** Address order; neighbours may touch. */
  ghost predicate Ordered(list: seq<Block>, U: nat) {
    Spaced(list, U, 0)
  }

  /** Address order, and no two blocks touch: the list is maximally coalesced. */
  ghost predicate WellFormed(list: seq<Block>, U: nat) {
    Spaced(list, U, 1)
  }

  /** Every block ends at or before offset s. */
  ghost predicate Below(list: seq<Block>, s: nat) {
    forall i :: 0 <= i < |list| ==> list[i].End() <= s
  }

  /** Every block starts at or after offset s. */
  ghost predicate Above(list: seq<Block>, s: nat) {
    forall i :: 0 <= i < |list| ==> s <= list[i].start
  }

  ghost predicate FreeAt(list: seq<Block>, k: int) {
    exists i {:trigger list[i].Covers(k)} :: 0 <= i < |list| && list[i].Covers(k)
  }

  function SumLens(list: seq<Block>): nat {
    if list == [] then 0 else list[0].len + SumLens(list[1..])
  }

  /** Where the list goes on at index i: the start of block i, or `end` when there is none. */
  function StartAt(list: seq<Block>, i: nat, end: nat): nat {
    if i < |list| then list[i].start else end
  }

  // ---------- Concatenation ----------

  lemma SpacedConcat(a: seq<Block>, b: seq<Block>, U: nat, gap: nat)
    ensures Spaced(a + b, U, gap) <==>
            && Spaced(a, U, gap) && Spaced(b, U, gap)
            && (a == [] || b == [] || a[|a| - 1].End() + gap <= b[0].start)
  {
    var l := a + b;
    if Spaced(l, U, gap) {
      SpacedParts(a, b, U, gap);
    }
    if Spaced(a, U, gap) && Spaced(b, U, gap) && (a == [] || b == [] || a[|a| - 1].End() + gap <= b[0].start) {
      if a != [] && b != [] {
        SpacedEnds(a, U, gap);
        SpacedEnds(b, U, gap);
        SpacedJoin(a, b, U, gap, a[|a| - 1].End());
      } else {
        assert l == a || l == b;
      }
    }
  }

  lemma SpacedParts(a: seq<Block>, b: seq<Block>, U: nat, gap: nat)
    requires Spaced(a + b, U, gap)
    ensures Spaced(a, U, gap) && Spaced(b, U, gap)
    ensures a == [] || b == [] || a[|a| - 1].End() + gap <= b[0].start
  {
    var l := a + b;
    assert forall i :: 0 <= i < |a| ==> l[i] == a[i];
    assert forall i :: 0 <= i < |b| ==> l[|a| + i] == b[i];
    forall i, j | 0 <= i < j < |a| ensures Apart(a, i, j, gap) {
      assert Apart(l, i, j, gap);
    }
    forall i, j | 0 <= i < j < |b| ensures Apart(b, i, j, gap) {
      assert Apart(l, |a| + i, |a| + j, gap);
    }
    if a != [] && b != [] {
      assert Apart(l, |a| - 1, |a|, gap);
    }
  }

  lemma SpacedJoin(a: seq<Block>, b: seq<Block>, U: nat, gap: nat, m: nat)
    requires Spaced(a, U, gap) && Spaced(b, U, gap) && Below(a, m) && Above(b, m + gap)
    ensures Spaced(a + b, U, gap)
  {
    var l := a + b;
    forall i, j | 0 <= i < j < |l| ensures Apart(l, i, j, gap) {
      if i < |a| <= j {
        assert a[i].End() <= m && m + gap <= b[j - |a|].start;
      } else if j < |a| {
        assert Apart(a, i, j, gap);
      } else {
        assert Apart(b, i - |a|, j - |a|, gap);
      }
    }
  }

  /** The first block starts before, and the last ends after, every other one. */
  lemma SpacedEnds(list: seq<Block>, U: nat, gap: nat)
    requires Spaced(list, U, gap) && list != []
    ensures Below(list, list[|list| - 1].End()) && Above(list, list[0].start)
  {
    var n := |list| - 1;
    forall i | 0 <= i < |list| ensures list[i].End() <= list[n].End() {
      assert i == n || Apart(list, i, n, gap);
    }
    forall i | 0 <= i < |list| ensures list[0].start <= list[i].start {
      assert i == 0 || Apart(list, 0, i, gap);
    }
  }

  lemma WellFormedIsOrdered(l: seq<Block>, U: nat)
    requires WellFormed(l, U)
    ensures Ordered(l, U)
  {
    forall i, j | 0 <= i < j < |l| ensures Apart(l, i, j, 0) {
      assert Apart(l, i, j, 1);
    }
  }

  lemma FreeAtConcat(a: seq<Block>, b: seq<Block>, k: int)
    ensures FreeAt(a + b, k) <==> FreeAt(a, k) || FreeAt(b, k)
  {
    if FreeAt(a, k) {
      var i :| 0 <= i < |a| && a[i].Covers(k);
      assert (a + b)[i].Covers(k);
    }
    if FreeAt(b, k) {
      var i :| 0 <= i < |b| && b[i].Covers(k);
      assert (a + b)[|a| + i].Covers(k);
    }
  }

  lemma FreeAtSingle(x: Block, k: int)
    ensures FreeAt([x], k) <==> x.Covers(k)
  {
    assert [x][0] == x;
  }

  lemma {:induction false} SumLensConcat(a: seq<Block>, b: seq<Block>)
    ensures SumLens(a + b) == SumLens(a) + SumLens(b)
  {
    if a == [] {
      assert a + b == b;
    } else {
      assert (a + b)[1..] == a[1..] + b;
      SumLensConcat(a[1..], b);
    }
  }

  /** Lists of the shape the allocator builds: what lies before and after a middle part. */
  lemma FreeAtMiddle(a: seq<Block>, m: seq<Block>, b: seq<Block>, k: int)
    ensures FreeAt(a + m + b, k) <==> FreeAt(a, k) || FreeAt(m, k) || FreeAt(b, k)
  {
    FreeAtConcat(a + m, b, k);
    FreeAtConcat(a, m, k);
  }

  lemma SumLensMiddle(a: seq<Block>, m: seq<Block>, b: seq<Block>)
    ensures SumLens(a + m + b) == SumLens(a) + SumLens(m) + SumLens(b)
  {
    SumLensConcat(a + m, b);
    SumLensConcat(a, m);
  }

  // ---------- The list is determined by the units it covers ----------

  lemma FirstIsLeast(list: seq<Block>, U: nat, k: int)
    requires WellFormed(list, U) && FreeAt(list, k)
    ensures list != [] && list[0].start <= k
  {
    var i :| 0 <= i < |list| && list[i].Covers(k);
    assert i == 0 || Apart(list, 0, i, 1);
  }

  lemma FirstEnds(list: seq<Block>, U: nat)
    requires WellFormed(list, U) && list != []
    ensures !FreeAt(list, list[0].End())
  {
    forall i | 0 <= i < |list| ensures !list[i].Covers(list[0].End()) {
      assert i == 0 || Apart(list, 0, i, 1);
    }
  }

  lemma TailCover(list: seq<Block>, U: nat, k: int)
    requires WellFormed(list, U) && list != []
    ensures FreeAt(list[1..], k) <==> FreeAt(list, k) && list[0].End() <= k
  {
    assert list == [list[0]] + list[1..];
    FreeAtConcat([list[0]], list[1..], k);
    FreeAtSingle(list[0], k);
    if FreeAt(list[1..], k) {
      var i :| 0 <= i < |list[1..]| && list[1..][i].Covers(k);
      assert Apart(list, 0, i + 1, 1);
    }
  }

  lemma FirstAgrees(l: seq<Block>, m: seq<Block>, U: nat)
    requires WellFormed(l, U) && WellFormed(m, U) && l != []
    requires forall k :: 0 <= k < U ==> (FreeAt(l, k) <==> FreeAt(m, k))
    ensures m != [] && m[0].start <= l[0].start && m[0].End() <= l[0].End()
  {
    assert l[0].Covers(l[0].start);
    FirstIsLeast(m, U, l[0].start);
    FirstEnds(l, U);
    assert l[0].End() < U ==> !m[0].Covers(l[0].End());
  }

  lemma TailsAgree(l: seq<Block>, m: seq<Block>, U: nat)
    requires WellFormed(l, U) && WellFormed(m, U) && l != [] && m != [] && l[0] == m[0]
    requires forall k :: 0 <= k < U ==> (FreeAt(l, k) <==> FreeAt(m, k))
    ensures forall k :: 0 <= k < U ==> (FreeAt(l[1..], k) <==> FreeAt(m[1..], k))
  {
    forall k | 0 <= k < U ensures FreeAt(l[1..], k) <==> FreeAt(m[1..], k) {
      TailCover(l, U, k);
      TailCover(m, U, k);
    }
  }

  /** Two maximally coalesced lists that cover the same units are the same list. */
  lemma {:induction false} Canonical(l: seq<Block>, m: seq<Block>, U: nat)
    requires WellFormed(l, U) && WellFormed(m, U)
    requires forall k :: 0 <= k < U ==> (FreeAt(l, k) <==> FreeAt(m, k))
    ensures l == m
  {
    if l == [] {
      if m != [] {
        assert m[0].Covers(m[0].start);
        assert FreeAt(m, m[0].start);
      }
    } else {
      FirstAgrees(l, m, U);
      FirstAgrees(m, l, U);
      TailsAgree(l, m, U);
      assert l == [l[0]] + l[1..];
      assert m == [m[0]] + m[1..];
      SpacedParts([l[0]], l[1..], U, 1);
      SpacedParts([m[0]], m[1..], U, 1);
      Canonical(l[1..], m[1..], U);
    }
  }
}
