/** Which free block an allocation takes: room, alignment, leftover. */
module SlobFit {
  import opened Arithmetic

  import opened SlobCode
  import opened SlobList

  /** Bytes rounded up to units. */
  function SlobUnits(size: nat): (n: nat)
    ensures size <= n * SLOB_UNIT < size + SLOB_UNIT
  {
    if SLOB_UNIT == 2 then (size + 1) / 2 else (size + 3) / 4
  }

  /** Whole units in so many bytes. */
  function UnitsIn(bytes: nat): nat {
    if SLOB_UNIT == 2 then bytes / 2 else bytes / 4
  }

  predicate IsPowerOfTwo(a: nat) {
    a == 1 || (a > 1 && a % 2 == 0 && IsPowerOfTwo(a / 2))
  }

  /** What the allocator accepts: no alignment, or a power of two that divides the page size. */
  predicate ValidAlign(align: nat, U: nat) {
    align == 0 || (IsPowerOfTwo(align) && (U * SLOB_UNIT) % align == 0)
  }

  function AlignUp(x: nat, a: nat): nat
    requires a > 0
  {
    (x + a - 1) / a * a
  }

  /** Units skipped at the front of a block at offset `cur` to reach an aligned address. */
  function Delta(cur: nat, align: nat): (d: nat) {
    if align == 0 then 0
    else
      AlignUpIsUp(cur * SLOB_UNIT, align);
      UnitsIn(AlignUp(cur * SLOB_UNIT, align) - cur * SLOB_UNIT)
  }

  lemma AlignUpIsUp(x: nat, a: nat)
    requires a > 0
    ensures x <= AlignUp(x, a) < x + a
    ensures AlignUp(x, a) % a == 0
  {
    var q, r := (x + a - 1) / a, (x + a - 1) % a;
    assert q * a + r == x + a - 1;
    MultipleMod(q, a);
  }

  /** The block that is carved begins at an aligned address, whatever page it lies in. */
  lemma DeltaAligns(cur: nat, align: nat, base: nat)
    requires align > 0 && IsPowerOfTwo(align) && base % align == 0
    ensures (base + (cur + Delta(cur, align)) * SLOB_UNIT) % align == 0
  {
    DeltaExact(cur, align);
    AlignUpIsUp(cur * SLOB_UNIT, align);
    DividesSum(base, AlignUp(cur * SLOB_UNIT, align), align);
  }

  /** The aligned address is a whole number of units on. */
  lemma DeltaExact(cur: nat, align: nat)
    requires align > 0 && IsPowerOfTwo(align)
    ensures (cur + Delta(cur, align)) * SLOB_UNIT == AlignUp(cur * SLOB_UNIT, align)
  {
    var x := cur * SLOB_UNIT;
    AlignUpIsUp(x, align);
    MultipleMod(cur, SLOB_UNIT);
    PowersOfTwo(align);
    if align <= 2 {
      MultipleOf(x, SLOB_UNIT, align);
      AlignedStays(x, align);
    } else {
      MultipleOf(align, 4, SLOB_UNIT);
      MultipleOf(AlignUp(x, align), align, SLOB_UNIT);
      assert cur + UnitsIn(AlignUp(x, align) - x) == UnitsIn(AlignUp(x, align));
    }
  }

  lemma PowersOfTwo(a: nat)
    requires IsPowerOfTwo(a)
    ensures a == 1 || a == 2 || a % 4 == 0
  {
    if a > 2 {
      TwiceEven(a / 2);
    }
  }

  lemma TwiceEven(h: nat)
    requires h > 1 && IsPowerOfTwo(h)
    ensures (2 * h) % 4 == 0
  {
    var m := h / 2;
    assert h == 2 * m;
  }

  lemma AlignedStays(x: nat, a: nat)
    requires a > 0 && x % a == 0
    ensures AlignUp(x, a) == x
  {
    var q := x / a;
    assert x == q * a;
    QuotientUnique(x + a - 1, a, q, a - 1);
  }

  /** Aligning the address `base + x` and aligning the in-page offset x skip the same distance. */
  lemma AlignBaseIrrelevant(base: nat, x: nat, a: nat)
    requires a > 0 && base % a == 0
    ensures AlignUp(base + x, a) == base + AlignUp(x, a)
  {
    var q := base / a;
    assert base == q * a;
    var y := x + a - 1;
    var p, r := y / a, y % a;
    assert y == p * a + r;
    assert base + y == (q + p) * a + r;
    QuotientUnique(base + y, a, q + p, r);
    assert (q + p) * a == q * a + p * a;
  }

  /** Room for `n` units once the block's start is aligned. */
  predicate Fits(x: Block, n: nat, align: nat) {
    x.len >= n + Delta(x.start, align)
  }

  function Leftover(x: Block, n: nat, align: nat): int {
    x.len - (n + Delta(x.start, align))
  }

  ghost predicate NoneFits(list: seq<Block>, n: nat, align: nat) {
    forall i {:trigger Fits(list[i], n, align)} :: 0 <= i < |list| ==> !Fits(list[i], n, align)
  }

  /** Block i leaves the least over, and is the first in address order that does. */
  ghost predicate IsBestFit(list: seq<Block>, i: nat, n: nat, align: nat) {
    && i < |list| && Fits(list[i], n, align)
    && forall j {:trigger Fits(list[j], n, align)} :: 0 <= j < |list| && Fits(list[j], n, align) ==>
         && Leftover(list[i], n, align) <= Leftover(list[j], n, align)
         && (j < i ==> Leftover(list[i], n, align) < Leftover(list[j], n, align))
  }

  ghost predicate IsFirstFit(list: seq<Block>, i: nat, n: nat, align: nat) {
    && i < |list| && Fits(list[i], n, align)
    && forall j {:trigger Fits(list[j], n, align)} :: 0 <= j < i ==> !Fits(list[j], n, align)
  }

  /** Best fit names one block: the choice is a function of the list and the request. */
  lemma BestFitUnique(list: seq<Block>, i: nat, j: nat, n: nat, align: nat)
    requires IsBestFit(list, i, n, align) && IsBestFit(list, j, n, align)
    ensures i == j
  {
  }

  /** Both policies have a candidate in exactly the same cases. */
  lemma {:induction false} PoliciesAgree(list: seq<Block>, n: nat, align: nat)
    ensures (exists i: nat :: IsBestFit(list, i, n, align)) <==> !NoneFits(list, n, align)
    ensures (exists i: nat :: IsFirstFit(list, i, n, align)) <==> !NoneFits(list, n, align)
  {
    if !NoneFits(list, n, align) {
      var b := BestExists(list, n, align);
      assert IsBestFit(list, b, n, align);
      var f := FirstExists(list, n, align);
      assert IsFirstFit(list, f, n, align);
    }
  }

  lemma {:induction false} BestExists(list: seq<Block>, n: nat, align: nat) returns (b: nat)
    requires !NoneFits(list, n, align)
    ensures IsBestFit(list, b, n, align)
  {
    var m := |list| - 1;
    var init := list[..m];
    if NoneFits(init, n, align) {
      assert forall j :: 0 <= j < m ==> list[j] == init[j];
      b := m;
    } else {
      var c := BestExists(init, n, align);
      assert forall j :: 0 <= j < m ==> list[j] == init[j];
      b := if Fits(list[m], n, align) && Leftover(list[m], n, align) < Leftover(list[c], n, align) then m else c;
    }
  }

  lemma {:induction false} FirstExists(list: seq<Block>, n: nat, align: nat) returns (f: nat)
    requires !NoneFits(list, n, align)
    ensures IsFirstFit(list, f, n, align)
  {
    if Fits(list[0], n, align) {
      f := 0;
    } else {
      assert forall j :: 1 <= j < |list| ==> list[j] == list[1..][j - 1];
      var g := FirstExists(list[1..], n, align);
      f := g + 1;
    }
  }

  /** A block that fits is no larger than the page's free total, so the page filter
      `units < SLOB_UNITS(size)` never skips a page that could serve the request. */
  lemma {:induction false} FilterIsSafe(list: seq<Block>, n: nat, align: nat)
    requires SumLens(list) < n
    ensures NoneFits(list, n, align)
  {
    forall i | 0 <= i < |list| ensures !Fits(list[i], n, align) {
      LenBelowSum(list, i);
    }
  }

  lemma {:induction false} LenBelowSum(list: seq<Block>, i: nat)
    requires i < |list|
    ensures list[i].len <= SumLens(list)
  {
    if i == 0 {
    } else {
      LenBelowSum(list[1..], i - 1);
    }
  }

  /** A fresh page is one free block at offset 0, which needs no alignment: it serves
      a request exactly when the request is no larger than the page. */
  lemma FreshPageFits(size: nat, align: nat, U: nat)
    ensures NoneFits([Block(0, U)], SlobUnits(size), align) <==> size > U * SLOB_UNIT
  {
    if align > 0 {
      AlignUpIsUp(0, align);
      QuotientUnique(align - 1, align, 0, align - 1);
    }
    assert Delta(0, align) == 0;
    assert [Block(0, U)][0] == Block(0, U);
    assert Fits(Block(0, U), SlobUnits(size), align) <==> U >= SlobUnits(size);
  }
}
