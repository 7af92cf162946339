/** Word arithmetic of MT19937: 32-bit words, and how 64-bit `unsigned long`s carry them.

    Operations on words have names (`Sum`, `Fold`, `KeyTimes`, ...), and proofs unfold one name at a
    time: about a name the solver knows only what is needed, about the operators every bit. A lemma
    about bits proper is stated on plain words and has one goal. `Wide` says that a carrier holds a
    word and nothing above it, `Low` that it does so in its low half. */
module MtWords {
  // ---------- Tempering ----------

  function Temper1(y: bv32): bv32 {
    y ^ (y >> 11)
  }

  function Temper2(y: bv32): bv32 {
    y ^ ((y << 7) & 0x9d2c_5680)
  }

  function Temper3(y: bv32): bv32 {
    y ^ ((y << 15) & 0xefc6_0000)
  }

  function Temper4(y: bv32): bv32 {
    y ^ (y >> 18)
  }

  function Temper(y: bv32): bv32 {
    Temper4(Temper3(Temper2(Temper1(y))))
  }

  function Untemper1(z: bv32): bv32 {
    z ^ (z >> 11) ^ (z >> 22)
  }

  /** Recovers seven more bits each time. */
  function Untemper2(z: bv32): bv32 {
    var a := z ^ ((z << 7) & 0x9d2c_5680);
    var b := z ^ ((a << 7) & 0x9d2c_5680);
    var c := z ^ ((b << 7) & 0x9d2c_5680);
    z ^ ((c << 7) & 0x9d2c_5680)
  }

  function Untemper(z: bv32): bv32 {
    Untemper1(Untemper2(Temper3(Temper4(z))))
  }

  lemma Fold11(y: bv32)
    ensures (y ^ (y >> 11)) ^ ((y ^ (y >> 11)) >> 11) ^ ((y ^ (y >> 11)) >> 22) == y
  {
  }

  lemma Unfold11(y: bv32)
    ensures Untemper1(y ^ (y >> 11)) == (y ^ (y >> 11)) ^ ((y ^ (y >> 11)) >> 11) ^ ((y ^ (y >> 11)) >> 22)
  {
  }

  lemma Undo1From(y: bv32)
    ensures Untemper1(y ^ (y >> 11)) == y
  {
    Unfold11(y);
    Fold11(y);
  }

  lemma Undo1(y: bv32)
    ensures Untemper1(Temper1(y)) == y
  {
    Undo1From(y);
  }

  lemma Fold22(y: bv32)
    ensures (y ^ (y >> 11) ^ (y >> 22)) ^ ((y ^ (y >> 11) ^ (y >> 22)) >> 11) == y
  {
  }

  lemma Unfold22(y: bv32)
    ensures Temper1(y ^ (y >> 11) ^ (y >> 22))
            == (y ^ (y >> 11) ^ (y >> 22)) ^ ((y ^ (y >> 11) ^ (y >> 22)) >> 11)
  {
  }

  lemma Redo1From(y: bv32)
    ensures Temper1(y ^ (y >> 11) ^ (y >> 22)) == y
  {
    Unfold22(y);
    Fold22(y);
  }

  lemma Redo1(y: bv32)
    ensures Temper1(Untemper1(y)) == y
  {
    Redo1From(y);
  }

  lemma Undo2(y: bv32)
    ensures Untemper2(Temper2(y)) == y && Temper2(Untemper2(y)) == y
  {
  }

  lemma Undo3(y: bv32)
    ensures Temper3(Temper3(y)) == y
  {
  }

  lemma Fold18(y: bv32)
    ensures (y ^ (y >> 18)) ^ ((y ^ (y >> 18)) >> 18) == y
  {
  }

  lemma Unfold18(y: bv32)
    ensures Temper4(y ^ (y >> 18)) == (y ^ (y >> 18)) ^ ((y ^ (y >> 18)) >> 18)
  {
  }

  lemma Undo4From(y: bv32)
    ensures Temper4(y ^ (y >> 18)) == y
  {
    Unfold18(y);
    Fold18(y);
  }

  lemma Undo4(y: bv32)
    ensures Temper4(Temper4(y)) == y
  {
    Undo4From(y);
  }

  /** Tempering is a bijection on 32-bit words. */
  lemma TemperBijective(y: bv32)
    ensures Untemper(Temper(y)) == y && Temper(Untemper(y)) == y
  {
    Undo1(y);
    Undo2(Temper1(y));
    Undo3(Temper2(Temper1(y)));
    Undo4(Temper3(Temper2(Temper1(y))));
    Redo1(Untemper2(Temper3(Temper4(y))));
    Undo2(Temper3(Temper4(y)));
    Undo3(Temper4(y));
    Undo4(y);
  }

  lemma TemperInjective(x: bv32, y: bv32)
    ensures Temper(x) == Temper(y) ==> x == y
  {
    TemperBijective(x);
    TemperBijective(y);
  }

  // ---------- Twisting ----------

  /** A word times the twist matrix. */
  function TimesMatrix(y: bv32): bv32 {
    (y >> 1) ^ (if y & 1 == 0 then 0 else 0x9908_b0df)
  }

  /** The top bit of u and the lower bits of l. */
  function Joined(u: bv32, l: bv32): bv32 {
    (u & 0x8000_0000) | (l & 0x7fff_ffff)
  }

  function Twist(u: bv32, l: bv32): bv32 {
    TimesMatrix(Joined(u, l))
  }

  predicate SameTop(u: bv32, v: bv32) {
    u & 0x8000_0000 == v & 0x8000_0000
  }

  /** One step of the recurrence, run backwards: the new term and the term it was combined
      with give back the old top bit and lower bits. */
  lemma StepBack(u: bv32, l: bv32, v: bv32, m: bv32, mid: bv32)
    requires mid ^ Twist(u, l) == mid ^ Twist(v, m) && SameTop(l, m)
    ensures SameTop(u, v) && l == m
  {
    XorCancel(mid, Twist(u, l), Twist(v, m));
    MatrixInjective(Joined(u, l), Joined(v, m));
    JoinedInjective(u, l, v, m);
  }

  lemma XorCancel(m: bv32, s: bv32, t: bv32)
    requires m ^ s == m ^ t
    ensures s == t
  {
  }

  /** The twist matrix loses nothing of the word it is given. */
  lemma MatrixInjective(y: bv32, z: bv32)
    requires TimesMatrix(y) == TimesMatrix(z)
    ensures y == z
  {
  }

  lemma JoinedInjective(u: bv32, l: bv32, v: bv32, m: bv32)
    requires Joined(u, l) == Joined(v, m) && SameTop(l, m)
    ensures SameTop(u, v) && l == m
  {
  }

  /** The step looks at no more than that. */
  lemma StepForth(u: bv32, v: bv32, l: bv32)
    requires SameTop(u, v)
    ensures Twist(u, l) == Twist(v, l)
  {
    JoinedDepends(u, v, l);
  }

  lemma JoinedDepends(u: bv32, v: bv32, l: bv32)
    requires SameTop(u, v)
    ensures Joined(u, l) == Joined(v, l)
  {
  }

  // ---------- 64-bit carriers ----------

  /** The 64-bit word a holds the 32-bit word b and nothing above it. */
  ghost predicate Wide(a: bv64, b: bv32) {
    a == Up(b)
  }

  /** The low 32 bits of the 64-bit word a are the 32-bit word b. */
  ghost predicate Low(a: bv64, b: bv32) {
    Mask(a) == Up(b)
  }

  // The operations on words, by name.

  function Mask(a: bv64): bv64 {
    a & 0xffff_ffff
  }

  function Up(b: bv32): bv64 {
    b as bv64
  }

  function SumWide(a: bv64, b: bv64): bv64 {
    a + b
  }

  function DifferenceWide(a: bv64, b: bv64): bv64 {
    a - b
  }

  function Trunc(a: bv64): (b: bv32)
    ensures Low(a, b)
  {
    (a & 0xffff_ffff) as bv32
  }

  function Next32(b: bv32): bv32 {
    b + 1
  }

  function Next64(a: bv64): bv64 {
    a + 1
  }

  /** The int i converted to an unsigned word. */
  function OfNat32(i: nat): bv32 {
    if i == 0 then 0 else Next32(OfNat32(i - 1))
  }

  function OfNat64(i: nat): bv64 {
    if i == 0 then 0 else Next64(OfNat64(i - 1))
  }

  lemma LowZero()
    ensures Low(0, 0)
  {
  }

  lemma LowMasked(a: bv64, b: bv32)
    ensures Low(a, b) ==> Wide(a & 0xffff_ffff, b)
  {
  }

  method Masked(x: bv64, ghost r: bv32) returns (m: bv64)
    ensures Low(x, r) ==> Wide(m, r)
  {
    LowMasked(x, r);
    m := x & 0xffff_ffff;
  }

  /** An operation commutes with taking the low half, if it does on masked words and on
      widened ones. */
  lemma Halves(op: (bv64, bv64) -> bv64, half: (bv32, bv32) -> bv32, mask: bv64 -> bv64, up: bv32 -> bv64,
               a: bv64, b: bv32, c: bv64, d: bv32)
    ensures (mask(op(a, c)) == mask(op(mask(a), mask(c))) && mask(op(up(b), up(d))) == up(half(b, d)))
            ==> mask(a) == up(b) && mask(c) == up(d) ==> mask(op(a, c)) == up(half(b, d))
  {
  }

  lemma LowAdd(a: bv64, b: bv32, c: bv64, d: bv32)
    ensures Low(a, b) && Low(c, d) ==> Low(SumWide(a, c), Sum(b, d))
  {
    SumMasked(a, c);
    SumWidened(b, d);
    Halves(SumWide, Sum, Mask, Up, a, b, c, d);
  }

  lemma SumMasked(a: bv64, c: bv64)
    ensures Mask(SumWide(a, c)) == Mask(SumWide(Mask(a), Mask(c)))
  {
    calc {
      Mask(SumWide(a, c));
      (a + c) & 0xffff_ffff;
      { SumBits(a, c); }
      ((a & 0xffff_ffff) + (c & 0xffff_ffff)) & 0xffff_ffff;
      Mask((a & 0xffff_ffff) + (c & 0xffff_ffff));
      Mask(SumWide(a & 0xffff_ffff, c & 0xffff_ffff));
      Mask(SumWide(Mask(a), Mask(c)));
    }
  }

  lemma SumBits(a: bv64, c: bv64)
    ensures (a + c) & 0xffff_ffff == ((a & 0xffff_ffff) + (c & 0xffff_ffff)) & 0xffff_ffff
  {
  }

  lemma SumWidened(b: bv32, d: bv32)
    ensures Mask(SumWide(Up(b), Up(d))) == Up(Sum(b, d))
  {
    calc {
      Mask(SumWide(Up(b), Up(d)));
      Mask(SumWide(b as bv64, d as bv64));
      Mask((b as bv64) + (d as bv64));
      ((b as bv64) + (d as bv64)) & 0xffff_ffff;
      { SumBitsWidened(b, d); }
      (b + d) as bv64;
      Sum(b, d) as bv64;
      Up(Sum(b, d));
    }
  }

  lemma SumBitsWidened(b: bv32, d: bv32)
    ensures ((b as bv64) + (d as bv64)) & 0xffff_ffff == (b + d) as bv64
  {
  }

  lemma LowSub(a: bv64, b: bv32, c: bv64, d: bv32)
    ensures Low(a, b) && Low(c, d) ==> Low(DifferenceWide(a, c), Difference(b, d))
  {
    DifferenceMasked(a, c);
    DifferenceWidened(b, d);
    Halves(DifferenceWide, Difference, Mask, Up, a, b, c, d);
  }

  lemma DifferenceMasked(a: bv64, c: bv64)
    ensures Mask(DifferenceWide(a, c)) == Mask(DifferenceWide(Mask(a), Mask(c)))
  {
    calc {
      Mask(DifferenceWide(a, c));
      (a - c) & 0xffff_ffff;
      { DifferenceBits(a, c); }
      ((a & 0xffff_ffff) - (c & 0xffff_ffff)) & 0xffff_ffff;
      Mask((a & 0xffff_ffff) - (c & 0xffff_ffff));
      Mask(DifferenceWide(a & 0xffff_ffff, c & 0xffff_ffff));
      Mask(DifferenceWide(Mask(a), Mask(c)));
    }
  }

  lemma DifferenceBits(a: bv64, c: bv64)
    ensures (a - c) & 0xffff_ffff == ((a & 0xffff_ffff) - (c & 0xffff_ffff)) & 0xffff_ffff
  {
  }

  lemma DifferenceWidened(b: bv32, d: bv32)
    ensures Mask(DifferenceWide(Up(b), Up(d))) == Up(Difference(b, d))
  {
    calc {
      Mask(DifferenceWide(Up(b), Up(d)));
      Mask(DifferenceWide(b as bv64, d as bv64));
      Mask((b as bv64) - (d as bv64));
      ((b as bv64) - (d as bv64)) & 0xffff_ffff;
      { DifferenceBitsWidened(b, d); }
      (b - d) as bv64;
      Difference(b, d) as bv64;
      Up(Difference(b, d));
    }
  }

  lemma DifferenceBitsWidened(b: bv32, d: bv32)
    ensures ((b as bv64) - (d as bv64)) & 0xffff_ffff == (b - d) as bv64
  {
  }

  lemma LowXor(a: bv64, b: bv32, c: bv64, d: bv32)
    ensures Low(a, b) && Low(c, d) ==> Low(a ^ c, b ^ d)
  {
  }

  lemma LowNext(a: bv64, b: bv32)
    ensures Low(a, b) ==> Low(Next64(a), Next32(b))
  {
  }

  lemma {:induction false} LowOfNat(i: nat)
    ensures Low(OfNat64(i), OfNat32(i))
  {
    if i == 0 {
      LowZero();
    } else {
      LowOfNat(i - 1);
      LowNext(OfNat64(i - 1), OfNat32(i - 1));
    }
  }

  // A word folded and multiplied, as the three seeding loops do it, and on a 64-bit carrier.

  function Fold(y: bv32): bv32 {
    y ^ (y >> 30)
  }

  function FoldWide(a: bv64): bv64 {
    a ^ (a >> 30)
  }

  lemma FoldWidened(y: bv32)
    ensures FoldWide(Up(y)) == Up(Fold(y))
  {
    calc {
      FoldWide(Up(y));
      FoldWide(y as bv64);
      (y as bv64) ^ ((y as bv64) >> 30);
      { FoldBits(y); }
      (y ^ (y >> 30)) as bv64;
      Fold(y) as bv64;
      Up(Fold(y));
    }
  }

  lemma FoldBits(y: bv32)
    ensures (y as bv64) ^ ((y as bv64) >> 30) == (y ^ (y >> 30)) as bv64
  {
  }

  lemma Products(times: bv64 -> bv64, half: bv32 -> bv32, fold: bv64 -> bv64, folded: bv32 -> bv32,
                 mask: bv64 -> bv64, up: bv32 -> bv64, a: bv64, y: bv32)
    ensures (fold(up(y)) == up(folded(y)) && mask(times(up(folded(y)))) == up(half(folded(y))))
            ==> a == up(y) ==> mask(times(fold(a))) == up(half(folded(y)))
  {
  }

  function SeedTimes(y: bv32): bv32 {
    1812433253 * y
  }

  function SeedTimesWide(a: bv64): bv64 {
    1812433253 * a
  }

  lemma SeedTimesWidened(y: bv32)
    ensures Mask(SeedTimesWide(Up(y))) == Up(SeedTimes(y))
  {
    calc {
      Mask(SeedTimesWide(Up(y)));
      Mask(SeedTimesWide(y as bv64));
      Mask(1812433253 * (y as bv64));
      (1812433253 * (y as bv64)) & 0xffff_ffff;
      { SeedTimesBits(y); }
      (1812433253 * y) as bv64;
      SeedTimes(y) as bv64;
      Up(SeedTimes(y));
    }
  }

  lemma SeedTimesBits(y: bv32)
    ensures (1812433253 * (y as bv64)) & 0xffff_ffff == (1812433253 * y) as bv64
  {
  }

  function SeedScaled(y: bv32): bv32 {
    SeedTimes(Fold(y))
  }

  method SeedScaled64(a: bv64, ghost y: bv32) returns (m: bv64)
    ensures Wide(a, y) ==> Low(m, SeedScaled(y))
  {
    m := SeedTimesWide(FoldWide(a));
    FoldWidened(y);
    SeedTimesWidened(Fold(y));
    Products(SeedTimesWide, SeedTimes, FoldWide, Fold, Mask, Up, a, y);
  }

  function KeyTimes(y: bv32): bv32 {
    y * 1664525
  }

  function KeyTimesWide(a: bv64): bv64 {
    a * 1664525
  }

  lemma KeyTimesWidened(y: bv32)
    ensures Mask(KeyTimesWide(Up(y))) == Up(KeyTimes(y))
  {
    calc {
      Mask(KeyTimesWide(Up(y)));
      Mask(KeyTimesWide(y as bv64));
      Mask((y as bv64) * 1664525);
      ((y as bv64) * 1664525) & 0xffff_ffff;
      { KeyTimesBits(y); }
      (y * 1664525) as bv64;
      KeyTimes(y) as bv64;
      Up(KeyTimes(y));
    }
  }

  lemma KeyTimesBits(y: bv32)
    ensures ((y as bv64) * 1664525) & 0xffff_ffff == (y * 1664525) as bv64
  {
  }

  function KeyScaled(y: bv32): bv32 {
    KeyTimes(Fold(y))
  }

  method KeyScaled64(a: bv64, ghost y: bv32) returns (m: bv64)
    ensures Wide(a, y) ==> Low(m, KeyScaled(y))
  {
    m := KeyTimesWide(FoldWide(a));
    FoldWidened(y);
    KeyTimesWidened(Fold(y));
    Products(KeyTimesWide, KeyTimes, FoldWide, Fold, Mask, Up, a, y);
  }

  function IndexTimes(y: bv32): bv32 {
    y * 1566083941
  }

  function IndexTimesWide(a: bv64): bv64 {
    a * 1566083941
  }

  lemma IndexTimesWidened(y: bv32)
    ensures Mask(IndexTimesWide(Up(y))) == Up(IndexTimes(y))
  {
    calc {
      Mask(IndexTimesWide(Up(y)));
      Mask(IndexTimesWide(y as bv64));
      Mask((y as bv64) * 1566083941);
      ((y as bv64) * 1566083941) & 0xffff_ffff;
      { IndexTimesBits(y); }
      (y * 1566083941) as bv64;
      IndexTimes(y) as bv64;
      Up(IndexTimes(y));
    }
  }

  lemma IndexTimesBits(y: bv32)
    ensures ((y as bv64) * 1566083941) & 0xffff_ffff == (y * 1566083941) as bv64
  {
  }

  function IndexScaled(y: bv32): bv32 {
    IndexTimes(Fold(y))
  }

  method IndexScaled64(a: bv64, ghost y: bv32) returns (m: bv64)
    ensures Wide(a, y) ==> Low(m, IndexScaled(y))
  {
    m := IndexTimesWide(FoldWide(a));
    FoldWidened(y);
    IndexTimesWidened(Fold(y));
    Products(IndexTimesWide, IndexTimes, FoldWide, Fold, Mask, Up, a, y);
  }

  // One word of each seeding loop, on 32-bit words and, not yet masked, on 64-bit carriers.

  function Xor(a: bv32, b: bv32): bv32 {
    a ^ b
  }

  function Sum(a: bv32, b: bv32): bv32 {
    a + b
  }

  function Difference(a: bv32, b: bv32): bv32 {
    a - b
  }

  function SeedNext(p: bv32, i: nat): bv32 {
    Sum(SeedScaled(p), OfNat32(i))
  }

  function KeyNext(w: bv32, p: bv32, key: bv32, j: nat): bv32 {
    Sum(Sum(Xor(w, KeyScaled(p)), key), OfNat32(j))
  }

  function IndexNext(w: bv32, p: bv32, i: nat): bv32 {
    Difference(Xor(w, IndexScaled(p)), OfNat32(i))
  }

  method SeedNext64(a: bv64, i: nat, ghost p: bv32) returns (x: bv64)
    ensures Wide(a, p) ==> Low(x, SeedNext(p, i))
  {
    x := SeedScaled64(a, p);
    LowOfNat(i);
    x := Sum64(x, OfNat64(i), SeedScaled(p), OfNat32(i));
  }

  method KeyNext64(a: bv64, previous: bv64, key: bv64, j: nat, ghost w: bv32, ghost p: bv32, ghost k: bv32)
    returns (x: bv64)
    ensures Wide(a, w) && Wide(previous, p) && Low(key, k) ==> Low(x, KeyNext(w, p, k, j))
  {
    x := KeyScaled64(previous, p);
    x := Xor64(a, x, w, KeyScaled(p));
    x := Sum64(x, key, Xor(w, KeyScaled(p)), k);
    LowOfNat(j);
    x := Sum64(x, OfNat64(j), Sum(Xor(w, KeyScaled(p)), k), OfNat32(j));
  }

  method IndexNext64(a: bv64, previous: bv64, i: nat, ghost w: bv32, ghost p: bv32) returns (x: bv64)
    ensures Wide(a, w) && Wide(previous, p) ==> Low(x, IndexNext(w, p, i))
  {
    x := IndexScaled64(previous, p);
    x := Xor64(a, x, w, IndexScaled(p));
    LowOfNat(i);
    x := Difference64(x, OfNat64(i), Xor(w, IndexScaled(p)), OfNat32(i));
  }

  method Xor64(a: bv64, c: bv64, ghost b: bv32, ghost d: bv32) returns (x: bv64)
    ensures Wide(a, b) && Low(c, d) ==> Low(x, Xor(b, d))
  {
    x := a ^ c;
    WideLow(a, b);
    LowXor(a, b, c, d);
  }

  method Sum64(a: bv64, c: bv64, ghost b: bv32, ghost d: bv32) returns (x: bv64)
    ensures Low(a, b) && Low(c, d) ==> Low(x, Sum(b, d))
  {
    x := SumWide(a, c);
    LowAdd(a, b, c, d);
  }

  method Difference64(a: bv64, c: bv64, ghost b: bv32, ghost d: bv32) returns (x: bv64)
    ensures Low(a, b) && Low(c, d) ==> Low(x, Difference(b, d))
  {
    x := DifferenceWide(a, c);
    LowSub(a, b, c, d);
  }

  lemma WideLow(a: bv64, b: bv32)
    ensures Wide(a, b) ==> Low(a, b)
  {
  }

  /** The twist step on 64-bit carriers. */
  lemma TwistStep64(a: bv64, u: bv32, b: bv64, l: bv32, m: bv64, n: bv32)
    ensures Wide(a, u) && Wide(b, l) && Wide(m, n) ==>
              var y := (a & 0x8000_0000) | (b & 0x7fff_ffff);
              Wide(m ^ (y >> 1) ^ (if y & 1 == 0 then 0 else 0x9908_b0df), n ^ Twist(u, l))
  {
    TwistWide(u, l, n);
  }

  lemma TwistWide(u: bv32, l: bv32, n: bv32)
    ensures var y := ((u as bv64) & 0x8000_0000) | ((l as bv64) & 0x7fff_ffff);
            (n as bv64) ^ (y >> 1) ^ (if y & 1 == 0 then 0 else 0x9908_b0df) == (n ^ Twist(u, l)) as bv64
  {
  }

  // Tempering on 64-bit carriers, line by line.

  function Line1(a: bv64): bv64 {
    a ^ (a >> 11)
  }

  function Line2(a: bv64): bv64 {
    a ^ ((a << 7) & 0x9d2c_5680)
  }

  function Line3(a: bv64): bv64 {
    a ^ ((a << 15) & 0xefc6_0000)
  }

  function Line4(a: bv64): bv64 {
    a ^ (a >> 18)
  }

  lemma Bits1(y: bv32, t: bv32)
    ensures t == y ^ (y >> 11) ==> Line1(y as bv64) == t as bv64
  {
  }

  lemma Named1(y: bv32)
    ensures Line1(y as bv64) == Temper1(y) as bv64
  {
    Bits1(y, Temper1(y));
  }

  lemma Widened1(y: bv32)
    ensures Line1(Up(y)) == Up(Temper1(y))
  {
    Named1(y);
  }

  lemma Carry1(a: bv64, y: bv32)
    ensures Wide(a, y) ==> Wide(Line1(a), Temper1(y))
  {
    Widened1(y);
  }

  lemma Bits2(y: bv32, t: bv32)
    ensures t == y ^ ((y << 7) & 0x9d2c_5680) ==> Line2(y as bv64) == t as bv64
  {
  }

  lemma Named2(y: bv32)
    ensures Line2(y as bv64) == Temper2(y) as bv64
  {
    Bits2(y, Temper2(y));
  }

  lemma Widened2(y: bv32)
    ensures Line2(Up(y)) == Up(Temper2(y))
  {
    Named2(y);
  }

  lemma Carry2(a: bv64, y: bv32)
    ensures Wide(a, y) ==> Wide(Line2(a), Temper2(y))
  {
    Widened2(y);
  }

  lemma Bits3(y: bv32, t: bv32)
    ensures t == y ^ ((y << 15) & 0xefc6_0000) ==> Line3(y as bv64) == t as bv64
  {
  }

  lemma Named3(y: bv32)
    ensures Line3(y as bv64) == Temper3(y) as bv64
  {
    Bits3(y, Temper3(y));
  }

  lemma Widened3(y: bv32)
    ensures Line3(Up(y)) == Up(Temper3(y))
  {
    Named3(y);
  }

  lemma Carry3(a: bv64, y: bv32)
    ensures Wide(a, y) ==> Wide(Line3(a), Temper3(y))
  {
    Widened3(y);
  }

  lemma Bits4(y: bv32, t: bv32)
    ensures t == y ^ (y >> 18) ==> Line4(y as bv64) == t as bv64
  {
  }

  lemma Named4(y: bv32)
    ensures Line4(y as bv64) == Temper4(y) as bv64
  {
    Bits4(y, Temper4(y));
  }

  lemma Widened4(y: bv32)
    ensures Line4(Up(y)) == Up(Temper4(y))
  {
    Named4(y);
  }

  lemma Carry4(a: bv64, y: bv32)
    ensures Wide(a, y) ==> Wide(Line4(a), Temper4(y))
  {
    Widened4(y);
  }

  lemma TemperCarry(a: bv64, y: bv32)
    ensures Wide(a, y) ==> Wide(Line4(Line3(Line2(Line1(a)))), Temper(y))
  {
    Carry1(a, y);
    Carry2(Line1(a), Temper1(y));
    Carry3(Line2(Line1(a)), Temper2(Temper1(y)));
    Carry4(Line3(Line2(Line1(a))), Temper3(Temper2(Temper1(y))));
  }

  lemma TruncSmall()
    ensures Trunc(5489) == 5489 && Trunc(19650218) == 19650218
  {
  }
}
