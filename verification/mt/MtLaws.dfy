/** The recurrence and the three seeding loops, with every number written out. */
module MtLaws {
  import opened Arithmetic

  import opened MtWords
  import opened MtRecurrence

  // ---------- Words ----------

  lemma SeedScaledIs(p: bv32)
    ensures SeedScaled(p) == 1812433253 * (p ^ (p >> 30))
  {
    calc {
      SeedScaled(p);
      SeedTimes(Fold(p));
      SeedTimes(p ^ (p >> 30));
      1812433253 * (p ^ (p >> 30));
    }
  }

  lemma KeyScaledIs(p: bv32)
    ensures KeyScaled(p) == (p ^ (p >> 30)) * 1664525
  {
    calc {
      KeyScaled(p);
      KeyTimes(Fold(p));
      KeyTimes(p ^ (p >> 30));
      (p ^ (p >> 30)) * 1664525;
    }
  }

  lemma IndexScaledIs(p: bv32)
    ensures IndexScaled(p) == (p ^ (p >> 30)) * 1566083941
  {
    calc {
      IndexScaled(p);
      IndexTimes(Fold(p));
      IndexTimes(p ^ (p >> 30));
      (p ^ (p >> 30)) * 1566083941;
    }
  }

  // ---------- The recurrence ----------

  /** The new word r: the top bit of one word and the lower bits of the next, times the matrix,
      combined with a third word. */
  ghost predicate Twisted(upper: bv32, lower: bv32, mid: bv32, r: bv32) {
    var y := (upper & 0x8000_0000) | (lower & 0x7fff_ffff);
    r == mid ^ (y >> 1) ^ (if y & 1 == 0 then 0 else 0x9908_b0df)
  }

  lemma NextInNumbers(u: bv32, l: bv32, mid: bv32, r: bv32)
    ensures IsNext(u, l, mid, r) ==> Twisted(u, l, mid, r)
  {
    calc {
      mid ^ Twist(u, l);
      mid ^ TimesMatrix(Joined(u, l));
      mid ^ TimesMatrix((u & 0x8000_0000) | (l & 0x7fff_ffff));
      { XorInNumbers(mid, (u & 0x8000_0000) | (l & 0x7fff_ffff)); }
      var y := (u & 0x8000_0000) | (l & 0x7fff_ffff);
      mid ^ (y >> 1) ^ (if y & 1 == 0 then 0 else 0x9908_b0df);
    }
  }

  lemma XorInNumbers(mid: bv32, y: bv32)
    ensures mid ^ TimesMatrix(y) == mid ^ (y >> 1) ^ (if y & 1 == 0 then 0 else 0x9908_b0df)
  {
  }

  /** Every term comes from those 624, 623 and 227 places back. */
  lemma TermInNumbers(seed: seq<bv32>, n: nat)
    requires |seed| == 624
    ensures n < 624 ==> X(seed, n) == seed[n]
    ensures Twisted(X(seed, n), X(seed, n + 1), X(seed, n + 397), X(seed, n + 624))
  {
    NextTerm(seed, n);
    NextInNumbers(X(seed, n), X(seed, n + 1), X(seed, n + 397), X(seed, n + 624));
  }

  /** One refill, word by word: from old words, and from word 227 on from a new one. */
  lemma RefillInNumbers(seed: seq<bv32>, base: nat, k: nat)
    requires |seed| == 624 && k < 624
    ensures var w, v := StateAt(seed, base), StateAt(seed, base + 624);
            Twisted(w[k], if k < 623 then w[k + 1] else v[0], if k < 227 then w[k + 397] else v[k - 227], v[k])
  {
    TermInNumbers(seed, base + k);
  }

  /** What becomes of a term before it is handed out, in four lines. */
  lemma TemperInNumbers(y: bv32, a: bv32, b: bv32, c: bv32, d: bv32)
    ensures a == y ^ (y >> 11) && b == a ^ ((a << 7) & 0x9d2c_5680) && c == b ^ ((b << 15) & 0xefc6_0000)
            && d == c ^ (c >> 18)
            ==> Temper(y) == d
  {
    Tempered1(y, a);
    Tempered2(a, b);
    Tempered3(b, c);
    Tempered4(c, d);
  }

  lemma Tempered1(y: bv32, a: bv32)
    ensures a == y ^ (y >> 11) ==> Temper1(y) == a
  {
  }

  lemma Tempered2(a: bv32, b: bv32)
    ensures b == a ^ ((a << 7) & 0x9d2c_5680) ==> Temper2(a) == b
  {
  }

  lemma Tempered3(b: bv32, c: bv32)
    ensures c == b ^ ((b << 15) & 0xefc6_0000) ==> Temper3(b) == c
  {
  }

  lemma Tempered4(c: bv32, d: bv32)
    ensures d == c ^ (c >> 18) ==> Temper4(c) == d
  {
  }

  // ---------- The words of a position ----------

  function Double(b: bv32): bv32 {
    b << 1
  }

  function DoubleOne(b: bv32): bv32 {
    (b << 1) | 1
  }

  /** The word of an int has its binary digits, the least significant ones. */
  lemma {:induction false} OfNatDigits(i: nat)
    ensures OfNat32(2 * i) == Double(OfNat32(i)) && OfNat32(2 * i + 1) == DoubleOne(OfNat32(i))
  {
    NextOfDouble(OfNat32(i));
    if i == 0 {
      DoubleZero();
    } else {
      OfNatDigits(i - 1);
      assert OfNat32(2 * i) == Next32(OfNat32(2 * (i - 1) + 1));
      NextOfDoubleOne(OfNat32(i - 1));
    }
  }

  lemma DoubleZero()
    ensures Double(0) == 0
  {
  }

  lemma NextOfDouble(b: bv32)
    ensures Next32(Double(b)) == DoubleOne(b)
  {
    calc {
      Next32(Double(b));
      Next32(b << 1);
      (b << 1) + 1;
      (b << 1) | 1;
      DoubleOne(b);
    }
  }

  lemma NextOfDoubleOne(b: bv32)
    ensures Next32(DoubleOne(b)) == Double(Next32(b))
  {
    calc {
      Next32(DoubleOne(b));
      Next32((b << 1) | 1);
      ((b << 1) | 1) + 1;
      (b + 1) << 1;
      Double(b + 1);
      Double(Next32(b));
    }
  }

  // ---------- Seeding ----------

  /** The word r that init_genrand makes of the word p before it, at position n. */
  ghost predicate Seeded(p: bv32, n: bv32, r: bv32) {
    r == (1812433253 * (p ^ (p >> 30))) + n
  }

  /** The same for the first loop of init_by_array: the word that was there was w, the word of
      the key is k, at position n. */
  ghost predicate Keyed(w: bv32, p: bv32, k: bv32, n: bv32, r: bv32) {
    r == ((w ^ ((p ^ (p >> 30)) * 1664525)) + k) + n
  }

  /** The same for its second loop. */
  ghost predicate Indexed(w: bv32, p: bv32, n: bv32, r: bv32) {
    r == (w ^ ((p ^ (p >> 30)) * 1566083941)) - n
  }

  lemma SeedNextIs(p: bv32, i: nat, n: bv32)
    ensures n == OfNat32(i) ==> Seeded(p, n, SeedNext(p, i))
  {
    calc {
      Sum(SeedScaled(p), n);
      { SeedScaledIs(p); }
      Sum(1812433253 * (p ^ (p >> 30)), n);
      (1812433253 * (p ^ (p >> 30))) + n;
    }
  }

  lemma KeyNextIs(w: bv32, p: bv32, k: bv32, j: nat, n: bv32)
    ensures n == OfNat32(j) ==> Keyed(w, p, k, n, KeyNext(w, p, k, j))
  {
    calc {
      Sum(Sum(Xor(w, KeyScaled(p)), k), n);
      { KeyScaledIs(p); }
      Sum(Sum(Xor(w, (p ^ (p >> 30)) * 1664525), k), n);
      Sum(Sum(w ^ ((p ^ (p >> 30)) * 1664525), k), n);
      Sum((w ^ ((p ^ (p >> 30)) * 1664525)) + k, n);
      ((w ^ ((p ^ (p >> 30)) * 1664525)) + k) + n;
    }
  }

  lemma IndexNextIs(w: bv32, p: bv32, i: nat, n: bv32)
    ensures n == OfNat32(i) ==> Indexed(w, p, n, IndexNext(w, p, i))
  {
    calc {
      Difference(Xor(w, IndexScaled(p)), n);
      { IndexScaledIs(p); }
      Difference(Xor(w, (p ^ (p >> 30)) * 1566083941), n);
      Difference(w ^ ((p ^ (p >> 30)) * 1566083941), n);
      (w ^ ((p ^ (p >> 30)) * 1566083941)) - n;
    }
  }

  lemma SeedInNumbers(s: bv32, i: nat)
    requires 1 <= i < 624
    ensures SeedState(s)[0] == s && Seeded(SeedState(s)[i - 1], OfNat32(i), SeedState(s)[i])
  {
    SeedNextIs(SeedWord(s, i - 1), i, OfNat32(i));
  }

  /** Only the word at i changes and, when i is 623, word 0, to the same. */
  ghost predicate OnlyStored(w: seq<bv32>, v: seq<bv32>, i: nat) {
    && |w| == |v| == 624
    && (i == 623 ==> v[0] == v[623])
    && forall k :: 0 <= k < 624 && k != i && !(k == 0 && i == 623) ==> v[k] == w[k]
  }

  lemma StoredOnly(w: seq<bv32>, i: nat, r: bv32)
    requires |w| == 624 && 1 <= i < 624
    ensures Stored(w, i, r)[i] == r && OnlyStored(w, Stored(w, i, r), i)
  {
  }

  /** From w to v by turn t of the first loop, which stores at word 1 + t % 623. */
  ghost predicate KeyTurned(w: seq<bv32>, v: seq<bv32>, key: seq<bv32>, t: nat)
    requires key != []
  {
    var i, j := 1 + t % 623, t % |key|;
    OnlyStored(w, v, i) && Keyed(w[i], w[i - 1], key[j], OfNat32(j), v[i])
  }

  /** The same for turn t when it is one of the second loop. */
  ghost predicate IndexTurned(w: seq<bv32>, v: seq<bv32>, t: nat) {
    var i := 1 + t % 623;
    OnlyStored(w, v, i) && Indexed(w[i], w[i - 1], OfNat32(i), v[i])
  }

  lemma KeyTurnInNumbers(w: seq<bv32>, key: seq<bv32>, t: nat)
    requires |w| == 624 && key != []
    ensures KeyTurned(w, KeyTurn(w, key, t), key, t)
  {
    var i, j := 1 + t % 623, t % |key|;
    KeyNextIs(w[i], w[i - 1], key[j], j, OfNat32(j));
    StoredOnly(w, i, KeyWord(w, key, i, j));
  }

  lemma IndexTurnInNumbers(w: seq<bv32>, t: nat)
    requires |w| == 624
    ensures IndexTurned(w, IndexTurn(w, t), t)
  {
    var i := 1 + t % 623;
    IndexNextIs(w[i], w[i - 1], i, OfNat32(i));
    StoredOnly(w, i, IndexWord(w, i));
  }

  /** The first loop starts from the state of seed 19650218. */
  lemma FirstLoopInNumbers(key: seq<bv32>, t: nat)
    requires key != []
    ensures KeyAfter(key, 0) == SeedState(19650218)
    ensures KeyTurned(KeyAfter(key, t), KeyAfter(key, t + 1), key, t)
  {
    KeyTurnInNumbers(KeyAfter(key, t), key, t);
  }

  /** The first loop takes 624 turns, or as many as the key has words; the second one goes on. */
  lemma SecondLoopStart(key: seq<bv32>)
    requires key != []
    ensures KeyTurns(key) == if |key| < 624 then 624 else |key|
    ensures IndexAfter(key, 0) == KeyAfter(key, KeyTurns(key))
  {
  }

  lemma SecondLoopInNumbers(key: seq<bv32>, t: nat)
    requires key != []
    ensures IndexTurned(IndexAfter(key, t), IndexAfter(key, t + 1), KeyTurns(key) + t)
  {
    IndexTurnInNumbers(IndexAfter(key, t), KeyTurns(key) + t);
  }

  /** After 623 turns of it, word 0 is set. */
  lemma KeyStateInNumbers(key: seq<bv32>, k: nat)
    requires key != [] && k < 624
    ensures KeyState(key)[k] == if k == 0 then 0x8000_0000 else IndexAfter(key, 623)[k]
  {
  }

  /** Keys that first differ at word d give the same state up to the turn that reads it, and
      another word in that turn. */
  lemma KeysTellApart(a: seq<bv32>, b: seq<bv32>, d: nat)
    requires |a| == |b| && d < |a| && a[..d] == b[..d] && a[d] != b[d]
    ensures KeyAfter(a, d) == KeyAfter(b, d)
    ensures KeyAfter(a, d + 1)[1 + d % 623] != KeyAfter(b, d + 1)[1 + d % 623]
  {
    SamePrefix(a, b, d);
    OtherWord(KeyAfter(a, d), a, b, d);
  }

  lemma {:induction false} SamePrefix(a: seq<bv32>, b: seq<bv32>, d: nat)
    requires |a| == |b| && d < |a| && a[..d] == b[..d]
    ensures KeyAfter(a, d) == KeyAfter(b, d)
  {
    if d == 0 {
    } else {
      assert a[..d - 1] == a[..d][..d - 1] == b[..d][..d - 1] == b[..d - 1];
      assert a[d - 1] == a[..d][d - 1] == b[..d][d - 1] == b[d - 1];
      SmallMod(d - 1, |a|);
      SamePrefix(a, b, d - 1);
      SameTurn(KeyAfter(a, d - 1), a, b, d - 1);
    }
  }

  lemma SameTurn(w: seq<bv32>, a: seq<bv32>, b: seq<bv32>, d: nat)
    requires |w| == 624 && |a| == |b| && d < |a| && d % |a| == d && a[d] == b[d]
    ensures KeyTurn(w, a, d) == KeyTurn(w, b, d)
  {
  }

  lemma OtherWord(w: seq<bv32>, a: seq<bv32>, b: seq<bv32>, d: nat)
    requires |w| == 624 && |a| == |b| && d < |a| && a[d] != b[d]
    ensures KeyTurn(w, a, d)[1 + d % 623] != KeyTurn(w, b, d)[1 + d % 623]
  {
    var i := 1 + d % 623;
    SmallMod(d, |a|);
    StoredOnly(w, i, KeyWord(w, a, i, d));
    StoredOnly(w, i, KeyWord(w, b, i, d));
    KeyMatters(w[i], w[i - 1], a[d], b[d], d);
  }

  lemma SmallMod(d: nat, n: nat)
    requires d < n
    ensures d % n == d
  {
    QuotientUnique(d, n, 0, d);
  }

  lemma KeyMatters(w: bv32, p: bv32, k: bv32, l: bv32, j: nat)
    ensures KeyNext(w, p, k, j) == KeyNext(w, p, l, j) ==> k == l
  {
    Removed(Xor(w, KeyScaled(p)), k, OfNat32(j));
    Removed(Xor(w, KeyScaled(p)), l, OfNat32(j));
  }

  lemma Removed(x: bv32, k: bv32, n: bv32)
    ensures Difference(Difference(Sum(Sum(x, k), n), n), x) == k
  {
    calc {
      Difference(Difference(Sum(Sum(x, k), n), n), x);
      Difference(Difference(Sum(x + k, n), n), x);
      Difference(Difference(x + k + n, n), x);
      Difference(x + k + n - n, x);
      x + k + n - n - x;
      k;
    }
  }
}
