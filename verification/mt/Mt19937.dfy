/** MT19937 as the C code keeps it: an array of 64-bit words and a position, updated in place. */
module Mt19937 {
  import opened Arithmetic

  import opened MtWords
  import opened MtRecurrence

  /** The first n of the 64-bit words hold the 32-bit words of w, and nothing above them. */
  ghost predicate Carries(c: seq<bv64>, w: seq<bv32>, n: nat := N) {
    |c| == |w| == N && n <= N && forall k {:trigger Carried(c, w, k)} :: 0 <= k < n ==> Carried(c, w, k)
  }

  ghost predicate Carried(c: seq<bv64>, w: seq<bv32>, k: nat)
    requires |c| == |w| && k < |c|
  {
    Wide(c[k], w[k])
  }

  /** Word k of the next N words v, from words k, k + 1 and k + M of the current ones w,
      some of which are next ones already. */
  ghost predicate Followed(w: seq<bv32>, v: seq<bv32>, k: nat)
    requires |w| == N && |v| == N && k < N
  {
    IsNext(w[k], if k + 1 < N then w[k + 1] else v[0], if k + M < N then w[k + M] else v[k + M - N], v[k])
  }

  ghost predicate Follows(w: seq<bv32>, v: seq<bv32>) {
    |w| == N && |v| == N && forall k {:trigger Followed(w, v, k)} :: 0 <= k < N ==> Followed(w, v, k)
  }

  lemma StatesFollow(seed: seq<bv32>, base: nat, w: seq<bv32>, v: seq<bv32>)
    requires |seed| == N && w == StateAt(seed, base) && v == StateAt(seed, base + N)
    ensures Follows(w, v)
  {
    forall k: nat | k < N ensures Followed(w, v, k) {
      StateFollows(seed, base, w, v, k);
    }
  }

  lemma StateFollows(seed: seq<bv32>, base: nat, w: seq<bv32>, v: seq<bv32>, k: nat)
    requires |seed| == N && w == StateAt(seed, base) && v == StateAt(seed, base + N) && k < N
    ensures Followed(w, v, k)
  {
    NextTerm(seed, base + k);
    InState(seed, base, w, v, k);
    InState(seed, base, w, v, k + 1);
    InState(seed, base, w, v, k + M);
    InState(seed, base, w, v, k + N);
  }

  /** Where two states in a row hold term `base + k`. */
  lemma InState(seed: seq<bv32>, base: nat, w: seq<bv32>, v: seq<bv32>, k: nat)
    requires |seed| == N && w == StateAt(seed, base) && v == StateAt(seed, base + N) && k < N + N
    ensures X(seed, base + k) == if k < N then w[k] else v[k - N]
  {
  }

  /** The first k words are next ones, the others current ones. */
  ghost function Mixed(w: seq<bv32>, v: seq<bv32>, k: nat): (c: seq<bv32>)
    requires |w| == N && |v| == N && k <= N
    ensures |c| == N
  {
    v[..k] + w[k..]
  }

  lemma MixedNext(w: seq<bv32>, v: seq<bv32>, k: nat)
    requires |w| == N && |v| == N && k < N
    ensures Mixed(w, v, k)[k := v[k]] == Mixed(w, v, k + 1)
  {
  }

  class MersenneTwister {
    const mt: array<bv64>
    var mti: nat             // next word to hand out; N + 1 while mt is not initialised
    ghost var seed: seq<bv32>    // the state as it was seeded
    ghost var base: nat          // mt holds terms base to base + N - 1

    ghost predicate Valid()
      reads this, mt
    {
      && mt.Length == N && mti <= N + 1
      && (mti <= N ==> |seed| == N && !IsZero(seed) && Carries(mt[..], StateAt(seed, base)))
    }

    /** Number of the next term to come out. */
    ghost function Position(): nat
      reads this
    {
      base + mti
    }

    constructor ()
      ensures Valid() && mti == N + 1
    {
      mt := new bv64[N](_ => 0);
      mti := N + 1;
      seed, base := [], 0;
    }

    /** genrand_int32, the part that makes N words at a time: each is computed in place, from
        words some of which have been replaced already. */
    method Refill()
      requires Valid() && mti == N
      modifies this`mti, this`base, mt
      ensures Valid() && mti == 0 && base == old(base) + N
    {
      ghost var w, v := StateAt(seed, base), StateAt(seed, base + N);
      StatesFollow(seed, base, w, v);
      Twists(w, v);
      mti := 0;
      base := base + N;
    }

    method Twists(ghost w: seq<bv32>, ghost v: seq<bv32>)
      requires mt.Length == N && Follows(w, v) && Carries(mt[..], w)
      modifies mt
      ensures Carries(mt[..], v)
    {
      var kk := 0;
      assert Mixed(w, v, 0) == w;
      while kk < N - M
        invariant kk <= N - M && Carries(mt[..], Mixed(w, v, kk))
      {
        assert Followed(w, v, kk);
        MixedNext(w, v, kk);
        Step(kk, kk + 1, kk + M, Mixed(w, v, kk), v[kk]);
        kk := kk + 1;
      }
      while kk < N - 1
        invariant N - M <= kk <= N - 1 && Carries(mt[..], Mixed(w, v, kk))
      {
        assert Followed(w, v, kk);
        MixedNext(w, v, kk);
        Step(kk, kk + 1, kk + M - N, Mixed(w, v, kk), v[kk]);
        kk := kk + 1;
      }
      assert Followed(w, v, N - 1);
      MixedNext(w, v, N - 1);
      Step(N - 1, 0, M - 1, Mixed(w, v, N - 1), v[N - 1]);
      assert Mixed(w, v, N) == v;
    }

    /** Word i becomes word m combined with the twist of words i and j. */
    method Step(i: nat, j: nat, m: nat, ghost c: seq<bv32>, ghost r: bv32)
      requires mt.Length == N && i < N && j < N && m < N
      requires Carries(mt[..], c)
      requires IsNext(c[i], c[j], c[m], r)
      modifies mt
      ensures Carries(mt[..], c[i := r])
    {
      var x := NewWord(i, j, m, c, r);
      Put(i, x, c, r);
    }

    method NewWord(i: nat, j: nat, m: nat, ghost c: seq<bv32>, ghost r: bv32) returns (x: bv64)
      requires mt.Length == N && i < N && j < N && m < N
      requires Carries(mt[..], c)
      requires IsNext(c[i], c[j], c[m], r)
      ensures Wide(x, r)
    {
      assert Carried(mt[..], c, i) && Carried(mt[..], c, j) && Carried(mt[..], c, m);
      x := Combine(mt[i], mt[j], mt[m], c[i], c[j], c[m]);
    }

    static method Combine(upper: bv64, lower: bv64, mid: bv64, ghost u: bv32, ghost l: bv32, ghost n: bv32)
      returns (x: bv64)
      ensures Wide(upper, u) && Wide(lower, l) && Wide(mid, n) ==> Wide(x, n ^ Twist(u, l))
    {
      var y := (upper & 0x8000_0000) | (lower & 0x7fff_ffff);
      x := mid ^ (y >> 1) ^ (if y & 1 == 0 then 0 else 0x9908_b0df);
      TwistStep64(upper, u, lower, l, mid, n);
    }

    method Put(i: nat, x: bv64, ghost c: seq<bv32>, ghost r: bv32, ghost n: nat := N)
      requires mt.Length == N && i < N
      requires Carries(mt[..], c, n) && Wide(x, r)
      modifies mt
      ensures mt[..] == old(mt[..])[i := x] && Carries(mt[..], c[i := r], if i == n then n + 1 else n)
    {
      ghost var was := mt[..];
      mt[i] := x;
      CarriesPut(was, c, n, i, x, r);
      assert mt[..] == was[i := x];
    }

    /** init_genrand. */
    method InitGenrand(s: bv64)
      requires mt.Length == N
      modifies this, mt
      ensures Valid() && mti == N && base == 0 && seed == SeedState(Trunc(s))
    {
      ghost var w := SeedState(Trunc(s));
      var x := Masked(s, w[0]);
      Put(0, x, w, w[0], 0);
      assert w[0 := w[0]] == w;
      mti := 1;
      while mti < N
        invariant 1 <= mti <= N && Carries(mt[..], w, mti)
      {
        SeedWordAt(mti, w);
        mti := mti + 1;
      }
      seed, base := w, 0;
      SeedStateNotZero(Trunc(s));
      StateStart(w);
    }

    method SeedWordAt(i: nat, ghost w: seq<bv32>)
      requires mt.Length == N && 1 <= i < N && Carries(mt[..], w, i) && w[i] == SeedNext(w[i - 1], i)
      modifies mt
      ensures Carries(mt[..], w, i + 1)
    {
      assert Carried(mt[..], w, i - 1);
      var x := SeedNext64(mt[i - 1], i, w[i - 1]);
      x := Masked(x, w[i]);
      Put(i, x, w, w[i], i);
      assert w[i := w[i]] == w;
    }

    /** init_by_array. */
    method InitByArray(initKey: array<bv64>)
      requires mt.Length == N && initKey.Length > 0 && initKey != mt
      modifies this, mt
      ensures Valid() && mti == N && base == 0 && seed == KeyState(Truncs(initKey[..]))
    {
      ghost var key := Truncs(initKey[..]);
      InitGenrand(19650218);
      TruncSmall();
      StateStart(seed);
      var i := KeyLoop(initKey, key);
      IndexLoop(i, key);
      SetTop(key);
    }

    method SetTop(ghost key: seq<bv32>)
      requires mt.Length == N && mti == N && base == 0 && key != [] && Carries(mt[..], IndexAfter(key, N - 1))
      modifies this`seed, mt
      ensures Valid() && seed == KeyState(key)
    {
      ghost var c := IndexAfter(key, N - 1);
      Put(0, 0x8000_0000, c, 0x8000_0000);
      seed := KeyState(key);
      KeyStateNotZero(key);
      StateStart(seed);
    }

    method KeyLoop(initKey: array<bv64>, ghost key: seq<bv32>) returns (i: nat)
      requires mt.Length == N && initKey.Length > 0 && initKey != mt
      requires key == Truncs(initKey[..]) && Carries(mt[..], SeedState(19650218))
      modifies mt
      ensures i == Slot(KeyTurns(key)) && Carries(mt[..], KeyAfter(key, KeyTurns(key)))
    {
      var j: nat, k: nat := 0, if N > initKey.Length then N else initKey.Length;
      ghost var t: nat := 0;
      i := 1;
      while k > 0
        invariant t + k == KeyTurns(key) && i == Slot(t) && j == t % |key|
        invariant key == Truncs(initKey[..]) && Carries(mt[..], KeyAfter(key, t))
      {
        i, j := KeyStep(initKey, i, j, key, t, KeyAfter(key, t));
        k := k - 1;
        t := t + 1;
      }
    }

    /** One turn of the first loop. */
    method KeyStep(initKey: array<bv64>, i: nat, j: nat, ghost key: seq<bv32>, ghost t: nat, ghost c: seq<bv32>)
      returns (p: nat, q: nat)
      requires mt.Length == N && initKey.Length > 0 && initKey != mt && key == Truncs(initKey[..])
      requires i == Slot(t) && j == t % |key| && Carries(mt[..], c)
      modifies mt
      ensures p == Slot(t + 1) && q == (t + 1) % |key| && Carries(mt[..], KeyTurn(c, key, t))
    {
      KeyStore(initKey, i, j, c, key);
      NextMod(t, N - 1);
      NextMod(t, |key|);
      p := if i + 1 >= N then 1 else i + 1;
      q := if j + 1 >= initKey.Length then 0 else j + 1;
    }

    method KeyStore(initKey: array<bv64>, i: nat, j: nat, ghost c: seq<bv32>, ghost key: seq<bv32>)
      requires mt.Length == N && 1 <= i < N && j < initKey.Length && initKey != mt
      requires Carries(mt[..], c) && key == Truncs(initKey[..])
      modifies mt
      ensures Carries(mt[..], Stored(c, i, KeyWord(c, key, i, j)))
    {
      assert Carried(mt[..], c, i) && Carried(mt[..], c, i - 1);
      ghost var r := KeyWord(c, key, i, j);
      var x := KeyNext64(mt[i], mt[i - 1], initKey[j], j, c[i], c[i - 1], key[j]);
      x := Masked(x, r);
      Store(i, x, c, r);
    }

    method IndexLoop(start: nat, ghost key: seq<bv32>)
      requires mt.Length == N && key != [] && start == Slot(KeyTurns(key))
      requires Carries(mt[..], KeyAfter(key, KeyTurns(key)))
      modifies mt
      ensures Carries(mt[..], IndexAfter(key, N - 1))
    {
      var i: nat, k: nat := start, N - 1;
      ghost var t: nat := 0;
      while k > 0
        invariant t + k == N - 1 && i == Slot(KeyTurns(key) + t) && Carries(mt[..], IndexAfter(key, t))
      {
        i := IndexStep(i, KeyTurns(key) + t, IndexAfter(key, t));
        k := k - 1;
        t := t + 1;
      }
    }

    /** One turn of the second loop. */
    method IndexStep(i: nat, ghost t: nat, ghost c: seq<bv32>) returns (p: nat)
      requires mt.Length == N && i == Slot(t) && Carries(mt[..], c)
      modifies mt
      ensures p == Slot(t + 1) && Carries(mt[..], IndexTurn(c, t))
    {
      assert Carried(mt[..], c, i) && Carried(mt[..], c, i - 1);
      ghost var r := IndexWord(c, i);
      var x := IndexNext64(mt[i], mt[i - 1], i, c[i], c[i - 1]);
      x := Masked(x, r);
      Store(i, x, c, r);
      NextMod(t, N - 1);
      p := if i + 1 >= N then 1 else i + 1;
    }

    /** Word i, and word 0 too when i is the last. */
    method Store(i: nat, x: bv64, ghost c: seq<bv32>, ghost r: bv32)
      requires mt.Length == N && 1 <= i < N && Carries(mt[..], c) && Wide(x, r)
      modifies mt
      ensures Carries(mt[..], Stored(c, i, r))
    {
      Put(i, x, c, r);
      if i + 1 >= N {
        Put(0, mt[N - 1], c[i := r], r);
      }
    }

    /** genrand_int32. */
    method GenrandInt32() returns (y: bv64)
      requires Valid()
      modifies this, mt
      ensures Valid() && mti <= N
      ensures seed == if old(mti) == N + 1 then SeedState(5489) else old(seed)
      ensures Position() == (if old(mti) == N + 1 then N else old(Position())) + 1
      ensures Wide(y, Temper(X(seed, Position() - 1)))
    {
      if mti >= N {
        Renew();
      }
      ghost var x := X(seed, Position());
      y := Word(mti, x);
      mti := mti + 1;
      TemperCarry(y, x);
      y := Line1(y);
      y := Line2(y);
      y := Line3(y);
      y := Line4(y);
    }

    /** N new words, of the default seed if there is none. */
    method Renew()
      requires Valid() && mti >= N
      modifies this, mt
      ensures Valid() && mti == 0
      ensures seed == if old(mti) == N + 1 then SeedState(5489) else old(seed)
      ensures base == (if old(mti) == N + 1 then 0 else old(base)) + N
    {
      if mti == N + 1 {
        InitGenrand(5489);
        TruncSmall();
      }
      Refill();
    }

    method Word(i: nat, ghost x: bv32) returns (y: bv64)
      requires Valid() && mti <= N && i < N && x == X(seed, base + i)
      ensures Wide(y, x)
    {
      assert Carried(mt[..], StateAt(seed, base), i);
      y := mt[i];
    }

    /** However much has been drawn, the array is never all zero in the bits that matter. */
    lemma ArrayNotZero()
      requires Valid() && mti <= N
      ensures mt[0] & 0x8000_0000 != 0 || exists k :: 1 <= k < N && mt[k] != 0
    {
      NeverZero(seed, base);
      if forall k :: 1 <= k < N ==> mt[k] == 0 {
        TopNotZero(mt[..], StateAt(seed, base));
      }
    }
  }

  lemma TopNotZero(c: seq<bv64>, w: seq<bv32>)
    requires Carries(c, w) && !IsZero(w) && forall k :: 1 <= k < N ==> c[k] == 0
    ensures c[0] & 0x8000_0000 != 0
  {
    forall k | 0 <= k < N - 1 ensures w[1..][k] == Zeros()[1..][k] {
      assert Carried(c, w, k + 1);
      OnlyZero(w[k + 1]);
    }
    assert Carried(c, w, 0);
    TopBit(w[0]);
  }

  lemma OnlyZero(b: bv32)
    ensures b as bv64 == 0 ==> b == 0
  {
  }

  lemma TopBit(b: bv32)
    ensures !SameTop(b, 0) ==> (b as bv64) & 0x8000_0000 != 0
  {
  }

  /** The low 32 bits of each word of a key. */
  ghost function Truncs(key: seq<bv64>): (r: seq<bv32>)
    ensures |r| == |key| && forall j :: 0 <= j < |key| ==> r[j] == Trunc(key[j])
  {
    seq(|key|, j requires 0 <= j < |key| => Trunc(key[j]))
  }

  lemma CarriesPut(was: seq<bv64>, c: seq<bv32>, n: nat, i: nat, x: bv64, r: bv32)
    requires Carries(was, c, n) && i < N && Wide(x, r)
    ensures Carries(was[i := x], c[i := r], if i == n then n + 1 else n)
  {
    var now, d := was[i := x], c[i := r];
    forall k: nat | k < n || k == i ensures k < N && Carried(now, d, k) {
      if k != i {
        assert Carried(was, c, k);
      }
    }
  }

  lemma StateStart(w: seq<bv32>)
    requires |w| == N
    ensures StateAt(w, 0) == w
  {
  }
}
