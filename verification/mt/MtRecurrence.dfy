/** The sequence behind MT19937, as section 26.5.3.2 of ISO/IEC 14882:2011 gives it. */
module MtRecurrence {
  import opened MtWords

  const N: nat := 624
  const M: nat := 397

  /** Term n of the sequence that starts with the N words of `seed`. */
  ghost function X(seed: seq<bv32>, n: nat): bv32
    requires |seed| == N
  {
    if n < N then seed[n]
    else X(seed, n - N + M) ^ Twist(X(seed, n - N), X(seed, n - N + 1))
  }

  lemma XStep(seed: seq<bv32>, n: nat)
    requires |seed| == N
    ensures X(seed, n + N) == X(seed, n + M) ^ Twist(X(seed, n), X(seed, n + 1))
  {
  }

  /** A term comes from the one N - M terms back and the twist of two more. */
  ghost predicate IsNext(upper: bv32, lower: bv32, mid: bv32, r: bv32) {
    r == mid ^ Twist(upper, lower)
  }

  lemma NextTerm(seed: seq<bv32>, n: nat)
    requires |seed| == N
    ensures IsNext(X(seed, n), X(seed, n + 1), X(seed, n + M), X(seed, n + N))
  {
    XStep(seed, n);
  }

  // ---------- The recurrence as a shift register ----------

  /** A state, N words of which the lower bits of the first do not matter, one term later. */
  function Shift(w: seq<bv32>): (r: seq<bv32>)
    requires |w| == N
    ensures |r| == N
  {
    w[1..] + [w[M] ^ Twist(w[0], w[1])]
  }

  /** Equal in the 19937 bits that matter: the top bit of word 0, and words 1 to 623. */
  predicate SameState(w: seq<bv32>, v: seq<bv32>)
    requires |w| == N && |v| == N
  {
    SameTop(w[0], v[0]) && w[1..] == v[1..]
  }

  /** Shifting neither merges two states nor tells apart what is the same state. */
  lemma ShiftInjective(w: seq<bv32>, v: seq<bv32>)
    requires |w| == N && |v| == N
    ensures SameState(Shift(w), Shift(v)) <==> SameState(w, v)
  {
    if SameState(w, v) {
      ShiftDepends(w, v);
    }
    if SameState(Shift(w), Shift(v)) {
      ShiftBack(w, v);
    }
  }

  lemma ShiftDepends(w: seq<bv32>, v: seq<bv32>)
    requires |w| == N && |v| == N && SameState(w, v)
    ensures Shift(w) == Shift(v)
  {
    Words(w, v, 1);
    Words(w, v, M);
    StepForth(w[0], v[0], w[1]);
    ShiftFrom(w, v, w[M] ^ Twist(w[0], w[1]));
  }

  lemma ShiftFrom(w: seq<bv32>, v: seq<bv32>, t: bv32)
    requires |w| == N && |v| == N && w[1..] == v[1..]
    requires t == w[M] ^ Twist(w[0], w[1]) == v[M] ^ Twist(v[0], v[1])
    ensures Shift(w) == Shift(v)
  {
  }

  lemma Words(w: seq<bv32>, v: seq<bv32>, k: nat)
    requires |w| == N && |v| == N && w[1..] == v[1..] && 1 <= k < N
    ensures w[k] == v[k]
  {
    assert w[k] == w[1..][k - 1] && v[k] == v[1..][k - 1];
  }

  lemma ShiftBack(w: seq<bv32>, v: seq<bv32>)
    requires |w| == N && |v| == N && SameState(Shift(w), Shift(v))
    ensures SameState(w, v)
  {
    ShiftedWords(w, v);
    StepBack(w[0], w[1], v[0], v[1], w[M]);
    AllWords(w, v);
  }

  lemma AllWords(w: seq<bv32>, v: seq<bv32>)
    requires |w| == N && |v| == N && w[1] == v[1] && forall k :: 2 <= k < N ==> w[k] == v[k]
    ensures w[1..] == v[1..]
  {
    forall k | 0 <= k < N - 1 ensures w[1..][k] == v[1..][k] {
      assert w[1..][k] == w[k + 1] && v[1..][k] == v[k + 1];
    }
  }

  /** What equal shifted states say of the words themselves. */
  lemma ShiftedWords(w: seq<bv32>, v: seq<bv32>)
    requires |w| == N && |v| == N && SameState(Shift(w), Shift(v))
    ensures SameTop(w[1], v[1]) && forall k :: 2 <= k < N ==> w[k] == v[k]
    ensures w[M] ^ Twist(w[0], w[1]) == w[M] ^ Twist(v[0], v[1])
  {
    var s, t := Shift(w), Shift(v);
    forall k | 2 <= k < N ensures w[k] == v[k] {
      Words(s, t, k - 1);
    }
    Words(s, t, N - 1);
  }

  /** The state at time n of the sequence that starts with `seed`. */
  ghost function StateAt(seed: seq<bv32>, n: nat): (w: seq<bv32>)
    requires |seed| == N
    ensures |w| == N
  {
    seq(N, k requires 0 <= k < N => X(seed, n + k))
  }

  lemma StateStep(seed: seq<bv32>, n: nat)
    requires |seed| == N
    ensures StateAt(seed, n + 1) == Shift(StateAt(seed, n))
  {
    XStep(seed, n);
    var w, r := StateAt(seed, n + 1), Shift(StateAt(seed, n));
    forall k | 0 <= k < N ensures w[k] == r[k] {
      if k < N - 1 {
        assert r[k] == StateAt(seed, n)[k + 1];
      }
    }
  }

  /** The 19937-bit state at any time determines the one at the start, and the other way
      round: no two states lead to the same one, however many steps are taken. */
  lemma {:induction false} StateInjective(a: seq<bv32>, b: seq<bv32>, n: nat)
    requires |a| == N && |b| == N
    ensures SameState(StateAt(a, n), StateAt(b, n)) <==> SameState(a, b)
  {
    if n == 0 {
      assert StateAt(a, 0) == a && StateAt(b, 0) == b;
    } else {
      StateInjective(a, b, n - 1);
      OneStepInjective(a, b, n - 1);
    }
  }

  lemma OneStepInjective(a: seq<bv32>, b: seq<bv32>, n: nat)
    requires |a| == N && |b| == N
    ensures SameState(StateAt(a, n + 1), StateAt(b, n + 1)) <==> SameState(StateAt(a, n), StateAt(b, n))
  {
    StateStep(a, n);
    StateStep(b, n);
    ShiftInjective(StateAt(a, n), StateAt(b, n));
  }

  ghost function Zeros(): (z: seq<bv32>)
    ensures |z| == N
  {
    seq(N, _ => 0)
  }

  lemma ZerosShift()
    ensures Shift(Zeros()) == Zeros()
  {
    assert Twist(0, 0) == 0;
  }

  lemma {:induction false} ZerosStay(n: nat)
    ensures StateAt(Zeros(), n) == Zeros()
  {
    if n == 0 {
      assert StateAt(Zeros(), 0) == Zeros();
    } else {
      ZerosStay(n - 1);
      StateStep(Zeros(), n - 1);
      ZerosShift();
    }
  }

  /** All 19937 bits of the state are zero. */
  ghost predicate IsZero(w: seq<bv32>)
    requires |w| == N
  {
    SameState(w, Zeros())
  }

  /** A state that is not all zero never becomes all zero. */
  lemma NeverZero(seed: seq<bv32>, n: nat)
    requires |seed| == N
    ensures IsZero(StateAt(seed, n)) <==> IsZero(seed)
  {
    ZerosStay(n);
    StateInjective(seed, Zeros(), n);
  }

  ghost predicate SameOutput(a: seq<bv32>, b: seq<bv32>, k: nat)
    requires |a| == N && |b| == N
  {
    Temper(X(a, k)) == Temper(X(b, k))
  }

  /** N outputs in a row, from any time on, tell the whole state and so every other output. */
  lemma OutputsTellState(a: seq<bv32>, b: seq<bv32>, n: nat)
    requires |a| == N && |b| == N
    requires forall k {:trigger SameOutput(a, b, k)} :: n <= k < n + N ==> SameOutput(a, b, k)
    ensures StateAt(a, n) == StateAt(b, n) && SameState(a, b)
  {
    var w, v := StateAt(a, n), StateAt(b, n);
    forall k | 0 <= k < N ensures w[k] == v[k] {
      assert SameOutput(a, b, n + k);
      SameTerm(a, b, n + k);
    }
    SameStateItself(w, v);
    StateInjective(a, b, n);
  }

  lemma SameTerm(a: seq<bv32>, b: seq<bv32>, k: nat)
    requires |a| == N && |b| == N
    ensures SameOutput(a, b, k) ==> X(a, k) == X(b, k)
  {
    TemperInjective(X(a, k), X(b, k));
  }

  lemma SameStateItself(w: seq<bv32>, v: seq<bv32>)
    requires |w| == N && w == v
    ensures SameState(w, v)
  {
  }

  // ---------- Seeding ----------

  /** Word i of the state that init_genrand makes of seed s. */
  ghost function SeedWord(s: bv32, i: nat): bv32 {
    if i == 0 then s
    else SeedNext(SeedWord(s, i - 1), i)
  }

  ghost function SeedState(s: bv32): (w: seq<bv32>)
    ensures |w| == N
    ensures forall i :: 0 <= i < N ==> w[i] == SeedWord(s, i)
  {
    seq(N, i requires 0 <= i < N => SeedWord(s, i))
  }

  /** No seed gives the all-zero state: were words 1 and 2 both zero, word 2 would be 2. */
  lemma SeedStateNotZero(s: bv32)
    ensures !IsZero(SeedState(s))
  {
    var w := SeedState(s);
    if w[1] == 0 {
      SecondWord(SeedWord(s, 1));
    }
    assert w[1..][0] == w[1] && w[1..][1] == w[2];
    assert Zeros()[1..][0] == 0 && Zeros()[1..][1] == 0;
  }

  lemma SecondWord(p: bv32)
    requires p == 0
    ensures SeedNext(p, 2) != 0
  {
    assert OfNat32(2) == OfNat32(1) + 1 == OfNat32(0) + 1 + 1;
  }

  /** One word of init_by_array's first pass: state w, position i, key position j. */
  ghost function KeyWord(w: seq<bv32>, key: seq<bv32>, i: nat, j: nat): bv32
    requires |w| == N && 1 <= i < N && j < |key|
  {
    KeyNext(w[i], w[i - 1], key[j], j)
  }

  ghost function IndexWord(w: seq<bv32>, i: nat): bv32
    requires |w| == N && 1 <= i < N
  {
    IndexNext(w[i], w[i - 1], i)
  }

  /** Storing v at position i; from the last position it is copied to position 0. */
  function Stored<T>(w: seq<T>, i: nat, v: T): (r: seq<T>)
    requires |w| == N && 1 <= i < N
    ensures |r| == N
  {
    if i + 1 >= N then w[i := v][0 := v] else w[i := v]
  }

  /** The position that turn t stores at, counting from the first turn of the first loop. */
  function Slot(t: nat): (i: nat)
    ensures 1 <= i < N
  {
    1 + t % (N - 1)
  }

  /** Turn t of the first loop. */
  ghost function KeyTurn(w: seq<bv32>, key: seq<bv32>, t: nat): (v: seq<bv32>)
    requires |w| == N && key != []
    ensures |v| == N
  {
    Stored(w, Slot(t), KeyWord(w, key, Slot(t), t % |key|))
  }

  /** Turn t, in the second loop. */
  ghost function IndexTurn(w: seq<bv32>, t: nat): (v: seq<bv32>)
    requires |w| == N
    ensures |v| == N
  {
    Stored(w, Slot(t), IndexWord(w, Slot(t)))
  }

  /** The state after t turns of init_by_array's first loop. */
  ghost function KeyAfter(key: seq<bv32>, t: nat): (w: seq<bv32>)
    requires key != []
    ensures |w| == N
  {
    if t == 0 then SeedState(19650218) else KeyTurn(KeyAfter(key, t - 1), key, t - 1)
  }

  /** How many turns that loop takes. */
  function KeyTurns(key: seq<bv32>): nat {
    if N > |key| then N else |key|
  }

  /** The state after that loop and t turns of the second one. */
  ghost function IndexAfter(key: seq<bv32>, t: nat): (w: seq<bv32>)
    requires key != []
    ensures |w| == N
  {
    if t == 0 then KeyAfter(key, KeyTurns(key)) else IndexTurn(IndexAfter(key, t - 1), KeyTurns(key) + (t - 1))
  }

  /** The state that init_by_array makes of a non-empty key. */
  ghost function KeyState(key: seq<bv32>): (w: seq<bv32>)
    requires key != []
    ensures |w| == N
  {
    IndexAfter(key, N - 1)[0 := 0x8000_0000]
  }

  /** The top bit that init_by_array sets keeps the state from being all zero. */
  lemma KeyStateNotZero(key: seq<bv32>)
    requires key != []
    ensures !IsZero(KeyState(key))
  {
    assert KeyState(key)[0] == 0x8000_0000;
  }
}
