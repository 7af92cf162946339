/** The table of `concurrency2.c` with any number of seats: each philosopher thinks, takes two
    forks, eats and puts them down, and takes the print lock around each line it prints. */
module DiningPhilosophers {
  import opened Arithmetic
  import opened Wrappers

  /** The lock or unlock operation that a philosopher does next. */
  datatype Place =
    | Think1 | Think2              // think: lock and unlock print_lock
    | Right1 | Right2 | TakeRight  // get_forks: the same, then lock the right fork
    | Left1 | Left2 | TakeLeft     // the same, then lock the left fork
    | Eat1 | Eat2 | Eat3 | Eat4    // eat: lock and unlock print_lock, twice
    | Put1 | Put2                  // put_forks: lock and unlock print_lock
    | PutRight | PutLeft           // unlock the right fork, then the left one

  /** Where the n philosophers are, and who owns locks 0 to n: the forks, then print_lock. */
  datatype State = State(at: seq<Place>, owner: seq<Option<nat>>)

  predicate WellFormed(s: State) {
    |s.owner| == |s.at| + 1
  }

  function Right(n: nat, i: nat): nat {
    if i + 1 == n then 0 else i
  }

  function Left(n: nat, i: nat): nat {
    if i + 1 == n then i else i + 1
  }

  function Next(p: Place): Place {
    match p
    case Think1 => Think2
    case Think2 => Right1
    case Right1 => Right2
    case Right2 => TakeRight
    case TakeRight => Left1
    case Left1 => Left2
    case Left2 => TakeLeft
    case TakeLeft => Eat1
    case Eat1 => Eat2
    case Eat2 => Eat3
    case Eat3 => Eat4
    case Eat4 => Put1
    case Put1 => Put2
    case Put2 => PutRight
    case PutRight => PutLeft
    case PutLeft => Think1
  }

  predicate Locks(p: Place) {
    p in {Think1, Right1, TakeRight, Left1, TakeLeft, Eat1, Eat3, Put1}
  }

  /** The lock that the operation at p is about. */
  function LockOf(n: nat, i: nat, p: Place): nat {
    match p
    case TakeRight => Right(n, i)
    case PutRight => Right(n, i)
    case TakeLeft => Left(n, i)
    case PutLeft => Left(n, i)
    case _ => n
  }

  /** Philosopher i does its next operation, unless it has to wait for the lock. */
  function Step(s: State, i: nat): Option<State>
    requires WellFormed(s)
  {
    if i >= |s.at| then None
    else
      var l, p := LockOf(|s.at|, i, s.at[i]), s.at[i];
      if Locks(p) then
        if s.owner[l].None? then Some(State(s.at[i := Next(p)], s.owner[l := Some(i)])) else None
      else Some(State(s.at[i := Next(p)], s.owner[l := None]))
  }

  predicate Run(s: State, schedule: seq<nat>, t: State)
    requires WellFormed(s)
    decreases |schedule|
  {
    if schedule == [] then s == t
    else
      var next := Step(s, schedule[0]);
      next.Some? && Run(next.value, schedule[1..], t)
  }

  function Start(n: nat): (s: State)
    ensures WellFormed(s)
  {
    State(seq(n, _ => Think1), seq(n + 1, _ => None))
  }

  /** Where a philosopher is after k operations. */
  function After(k: nat): Place {
    if k == 0 then Think1 else Next(After(k - 1))
  }

  /** Sixteen operations make a round: print_lock is taken and given back six times, the forks at
      both sides of the seat once each, the lower-numbered one first, for taking and for giving back. */
  lemma Round(n: nat, i: nat, k: nat)
    requires i < n && k < 16
    ensures After(16) == Think1 && After(8) == Eat1
    ensures Locks(After(k)) <==> k in {0, 2, 4, 5, 7, 8, 10, 12}
    ensures var low, high := if i + 1 == n then 0 else i, if i + 1 == n then i else i + 1;
            LockOf(n, i, After(k)) == if k == 4 || k == 14 then low else if k == 7 || k == 15 then high else n
  {
    assert After(4) == TakeRight;
    assert After(8) == Eat1;
    assert After(12) == Put1;
    assert After(16) == Think1;
  }

  // ---------- Who owns what ----------

  predicate HoldsPrint(p: Place) {
    p in {Think2, Right2, Left2, Eat2, Eat4, Put2}
  }

  predicate HoldsRight(p: Place) {
    p in {Left1, Left2, TakeLeft, Eat1, Eat2, Eat3, Eat4, Put1, Put2, PutRight}
  }

  predicate HoldsLeft(p: Place) {
    p in {Eat1, Eat2, Eat3, Eat4, Put1, Put2, PutRight, PutLeft}
  }

  predicate Holds(n: nat, i: nat, p: Place, l: nat) {
    || (l == n && HoldsPrint(p))
    || (l == Right(n, i) && HoldsRight(p))
    || (l == Left(n, i) && HoldsLeft(p))
  }

  ghost predicate Inv(s: State) {
    && WellFormed(s)
    && (forall l :: 0 <= l < |s.owner| && s.owner[l].Some? ==> s.owner[l].value < |s.at|)
    && forall i, l {:trigger Holds(|s.at|, i, s.at[i], l)} :: 0 <= i < |s.at| && 0 <= l <= |s.at| ==>
         (s.owner[l] == Some(i) <==> Holds(|s.at|, i, s.at[i], l))
  }

  lemma StartInv(n: nat)
    ensures Inv(Start(n))
  {
  }

  /** A step takes or gives back its lock, and nothing else changes hands. */
  lemma HoldsNext(n: nat, i: nat, p: Place, l: nat)
    requires n >= 2 && i < n
    ensures Locks(p) ==> !Holds(n, i, p, LockOf(n, i, p))
    ensures !Locks(p) ==> Holds(n, i, p, LockOf(n, i, p))
    ensures Holds(n, i, Next(p), l) <==> if l == LockOf(n, i, p) then Locks(p) else Holds(n, i, p, l)
  {
  }

  lemma StepInv(s: State, i: nat)
    requires |s.at| >= 2 && Inv(s) && Step(s, i).Some?
    ensures Inv(Step(s, i).value)
  {
    var n, t := |s.at|, Step(s, i).value;
    var m := LockOf(n, i, s.at[i]);
    forall j, l | 0 <= j < n && 0 <= l <= n ensures t.owner[l] == Some(j) <==> Holds(n, j, t.at[j], l) {
      assert s.owner[l] == Some(j) <==> Holds(n, j, s.at[j], l);
      assert s.owner[m] == Some(i) <==> Holds(n, i, s.at[i], m);
      HoldsNext(n, i, s.at[i], l);
    }
  }

  lemma {:induction false} RunInv(s: State, schedule: seq<nat>, t: State)
    requires |s.at| >= 2 && Inv(s) && Run(s, schedule, t)
    ensures Inv(t) && |t.at| == |s.at|
    decreases |schedule|
  {
    if schedule == [] {
    } else {
      StepInv(s, schedule[0]);
      RunInv(Step(s, schedule[0]).value, schedule[1..], t);
    }
  }

  lemma Reached(n: nat, schedule: seq<nat>, s: State)
    requires n >= 2 && Run(Start(n), schedule, s)
    ensures Inv(s) && |s.at| == n
  {
    StartInv(n);
    RunInv(Start(n), schedule, s);
  }

  lemma NextSeat(n: nat, i: nat)
    requires i < n
    ensures (i + 1) % n == if i + 1 == n then 0 else i + 1
  {
    QuotientUnique(i, n, 0, i);
    NextMod(i, n);
  }

  predicate Eating(p: Place) {
    p in {Eat1, Eat2, Eat3, Eat4}
  }

  /** Two philosophers side by side never eat at the same time. */
  lemma NeighboursExclude(n: nat, schedule: seq<nat>, s: State, i: nat)
    requires n >= 2 && Run(Start(n), schedule, s) && i < n
    ensures |s.at| == n && !(Eating(s.at[i]) && Eating(s.at[(i + 1) % n]))
  {
    Reached(n, schedule, s);
    OneForkBetween(s, i);
  }

  lemma OneForkBetween(s: State, i: nat)
    requires |s.at| >= 2 && Inv(s) && i < |s.at|
    ensures !(Eating(s.at[i]) && Eating(s.at[(i + 1) % |s.at|]))
  {
    var n := |s.at|;
    NextSeat(n, i);
    var j := if i + 1 == n then 0 else i + 1;
    assert s.owner[j] == Some(i) <==> Holds(n, i, s.at[i], j);
    assert s.owner[j] == Some(j) <==> Holds(n, j, s.at[j], j);
  }

  /** get_forks ends with the forks on both sides of the seat and nothing else; put_forks ends
      with nothing at all; and no philosopher ever unlocks what it does not own. */
  lemma PutsWhatItTook(n: nat, schedule: seq<nat>, s: State, i: nat)
    requires n >= 2 && Run(Start(n), schedule, s) && i < n
    ensures WellFormed(s) && |s.at| == n && i != (i + 1) % n
    ensures s.at[i] == Eat1 ==>
      forall l :: 0 <= l <= n ==> (s.owner[l] == Some(i) <==> l == i || l == (i + 1) % n)
    ensures s.at[i] == Think1 ==> forall l :: 0 <= l <= n ==> s.owner[l] != Some(i)
    ensures !Locks(s.at[i]) ==> s.owner[LockOf(n, i, s.at[i])] == Some(i)
  {
    Reached(n, schedule, s);
    NextSeat(n, i);
    forall l | 0 <= l <= n ensures s.owner[l] == Some(i) <==> Holds(n, i, s.at[i], l) {
    }
    HoldsNext(n, i, s.at[i], n);
  }

  // ---------- Who waits for whom ----------

  /** Philosopher i cannot go on before j gives back a lock. */
  ghost predicate WaitsFor(s: State, i: nat, j: nat)
    requires WellFormed(s)
  {
    && i < |s.at| && j < |s.at| && Locks(s.at[i])
    && s.owner[LockOf(|s.at|, i, s.at[i])] == Some(j)
  }

  /** Whoever holds one lock and is about to take another holds the lower-numbered one. */
  lemma Ascending(s: State, i: nat, l: nat)
    requires |s.at| >= 2 && Inv(s) && i < |s.at| && Locks(s.at[i])
    requires l <= |s.at| && s.owner[l] == Some(i)
    ensures l < LockOf(|s.at|, i, s.at[i])
  {
    assert Holds(|s.at|, i, s.at[i], l);
  }

  /** Each waits for the next. */
  ghost predicate Chain(s: State, chain: seq<nat>)
    requires WellFormed(s)
  {
    forall k {:trigger chain[k]} :: 0 <= k < |chain| - 1 ==> WaitsFor(s, chain[k], chain[k + 1])
  }

  lemma {:induction false} WantsGrow(s: State, chain: seq<nat>, j: nat, k: nat)
    requires |s.at| >= 2 && Inv(s) && Chain(s, chain) && j <= k < |chain| - 1
    ensures chain[j] < |s.at| && chain[k] < |s.at|
    ensures LockOf(|s.at|, chain[j], s.at[chain[j]]) + (k - j) <= LockOf(|s.at|, chain[k], s.at[chain[k]]) <= |s.at|
    decreases k
  {
    assert WaitsFor(s, chain[k], chain[k + 1]);
    if j == k {
    } else {
      WantsGrow(s, chain, j, k - 1);
      assert WaitsFor(s, chain[k - 1], chain[k]);
      Ascending(s, chain[k], LockOf(|s.at|, chain[k - 1], s.at[chain[k - 1]]));
    }
  }

  /** Waiting chains are short, and never come back to the same philosopher. */
  lemma ChainsEnd(n: nat, schedule: seq<nat>, s: State, chain: seq<nat>)
    requires n >= 2 && Run(Start(n), schedule, s) && WellFormed(s) && Chain(s, chain)
    ensures |chain| <= n + 2
    ensures forall j, k :: 0 <= j < k < |chain| ==> chain[j] != chain[k]
  {
    Reached(n, schedule, s);
    if |chain| >= 2 {
      WantsGrow(s, chain, 0, |chain| - 2);
    }
    forall j, k | 0 <= j < k < |chain| ensures chain[j] != chain[k] {
      NoReturn(s, chain, j, k);
    }
  }

  lemma NoReturn(s: State, chain: seq<nat>, j: nat, k: nat)
    requires |s.at| >= 2 && Inv(s) && Chain(s, chain) && j < k < |chain|
    ensures chain[j] != chain[k]
  {
    WantsGrow(s, chain, j, k - 1);
    assert WaitsFor(s, chain[j], chain[j + 1]);
    assert WaitsFor(s, chain[k - 1], chain[k]);
    if chain[j] == chain[k] {
      Ascending(s, chain[j], LockOf(|s.at|, chain[k - 1], s.at[chain[k - 1]]));
    }
  }

  // ---------- Everybody gets to eat ----------

  /** Somebody can step: i itself or, at the end of the chain that starts with i, a lock owner. */
  lemma {:induction false} EndOfChain(s: State, i: nat) returns (j: nat)
    requires |s.at| >= 2 && Inv(s) && i < |s.at|
    ensures j < |s.at| && Step(s, j).Some?
    ensures j == i || s.at[j] != Think1
    decreases |s.at| - LockOf(|s.at|, i, s.at[i]), Locks(s.at[i])
  {
    if Step(s, i).Some? {
      j := i;
    } else {
      var l := LockOf(|s.at|, i, s.at[i]);
      var o := s.owner[l].value;
      assert Holds(|s.at|, o, s.at[o], l);
      if Locks(s.at[o]) {
        Ascending(s, o, l);
        j := EndOfChain(s, o);
      } else {
        j := o;
      }
    }
  }

  /** How many steps it is from a place round to Eat1, and to Think1. */
  function ToEat(p: Place): nat {
    (ToThink(p) + 8) % 16
  }

  function ToThink(p: Place): nat {
    match p
    case Think1 => 0
    case Think2 => 15
    case Right1 => 14
    case Right2 => 13
    case TakeRight => 12
    case Left1 => 11
    case Left2 => 10
    case TakeLeft => 9
    case Eat1 => 8
    case Eat2 => 7
    case Eat3 => 6
    case Eat4 => 5
    case Put1 => 4
    case Put2 => 3
    case PutRight => 2
    case PutLeft => 1
  }

  /** Steps to go until philosopher i eats and the others from k on think. */
  function ToGo(at: seq<Place>, i: nat, k: nat): nat
    requires k <= |at|
    decreases |at| - k
  {
    if k == |at| then 0 else (if k == i then ToEat(at[k]) else ToThink(at[k])) + ToGo(at, i, k + 1)
  }

  lemma {:induction false} ToGoMoved(at: seq<Place>, i: nat, j: nat, p: Place, k: nat)
    requires j < |at| && k <= |at|
    requires if j == i then ToEat(p) < ToEat(at[j]) else ToThink(p) < ToThink(at[j])
    ensures if k <= j then ToGo(at[j := p], i, k) < ToGo(at, i, k) else ToGo(at[j := p], i, k) == ToGo(at, i, k)
    decreases |at| - k
  {
    if k == |at| {
    } else {
      ToGoMoved(at, i, j, p, k + 1);
    }
  }

  /** From every reachable state, every philosopher can be brought to eat. */
  lemma {:induction false} GetsToEat(s: State, i: nat) returns (schedule: seq<nat>, t: State)
    requires |s.at| >= 2 && Inv(s) && i < |s.at|
    ensures Run(s, schedule, t) && i < |t.at| && t.at[i] == Eat1
    decreases ToGo(s.at, i, 0)
  {
    if s.at[i] == Eat1 {
      schedule, t := [], s;
    } else {
      var j := EndOfChain(s, i);
      var next := Step(s, j).value;
      StepInv(s, j);
      ToGoMoved(s.at, i, j, Next(s.at[j]), 0);
      var rest;
      rest, t := GetsToEat(next, i);
      schedule := [j] + rest;
      assert schedule[1..] == rest;
    }
  }

  ghost predicate MayEat(s: State, i: nat)
    requires WellFormed(s)
  {
    exists schedule, t :: Run(s, schedule, t) && i < |t.at| && t.at[i] == Eat1
  }

  // ---------- Who can eat together ----------

  ghost predicate Resting(s: State) {
    forall j :: 0 <= j < |s.at| ==> s.at[j] == Think1
  }

  /** From every reachable state, everybody can finish the round. */
  lemma {:induction false} AllRest(s: State) returns (schedule: seq<nat>, t: State)
    requires |s.at| >= 2 && Inv(s)
    ensures Run(s, schedule, t) && Inv(t) && |t.at| == |s.at| && Resting(t)
    decreases ToGo(s.at, |s.at|, 0)
  {
    if Resting(s) {
      schedule, t := [], s;
    } else {
      var i: nat :| i < |s.at| && s.at[i] != Think1;
      var j := EndOfChain(s, i);
      StepInv(s, j);
      ToGoMoved(s.at, |s.at|, j, Next(s.at[j]), 0);
      var rest;
      rest, t := AllRest(Step(s, j).value);
      schedule := [j] + rest;
      assert schedule[1..] == rest;
    }
  }

  /** Everybody but i rests, or eats at a seat that is not next to i's. */
  ghost predicate OthersApart(s: State, i: nat) {
    forall o: nat :: o < |s.at| && o != i ==>
      s.at[o] == Think1 || (s.at[o] == Eat1 && (o + 1) % |s.at| != i && (i + 1) % |s.at| != o)
  }

  lemma LockIsFree(s: State, i: nat)
    requires |s.at| >= 2 && Inv(s) && i < |s.at| && OthersApart(s, i)
    ensures Step(s, i).Some?
  {
    var n, p := |s.at|, s.at[i];
    var l := LockOf(n, i, p);
    if Locks(p) && s.owner[l].Some? {
      var o := s.owner[l].value;
      assert s.owner[l] == Some(o) <==> Holds(n, o, s.at[o], l);
      HoldsNext(n, i, p, l);
      NextSeat(n, i);
      NextSeat(n, o);
    }
  }

  /** Then i can go on alone until it eats. */
  lemma {:induction false} EatsAlone(s: State, i: nat) returns (schedule: seq<nat>, t: State)
    requires |s.at| >= 2 && Inv(s) && i < |s.at| && OthersApart(s, i)
    ensures Run(s, schedule, t) && Inv(t) && t.at == s.at[i := Eat1]
    decreases ToEat(s.at[i])
  {
    if s.at[i] == Eat1 {
      schedule, t := [], s;
      assert s.at[i := Eat1] == s.at;
    } else {
      LockIsFree(s, i);
      StepInv(s, i);
      var next := Step(s, i).value;
      assert forall o :: 0 <= o < |s.at| && o != i ==> next.at[o] == s.at[o];
      var rest;
      rest, t := EatsAlone(next, i);
      assert next.at[i := Eat1] == s.at[i := Eat1];
      schedule := [i] + rest;
      assert schedule[1..] == rest;
    }
  }

  ghost predicate NoNeighbours(n: nat, e: set<nat>)
    requires n > 0
  {
    (forall i :: i in e ==> i < n) && forall i, j :: i in e && j in e ==> (i + 1) % n != j
  }

  lemma {:induction false} RunThrough(s: State, a: seq<nat>, m: State, b: seq<nat>, t: State)
    requires WellFormed(s) && WellFormed(m) && Run(s, a, m) && Run(m, b, t)
    ensures Run(s, a + b, t)
    decreases |a|
  {
    if a == [] {
      assert a + b == b;
    } else {
      assert (a + b)[1..] == a[1..] + b;
      RunThrough(Step(s, a[0]).value, a[1..], m, b, t);
    }
  }

  lemma {:induction false} BringToEat(s: State, e: set<nat>) returns (schedule: seq<nat>, t: State)
    requires |s.at| >= 2 && Inv(s) && Resting(s) && NoNeighbours(|s.at|, e)
    ensures Run(s, schedule, t) && Inv(t) && |t.at| == |s.at|
    ensures forall i :: 0 <= i < |s.at| ==> t.at[i] == if i in e then Eat1 else Think1
    decreases |e|
  {
    if e == {} {
      schedule, t := [], s;
    } else {
      var i :| i in e;
      var first, m := BringToEat(s, e - {i});
      var last;
      last, t := EatsAlone(m, i);
      schedule := first + last;
      RunThrough(s, first, m, last, t);
    }
  }

  /** Some run from s brings all of e to eat at the same time. */
  ghost predicate MayEatTogether(s: State, e: set<nat>)
    requires WellFormed(s)
  {
    exists schedule, t :: Run(s, schedule, t) && forall i :: i in e ==> i < |t.at| && Eating(t.at[i])
  }

  /** From every reachable state, philosophers can be brought to eat at the same time exactly when
      no two of them sit side by side. */
  lemma EatTogetherIff(n: nat, past: seq<nat>, s: State, e: set<nat>)
    requires n >= 2 && Run(Start(n), past, s) && WellFormed(s) && forall i :: i in e ==> i < n
    ensures MayEatTogether(s, e) <==> forall i, j :: i in e && j in e ==> (i + 1) % n != j
  {
    Reached(n, past, s);
    if MayEatTogether(s, e) {
      var schedule, t :| Run(s, schedule, t) && forall i :: i in e ==> i < |t.at| && Eating(t.at[i]);
      RunInv(s, schedule, t);
      forall i, j | i in e && j in e ensures (i + 1) % n != j {
        OneForkBetween(t, i);
      }
    }
    if NoNeighbours(n, e) {
      var first, m := AllRest(s);
      var rest, t := BringToEat(m, e);
      RunThrough(s, first, m, rest, t);
    }
  }

  // ---------- One philosopher alone ----------

  /** Anybody at all gets to eat exactly at tables for two or more, and there everybody does. */
  lemma EatIffTwo(n: nat, i: nat)
    requires i < n
    ensures MayEat(Start(n), i) <==> n >= 2
  {
    StartInv(n);
    if n >= 2 {
      var schedule, t := GetsToEat(Start(n), i);
    } else {
      forall schedule, t | Run(Start(n), schedule, t) ensures |t.at| == 1 && t.at[0] != Eat1 {
        AloneRun(Start(n), schedule, t);
      }
    }
  }

  /** With one seat the two forks are the same one, and taking it twice never succeeds. */
  ghost predicate AloneInv(s: State) {
    && |s.at| == 1 && |s.owner| == 2
    && (s.at[0] == Think1 || ToThink(s.at[0]) >= 9)
    && (s.at[0] in {Left1, Left2, TakeLeft} ==> s.owner[0] == Some(0))
  }

  lemma {:induction false} AloneRun(s: State, schedule: seq<nat>, t: State)
    requires AloneInv(s) && Run(s, schedule, t)
    ensures AloneInv(t)
    decreases |schedule|
  {
    if schedule == [] {
    } else {
      AloneRun(Step(s, schedule[0]).value, schedule[1..], t);
    }
  }
}
