/** The resource of `prob1_conc3.c` that up to three threads use at once: any number of threads
    that loop through `shareable`. */
module SharedResource {
  import opened Counting
  import opened Wrappers

  /** What a thread does next. */
  datatype Place =
    | Enter     // sem_wait(&mutex)
    | Check     // must it wait?
    | Release   // sem_post(&mutex)
    | Parked    // sem_wait(&blocker)
    | Resume    // waiting--
    | Arrive    // active++
    | Full      // is it the third?
    | Open      // sem_post(&blocker) or sem_post(&mutex)
    | Inside    // sem_wait(&mutex)
    | Depart    // active--
    | Empty     // is it the last?
    | Close     // sem_post(&blocker) or sem_post(&mutex)

  datatype State = State(at: seq<Place>, mutex: nat, blocker: nat, active: int, waiting: int, mustWait: bool)

  function Start(n: nat): State {
    State(seq(n, _ => Enter), 1, 0, 0, 0, false)
  }

  /** The next step of a thread at p in state s, as its new place and the new globals; None
      where it is blocked. The threads of the result are not yet changed. */
  function StepAt(s: State, p: Place): Option<(Place, State)> {
    match p
    case Enter => if s.mutex > 0 then Some((Check, s.(mutex := s.mutex - 1))) else None
    case Check => Some((if s.mustWait then Release else Arrive, s))
    case Release => Some((Parked, s.(mutex := s.mutex + 1)))
    case Parked => if s.blocker > 0 then Some((Resume, s.(blocker := s.blocker - 1))) else None
    case Resume => Some((Arrive, s.(waiting := s.waiting - 1)))
    case Arrive => Some((Full, s.(active := s.active + 1)))
    case Full => Some((Open, s.(mustWait := s.active == 3)))
    case Open =>
      Some((Inside, if s.waiting > 0 && !s.mustWait then s.(blocker := s.blocker + 1) else s.(mutex := s.mutex + 1)))
    case Inside => if s.mutex > 0 then Some((Depart, s.(mutex := s.mutex - 1))) else None
    case Depart => Some((Empty, s.(active := s.active - 1)))
    case Empty => Some((Close, if s.active == 0 then s.(mustWait := false) else s))
    case Close =>
      Some((Enter, if s.waiting != 0 && !s.mustWait then s.(blocker := s.blocker + 1) else s.(mutex := s.mutex + 1)))
  }

  function Step(s: State, i: nat): Option<State> {
    if i >= |s.at| then None
    else match StepAt(s, s.at[i])
      case None => None
      case Some((p, t)) => Some(t.(at := s.at[i := p]))
  }

  predicate Run(s: State, schedule: seq<nat>, t: State)
    decreases |schedule|
  {
    if schedule == [] then s == t
    else
      var next := Step(s, schedule[0]);
      next.Some? && Run(next.value, schedule[1..], t)
  }

  // ---------- Kinds of places ----------

  /** Holding the right to change the globals. */
  predicate Holding(p: Place) {
    p in {Check, Release, Arrive, Full, Open, Depart, Empty, Close}
  }

  /** Counted in `active`. */
  predicate Using(p: Place) {
    p in {Full, Open, Inside, Depart}
  }

  predicate Free(p: Place) {
    p != Parked
  }

  // ---------- The invariant ----------

  /** Nobody waits for nothing, and a place is left unless somebody has to wait. */
  predicate Settled(s: State) {
    (s.mustWait ==> s.active > 0) && (s.mustWait || s.active <= 2)
  }

  /** What a thread that holds the right knows. */
  predicate Knows(s: State, p: Place) {
    match p
    case Release => s.mustWait && s.active > 0
    case Arrive => !s.mustWait && s.active <= 2
    case Full => !s.mustWait && s.active > 0
    case Open => s.active > 0 && (s.mustWait <==> s.active == 3)
    case Depart => s.active > 0 && Settled(s)
    case Empty => s.mustWait || s.active <= 2
    case Resume => false
    case _ => Holding(p) ==> Settled(s)
  }

  ghost predicate Inv(s: State) {
    && s.mutex + s.blocker + Count(s.at, Holding) == 1
    && s.blocker == 0 && s.waiting == 0
    && s.active == Count(s.at, Using) <= 3
    && (s.mutex == 1 ==> Settled(s))
    && (forall i :: 0 <= i < |s.at| ==> Knows(s, s.at[i]))
    && (s.at != [] ==> Count(s.at, Free) > 0)
  }

  lemma StartInv(n: nat)
    ensures Inv(Start(n))
  {
    CountNone(Start(n).at, Holding);
    CountNone(Start(n).at, Using);
    if n > 0 {
      CountOne(Start(n).at, 0, Free);
    }
  }

  /** Every step keeps the invariant. */
  lemma StepInv(s: State, i: nat)
    requires Inv(s) && Step(s, i).Some?
    ensures Inv(Step(s, i).value)
  {
    var t := Step(s, i).value;
    CountMoved(s.at, i, t.at[i], Holding);
    CountMoved(s.at, i, t.at[i], Using);
    assert Knows(s, s.at[i]);
    OthersKnow(s, i, t);
    if Using(s.at[i]) {
      CountOne(s.at, i, Using);
    }
    if Holding(s.at[i]) {
      CountOne(s.at, i, Holding);
    }
    StaysFree(s, i, t);
  }

  lemma StaysFree(s: State, i: nat, t: State)
    requires Inv(s) && Step(s, i) == Some(t)
    ensures Count(t.at, Free) > 0
  {
    if s.at[i] == Release {
      assert Knows(s, s.at[i]);
      var j := CountWitness(s.at, Using);
      CountOne(t.at, j, Free);
    } else {
      CountOne(t.at, i, Free);
    }
  }

  lemma OthersKnow(s: State, i: nat, t: State)
    requires Inv(s) && Step(s, i) == Some(t)
    ensures forall j :: 0 <= j < |s.at| && j != i ==> Knows(t, t.at[j])
  {
    forall j | 0 <= j < |s.at| && j != i ensures Knows(t, t.at[j]) {
      assert Knows(s, s.at[j]);
      if Holding(s.at[j]) {
        CountOne(s.at, j, Holding);
        if Holding(s.at[i]) {
          CountTwo(s.at, if i < j then i else j, if i < j then j else i, Holding);
        }
      }
    }
  }

  lemma {:induction false} RunInv(s: State, schedule: seq<nat>, t: State)
    requires Inv(s) && Run(s, schedule, t)
    ensures Inv(t) && |t.at| == |s.at|
    decreases |schedule|
  {
    if schedule == [] {
    } else {
      StepInv(s, schedule[0]);
      RunInv(Step(s, schedule[0]).value, schedule[1..], t);
    }
  }

  lemma Reached(n: nat, schedule: seq<nat>, s: State)
    requires Run(Start(n), schedule, s)
    ensures Inv(s) && |s.at| == n
  {
    StartInv(n);
    RunInv(Start(n), schedule, s);
  }

  /** At most three threads are at the resource, as many as `active` says, and the two
      semaphores and the thread that may change the globals add up to one. */
  lemma AtMostThree(n: nat, schedule: seq<nat>, s: State)
    requires Run(Start(n), schedule, s)
    ensures s.active == Count(s.at, Using) <= 3
    ensures s.mutex + s.blocker + Count(s.at, Holding) == 1
  {
    Reached(n, schedule, s);
  }

  // ---------- Once full, nobody enters until it is empty ----------

  /** All states of the run but the last have somebody at the resource. */
  predicate BusyRun(s: State, schedule: seq<nat>, t: State)
    decreases |schedule|
  {
    s.active > 0
    && if schedule == [] then s == t
       else
         var next := Step(s, schedule[0]);
         next.Some? && (if |schedule| == 1 then next.value == t else BusyRun(next.value, schedule[1..], t))
  }

  /** Three have entered, and not all of them have left. */
  ghost predicate Closed(s: State) {
    s.active > 0 && (s.mustWait || (s.active == 3 && exists i :: 0 <= i < |s.at| && s.at[i] == Full))
  }

  lemma FullIsClosed(s: State)
    requires Inv(s) && s.active == 3
    ensures Closed(s)
  {
    if s.mutex == 0 {
      var i := CountWitness(s.at, Holding);
      assert Knows(s, s.at[i]);
    }
  }

  lemma ClosedStep(s: State, i: nat)
    requires Inv(s) && Closed(s) && Step(s, i).Some?
    ensures var t := Step(s, i).value;
            && s.at[i] != Arrive && t.active <= s.active
            && (Using(t.at[i]) ==> Using(s.at[i]))
            && (t.active > 0 ==> Closed(t))
  {
    assert Knows(s, s.at[i]);
    if !s.mustWait {
      var j :| 0 <= j < |s.at| && s.at[j] == Full;
      OnlyHolder(s, i, j);
    }
  }

  /** Where the right to change the globals is taken, nobody else can do what needs it. */
  lemma OnlyHolder(s: State, i: nat, j: nat)
    requires Inv(s) && i < |s.at| && j < |s.at| && Holding(s.at[j])
    ensures i != j ==> !Holding(s.at[i])
    ensures s.mutex == 0
  {
    CountOne(s.at, j, Holding);
    if i != j && Holding(s.at[i]) {
      CountTwo(s.at, if i < j then i else j, if i < j then j else i, Holding);
    }
  }

  /** No step of the run is somebody's arrival at the resource. */
  predicate NobodyArrives(s: State, schedule: seq<nat>)
    decreases |schedule|
  {
    schedule == []
    || (Step(s, schedule[0]).Some? && s.at[schedule[0]] != Arrive
        && NobodyArrives(Step(s, schedule[0]).value, schedule[1..]))
  }

  /** After three threads have entered, nobody arrives until all have left: whoever is at the
      resource was there already. */
  lemma {:induction false} DrainsFirst(s: State, schedule: seq<nat>, t: State)
    requires Inv(s) && Closed(s) && BusyRun(s, schedule, t)
    ensures NobodyArrives(s, schedule) && |t.at| == |s.at| && t.active <= s.active
    ensures forall i :: 0 <= i < |s.at| && Using(t.at[i]) ==> Using(s.at[i])
    decreases |schedule|
  {
    if schedule == [] {
    } else {
      var i := schedule[0];
      StepInv(s, i);
      ClosedStep(s, i);
      if |schedule| > 1 {
        DrainsFirst(Step(s, i).value, schedule[1..], t);
      }
    }
  }

  lemma DrainsAfterThree(n: nat, before: seq<nat>, s: State, schedule: seq<nat>, t: State)
    requires Run(Start(n), before, s) && s.active == 3 && BusyRun(s, schedule, t)
    ensures NobodyArrives(s, schedule) && |t.at| == |s.at| && t.active <= s.active
    ensures forall i :: 0 <= i < |s.at| && Using(t.at[i]) ==> Using(s.at[i])
  {
    Reached(n, before, s);
    FullIsClosed(s);
    DrainsFirst(s, schedule, t);
  }

  // ---------- Whoever is parked stays parked ----------

  /** A thread that waits for `blocker` waits for good: `waiting` counts nobody. */
  lemma {:induction false} ParkedForGood(s: State, schedule: seq<nat>, t: State, i: nat)
    requires Inv(s) && Run(s, schedule, t) && i < |s.at| && s.at[i] == Parked
    ensures |t.at| == |s.at| && t.at[i] == Parked
    decreases |schedule|
  {
    if schedule == [] {
    } else {
      StepInv(s, schedule[0]);
      ParkedForGood(Step(s, schedule[0]).value, schedule[1..], t, i);
    }
  }

  /** But never all of them: one that is not parked can always go on. */
  lemma NeverStuck(n: nat, schedule: seq<nat>, s: State) returns (i: nat)
    requires n > 0 && Run(Start(n), schedule, s)
    ensures i < |s.at| && s.at[i] != Parked && Step(s, i).Some?
  {
    Reached(n, schedule, s);
    if s.mutex == 0 {
      i := CountWitness(s.at, Holding);
      assert Knows(s, s.at[i]);
    } else {
      i := CountWitness(s.at, Free);
      assert Knows(s, s.at[i]);
      if Holding(s.at[i]) {
        OnlyHolder(s, i, i);
      }
    }
  }

  /** Nobody is changing the globals, and `active`, `mustWait` are these. */
  function Calm(at: seq<Place>, active: int, mustWait: bool): State {
    State(at, 1, 0, active, 0, mustWait)
  }

  lemma Enters(at: seq<Place>, active: int, i: nat)
    requires i < |at| && at[i] == Enter
    ensures Run(Calm(at, active, false), [i, i, i, i, i], Calm(at[i := Inside], active + 1, active + 1 == 3))
  {
    var s := Calm(at, active, false);
    var a := s.(at := at[i := Check], mutex := 0);
    var b := a.(at := at[i := Arrive]);
    var c := b.(at := at[i := Full], active := active + 1);
    var d := c.(at := at[i := Open], mustWait := active + 1 == 3);
    var e := Calm(at[i := Inside], active + 1, active + 1 == 3);
    Twice(at, i, Check, Arrive);
    Twice(at, i, Arrive, Full);
    Twice(at, i, Full, Open);
    Twice(at, i, Open, Inside);
    Alone(s, i, a);
    Alone(a, i, b);
    Alone(b, i, c);
    Alone(c, i, d);
    Alone(d, i, e);
    Append(s, [i], a, [i], b);
    Append(s, [i, i], b, [i], c);
    Append(s, [i, i, i], c, [i], d);
    Append(s, [i, i, i, i], d, [i], e);
    assert [i, i, i, i] + [i] == [i, i, i, i, i];
  }

  /** Having seen that others are left, a thread leaves, comes again and parks. */
  lemma LeavesAndParks(at: seq<Place>, active: int, i: nat)
    requires i < |at| && at[i] == Inside && active > 1
    ensures Run(Calm(at, active, true), [i, i, i, i, i, i, i], Calm(at[i := Parked], active - 1, true))
  {
    var s := Calm(at, active, true);
    var a := s.(at := at[i := Depart], mutex := 0);
    var b := a.(at := at[i := Empty], active := active - 1);
    var c := b.(at := at[i := Close]);
    var d := Calm(at[i := Enter], active - 1, true);
    Twice(at, i, Depart, Empty);
    Twice(at, i, Empty, Close);
    Twice(at, i, Close, Enter);
    Twice(at, i, Enter, Parked);
    Alone(s, i, a);
    Alone(a, i, b);
    Alone(b, i, c);
    Alone(c, i, d);
    Append(s, [i], a, [i], b);
    Append(s, [i, i], b, [i], c);
    Append(s, [i, i, i], c, [i], d);
    Parks(at[i := Enter], active - 1, i);
    Append(s, [i, i, i, i], d, [i, i, i], Calm(at[i := Parked], active - 1, true));
    assert [i, i, i, i] + [i, i, i] == [i, i, i, i, i, i, i];
  }

  lemma Parks(at: seq<Place>, active: int, i: nat)
    requires i < |at| && at[i] == Enter
    ensures Run(Calm(at, active, true), [i, i, i], Calm(at[i := Parked], active, true))
  {
    var s := Calm(at, active, true);
    var a := s.(at := at[i := Check], mutex := 0);
    var b := a.(at := at[i := Release]);
    var c := Calm(at[i := Parked], active, true);
    Twice(at, i, Check, Release);
    Twice(at, i, Release, Parked);
    Alone(s, i, a);
    Alone(a, i, b);
    Alone(b, i, c);
    Append(s, [i], a, [i], b);
    Append(s, [i, i], b, [i], c);
  }

  lemma Twice(at: seq<Place>, i: nat, p: Place, q: Place)
    requires i < |at|
    ensures at[i := p][i := q] == at[i := q]
  {
  }

  lemma Alone(s: State, i: nat, t: State)
    requires Step(s, i) == Some(t)
    ensures Run(s, [i], t)
  {
    assert [i][1..] == [];
  }

  lemma {:induction false} Append(s: State, a: seq<nat>, t: State, b: seq<nat>, u: State)
    requires Run(s, a, t) && Run(t, b, u)
    ensures Run(s, a + b, u)
    decreases |a|
  {
    if a == [] {
      assert a + b == b;
    } else {
      Append(Step(s, a[0]).value, a[1..], t, b, u);
      assert (a + b)[1..] == a[1..] + b;
    }
  }

  /** The threads from k on park, those before being where they are. */
  lemma {:induction false} RestPark(at: seq<Place>, k: nat) returns (schedule: seq<nat>, end: seq<Place>)
    requires k <= |at| && forall i :: k <= i < |at| ==> at[i] == Enter
    ensures |end| == |at| && end[..k] == at[..k] && forall i :: k <= i < |at| ==> end[i] == Parked
    ensures Run(Calm(at, 1, true), schedule, Calm(end, 1, true))
    decreases |at| - k
  {
    if k == |at| {
      schedule, end := [], at;
    } else {
      Parks(at, 1, k);
      var rest;
      rest, end := RestPark(at[k := Parked], k + 1);
      schedule := [k, k, k] + rest;
      Append(Calm(at, 1, true), [k, k, k], Calm(at[k := Parked], 1, true), rest, Calm(end, 1, true));
      assert end[k] == end[..k + 1][k] == Parked;
      assert end[..k] == end[..k + 1][..k] == at[..k];
    }
  }

  lemma ThreeEnter(n: nat, at: seq<Place>) returns (schedule: seq<nat>)
    requires n >= 3 && at == Start(n).at[0 := Inside][1 := Inside][2 := Inside]
    ensures Run(Start(n), schedule, Calm(at, 3, true))
  {
    var at0 := Start(n).at;
    var at1, at2 := at0[0 := Inside], at0[0 := Inside][1 := Inside];
    Enters(at0, 0, 0);
    Enters(at1, 1, 1);
    Enters(at2, 2, 2);
    schedule := [0, 0, 0, 0, 0] + [1, 1, 1, 1, 1];
    Append(Start(n), [0, 0, 0, 0, 0], Calm(at1, 1, false), [1, 1, 1, 1, 1], Calm(at2, 2, false));
    Append(Start(n), schedule, Calm(at2, 2, false), [2, 2, 2, 2, 2], Calm(at, 3, true));
    schedule := schedule + [2, 2, 2, 2, 2];
  }

  lemma TwoPark(at: seq<Place>) returns (schedule: seq<nat>)
    requires |at| >= 3 && at[1] == at[2] == Inside
    ensures Run(Calm(at, 3, true), schedule, Calm(at[1 := Parked][2 := Parked], 1, true))
  {
    LeavesAndParks(at, 3, 1);
    LeavesAndParks(at[1 := Parked], 2, 2);
    schedule := [1, 1, 1, 1, 1, 1, 1] + [2, 2, 2, 2, 2, 2, 2];
    Append(Calm(at, 3, true), [1, 1, 1, 1, 1, 1, 1], Calm(at[1 := Parked], 2, true),
           [2, 2, 2, 2, 2, 2, 2], Calm(at[1 := Parked][2 := Parked], 1, true));
  }

  /** With three threads or more, all but one can end up parked: the code that would wake
      them never runs. */
  lemma AllButOnePark(n: nat) returns (schedule: seq<nat>, t: State)
    requires n >= 3
    ensures Run(Start(n), schedule, t) && |t.at| == n && forall i :: 1 <= i < n ==> t.at[i] == Parked
  {
    var at := Start(n).at[0 := Inside][1 := Inside][2 := Inside];
    var left := at[1 := Parked][2 := Parked];
    var a := ThreeEnter(n, at);
    var b := TwoPark(at);
    var c, end := RestPark(left, 3);
    Append(Start(n), a, Calm(at, 3, true), b, Calm(left, 1, true));
    Append(Start(n), a + b, Calm(left, 1, true), c, Calm(end, 1, true));
    schedule, t := a + b + c, Calm(end, 1, true);
    assert end[1] == end[..3][1] == left[..3][1] == Parked;
    assert end[2] == end[..3][2] == left[..3][2] == Parked;
  }

  ghost predicate MayPark(n: nat) {
    exists schedule, t :: Run(Start(n), schedule, t) && Parked in t.at
  }

  /** A thread may park, and then for good, exactly when there are three or more. */
  lemma ParkIffThree(n: nat)
    ensures MayPark(n) <==> n >= 3
  {
    if n >= 3 {
      var schedule, t := AllButOnePark(n);
      assert t.at[1] == Parked;
    } else {
      forall schedule, t | Run(Start(n), schedule, t) ensures Parked !in t.at {
        FewInv(n);
        FewRun(Start(n), schedule, t);
      }
    }
  }

  /** With at most two threads nobody is ever told to wait. */
  ghost predicate Few(s: State) {
    && Inv(s) && |s.at| <= 2 && !s.mustWait && Parked !in s.at && Release !in s.at
  }

  lemma FewInv(n: nat)
    requires n <= 2
    ensures Few(Start(n))
  {
    StartInv(n);
  }

  lemma {:induction false} FewRun(s: State, schedule: seq<nat>, t: State)
    requires Few(s) && Run(s, schedule, t)
    ensures Few(t)
    decreases |schedule|
  {
    if schedule == [] {
    } else {
      StepInv(s, schedule[0]);
      CountAtMost(s.at, Using);
      FewRun(Step(s, schedule[0]).value, schedule[1..], t);
    }
  }
}
