/** The entry and exit code of `insert`, `search` and `delete`: two light switches and a
    deleter, as steps of any number of threads. What they do to the list is not modelled. */
module SearchInsertDelete {
  import opened Counting
  import opened Wrappers

  // ---------- The threads ----------

  datatype Kind = Searchers | Inserters

  /** What a searcher or an inserter does next. */
  datatype Light =
    | Outside   // sem_trywait on the counter semaphore
    | WaitC     // sem_wait on it, sem_trywait having failed
    | Add       // counter += 1
    | Test      // is it the first of its group?
    | TryM      // sem_trywait on the group's semaphore (searchers only)
    | WaitM     // sem_wait on it
    | PostC     // give the counter semaphore back
    | Inside    // at the list, then sem_wait on the counter semaphore
    | Sub       // counter -= 1
    | TestOut   // is it the last of its group?
    | PostM     // give the group's semaphore back
    | PostOut   // give the counter semaphore back

  /** What a deleter does next. */
  datatype Deleter =
    | WaitS | WaitI | WaitD   // the three sem_waits
    | Deleting                // at the list, then sem_post(&searcher_mut)
    | PostI | PostD

  datatype Thread = OfGroup(kind: Kind, light: Light) | OfDeleters(deleter: Deleter)

  /** A counter, the semaphore around it, and the semaphore the group takes as one. `held`
      records whether the group has it. */
  datatype Group = Group(counterSem: nat, counter: int, mut: nat, held: bool)

  datatype State = State(threads: seq<Thread>, searchers: Group, inserters: Group, deleterMut: nat)
  {
    function Of(kind: Kind): Group {
      if kind.Searchers? then searchers else inserters
    }
  }

  predicate Resting(t: Thread) {
    t == OfGroup(Searchers, Outside) || t == OfGroup(Inserters, Outside) || t == OfDeleters(WaitS)
  }

  predicate AllRest(s: State) {
    forall t :: t in s.threads ==> Resting(t)
  }

  const FREE := Group(1, 0, 1, false)

  predicate Start(s: State) {
    AllRest(s) && s.searchers == s.inserters == FREE && s.deleterMut == 1
  }

  // ---------- Their steps ----------

  /** The next step of a searcher or inserter, or None where it is blocked. */
  function LightStep(kind: Kind, at: Light, g: Group): Option<(Light, Group)> {
    match at
    case Outside => if g.counterSem > 0 then Some((Add, g.(counterSem := g.counterSem - 1))) else Some((WaitC, g))
    case WaitC => if g.counterSem > 0 then Some((Add, g.(counterSem := g.counterSem - 1))) else None
    case Add => Some((Test, g.(counter := g.counter + 1)))
    case Test => Some((if g.counter != 1 then PostC else if kind.Searchers? then TryM else WaitM, g))
    case TryM => if g.mut > 0 then Some((PostC, g.(mut := g.mut - 1, held := true))) else Some((WaitM, g))
    case WaitM => if g.mut > 0 then Some((PostC, g.(mut := g.mut - 1, held := true))) else None
    case PostC => Some((Inside, g.(counterSem := g.counterSem + 1)))
    case Inside => if g.counterSem > 0 then Some((Sub, g.(counterSem := g.counterSem - 1))) else None
    case Sub => Some((TestOut, g.(counter := g.counter - 1)))
    case TestOut => Some((if g.counter == 0 then PostM else PostOut, g))
    case PostM => Some((PostOut, g.(mut := g.mut + 1, held := false)))
    case PostOut => Some((Outside, g.(counterSem := g.counterSem + 1)))
  }

  /** The next step of a deleter, on the semaphores of the searchers, the inserters and the
      deleters. */
  function DeleterStep(at: Deleter, searcher: nat, inserter: nat, deleter: nat): Option<(Deleter, nat, nat, nat)> {
    match at
    case WaitS => if searcher > 0 then Some((WaitI, searcher - 1, inserter, deleter)) else None
    case WaitI => if inserter > 0 then Some((WaitD, searcher, inserter - 1, deleter)) else None
    case WaitD => if deleter > 0 then Some((Deleting, searcher, inserter, deleter - 1)) else None
    case Deleting => Some((PostI, searcher + 1, inserter, deleter))
    case PostI => Some((PostD, searcher, inserter + 1, deleter))
    case PostD => Some((WaitS, searcher, inserter, deleter + 1))
  }

  /** Thread i takes its next step. */
  function Step(s: State, i: nat): Option<State> {
    if i >= |s.threads| then None
    else match s.threads[i]
      case OfGroup(kind, at) =>
        (match LightStep(kind, at, s.Of(kind))
         case None => None
         case Some((next, g)) =>
           var threads := s.threads[i := OfGroup(kind, next)];
           Some(if kind.Searchers? then s.(threads := threads, searchers := g)
                else s.(threads := threads, inserters := g)))
      case OfDeleters(at) =>
        (match DeleterStep(at, s.searchers.mut, s.inserters.mut, s.deleterMut)
         case None => None
         case Some((next, searcher, inserter, deleter)) =>
           Some(State(s.threads[i := OfDeleters(next)], s.searchers.(mut := searcher),
                      s.inserters.(mut := inserter), deleter)))
  }

  /** The threads step in the order of the schedule, none of them blocked. */
  predicate Run(s: State, schedule: seq<nat>, t: State)
    decreases |schedule|
  {
    if schedule == [] then s == t
    else
      var next := Step(s, schedule[0]);
      next.Some? && Run(next.value, schedule[1..], t)
  }

  // ---------- Kinds of threads ----------

  /** Holding the counter semaphore of group k. */
  predicate Holds(t: Thread, k: Kind) {
    t.OfGroup? && t.kind == k && t.light !in {Outside, WaitC, Inside}
  }

  /** Holding the semaphore of group k as a deleter. */
  predicate Bars(t: Thread, k: Kind) {
    t.OfDeleters? && (t.deleter in {WaitD, Deleting} || t.deleter == if k.Searchers? then WaitI else PostI)
  }

  function Holding(k: Kind): Thread -> bool {
    t => Holds(t, k)
  }

  function Insiders(k: Kind): Thread -> bool {
    t => t == OfGroup(k, Inside)
  }

  function Barring(k: Kind): Thread -> bool {
    t => Bars(t, k)
  }

  /** Holding the deleters' semaphore. */
  predicate Erasing(t: Thread) {
    t.OfDeleters? && t.deleter in {Deleting, PostI, PostD}
  }

  // ---------- The invariant ----------

  predicate IsCounted(at: Light) {
    at in {Test, TryM, WaitM, PostC, Sub}
  }

  predicate IsPast(at: Light) {
    at in {PostC, Sub, TestOut, PostM}
  }

  /** What the holder of the counter semaphore of group k, at this place, can rely on, with n of
      its group at the list. */
  predicate Knows(g: Group, n: nat, at: Light) {
    && g.counter == n + (if IsCounted(at) then 1 else 0)
    && (g.held <==> n > 0 || IsPast(at))
    && (at in {TryM, WaitM, PostM} ==> n == 0)
  }

  /** What holds between the holders. */
  predicate Settled(g: Group, n: nat) {
    g.counter == n && (g.held <==> n > 0)
  }

  ghost predicate HoldersKnow(threads: seq<Thread>, k: Kind, g: Group, n: nat) {
    forall i :: 0 <= i < |threads| && Holds(threads[i], k) ==> Knows(g, n, threads[i].light)
  }

  ghost predicate GroupInv(threads: seq<Thread>, k: Kind, g: Group) {
    var n := Count(threads, Insiders(k));
    && g.counterSem + Count(threads, Holding(k)) == 1
    && g.mut + (if g.held then 1 else 0) + Count(threads, Barring(k)) == 1
    && (g.counterSem == 1 ==> Settled(g, n))
    && HoldersKnow(threads, k, g, n)
  }

  ghost predicate Inv(s: State) {
    && GroupInv(s.threads, Searchers, s.searchers) && GroupInv(s.threads, Inserters, s.inserters)
    && s.deleterMut + Count(s.threads, Erasing) == 1
  }

  lemma StartInv(s: State)
    requires Start(s)
    ensures Inv(s)
  {
    RestingGroup(s, Searchers);
    RestingGroup(s, Inserters);
  }

  lemma RestingGroup(s: State, k: Kind)
    requires AllRest(s)
    ensures Count(s.threads, Holding(k)) == Count(s.threads, Insiders(k)) == Count(s.threads, Barring(k)) == 0
    ensures Count(s.threads, Erasing) == 0
    ensures forall i :: 0 <= i < |s.threads| ==> !Holds(s.threads[i], k)
  {
    CountNone(s.threads, Holding(k));
    CountNone(s.threads, Insiders(k));
    CountNone(s.threads, Barring(k));
    CountNone(s.threads, Erasing);
    forall i | 0 <= i < |s.threads| ensures !Holds(s.threads[i], k) {
      assert s.threads[i] in s.threads;
    }
  }

  /** Only one at a time holds a group's counter semaphore. */
  lemma OnlyHolder(threads: seq<Thread>, k: Kind, i: nat, j: nat)
    requires Count(threads, Holding(k)) <= 1 && i < |threads| && j < |threads| && i != j
    requires Holds(threads[i], k)
    ensures !Holds(threads[j], k)
  {
    if Holds(threads[j], k) {
      CountTwo(threads, if i < j then i else j, if i < j then j else i, Holding(k));
    }
  }

  lemma LightKeeps(threads: seq<Thread>, i: nat, k: Kind, at: Light, next: Light, g: Group, h: Group)
    requires GroupInv(threads, k, g) && i < |threads| && threads[i] == OfGroup(k, at)
    requires LightStep(k, at, g) == Some((next, h))
    ensures GroupInv(threads[i := OfGroup(k, next)], k, h)
  {
    var t, more := OfGroup(k, next), threads[i := OfGroup(k, next)];
    CountMoved(threads, i, t, Holding(k));
    CountMoved(threads, i, t, Insiders(k));
    CountMoved(threads, i, t, Barring(k));
    if Holds(threads[i], k) {
      CountOne(threads, i, Holding(k));
      assert Knows(g, Count(threads, Insiders(k)), at);
    }
    if at == Inside {
      CountOne(threads, i, Insiders(k));
    }
    OthersDoNotHold(threads, i, k, at, next, g, h);
  }

  /** Where a thread steps on its counter semaphore's right, no other one has that right. */
  lemma OthersDoNotHold(threads: seq<Thread>, i: nat, k: Kind, at: Light, next: Light, g: Group, h: Group)
    requires GroupInv(threads, k, g) && i < |threads| && threads[i] == OfGroup(k, at)
    requires LightStep(k, at, g) == Some((next, h))
    ensures next == WaitC || forall j :: 0 <= j < |threads| && j != i ==> !Holds(threads[j], k)
  {
    if next != WaitC {
      forall j | 0 <= j < |threads| && j != i ensures !Holds(threads[j], k) {
        if Holds(threads[j], k) {
          CountOne(threads, j, Holding(k));
          OnlyHolder(threads, k, j, i);
        }
      }
    }
  }

  /** A step of somebody else changes nothing for group k. */
  lemma OthersKeep(threads: seq<Thread>, i: nat, t: Thread, k: Kind, g: Group)
    requires GroupInv(threads, k, g) && i < |threads|
    requires threads[i].OfGroup? && t.OfGroup? && threads[i].kind == t.kind != k
    ensures GroupInv(threads[i := t], k, g)
    ensures Count(threads[i := t], Erasing) == Count(threads, Erasing)
  {
    CountMoved(threads, i, t, Holding(k));
    CountMoved(threads, i, t, Insiders(k));
    CountMoved(threads, i, t, Barring(k));
    CountMoved(threads, i, t, Erasing);
  }

  /** A deleter's step, for group k. */
  lemma DeleterKeeps(threads: seq<Thread>, i: nat, t: Thread, k: Kind, g: Group, mut: nat)
    requires GroupInv(threads, k, g) && i < |threads| && threads[i].OfDeleters? && t.OfDeleters?
    requires mut - g.mut == (if Bars(threads[i], k) then 1 else 0) - (if Bars(t, k) then 1 else 0)
    ensures GroupInv(threads[i := t], k, g.(mut := mut))
  {
    CountMoved(threads, i, t, Holding(k));
    CountMoved(threads, i, t, Insiders(k));
    CountMoved(threads, i, t, Barring(k));
  }

  /** Every step keeps the invariant. */
  lemma StepInv(s: State, i: nat)
    requires Inv(s) && Step(s, i).Some?
    ensures Inv(Step(s, i).value)
  {
    var n := Step(s, i).value;
    match s.threads[i]
    case OfGroup(kind, at) =>
      var other := if kind.Searchers? then Inserters else Searchers;
      LightKeeps(s.threads, i, kind, at, n.threads[i].light, s.Of(kind), n.Of(kind));
      OthersKeep(s.threads, i, n.threads[i], other, s.Of(other));
    case OfDeleters(at) =>
      CountMoved(s.threads, i, n.threads[i], Erasing);
      DeleterKeeps(s.threads, i, n.threads[i], Searchers, s.searchers, n.searchers.mut);
      DeleterKeeps(s.threads, i, n.threads[i], Inserters, s.inserters, n.inserters.mut);
  }

  lemma {:induction false} RunInv(s: State, schedule: seq<nat>, t: State)
    requires Inv(s) && Run(s, schedule, t)
    ensures Inv(t)
    decreases |schedule|
  {
    if schedule == [] {
    } else {
      StepInv(s, schedule[0]);
      RunInv(Step(s, schedule[0]).value, schedule[1..], t);
    }
  }

  lemma Reached(start: State, schedule: seq<nat>, s: State)
    requires Start(start) && Run(start, schedule, s)
    ensures Inv(s)
  {
    StartInv(start);
    RunInv(start, schedule, s);
  }

  // ---------- Exclusion ----------

  /** While a deleter is at the list, nobody else is. */
  lemma DeleterAlone(start: State, schedule: seq<nat>, s: State, d: nat, i: nat)
    requires Start(start) && Run(start, schedule, s)
    requires d < |s.threads| && s.threads[d] == OfDeleters(Deleting) && i < |s.threads| && i != d
    ensures s.threads[i] !in {OfGroup(Searchers, Inside), OfGroup(Inserters, Inside), OfDeleters(Deleting)}
  {
    Reached(start, schedule, s);
    NobodyBeside(s, d, i);
  }

  lemma NobodyBeside(s: State, d: nat, i: nat)
    requires Inv(s) && d < |s.threads| && s.threads[d] == OfDeleters(Deleting) && i < |s.threads| && i != d
    ensures s.threads[i] !in {OfGroup(Searchers, Inside), OfGroup(Inserters, Inside), OfDeleters(Deleting)}
  {
    Excluded(s.threads, d, i, Searchers, s.searchers);
    Excluded(s.threads, d, i, Inserters, s.inserters);
    if s.threads[i] == OfDeleters(Deleting) {
      CountTwo(s.threads, if i < d then i else d, if i < d then d else i, Erasing);
    }
  }

  /** While some of a group are at the list, its semaphore is taken by the group. */
  lemma InsideHeld(threads: seq<Thread>, i: nat, k: Kind, g: Group)
    requires GroupInv(threads, k, g) && i < |threads| && threads[i] == OfGroup(k, Inside)
    ensures g.held && g.mut == 0
  {
    CountOne(threads, i, Insiders(k));
    if g.counterSem == 0 {
      var j := CountWitness(threads, Holding(k));
      assert Knows(g, Count(threads, Insiders(k)), threads[j].light);
    }
  }

  lemma Excluded(threads: seq<Thread>, d: nat, i: nat, k: Kind, g: Group)
    requires GroupInv(threads, k, g) && d < |threads| && Bars(threads[d], k) && i < |threads|
    ensures threads[i] != OfGroup(k, Inside)
  {
    CountOne(threads, d, Barring(k));
    if threads[i] == OfGroup(k, Inside) {
      InsideHeld(threads, i, k, g);
    }
  }

  /** A light switch has its semaphore while somebody of its group is inside and, while nobody
      is entering or leaving, exactly then; no deleter is past that semaphore meanwhile. */
  lemma SwitchExact(start: State, schedule: seq<nat>, s: State, k: Kind)
    requires Start(start) && Run(start, schedule, s)
    ensures var g := s.Of(k);
            && (OfGroup(k, Inside) in s.threads ==> g.held && g.mut == 0)
            && (g.counterSem == 1 ==> (g.held <==> OfGroup(k, Inside) in s.threads)
                                      && g.counter == Count(s.threads, Insiders(k)))
            && (g.held ==> OfDeleters(WaitD) !in s.threads && OfDeleters(Deleting) !in s.threads)
  {
    Reached(start, schedule, s);
    SwitchOf(s.threads, k, s.Of(k));
  }

  lemma SwitchOf(threads: seq<Thread>, k: Kind, g: Group)
    requires GroupInv(threads, k, g)
    ensures OfGroup(k, Inside) in threads ==> g.held && g.mut == 0
    ensures g.counterSem == 1 ==>
      (g.held <==> OfGroup(k, Inside) in threads) && g.counter == Count(threads, Insiders(k))
    ensures g.held ==> OfDeleters(WaitD) !in threads && OfDeleters(Deleting) !in threads
  {
    if OfGroup(k, Inside) in threads {
      var i :| 0 <= i < |threads| && threads[i] == OfGroup(k, Inside);
      InsideHeld(threads, i, k, g);
    } else if Count(threads, Insiders(k)) > 0 {
      var i := CountWitness(threads, Insiders(k));
    }
    if OfDeleters(WaitD) in threads {
      var i :| 0 <= i < |threads| && threads[i] == OfDeleters(WaitD);
      CountOne(threads, i, Barring(k));
    }
    if OfDeleters(Deleting) in threads {
      var i :| 0 <= i < |threads| && threads[i] == OfDeleters(Deleting);
      CountOne(threads, i, Barring(k));
    }
  }

  // ---------- Progress ----------

  /** Thread i is on its way in or out, and can take its next step. */
  predicate Moves(s: State, i: nat) {
    i < |s.threads| && !Resting(s.threads[i]) && Step(s, i).Some?
  }

  /** A deleter past the second semaphore can go on, or the one who has the third can. */
  lemma DeleterMoves(s: State, i: nat) returns (j: nat)
    requires Inv(s) && i < |s.threads| && s.threads[i].OfDeleters? && s.threads[i].deleter !in {WaitS, WaitI}
    ensures Moves(s, j)
  {
    if s.threads[i].deleter == WaitD && s.deleterMut == 0 {
      j := CountWitness(s.threads, Erasing);
    } else {
      j := i;
    }
  }

  /** While a group has its semaphore, somebody of the group can go on. */
  lemma HeldMoves(s: State, k: Kind) returns (j: nat)
    requires Inv(s) && s.Of(k).held
    ensures Moves(s, j)
  {
    assert GroupInv(s.threads, k, s.Of(k));
    if s.Of(k).counterSem == 0 {
      j := CountWitness(s.threads, Holding(k));
      assert Knows(s.Of(k), Count(s.threads, Insiders(k)), s.threads[j].light);
    } else {
      j := CountWitness(s.threads, Insiders(k));
    }
  }

  lemma WaitIMoves(s: State, i: nat) returns (j: nat)
    requires Inv(s) && i < |s.threads| && s.threads[i] == OfDeleters(WaitI)
    ensures Moves(s, j)
  {
    if s.inserters.mut > 0 {
      j := i;
    } else if s.inserters.held {
      j := HeldMoves(s, Inserters);
    } else {
      var d := CountWitness(s.threads, Barring(Inserters));
      j := DeleterMoves(s, d);
    }
  }

  /** Whoever has a group's counter semaphore can go on, or somebody it waits for can. */
  lemma HolderMoves(s: State, k: Kind) returns (j: nat)
    requires Inv(s) && s.Of(k).counterSem == 0
    ensures Moves(s, j)
  {
    assert GroupInv(s.threads, k, s.Of(k));
    var i := CountWitness(s.threads, Holding(k));
    if s.threads[i].light != WaitM || s.Of(k).mut > 0 {
      j := i;
    } else {
      assert Knows(s.Of(k), Count(s.threads, Insiders(k)), WaitM);
      var d := CountWitness(s.threads, Barring(k));
      if s.threads[d].deleter == WaitI {
        j := WaitIMoves(s, d);
      } else {
        j := DeleterMoves(s, d);
      }
    }
  }

  /** Unless everybody is resting, somebody who is not can step. */
  lemma BusyMoves(s: State) returns (j: nat)
    requires Inv(s) && !AllRest(s)
    ensures Moves(s, j)
  {
    var t :| t in s.threads && !Resting(t);
    var i :| 0 <= i < |s.threads| && s.threads[i] == t;
    if Step(s, i).Some? {
      j := i;
    } else {
      match t
      case OfGroup(kind, at) =>
        j := HolderOrSelf(s, i, kind, at);
      case OfDeleters(at) =>
        if at == WaitI {
          j := WaitIMoves(s, i);
        } else {
          j := DeleterMoves(s, i);
        }
    }
  }

  lemma HolderOrSelf(s: State, i: nat, k: Kind, at: Light) returns (j: nat)
    requires Inv(s) && i < |s.threads| && s.threads[i] == OfGroup(k, at) && Step(s, i).None?
    ensures Moves(s, j)
  {
    assert GroupInv(s.threads, k, s.Of(k));
    if Holds(s.threads[i], k) {
      CountOne(s.threads, i, Holding(k));
    }
    j := HolderMoves(s, k);
  }

  lemma RestIsStart(s: State)
    requires Inv(s) && AllRest(s)
    ensures Start(s)
  {
    RestingGroup(s, Searchers);
    RestingGroup(s, Inserters);
  }

  /** No deadlock: in every reachable state somebody can step, somebody on its way in or out if
      there is one; and when all rest, everybody can. */
  lemma Progress(start: State, schedule: seq<nat>, s: State) returns (j: nat)
    requires Start(start) && Run(start, schedule, s) && start.threads != []
    ensures j < |s.threads| && Step(s, j).Some? && (AllRest(s) || !Resting(s.threads[j]))
    ensures AllRest(s) ==> forall i :: 0 <= i < |s.threads| ==> Step(s, i).Some?
  {
    Reached(start, schedule, s);
    KindsStay(start, schedule, s);
    if AllRest(s) {
      RestIsStart(s);
      forall i | 0 <= i < |s.threads| ensures Step(s, i).Some? {
        assert s.threads[i] in s.threads;
      }
      j := 0;
    } else {
      j := BusyMoves(s);
    }
  }

  predicate SameKind(t: Thread, u: Thread) {
    if t.OfGroup? then u.OfGroup? && u.kind == t.kind else u.OfDeleters?
  }

  /** A thread remains what it is. */
  lemma {:induction false} KindsStay(s: State, schedule: seq<nat>, t: State)
    requires Run(s, schedule, t)
    ensures |t.threads| == |s.threads|
    ensures forall i :: 0 <= i < |s.threads| ==> SameKind(s.threads[i], t.threads[i])
    decreases |schedule|
  {
    if schedule == [] {
    } else {
      KindsStay(Step(s, schedule[0]).value, schedule[1..], t);
    }
  }

  // ---------- Everybody can leave ----------

  function Distance(t: Thread): nat {
    match t
    case OfGroup(_, at) =>
      (match at
       case Outside => 0
       case WaitC => 11
       case Add => 10
       case Test => 9
       case TryM => 8
       case WaitM => 7
       case PostC => 6
       case Inside => 5
       case Sub => 4
       case TestOut => 3
       case PostM => 2
       case PostOut => 1)
    case OfDeleters(at) =>
      (match at
       case WaitS => 0
       case WaitI => 5
       case WaitD => 4
       case Deleting => 3
       case PostI => 2
       case PostD => 1)
  }

  function Distances(threads: seq<Thread>): nat {
    if threads == [] then 0 else Distance(threads[0]) + Distances(threads[1..])
  }

  lemma {:induction false} DistancesMoved(s: seq<Thread>, i: nat, t: Thread)
    requires i < |s|
    ensures Distances(s[i := t]) == Distances(s) - Distance(s[i]) + Distance(t)
  {
    if i == 0 {
      assert s[i := t][1..] == s[1..];
    } else {
      assert s[i := t][1..] == s[1..][i - 1 := t];
      DistancesMoved(s[1..], i - 1, t);
    }
  }

  lemma StepNearer(s: State, i: nat)
    requires Step(s, i).Some? && !Resting(s.threads[i])
    ensures Distances(Step(s, i).value.threads) < Distances(s.threads)
  {
    DistancesMoved(s.threads, i, Step(s, i).value.threads[i]);
  }

  /** Nobody starts anew during the run. */
  predicate NoArrivals(s: State, schedule: seq<nat>)
    decreases |schedule|
  {
    schedule == []
    || (Step(s, schedule[0]).Some? && !Resting(s.threads[schedule[0]])
        && NoArrivals(Step(s, schedule[0]).value, schedule[1..]))
  }

  /** However the threads are scheduled, without arrivals they run for a bounded time, and when
      nobody can go on everybody is outside and every semaphore is back. */
  lemma {:induction false} EveryRunDrains(s: State, schedule: seq<nat>, t: State)
    requires Inv(s) && Run(s, schedule, t) && NoArrivals(s, schedule)
    ensures |schedule| <= Distances(s.threads)
    ensures Start(t) || exists i :: Moves(t, i)
    decreases |schedule|
  {
    if schedule == [] {
      if AllRest(t) {
        RestIsStart(t);
      } else {
        var i := BusyMoves(t);
      }
    } else {
      StepInv(s, schedule[0]);
      StepNearer(s, schedule[0]);
      EveryRunDrains(Step(s, schedule[0]).value, schedule[1..], t);
    }
  }

  /** From every reachable state there is a run that ends so. */
  lemma {:induction false} CanDrain(s: State) returns (schedule: seq<nat>, t: State)
    requires Inv(s)
    ensures Run(s, schedule, t) && NoArrivals(s, schedule) && Start(t)
    decreases Distances(s.threads)
  {
    if AllRest(s) {
      RestIsStart(s);
      schedule, t := [], s;
    } else {
      var i := BusyMoves(s);
      StepInv(s, i);
      StepNearer(s, i);
      var rest;
      rest, t := CanDrain(Step(s, i).value);
      schedule := [i] + rest;
      assert schedule[1..] == rest;
    }
  }

  // ---------- Everybody can come in ----------

  lemma {:induction false} Append(s: State, a: seq<nat>, t: State, b: seq<nat>, u: State)
    requires Run(s, a, t) && Run(t, b, u)
    ensures Run(s, a + b, u)
    decreases |a|
  {
    if a == [] {
      assert a + b == b;
    } else {
      Append(Step(s, a[0]).value, a[1..], t, b, u);
      assert (a + b)[1..] == a[1..] + b;
    }
  }

  lemma OneMore(s: State, schedule: seq<nat>, t: State, i: nat)
    requires Run(s, schedule, t) && Step(t, i).Some?
    ensures Run(s, schedule + [i], Step(t, i).value)
  {
    assert [i][1..] == [];
    Append(s, schedule, t, [i], Step(t, i).value);
  }

  /** Thread i of group k is at this place, and the group is as g says; nothing else differs from s. */
  function With(s: State, i: nat, k: Kind, at: Light, g: Group): State
    requires i < |s.threads|
  {
    var threads := s.threads[i := OfGroup(k, at)];
    if k.Searchers? then s.(threads := threads, searchers := g) else s.(threads := threads, inserters := g)
  }

  lemma WithStep(s: State, schedule: seq<nat>, i: nat, k: Kind, at: Light, g: Group, next: Light, h: Group)
    requires i < |s.threads| && Run(s, schedule, With(s, i, k, at, g))
    requires LightStep(k, at, g) == Some((next, h))
    ensures Run(s, schedule + [i], With(s, i, k, next, h))
  {
    var t := With(s, i, k, at, g);
    assert t.threads[i := OfGroup(k, next)] == s.threads[i := OfGroup(k, next)];
    OneMore(s, schedule, t, i);
  }

  lemma WithItself(s: State, i: nat, k: Kind)
    requires i < |s.threads| && s.threads[i] == OfGroup(k, Outside)
    ensures With(s, i, k, Outside, s.Of(k)) == s
  {
    assert s.threads[i := OfGroup(k, Outside)] == s.threads;
  }

  /** The first of a group takes the group's semaphore on its way to the list. */
  lemma FirstEnters(s: State, i: nat, k: Kind)
    requires i < |s.threads| && s.threads[i] == OfGroup(k, Outside) && s.Of(k) == FREE
    ensures Run(s, [] + [i] + [i] + [i] + [i] + [i], With(s, i, k, Inside, Group(1, 1, 0, true)))
  {
    var taking := if k.Searchers? then TryM else WaitM;
    WithItself(s, i, k);
    WithStep(s, [], i, k, Outside, FREE, Add, Group(0, 0, 1, false));
    WithStep(s, [] + [i], i, k, Add, Group(0, 0, 1, false), Test, Group(0, 1, 1, false));
    WithStep(s, [] + [i] + [i], i, k, Test, Group(0, 1, 1, false), taking, Group(0, 1, 1, false));
    WithStep(s, [] + [i] + [i] + [i], i, k, taking, Group(0, 1, 1, false), PostC, Group(0, 1, 0, true));
    WithStep(s, [] + [i] + [i] + [i] + [i], i, k, PostC, Group(0, 1, 0, true), Inside, Group(1, 1, 0, true));
  }

  /** The others walk past it. */
  lemma LaterEnters(s: State, i: nat, k: Kind, n: nat)
    requires n > 0 && i < |s.threads| && s.threads[i] == OfGroup(k, Outside) && s.Of(k) == Group(1, n, 0, true)
    ensures Run(s, [] + [i] + [i] + [i] + [i], With(s, i, k, Inside, Group(1, n + 1, 0, true)))
  {
    WithItself(s, i, k);
    WithStep(s, [], i, k, Outside, Group(1, n, 0, true), Add, Group(0, n, 0, true));
    WithStep(s, [] + [i], i, k, Add, Group(0, n, 0, true), Test, Group(0, n + 1, 0, true));
    WithStep(s, [] + [i] + [i], i, k, Test, Group(0, n + 1, 0, true), PostC, Group(0, n + 1, 0, true));
    WithStep(s, [] + [i] + [i] + [i], i, k, PostC, Group(0, n + 1, 0, true), Inside, Group(1, n + 1, 0, true));
  }

  /** Where a deleter was before it came to p. */
  function Before(p: Deleter): Deleter {
    match p
    case WaitS => WaitS
    case WaitI => WaitS
    case WaitD => WaitI
    case Deleting => WaitD
    case PostI => Deleting
    case PostD => PostI
  }

  /** Deleter i is at this place, with the semaphores it has taken; all others rest. */
  function WithDeleter(s: State, i: nat, p: Deleter): State
    requires i < |s.threads|
  {
    State(s.threads[i := OfDeleters(p)],
      FREE.(mut := if p in {WaitI, WaitD, Deleting} then 0 else 1),
      FREE.(mut := if p in {WaitD, Deleting, PostI} then 0 else 1),
      if p in {Deleting, PostI, PostD} then 0 else 1)
  }

  /** When all rest, a deleter can go to any place. */
  lemma {:induction false} DeleterWalks(s: State, i: nat, p: Deleter) returns (schedule: seq<nat>)
    requires Start(s) && i < |s.threads| && s.threads[i] == OfDeleters(WaitS)
    ensures Run(s, schedule, WithDeleter(s, i, p))
    decreases if p == WaitS then 0 else 6 - Distance(OfDeleters(p))
  {
    if p == WaitS {
      assert s.threads[i := OfDeleters(WaitS)] == s.threads;
      schedule := [];
    } else {
      var first := DeleterWalks(s, i, Before(p));
      var m := WithDeleter(s, i, Before(p));
      assert m.threads[i := OfDeleters(p)] == s.threads[i := OfDeleters(p)];
      OneMore(s, first, m, i);
      schedule := first + [i];
    }
  }

  predicate AtList(t: Thread) {
    t == OfDeleters(Deleting) || (t.OfGroup? && t.light == Inside)
  }

  /** From every reachable state, every thread can be brought to the list. */
  lemma GetsToList(s: State, i: nat) returns (schedule: seq<nat>, t: State)
    requires Inv(s) && i < |s.threads|
    ensures Run(s, schedule, t) && i < |t.threads| && AtList(t.threads[i])
  {
    var a, b := CanDrain(s);
    KindsStay(s, a, b);
    var c;
    c, t := AnyEnters(b, i);
    schedule := a + c;
    Append(s, a, b, c, t);
  }

  lemma AnyEnters(s: State, i: nat) returns (schedule: seq<nat>, t: State)
    requires Start(s) && i < |s.threads|
    ensures Run(s, schedule, t) && i < |t.threads| && AtList(t.threads[i])
  {
    assert s.threads[i] in s.threads;
    match s.threads[i]
    case OfGroup(k, at) =>
      FirstEnters(s, i, k);
      schedule, t := [] + [i] + [i] + [i] + [i] + [i], With(s, i, k, Inside, Group(1, 1, 0, true));
    case OfDeleters(at) =>
      schedule := DeleterWalks(s, i, Deleting);
      t := WithDeleter(s, i, Deleting);
  }

  // ---------- Who can be at the list together ----------

  /** Everybody rests or is at the list, and no deleter is. */
  predicate NobodyBetween(s: State) {
    forall t :: t in s.threads ==> Resting(t) || (t.OfGroup? && t.light == Inside)
  }

  /** Then the semaphores and counters of a group tell how many of it are at the list. */
  lemma GroupIs(s: State, k: Kind)
    requires Inv(s) && NobodyBetween(s)
    ensures var n := Count(s.threads, Insiders(k));
            s.Of(k) == if n == 0 then FREE else Group(1, n, 0, true)
  {
    CountNone(s.threads, Holding(k));
    CountNone(s.threads, Barring(k));
    assert GroupInv(s.threads, k, s.Of(k));
  }

  lemma OneMoreEnters(s: State, i: nat, k: Kind) returns (schedule: seq<nat>, t: State)
    requires Inv(s) && NobodyBetween(s) && i < |s.threads| && s.threads[i] == OfGroup(k, Outside)
    ensures Run(s, schedule, t) && Inv(t) && NobodyBetween(t) && t.threads == s.threads[i := OfGroup(k, Inside)]
  {
    var n := Count(s.threads, Insiders(k));
    GroupIs(s, k);
    if n == 0 {
      FirstEnters(s, i, k);
      schedule, t := [] + [i] + [i] + [i] + [i] + [i], With(s, i, k, Inside, Group(1, 1, 0, true));
    } else {
      LaterEnters(s, i, k, n);
      schedule, t := [] + [i] + [i] + [i] + [i], With(s, i, k, Inside, Group(1, n + 1, 0, true));
    }
    RunInv(s, schedule, t);
    forall u | u in t.threads ensures Resting(u) || (u.OfGroup? && u.light == Inside) {
      assert u == OfGroup(k, Inside) || u in s.threads;
    }
  }

  ghost predicate AllAtList(s: State, e: set<nat>) {
    forall i :: i in e ==> i < |s.threads| && AtList(s.threads[i])
  }

  /** Searchers and inserters come in one by one. */
  lemma {:induction false} AllEnter(s: State, e: set<nat>) returns (schedule: seq<nat>, t: State)
    requires Start(s) && forall i :: i in e ==> i < |s.threads| && s.threads[i].OfGroup?
    ensures Run(s, schedule, t) && Inv(t) && NobodyBetween(t) && |t.threads| == |s.threads| && AllAtList(t, e)
    ensures forall i :: 0 <= i < |s.threads| && i !in e ==> t.threads[i] == s.threads[i]
    decreases |e|
  {
    if e == {} {
      StartInv(s);
      schedule, t := [], s;
    } else {
      var i :| i in e;
      var first, m := AllEnter(s, e - {i});
      var last;
      assert s.threads[i] in s.threads;
      last, t := OneMoreEnters(m, i, s.threads[i].kind);
      schedule := first + last;
      Append(s, first, m, last, t);
    }
  }

  /** Some run from s brings all of e to the list at the same time. */
  ghost predicate MayMeet(s: State, e: set<nat>) {
    exists schedule, t :: Run(s, schedule, t) && AllAtList(t, e)
  }

  /** From every reachable state, any threads, however many, can come to be at the list at the same
      time exactly if there is no deleter among them, or nobody else. */
  lemma MeetIff(s: State, e: set<nat>)
    requires Inv(s) && forall i :: i in e ==> i < |s.threads|
    ensures MayMeet(s, e) <==> forall d, i :: d in e && i in e && s.threads[d].OfDeleters? ==> i == d
  {
    if MayMeet(s, e) {
      var schedule, t :| Run(s, schedule, t) && AllAtList(t, e);
      RunInv(s, schedule, t);
      KindsStay(s, schedule, t);
      forall d, i | d in e && i in e && s.threads[d].OfDeleters? ensures i == d {
        if i != d {
          NobodyBeside(t, d, i);
        }
      }
    }
    if forall d, i :: d in e && i in e && s.threads[d].OfDeleters? ==> i == d {
      MeetsThere(s, e);
    }
  }

  lemma MeetsThere(s: State, e: set<nat>)
    requires Inv(s) && forall i :: i in e ==> i < |s.threads|
    requires forall d, i :: d in e && i in e && s.threads[d].OfDeleters? ==> i == d
    ensures MayMeet(s, e)
  {
    if d: nat :| d in e && s.threads[d].OfDeleters? {
      var schedule, t := GetsToList(s, d);
      assert AllAtList(t, e);
    } else {
      var a, b := CanDrain(s);
      KindsStay(s, a, b);
      var c, t := AllEnter(b, e);
      Append(s, a, b, c, t);
    }
  }

  /** Thread d is a deleter at place p while thread i, of group k, is at the list. */
  ghost predicate SideBySide(s: State, d: nat, p: Deleter, i: nat, k: Kind) {
    d < |s.threads| && i < |s.threads| && s.threads[d] == OfDeleters(p) && s.threads[i] == OfGroup(k, Inside)
  }

  ghost predicate MayBeSideBySide(s: State, d: nat, p: Deleter, i: nat, k: Kind) {
    exists schedule, t :: Run(s, schedule, t) && SideBySide(t, d, p, i, k)
  }

  /** Which group a deleter keeps out, and how long: from every reachable state, searchers can be at
      the list unless it is past its first wait and has not given that semaphore back, inserters
      unless it is past its second wait and has not given that one back. */
  lemma SideBySideIff(s: State, d: nat, p: Deleter, i: nat, k: Kind)
    requires Inv(s) && d < |s.threads| && i < |s.threads| && s.threads[d].OfDeleters? && InGroup(s.threads[i], k)
    ensures MayBeSideBySide(s, d, p, i, k) <==>
              p !in (if k == Searchers then {WaitI, WaitD, Deleting} else {WaitD, Deleting, PostI})
  {
    if MayBeSideBySide(s, d, p, i, k) {
      var schedule, t :| Run(s, schedule, t) && SideBySide(t, d, p, i, k);
      RunInv(s, schedule, t);
      if Bars(t.threads[d], k) {
        Excluded(t.threads, d, i, k, t.Of(k));
      }
    }
    if p !in (if k == Searchers then {WaitI, WaitD, Deleting} else {WaitD, Deleting, PostI}) {
      var a, b := CanDrain(s);
      KindsStay(s, a, b);
      var c, t := ComesBeside(b, d, p, i, k);
      Append(s, a, b, c, t);
    }
  }

  lemma ComesBeside(s: State, d: nat, p: Deleter, i: nat, k: Kind) returns (schedule: seq<nat>, t: State)
    requires Start(s) && d < |s.threads| && i < |s.threads| && s.threads[d].OfDeleters? && InGroup(s.threads[i], k)
    requires p !in (if k == Searchers then {WaitI, WaitD, Deleting} else {WaitD, Deleting, PostI})
    ensures Run(s, schedule, t) && SideBySide(t, d, p, i, k)
  {
    assert s.threads[d] in s.threads && s.threads[i] in s.threads;
    var first := DeleterWalks(s, d, p);
    var m := WithDeleter(s, d, p);
    var last := [] + [i] + [i] + [i] + [i] + [i];
    FirstEnters(m, i, k);
    schedule, t := first + last, With(m, i, k, Inside, Group(1, 1, 0, true));
    Append(s, first, m, last, t);
  }

  // ---------- Several of a group at once ----------

  /** Two threads of group k are at the list. */
  ghost predicate Overlap(s: State, k: Kind) {
    exists i, j :: 0 <= i < j < |s.threads| && s.threads[i] == s.threads[j] == OfGroup(k, Inside)
  }

  ghost predicate MayOverlap(s: State, k: Kind) {
    exists schedule, t :: Run(s, schedule, t) && Overlap(t, k)
  }

  predicate InGroup(t: Thread, k: Kind) {
    t.OfGroup? && t.kind == k
  }

  ghost predicate HasTwo(s: State, k: Kind) {
    exists i, j :: 0 <= i < j < |s.threads| && InGroup(s.threads[i], k) && InGroup(s.threads[j], k)
  }

  /** A light switch does not keep the members of its group from each other: from every reachable
      state two inserters, or two searchers, can come to be at the list at the same time exactly
      if there are two. */
  lemma OverlapIffTwo(s: State, k: Kind)
    requires Inv(s)
    ensures MayOverlap(s, k) <==> HasTwo(s, k)
  {
    if MayOverlap(s, k) {
      var schedule, t :| Run(s, schedule, t) && Overlap(t, k);
      KindsStay(s, schedule, t);
      var i, j :| 0 <= i < j < |t.threads| && t.threads[i] == t.threads[j] == OfGroup(k, Inside);
      assert InGroup(s.threads[i], k) && InGroup(s.threads[j], k);
    }
    if HasTwo(s, k) {
      var i: nat, j: nat :| i < j < |s.threads| && InGroup(s.threads[i], k) && InGroup(s.threads[j], k);
      TwoOverlap(s, k, i, j);
    }
  }

  lemma TwoOverlap(s: State, k: Kind, i: nat, j: nat)
    requires Inv(s) && i < j < |s.threads| && InGroup(s.threads[i], k) && InGroup(s.threads[j], k)
    ensures MayOverlap(s, k)
  {
    MeetIff(s, {i, j});
    var schedule, t :| Run(s, schedule, t) && AllAtList(t, {i, j});
    KindsStay(s, schedule, t);
    assert i in {i, j} && j in {i, j};
    assert t.threads[i] == t.threads[j] == OfGroup(k, Inside);
    assert Overlap(t, k);
  }
}
