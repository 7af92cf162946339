/** The queue of the shortest-seek-time-first I/O scheduler: where a request is inserted, and
    in what order the requests go out. */
module Sstf {
  import opened Wrappers

  datatype Request = Request(id: nat, sector: nat)

  // ---------- Distances ----------

  function Distance(a: nat, b: nat): nat {
    if a >= b then a - b else b - a
  }

  /** A distance kept in an unsigned int. */
  function Diff(a: nat, b: nat): nat {
    Distance(a, b) % 0x1_0000_0000
  }

  /** Near enough for an unsigned int. */
  predicate Fits(a: nat, b: nat) {
    Distance(a, b) < 0x1_0000_0000
  }

  /** Where the head is when request k of the queue is its turn: at the sector before it. */
  function Ref(q: seq<Request>, end: nat, k: nat): nat
    requires k <= |q|
  {
    if k == 0 then end else q[k - 1].sector
  }

  /** Request k is nearer to what comes before it than sector a is. */
  predicate Passes(q: seq<Request>, end: nat, a: nat, k: nat)
    requires k < |q|
  {
    Diff(q[k].sector, Ref(q, end, k)) < Diff(a, Ref(q, end, k))
  }

  /** The scan for sector a stops at k: the first request that it does not pass. */
  predicate StopsAt(q: seq<Request>, end: nat, a: nat, k: nat) {
    && k <= |q|
    && (forall j {:trigger Passes(q, end, a, j)} :: 0 <= j < k ==> Passes(q, end, a, j))
    && (k < |q| ==> !Passes(q, end, a, k))
  }

  /** Where the scan stops, looking from position k on. */
  function Stop(q: seq<Request>, end: nat, a: nat, k: nat := 0): (p: nat)
    requires k <= |q| && forall j {:trigger Passes(q, end, a, j)} :: 0 <= j < k ==> Passes(q, end, a, j)
    ensures StopsAt(q, end, a, p)
    decreases |q| - k
  {
    if k < |q| && Passes(q, end, a, k) then Stop(q, end, a, k + 1) else k
  }

  lemma StopUnique(q: seq<Request>, end: nat, a: nat, k: nat, p: nat)
    requires StopsAt(q, end, a, k) && StopsAt(q, end, a, p)
    ensures k == p
  {
    assert k < |q| ==> !Passes(q, end, a, k);
    assert p < |q| ==> !Passes(q, end, a, p);
  }

  function Inserted(q: seq<Request>, rq: Request, k: nat): (r: seq<Request>)
    requires k <= |q|
    ensures |r| == |q| + 1
  {
    q[..k] + [rq] + q[k..]
  }

  /** The queue after rq has been added. */
  function Added(q: seq<Request>, end: nat, rq: Request): seq<Request> {
    Inserted(q, rq, Stop(q, end, rq.sector))
  }

  /** Where a request goes, in numbers: past every request j that is strictly nearer than it to what
      comes before j, as 32-bit distances, and in front of the first one that is not. */
  lemma AddedInNumbers(q: seq<Request>, end: nat, rq: Request, j: nat)
    requires j < |q|
    ensures var k := Stop(q, end, rq.sector);
            && k <= |q| && Added(q, end, rq) == q[..k] + [rq] + q[k..]
            && var a, b, c := rq.sector, q[j].sector, if j == 0 then end else q[j - 1].sector;
            && var add, curr := if a >= c then a - c else c - a, if b >= c then b - c else c - b;
            && (j < k ==> curr % 4294967296 < add % 4294967296)
            && (j == k ==> add % 4294967296 <= curr % 4294967296)
  {
    var k := Stop(q, end, rq.sector);
    assert j < k ==> Passes(q, end, rq.sector, j);
    assert j == k ==> !Passes(q, end, rq.sector, j);
  }

  class Scheduler {
    var queue: seq<Request>

    constructor ()
      ensures queue == []
    {
      queue := [];
    }

    /** sstf_add_request, with the queue's end_sector. */
    method AddRequest(rq: Request, endSector: nat)
      modifies this
      ensures queue == Added(old(queue), endSector, rq)
    {
      var endRef, k, isAdded := endSector, 0, false;
      ghost var q := queue;
      if queue == [] {
        queue := [rq];
      } else {
        while k < |queue| && !isAdded
          invariant k <= |q|
          invariant !isAdded ==> queue == q && endRef == Ref(q, endSector, k)
          invariant forall j {:trigger Passes(q, endSector, rq.sector, j)} ::
            0 <= j < k ==> Passes(q, endSector, rq.sector, j)
          invariant isAdded ==> queue == Inserted(q, rq, k) && StopsAt(q, endSector, rq.sector, k)
          decreases if isAdded then 0 else 1, |q| - k
        {
          var addDiff := Diff(rq.sector, endRef);
          var currDiff := Diff(queue[k].sector, endRef);
          if currDiff >= addDiff {
            queue := queue[..k] + [rq] + queue[k..];
            isAdded := true;
          } else {
            endRef := queue[k].sector;
            k := k + 1;
          }
        }
        if !isAdded {
          queue := queue + [rq];
        }
      }
      StopUnique(q, endSector, rq.sector, k, Stop(q, endSector, rq.sector));
    }

    /** sstf_dispatch: what goes out, if anything. */
    method Dispatch() returns (rq: Option<Request>)
      modifies this
      ensures old(queue) == [] ==> rq == None && queue == []
      ensures old(queue) != [] ==> rq == Some(old(queue)[0]) && queue == old(queue)[1..]
    {
      if queue == [] {
        return None;
      }
      rq := Some(queue[0]);
      queue := queue[1..];
    }
  }

  // ---------- The greedy order ----------

  /** Request k is the nearest to what comes before it of all from k on. */
  predicate NearestNext(q: seq<Request>, end: nat, k: nat)
    requires k < |q|
  {
    forall j :: k <= j < |q| ==>
      Distance(q[k].sector, Ref(q, end, k)) <= Distance(q[j].sector, Ref(q, end, k))
  }

  /** Dispatched from the front, every request is the nearest of those left to where the head
      has just been. */
  predicate Greedy(q: seq<Request>, end: nat) {
    forall k {:trigger NearestNext(q, end, k)} :: 0 <= k < |q| ==> NearestNext(q, end, k)
  }

  /** What goes out first from a queue in greedy order is the nearest request, and the rest is in
      greedy order from there. */
  lemma DispatchGreedy(q: seq<Request>, end: nat)
    requires Greedy(q, end) && q != []
    ensures forall rq :: rq in q ==> Distance(q[0].sector, end) <= Distance(rq.sector, end)
    ensures Greedy(q[1..], q[0].sector)
  {
    assert NearestNext(q, end, 0);
    forall k: nat | k < |q| - 1 ensures NearestNext(q[1..], q[0].sector, k) {
      assert NearestNext(q, end, k + 1);
      forall j | k <= j < |q| - 1 ensures q[1..][j] == q[j + 1] {
      }
    }
  }

  /** Request k is, of all from k on, the nearest to sector a. */
  predicate NearestTo(q: seq<Request>, k: nat, a: nat)
    requires k < |q|
  {
    forall j :: k <= j < |q| ==> Distance(q[k].sector, a) <= Distance(q[j].sector, a)
  }

  /** No distance between these is too long for an unsigned int. */
  predicate AllFit(q: seq<Request>, end: nat, a: nat) {
    && Fits(a, end)
    && (forall j :: 0 <= j < |q| ==> Fits(q[j].sector, end) && Fits(a, q[j].sector))
    && (forall i, j :: 0 <= i < |q| && 0 <= j < |q| ==> Fits(q[i].sector, q[j].sector))
  }

  /** Put at k, sector a is no nearer than what it has passed, and no farther than what it is put
      before. The scan compares distances in an unsigned int, so this is not a matter of course. */
  predicate WellPlaced(q: seq<Request>, end: nat, a: nat, k: nat)
    requires k <= |q|
  {
    && (forall j :: 0 <= j < k ==> Distance(q[j].sector, Ref(q, end, j)) <= Distance(a, Ref(q, end, j)))
    && (k < |q| ==> Distance(a, Ref(q, end, k)) <= Distance(q[k].sector, Ref(q, end, k)))
  }

  /** Adding to a queue in greedy order, at whatever distances, keeps that order exactly if no
      truncated distance has misled the scan and the request that the new one is put before is
      the nearest to it of all that follow. */
  lemma GreedyKept(q: seq<Request>, end: nat, rq: Request)
    requires Greedy(q, end)
    ensures var k := Stop(q, end, rq.sector);
            Greedy(Added(q, end, rq), end) <==>
            WellPlaced(q, end, rq.sector, k) && (k == |q| || NearestTo(q, k, rq.sector))
  {
    var k := Stop(q, end, rq.sector);
    var r := Added(q, end, rq);
    forall j: nat | j < |r| && j != k + 1
      ensures WellPlaced(q, end, rq.sector, k) ==> NearestNext(r, end, j)
    {
      if WellPlaced(q, end, rq.sector, k) {
        if j < k {
          EarlierKept(q, end, rq, k, j);
        } else if j == k {
          NewIsNearest(q, end, rq, k);
        } else {
          LaterKept(q, end, rq, k, j);
        }
      }
    }
    if k < |q| {
      AfterNew(q, end, rq, k);
      assert Greedy(r, end) ==> NearestNext(r, end, k + 1);
    }
    if Greedy(r, end) {
      GreedyPlaced(q, end, rq, k);
    }
  }

  lemma GreedyPlaced(q: seq<Request>, end: nat, rq: Request, k: nat)
    requires k <= |q| && Greedy(Inserted(q, rq, k), end)
    ensures WellPlaced(q, end, rq.sector, k)
  {
    var r := Inserted(q, rq, k);
    forall j | 0 <= j < k ensures Distance(q[j].sector, Ref(q, end, j)) <= Distance(rq.sector, Ref(q, end, j)) {
      assert NearestNext(r, end, j) && r[k] == rq;
    }
    if k < |q| {
      assert NearestNext(r, end, k) && r[k] == rq && r[k + 1] == q[k];
    }
  }

  /** Where every distance fits, nothing misleads the scan, and the second half decides. */
  lemma GreedyKeptNear(q: seq<Request>, end: nat, rq: Request)
    requires Greedy(q, end) && AllFit(q, end, rq.sector)
    ensures var k := Stop(q, end, rq.sector);
            Greedy(Added(q, end, rq), end) <==> (k == |q| || NearestTo(q, k, rq.sector))
  {
    GreedyKept(q, end, rq);
    FitsPlaced(q, end, rq.sector, Stop(q, end, rq.sector));
  }

  lemma FitsPlaced(q: seq<Request>, end: nat, a: nat, k: nat)
    requires AllFit(q, end, a) && StopsAt(q, end, a, k)
    ensures WellPlaced(q, end, a, k)
  {
    forall j | 0 <= j < k ensures Distance(q[j].sector, Ref(q, end, j)) <= Distance(a, Ref(q, end, j)) {
      assert Passes(q, end, a, j);
      PassesExactly(q, end, a, j);
    }
    if k < |q| {
      PassesExactly(q, end, a, k);
    }
  }

  lemma PassesExactly(q: seq<Request>, end: nat, a: nat, k: nat)
    requires AllFit(q, end, a) && k < |q|
    ensures Passes(q, end, a, k) <==> Distance(q[k].sector, Ref(q, end, k)) < Distance(a, Ref(q, end, k))
  {
    assert Fits(q[k].sector, Ref(q, end, k)) && Fits(a, Ref(q, end, k));
  }

  lemma EarlierKept(q: seq<Request>, end: nat, rq: Request, k: nat, j: nat)
    requires Greedy(q, end) && k <= |q| && WellPlaced(q, end, rq.sector, k) && j < k
    ensures NearestNext(Inserted(q, rq, k), end, j)
  {
    assert NearestNext(q, end, j);
    var r := Inserted(q, rq, k);
    forall i | j <= i < |r|
      ensures Distance(r[j].sector, Ref(r, end, j)) <= Distance(r[i].sector, Ref(r, end, j))
    {
      assert r[i] == if i < k then q[i] else if i == k then rq else q[i - 1];
    }
  }

  lemma NewIsNearest(q: seq<Request>, end: nat, rq: Request, k: nat)
    requires Greedy(q, end) && k <= |q| && WellPlaced(q, end, rq.sector, k)
    ensures NearestNext(Inserted(q, rq, k), end, k)
  {
    assert k < |q| ==> NearestNext(q, end, k);
    var r := Inserted(q, rq, k);
    forall i | k <= i < |r|
      ensures Distance(r[k].sector, Ref(r, end, k)) <= Distance(r[i].sector, Ref(r, end, k))
    {
      assert r[i] == if i == k then rq else q[i - 1];
    }
  }

  lemma LaterKept(q: seq<Request>, end: nat, rq: Request, k: nat, j: nat)
    requires Greedy(q, end) && k + 1 < j <= |q|
    ensures NearestNext(Inserted(q, rq, k), end, j)
  {
    assert NearestNext(q, end, j - 1);
    var r := Inserted(q, rq, k);
    forall i | j <= i < |r|
      ensures Distance(r[j].sector, Ref(r, end, j)) <= Distance(r[i].sector, Ref(r, end, j))
    {
      assert r[i] == q[i - 1] && r[j - 1] == q[j - 2];
    }
  }

  lemma AfterNew(q: seq<Request>, end: nat, rq: Request, k: nat)
    requires k < |q|
    ensures NearestNext(Inserted(q, rq, k), end, k + 1) <==> NearestTo(q, k, rq.sector)
  {
    var r := Inserted(q, rq, k);
    forall i | k < i < |r| ensures r[i] == q[i - 1] {
    }
    if NearestNext(r, end, k + 1) {
      forall j | k <= j < |q| ensures Distance(q[k].sector, rq.sector) <= Distance(q[j].sector, rq.sector) {
        assert r[j + 1] == q[j];
      }
    }
  }

  /** A request between two others on both sides of the head can spoil the order. */
  lemma GreedySpoilt()
    ensures var q, rq := [Request(0, 90), Request(1, 111)], Request(2, 105);
            && Greedy(q, 100) && !Greedy(Added(q, 100, rq), 100)
            && Added(q, 100, rq) == [rq] + q
  {
    var q, rq := [Request(0, 90), Request(1, 111)], Request(2, 105);
    assert !Passes(q, 100, 105, 0);
    StopUnique(q, 100, 105, 0, Stop(q, 100, 105));
    var r := [rq] + q;
    assert Added(q, 100, rq) == r;
    assert r[1].sector == 90 && r[2].sector == 111;
    assert !NearestNext(r, 100, 1);
  }

  /** A request too far off for an unsigned int goes first exactly if its truncated distance is no
      longer than the distance of the first request, and that always spoils the order. */
  lemma TooFar(q: seq<Request>, end: nat, rq: Request)
    requires Greedy(q, end) && q != []
    requires Distance(q[0].sector, end) < 4294967296 <= Distance(rq.sector, end)
    ensures Distance(rq.sector, end) % 4294967296 <= Distance(q[0].sector, end) <==> Stop(q, end, rq.sector) == 0
    ensures Stop(q, end, rq.sector) == 0 ==> Added(q, end, rq) == [rq] + q && !Greedy(Added(q, end, rq), end)
  {
    var k := Stop(q, end, rq.sector);
    assert Passes(q, end, rq.sector, 0) <==> Diff(rq.sector, end) > Distance(q[0].sector, end);
    assert k > 0 <==> Passes(q, end, rq.sector, 0);
    if k == 0 {
      assert q[..0] + [rq] + q[0..] == [rq] + q;
      GreedyKept(q, end, rq);
      assert !WellPlaced(q, end, rq.sector, 0);
    }
  }

  // ---------- All on one side ----------

  datatype Side = Above | Below

  /** Sector a is at least as far out as b on this side. */
  predicate Beyond(side: Side, a: nat, b: nat) {
    if side.Above? then a >= b else a <= b
  }

  predicate Outward(side: Side, q: seq<Request>) {
    forall i, j :: 0 <= i <= j < |q| ==> Beyond(side, q[j].sector, q[i].sector)
  }

  predicate OnSide(side: Side, q: seq<Request>, end: nat) {
    forall j :: 0 <= j < |q| ==> Beyond(side, q[j].sector, end)
  }

  /** On one side of the head, going outward is the greedy order. */
  lemma OutwardIsGreedy(side: Side, q: seq<Request>, end: nat)
    requires OnSide(side, q, end)
    ensures Greedy(q, end) <==> Outward(side, q)
  {
    if Greedy(q, end) {
      forall i, j | 0 <= i <= j < |q| ensures Beyond(side, q[j].sector, q[i].sector) {
        GreedyGoesOut(side, q, end, i, j);
      }
    }
  }

  lemma {:induction false} GreedyGoesOut(side: Side, q: seq<Request>, end: nat, i: nat, j: nat)
    requires OnSide(side, q, end) && Greedy(q, end) && i <= j < |q|
    ensures Beyond(side, q[j].sector, q[i].sector)
    ensures Beyond(side, q[j].sector, Ref(q, end, i))
  {
    assert NearestNext(q, end, i);
    if i == 0 {
      assert Ref(q, end, 0) == end;
    } else {
      GreedyGoesOut(side, q, end, i - 1, i);
      GreedyGoesOut(side, q, end, i - 1, j);
    }
  }

  /** Adding on that side puts the request where it belongs: the queue goes outward afterwards
      exactly if it did before. */
  lemma AddOutwardIff(side: Side, q: seq<Request>, end: nat, rq: Request)
    requires OnSide(side, q, end) && Beyond(side, rq.sector, end) && AllFit(q, end, rq.sector)
    ensures Outward(side, Added(q, end, rq)) <==> Outward(side, q)
    ensures OnSide(side, Added(q, end, rq), end)
  {
    var k, r := Stop(q, end, rq.sector), Added(q, end, rq);
    if Outward(side, q) {
      AddOutward(side, q, end, rq);
    }
    if Outward(side, r) {
      forall i, j | 0 <= i <= j < |q| ensures Beyond(side, q[j].sector, q[i].sector) {
        assert q[i] == r[if i < k then i else i + 1] && q[j] == r[if j < k then j else j + 1];
      }
    }
  }

  lemma AddOutward(side: Side, q: seq<Request>, end: nat, rq: Request)
    requires Outward(side, q) && OnSide(side, q, end) && Beyond(side, rq.sector, end)
    requires AllFit(q, end, rq.sector)
    ensures Outward(side, Added(q, end, rq))
  {
    var k := Stop(q, end, rq.sector);
    var r := Added(q, end, rq);
    forall j | 0 <= j < k ensures Beyond(side, rq.sector, q[j].sector) {
      PassedInside(side, q, end, rq.sector, k, j);
    }
    if k < |q| {
      NotPassedOutside(side, q, end, rq.sector, k);
    }
    forall i, j | 0 <= i <= j < |r| ensures Beyond(side, r[j].sector, r[i].sector) {
      assert r[i] == if i < k then q[i] else if i == k then rq else q[i - 1];
      assert r[j] == if j < k then q[j] else if j == k then rq else q[j - 1];
    }
  }

  lemma {:induction false} PassedInside(side: Side, q: seq<Request>, end: nat, a: nat, k: nat, j: nat)
    requires Outward(side, q) && OnSide(side, q, end) && Beyond(side, a, end)
    requires AllFit(q, end, a) && StopsAt(q, end, a, k) && j < k
    ensures Beyond(side, a, q[j].sector)
  {
    assert Passes(q, end, a, j);
    if j == 0 {
    } else {
      PassedInside(side, q, end, a, k, j - 1);
    }
  }

  lemma NotPassedOutside(side: Side, q: seq<Request>, end: nat, a: nat, k: nat)
    requires Outward(side, q) && OnSide(side, q, end) && Beyond(side, a, end)
    requires AllFit(q, end, a) && StopsAt(q, end, a, k) && k < |q|
    ensures Beyond(side, q[k].sector, a)
  {
    if k > 0 {
      PassedInside(side, q, end, a, k, k - 1);
    }
  }

  // ---------- Runs ----------

  datatype Event = Add(rq: Request, end: nat) | Dispatch

  /** What the queue becomes, and what goes out, over a run. */
  function After(q: seq<Request>, events: seq<Event>): (seq<Request>, seq<Request>)
    decreases |events|
  {
    if events == [] then (q, [])
    else match events[0]
      case Add(rq, end) => After(Added(q, end, rq), events[1..])
      case Dispatch =>
        if q == [] then After(q, events[1..])
        else
          var rest := After(q[1..], events[1..]);
          (rest.0, [q[0]] + rest.1)
  }

  /** At every add, everything queued and the new request lie on this side of the end sector,
      and near enough. */
  predicate AddsOnSide(side: Side, q: seq<Request>, events: seq<Event>)
    decreases |events|
  {
    events == []
    || match events[0]
       case Add(rq, end) =>
         && OnSide(side, q, end) && Beyond(side, rq.sector, end) && AllFit(q, end, rq.sector)
         && AddsOnSide(side, Added(q, end, rq), events[1..])
       case Dispatch => AddsOnSide(side, if q == [] then q else q[1..], events[1..])
  }

  /** Whatever is dispatched in the run is what was first in the queue, and for a head anywhere on
      the inner side of the queue there was no nearer request in it. */
  ghost predicate NearestGoesOut(side: Side, q: seq<Request>, events: seq<Event>)
    decreases |events|
  {
    events == []
    || match events[0]
       case Add(rq, end) => NearestGoesOut(side, Added(q, end, rq), events[1..])
       case Dispatch =>
         && (q != [] ==> After(q, events).1 != [] && After(q, events).1[0] == q[0] && FirstIsNearest(side, q))
         && NearestGoesOut(side, if q == [] then q else q[1..], events[1..])
  }

  ghost predicate FirstIsNearest(side: Side, q: seq<Request>)
    requires q != []
  {
    forall head: nat, rq | OnSide(side, q, head) && rq in q ::
      Distance(q[0].sector, head) <= Distance(rq.sector, head)
  }

  lemma OutwardFirst(side: Side, q: seq<Request>)
    requires Outward(side, q) && q != []
    ensures FirstIsNearest(side, q) && Outward(side, q[1..])
  {
    forall head: nat, rq | OnSide(side, q, head) && rq in q
      ensures Distance(q[0].sector, head) <= Distance(rq.sector, head)
    {
      var j :| 0 <= j < |q| && q[j] == rq;
      assert Beyond(side, q[j].sector, q[0].sector) && Beyond(side, q[0].sector, head);
    }
  }

  /** Over every run with all adds on one side, the queue goes outward all along, and what is
      dispatched is the nearest of what is queued. */
  lemma {:induction false} RunOutward(side: Side, q: seq<Request>, events: seq<Event>)
    requires Outward(side, q) && AddsOnSide(side, q, events)
    ensures Outward(side, After(q, events).0) && NearestGoesOut(side, q, events)
    ensures forall end :: OnSide(side, After(q, events).0, end) ==> Greedy(After(q, events).0, end)
    decreases |events|
  {
    if events == [] {
      forall end | OnSide(side, q, end) ensures Greedy(q, end) {
        OutwardIsGreedy(side, q, end);
      }
    } else {
      match events[0]
      case Add(rq, end) =>
        AddOutward(side, q, end, rq);
        RunOutward(side, Added(q, end, rq), events[1..]);
      case Dispatch =>
        if q != [] {
          OutwardFirst(side, q);
        }
        RunOutward(side, if q == [] then q else q[1..], events[1..]);
    }
  }

  // ---------- A change of side ----------

  predicate OnlyAdds(events: seq<Event>) {
    forall e :: e in events ==> e.Add?
  }

  /** Over adds on one side a queue comes to go outward, on that side, only if it did before. */
  lemma {:induction false} AddsOutwardIff(side: Side, q: seq<Request>, events: seq<Event>)
    requires OnlyAdds(events) && AddsOnSide(side, q, events)
    ensures Outward(side, After(q, events).0) <==> Outward(side, q)
    decreases |events|
  {
    if events == [] {
    } else {
      assert events[0] in events;
      AddOutwardIff(side, q, events[0].end, events[0].rq);
      AddsOutwardIff(side, Added(q, events[0].end, events[0].rq), events[1..]);
    }
  }

  predicate OneSector(q: seq<Request>) {
    forall i, j :: 0 <= i < j < |q| ==> q[i].sector == q[j].sector
  }

  /** Whatever run with its adds on the one side filled the queue, once the adds are on the other
      side the queue is in order, for a head anywhere on its inner side, exactly if no two
      different sectors were queued when the side changed. */
  lemma SideChange(side: Side, other: Side, before: seq<Event>, adds: seq<Event>, end: nat)
    requires side != other && AddsOnSide(side, [], before)
    requires OnlyAdds(adds) && AddsOnSide(other, After([], before).0, adds)
    requires OnSide(other, After(After([], before).0, adds).0, end)
    ensures Greedy(After(After([], before).0, adds).0, end) <==> OneSector(After([], before).0)
  {
    var q := After([], before).0;
    RunOutward(side, [], before);
    AddsOutwardIff(other, q, adds);
    OutwardIsGreedy(other, After(q, adds).0, end);
    BothWays(side, other, q);
  }

  lemma BothWays(side: Side, other: Side, q: seq<Request>)
    requires side != other && Outward(side, q)
    ensures Outward(other, q) <==> OneSector(q)
  {
    if Outward(other, q) {
      forall i, j | 0 <= i < j < |q| ensures q[i].sector == q[j].sector {
        assert Beyond(side, q[j].sector, q[i].sector) && Beyond(other, q[j].sector, q[i].sector);
      }
    }
  }

  /** Three adds from the empty queue, the last on the other side, after which the second request
      is dispatched before the third, which is nearer. */
  lemma SidesMatter()
    ensures var events := [Add(Request(0, 5), 0), Add(Request(1, 9), 0), Add(Request(2, 12), 20)];
            && After([], events).0 == [Request(2, 12), Request(0, 5), Request(1, 9)]
            && !Greedy(After([], events).0, 20)
  {
    var a, b, c := Request(0, 5), Request(1, 9), Request(2, 12);
    var last := [Add(c, 20)];
    assert Added([], 0, a) == [a];
    assert Passes([a], 0, 9, 0);
    StopUnique([a], 0, 9, 1, Stop([a], 0, 9));
    assert Added([a], 0, b) == [a, b];
    assert !Passes([a, b], 20, 12, 0);
    StopUnique([a, b], 20, 12, 0, Stop([a, b], 20, 12));
    assert Added([a, b], 20, c) == [c, a, b];
    assert After([a, b], last) == After([c, a, b], last[1..]);
    assert [Add(b, 0), Add(c, 20)][1..] == last;
    assert [Add(a, 0), Add(b, 0), Add(c, 20)][1..] == [Add(b, 0), Add(c, 20)];
    assert [c, a, b][2].sector == 9 && [c, a, b][1].sector == 5;
    assert !NearestNext([c, a, b], 20, 1);
  }

  /** Nothing is lost and nothing is made up: what is queued and what has gone out are together
      what was queued and what was added. */
  lemma {:induction false} RunConserves(q: seq<Request>, events: seq<Event>)
    ensures multiset(After(q, events).0) + multiset(After(q, events).1) == multiset(q) + multiset(Adds(events))
    decreases |events|
  {
    if events == [] {
    } else {
      match events[0]
      case Add(rq, end) =>
        RunConserves(Added(q, end, rq), events[1..]);
        InsertedAdds(q, rq, Stop(q, end, rq.sector));
        assert Adds(events) == [rq] + Adds(events[1..]);
      case Dispatch =>
        if q == [] {
          RunConserves(q, events[1..]);
        } else {
          var rest := After(q[1..], events[1..]);
          RunConserves(q[1..], events[1..]);
          FirstOut(q, rest.1);
          Exchange(multiset(rest.0), multiset(rest.1), multiset(q[1..]), multiset(Adds(events[1..])), multiset{q[0]});
          assert Adds(events) == Adds(events[1..]);
        }
    }
  }

  lemma Exchange<T>(a: multiset<T>, b: multiset<T>, c: multiset<T>, d: multiset<T>, x: multiset<T>)
    requires a + b == c + d
    ensures a + (b + x) == (c + x) + d
  {
    assert a + (b + x) == (a + b) + x;
  }

  lemma FirstOut(q: seq<Request>, out: seq<Request>)
    requires q != []
    ensures multiset(q) == multiset(q[1..]) + multiset{q[0]} && multiset([q[0]] + out) == multiset(out) + multiset{q[0]}
  {
    assert q == [q[0]] + q[1..];
  }

  function Adds(events: seq<Event>): seq<Request> {
    if events == [] then []
    else match events[0]
      case Add(rq, _) => [rq] + Adds(events[1..])
      case Dispatch => Adds(events[1..])
  }

  lemma InsertedAdds(q: seq<Request>, rq: Request, k: nat)
    requires k <= |q|
    ensures multiset(Inserted(q, rq, k)) == multiset(q) + multiset{rq}
  {
    assert q == q[..k] + q[k..];
  }

  // ---------- A batch with a fixed end sector ----------

  function Batch(end: nat, rqs: seq<Request>): seq<Request> {
    if rqs == [] then [] else Added(Batch(end, rqs[..|rqs| - 1]), end, rqs[|rqs| - 1])
  }

  lemma {:induction false} BatchAll(end: nat, rqs: seq<Request>)
    ensures multiset(Batch(end, rqs)) == multiset(rqs)
  {
    if rqs == [] {
    } else {
      var front, last := rqs[..|rqs| - 1], rqs[|rqs| - 1];
      BatchAll(end, front);
      InsertedAdds(Batch(end, front), last, Stop(Batch(end, front), end, last.sector));
      assert rqs == front + [last];
    }
  }

  /** Whatever the sides and the distances, a batch ends up as a permutation of itself whose head
      is the request that the scan takes for the nearest to the end sector. */
  lemma {:induction false} BatchHead(end: nat, rqs: seq<Request>)
    ensures multiset(Batch(end, rqs)) == multiset(rqs) && |Batch(end, rqs)| == |rqs|
    ensures forall rq :: rq in rqs ==> rqs != [] && Diff(Batch(end, rqs)[0].sector, end) <= Diff(rq.sector, end)
  {
    BatchAll(end, rqs);
    if rqs == [] {
    } else {
      var front, last := rqs[..|rqs| - 1], rqs[|rqs| - 1];
      BatchHead(end, front);
      assert rqs == front + [last];
      HeadNearer(Batch(end, front), end, front, last);
    }
  }

  lemma HeadNearer(q: seq<Request>, end: nat, front: seq<Request>, last: Request)
    requires multiset(q) == multiset(front) && |q| == |front|
    requires forall rq :: rq in front ==> front != [] && Diff(q[0].sector, end) <= Diff(rq.sector, end)
    ensures |Added(q, end, last)| == |front| + 1
    ensures forall rq :: rq in front + [last] ==> Diff(Added(q, end, last)[0].sector, end) <= Diff(rq.sector, end)
  {
    if q != [] {
      assert q[0] in multiset(q);
      assert q[0] in front;
      assert Passes(q, end, last.sector, 0) <==> Stop(q, end, last.sector) > 0;
    }
  }

  /** Where all distances to the end sector fit, it is the nearest. */
  lemma BatchNearest(end: nat, rqs: seq<Request>, rq: Request)
    requires rq in rqs && forall r :: r in rqs ==> Fits(r.sector, end)
    ensures Batch(end, rqs) != [] && Distance(Batch(end, rqs)[0].sector, end) <= Distance(rq.sector, end)
  {
    BatchHead(end, rqs);
    var head := Batch(end, rqs)[0];
    assert head in multiset(Batch(end, rqs));
    assert head in rqs;
    FitsExactly(head.sector, end);
    FitsExactly(rq.sector, end);
  }

  lemma FitsExactly(a: nat, b: nat)
    ensures Fits(a, b) ==> Diff(a, b) == Distance(a, b)
  {
  }
}
