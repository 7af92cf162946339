/** Whole histories of one page: any sequence of allocations, frees and client writes. */
module SlobRuns {
  import opened SlobList
  import opened SlobCode
  import opened SlobFit
  import opened SlobLive
  import opened SlobSteps

  datatype Event =
    | Alloc(size: nat, align: nat, at: nat)
    | Free(block: nat)
    | Write(unit: nat, value: SlobIdx)

  ghost predicate StepBy(s: PageState, e: Event, t: PageState) {
    match e
    case Alloc(size, align, at) => BestFitAt(FreeList(s), SlobUnits(size), align, at) && Handout(s, t, size, at)
    case Free(b) => Giveback(s, t, b)
    case Write(k, v) => ClientWrite(s, t, k, v)
  }

  /** A history: one more state than events, each state leading to the next. */
  ghost predicate Run(states: seq<PageState>, events: seq<Event>) {
    && |states| == |events| + 1
    && forall i :: 0 <= i < |events| ==> StepBy(states[i], events[i], states[i + 1])
  }

  ghost function Final(states: seq<PageState>): PageState
    requires states != []
  {
    states[|states| - 1]
  }

  lemma StepInv(s: PageState, e: Event, t: PageState)
    requires Inv(s) && StepBy(s, e, t)
    ensures Inv(t) && |t.cells| == |s.cells|
  {
    match e
    case Alloc(size, align, at) => HandoutInv(s, t, size, at);
    case Free(b) => GivebackInv(s, t, b);
    case Write(k, v) => ClientWriteInv(s, t, k, v);
  }

  /** The page invariant holds at every point of every history. */
  lemma {:induction false} RunInv(states: seq<PageState>, events: seq<Event>, i: nat)
    requires Run(states, events) && Inv(states[0]) && i < |states|
    ensures Inv(states[i]) && |states[i].cells| == |states[0].cells|
  {
    if i == 0 {
    } else {
      RunInv(states, events, i - 1);
      StepInv(states[i - 1], events[i - 1], states[i]);
    }
  }

  /** Pages with the same live blocks have the same free list, the same count of free
      units, and serve the next request from the same offset. */
  lemma LiveDecides(s: PageState, t: PageState)
    requires Inv(s) && Inv(t) && |s.cells| == |t.cells| && s.live == t.live
    ensures FreeList(s) == FreeList(t) && s.units == t.units && s.freelist == t.freelist
    ensures forall n: nat, align: nat, a: nat, b: nat ::
              BestFitAt(FreeList(s), n, align, a) && BestFitAt(FreeList(t), n, align, b) ==> a == b
  {
    ListFromLive(FreeList(s), FreeList(t), s.live, |s.cells|);
    forall n: nat, align: nat, a: nat, b: nat |
      BestFitAt(FreeList(s), n, align, a) && BestFitAt(FreeList(t), n, align, b)
      ensures a == b
    {
      var i: nat :| IsBestFit(FreeList(s), i, n, align)
          && a == FreeList(s)[i].start + Delta(FreeList(s)[i].start, align);
      var j: nat :| IsBestFit(FreeList(t), j, n, align)
          && b == FreeList(t)[j].start + Delta(FreeList(t)[j].start, align);
      BestFitUnique(FreeList(s), i, j, n, align);
    }
  }

  /** However two fresh pages of one size came to their live blocks, equal live blocks
      mean equal free lists in memory. */
  lemma HistoryIndependence(ss: seq<PageState>, es: seq<Event>, ts: seq<PageState>, fs: seq<Event>)
    requires Run(ss, es) && Run(ts, fs) && Fresh(ss[0]) && Fresh(ts[0])
    requires |ss[0].cells| == |ts[0].cells| && Final(ss).live == Final(ts).live
    ensures FreeList(Final(ss)) == FreeList(Final(ts))
    ensures Final(ss).units == Final(ts).units && Final(ss).freelist == Final(ts).freelist
  {
    FreshInv(ss[0]);
    FreshInv(ts[0]);
    RunInv(ss, es, |ss| - 1);
    RunInv(ts, fs, |ts| - 1);
    LiveDecides(Final(ss), Final(ts));
  }

  /** Freeing the block just allocated restores the free list and the count,
      also when the allocation had filled the page. */
  lemma AllocThenFree(s: PageState, m: PageState, t: PageState, size: nat, align: nat, at: nat)
    requires Inv(s) && StepBy(s, Alloc(size, align, at), m) && StepBy(m, Free(at), t)
    ensures FreeList(t) == FreeList(s) && t.units == s.units && t.live == s.live
  {
    HandoutInv(s, m, size, at);
    GivebackInv(m, t, at);
    assert s.live[at := size] - {at} == s.live;
    LiveDecides(s, t);
  }

  ghost function Frees(blocks: seq<nat>): seq<Event> {
    seq(|blocks|, i requires 0 <= i < |blocks| => Free(blocks[i]))
  }

  function ToSet(blocks: seq<nat>): set<nat> {
    set b | b in blocks
  }

  lemma {:induction false} FreesRemove(states: seq<PageState>, blocks: seq<nat>, i: nat)
    requires Run(states, Frees(blocks)) && i <= |blocks|
    ensures states[i].live == states[0].live - ToSet(blocks[..i])
  {
    if i == 0 {
    } else {
      FreesRemove(states, blocks, i - 1);
      assert StepBy(states[i - 1], Frees(blocks)[i - 1], states[i]);
      assert blocks[..i] == blocks[..i - 1] + [blocks[i - 1]];
      assert ToSet(blocks[..i]) == ToSet(blocks[..i - 1]) + {blocks[i - 1]};
    }
  }

  /** The order in which blocks are freed leaves no trace. */
  lemma FreesAnyOrder(ss: seq<PageState>, bs: seq<nat>, ts: seq<PageState>, cs: seq<nat>)
    requires Run(ss, Frees(bs)) && Run(ts, Frees(cs)) && ss[0] == ts[0] && Inv(ss[0])
    requires ToSet(bs) == ToSet(cs)
    ensures FreeList(Final(ss)) == FreeList(Final(ts)) && Final(ss).units == Final(ts).units
  {
    FreesRemove(ss, bs, |bs|);
    FreesRemove(ts, cs, |cs|);
    assert bs[..|bs|] == bs && cs[..|cs|] == cs;
    assert Final(ss) == ss[|bs|] && Final(ts) == ts[|cs|];
    RunInv(ss, Frees(bs), |bs|);
    RunInv(ts, Frees(cs), |cs|);
    LiveDecides(Final(ss), Final(ts));
  }

  /** Event e stores into the block at b. */
  ghost predicate StoresInto(e: Event, s: PageState, b: nat) {
    e.Write? && Holds(s.live, b, e.unit)
  }

  lemma StepKeepsBlock(s: PageState, e: Event, t: PageState, b: nat)
    requires Inv(s) && StepBy(s, e, t) && b in s.live && b in t.live && !StoresInto(e, s, b)
    ensures t.live[b] == s.live[b]
    ensures forall k :: Holds(s.live, b, k) ==> k < |s.cells| == |t.cells| && t.cells[k] == s.cells[k]
  {
    forall k | Holds(s.live, b, k) ensures k < |s.cells| == |t.cells| && t.cells[k] == s.cells[k] {
      assert LiveAt(s.live, k);
      assert !FreeAt(FreeList(s), k);
      match e
      case Alloc(size, align, at) => HandoutInv(s, t, size, at);
      case Free(c) => assert Holds(s.live, c, k) ==> c == b;
      case Write(unit, v) =>
    }
    match e
    case Alloc(size, align, at) => HandoutInv(s, t, size, at);
    case Free(c) =>
    case Write(unit, v) =>
  }

  /** A block that stays live keeps its contents through any history
      in which nobody stores into that block. */
  lemma {:induction false} BlockKept(states: seq<PageState>, events: seq<Event>, b: nat, i: nat)
    requires Run(states, events) && Inv(states[0]) && i < |states|
    requires forall j :: 0 <= j <= i ==> b in states[j].live
    requires forall j :: 0 <= j < i ==> !StoresInto(events[j], states[j], b)
    ensures states[i].live[b] == states[0].live[b] && |states[i].cells| == |states[0].cells|
    ensures forall k :: Holds(states[0].live, b, k) ==>
              k < |states[0].cells| && states[i].cells[k] == states[0].cells[k]
  {
    RunInv(states, events, i);
    if i == 0 {
      forall k | Holds(states[0].live, b, k) ensures k < |states[0].cells| {
      }
    } else {
      BlockKept(states, events, b, i - 1);
      RunInv(states, events, i - 1);
      StepKeepsBlock(states[i - 1], events[i - 1], states[i], b);
      forall k | Holds(states[0].live, b, k) ensures k < |states[0].cells| && states[i].cells[k] == states[0].cells[k] {
        assert Holds(states[i - 1].live, b, k);
      }
    }
  }
}
