/** What the pool of ConnPool promises over whole runs: no double close, no leak, no endless wait. */
module ConnPoolRuns {
  import opened Basics
  import opened ConnPool

  // ------------------------------------------------------------ safety results

  /** In every interleaving no store is closed twice, and done is closed once, as the last thing a call does. */
  lemma ClosedAtMostOnce(guarded: bool, run: Run, s: nat)
    requires IsRun(guarded, INIT, run) && s < |Exec(guarded, INIT, run).heap|
    ensures Exec(guarded, INIT, run).closes[s] <= 1
    ensures var slot := Exec(guarded, INIT, run).heap[s]; slot.doneCloses == if slot.phase.Finished? then 1 else 0
  {
    InvRun(guarded, INIT, run);
    SlotFacts(Exec(guarded, INIT, run), s);
  }

  /** Once a slot is done, no later step writes any of its fields. */
  lemma DoneFreezesSlot(guarded: bool, st: State, step: Step, s: nat)
    requires Inv(st) && Enabled(st, step) && IsDone(st, s)
    ensures IsDone(Apply(guarded, st, step), s)
    ensures Apply(guarded, st, step).heap[s] == st.heap[s]
  {
    SlotFacts(st, s);
  }

  /** Nothing is left to do: every open and every call has returned. */
  ghost predicate Idle(st: State) {
    && (forall s :: 0 <= s < |st.heap| ==> st.heap[s].phase.Finished?)
    && (forall c :: 0 <= c < |st.calls| ==> st.calls[c].Answered? || st.calls[c].Returned?)
  }

  /** After Close, with all calls returned, exactly the dropped stores are still open. */
  lemma OnlyDroppedStoresLeak(guarded: bool, run: Run, s: nat)
    requires IsRun(guarded, INIT, run)
    requires var st := Exec(guarded, INIT, run); st.closed && Idle(st) && s in st.opens
    ensures var st := Exec(guarded, INIT, run); st.closes[s] == if s in st.dropped then 0 else 1
  {
    InvRun(guarded, INIT, run);
    var st := Exec(guarded, INIT, run);
    SlotFacts(st, s);
    forall c | 0 <= c < |st.calls| ensures !Owns(st.calls[c], s) {}
    assert !Owned(st, s);
  }

  lemma {:induction false} GuardedNeverDrops(st: State, run: Run)
    requires IsRun(true, st, run)
    ensures Exec(true, st, run).dropped == st.dropped
    decreases |run|
  {
    if run != [] {
      GuardedNeverDrops(Apply(true, st, run[0]), run[1..]);
    }
  }

  /** With deletes guarded by current == slot, every opened store is closed exactly once. */
  lemma GuardedNeverLeaks(run: Run, s: nat)
    requires IsRun(true, INIT, run)
    requires var st := Exec(true, INIT, run); st.closed && Idle(st) && s in st.opens
    ensures Exec(true, INIT, run).closes[s] == 1
  {
    OnlyDroppedStoresLeak(true, run, s);
    GuardedNeverDrops(INIT, run);
  }

  /** An open of `id` is under way on a slot that an evict has taken out of the map. */
  ghost predicate StrayOpen(st: State, id: Identity, s: nat) {
    s < |st.heap| && st.heap[s].id == id && InFlight(st.heap[s].phase) && id !in st.slots
  }

  /** The step starts a second open of an identity while an evicted one is still in flight. */
  ghost predicate Overlaps(st: State, step: Step) {
    step.OpenOrGet? && !st.closed && exists s :: StrayOpen(st, step.id, s)
  }

  ghost predicate NoOverlap(guarded: bool, st: State, run: Run)
    requires IsRun(guarded, st, run)
    decreases |run|
  {
    run == [] || (!Overlaps(st, run[0]) && NoOverlap(guarded, Apply(guarded, st, run[0]), run[1..]))
  }

  /** No in-flight slot finds somebody else's slot mapped under its identity. */
  ghost predicate Exclusive(st: State) {
    forall s :: 0 <= s < |st.heap| && InFlight(st.heap[s].phase) && st.heap[s].id in st.slots ==> Mapped(st, s)
  }

  lemma ExclusiveNewSlot(st: State, id: Identity)
    requires Shape(st) && Exclusive(st) && !Overlaps(st, OpenOrGet(id))
    ensures Exclusive(Apply(false, st, OpenOrGet(id)))
  {
    var st' := Apply(false, st, OpenOrGet(id));
    forall s | 0 <= s < |st'.heap| && InFlight(st'.heap[s].phase) && st'.heap[s].id in st'.slots
      ensures Mapped(st', s)
    {
      if s < |st.heap| && id !in st.slots && !st.closed {
        assert !StrayOpen(st, id, s);
      }
    }
  }

  lemma ExclusiveShrink(st: State, st': State)
    requires Exclusive(st) && |st'.heap| == |st.heap|
    requires forall s :: 0 <= s < |st.heap| ==>
               st'.heap[s].id == st.heap[s].id && (InFlight(st'.heap[s].phase) ==> InFlight(st.heap[s].phase))
    requires forall id :: id in st'.slots ==> id in st.slots && st'.slots[id] == st.slots[id]
    ensures Exclusive(st')
  {
    forall s | 0 <= s < |st.heap| && InFlight(st'.heap[s].phase) && st'.heap[s].id in st'.slots ensures Mapped(st', s) {
      assert Mapped(st, s);
    }
  }

  lemma ExclusiveDelete(guarded: bool, st: State, s: nat, p: Phase)
    requires Shape(st) && Exclusive(st) && s < |st.heap| && InFlight(st.heap[s].phase) && !InFlight(p)
    ensures var st' := SetPhase(Unlink(guarded, st, s), s, p); Exclusive(st') && st'.dropped == st.dropped
  {
    ExclusiveShrink(st, SetPhase(Unlink(guarded, st, s), s, p));
  }

  /** An opening call's own steps leave the map alone and start no open. */
  lemma SlotStepShrinks(guarded: bool, st: State, step: Step)
    requires Enabled(st, step) && MovesSlot(step)
    ensures var st' := Apply(guarded, st, step);
            && st'.slots == st.slots && st'.dropped == st.dropped && |st'.heap| == |st.heap|
            && st'.heap == st.heap[step.s := st'.heap[step.s]]
            && st'.heap[step.s].id == st.heap[step.s].id
            && (InFlight(st'.heap[step.s].phase) ==> InFlight(st.heap[step.s].phase))
  {
  }

  /** The steps of the other calls leave the slots alone, and at most take from the map. */
  lemma CallStepShrinks(guarded: bool, st: State, step: Step)
    requires Enabled(st, step) && !step.OpenOrGet? && !step.DropFailed? && !step.Recheck? && !MovesSlot(step)
    ensures var st' := Apply(guarded, st, step);
            && st'.heap == st.heap && st'.dropped == st.dropped && st'.opens == st.opens
            && (forall id :: id in st'.slots ==> id in st.slots && st'.slots[id] == st.slots[id])
  {
  }

  /** What every step but a first lock section or a delete does to slots and map. */
  lemma StepShrinks(guarded: bool, st: State, step: Step)
    requires Enabled(st, step) && !step.OpenOrGet? && !step.DropFailed? && !step.Recheck?
    ensures var st' := Apply(guarded, st, step);
            && |st'.heap| == |st.heap| && st'.dropped == st.dropped
            && (forall s :: 0 <= s < |st.heap| ==>
                  st'.heap[s].id == st.heap[s].id && (InFlight(st'.heap[s].phase) ==> InFlight(st.heap[s].phase)))
            && (forall id :: id in st'.slots ==> id in st.slots && st'.slots[id] == st.slots[id])
  {
    if MovesSlot(step) {
      SlotStepShrinks(guarded, st, step);
    } else {
      CallStepShrinks(guarded, st, step);
    }
  }

  lemma ExclusiveStep(guarded: bool, st: State, step: Step)
    requires Shape(st) && Exclusive(st) && Enabled(st, step) && !Overlaps(st, step)
    ensures Exclusive(Apply(guarded, st, step)) && Apply(guarded, st, step).dropped == st.dropped
  {
    match step
    case OpenOrGet(id) => ExclusiveNewSlot(st, id);
    case DropFailed(s) => ExclusiveDelete(guarded, st, s, Failing);
    case Recheck(s) =>
      ExclusiveDelete(guarded, st, s, Rejected);
      ExclusiveShrink(st, SetPhase(st, s, Accepted));
    case _ =>
      StepShrinks(guarded, st, step);
      ExclusiveShrink(st, Apply(guarded, st, step));
  }

  lemma {:induction false} NoOverlapNeverDrops(guarded: bool, st: State, run: Run)
    requires IsRun(guarded, st, run) && NoOverlap(guarded, st, run)
    requires Inv(st) && Exclusive(st)
    ensures Exec(guarded, st, run).dropped == st.dropped
    decreases |run|
  {
    if run != [] {
      InvStep(guarded, st, run[0]);
      ExclusiveStep(guarded, st, run[0]);
      NoOverlapNeverDrops(guarded, Apply(guarded, st, run[0]), run[1..]);
    }
  }

  /** Runs that never start an open beside an evicted one in flight close every store exactly once. */
  lemma NoOverlapNeverLeaks(run: Run, s: nat)
    requires IsRun(false, INIT, run) && NoOverlap(false, INIT, run)
    requires var st := Exec(false, INIT, run); st.closed && Idle(st) && s in st.opens
    ensures Exec(false, INIT, run).closes[s] == 1
  {
    OnlyDroppedStoresLeak(false, run, s);
    NoOverlapNeverDrops(false, INIT, run);
  }

  // ------------------------------------------------------------------ liveness

  function Rank(p: Phase): nat {
    match p
    case Opening => 5
    case OpenReturned => 4
    case OpenFailed => 3
    case Rejected => 3
    case Accepted => 2
    case Failing => 2
    case Settled(_) => 1
    case Finished(_) => 0
  }

  function CallRank(c: Call): nat {
    match c
    case Waiting(_) => 1
    case Evicting(_) => 1
    case Closing(todo) => |todo| + 1
    case Answered(_, _, _) => 0
    case Returned => 0
  }

  function HeapWork(heap: seq<Slot>): nat {
    if heap == [] then 0 else Rank(heap[0].phase) + HeapWork(heap[1..])
  }

  function CallWork(calls: seq<Call>): nat {
    if calls == [] then 0 else CallRank(calls[0]) + CallWork(calls[1..])
  }

  /** An upper bound on the steps that can still happen if no new call arrives. */
  function Work(st: State): nat {
    HeapWork(st.heap) + CallWork(st.calls)
  }

  lemma {:induction false} HeapWorkUpdate(heap: seq<Slot>, s: nat, slot: Slot)
    requires s < |heap|
    ensures HeapWork(heap[s := slot]) == HeapWork(heap) - Rank(heap[s].phase) + Rank(slot.phase)
  {
    if s > 0 {
      HeapWorkUpdate(heap[1..], s - 1, slot);
      assert heap[s := slot][1..] == heap[1..][s - 1 := slot];
    }
  }

  lemma {:induction false} CallWorkUpdate(calls: seq<Call>, c: nat, call: Call)
    requires c < |calls|
    ensures CallWork(calls[c := call]) == CallWork(calls) - CallRank(calls[c]) + CallRank(call)
  {
    if c > 0 {
      CallWorkUpdate(calls[1..], c - 1, call);
      assert calls[c := call][1..] == calls[1..][c - 1 := call];
    }
  }

  lemma SlotMovesOn(guarded: bool, st: State, step: Step)
    requires Enabled(st, step) && (MovesSlot(step) || step.DropFailed? || step.Recheck?)
    ensures var st' := Apply(guarded, st, step);
            |st'.heap| == |st.heap| && st'.heap == st.heap[step.s := st'.heap[step.s]] && st'.calls == st.calls
    ensures Rank(Apply(guarded, st, step).heap[step.s].phase) < Rank(st.heap[step.s].phase)
  {
  }

  lemma SlotWorkDecreases(guarded: bool, st: State, step: Step)
    requires Enabled(st, step) && (MovesSlot(step) || step.DropFailed? || step.Recheck?)
    ensures Work(Apply(guarded, st, step)) < Work(st)
  {
    SlotMovesOn(guarded, st, step);
    HeapWorkUpdate(st.heap, step.s, Apply(guarded, st, step).heap[step.s]);
  }

  lemma CallMovesOn(guarded: bool, st: State, step: Step)
    requires Enabled(st, step) && (step.Wake? || step.EvictWake? || step.CloseNext? || step.CloseReturns?)
    ensures var st' := Apply(guarded, st, step);
            |st'.calls| == |st.calls| && st'.calls == st.calls[step.c := st'.calls[step.c]] && st'.heap == st.heap
    ensures CallRank(Apply(guarded, st, step).calls[step.c]) < CallRank(st.calls[step.c])
  {
    if step.CloseNext? {
      OneFewer(st.calls[step.c].todo, step.s);
    }
  }

  lemma OneFewer(todo: set<nat>, s: nat)
    requires s in todo
    ensures |todo - {s}| == |todo| - 1
  {
    assert todo == (todo - {s}) + {s};
  }

  lemma CallWorkDecreases(guarded: bool, st: State, step: Step)
    requires Enabled(st, step) && (step.Wake? || step.EvictWake? || step.CloseNext? || step.CloseReturns?)
    ensures Work(Apply(guarded, st, step)) < Work(st)
  {
    CallMovesOn(guarded, st, step);
    CallWorkUpdate(st.calls, step.c, Apply(guarded, st, step).calls[step.c]);
  }

  /** Every step of a call already under way uses up some of the remaining work. */
  lemma WorkDecreases(guarded: bool, st: State, step: Step)
    requires Enabled(st, step) && !StartsCall(step)
    ensures Work(Apply(guarded, st, step)) < Work(st)
  {
    if MovesSlot(step) || step.DropFailed? || step.Recheck? {
      SlotWorkDecreases(guarded, st, step);
    } else {
      CallWorkDecreases(guarded, st, step);
    }
  }

  /** The next step of the call that opened slot s. */
  function NextSlotStep(p: Phase, s: nat): Step
    requires !p.Finished?
  {
    match p
    case Opening => OpenReturns(s, true)
    case OpenFailed => DropFailed(s)
    case OpenReturned => Recheck(s)
    case Rejected => CloseRejected(s)
    case Accepted => WriteStore(s)
    case Failing => WriteErr(s)
    case Settled(_) => CloseDone(s)
  }

  /** As long as opens return, some call under way can always take a step. */
  lemma SomeStepEnabled(st: State)
    requires Inv(st) && !Idle(st)
    ensures exists step :: !StartsCall(step) && Enabled(st, step)
  {
    if s :| 0 <= s < |st.heap| && !st.heap[s].phase.Finished? {
      assert Enabled(st, NextSlotStep(st.heap[s].phase, s));
    } else {
      forall s | 0 <= s < |st.heap| ensures IsDone(st, s) {
        SlotFacts(st, s);
      }
      var c :| 0 <= c < |st.calls| && !st.calls[c].Answered? && !st.calls[c].Returned?;
      assert CallRefs(st, st.calls[c]);
      match st.calls[c]
      case Waiting(_) => assert Enabled(st, Wake(c));
      case Evicting(_) => assert Enabled(st, EvictWake(c));
      case Closing(todo) =>
        if todo == {} {
          assert Enabled(st, CloseReturns(c));
        } else {
          var s :| s in todo;
          assert Enabled(st, CloseNext(c, s));
        }
    }
  }

  predicate NoNewCalls(run: Run) {
    forall i :: 0 <= i < |run| ==> !StartsCall(run[i])
  }

  /** Once calls stop arriving, a run is at most Work steps long and can only stop when all have returned. */
  lemma {:induction false} NoCallerWaitsForever(guarded: bool, st: State, run: Run)
    requires Inv(st) && IsRun(guarded, st, run) && NoNewCalls(run)
    ensures |run| <= Work(st)
    ensures (forall step :: !StartsCall(step) ==> !Enabled(Exec(guarded, st, run), step)) ==>
      Idle(Exec(guarded, st, run))
    decreases |run|
  {
    if run == [] {
      if !Idle(st) {
        SomeStepEnabled(st);
      }
    } else {
      InvStep(guarded, st, run[0]);
      WorkDecreases(guarded, st, run[0]);
      NoCallerWaitsForever(guarded, Apply(guarded, st, run[0]), run[1..]);
    }
  }

  ghost predicate Reaches(guarded: bool, st: State, st': State) {
    exists run :: IsRun(guarded, st, run) && Exec(guarded, st, run) == st'
  }

  lemma {:induction false} RunsCompose(guarded: bool, st: State, run: Run, more: Run)
    requires IsRun(guarded, st, run) && IsRun(guarded, Exec(guarded, st, run), more)
    ensures IsRun(guarded, st, run + more)
    ensures Exec(guarded, st, run + more) == Exec(guarded, Exec(guarded, st, run), more)
    decreases |run|
  {
    if run == [] {
      assert run + more == more;
    } else {
      var all := run + more;
      assert all[0] == run[0] && all[1..] == run[1..] + more;
      RunsCompose(guarded, Apply(guarded, st, run[0]), run[1..], more);
    }
  }

  lemma ReachesStep(guarded: bool, st: State, mid: State, step: Step)
    requires Reaches(guarded, st, mid) && Enabled(mid, step)
    ensures Reaches(guarded, st, Apply(guarded, mid, step))
  {
    var run :| IsRun(guarded, st, run) && Exec(guarded, st, run) == mid;
    assert IsRun(guarded, Apply(guarded, mid, step), []);
    assert [step][1..] == [];
    assert IsRun(guarded, mid, [step]);
    RunsCompose(guarded, st, run, [step]);
  }

  /** From every reachable state the calls under way can all be run to their return. */
  lemma {:induction false} Drain(guarded: bool, st: State) returns (run: Run)
    requires Inv(st)
    ensures IsRun(guarded, st, run) && NoNewCalls(run) && Idle(Exec(guarded, st, run))
    decreases Work(st)
  {
    if Idle(st) {
      run := [];
    } else {
      SomeStepEnabled(st);
      var step :| !StartsCall(step) && Enabled(st, step);
      InvStep(guarded, st, step);
      WorkDecreases(guarded, st, step);
      var rest := Drain(guarded, Apply(guarded, st, step));
      run := [step] + rest;
      assert run[1..] == rest;
    }
  }

  // -------------------------------------------------------------- the leak

  lemma {:induction false} DroppedForever(guarded: bool, st: State, run: Run)
    requires IsRun(guarded, st, run)
    ensures st.dropped <= Exec(guarded, st, run).dropped && st.opens <= Exec(guarded, st, run).opens
    ensures st.closed ==> Exec(guarded, st, run).closed
    decreases |run|
  {
    if run != [] {
      DroppedForever(guarded, Apply(guarded, st, run[0]), run[1..]);
    }
  }

  lemma Advance(st: State, mid: State, step: Step)
    requires Reaches(false, st, mid) && Inv(mid) && Enabled(mid, step)
    ensures Reaches(false, st, Apply(false, mid, step)) && Inv(Apply(false, mid, step))
  {
    InvStep(false, mid, step);
    ReachesStep(false, st, mid, step);
  }

  /** Beside the stray open of s, a new open of the identity can get as far as being kept. */
  lemma SuccessorIsKept(st: State, id: Identity, s: nat) returns (st': State)
    requires Inv(st) && !st.closed && StrayOpen(st, id, s)
    ensures Reaches(false, st, st') && Inv(st')
    ensures Mapped(st', |st.heap|) && st'.heap[|st.heap|].phase == Accepted && |st.heap| in st'.opens
    ensures s < |st.heap| < |st'.heap| && st'.heap[s] == st.heap[s] && st'.heap[|st.heap|].id == id
  {
    var t := |st.heap|;
    assert IsRun(false, st, []);
    var st1 := Apply(false, st, OpenOrGet(id));
    Advance(st, st, OpenOrGet(id));
    st' := OpenIsKept(st, st1, t);
  }

  /** A mapped slot whose open runs can get as far as being kept. */
  lemma OpenIsKept(st: State, mid: State, t: nat) returns (st': State)
    requires Reaches(false, st, mid) && Inv(mid) && !mid.closed && Mapped(mid, t) && mid.heap[t].phase.Opening?
    ensures Reaches(false, st, st') && Inv(st') && |st'.heap| == |mid.heap|
    ensures Mapped(st', t) && st'.heap[t].phase == Accepted && t in st'.opens
    ensures forall k :: 0 <= k < |mid.heap| ==>
      st'.heap[k].id == mid.heap[k].id && (k != t ==> st'.heap[k] == mid.heap[k])
  {
    var st2 := OpenEnds(st, mid, t);
    st' := Apply(false, st2, Recheck(t));
    Advance(st, st2, Recheck(t));
  }

  lemma OpenEnds(st: State, mid: State, t: nat) returns (st': State)
    requires Reaches(false, st, mid) && Inv(mid) && !mid.closed && Mapped(mid, t) && mid.heap[t].phase.Opening?
    ensures Reaches(false, st, st') && Inv(st') && !st'.closed && |st'.heap| == |mid.heap|
    ensures Mapped(st', t) && st'.heap[t].phase == OpenReturned && t in st'.opens
    ensures forall k :: 0 <= k < |mid.heap| ==>
      st'.heap[k].id == mid.heap[k].id && (k != t ==> st'.heap[k] == mid.heap[k])
  {
    st' := Apply(false, mid, OpenReturns(t, true));
    Advance(st, mid, OpenReturns(t, true));
  }

  /** When the stray open of s ends, by either outcome, it unmaps the successor t. */
  lemma StrayDropsSuccessor(st: State, mid: State, s: nat, t: nat) returns (st': State)
    requires Reaches(false, st, mid) && Inv(mid) && Mapped(mid, t) && mid.heap[t].phase == Accepted && t in mid.opens
    requires s < |mid.heap| && s != t && InFlight(mid.heap[s].phase) && mid.heap[s].id == mid.heap[t].id
    ensures Reaches(false, st, st') && Inv(st') && t in st'.opens && t in st'.dropped
  {
    match mid.heap[s].phase
    case Opening =>
      var st1 := Apply(false, mid, OpenReturns(s, false));
      Advance(st, mid, OpenReturns(s, false));
      st' := FailedDropsSuccessor(st, st1, s, t);
    case OpenFailed =>
      st' := FailedDropsSuccessor(st, mid, s, t);
    case OpenReturned =>
      st' := Apply(false, mid, Recheck(s));
      Advance(st, mid, Recheck(s));
  }

  lemma FailedDropsSuccessor(st: State, mid: State, s: nat, t: nat) returns (st': State)
    requires Reaches(false, st, mid) && Inv(mid)
    requires Mapped(mid, t) && mid.heap[t].phase == Accepted && t in mid.opens
    requires s != t && AtPhase(mid, s, OpenFailed) && mid.heap[s].id == mid.heap[t].id
    ensures Reaches(false, st, st') && Inv(st') && t in st'.opens && t in st'.dropped
  {
    st' := Apply(false, mid, DropFailed(s));
    Advance(st, mid, DropFailed(s));
  }

  /** The pool is closed and idle, and some opened store was never closed. */
  ghost predicate Leaked(st: State) {
    st.closed && Idle(st) && exists t :: t in st.opens && st.closes[t] == 0
  }

  lemma DropLeaks(st: State, mid: State, t: nat) returns (st': State)
    requires Reaches(false, st, mid) && Inv(mid) && mid.closed && t in mid.opens && t in mid.dropped
    ensures Reaches(false, st, st') && Leaked(st')
  {
    var run := Drain(false, mid);
    st' := Exec(false, mid, run);
    ReachesRun(st, mid, run);
    InvRun(false, mid, run);
    DroppedForever(false, mid, run);
    DroppedNotClosed(st', t);
  }

  lemma ReachesRun(st: State, mid: State, run: Run)
    requires Reaches(false, st, mid) && IsRun(false, mid, run)
    ensures Reaches(false, st, Exec(false, mid, run))
  {
    var before :| IsRun(false, st, before) && Exec(false, st, before) == mid;
    RunsCompose(false, st, before, run);
  }

  lemma DroppedNotClosed(st: State, t: nat)
    requires Shape(st) && Fates(st) && t in st.dropped
    ensures st.closes[t] == 0
  {
    assert SlotShape(st, t, st.heap[t]);
  }

  /**
   * The exclusion in NoOverlapNeverLeaks is needed: from every reachable state with a stray
   * open of `id` there is a run that ends closed and idle with a store nobody closed.
   */
  lemma StrayOpenCanLeak(st: State, id: Identity, s: nat) returns (st': State)
    requires Inv(st) && !st.closed && StrayOpen(st, id, s)
    ensures Reaches(false, st, st') && Leaked(st')
  {
    var kept := SuccessorIsKept(st, id, s);
    var dropped := StrayDropsSuccessor(st, kept, s, |st.heap|);
    Advance(st, dropped, Close);
    st' := DropLeaks(st, Apply(false, dropped, Close), |st.heap|);
  }

  /** A concrete start: open "redis", evict it mid-open, and the pool can end up leaking. */
  lemma LeakFromInit() returns (st': State)
    ensures Reaches(false, INIT, st') && Leaked(st')
  {
    var id := "redis";
    assert IsRun(false, INIT, []);
    var st1 := Apply(false, INIT, OpenOrGet(id));
    Advance(INIT, INIT, OpenOrGet(id));
    var st2 := Apply(false, st1, Evict(id));
    Advance(INIT, st1, Evict(id));
    st' := StrayOpenCanLeak(st2, id, 0);
    var run :| IsRun(false, st2, run) && Exec(false, st2, run) == st';
    ReachesRun(INIT, st2, run);
  }

  // ------------------------------------------------------------- single flight

  predicate NoEvicts(run: Run) {
    forall i :: 0 <= i < |run| ==> !run[i].Evict?
  }

  /** While nothing evicts, a slot that is in flight or kept stays mapped until Close. */
  ghost predicate SingleFlight(st: State) {
    && st.dropped == {}
    && (!st.closed ==> forall s :: 0 <= s < |st.heap| ==>
          Mapped(st, s) || (Failed(st.heap[s].phase) && s !in st.opens))
    && (forall s, t :: 0 <= s < t < |st.heap| && st.heap[s].id == st.heap[t].id ==>
          Failed(st.heap[s].phase) && s !in st.opens)
  }

  /** A slot's own step: it stays mapped or, having failed without a store, leaves for good. */
  lemma SingleFlightSlot(st: State, st': State, s: nat)
    requires Shape(st) && SingleFlight(st) && s < |st.heap| == |st'.heap|
    requires forall k :: 0 <= k < |st.heap| && k != s ==>
      st'.heap[k] == st.heap[k] && (k in st'.opens <==> k in st.opens)
    requires st'.heap[s].id == st.heap[s].id && st'.closed == st.closed && st'.dropped == st.dropped
    requires Failed(st.heap[s].phase) && s !in st.opens ==> Failed(st'.heap[s].phase) && s !in st'.opens
    requires || st'.slots == st.slots
             || (&& st'.slots == st.slots - {st.heap[s].id} && Mapped(st, s)
                 && Failed(st'.heap[s].phase) && s !in st'.opens)
    ensures SingleFlight(st')
  {
    forall k: nat | k < |st.heap| && k != s ensures Mapped(st', k) == Mapped(st, k) {}
  }

  lemma SingleFlightNewSlot(st: State, id: Identity)
    requires Shape(st) && SingleFlight(st) && !st.closed && id !in st.slots
    ensures SingleFlight(Apply(false, st, OpenOrGet(id)))
  {
    var st' := Apply(false, st, OpenOrGet(id));
    assert |st.heap| !in st.opens;
    forall k: nat | k < |st.heap| ensures Mapped(st', k) == Mapped(st, k) {}
    assert Mapped(st', |st.heap|);
  }

  lemma SingleFlightDelete(guarded: bool, st: State, s: nat)
    requires Shape(st) && SingleFlight(st) && AtPhase(st, s, OpenFailed)
    ensures SingleFlight(Apply(guarded, st, DropFailed(s)))
  {
    assert SlotShape(st, s, st.heap[s]);
    SingleFlightSlot(st, Apply(guarded, st, DropFailed(s)), s);
  }

  lemma SingleFlightRecheck(guarded: bool, st: State, s: nat)
    requires Shape(st) && SingleFlight(st) && AtPhase(st, s, OpenReturned)
    ensures SingleFlight(Apply(guarded, st, Recheck(s)))
  {
    assert SlotShape(st, s, st.heap[s]);
    SingleFlightSlot(st, Apply(guarded, st, Recheck(s)), s);
  }

  lemma SingleFlightLocal(guarded: bool, st: State, step: Step)
    requires Shape(st) && SingleFlight(st) && Enabled(st, step) && MovesSlot(step)
    ensures SingleFlight(Apply(guarded, st, step))
  {
    var s := step.s;
    assert SlotShape(st, s, st.heap[s]);
    SlotStepIsLocal(guarded, st, step);
    SingleFlightSlot(st, Apply(guarded, st, step), s);
  }

  lemma SingleFlightStep(guarded: bool, st: State, step: Step)
    requires Shape(st) && SingleFlight(st) && Enabled(st, step) && !step.Evict?
    ensures SingleFlight(Apply(guarded, st, step))
  {
    if MovesSlot(step) {
      SingleFlightLocal(guarded, st, step);
    } else {
      match step
      case OpenOrGet(id) => 
        if !st.closed && id !in st.slots {
          SingleFlightNewSlot(st, id);
        }
      case DropFailed(s) => SingleFlightDelete(guarded, st, s);
      case Recheck(s) => SingleFlightRecheck(guarded, st, s);
      case _ => SingleFlightCall(guarded, st, step);
    }
  }

  lemma SingleFlightCall(guarded: bool, st: State, step: Step)
    requires Shape(st) && SingleFlight(st) && Enabled(st, step) && !MovesSlot(step)
    requires !step.OpenOrGet? && !step.DropFailed? && !step.Recheck? && !step.Evict?
    ensures SingleFlight(Apply(guarded, st, step))
  {
    CallStepShrinks(guarded, st, step);
    SlotsKeptOrClosed(guarded, st, step);
    SameSlotsSameFlight(st, Apply(guarded, st, step));
  }

  lemma SlotsKeptOrClosed(guarded: bool, st: State, step: Step)
    requires Enabled(st, step) && !MovesSlot(step)
    requires !step.OpenOrGet? && !step.DropFailed? && !step.Recheck? && !step.Evict?
    ensures var st' := Apply(guarded, st, step); st'.closed || (st'.closed == st.closed && st'.slots == st.slots)
  {
  }

  lemma SameSlotsSameFlight(st: State, st': State)
    requires SingleFlight(st) && st'.heap == st.heap && st'.opens == st.opens && st'.dropped == st.dropped
    requires st'.closed || (st'.closed == st.closed && st'.slots == st.slots)
    ensures SingleFlight(st')
  {
    if !st'.closed {
      forall k: nat | k < |st.heap| ensures Mapped(st', k) == Mapped(st, k) {}
    }
  }

  lemma {:induction false} SingleFlightRun(guarded: bool, st: State, run: Run)
    requires IsRun(guarded, st, run) && NoEvicts(run) && Inv(st) && SingleFlight(st)
    ensures SingleFlight(Exec(guarded, st, run))
    decreases |run|
  {
    if run != [] {
      InvStep(guarded, st, run[0]);
      SingleFlightStep(guarded, st, run[0]);
      SingleFlightRun(guarded, Apply(guarded, st, run[0]), run[1..]);
    }
  }

  /**
   * Without evict, one identity never has two opens in flight and never opens two stores, so
   * all callers that get an entry for it, the opener included, get the same one.
   */
  lemma OneStorePerIdentity(run: Run, s: nat, t: nat)
    requires IsRun(false, INIT, run) && NoEvicts(run)
    requires var st := Exec(false, INIT, run); s < t < |st.heap| && st.heap[s].id == st.heap[t].id
    ensures var st := Exec(false, INIT, run);
            && !InFlight(st.heap[s].phase)
            && s !in st.opens && st.heap[s].entry == None
            && forall c :: 0 <= c < |st.calls| && st.calls[c].Answered? && st.calls[c].slot == s ==>
                 st.calls[c].entry == None && st.calls[c].err
  {
    InvRun(false, INIT, run);
    SingleFlightRun(false, INIT, run);
    var st := Exec(false, INIT, run);
    SlotFacts(st, s);
    forall c | 0 <= c < |st.calls| && st.calls[c].Answered? && st.calls[c].slot == s
      ensures st.calls[c].entry == None && st.calls[c].err
    {
      assert CallRefs(st, st.calls[c]);
    }
  }
}
