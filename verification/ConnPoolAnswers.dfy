/** What the callers of the pool of ConnPool are given, and what evict and Close leave behind. */
module ConnPoolAnswers {
  import opened Basics
  import opened ConnPool
  import opened ConnPoolRuns

  /** Call c got what the open of slot s came to: its entry, or its error. */
  predicate Gets(st: State, c: nat, s: nat) {
    && c < |st.calls| && s < |st.heap|
    && st.calls[c]
       == if st.heap[s].phase == Finished(true) then Answered(s, Some(s), false) else Answered(s, None, true)
  }

  predicate WaitsOn(st: State, c: nat, s: nat) {
    c < |st.calls| && (st.calls[c] == Waiting(s) || (st.calls[c].Answered? && st.calls[c].slot == s))
  }

  /** A call that waits on a slot does so until it is answered from it; a call that has returned stays so. */
  lemma WaitsOnStep(guarded: bool, st: State, step: Step, c: nat, s: nat)
    requires Enabled(st, step) && c < |st.calls|
    ensures WaitsOn(st, c, s) ==> WaitsOn(Apply(guarded, st, step), c, s)
    ensures st.calls[c] == Returned ==>
      c < |Apply(guarded, st, step).calls| && Apply(guarded, st, step).calls[c] == Returned
  {
  }

  lemma {:induction false} WaitsOnRun(guarded: bool, st: State, run: Run, c: nat, s: nat)
    requires IsRun(guarded, st, run) && c < |st.calls|
    ensures WaitsOn(st, c, s) ==> WaitsOn(Exec(guarded, st, run), c, s)
    ensures st.calls[c] == Returned ==>
      c < |Exec(guarded, st, run).calls| && Exec(guarded, st, run).calls[c] == Returned
    decreases |run|
  {
    if run != [] && (WaitsOn(st, c, s) || st.calls[c] == Returned) {
      WaitsOnStep(guarded, st, run[0], c, s);
      WaitsOnRun(guarded, Apply(guarded, st, run[0]), run[1..], c, s);
    }
  }

  /** An answered call has the outcome of its slot. */
  lemma AnsweredGets(st: State, c: nat, s: nat)
    requires Inv(st) && WaitsOn(st, c, s) && st.calls[c].Answered?
    ensures Gets(st, c, s) && st.heap[s].phase.Finished?
  {
    assert CallRefs(st, st.calls[c]);
    SlotFacts(st, s);
  }

  /** After any run: a call that wakes gets its slot's entry if the open was kept, and an error otherwise. */
  lemma WakeAnswers(guarded: bool, run: Run, c: nat)
    requires IsRun(guarded, INIT, run) && Enabled(Exec(guarded, INIT, run), Wake(c))
    ensures var st := Exec(guarded, INIT, run);
            var s := st.calls[c].slot;
            && st.heap[s].phase.Finished?
            && Apply(guarded, st, Wake(c)).calls[c]
               == if st.heap[s].phase.ok then Answered(s, Some(s), false) else Answered(s, None, true)
  {
    var st := Exec(guarded, INIT, run);
    InvRun(guarded, INIT, run);
    SlotFacts(st, st.calls[c].slot);
  }

  /** And once all calls have returned, every call that ever waited on a slot has its outcome. */
  lemma WaiterGetsOutcome(guarded: bool, run: Run, more: Run, c: nat, s: nat)
    requires IsRun(guarded, INIT, run)
    requires var st := Exec(guarded, INIT, run); c < |st.calls| && st.calls[c] == Waiting(s)
    requires IsRun(guarded, Exec(guarded, INIT, run), more) && Idle(Exec(guarded, Exec(guarded, INIT, run), more))
    ensures Gets(Exec(guarded, Exec(guarded, INIT, run), more), c, s)
  {
    var st := Exec(guarded, INIT, run);
    InvRun(guarded, INIT, run);
    InvRun(guarded, st, more);
    WaitsOnRun(guarded, st, more, c, s);
    AnsweredGets(Exec(guarded, st, more), c, s);
  }

  /** Slot k keeps its identity, and once out of the map and not dropped it stays so. */
  predicate KeepsSlot(st: State, st': State, k: nat) {
    && k < |st.heap| && k < |st'.heap| && st'.heap[k].id == st.heap[k].id
    && (!Mapped(st, k) ==> !Mapped(st', k))
    && (!Mapped(st, k) && k !in st.dropped ==> k !in st'.dropped)
  }

  lemma KeepsOnShrink(st: State, st': State, k: nat)
    requires k < |st.heap| == |st'.heap| && st'.heap[k].id == st.heap[k].id && st'.dropped == st.dropped
    requires forall id :: id in st'.slots ==> id in st.slots && st'.slots[id] == st.slots[id]
    ensures KeepsSlot(st, st', k)
  {
  }

  lemma KeepsOnDelete(guarded: bool, st: State, s: nat, p: Phase, k: nat)
    requires Shape(st) && s < |st.heap| && k < |st.heap|
    ensures KeepsSlot(st, SetPhase(Unlink(guarded, st, s), s, p), k)
  {
  }

  lemma HeapKeepsStep(guarded: bool, st: State, step: Step, k: nat)
    requires Enabled(st, step) && k < |st.heap| && Shape(st)
    ensures KeepsSlot(st, Apply(guarded, st, step), k)
  {
    match step
    case OpenOrGet(_) =>
    case DropFailed(s) => KeepsOnDelete(guarded, st, s, Failing, k);
    case Recheck(s) =>
      KeepsOnDelete(guarded, st, s, Rejected, k);
      KeepsOnShrink(st, SetPhase(st, s, Accepted), k);
    case _ =>
      StepShrinks(guarded, st, step);
      KeepsOnShrink(st, Apply(guarded, st, step), k);
  }

  lemma {:induction false} HeapKeeps(guarded: bool, st: State, run: Run, k: nat)
    requires IsRun(guarded, st, run) && k < |st.heap| && Inv(st)
    ensures KeepsSlot(st, Exec(guarded, st, run), k)
    decreases |run|
  {
    if run != [] {
      InvStep(guarded, st, run[0]);
      HeapKeepsStep(guarded, st, run[0], k);
      HeapKeeps(guarded, Apply(guarded, st, run[0]), run[1..], k);
    }
  }

  /**
   * What an openOrGet comes to, whatever else runs beside it, once all calls have returned: after
   * Close it is refused; if its identity has a slot it shares that slot's outcome; and otherwise it
   * opens a slot of its own for that identity.
   */
  lemma OpenOrGetOutcome(guarded: bool, run: Run, id: Identity, more: Run)
    requires IsRun(guarded, INIT, run)
    requires var st1 := Apply(guarded, Exec(guarded, INIT, run), OpenOrGet(id));
             IsRun(guarded, st1, more) && Idle(Exec(guarded, st1, more))
    ensures var st := Exec(guarded, INIT, run);
            var end := Exec(guarded, Apply(guarded, st, OpenOrGet(id)), more);
            var c := |st.calls|;
            && (st.closed ==> c < |end.calls| && end.calls[c] == Returned)
            && (!st.closed && id in st.slots ==>
                 Mapped(st, st.slots[id]) && st.heap[st.slots[id]].id == id && Gets(end, c, st.slots[id]))
            && (!st.closed && id !in st.slots ==> |st.heap| < |end.heap| && end.heap[|st.heap|].id == id)
  {
    var st := Exec(guarded, INIT, run);
    var st1 := Apply(guarded, st, OpenOrGet(id));
    InvRun(guarded, INIT, run);
    InvStep(guarded, st, OpenOrGet(id));
    InvRun(guarded, st1, more);
    if !st.closed && id !in st.slots {
      HeapKeeps(guarded, st1, more, |st.heap|);
    } else {
      var s := if st.closed then 0 else st.slots[id];
      WaitsOnRun(guarded, st1, more, |st.calls|, s);
      if !st.closed {
        AnsweredGets(Exec(guarded, st1, more), |st.calls|, s);
      }
    }
  }

  /** The opener's own return values: the new entry and no error, or an error and no entry. */
  lemma OpenerGetsOutcome(guarded: bool, run: Run, s: nat)
    requires IsRun(guarded, INIT, run)
    requires var st := Exec(guarded, INIT, run); s < |st.heap| && st.heap[s].phase.Finished?
    ensures var slot := Exec(guarded, INIT, run).heap[s];
            if slot.phase.ok then slot.entry == slot.store == Some(s) && !slot.err
            else slot.entry == slot.store == None && slot.err
    ensures var st := Exec(guarded, INIT, run); st.heap[s].phase.ok ==> s in st.opens
  {
    InvRun(guarded, INIT, run);
    SlotFacts(Exec(guarded, INIT, run), s);
  }

  /** Nothing but evict and Close makes a call fail whose open gave a store. */
  lemma OpenedIsKept(run: Run, s: nat)
    requires IsRun(false, INIT, run) && NoEvicts(run)
    requires var st := Exec(false, INIT, run); !st.closed && Idle(st) && s in st.opens
    ensures var st := Exec(false, INIT, run);
            s < |st.heap| && st.heap[s].phase == Finished(true) && Mapped(st, s) && st.closes[s] == 0
  {
    InvRun(false, INIT, run);
    SingleFlightRun(false, INIT, run);
    var st := Exec(false, INIT, run);
    SlotFacts(st, s);
    assert Mapped(st, s);
    assert Owned(st, s);
  }

  /** A failed open is not cached: when all is quiet the map holds kept slots only. */
  lemma OnlyKeptAreMapped(guarded: bool, run: Run, id: Identity)
    requires IsRun(guarded, INIT, run)
    requires var st := Exec(guarded, INIT, run); Idle(st) && id in st.slots
    ensures var st := Exec(guarded, INIT, run);
            var s := st.slots[id];
            s < |st.heap| && st.heap[s].id == id && st.heap[s].phase == Finished(true) && st.closes[s] == 0
  {
    InvRun(guarded, INIT, run);
    var st := Exec(guarded, INIT, run);
    SlotFacts(st, st.slots[id]);
    assert Owned(st, st.slots[id]);
  }

  /**
   * After an evict of an identity its slot is out of the map for good, and once all calls have
   * returned a store that was opened for it is closed, exactly once.
   */
  lemma EvictedIsClosed(guarded: bool, run: Run, id: Identity, more: Run)
    requires IsRun(guarded, INIT, run) && id in Exec(guarded, INIT, run).slots
    requires var st1 := Apply(guarded, Exec(guarded, INIT, run), Evict(id));
             IsRun(guarded, st1, more) && Idle(Exec(guarded, st1, more))
    ensures var st := Exec(guarded, INIT, run);
            var s := st.slots[id];
            var end := Exec(guarded, Apply(guarded, st, Evict(id)), more);
            !Mapped(end, s) && end.closes[s] == if s in end.opens then 1 else 0
  {
    var st := Exec(guarded, INIT, run);
    var s := st.slots[id];
    var st1 := Apply(guarded, st, Evict(id));
    InvRun(guarded, INIT, run);
    InvStep(guarded, st, Evict(id));
    MappedIsNotDropped(st, s);
    HeapKeeps(guarded, st1, more, s);
    InvRun(guarded, st1, more);
    GoneIsClosed(Exec(guarded, st1, more), s);
  }

  lemma MappedIsNotDropped(st: State, s: nat)
    requires Inv(st) && Mapped(st, s)
    ensures s !in st.dropped
  {
    SlotFacts(st, s);
    assert Owned(st, s);
  }

  /** With nothing left to do, a slot that is neither mapped nor dropped has its store closed. */
  lemma GoneIsClosed(st: State, s: nat)
    requires Inv(st) && Idle(st) && s < |st.heap| && !Mapped(st, s) && s !in st.dropped
    ensures st.closes[s] == if s in st.opens then 1 else 0
  {
    SlotFacts(st, s);
    forall c | 0 <= c < |st.calls| ensures !Owns(st.calls[c], s) {}
    assert !Owned(st, s);
  }

  /** Close: the pool stays closed, and the stores mapped when it came are closed once all calls have returned. */
  lemma ClosedForGood(guarded: bool, run: Run, more: Run, s: nat)
    requires IsRun(guarded, INIT, run)
    requires var st1 := Apply(guarded, Exec(guarded, INIT, run), Step.Close);
             IsRun(guarded, st1, more) && Idle(Exec(guarded, st1, more))
    ensures var st := Exec(guarded, INIT, run);
            var end := Exec(guarded, Apply(guarded, st, Step.Close), more);
            && end.closed && end.slots == map[]
            && (Mapped(st, s) ==> end.closes[s] == if s in end.opens then 1 else 0)
  {
    var st := Exec(guarded, INIT, run);
    var st1 := Apply(guarded, st, Step.Close);
    InvRun(guarded, INIT, run);
    InvStep(guarded, st, Step.Close);
    InvRun(guarded, st1, more);
    DroppedForever(guarded, st1, more);
    if Mapped(st, s) {
      MappedIsNotDropped(st, s);
      HeapKeeps(guarded, st1, more, s);
      GoneIsClosed(Exec(guarded, st1, more), s);
    }
  }
}
