/**
 * The lazy connection pool of cmd/connpool.go.
 *
 * openOrGet, evict and Close run concurrently. Each lock section, the return of
 * the open, each write to a slot, the close of a slot's done channel and each
 * wake-up is one atomic step, and a run is any interleaving of steps. A store is
 * named by the slot whose open produced it.
 *
 * `guarded` selects a variant in which the two deletes (lines 82 and 97) first
 * check that the mapped slot is the caller's own; the code itself is the
 * unguarded variant.
 */
module ConnPool {
  import opened Basics

  type Identity = string

  /** How far the call that created a slot has come. */
  datatype Phase =
    | Opening             // p.open runs outside the lock
    | OpenFailed          // open returned an error; slot not dropped yet
    | OpenReturned        // open returned a store; not re-checked yet
    | Rejected            // re-check found the slot evicted; store still open
    | Accepted            // re-check kept the slot; slot.store not written yet
    | Failing             // about to write slot.err
    | Settled(ok: bool)   // slot fields written; done still open
    | Finished(ok: bool)  // done closed, the call has returned

  predicate InFlight(p: Phase) {
    p.Opening? || p.OpenFailed? || p.OpenReturned?
  }

  predicate Kept(p: Phase) {
    p == Accepted || p == Settled(true) || p == Finished(true)
  }

  predicate Failed(p: Phase) {
    p == Failing || p == Settled(false) || p == Finished(false)
  }

  datatype Slot = Slot(id: Identity, phase: Phase, store: Option<nat>, entry: Option<nat>, err: bool, doneCloses: nat)
  {
    predicate Done() { doneCloses > 0 }
  }

  /** Every call that does not itself run an open. */
  datatype Call =
    | Waiting(slot: nat)                                        // openOrGet behind another open
    | Evicting(slot: nat)                                       // evict that took the slot out of the map
    | Closing(todo: set<nat>)                                   // Close and the slots it has not reached
    | Answered(slot: nat, entry: Option<nat>, err: bool)        // a waiter's return values
    | Returned                                                  // evict, Close, or a refused openOrGet

  datatype State = State(
    slots: map<Identity, nat>,
    closed: bool,
    heap: seq<Slot>,
    calls: seq<Call>,
    opens: set<nat>,        // stores some open returned
    closes: multiset<nat>,   // one occurrence per Close call on a store
    dropped: set<nat>        // kept slots unmapped by another call's delete
  )

  datatype Step =
    | OpenOrGet(id: Identity)
    | OpenReturns(s: nat, ok: bool)
    | DropFailed(s: nat)
    | Recheck(s: nat)
    | CloseRejected(s: nat)
    | WriteErr(s: nat)
    | WriteStore(s: nat)
    | CloseDone(s: nat)
    | Wake(c: nat)
    | Evict(id: Identity)
    | EvictWake(c: nat)
    | Close
    | CloseNext(c: nat, s: nat)
    | CloseReturns(c: nat)

  const INIT := State(map[], false, [], [], {}, multiset{}, {})

  /** The steps that start a call; all others continue one. */
  predicate StartsCall(step: Step) {
    step.OpenOrGet? || step.Evict? || step.Close?
  }

  predicate AtPhase(st: State, s: nat, p: Phase) {
    s < |st.heap| && st.heap[s].phase == p
  }

  predicate Enabled(st: State, step: Step) {
    match step
    case OpenOrGet(_) => true
    case OpenReturns(s, _) => AtPhase(st, s, Opening)
    case DropFailed(s) => AtPhase(st, s, OpenFailed)
    case Recheck(s) => AtPhase(st, s, OpenReturned)
    case CloseRejected(s) => AtPhase(st, s, Rejected)
    case WriteErr(s) => AtPhase(st, s, Failing)
    case WriteStore(s) => AtPhase(st, s, Accepted)
    case CloseDone(s) => s < |st.heap| && st.heap[s].phase.Settled?
    case Wake(c) => c < |st.calls| && st.calls[c].Waiting? && IsDone(st, st.calls[c].slot)
    case Evict(_) => true
    case EvictWake(c) => c < |st.calls| && st.calls[c].Evicting? && IsDone(st, st.calls[c].slot)
    case Close => true
    case CloseNext(c, s) => c < |st.calls| && st.calls[c].Closing? && s in st.calls[c].todo && IsDone(st, s)
    case CloseReturns(c) => c < |st.calls| && st.calls[c].Closing? && st.calls[c].todo == {}
  }

  predicate IsDone(st: State, s: nat) {
    s < |st.heap| && st.heap[s].Done()
  }

  function SetPhase(st: State, s: nat, p: Phase): State
    requires s < |st.heap|
  {
    st.(heap := st.heap[s := st.heap[s].(phase := p)])
  }

  /** delete(p.slots, id) as slot s's own call issues it. */
  function Unlink(guarded: bool, st: State, s: nat): State
    requires s < |st.heap|
  {
    var id := st.heap[s].id;
    if id !in st.slots || (guarded && st.slots[id] != s) then st
    else
      var t := st.slots[id];
      var lost := t != s && t < |st.heap| && Kept(st.heap[t].phase);
      st.(slots := st.slots - {id}, dropped := if lost then st.dropped + {t} else st.dropped)
  }

  predicate Mapped(st: State, s: nat) {
    s < |st.heap| && st.heap[s].id in st.slots && st.slots[st.heap[s].id] == s
  }

  /** The store a woken evict or Close finds in the slot, closed. */
  function CloseStoreOf(st: State, s: nat): State
    requires s < |st.heap|
  {
    match st.heap[s].store
    case None => st
    case Some(store) => st.(closes := st.closes + multiset{store})
  }

  function Apply(guarded: bool, st: State, step: Step): State
    requires Enabled(st, step)
  {
    match step
    case OpenOrGet(id) =>
      if st.closed then st.(calls := st.calls + [Returned])
      else if id in st.slots then st.(calls := st.calls + [Waiting(st.slots[id])])
      else st.(slots := st.slots[id := |st.heap|], heap := st.heap + [Slot(id, Opening, None, None, false, 0)])
    case OpenReturns(s, ok) =>
      if ok then SetPhase(st, s, OpenReturned).(opens := st.opens + {s})
      else SetPhase(st, s, OpenFailed)
    case DropFailed(s) => SetPhase(Unlink(guarded, st, s), s, Failing)
    case Recheck(s) =>
      if st.closed || !Mapped(st, s) then SetPhase(Unlink(guarded, st, s), s, Rejected)
      else SetPhase(st, s, Accepted)
    case CloseRejected(s) => SetPhase(st, s, Failing).(closes := st.closes + multiset{s})
    case WriteErr(s) => st.(heap := st.heap[s := st.heap[s].(phase := Settled(false), err := true)])
    case WriteStore(s) =>
      st.(heap := st.heap[s := st.heap[s].(phase := Settled(true), store := Some(s), entry := Some(s))])
    case CloseDone(s) =>
      var slot := st.heap[s];
      st.(heap := st.heap[s := slot.(phase := Finished(slot.phase.ok), doneCloses := slot.doneCloses + 1)])
    case Wake(c) =>
      var s := st.calls[c].slot;
      st.(calls := st.calls[c := Answered(s, st.heap[s].entry, st.heap[s].err)])
    case Evict(id) =>
      if id in st.slots then st.(slots := st.slots - {id}, calls := st.calls + [Evicting(st.slots[id])])
      else st.(calls := st.calls + [Returned])
    case EvictWake(c) => CloseStoreOf(st, st.calls[c].slot).(calls := st.calls[c := Returned])
    case Close =>
      if st.closed then st.(calls := st.calls + [Returned])
      else st.(closed := true, slots := map[], calls := st.calls + [Closing(set id | id in st.slots :: st.slots[id])])
    case CloseNext(c, s) => CloseStoreOf(st, s).(calls := st.calls[c := Closing(st.calls[c].todo - {s})])
    case CloseReturns(c) => st.(calls := st.calls[c := Returned])
  }

  // ------------------------------------------------------------------ runs

  type Run = seq<Step>

  /** Each step of the run is enabled when its turn comes. */
  predicate IsRun(guarded: bool, st: State, run: Run)
    decreases |run|
  {
    run == [] || (Enabled(st, run[0]) && IsRun(guarded, Apply(guarded, st, run[0]), run[1..]))
  }

  function Exec(guarded: bool, st: State, run: Run): State
    requires IsRun(guarded, st, run)
    decreases |run|
  {
    if run == [] then st else Exec(guarded, Apply(guarded, st, run[0]), run[1..])
  }

  // ------------------------------------------------------- inductive invariant

  /** The call will, once slot s is done, close the store it finds there. */
  predicate Owns(c: Call, s: nat) {
    (c.Evicting? && c.slot == s) || (c.Closing? && s in c.todo)
  }

  predicate CallRefs(st: State, c: Call) {
    match c
    case Waiting(s) => s < |st.heap|
    case Evicting(s) => s < |st.heap|
    case Closing(todo) => forall s :: s in todo ==> s < |st.heap|
    case Answered(s, entry, err) => IsDone(st, s) && entry == st.heap[s].entry && err == st.heap[s].err
    case Returned => true
  }

  /** A slot's fields and the bookkeeping about its store, by phase. */
  predicate SlotShape(st: State, s: nat, slot: Slot) {
    && slot.store == slot.entry
       == (if slot.phase == Settled(true) || slot.phase == Finished(true) then Some(s) else None)
    && slot.err == (slot.phase == Settled(false) || slot.phase == Finished(false))
    && slot.doneCloses == (if slot.phase.Finished? then 1 else 0)
    && (slot.phase.Opening? || slot.phase.OpenFailed? ==> s !in st.opens)
    && (slot.phase.OpenReturned? || slot.phase.Rejected? || Kept(slot.phase) ==> s in st.opens)
    && (!Kept(slot.phase) ==> s !in st.dropped)
    && (!Kept(slot.phase) ==> st.closes[s] == if Failed(slot.phase) && s in st.opens then 1 else 0)
  }

  ghost predicate Shape(st: State) {
    && (st.closed ==> st.slots == map[])
    && (forall id :: id in st.slots ==>
          var s := st.slots[id];
          s < |st.heap| && st.heap[s].id == id && (InFlight(st.heap[s].phase) || Kept(st.heap[s].phase)))
    && (forall s :: 0 <= s < |st.heap| ==> SlotShape(st, s, st.heap[s]))
    && (forall c :: 0 <= c < |st.calls| ==> CallRefs(st, st.calls[c]))
    && (forall s :: s in st.opens ==> s < |st.heap|)
    && (forall s :: s in st.dropped ==> s < |st.heap|)
    && (forall s :: s in st.closes ==> s < |st.heap|)
  }

  /** At most one of the map and the pending calls is responsible for a slot. */
  ghost predicate OneOwner(st: State) {
    && (forall c, s :: 0 <= c < |st.calls| && Owns(st.calls[c], s) ==> !Mapped(st, s))
    && (forall c, d, s :: 0 <= c < d < |st.calls| && Owns(st.calls[c], s) ==> !Owns(st.calls[d], s))
  }

  ghost predicate Owned(st: State, s: nat) {
    Mapped(st, s) || exists c :: 0 <= c < |st.calls| && Owns(st.calls[c], s)
  }

  /** A kept store has exactly one fate: still owned, closed once, or dropped. */
  ghost predicate Fates(st: State) {
    forall s :: 0 <= s < |st.heap| && Kept(st.heap[s].phase) ==>
      && st.closes[s] <= 1
      && (Owned(st, s) ==> st.closes[s] == 0 && s !in st.dropped)
      && (s in st.dropped ==> st.closes[s] == 0)
      && (Owned(st, s) || st.closes[s] == 1 || s in st.dropped)
  }

  ghost predicate Inv(st: State) {
    Shape(st) && OneOwner(st) && Fates(st)
  }

  /** A new slot: nothing refers to it yet, and every old slot is as it was. */
  lemma InvNewSlot(guarded: bool, st: State, id: Identity)
    requires Inv(st) && !st.closed && id !in st.slots
    ensures Inv(Apply(guarded, st, OpenOrGet(id)))
  {
    var st' := Apply(guarded, st, OpenOrGet(id));
    ShapeNewSlot(guarded, st, id);
    MappedNewSlot(guarded, st, id);
    OwnersNewSlot(st, st');
  }

  lemma ShapeNewSlot(guarded: bool, st: State, id: Identity)
    requires Shape(st) && !st.closed && id !in st.slots
    ensures Shape(Apply(guarded, st, OpenOrGet(id)))
  {
    var st' := Apply(guarded, st, OpenOrGet(id));
    var t := |st.heap|;
    assert t !in st.closes && t !in st.opens && t !in st.dropped;
    assert forall s :: 0 <= s < t ==> st'.heap[s] == st.heap[s] && SlotShape(st, s, st.heap[s]);
    forall c | 0 <= c < |st'.calls| ensures CallRefs(st', st'.calls[c]) {
      assert CallRefs(st, st.calls[c]);
    }
  }

  lemma MappedNewSlot(guarded: bool, st: State, id: Identity)
    requires Shape(st) && !st.closed && id !in st.slots
    ensures forall s: nat :: s < |st.heap| ==> Mapped(Apply(guarded, st, OpenOrGet(id)), s) == Mapped(st, s)
  {
  }

  lemma OwnersNewSlot(st: State, st': State)
    requires Shape(st) && OneOwner(st) && Fates(st)
    requires st'.calls == st.calls && st'.closes == st.closes && st'.dropped == st.dropped
    requires |st'.heap| == |st.heap| + 1 && st'.heap[..|st.heap|] == st.heap && st'.heap[|st.heap|].phase.Opening?
    requires forall s: nat :: s < |st.heap| ==> Mapped(st', s) == Mapped(st, s)
    ensures OneOwner(st') && Fates(st')
  {
    var t := |st.heap|;
    forall c, s: nat | 0 <= c < |st.calls| && Owns(st.calls[c], s) ensures s < t {
      assert CallRefs(st, st.calls[c]);
    }
    assert forall s :: 0 <= s < t ==> st'.heap[s] == st.heap[s];
    forall s: nat | s < t ensures Owned(st', s) == Owned(st, s) {}
  }

  /** A step that leaves every slot alone keeps the shape. */
  lemma SameHeapShape(st: State, st': State)
    requires Shape(st) && st'.heap == st.heap && st'.opens == st.opens
    requires forall id :: id in st'.slots ==> id in st.slots && st'.slots[id] == st.slots[id]
    requires st.closed ==> st'.closed
    requires st'.closed ==> st'.slots == map[]
    requires forall c :: 0 <= c < |st'.calls| ==>
      CallRefs(st', st'.calls[c]) || (c < |st.calls| && st'.calls[c] == st.calls[c])
    requires forall k :: k in st'.dropped ==> k < |st.heap| && (k in st.dropped || Kept(st.heap[k].phase))
    requires forall k :: k in st'.closes ==> k < |st.heap| && (st'.closes[k] == st.closes[k] || Kept(st.heap[k].phase))
    requires forall k :: k in st.closes ==> k in st'.closes
    ensures Shape(st')
  {
    forall k | 0 <= k < |st'.heap| ensures SlotShape(st', k, st'.heap[k]) {
      assert SlotShape(st, k, st.heap[k]);
    }
    forall c | 0 <= c < |st'.calls| ensures CallRefs(st', st'.calls[c]) {
      if c < |st.calls| && st'.calls[c] == st.calls[c] {
        assert CallRefs(st, st.calls[c]);
      }
    }
  }

  /** Replacing call c by one that owns the same slot does not change who owns it. */
  lemma OwnedElsewhere(st: State, st': State, c: nat, s: nat)
    requires |st.calls| == |st'.calls| && c < |st.calls|
    requires forall d :: 0 <= d < |st.calls| && d != c ==> st'.calls[d] == st.calls[d]
    requires Owns(st.calls[c], s) == Owns(st'.calls[c], s)
    requires Mapped(st, s) == Mapped(st', s)
    ensures Owned(st, s) == Owned(st', s)
  {
    if d :| 0 <= d < |st.calls| && Owns(st.calls[d], s) {
      assert Owns(st'.calls[d], s);
    }
    if d :| 0 <= d < |st.calls| && Owns(st'.calls[d], s) {
      assert Owns(st.calls[d], s);
    }
  }

  /** A new call may take a slot over from the map; nothing else changes hands. */
  lemma OwnedAppend(st: State, st': State, s: nat)
    requires |st'.calls| == |st.calls| + 1 && st'.calls[..|st.calls|] == st.calls
    requires Mapped(st, s) == (Mapped(st', s) || Owns(st'.calls[|st.calls|], s))
    ensures Owned(st, s) == Owned(st', s)
  {
    assert forall c :: 0 <= c < |st.calls| ==> st'.calls[c] == st.calls[c];
    if Mapped(st, s) && !Mapped(st', s) {
      assert Owns(st'.calls[|st.calls|], s);
    }
    if c :| 0 <= c < |st.calls| && Owns(st.calls[c], s) {
      assert Owns(st'.calls[c], s);
    }
  }

  /** A call arrives and takes over exactly the slots that leave the map. */
  lemma InvNewCall(st: State, st': State)
    requires Inv(st) && st'.heap == st.heap && st'.opens == st.opens && st'.closes == st.closes
             && st'.dropped == st.dropped
    requires |st'.calls| == |st.calls| + 1 && st'.calls[..|st.calls|] == st.calls
    requires CallRefs(st', st'.calls[|st.calls|])
    requires forall id :: id in st'.slots ==> id in st.slots && st'.slots[id] == st.slots[id]
    requires st.closed ==> st'.closed
    requires st'.closed ==> st'.slots == map[]
    requires forall k: nat :: Mapped(st, k) == (Mapped(st', k) || Owns(st'.calls[|st.calls|], k))
    requires forall k: nat :: !(Mapped(st', k) && Owns(st'.calls[|st.calls|], k))
    ensures Inv(st')
  {
    assert forall c :: 0 <= c < |st.calls| ==> st'.calls[c] == st.calls[c];
    SameHeapShape(st, st');
    OwnersAfterNewCall(st, st');
    FatesAfterNewCall(st, st');
  }

  lemma OwnersAfterNewCall(st: State, st': State)
    requires OneOwner(st)
    requires |st'.calls| == |st.calls| + 1 && st'.calls[..|st.calls|] == st.calls
    requires forall k: nat :: Mapped(st, k) == (Mapped(st', k) || Owns(st'.calls[|st.calls|], k))
    requires forall k: nat :: !(Mapped(st', k) && Owns(st'.calls[|st.calls|], k))
    ensures OneOwner(st')
  {
    assert forall c :: 0 <= c < |st.calls| ==> st'.calls[c] == st.calls[c];
  }

  lemma FatesAfterNewCall(st: State, st': State)
    requires Fates(st) && st'.heap == st.heap && st'.closes == st.closes && st'.dropped == st.dropped
    requires |st'.calls| == |st.calls| + 1 && st'.calls[..|st.calls|] == st.calls
    requires forall k: nat :: Mapped(st, k) == (Mapped(st', k) || Owns(st'.calls[|st.calls|], k))
    ensures Fates(st')
  {
    forall k: nat ensures Owned(st', k) == Owned(st, k) {
      OwnedAppend(st, st', k);
    }
  }

  /** Only slot s, and the bookkeeping about its own store, may differ. */
  ghost predicate OnlySlotDiffers(st: State, st': State, s: nat) {
    && s < |st.heap| == |st'.heap|
    && st'.heap[s].id == st.heap[s].id
    && (forall k :: 0 <= k < |st.heap| && k != s ==>
          st'.heap[k] == st.heap[k] && (k in st'.opens <==> k in st.opens) && st'.closes[k] == st.closes[k])
    && (forall k :: k in st'.opens || k in st'.closes ==> k < |st.heap|)
    && st'.slots == st.slots && st'.closed == st.closed && st'.calls == st.calls && st'.dropped == st.dropped
  }

  lemma InvSlotChange(st: State, st': State, s: nat)
    requires Inv(st) && OnlySlotDiffers(st, st', s)
    requires !st.heap[s].Done() && SlotShape(st', s, st'.heap[s])
    requires Mapped(st, s) ==> InFlight(st'.heap[s].phase) || Kept(st'.heap[s].phase)
    requires Kept(st'.heap[s].phase) ==> st'.closes[s] == st.closes[s] && (Kept(st.heap[s].phase) || Mapped(st, s))
    ensures Inv(st')
  {
    SlotFacts(st, s);
    assert Shape(st') by {
      forall k | 0 <= k < |st'.heap| ensures SlotShape(st', k, st'.heap[k]) {
        assert k != s ==> SlotShape(st, k, st.heap[k]);
      }
      forall c | 0 <= c < |st'.calls| ensures CallRefs(st', st'.calls[c]) {
        assert CallRefs(st, st.calls[c]);
      }
    }
    forall k: nat ensures Mapped(st', k) == Mapped(st, k) {}
    assert OneOwner(st');
    assert Fates(st') by {
      forall k: nat ensures Owned(st', k) == Owned(st, k) {}
    }
  }

  lemma InvUnlink(guarded: bool, st: State, s: nat)
    requires Inv(st) && s < |st.heap| && InFlight(st.heap[s].phase)
    ensures Inv(Unlink(guarded, st, s)) && !Mapped(Unlink(guarded, st, s), s)
  {
    var st' := Unlink(guarded, st, s);
    if st' != st {
      var t := st.slots[st.heap[s].id];
      SameHeapShape(st, st');
      MappedAfterUnlink(guarded, st, s);
      assert OneOwner(st');
      FatesAfterUnlink(guarded, st, s);
    }
  }

  lemma MappedAfterUnlink(guarded: bool, st: State, s: nat)
    requires Shape(st) && s < |st.heap| && Unlink(guarded, st, s) != st
    ensures Mapped(st, st.slots[st.heap[s].id])
    ensures forall k: nat :: Mapped(Unlink(guarded, st, s), k) == (Mapped(st, k) && k != st.slots[st.heap[s].id])
  {
  }

  lemma FatesAfterUnlink(guarded: bool, st: State, s: nat)
    requires Shape(st) && OneOwner(st) && Fates(st)
    requires s < |st.heap| && InFlight(st.heap[s].phase) && Unlink(guarded, st, s) != st
    ensures Fates(Unlink(guarded, st, s))
  {
    var st' := Unlink(guarded, st, s);
    var t := st.slots[st.heap[s].id];
    MappedAfterUnlink(guarded, st, s);
    assert Owned(st, t) && !Owned(st', t);
    forall k: nat | k != t ensures Owned(st', k) == Owned(st, k) {}
  }

  /** Call c changes without owning a slot before or after. */
  lemma InvRelabel(st: State, c: nat, call: Call)
    requires Inv(st) && c < |st.calls| && CallRefs(st, call)
    requires forall s: nat :: !Owns(st.calls[c], s) && !Owns(call, s)
    ensures Inv(st.(calls := st.calls[c := call]))
  {
    var st' := st.(calls := st.calls[c := call]);
    SameHeapShape(st, st');
    forall k: nat ensures Mapped(st', k) == Mapped(st, k) {}
    assert OneOwner(st');
    forall k: nat ensures Owned(st', k) == Owned(st, k) {
      OwnedElsewhere(st, st', c, k);
    }
    assert Fates(st');
  }

  /** Call c owned s, finds it done and closes its store, if there is one. */
  lemma InvDischarge(st: State, c: nat, s: nat, call: Call)
    requires Inv(st) && c < |st.calls| && Owns(st.calls[c], s) && IsDone(st, s)
    requires CallRefs(st, call) && !Owns(call, s)
    requires forall k: nat :: k != s ==> Owns(call, k) == Owns(st.calls[c], k)
    ensures Inv(CloseStoreOf(st, s).(calls := st.calls[c := call]))
  {
    var st' := CloseStoreOf(st, s).(calls := st.calls[c := call]);
    ShapeAfterDischarge(st, c, s, call);
    forall k: nat ensures Mapped(st', k) == Mapped(st, k) {}
    OwnersAfterDischarge(st, st', c, s);
    FatesAfterDischarge(st, c, s, call);
  }

  lemma ShapeAfterDischarge(st: State, c: nat, s: nat, call: Call)
    requires Shape(st) && c < |st.calls| && IsDone(st, s) && CallRefs(st, call)
    ensures Shape(CloseStoreOf(st, s).(calls := st.calls[c := call]))
  {
    var st' := CloseStoreOf(st, s).(calls := st.calls[c := call]);
    assert SlotShape(st, s, st.heap[s]);
    assert CallRefs(st', call);
    SameHeapShape(st, st');
  }

  lemma OwnersAfterDischarge(st: State, st': State, c: nat, s: nat)
    requires OneOwner(st) && c < |st.calls| == |st'.calls| && !Owns(st'.calls[c], s)
    requires forall d :: 0 <= d < |st.calls| && d != c ==> st'.calls[d] == st.calls[d]
    requires forall k: nat :: k != s ==> Owns(st'.calls[c], k) == Owns(st.calls[c], k)
    requires forall k: nat :: Mapped(st', k) == Mapped(st, k)
    ensures OneOwner(st')
  {
  }

  lemma FatesAfterDischarge(st: State, c: nat, s: nat, call: Call)
    requires Shape(st) && OneOwner(st) && Fates(st)
    requires c < |st.calls| && Owns(st.calls[c], s) && IsDone(st, s) && !Owns(call, s)
    requires forall k: nat :: k != s ==> Owns(call, k) == Owns(st.calls[c], k)
    ensures Fates(CloseStoreOf(st, s).(calls := st.calls[c := call]))
  {
    var st' := CloseStoreOf(st, s).(calls := st.calls[c := call]);
    assert SlotShape(st, s, st.heap[s]);
    assert Owned(st, s);
    forall k: nat ensures Mapped(st', k) == Mapped(st, k) {}
    assert !Owned(st', s);
    forall k: nat | k != s ensures Owned(st', k) == Owned(st, k) && st'.closes[k] == st.closes[k] {
      OwnedElsewhere(st, st', c, k);
    }
  }

  lemma SlotFacts(st: State, s: nat)
    requires Inv(st) && s < |st.heap|
    ensures SlotShape(st, s, st.heap[s])
    ensures Mapped(st, s) ==> InFlight(st.heap[s].phase) || Kept(st.heap[s].phase)
  {
  }

  /** The steps of an opening call that touch its own slot only. */
  predicate MovesSlot(step: Step) {
    step.OpenReturns? || step.CloseRejected? || step.WriteErr? || step.WriteStore? || step.CloseDone?
  }

  lemma SlotStepIsLocal(guarded: bool, st: State, step: Step)
    requires Enabled(st, step) && MovesSlot(step) && SlotShape(st, step.s, st.heap[step.s])
    requires forall k :: k in st.opens || k in st.closes ==> k < |st.heap|
    ensures var st' := Apply(guarded, st, step);
            OnlySlotDiffers(st, st', step.s) && SlotShape(st', step.s, st'.heap[step.s])
  {
    var st' := Apply(guarded, st, step);
    SlotStepKeepsShape(guarded, st, step);
    assert OnlySlotDiffers(st, st', step.s);
  }

  lemma SlotStepKeepsShape(guarded: bool, st: State, step: Step)
    requires Enabled(st, step) && MovesSlot(step) && SlotShape(st, step.s, st.heap[step.s])
    ensures var st' := Apply(guarded, st, step); |st'.heap| == |st.heap| && SlotShape(st', step.s, st'.heap[step.s])
  {
  }

  lemma InvSlotStep(guarded: bool, st: State, step: Step)
    requires Inv(st) && Enabled(st, step) && MovesSlot(step)
    ensures Inv(Apply(guarded, st, step))
  {
    SlotFacts(st, step.s);
    SlotStepIsLocal(guarded, st, step);
    InvSlotChange(st, Apply(guarded, st, step), step.s);
  }

  lemma InvDropFailed(guarded: bool, st: State, s: nat)
    requires Inv(st) && AtPhase(st, s, OpenFailed)
    ensures Inv(Apply(guarded, st, DropFailed(s)))
  {
    InvUnlink(guarded, st, s);
    var mid := Unlink(guarded, st, s);
    SlotFacts(mid, s);
    InvSlotChange(mid, SetPhase(mid, s, Failing), s);
  }

  lemma InvReject(guarded: bool, st: State, s: nat)
    requires Inv(st) && AtPhase(st, s, OpenReturned)
    ensures Inv(SetPhase(Unlink(guarded, st, s), s, Rejected))
  {
    InvUnlink(guarded, st, s);
    var mid := Unlink(guarded, st, s);
    SlotFacts(mid, s);
    InvSlotChange(mid, SetPhase(mid, s, Rejected), s);
  }

  lemma InvAccept(st: State, s: nat)
    requires Inv(st) && AtPhase(st, s, OpenReturned) && Mapped(st, s)
    ensures Inv(SetPhase(st, s, Accepted))
  {
    SlotFacts(st, s);
    InvSlotChange(st, SetPhase(st, s, Accepted), s);
  }

  lemma InvStartCall(guarded: bool, st: State, step: Step)
    requires Inv(st) && StartsCall(step)
    ensures Inv(Apply(guarded, st, step))
  {
    if step.OpenOrGet? && !st.closed && step.id !in st.slots {
      InvNewSlot(guarded, st, step.id);
    } else if step.Close? {
      InvClose(guarded, st);
    } else if step.Evict? {
      InvEvict(guarded, st, step.id);
    } else {
      InvNewCall(st, Apply(guarded, st, step));
    }
  }

  lemma InvEvict(guarded: bool, st: State, id: Identity)
    requires Inv(st)
    ensures Inv(Apply(guarded, st, Evict(id)))
  {
    InvNewCall(st, Apply(guarded, st, Evict(id)));
  }

  lemma InvClose(guarded: bool, st: State)
    requires Inv(st)
    ensures Inv(Apply(guarded, st, Close))
  {
    forall k: nat | Mapped(st, k) ensures k in (set id | id in st.slots :: st.slots[id]) {
      assert st.heap[k].id in st.slots;
    }
    InvNewCall(st, Apply(guarded, st, Close));
  }

  lemma InvStep(guarded: bool, st: State, step: Step)
    requires Inv(st) && Enabled(st, step)
    ensures Inv(Apply(guarded, st, step))
  {
    match step
    case OpenOrGet(_) => InvStartCall(guarded, st, step);
    case OpenReturns(_, _) => InvSlotStep(guarded, st, step);
    case DropFailed(s) => InvDropFailed(guarded, st, s);
    case Recheck(s) =>
      if st.closed || !Mapped(st, s) {
        InvReject(guarded, st, s);
      } else {
        InvAccept(st, s);
      }
    case CloseRejected(_) => InvSlotStep(guarded, st, step);
    case WriteErr(_) => InvSlotStep(guarded, st, step);
    case WriteStore(_) => InvSlotStep(guarded, st, step);
    case CloseDone(_) => InvSlotStep(guarded, st, step);
    case Wake(c) => InvRelabel(st, c, Apply(guarded, st, step).calls[c]);
    case Evict(_) => InvStartCall(guarded, st, step);
    case EvictWake(c) => InvDischarge(st, c, st.calls[c].slot, Returned);
    case Close => InvStartCall(guarded, st, step);
    case CloseNext(c, s) => InvDischarge(st, c, s, Closing(st.calls[c].todo - {s}));
    case CloseReturns(c) => InvRelabel(st, c, Returned);
  }

  lemma {:induction false} InvRun(guarded: bool, st: State, run: Run)
    requires Inv(st) && IsRun(guarded, st, run)
    ensures Inv(Exec(guarded, st, run))
    decreases |run|
  {
    if run != [] {
      InvStep(guarded, st, run[0]);
      InvRun(guarded, Apply(guarded, st, run[0]), run[1..]);
    }
  }

  // ------------------------------------------------------ the lock sections

  /** What the first lock section of openOrGet tells its caller to do. */
  datatype Entered = Refuse | Join(slot: nat) | Open(slot: nat)

  /**
   * The pool's own fields, updated in place by one method per lock section. Slots live in
   * `heap`, so that a slot the map no longer holds can still be reached by its owner.
   */
  class Pool {
    var slots: map<Identity, nat>
    var closed: bool
    var heap: seq<Slot>
    ghost var calls: seq<Call>
    ghost var opens: set<nat>
    ghost var closes: multiset<nat>
    ghost var dropped: set<nat>

    ghost function View(): State
      reads this
    {
      State(slots, closed, heap, calls, opens, closes, dropped)
    }

    constructor ()
      ensures View() == INIT && Inv(View())
    {
      slots, closed, heap := map[], false, [];
      calls, opens, closes, dropped := [], {}, multiset{}, {};
    }

    /** Lines 63-76: refuse after Close, join the slot already there, or insert a new one. */
    method Enter(id: Identity) returns (r: Entered)
      requires Inv(View())
      modifies this
      ensures View() == Apply(false, old(View()), OpenOrGet(id)) && Inv(View())
      ensures r == if old(closed) then Refuse else if id in old(slots) then Join(old(slots)[id]) else Open(|old(heap)|)
    {
      InvStep(false, View(), OpenOrGet(id));
      if closed {
        calls := calls + [Returned];
        return Refuse;
      }
      if id in slots {
        r := Join(slots[id]);
        calls := calls + [Waiting(slots[id])];
      } else {
        r := Open(|heap|);
        heap := heap + [Slot(id, Opening, None, None, false, 0)];
        slots := slots[id := |heap| - 1];
      }
    }

    /** delete(p.slots, id), under the lock held by the two methods below. */
    method Delete(s: nat)
      requires s < |heap|
      modifies this`slots, this`dropped
      ensures View() == Unlink(false, old(View()), s)
    {
      var id := heap[s].id;
      if id in slots {
        var t := slots[id];
        slots := slots - {id};
        if t != s && t < |heap| && Kept(heap[t].phase) {
          dropped := dropped + {t};
        }
      }
    }

    /** Lines 81-83: a failed open is not cached. */
    method Forget(s: nat)
      requires Inv(View()) && Enabled(View(), DropFailed(s))
      modifies this
      ensures View() == Apply(false, old(View()), DropFailed(s)) && Inv(View())
    {
      InvDropFailed(false, View(), s);
      Delete(s);
      heap := heap[s := heap[s].(phase := Failing)];
    }

    /** Lines 93-99: was the slot evicted, or the pool closed, while the open ran? */
    method RecheckSlot(s: nat) returns (evicted: bool)
      requires Inv(View()) && Enabled(View(), Recheck(s))
      modifies this
      ensures View() == Apply(false, old(View()), Recheck(s)) && Inv(View())
      ensures evicted <==> !Mapped(old(View()), s)
    {
      InvStep(false, View(), Recheck(s));
      var id := heap[s].id;
      evicted := closed || id !in slots || slots[id] != s;
      if evicted {
        Delete(s);
      }
      heap := heap[s := heap[s].(phase := if evicted then Rejected else Accepted)];
    }

    /** Lines 116-122: take the slot out of the map; the caller then waits for it. */
    method Take(id: Identity) returns (slot: Option<nat>)
      requires Inv(View())
      modifies this
      ensures View() == Apply(false, old(View()), Evict(id)) && Inv(View())
      ensures slot == if id in old(slots) then Some(old(slots)[id]) else None
    {
      InvStep(false, View(), Evict(id));
      if id in slots {
        slot := Some(slots[id]);
        calls := calls + [Evicting(slots[id])];
        slots := slots - {id};
      } else {
        slot := None;
        calls := calls + [Returned];
      }
    }

    /** Lines 141-149: refuse new opens and take every mapped slot. */
    method TakeAll() returns (taken: map<Identity, nat>)
      requires Inv(View())
      modifies this
      ensures View() == Apply(false, old(View()), Step.Close) && Inv(View())
      ensures taken == old(slots)
    {
      InvStep(false, View(), Step.Close);
      taken := map[];
      if closed {
        calls := calls + [Returned];
        return;
      }
      closed := true;
      taken := slots;
      calls := calls + [Closing(set id | id in taken :: taken[id])];
      slots := map[];
    }
  }
}
