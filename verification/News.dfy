/**
 * The stale-while-revalidate cache of pkg/news/news.go.
 *
 * Every lock section, the close of a fetch's channel, and a waiter's wake-up or
 * cancellation is one atomic step; the clock advances between steps, never back. A run is
 * any interleaving. Response number 0 is the zero Response, f + 1 the one derived from fetch f.
 */
module News {
  import opened Basics

  /** maxNegativeTTL, in nanoseconds. */
  const MAX_NEGATIVE_TTL: int := 30_000_000_000

  /** d / 2, which truncates toward zero. */
  function Half(d: int): int {
    if d >= 0 then d / 2 else -((-d) / 2)
  }

  function NegTTL(ttl: int): int {
    if Half(ttl) > MAX_NEGATIVE_TTL then MAX_NEGATIVE_TTL else Half(ttl)
  }

  datatype Phase =
    | Running
    | Recorded(ok: bool, at: int, r: nat)   // outcome stored, channel still open; refresh will return r
    | Closed(ok: bool, at: int, r: nat)

  datatype Fetch = Fetch(startedAt: int, background: bool, phase: Phase, closes: nat)

  datatype Call =
    | Waiting(fetch: nat)
    | Foreground(fetch: nat)   // returns the fetch's r
    | Served(version: nat)
    | Cancelled

  datatype State = State(
    now: int,
    cached: nat,
    fetchedAt: int,
    failedAt: Option<int>,
    hasGood: bool,
    inflight: Option<nat>,
    fetches: seq<Fetch>,
    calls: seq<Call>,
    served: seq<nat>   // what calls were given, in the order of the lock sections that read it
  )

  datatype Step =
    | Tick(d: nat)
    | Get
    | Record(f: nat, ok: bool)
    | CloseChannel(f: nat)
    | Wake(c: nat)
    | Cancel(c: nat)

  function Init(now: int): State {
    State(now, 0, 0, None, false, None, [], [], [])
  }

  datatype Decision = Serve | Wait(fetch: nat) | Refresh(background: bool)

  /** Get's first lock section, branch by branch. */
  function Decide(ttl: int, st: State): Decision {
    if st.hasGood && st.now - st.fetchedAt < ttl then Serve
    else if st.inflight.None? && st.failedAt.Some? && st.now - st.failedAt.value < NegTTL(ttl) then Serve
    else if st.inflight.Some? then (if st.hasGood then Serve else Wait(st.inflight.value))
    else Refresh(st.hasGood)
  }

  predicate IsClosed(st: State, f: nat) {
    f < |st.fetches| && st.fetches[f].closes > 0
  }

  predicate Enabled(st: State, step: Step) {
    match step
    case Tick(_) => true
    case Get => true
    case Record(f, _) => f < |st.fetches| && st.fetches[f].phase.Running?
    case CloseChannel(f) => f < |st.fetches| && st.fetches[f].phase.Recorded?
    case Wake(c) => c < |st.calls| && st.calls[c].Waiting? && IsClosed(st, st.calls[c].fetch)
    case Cancel(c) => c < |st.calls| && st.calls[c].Waiting?
  }

  function SetFetch(st: State, f: nat, fetch: Fetch): State
    requires f < |st.fetches|
  {
    st.(fetches := st.fetches[f := fetch])
  }

  function ServeNow(st: State): State {
    st.(calls := st.calls + [Served(st.cached)], served := st.served + [st.cached])
  }

  /** refresh's lock section. */
  function Store(st: State, f: nat, ok: bool): State
    requires f < |st.fetches|
  {
    var st1 :=
      if ok then st.(cached := f + 1, fetchedAt := st.now, failedAt := None, hasGood := true)
      else st.(failedAt := Some(st.now));
    var fetch := st.fetches[f];
    SetFetch(st1, f, fetch.(phase := Recorded(ok, st.now, st1.cached)))
      .(inflight := None, served := if fetch.background then st.served else st.served + [st1.cached])
  }

  function Apply(ttl: int, st: State, step: Step): State
    requires Enabled(st, step)
  {
    match step
    case Tick(d) => st.(now := st.now + d)
    case Get => (
      match Decide(ttl, st)
      case Serve => ServeNow(st)
      case Wait(f) => st.(calls := st.calls + [Waiting(f)])
      case Refresh(background) =>
        var st1 := if background then ServeNow(st) else st.(calls := st.calls + [Foreground(|st.fetches|)]);
        st1.(inflight := Some(|st.fetches|), fetches := st.fetches + [Fetch(st.now, background, Running, 0)]))
    case Record(f, ok) => Store(st, f, ok)
    case CloseChannel(f) =>
      var fetch := st.fetches[f];
      var closed := Closed(fetch.phase.ok, fetch.phase.at, fetch.phase.r);
      SetFetch(st, f, fetch.(phase := closed, closes := fetch.closes + 1))
    case Wake(c) => st.(calls := st.calls[c := Served(st.cached)], served := st.served + [st.cached])
    case Cancel(c) => st.(calls := st.calls[c := Cancelled])
  }

  type Run = seq<Step>

  predicate IsRun(ttl: int, st: State, run: Run)
    decreases |run|
  {
    run == [] || (Enabled(st, run[0]) && IsRun(ttl, Apply(ttl, st, run[0]), run[1..]))
  }

  function Exec(ttl: int, st: State, run: Run): State
    requires IsRun(ttl, st, run)
    decreases |run|
  {
    if run == [] then st else Exec(ttl, Apply(ttl, st, run[0]), run[1..])
  }

  // ------------------------------------------------------- what every step keeps

  predicate FetchShape(fetch: Fetch, now: int) {
    match fetch.phase
    case Running => fetch.closes == 0 && fetch.startedAt <= now
    case Recorded(_, at, _) => fetch.closes == 0 && fetch.startedAt <= at <= now
    case Closed(_, at, _) => fetch.closes == 1 && fetch.startedAt <= at <= now
  }

  /** At most one fetch runs, the last one, and inflight names it. */
  ghost predicate SingleFlight(st: State) {
    && (forall f: nat {:trigger st.fetches[f]} :: f < |st.fetches| ==>
         FetchShape(st.fetches[f], st.now) && (st.fetches[f].phase.Running? <==> st.inflight == Some(f)))
    && (st.inflight.Some? ==> st.inflight.value + 1 == |st.fetches|)
    && forall c: nat {:trigger st.calls[c]} :: c < |st.calls| && (st.calls[c].Waiting? || st.calls[c].Foreground?) ==>
         st.calls[c].fetch < |st.fetches|
  }

  /** next starts after prev ended, and no sooner than neg after. */
  predicate Spaced(neg: int, prev: Fetch, next: Fetch) {
    !prev.phase.Running? && next.startedAt >= prev.phase.at && next.startedAt >= prev.phase.at + neg
  }

  /** When no fetch runs, the cache fields hold the last fetch's end. */
  predicate RemembersEnd(st: State, last: Fetch) {
    match last.phase
    case Running => true
    case _ =>
      if last.phase.ok then st.hasGood && st.fetchedAt == last.phase.at
      else st.failedAt == Some(last.phase.at)
  }

  ghost predicate AllSpaced(neg: int, fetches: seq<Fetch>) {
    forall f: nat {:trigger fetches[f]} :: 0 < f < |fetches| ==> Spaced(neg, fetches[f - 1], fetches[f])
  }

  ghost predicate Spacing(ttl: int, st: State) {
    && AllSpaced(NegTTL(ttl), st.fetches)
    && (st.fetches != [] ==> RemembersEnd(st, st.fetches[|st.fetches| - 1]))
  }

  /** The response of the last successful fetch, 0 if there is none. */
  function LastSuccess(fetches: seq<Fetch>): (v: nat)
    ensures v <= |fetches|
  {
    if fetches == [] then 0
    else
      var n := |fetches| - 1;
      if !fetches[n].phase.Running? && fetches[n].phase.ok then n + 1 else LastSuccess(fetches[..n])
  }

  ghost predicate Cache(st: State) {
    && st.cached == LastSuccess(st.fetches)
    && (st.hasGood <==> st.cached > 0)
    && (forall i :: 0 <= i < |st.served| ==> st.served[i] <= st.cached)
    && (forall i, j :: 0 <= i <= j < |st.served| ==> st.served[i] <= st.served[j])
  }

  ghost predicate Inv(ttl: int, st: State) {
    SingleFlight(st) && Spacing(ttl, st) && Cache(st)
  }

  lemma SingleFlightStep(ttl: int, st: State, step: Step)
    requires SingleFlight(st) && Enabled(st, step)
    ensures SingleFlight(Apply(ttl, st, step))
  {
    var st' := Apply(ttl, st, step);
    forall f: nat {:trigger st'.fetches[f]} | f < |st'.fetches|
      ensures FetchShape(st'.fetches[f], st'.now) && (st'.fetches[f].phase.Running? <==> st'.inflight == Some(f))
    {
      if f < |st.fetches| {
        assert FetchShape(st.fetches[f], st.now);
      }
    }
  }

  lemma SpacedAppend(neg: int, fetches: seq<Fetch>, next: Fetch)
    requires AllSpaced(neg, fetches) && (fetches != [] ==> Spaced(neg, fetches[|fetches| - 1], next))
    ensures AllSpaced(neg, fetches + [next])
  {
  }

  lemma SpacingStart(ttl: int, st: State)
    requires SingleFlight(st) && Spacing(ttl, st) && Decide(ttl, st).Refresh?
    ensures Spacing(ttl, Apply(ttl, st, Get))
  {
    var next := Fetch(st.now, st.hasGood, Running, 0);
    if st.fetches != [] {
      var last := st.fetches[|st.fetches| - 1];
      assert FetchShape(last, st.now) && RemembersEnd(st, last);
    }
    SpacedAppend(NegTTL(ttl), st.fetches, next);
  }

  /** A fetch that keeps its start, and its end if it had one, keeps the spacing. */
  lemma SpacedUpdate(neg: int, fetches: seq<Fetch>, f: nat, fetch: Fetch)
    requires AllSpaced(neg, fetches) && f < |fetches|
    requires fetch.startedAt == fetches[f].startedAt && !fetch.phase.Running?
    requires fetches[f].phase.Running? || fetch.phase.at == fetches[f].phase.at
    ensures AllSpaced(neg, fetches[f := fetch])
  {
    var updated := fetches[f := fetch];
    forall g: nat {:trigger updated[g]} | 0 < g < |updated| ensures Spaced(neg, updated[g - 1], updated[g]) {
      assert Spaced(neg, fetches[g - 1], fetches[g]);
    }
  }

  lemma SpacingStep(ttl: int, st: State, step: Step)
    requires SingleFlight(st) && Spacing(ttl, st) && Enabled(st, step)
    ensures Spacing(ttl, Apply(ttl, st, step))
  {
    if step.Get? && Decide(ttl, st).Refresh? {
      SpacingStart(ttl, st);
    } else if step.Record? {
      SpacingRecord(ttl, st, step.f, step.ok);
    } else if step.CloseChannel? {
      SpacingClose(ttl, st, step.f);
    } else {
      SameFetches(ttl, st, step);
      SpacingOfSame(ttl, st, Apply(ttl, st, step));
    }
  }

  lemma SpacingRecord(ttl: int, st: State, f: nat, ok: bool)
    requires SingleFlight(st) && Spacing(ttl, st) && f < |st.fetches| && st.fetches[f].phase.Running?
    ensures Spacing(ttl, Store(st, f, ok))
  {
    assert st.inflight == Some(f);
    SpacedUpdate(NegTTL(ttl), st.fetches, f, Store(st, f, ok).fetches[f]);
  }

  lemma SpacingClose(ttl: int, st: State, f: nat)
    requires Spacing(ttl, st) && Enabled(st, CloseChannel(f))
    ensures Spacing(ttl, Apply(ttl, st, CloseChannel(f)))
  {
    SpacedUpdate(NegTTL(ttl), st.fetches, f, Apply(ttl, st, CloseChannel(f)).fetches[f]);
  }

  lemma SpacingOfSame(ttl: int, st: State, st': State)
    requires Spacing(ttl, st)
    requires st'.fetches == st.fetches && st'.failedAt == st.failedAt && st'.fetchedAt == st.fetchedAt
             && st'.hasGood == st.hasGood
    ensures Spacing(ttl, st')
  {
  }

  lemma SameFetches(ttl: int, st: State, step: Step)
    requires Enabled(st, step) && !step.Record? && !step.CloseChannel?
    requires !(step.Get? && Decide(ttl, st).Refresh?)
    ensures var st' := Apply(ttl, st, step);
            && st'.fetches == st.fetches && st'.failedAt == st.failedAt && st'.fetchedAt == st.fetchedAt
            && st'.hasGood == st.hasGood
  {
  }

  lemma {:induction false} LastSuccessAppend(fetches: seq<Fetch>, fetch: Fetch)
    ensures LastSuccess(fetches + [fetch])
            == if !fetch.phase.Running? && fetch.phase.ok then |fetches| + 1 else LastSuccess(fetches)
  {
    assert (fetches + [fetch])[..|fetches|] == fetches;
  }

  lemma {:induction false} LastSuccessUpdate(fetches: seq<Fetch>, f: nat, fetch: Fetch)
    requires f < |fetches|
    requires (!fetch.phase.Running? && fetch.phase.ok) == (!fetches[f].phase.Running? && fetches[f].phase.ok)
    ensures LastSuccess(fetches[f := fetch]) == LastSuccess(fetches)
  {
    var n := |fetches| - 1;
    if f < n {
      LastSuccessUpdate(fetches[..n], f, fetch);
      assert fetches[f := fetch][..n] == fetches[..n][f := fetch];
    } else {
      assert fetches[f := fetch][..n] == fetches[..n];
    }
  }

  /** An ended fetch's success is in the cache, or a later one is. */
  lemma {:induction false} LastSuccessIsLast(fetches: seq<Fetch>, f: nat)
    requires f < |fetches| && !fetches[f].phase.Running? && fetches[f].phase.ok
    ensures f + 1 <= LastSuccess(fetches)
  {
    var n := |fetches| - 1;
    if f < n {
      LastSuccessIsLast(fetches[..n], f);
    }
  }

  /** The cache grows or stays, and what is read off it is the newest yet. */
  lemma CacheGrows(st: State, st': State)
    requires Cache(st) && st'.cached == LastSuccess(st'.fetches) >= st.cached
    requires st'.hasGood <==> st'.cached > 0
    requires st'.served == st.served || st'.served == st.served + [st'.cached]
    ensures Cache(st')
  {
  }

  lemma RecordSuccess(st: State, f: nat, ok: bool)
    requires SingleFlight(st) && f < |st.fetches| && st.fetches[f].phase.Running?
    ensures LastSuccess(Store(st, f, ok).fetches) == if ok then f + 1 else LastSuccess(st.fetches)
  {
    var fetches := Store(st, f, ok).fetches;
    var n := |st.fetches| - 1;
    assert st.inflight == Some(f);
    assert fetches[..n] == st.fetches[..n] && fetches[n].phase.Recorded? && fetches[n].phase.ok == ok;
  }

  /** What each step does to the last success. */
  lemma SuccessStep(ttl: int, st: State, step: Step)
    requires SingleFlight(st) && Enabled(st, step)
    ensures LastSuccess(Apply(ttl, st, step).fetches)
            == if step.Record? && step.ok then step.f + 1 else LastSuccess(st.fetches)
  {
    match step
    case Record(f, ok) => RecordSuccess(st, f, ok);
    case Get => LastSuccessAppend(st.fetches, Fetch(st.now, st.hasGood, Running, 0));
    case CloseChannel(f) => LastSuccessUpdate(st.fetches, f, Apply(ttl, st, step).fetches[f]);
    case _ =>
  }

  /** What each step does to the cache's fields and to what is served. */
  lemma ServedStep(ttl: int, st: State, step: Step)
    requires Enabled(st, step)
    ensures var st' := Apply(ttl, st, step);
            && st'.cached == (if step.Record? && step.ok then step.f + 1 else st.cached)
            && st'.hasGood == (st.hasGood || (step.Record? && step.ok))
            && (st'.served == st.served || st'.served == st.served + [st'.cached])
  {
  }

  lemma CacheStep(ttl: int, st: State, step: Step)
    requires SingleFlight(st) && Cache(st) && Enabled(st, step)
    ensures Cache(Apply(ttl, st, step)) && st.cached <= Apply(ttl, st, step).cached
  {
    SuccessStep(ttl, st, step);
    ServedStep(ttl, st, step);
    if step.Record? {
      RunningIsLast(st, step.f);
    }
    CacheGrows(st, Apply(ttl, st, step));
  }

  lemma RunningIsLast(st: State, f: nat)
    requires SingleFlight(st) && f < |st.fetches| && st.fetches[f].phase.Running?
    ensures LastSuccess(st.fetches) <= f + 1
  {
    assert st.inflight == Some(f);
  }

  lemma InvStep(ttl: int, st: State, step: Step)
    requires Inv(ttl, st) && Enabled(st, step)
    ensures Inv(ttl, Apply(ttl, st, step))
  {
    SingleFlightStep(ttl, st, step);
    SpacingStep(ttl, st, step);
    CacheStep(ttl, st, step);
  }

  lemma {:induction false} InvRun(ttl: int, st: State, run: Run)
    requires Inv(ttl, st) && IsRun(ttl, st, run)
    ensures Inv(ttl, Exec(ttl, st, run))
    decreases |run|
  {
    if run != [] {
      InvStep(ttl, st, run[0]);
      InvRun(ttl, Apply(ttl, st, run[0]), run[1..]);
    }
  }

  // ------------------------------------------------------- the theorems

  /** Every fetch before another has ended, and ended long enough ago, whatever its outcome. */
  lemma {:induction false} FetchesAreSpaced(ttl: int, st: State, f: nat, g: nat)
    requires SingleFlight(st) && Spacing(ttl, st) && f < g < |st.fetches|
    ensures Spaced(NegTTL(ttl), st.fetches[f], st.fetches[g])
    decreases g
  {
    if f < g - 1 {
      FetchesAreSpaced(ttl, st, f, g - 1);
      var mid := st.fetches[g - 1];
      assert FetchShape(mid, st.now) && Spaced(NegTTL(ttl), mid, st.fetches[g]);
    }
  }

  /** Two fetches never run at once, the gap between them is kept, and no channel closes twice. */
  lemma OneFetchAtATime(ttl: int, now: int, run: Run, f: nat, g: nat)
    requires IsRun(ttl, Init(now), run) && f < g < |Exec(ttl, Init(now), run).fetches|
    ensures var st := Exec(ttl, Init(now), run);
            && Spaced(NegTTL(ttl), st.fetches[f], st.fetches[g])
            && st.fetches[f].closes == (if st.fetches[f].phase.Closed? then 1 else 0)
  {
    InvRun(ttl, Init(now), run);
    var st := Exec(ttl, Init(now), run);
    assert FetchShape(st.fetches[f], st.now);
    FetchesAreSpaced(ttl, st, f, g);
  }

  /** The channel of every fetch, the last one too, is closed once: when refresh is over, and not before. */
  lemma EachChannelClosesOnce(ttl: int, now: int, run: Run, f: nat)
    requires IsRun(ttl, Init(now), run) && f < |Exec(ttl, Init(now), run).fetches|
    ensures var fetch := Exec(ttl, Init(now), run).fetches[f];
            fetch.closes == (if fetch.phase.Closed? then 1 else 0)
  {
    InvRun(ttl, Init(now), run);
    var st := Exec(ttl, Init(now), run);
    assert FetchShape(st.fetches[f], st.now);
  }

  predicate InWindow(fetch: Fetch, lo: int, hi: int) {
    lo <= fetch.startedAt <= hi
  }

  function Starts(fetches: seq<Fetch>, lo: int, hi: int): nat {
    if fetches == [] then 0
    else Starts(fetches[..|fetches| - 1], lo, hi) + if InWindow(fetches[|fetches| - 1], lo, hi) then 1 else 0
  }

  ghost predicate StartsApart(fetches: seq<Fetch>, gap: nat) {
    forall f: nat {:trigger fetches[f]} :: 0 < f < |fetches| ==> fetches[f].startedAt >= fetches[f - 1].startedAt + gap
  }

  lemma {:induction false} NoneBefore(fetches: seq<Fetch>, gap: nat, lo: int, hi: int)
    requires StartsApart(fetches, gap) && (fetches != [] ==> fetches[|fetches| - 1].startedAt < lo)
    ensures Starts(fetches, lo, hi) == 0
  {
    if fetches != [] {
      NoneBefore(fetches[..|fetches| - 1], gap, lo, hi);
    }
  }

  lemma OneMoreGap(n: nat, gap: nat, was: int, last: int)
    requires (n - 1) * gap <= was && was + gap <= last
    ensures (n + 1 - 1) * gap <= last
  {
  }

  /** All starts in the window but one are followed by a whole gap inside it. */
  lemma {:induction false} StartsFillGaps(fetches: seq<Fetch>, gap: nat, lo: int, hi: int)
    requires StartsApart(fetches, gap) && fetches != [] && InWindow(fetches[|fetches| - 1], lo, hi)
    ensures Starts(fetches, lo, hi) >= 1
    ensures (Starts(fetches, lo, hi) - 1) * gap <= fetches[|fetches| - 1].startedAt - lo
  {
    var before := fetches[..|fetches| - 1];
    if before != [] && InWindow(before[|before| - 1], lo, hi) {
      StartsFillGaps(before, gap, lo, hi);
      OneMoreGap(Starts(before, lo, hi), gap, before[|before| - 1].startedAt - lo, fetches[|before|].startedAt - lo);
    } else {
      NoneBefore(before, gap, lo, hi);
    }
  }

  lemma {:induction false} StartsFitWindow(fetches: seq<Fetch>, gap: nat, lo: int, d: nat)
    requires StartsApart(fetches, gap)
    ensures (Starts(fetches, lo, lo + d) - 1) * gap <= d
  {
    if fetches != [] {
      var n := |fetches| - 1;
      if InWindow(fetches[n], lo, lo + d) {
        StartsFillGaps(fetches, gap, lo, lo + d);
      } else {
        StartsFitWindow(fetches[..n], gap, lo, d);
      }
    }
  }

  lemma QuotientBound(k: int, gap: nat, d: nat)
    requires gap > 0 && k * gap <= d
    ensures k <= d / gap
  {
    var q := d / gap;
    assert d < (q + 1) * gap;
    assert k >= q + 1 ==> k * gap >= (q + 1) * gap;
  }

  lemma StartsAreApart(gap: nat, st: State)
    requires SingleFlight(st) && AllSpaced(gap, st.fetches)
    ensures StartsApart(st.fetches, gap)
  {
    forall f: nat {:trigger st.fetches[f]} | 0 < f < |st.fetches|
      ensures st.fetches[f].startedAt >= st.fetches[f - 1].startedAt + gap
    {
      var prev := st.fetches[f - 1];
      assert FetchShape(prev, st.now) && Spaced(gap, prev, st.fetches[f]);
    }
  }

  lemma StartsInWindow(gap: nat, st: State, lo: int, d: nat)
    requires gap > 0 && SingleFlight(st) && AllSpaced(gap, st.fetches)
    ensures Starts(st.fetches, lo, lo + d) <= 1 + d / gap
  {
    StartsAreApart(gap, st);
    StartsFitWindow(st.fetches, gap, lo, d);
    QuotientBound(Starts(st.fetches, lo, lo + d) - 1, gap, d);
  }

  /** A window of length d holds at most 1 + d / negTTL starts. */
  lemma FetchRateIsBounded(ttl: int, now: int, run: Run, lo: int, d: nat)
    requires IsRun(ttl, Init(now), run) && NegTTL(ttl) > 0
    ensures Starts(Exec(ttl, Init(now), run).fetches, lo, lo + d) <= 1 + d / NegTTL(ttl)
  {
    InvRun(ttl, Init(now), run);
    StartsInWindow(NegTTL(ttl), Exec(ttl, Init(now), run), lo, d);
  }

  /** The cache always holds the last success: failures neither replace nor drop it. */
  lemma FailureKeepsLastGood(ttl: int, now: int, run: Run)
    requires IsRun(ttl, Init(now), run)
    ensures var st := Exec(ttl, Init(now), run);
            && st.cached == LastSuccess(st.fetches)
            && (st.hasGood <==> st.cached > 0)
            && forall i, j :: 0 <= i <= j < |st.served| ==> st.served[i] <= st.served[j] <= st.cached
  {
    InvRun(ttl, Init(now), run);
  }

  /** A released waiter gets the outcome it waited for, or a newer one. */
  lemma WaiterSharesOutcome(ttl: int, st: State, c: nat)
    requires Inv(ttl, st) && Enabled(st, Wake(c))
    ensures var f := st.calls[c].fetch;
            && Apply(ttl, st, Wake(c)).calls[c].Served?
            && (st.fetches[f].phase.ok ==> Apply(ttl, st, Wake(c)).calls[c].version >= f + 1)
  {
    var f := st.calls[c].fetch;
    assert FetchShape(st.fetches[f], st.now);
    if st.fetches[f].phase.ok {
      LastSuccessIsLast(st.fetches, f);
    }
  }

  /** The calls that block do so on a fetch before which none succeeded. */
  ghost predicate BlockedWhileCold(st: State) {
    forall c: nat {:trigger st.calls[c]} :: c < |st.calls| && (st.calls[c].Waiting? || st.calls[c].Foreground?) ==>
      Cold(st.fetches, st.calls[c].fetch)
  }

  /** No fetch before f succeeded. */
  predicate Cold(fetches: seq<Fetch>, f: nat) {
    f < |fetches| && LastSuccess(fetches[..f]) == 0
  }

  lemma ColdUpdate(fetches: seq<Fetch>, f: nat, fetch: Fetch, g: nat)
    requires Cold(fetches, g) && f < |fetches|
    requires f >= g || (!fetch.phase.Running? && !fetches[f].phase.Running? && fetch.phase.ok == fetches[f].phase.ok)
    ensures Cold(fetches[f := fetch], g)
  {
    if f < g {
      LastSuccessUpdate(fetches[..g], f, fetch);
      assert fetches[f := fetch][..g] == fetches[..g][f := fetch];
    } else {
      assert fetches[f := fetch][..g] == fetches[..g];
    }
  }

  lemma ColdAppend(fetches: seq<Fetch>, fetch: Fetch, g: nat)
    requires Cold(fetches, g) || (g == |fetches| && LastSuccess(fetches) == 0)
    ensures Cold(fetches + [fetch], g)
  {
    assert (fetches + [fetch])[..g] == fetches[..g];
  }

  /** A step that only changes fetch f, to an end like the one it had or the first one. */
  lemma ColdFetchStep(ttl: int, st: State, step: Step)
    requires SingleFlight(st) && BlockedWhileCold(st) && Enabled(st, step) && (step.Record? || step.CloseChannel?)
    ensures BlockedWhileCold(Apply(ttl, st, step))
  {
    var st' := Apply(ttl, st, step);
    assert step.Record? ==> st.inflight == Some(step.f) && step.f == |st.fetches| - 1;
    forall c: nat {:trigger st'.calls[c]} | c < |st'.calls| && (st'.calls[c].Waiting? || st'.calls[c].Foreground?)
      ensures Cold(st'.fetches, st'.calls[c].fetch)
    {
      assert Cold(st.fetches, st.calls[c].fetch);
      ColdUpdate(st.fetches, step.f, st'.fetches[step.f], st.calls[c].fetch);
    }
  }

  lemma ColdGet(ttl: int, st: State)
    requires SingleFlight(st) && Cache(st) && BlockedWhileCold(st)
    ensures BlockedWhileCold(Apply(ttl, st, Get))
  {
    var st' := Apply(ttl, st, Get);
    forall c: nat {:trigger st'.calls[c]} | c < |st'.calls| && (st'.calls[c].Waiting? || st'.calls[c].Foreground?)
      ensures Cold(st'.fetches, st'.calls[c].fetch)
    {
      if Decide(ttl, st).Refresh? {
        ColdAppend(st.fetches, Fetch(st.now, st.hasGood, Running, 0), st'.calls[c].fetch);
      } else if c == |st.calls| {
        assert st.fetches[|st.fetches| - 1].phase.Running?;
      }
    }
  }

  lemma ColdStep(ttl: int, st: State, step: Step)
    requires SingleFlight(st) && Cache(st) && BlockedWhileCold(st) && Enabled(st, step)
    ensures BlockedWhileCold(Apply(ttl, st, step))
  {
    match step
    case Get => ColdGet(ttl, st);
    case Record(_, _) => ColdFetchStep(ttl, st, step);
    case CloseChannel(_) => ColdFetchStep(ttl, st, step);
    case _ =>
  }

  lemma {:induction false} ColdRun(ttl: int, st: State, run: Run)
    requires Inv(ttl, st) && BlockedWhileCold(st) && IsRun(ttl, st, run)
    ensures BlockedWhileCold(Exec(ttl, st, run))
    decreases |run|
  {
    if run != [] {
      InvStep(ttl, st, run[0]);
      ColdStep(ttl, st, run[0]);
      ColdRun(ttl, Apply(ttl, st, run[0]), run[1..]);
    }
  }

  /** In every run a call only ever blocks before the first success. */
  lemma OnlyColdCallsBlock(ttl: int, now: int, run: Run, c: nat)
    requires IsRun(ttl, Init(now), run) && c < |Exec(ttl, Init(now), run).calls|
    ensures var st := Exec(ttl, Init(now), run);
            st.calls[c].Waiting? || st.calls[c].Foreground? ==> Cold(st.fetches, st.calls[c].fetch)
  {
    ColdRun(ttl, Init(now), run);
    assert BlockedWhileCold(Exec(ttl, Init(now), run));
  }

  // ------------------------------------------------------- no caller waits for ever

  /** The steps that start a call, and the clock's own; all others continue a fetch or a call. */
  predicate Continues(step: Step) {
    !step.Get? && !step.Tick?
  }

  function FetchWork(fetches: seq<Fetch>): nat {
    if fetches == [] then 0
    else FetchWork(fetches[..|fetches| - 1])
         + (match fetches[|fetches| - 1].phase case Running => 2 case Recorded(_, _, _) => 1 case Closed(_, _, _) => 0)
  }

  function CallWork(calls: seq<Call>): nat {
    if calls == [] then 0
    else CallWork(calls[..|calls| - 1]) + if calls[|calls| - 1].Waiting? then 1 else 0
  }

  function Work(st: State): nat {
    FetchWork(st.fetches) + CallWork(st.calls)
  }

  lemma {:induction false} FetchWorkUpdate(fetches: seq<Fetch>, f: nat, fetch: Fetch)
    requires f < |fetches|
    ensures FetchWork(fetches[f := fetch])
            == FetchWork(fetches) - FetchWork([fetches[f]]) + FetchWork([fetch])
  {
    var n := |fetches| - 1;
    assert [fetches[f]][..0] == [] && [fetch][..0] == [];
    if f < n {
      FetchWorkUpdate(fetches[..n], f, fetch);
      assert fetches[f := fetch][..n] == fetches[..n][f := fetch];
    } else {
      assert fetches[f := fetch][..n] == fetches[..n];
    }
  }

  lemma {:induction false} CallWorkUpdate(calls: seq<Call>, c: nat, call: Call)
    requires c < |calls| && calls[c].Waiting? && !call.Waiting?
    ensures CallWork(calls[c := call]) + 1 == CallWork(calls)
  {
    var n := |calls| - 1;
    if c < n {
      CallWorkUpdate(calls[..n], c, call);
      assert calls[c := call][..n] == calls[..n][c := call];
    } else {
      assert calls[c := call][..n] == calls[..n];
    }
  }

  lemma WorkDecreases(ttl: int, st: State, step: Step)
    requires Enabled(st, step) && Continues(step)
    ensures Work(Apply(ttl, st, step)) < Work(st)
  {
    var st' := Apply(ttl, st, step);
    match step
    case Record(f, _) => FetchWorkUpdate(st.fetches, f, st'.fetches[f]);
    case CloseChannel(f) => FetchWorkUpdate(st.fetches, f, st'.fetches[f]);
    case Wake(c) => CallWorkUpdate(st.calls, c, st'.calls[c]);
    case Cancel(c) => CallWorkUpdate(st.calls, c, Cancelled);
  }

  predicate Pending(st: State, c: nat) {
    && c < |st.calls|
    && (match st.calls[c]
        case Waiting(_) => true
        case Foreground(f) => !IsClosed(st, f)
        case _ => false)
  }

  /** While a call has no answer, some step other than a cancellation moves it along. */
  lemma SomeStepEnabled(ttl: int, st: State, c: nat) returns (step: Step)
    requires Inv(ttl, st) && Pending(st, c)
    ensures Continues(step) && !step.Cancel? && Enabled(st, step)
  {
    var f := st.calls[c].fetch;
    var fetch := st.fetches[f];
    assert FetchShape(fetch, st.now);
    match fetch.phase
    case Running => step := Record(f, false);
    case Recorded(_, _, _) => step := CloseChannel(f);
    case Closed(_, _, _) => step := Wake(c);
  }

  /** No fetch runs, every channel is closed, and every call has its answer. */
  ghost predicate Settled(st: State) {
    && (forall f: nat {:trigger st.fetches[f]} :: f < |st.fetches| ==> st.fetches[f].phase.Closed?)
    && (forall c: nat :: !Pending(st, c))
  }

  /** Nothing that is under way can move, other than by a cancellation. */
  ghost predicate Stuck(st: State) {
    forall step: Step :: Continues(step) && !step.Cancel? ==> !Enabled(st, step)
  }

  lemma StuckIsSettled(ttl: int, st: State)
    requires Inv(ttl, st) && Stuck(st)
    ensures Settled(st)
  {
    forall f: nat {:trigger st.fetches[f]} | f < |st.fetches| ensures st.fetches[f].phase.Closed? {
      var record, close := Record(f, false), CloseChannel(f);
      assert Continues(record) && Continues(close);
      assert Enabled(st, record) == st.fetches[f].phase.Running?;
      assert Enabled(st, close) == st.fetches[f].phase.Recorded?;
    }
    forall c: nat ensures !Pending(st, c) {
      if Pending(st, c) {
        var step := SomeStepEnabled(ttl, st, c);
      }
    }
  }

  /**
   * Without new calls a run makes at most Work(st) moves; and when it can go no further every
   * call is answered and every channel closed.
   */
  lemma {:induction false} NoCallerWaitsForever(ttl: int, st: State, run: Run)
    requires IsRun(ttl, st, run) && forall i :: 0 <= i < |run| ==> Continues(run[i])
    ensures |run| + Work(Exec(ttl, st, run)) <= Work(st)
    ensures Inv(ttl, st) && Stuck(Exec(ttl, st, run)) ==> Settled(Exec(ttl, st, run))
    decreases |run|
  {
    if run != [] {
      if Inv(ttl, st) {
        InvStep(ttl, st, run[0]);
      }
      WorkDecreases(ttl, st, run[0]);
      NoCallerWaitsForever(ttl, Apply(ttl, st, run[0]), run[1..]);
    } else if Inv(ttl, st) && Stuck(st) {
      StuckIsSettled(ttl, st);
    }
  }

  // ------------------------------------------------------- the object

  /** The service's fields; each method is one section run under the mutex. */
  class Service {
    const ttl: int
    const negTTL: int
    var cached: nat
    var fetchedAt: int
    var failedAt: Option<int>
    var hasGood: bool
    var inflight: Option<nat>
    var channels: nat            // channels made so far; the next one is numbered by it
    ghost var now: int
    ghost var fetches: seq<Fetch>
    ghost var calls: seq<Call>
    ghost var served: seq<nat>

    ghost function View(): State
      reads this
    {
      State(now, cached, fetchedAt, failedAt, hasGood, inflight, fetches, calls, served)
    }

    /** The settings are New's, and channels are numbered as fetches are. */
    ghost predicate Wired()
      reads this
    {
      negTTL == NegTTL(ttl) && channels == |fetches|
    }

    ghost predicate Valid()
      reads this
    {
      Wired() && Inv(ttl, View())
    }

    constructor (ttl: int, ghost start: int)
      ensures this.ttl == ttl && View() == Init(start) && Valid()
    {
      this.ttl := ttl;
      var half := Half(ttl);
      negTTL := if half > MAX_NEGATIVE_TTL then MAX_NEGATIVE_TTL else half;
      cached, fetchedAt, failedAt, hasGood, inflight, channels := 0, 0, None, false, None, 0;
      now, fetches, calls, served := start, [], [], [];
    }

    /** Get's lock section at time t: the answer, the channel to wait on, or the order to refresh. */
    method Lookup(t: int) returns (d: Decision, r: nat)
      requires Wired() && t == now
      modifies this
      ensures Wired() && View() == Apply(ttl, old(View()), Step.Get)
      ensures d == Decide(ttl, old(View())) && r == old(cached)
    {
      r := cached;
      if hasGood && t - fetchedAt < ttl {
        NoteServed(r);
        return Serve, r;
      }
      if inflight.None? && failedAt.Some? && t - failedAt.value < negTTL {
        NoteServed(r);
        return Serve, r;
      }
      if inflight.Some? {
        if hasGood {
          NoteServed(r);
          return Serve, r;
        }
        calls := calls + [Waiting(inflight.value)];
        return Wait(inflight.value), r;
      }
      d := Refresh(hasGood);
      if hasGood {
        NoteServed(r);
      } else {
        calls := calls + [Foreground(|fetches|)];
      }
      inflight := Some(channels);
      channels := channels + 1;
      fetches := fetches + [Fetch(t, hasGood, Running, 0)];
    }

    ghost method NoteServed(r: nat)
      modifies this`calls, this`served
      ensures calls == old(calls) + [Served(r)] && served == old(served) + [r]
    {
      calls, served := calls + [Served(r)], served + [r];
    }

    method Get(t: int) returns (d: Decision, r: nat)
      requires Valid() && t == now
      modifies this
      ensures Valid() && View() == Apply(ttl, old(View()), Step.Get)
      ensures d == Decide(ttl, old(View())) && r == old(cached)
      ensures d.Refresh? <==>
                && old(inflight).None? && !(old(hasGood) && t - old(fetchedAt) < ttl)
                && !(old(failedAt).Some? && t - old(failedAt).value < negTTL)
      ensures d.Wait? <==> old(inflight).Some? && !old(hasGood)
      ensures d.Refresh? ==> d.background == old(hasGood)
    {
      InvStep(ttl, View(), Step.Get);
      d, r := Lookup(t);
    }

    /** The body of refresh's lock section at time t, with the outcome of fetch f. */
    method Finish(t: int, f: nat, ok: bool) returns (r: nat)
      requires Wired() && t == now && Enabled(View(), Step.Record(f, ok))
      modifies this
      ensures Wired() && View() == Apply(ttl, old(View()), Step.Record(f, ok)) && r == cached
    {
      if !ok {
        failedAt := Some(t);
      } else {
        cached, fetchedAt, failedAt, hasGood := f + 1, t, None, true;
      }
      r := cached;
      inflight := None;
      served := if fetches[f].background then served else served + [r];
      fetches := fetches[f := fetches[f].(phase := Recorded(ok, t, r))];
    }

    method Record(t: int, f: nat, ok: bool) returns (r: nat)
      requires Valid() && t == now && Enabled(View(), Step.Record(f, ok))
      modifies this
      ensures Valid() && View() == Apply(ttl, old(View()), Step.Record(f, ok)) && r == cached
      ensures inflight.None? && hasGood == (ok || old(hasGood)) && cached == (if ok then f + 1 else old(cached))
      ensures f < |fetches| && fetches[f].phase == Recorded(ok, t, cached) && fetches[..f] == old(fetches)[..f]
    {
      InvStep(ttl, View(), Step.Record(f, ok));
      r := Finish(t, f, ok);
    }

    /** The lock section of a waiter whose channel was closed. */
    method Wake(c: nat) returns (r: nat)
      requires Valid() && Enabled(View(), Step.Wake(c))
      modifies this
      ensures Valid() && View() == Apply(ttl, old(View()), Step.Wake(c)) && r == old(cached)
    {
      InvStep(ttl, View(), Step.Wake(c));
      r := cached;
      calls, served := calls[c := Served(r)], served + [r];
    }
  }
}
