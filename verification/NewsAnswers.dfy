/** What the calls of the cache of News are given and when a fetch starts, in terms of the fetches so far. */
module NewsAnswers {
  import opened Basics
  import opened News

  // ------------------------------------------------------- the history

  predicate Succeeded(fetch: Fetch) {
    !fetch.phase.Running? && fetch.phase.ok
  }

  predicate AnyRunning(fetches: seq<Fetch>) {
    exists f :: 0 <= f < |fetches| && fetches[f].phase.Running?
  }

  predicate IsLastSuccess(fetches: seq<Fetch>, g: nat) {
    && g < |fetches| && Succeeded(fetches[g])
    && forall f :: g < f < |fetches| ==> !Succeeded(fetches[f])
  }

  predicate IsLastEnded(fetches: seq<Fetch>, n: nat) {
    && n < |fetches| && !fetches[n].phase.Running?
    && forall f :: n < f < |fetches| ==> fetches[f].phase.Running?
  }

  /** The version is the last success's response; the empty one if there is none. */
  ghost predicate GivesLast(fetches: seq<Fetch>, version: nat) {
    && (forall g: nat :: IsLastSuccess(fetches, g) ==> version == g + 1)
    && (NoSuccess(fetches) ==> version == 0)
  }

  predicate NoSuccess(fetches: seq<Fetch>) {
    forall f :: 0 <= f < |fetches| ==> !Succeeded(fetches[f])
  }

  lemma {:induction false} LastSuccessIs(fetches: seq<Fetch>)
    ensures LastSuccess(fetches) == 0 <==> NoSuccess(fetches)
    ensures LastSuccess(fetches) > 0 ==> IsLastSuccess(fetches, LastSuccess(fetches) - 1)
    ensures forall g: nat :: IsLastSuccess(fetches, g) ==> LastSuccess(fetches) == g + 1
  {
    if fetches != [] {
      var n := |fetches| - 1;
      LastSuccessIs(fetches[..n]);
      if !Succeeded(fetches[n]) {
        forall g: nat | IsLastSuccess(fetches, g) ensures LastSuccess(fetches) == g + 1 {
          assert IsLastSuccess(fetches[..n], g);
        }
      }
    }
  }

  /** The last ended fetch, if there is one. */
  function LastEnd(fetches: seq<Fetch>): Option<nat> {
    if fetches == [] then None
    else if !fetches[|fetches| - 1].phase.Running? then Some(|fetches| - 1)
    else LastEnd(fetches[..|fetches| - 1])
  }

  lemma {:induction false} LastEndIs(fetches: seq<Fetch>)
    ensures LastEnd(fetches).Some? ==> IsLastEnded(fetches, LastEnd(fetches).value)
    ensures LastEnd(fetches).None? ==> forall f :: 0 <= f < |fetches| ==> fetches[f].phase.Running?
    ensures forall n: nat :: IsLastEnded(fetches, n) ==> LastEnd(fetches) == Some(n)
  {
    if fetches != [] && fetches[|fetches| - 1].phase.Running? {
      LastEndIs(fetches[..|fetches| - 1]);
      forall n: nat | IsLastEnded(fetches, n) ensures LastEnd(fetches) == Some(n) {
        assert IsLastEnded(fetches[..|fetches| - 1], n);
      }
    }
  }

  // ------------------------------------------------------- what the fields remember of it

  /** fetchedAt is the end of the last success; failedAt that of the last fetch that ended, if it failed. */
  ghost predicate Remembers(st: State) {
    && (forall g: nat :: IsLastSuccess(st.fetches, g) ==> st.fetchedAt == st.fetches[g].phase.at)
    && st.failedAt == FailureOf(st.fetches)
  }

  function FailureOf(fetches: seq<Fetch>): Option<int> {
    match LastEnd(fetches)
    case None => None
    case Some(n) => Failure(fetches, n)
  }

  function Failure(fetches: seq<Fetch>, n: nat): Option<int> {
    if n < |fetches| && !fetches[n].phase.Running? && !fetches[n].phase.ok then Some(fetches[n].phase.at) else None
  }

  /** What refresh returns: the response of the last success up to its own fetch. */
  ghost predicate ReturnsLast(fetches: seq<Fetch>) {
    forall f: nat {:trigger fetches[f]} :: f < |fetches| && !fetches[f].phase.Running? ==>
      fetches[f].phase.r == LastSuccess(fetches[..f + 1])
  }

  lemma RemembersAppend(st: State, st': State, fetch: Fetch)
    requires Remembers(st) && fetch.phase.Running? && st'.fetches == st.fetches + [fetch]
    requires st'.fetchedAt == st.fetchedAt && st'.failedAt == st.failedAt
    ensures Remembers(st')
  {
    assert st'.fetches[..|st.fetches|] == st.fetches;
    LastEndIs(st.fetches);
    forall g: nat | IsLastSuccess(st'.fetches, g) ensures IsLastSuccess(st.fetches, g) {
      assert forall f :: g < f < |st.fetches| ==> st'.fetches[f] == st.fetches[f];
    }
  }

  lemma ReturnsAppend(fetches: seq<Fetch>, fetch: Fetch)
    requires ReturnsLast(fetches) && fetch.phase.Running?
    ensures ReturnsLast(fetches + [fetch])
  {
    forall f: nat {:trigger fetches[f]} | f < |fetches| ensures (fetches + [fetch])[..f + 1] == fetches[..f + 1] {
    }
  }

  /** The running fetch is the last; it is recorded. */
  lemma RemembersRecord(st: State, f: nat, ok: bool)
    requires Remembers(st) && SingleFlight(st) && f < |st.fetches| && st.fetches[f].phase.Running?
    ensures Remembers(Store(st, f, ok))
  {
    var st' := Store(st, f, ok);
    assert st.inflight == Some(f);
    assert f == |st.fetches| - 1;
    if !ok {
      forall g: nat | IsLastSuccess(st'.fetches, g) ensures IsLastSuccess(st.fetches, g) {
        assert g != f && forall k :: g < k < |st.fetches| && k != f ==> st'.fetches[k] == st.fetches[k];
      }
    } else {
      forall g: nat | IsLastSuccess(st'.fetches, g) ensures g == f {
        assert Succeeded(st'.fetches[f]);
      }
    }
  }

  lemma ReturnsRecord(st: State, f: nat, ok: bool)
    requires ReturnsLast(st.fetches) && SingleFlight(st) && Cache(st)
    requires f < |st.fetches| && st.fetches[f].phase.Running?
    ensures ReturnsLast(Store(st, f, ok).fetches)
  {
    var fetch := Store(st, f, ok).fetches[f];
    assert st.inflight == Some(f);
    RecordSuccess(st, f, ok);
    ReturnsUpdate(st.fetches, f, fetch);
  }

  lemma ReturnsUpdate(fetches: seq<Fetch>, f: nat, fetch: Fetch)
    requires ReturnsLast(fetches) && f == |fetches| - 1 && !fetch.phase.Running?
    requires fetch.phase.r == LastSuccess(fetches[f := fetch])
    ensures ReturnsLast(fetches[f := fetch])
  {
    var updated := fetches[f := fetch];
    assert updated[..f + 1] == updated;
    forall k: nat {:trigger updated[k]} | k < f
      ensures updated[..k + 1] == fetches[..k + 1] && updated[k] == fetches[k]
    {
    }
  }

  /** Same ends: only a channel was closed. */
  predicate SameEnd(a: Fetch, b: Fetch) {
    !a.phase.Running? && !b.phase.Running? && a.phase.ok == b.phase.ok && a.phase.at == b.phase.at
    && a.phase.r == b.phase.r
  }

  lemma RemembersClose(st: State, st': State, f: nat, fetch: Fetch)
    requires Remembers(st) && f < |st.fetches| && SameEnd(st.fetches[f], fetch)
    requires st'.fetches == st.fetches[f := fetch] && st'.fetchedAt == st.fetchedAt && st'.failedAt == st.failedAt
    ensures Remembers(st')
  {
    EndsAlike(st.fetches, f, fetch);
    forall g: nat | IsLastSuccess(st'.fetches, g) ensures IsLastSuccess(st.fetches, g) {
      assert forall k :: 0 <= k < |st.fetches| ==> Succeeded(st.fetches[k]) == Succeeded(st'.fetches[k]);
    }
  }

  lemma EndsAlike(fetches: seq<Fetch>, f: nat, fetch: Fetch)
    requires f < |fetches| && SameEnd(fetches[f], fetch)
    ensures LastEnd(fetches[f := fetch]) == LastEnd(fetches) && FailureOf(fetches[f := fetch]) == FailureOf(fetches)
  {
    var others := fetches[f := fetch];
    LastEndIs(fetches);
    LastEndIs(others);
    assert forall k :: 0 <= k < |fetches| ==> fetches[k].phase.Running? == others[k].phase.Running?;
    assert LastEnd(fetches).Some?;
    assert IsLastEnded(others, LastEnd(fetches).value);
  }

  lemma ReturnsClose(fetches: seq<Fetch>, f: nat, fetch: Fetch)
    requires ReturnsLast(fetches) && f < |fetches| && SameEnd(fetches[f], fetch)
    ensures ReturnsLast(fetches[f := fetch])
  {
    var others := fetches[f := fetch];
    forall k: nat {:trigger others[k]} | k < |others| && !others[k].phase.Running?
      ensures others[k].phase.r == LastSuccess(others[..k + 1])
    {
      if f <= k {
        LastSuccessUpdate(fetches[..k + 1], f, fetch);
        assert others[..k + 1] == fetches[..k + 1][f := fetch];
      } else {
        assert others[..k + 1] == fetches[..k + 1];
      }
      assert fetches[k].phase.r == LastSuccess(fetches[..k + 1]);
    }
  }

  lemma RemembersStep(ttl: int, st: State, step: Step)
    requires SingleFlight(st) && Cache(st) && Remembers(st) && ReturnsLast(st.fetches) && Enabled(st, step)
    ensures Remembers(Apply(ttl, st, step)) && ReturnsLast(Apply(ttl, st, step).fetches)
  {
    match step
    case Record(f, ok) =>
      RemembersRecord(st, f, ok);
      ReturnsRecord(st, f, ok);
    case CloseChannel(f) =>
      var fetch := Apply(ttl, st, step).fetches[f];
      RemembersClose(st, Apply(ttl, st, step), f, fetch);
      ReturnsClose(st.fetches, f, fetch);
    case Get =>
      if Decide(ttl, st).Refresh? {
        RemembersAppend(st, Apply(ttl, st, step), Fetch(st.now, st.hasGood, Running, 0));
        ReturnsAppend(st.fetches, Fetch(st.now, st.hasGood, Running, 0));
      }
    case _ =>
  }

  lemma {:induction false} RemembersRun(ttl: int, st: State, run: Run)
    requires IsRun(ttl, st, run) && Inv(ttl, st) && Remembers(st) && ReturnsLast(st.fetches)
    ensures Remembers(Exec(ttl, st, run)) && ReturnsLast(Exec(ttl, st, run).fetches)
    decreases |run|
  {
    if run != [] {
      InvStep(ttl, st, run[0]);
      RemembersStep(ttl, st, run[0]);
      RemembersRun(ttl, Apply(ttl, st, run[0]), run[1..]);
    }
  }

  // ------------------------------------------------------- what a Get does

  /** Half the ttl, toward zero, and at most 30 seconds. */
  function RetryGap(ttl: int): int {
    var half := if ttl < 0 then -(-ttl / 2) else ttl / 2;
    if half < 30_000_000_000 then half else 30_000_000_000
  }

  /** The last success is younger than ttl. */
  ghost predicate Fresh(ttl: int, st: State) {
    exists g: nat :: IsLastSuccess(st.fetches, g) && st.now - st.fetches[g].phase.at < ttl
  }

  /** No fetch has ended since one failed, less than the retry gap ago. */
  ghost predicate JustFailed(ttl: int, st: State) {
    exists n: nat ::
      IsLastEnded(st.fetches, n) && !st.fetches[n].phase.ok && st.now - st.fetches[n].phase.at < RetryGap(ttl)
  }

  lemma JustFailedIff(ttl: int, st: State)
    requires Remembers(st)
    ensures JustFailed(ttl, st) <==> st.failedAt.Some? && st.now - st.failedAt.value < NegTTL(ttl)
  {
    LastEndIs(st.fetches);
  }

  lemma FreshIff(ttl: int, st: State)
    requires Remembers(st) && Cache(st)
    ensures Fresh(ttl, st) <==> st.hasGood && st.now - st.fetchedAt < ttl
    ensures st.hasGood <==> !NoSuccess(st.fetches)
    ensures GivesLast(st.fetches, st.cached)
  {
    LastSuccessIs(st.fetches);
  }

  lemma RunningIff(st: State)
    requires SingleFlight(st)
    ensures AnyRunning(st.fetches) <==> st.inflight.Some?
    ensures st.inflight.Some? ==>
              |st.fetches| > 0 && st.inflight == Some(|st.fetches| - 1) && st.fetches[|st.fetches| - 1].phase.Running?
  {
    if st.inflight.Some? {
      var f := st.inflight.value;
      assert st.fetches[f].phase.Running?;
    }
  }

  /**
   * After any run a Get starts a fetch if and only if none is running, the last success is not
   * fresh and none has just failed; in the background if and only if some fetch has succeeded.
   */
  lemma GetFetchesIff(ttl: int, now: int, run: Run)
    requires IsRun(ttl, Init(now), run)
    ensures var st := Exec(ttl, Init(now), run);
            Apply(ttl, st, Get).fetches
            == if AnyRunning(st.fetches) || Fresh(ttl, st) || JustFailed(ttl, st) then st.fetches
               else st.fetches + [Fetch(st.now, !NoSuccess(st.fetches), Running, 0)]
  {
    var st := Exec(ttl, Init(now), run);
    Holds(ttl, now, run);
    JustFailedIff(ttl, st);
    FreshIff(ttl, st);
    RunningIff(st);
    GetByFields(ttl, st);
  }

  lemma Holds(ttl: int, now: int, run: Run)
    requires IsRun(ttl, Init(now), run)
    ensures var st := Exec(ttl, Init(now), run); Inv(ttl, st) && Remembers(st) && ReturnsLast(st.fetches)
  {
    InvRun(ttl, Init(now), run);
    RemembersRun(ttl, Init(now), run);
  }

  /**
   * What the call is given: the last success's response as soon as there is one; before that it
   * waits for the fetch that runs, is given the empty response if one has just failed, or else
   * fetches itself.
   */
  lemma GetAnswers(ttl: int, now: int, run: Run)
    requires IsRun(ttl, Init(now), run)
    ensures var st := Exec(ttl, Init(now), run);
            var st' := Apply(ttl, st, Get);
            && |st'.calls| == |st.calls| + 1 && st'.calls[..|st.calls|] == st.calls
            && (forall g: nat :: IsLastSuccess(st.fetches, g) ==> st'.calls[|st.calls|] == Served(g + 1))
            && (NoSuccess(st.fetches) ==> st'.calls[|st.calls|] == ColdAnswer(ttl, st))
  {
    var st := Exec(ttl, Init(now), run);
    Holds(ttl, now, run);
    GetByFields(ttl, st);
    if NoSuccess(st.fetches) {
      ColdByFields(ttl, st);
    }
    forall g: nat | IsLastSuccess(st.fetches, g) ensures FieldAnswer(ttl, st) == Served(g + 1) {
      WarmByFields(ttl, st, g);
    }
    LastOfAppend(st.calls, FieldAnswer(ttl, st));
  }

  lemma LastOfAppend(calls: seq<Call>, call: Call)
    ensures |calls + [call]| == |calls| + 1 && (calls + [call])[..|calls|] == calls && (calls + [call])[|calls|] == call
  {
  }

  /** The answer while no fetch has succeeded. */
  ghost function ColdAnswer(ttl: int, st: State): Call {
    if AnyRunning(st.fetches) then Waiting(if st.fetches == [] then 0 else |st.fetches| - 1)
    else if JustFailed(ttl, st) then Served(0)
    else Foreground(|st.fetches|)
  }

  /** The answer by the fields that Get looks at. */
  function FieldAnswer(ttl: int, st: State): Call {
    if st.hasGood then Served(st.cached)
    else if st.inflight.Some? then Waiting(st.inflight.value)
    else if st.failedAt.Some? && st.now - st.failedAt.value < NegTTL(ttl) then Served(st.cached)
    else Foreground(|st.fetches|)
  }

  lemma WarmByFields(ttl: int, st: State, g: nat)
    requires Remembers(st) && Cache(st) && IsLastSuccess(st.fetches, g)
    ensures FieldAnswer(ttl, st) == Served(g + 1)
  {
    LastSuccessIs(st.fetches);
  }

  lemma ColdByFields(ttl: int, st: State)
    requires Remembers(st) && Cache(st) && SingleFlight(st) && NoSuccess(st.fetches)
    ensures FieldAnswer(ttl, st) == ColdAnswer(ttl, st)
  {
    LastSuccessIs(st.fetches);
    JustFailedIff(ttl, st);
    RunningIff(st);
  }

  lemma GetByFields(ttl: int, st: State)
    ensures Apply(ttl, st, Get).calls
            == st.calls + [FieldAnswer(ttl, st)]
    ensures Apply(ttl, st, Get).fetches
            == if || st.inflight.Some? || (st.hasGood && st.now - st.fetchedAt < ttl)
                  || (st.failedAt.Some? && st.now - st.failedAt.value < NegTTL(ttl)) then st.fetches
               else st.fetches + [Fetch(st.now, st.hasGood, Running, 0)]
  {
  }


  /** With nothing running and no failure since the last success, a stale response starts a fetch. */
  lemma StaleIsRefreshed(ttl: int, now: int, run: Run, g: nat)
    requires IsRun(ttl, Init(now), run)
    requires var st := Exec(ttl, Init(now), run);
             IsLastSuccess(st.fetches, g) && IsLastEnded(st.fetches, g) && !AnyRunning(st.fetches)
    ensures var st := Exec(ttl, Init(now), run);
            |Apply(ttl, st, Get).fetches| == |st.fetches| <==> st.now - st.fetches[g].phase.at < ttl
  {
    var st := Exec(ttl, Init(now), run);
    GetFetchesIff(ttl, now, run);
    LastSuccessIs(st.fetches);
    LastEndIs(st.fetches);
  }

  /** What refresh returns to its caller: its own response if it succeeded, the last success's otherwise. */
  lemma RefreshReturnsLast(ttl: int, now: int, run: Run, f: nat)
    requires IsRun(ttl, Init(now), run)
    requires var st := Exec(ttl, Init(now), run); f < |st.fetches| && !st.fetches[f].phase.Running?
    ensures var st := Exec(ttl, Init(now), run);
            && (Succeeded(st.fetches[f]) ==> st.fetches[f].phase.r == f + 1)
            && GivesLast(st.fetches[..f + 1], st.fetches[f].phase.r)
  {
    var st := Exec(ttl, Init(now), run);
    Holds(ttl, now, run);
    LastSuccessIs(st.fetches[..f + 1]);
    assert st.fetches[..f + 1][f] == st.fetches[f];
  }

  /** What a released waiter is given: the last success's response. */
  lemma WokenGetsLast(ttl: int, now: int, run: Run, c: nat)
    requires IsRun(ttl, Init(now), run) && Enabled(Exec(ttl, Init(now), run), Wake(c))
    ensures var st := Exec(ttl, Init(now), run);
            var call := Apply(ttl, st, Wake(c)).calls[c];
            call.Served? && GivesLast(st.fetches, call.version)
  {
    Holds(ttl, now, run);
    FreshIff(ttl, Exec(ttl, Init(now), run));
  }
}
