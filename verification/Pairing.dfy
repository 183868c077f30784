/** Pairing a workflow's start events with their completions: web/src/lib/pairing.ts. */
module Pairing {
  import opened Basics

  /** A history event; `time` is its parsed timestamp in ms, None when it does not parse. */
  datatype Event = Event(sequenceId: int, kind: string, scheduledId: Option<int>, time: Option<int>)

  datatype Role = StartRole | EndRole

  datatype PairInfo = PairInfo(pairId: int, role: Role, partner: Option<nat>, durationMs: Option<int>)

  const START_TYPES := {"TaskScheduled", "TimerCreated", "SubOrchestrationCreated"}
  const END_TYPES := {"TaskCompleted", "TaskFailed", "TimerFired", "SubOrchestrationCompleted",
    "SubOrchestrationFailed"}

  predicate Opens(e: Event, id: int) {
    e.kind in START_TYPES && e.sequenceId == id >= 0
  }

  predicate Closes(e: Event, id: int) {
    e.kind in END_TYPES && e.scheduledId == Some(id)
  }

  // ------------------------------------------------------- declarative matching

  /** Starts of the id minus ends of the id in events[i..j]. */
  function Net(events: seq<Event>, id: int, i: nat, j: nat): int
    requires i <= j <= |events|
    decreases j
  {
    if i == j then 0
    else
      var e := events[j - 1];
      Net(events, id, i, j - 1) + (if Opens(e, id) then 1 else if Closes(e, id) then -1 else 0)
  }

  /** The balance of the id's events strictly between s and m. */
  function NetAfter(events: seq<Event>, id: int, s: nat, m: nat): int
    requires s < m <= |events|
  {
    Net(events, id, s + 1, m)
  }

  /** Nothing between s and j closes the bracket opened at s. */
  ghost predicate OpenUntil(events: seq<Event>, id: int, s: nat, j: nat)
    requires s < j <= |events|
  {
    Opens(events[s], id) && forall m :: s < m <= j ==> NetAfter(events, id, s, m) >= 0
  }

  /** s and e are the two ends of a balanced bracket of the id. */
  ghost predicate Matched(events: seq<Event>, id: int, s: nat, e: nat) {
    && s < e < |events| && Closes(events[e], id)
    && OpenUntil(events, id, s, e) && NetAfter(events, id, s, e) == 0
  }

  lemma {:induction false} NetSplits(events: seq<Event>, id: int, i: nat, m: nat, j: nat)
    requires i <= m <= j <= |events|
    ensures Net(events, id, i, j) == Net(events, id, i, m) + Net(events, id, m, j)
    decreases j
  {
    if m < j {
      NetSplits(events, id, i, m, j - 1);
    }
  }

  /** A start has at most one end. */
  lemma EndIsUnique(events: seq<Event>, id: int, s: nat, e: nat, e': nat)
    requires Matched(events, id, s, e) && Matched(events, id, s, e')
    ensures e == e'
  {
    assert NetAfter(events, id, s, e + 1) == -1;
    assert NetAfter(events, id, s, e' + 1) == -1;
  }

  /** An end has at most one start. */
  lemma StartIsUnique(events: seq<Event>, id: int, s: nat, s': nat, e: nat)
    requires Matched(events, id, s, e) && Matched(events, id, s', e)
    ensures s == s'
  {
    if s < s' {
      StartsNest(events, id, s, s', e);
    } else if s' < s {
      StartsNest(events, id, s', s, e);
    }
  }

  lemma StartsNest(events: seq<Event>, id: int, s: nat, s': nat, e: nat)
    requires s < s' < e < |events| && OpenUntil(events, id, s, e) && OpenUntil(events, id, s', e)
    requires NetAfter(events, id, s', e) == 0
    ensures NetAfter(events, id, s, e) >= 1
  {
    assert NetAfter(events, id, s, s') >= 0;
    NetSplits(events, id, s + 1, s', e);
    NetSplits(events, id, s', s' + 1, e);
    assert Net(events, id, s', s' + 1) == Net(events, id, s', s') + 1;
  }

  /** An end after an open start has a match: the innermost start still open. */
  lemma OpenStartGivesMatch(events: seq<Event>, id: int, s: nat, x: nat) returns (s': nat)
    requires s < x < |events| && OpenUntil(events, id, s, x) && Closes(events[x], id)
    ensures s <= s' < x && Matched(events, id, s', x)
    ensures NetAfter(events, id, s, x) >= 1 ==> s < s'
  {
    if NetAfter(events, id, s, x) == 0 {
      return s;
    }
    s' := x;
    while Net(events, id, s', x) <= 0
      invariant s < s' <= x
      invariant forall k :: s' < k <= x ==> Net(events, id, k, x) <= 0
      decreases s'
    {
      s' := s' - 1;
    }
    NetSplits(events, id, s', s' + 1, x);
    assert Net(events, id, s', s') == 0;
    forall m | s' < m <= x ensures NetAfter(events, id, s', m) >= 0 {
      NetSplits(events, id, s' + 1, m, x);
    }
  }

  /** Inside a pair every end of the id closes a start that is inside too. */
  lemma EndsInsideMatchInside(events: seq<Event>, id: int, s: nat, e: nat, x: nat) returns (s': nat)
    requires Matched(events, id, s, e) && s < x < e && Closes(events[x], id) && !Opens(events[x], id)
    ensures s < s' < x && Matched(events, id, s', x)
  {
    assert NetAfter(events, id, s, x + 1) >= 0;
    s' := OpenStartGivesMatch(events, id, s, x);
  }

  /** Inside a pair every start of the id is closed inside too. */
  lemma StartsInsideMatchInside(events: seq<Event>, id: int, s: nat, e: nat, x: nat) returns (e': nat)
    requires Matched(events, id, s, e) && s < x < e && Opens(events[x], id)
    ensures x < e' < e && Matched(events, id, x, e')
  {
    assert NetAfter(events, id, s, x) >= 0;
    NetSplits(events, id, s + 1, x, e);
    NetSplits(events, id, x, x + 1, e);
    assert Net(events, id, x, x + 1) == Net(events, id, x, x) + 1;
    var k := x + 1;
    while NetAfter(events, id, x, k) >= 0
      invariant x < k <= e
      invariant forall m :: x < m < k ==> NetAfter(events, id, x, m) >= 0
      decreases e - k
    {
      k := k + 1;
    }
    e' := k - 1;
    assert NetAfter(events, id, x, e') >= 0 > NetAfter(events, id, x, e' + 1);
  }

  // ------------------------------------------------------- the one-pass algorithm

  predicate IsStart(e: Event) {
    e.kind in START_TYPES && e.sequenceId >= 0
  }

  predicate IsEnd(e: Event) {
    e.kind in END_TYPES && e.scheduledId.Some?
  }

  function Duration(start: Event, end: Event): Option<int> {
    if start.time.None? || end.time.None? || end.time.value < start.time.value then None
    else Some(end.time.value - start.time.value)
  }

  /** The entry of a start: its end, or none if nothing in events[..n] closes it. */
  ghost predicate StartEntry(events: seq<Event>, n: nat, i: nat, info: PairInfo)
    requires i < n <= |events|
  {
    && info.pairId == events[i].sequenceId && info.role == StartRole && info.durationMs == None
    && match info.partner
       case Some(e) => e < n && Matched(events, info.pairId, i, e)
       case None => forall e :: 0 <= e < n ==> !Matched(events, info.pairId, i, e)
  }

  /** The entry of an end: its start and the time since, or none if no open start precedes it. */
  ghost predicate EndEntry(events: seq<Event>, i: nat, info: PairInfo)
    requires i < |events|
  {
    && events[i].scheduledId == Some(info.pairId) && info.role == EndRole
    && match info.partner
       case Some(s) => Matched(events, info.pairId, s, i) && info.durationMs == Duration(events[s], events[i])
       case None => info.durationMs == None && forall s :: 0 <= s < i ==> !Matched(events, info.pairId, s, i)
  }

  ghost predicate Entry(events: seq<Event>, n: nat, i: nat, info: PairInfo)
    requires i < n <= |events|
  {
    if IsStart(events[i]) then StartEntry(events, n, i, info) else EndEntry(events, i, info)
  }

  /** The index pairs exactly the starts and ends of the history, each as bracket matching says. */
  ghost predicate PairsBrackets(events: seq<Event>, index: map<nat, PairInfo>) {
    && (forall i: nat :: i in index <==> i < |events| && (IsStart(events[i]) || IsEnd(events[i])))
    && (forall i :: i in index ==> Entry(events, |events|, i, index[i]))
  }

  /** The stack of an id after n events: its starts still open, outermost first. */
  ghost predicate StackOk(events: seq<Event>, n: nat, id: int, st: seq<nat>)
    requires n <= |events|
  {
    && (forall k :: 0 <= k < |st| ==>
         st[k] < n && OpenUntil(events, id, st[k], n) && NetAfter(events, id, st[k], n) == |st| - 1 - k)
    && (forall s :: 0 <= s < n && Opens(events[s], id) && s !in st ==>
         exists e :: 0 <= e < n && Matched(events, id, s, e))
  }

  lemma MatchedIsClosed(events: seq<Event>, id: int, s: nat, e: nat, n: nat)
    requires Matched(events, id, s, e) && e < n <= |events|
    ensures !OpenUntil(events, id, s, n)
  {
    assert NetAfter(events, id, s, e + 1) == -1;
  }

  lemma StackPush(events: seq<Event>, n: nat, id: int, st: seq<nat>)
    requires n < |events| && StackOk(events, n, id, st) && Opens(events[n], id)
    ensures StackOk(events, n + 1, id, st + [n])
  {
    var st' := st + [n];
    forall k | 0 <= k < |st'|
      ensures st'[k] < n + 1 && OpenUntil(events, id, st'[k], n + 1)
              && NetAfter(events, id, st'[k], n + 1) == |st'| - 1 - k
    {
      assert k < |st| ==> st'[k] == st[k];
    }
    forall s | 0 <= s < n + 1 && Opens(events[s], id) && s !in st'
      ensures exists e :: 0 <= e < n + 1 && Matched(events, id, s, e)
    {
      assert st'[|st|] == n;
      assert s !in st;
      var e :| 0 <= e < n && Matched(events, id, s, e);
    }
  }

  lemma StackSkip(events: seq<Event>, n: nat, id: int, st: seq<nat>)
    requires n < |events| && StackOk(events, n, id, st) && !Opens(events[n], id) && !Closes(events[n], id)
    ensures StackOk(events, n + 1, id, st)
  {
  }

  lemma StackTopMatches(events: seq<Event>, n: nat, id: int, st: seq<nat>)
    requires n < |events| && StackOk(events, n, id, st) && st != [] && Closes(events[n], id)
    ensures Matched(events, id, st[|st| - 1], n)
  {
  }

  lemma StackPop(events: seq<Event>, n: nat, id: int, st: seq<nat>)
    requires n < |events| && StackOk(events, n, id, st) && st != [] && Closes(events[n], id) && !Opens(events[n], id)
    ensures StackOk(events, n + 1, id, st[..|st| - 1])
  {
    var st' := st[..|st| - 1];
    StackTopMatches(events, n, id, st);
    forall k | 0 <= k < |st'|
      ensures st'[k] < n + 1 && OpenUntil(events, id, st'[k], n + 1)
              && NetAfter(events, id, st'[k], n + 1) == |st'| - 1 - k
    {
      assert st'[k] == st[k];
    }
    forall s | 0 <= s < n + 1 && Opens(events[s], id) && s !in st'
      ensures exists e :: 0 <= e < n + 1 && Matched(events, id, s, e)
    {
      if s in st {
        assert s == st[|st| - 1];
      }
    }
  }

  lemma StackEmpty(events: seq<Event>, n: nat, id: int)
    requires n < |events| && StackOk(events, n, id, []) && Closes(events[n], id) && !Opens(events[n], id)
    ensures StackOk(events, n + 1, id, [])
    ensures forall s :: 0 <= s < n ==> !Matched(events, id, s, n)
  {
    forall s | 0 <= s < n ensures !Matched(events, id, s, n) {
      if Matched(events, id, s, n) {
        assert s !in [];
        var e :| 0 <= e < n && Matched(events, id, s, e);
        MatchedIsClosed(events, id, s, e, n);
      }
    }
  }

  function StackOf(open: map<int, seq<nat>>, id: int): seq<nat> {
    if id in open then open[id] else []
  }

  ghost predicate StacksOk(events: seq<Event>, n: nat, open: map<int, seq<nat>>)
    requires n <= |events|
  {
    forall id :: StackOk(events, n, id, StackOf(open, id))
  }

  /** After n events the result holds what is decided: all ends, and the starts no longer open. */
  ghost predicate Decided(events: seq<Event>, n: nat, open: map<int, seq<nat>>, result: map<nat, PairInfo>)
    requires n <= |events|
  {
    && (forall i: nat :: i in result <==>
         i < n && (IsEnd(events[i]) || (IsStart(events[i]) && i !in StackOf(open, events[i].sequenceId))))
    && (forall i: nat :: i in result ==>
         Entry(events, n, i, result[i]) && (IsStart(events[i]) ==> result[i].partner.Some?))
  }

  lemma KindsDisjoint(kind: string)
    ensures kind in START_TYPES ==> kind !in END_TYPES
  {
    if kind in START_TYPES {
      assert kind[0] == 'T' || kind[0] == 'S';
      assert "TaskScheduled"[4] == 'S' && "TimerCreated"[5] == 'C' && "SubOrchestrationCreated"[17] == 'r';
      assert "TaskCompleted"[4] == 'C' && "TaskFailed"[4] == 'F' && "TimerFired"[5] == 'F';
      assert "SubOrchestrationCompleted"[17] == 'o' && "SubOrchestrationFailed"[16] == 'F';
    }
  }

  /** A start joins its id's stack. */
  lemma KeptByStart(events: seq<Event>, n: nat, open: map<int, seq<nat>>, result: map<nat, PairInfo>)
    requires n < |events| && StacksOk(events, n, open) && Decided(events, n, open, result) && IsStart(events[n])
    ensures var id := events[n].sequenceId;
            var open' := open[id := StackOf(open, id) + [n]];
            StacksOk(events, n + 1, open') && Decided(events, n + 1, open', result)
  {
    var id := events[n].sequenceId;
    var open' := open[id := StackOf(open, id) + [n]];
    KindsDisjoint(events[n].kind);
    forall x ensures StackOk(events, n + 1, x, StackOf(open', x)) {
      if x == id {
        StackPush(events, n, id, StackOf(open, id));
      } else {
        StackSkip(events, n, x, StackOf(open, x));
      }
    }
    forall i: nat ensures i in result <==>
      i < n + 1 && (IsEnd(events[i]) || (IsStart(events[i]) && i !in StackOf(open', events[i].sequenceId)))
    {
      assert StackOk(events, n, id, StackOf(open, id));
    }
  }

  /** A decided entry stays right as the history grows. */
  lemma EntryExtends(events: seq<Event>, n: nat, i: nat, info: PairInfo)
    requires i < n < |events| && Entry(events, n, i, info) && (IsStart(events[i]) ==> info.partner.Some?)
    ensures Entry(events, n + 1, i, info)
  {
  }

  lemma OtherIsNeutral(e: Event, id: int)
    requires !IsStart(e) && !IsEnd(e)
    ensures !Opens(e, id) && !Closes(e, id)
  {
  }

  /** An event that is neither start nor end changes nothing. */
  lemma KeptByOther(events: seq<Event>, n: nat, open: map<int, seq<nat>>, result: map<nat, PairInfo>)
    requires n < |events| && StacksOk(events, n, open) && Decided(events, n, open, result)
    requires !IsStart(events[n]) && !IsEnd(events[n])
    ensures StacksOk(events, n + 1, open) && Decided(events, n + 1, open, result)
  {
    forall x ensures StackOk(events, n + 1, x, StackOf(open, x)) {
      OtherIsNeutral(events[n], x);
      StackSkip(events, n, x, StackOf(open, x));
    }
    DecidedSkips(events, n, open, result);
  }

  lemma DecidedSkips(events: seq<Event>, n: nat, open: map<int, seq<nat>>, result: map<nat, PairInfo>)
    requires n < |events| && Decided(events, n, open, result) && !IsStart(events[n]) && !IsEnd(events[n])
    ensures Decided(events, n + 1, open, result)
  {
    forall i: nat | i in result ensures Entry(events, n + 1, i, result[i]) {
      EntryExtends(events, n, i, result[i]);
    }
    forall i: nat
      ensures i in result <==>
        i < n + 1 && (IsEnd(events[i]) || (IsStart(events[i]) && i !in StackOf(open, events[i].sequenceId)))
    {
    }
  }

  /** An end whose id has no open start is an orphan. */
  lemma KeptByOrphan(events: seq<Event>, n: nat, open: map<int, seq<nat>>, result: map<nat, PairInfo>)
    requires n < |events| && StacksOk(events, n, open) && Decided(events, n, open, result)
    requires IsEnd(events[n]) && StackOf(open, events[n].scheduledId.value) == []
    ensures StacksOk(events, n + 1, open)
    ensures Decided(events, n + 1, open, result[n := PairInfo(events[n].scheduledId.value, EndRole, None, None)])
  {
    var id := events[n].scheduledId.value;
    KindsDisjoint(events[n].kind);
    assert StackOk(events, n, id, []);
    StackEmpty(events, n, id);
    forall x ensures StackOk(events, n + 1, x, StackOf(open, x)) {
      if x != id {
        StackSkip(events, n, x, StackOf(open, x));
      }
    }
    OrphanIsDecided(events, n, open, result, PairInfo(id, EndRole, None, None));
  }

  lemma OrphanIsDecided(
    events: seq<Event>, n: nat, open: map<int, seq<nat>>, result: map<nat, PairInfo>, info: PairInfo)
    requires n < |events| && Decided(events, n, open, result) && IsEnd(events[n]) && !IsStart(events[n])
    requires EndEntry(events, n, info)
    ensures Decided(events, n + 1, open, result[n := info])
  {
    forall i: nat | i in result ensures Entry(events, n + 1, i, result[i]) {
      EntryExtends(events, n, i, result[i]);
    }
  }

  /** The stacks after an end took the innermost open start s of its id. */
  lemma PoppedStacks(events: seq<Event>, n: nat, open: map<int, seq<nat>>, id: int, st: seq<nat>)
    requires n < |events| && StacksOk(events, n, open) && st != [] && StackOf(open, id) == st
    requires Closes(events[n], id) && !IsStart(events[n])
    ensures StacksOk(events, n + 1, open[id := st[..|st| - 1]])
  {
    var open' := open[id := st[..|st| - 1]];
    forall x ensures StackOk(events, n + 1, x, StackOf(open', x)) {
      if x == id {
        StackPop(events, n, id, st);
      } else {
        StackSkip(events, n, x, StackOf(open, x));
      }
    }
  }

  /** A stack never holds a start twice. */
  lemma TopIsOnlyOnTop(events: seq<Event>, n: nat, id: int, st: seq<nat>)
    requires n <= |events| && StackOk(events, n, id, st) && st != []
    ensures forall i :: i in st[..|st| - 1] <==> i in st && i != st[|st| - 1]
  {
    var s := st[|st| - 1];
    var st' := st[..|st| - 1];
    assert forall k :: 0 <= k < |st'| ==>
      st'[k] == st[k] && NetAfter(events, id, st[k], n) > NetAfter(events, id, s, n);
    assert st == st' + [s];
  }

  /** An end takes the innermost open start of its id off the stack. */
  function WithPair(events: seq<Event>, result: map<nat, PairInfo>, id: int, s: nat, e: nat): map<nat, PairInfo>
    requires s < |events| && e < |events|
  {
    var end := PairInfo(id, EndRole, Some(s), Duration(events[s], events[e]));
    result[s := PairInfo(id, StartRole, Some(e), None)][e := end]
  }

  lemma KeptByMatch(
    events: seq<Event>, n: nat, open: map<int, seq<nat>>, result: map<nat, PairInfo>, id: int, st: seq<nat>, s: nat)
    requires n < |events| && StacksOk(events, n, open) && Decided(events, n, open, result)
    requires Closes(events[n], id) && !IsStart(events[n]) && st != [] && StackOf(open, id) == st && s == st[|st| - 1]
    ensures s < n
    ensures Decided(events, n + 1, open[id := st[..|st| - 1]], WithPair(events, result, id, s, n))
  {
    assert StackOk(events, n, id, st);
    StackTopMatches(events, n, id, st);
    TopIsOnlyOnTop(events, n, id, st);
    var open' := open[id := st[..|st| - 1]];
    var result' := WithPair(events, result, id, s, n);
    forall i: nat | i in result'
      ensures Entry(events, n + 1, i, result'[i]) && (IsStart(events[i]) ==> result'[i].partner.Some?)
    {
      if i != s && i != n {
        EntryExtends(events, n, i, result[i]);
      }
    }
    StartIsNoEnd(events[s]);
    assert Opens(events[s], id);
    MatchedKeys(events, n, open, result.Keys, id, st);
  }

  /** The decided events are one start and one end more. */
  lemma MatchedKeys(events: seq<Event>, n: nat, open: map<int, seq<nat>>, keys: set<nat>, id: int, st: seq<nat>)
    requires n < |events| && st != [] && StackOf(open, id) == st && Closes(events[n], id) && !IsStart(events[n])
    requires var s := st[|st| - 1]; s < n && Opens(events[s], id) && !IsEnd(events[s])
    requires forall i :: i in st[..|st| - 1] <==> i in st && i != st[|st| - 1]
    requires forall i: nat :: i in keys <==>
      i < n && (IsEnd(events[i]) || (IsStart(events[i]) && i !in StackOf(open, events[i].sequenceId)))
    ensures var open' := open[id := st[..|st| - 1]];
            forall i: nat :: i in keys + {st[|st| - 1], n} <==>
              i < n + 1 && (IsEnd(events[i]) || (IsStart(events[i]) && i !in StackOf(open', events[i].sequenceId)))
  {
  }

  lemma StartIsNoEnd(e: Event)
    requires IsStart(e)
    ensures !IsEnd(e)
  {
    KindsDisjoint(e.kind);
  }

  /** The starts left on a stack at the end have no end. */
  lemma LeftOpenIsUnmatched(events: seq<Event>, open: map<int, seq<nat>>, id: int, i: nat)
    requires StacksOk(events, |events|, open) && i in StackOf(open, id)
    ensures i < |events| && IsStart(events[i]) && events[i].sequenceId == id
    ensures Entry(events, |events|, i, PairInfo(id, StartRole, None, None))
  {
    assert StackOk(events, |events|, id, StackOf(open, id));
    forall e | 0 <= e < |events| ensures !Matched(events, id, i, e) {
      if Matched(events, id, i, e) {
        MatchedIsClosed(events, id, i, e, |events|);
      }
    }
  }

  /** The first pass: every event is taken once, in order. */
  method MatchAll(events: seq<Event>) returns (open: map<int, seq<nat>>, result: map<nat, PairInfo>)
    ensures StacksOk(events, |events|, open) && Decided(events, |events|, open, result)
  {
    result := map[];
    open := map[];
    for index := 0 to |events|
      invariant StacksOk(events, index, open)
      invariant Decided(events, index, open, result)
    {
      open, result := Visit(events, index, open, result);
    }
  }

  /** One round of the pass. */
  method Visit(events: seq<Event>, index: nat, open0: map<int, seq<nat>>, result0: map<nat, PairInfo>)
    returns (open: map<int, seq<nat>>, result: map<nat, PairInfo>)
    requires index < |events| && StacksOk(events, index, open0) && Decided(events, index, open0, result0)
    ensures StacksOk(events, index + 1, open) && Decided(events, index + 1, open, result)
  {
    open, result := open0, result0;
    var event := events[index];
    if event.kind in START_TYPES && event.sequenceId >= 0 {
      KeptByStart(events, index, open, result);
      var stack := StackOf(open, event.sequenceId);
      open := open[event.sequenceId := stack + [index]];
    } else if event.kind in END_TYPES && event.scheduledId.Some? {
      open, result := Close(events, index, open, result);
    } else {
      KeptByOther(events, index, open, result);
    }
  }

  /** An end takes the innermost open start of its id, if there is one. */
  method Close(events: seq<Event>, index: nat, open0: map<int, seq<nat>>, result0: map<nat, PairInfo>)
    returns (open: map<int, seq<nat>>, result: map<nat, PairInfo>)
    requires index < |events| && StacksOk(events, index, open0) && Decided(events, index, open0, result0)
    requires IsEnd(events[index]) && !IsStart(events[index])
    ensures StacksOk(events, index + 1, open) && Decided(events, index + 1, open, result)
  {
    open, result := open0, result0;
    var event := events[index];
    var pairId := event.scheduledId.value;
    var stack := StackOf(open, pairId);
    if stack == [] {
      KeptByOrphan(events, index, open, result);
      result := result[index := PairInfo(pairId, EndRole, None, None)];
    } else {
      var startIndex := stack[|stack| - 1];
      PoppedStacks(events, index, open, pairId, stack);
      KeptByMatch(events, index, open, result, pairId, stack, startIndex);
      open := open[pairId := stack[..|stack| - 1]];
      result := result[startIndex := PairInfo(pairId, StartRole, Some(index), None)];
      result := result[index := PairInfo(pairId, EndRole, Some(startIndex), Duration(events[startIndex], event))];
    }
  }

  /** The inner loop over the starts left on one id's stack. */
  method MarkOpen(id: int, stack: seq<nat>, before: map<nat, PairInfo>) returns (result: map<nat, PairInfo>)
    ensures forall i :: i in result <==> i in before || i in stack
    ensures forall i :: i in result ==>
      result[i] == if i in stack then PairInfo(id, StartRole, None, None) else before[i]
  {
    result := before;
    for k := 0 to |stack|
      invariant forall i :: i in result <==> i in before || i in stack[..k]
      invariant forall i :: i in result ==>
        result[i] == if i in stack[..k] then PairInfo(id, StartRole, None, None) else before[i]
    {
      result := result[stack[k] := PairInfo(id, StartRole, None, None)];
      assert stack[..k + 1] == stack[..k] + [stack[k]];
    }
    assert stack[..|stack|] == stack;
  }

  /** The next id of the final loop; the order does not matter. */
  method AnyOf(ids: set<int>) returns (id: int)
    requires ids != {}
    ensures id in ids
  {
    NoneIsEmpty(ids);
    id :| id in ids;
  }

  lemma NoneIsEmpty(ids: set<int>)
    ensures (forall x :: x !in ids) ==> ids == {}
  {
    if forall x :: x !in ids {
      assert ids == {};
    }
  }

  method BuildPairIndex(events: seq<Event>) returns (result: map<nat, PairInfo>)
    ensures PairsBrackets(events, result)
  {
    var open: map<int, seq<nat>>;
    open, result := MatchAll(events);
    var ids: set<int> := open.Keys;
    while ids != {}
      invariant ids <= open.Keys
      invariant forall i: nat :: i in result <==>
                  && i < |events|
                  && (|| IsEnd(events[i])
                      || (&& IsStart(events[i])
                          && !(events[i].sequenceId in ids && i in StackOf(open, events[i].sequenceId))))
      invariant forall i: nat :: i in result ==> Entry(events, |events|, i, result[i])
    {
      var id := AnyOf(ids);
      forall i: nat | i in open[id]
        ensures i < |events| && IsStart(events[i]) && events[i].sequenceId == id
                && Entry(events, |events|, i, PairInfo(id, StartRole, None, None))
      {
        LeftOpenIsUnmatched(events, open, id, i);
      }
      result := MarkOpen(id, open[id], result);
      ids := ids - {id};
    }
  }

  // ------------------------------------------------------- what a reader of the index gets

  /** Partners name each other, under one id, start before end. */
  lemma PartnersAreMutual(events: seq<Event>, index: map<nat, PairInfo>, i: nat, j: nat)
    requires PairsBrackets(events, index) && i in index && index[i].partner == Some(j)
    ensures j in index && index[j].partner == Some(i) && index[j].pairId == index[i].pairId
    ensures index[i].role == StartRole ==> i < j && index[j].role == EndRole
    ensures index[i].role == EndRole ==> j < i && index[j].role == StartRole
  {
    var id := index[i].pairId;
    assert Entry(events, |events|, i, index[i]);
    var s, e := if IsStart(events[i]) then i else j, if IsStart(events[i]) then j else i;
    assert Matched(events, id, s, e);
    StartIsNoEnd(events[s]);
    assert s in index && Entry(events, |events|, s, index[s]);
    assert !IsStart(events[e]) by {
      KindsDisjoint(events[e].kind);
    }
    assert e in index && Entry(events, |events|, e, index[e]);
    if s == i {
      var s' := index[e].partner;
      assert s'.Some?;
      StartIsUnique(events, id, s, s'.value, e);
    } else {
      var e' := index[s].partner;
      assert e'.Some?;
      EndIsUnique(events, id, s, e, e'.value);
    }
  }

  lemma EndIsEntered(events: seq<Event>, index: map<nat, PairInfo>, i: nat)
    requires PairsBrackets(events, index) && i in index && index[i].role == EndRole
    ensures i < |events| && EndEntry(events, i, index[i])
  {
    assert Entry(events, |events|, i, index[i]);
  }

  /** A matched end shows the milliseconds since its start, if both times parse and do not run backwards. */
  lemma DurationIsElapsed(events: seq<Event>, index: map<nat, PairInfo>, i: nat, s: nat, d: int)
    requires PairsBrackets(events, index) && i in index && index[i].role == EndRole && index[i].partner == Some(s)
    ensures s < i < |events|
    ensures index[i].durationMs == Some(d)
            <==> && events[i].time.Some? && events[s].time.Some?
                 && d == events[i].time.value - events[s].time.value && d >= 0
  {
    EndIsEntered(events, index, i);
  }

  /** Which events the index has, in which role and under which id. */
  lemma IndexedEvents(events: seq<Event>, index: map<nat, PairInfo>, i: nat)
    requires PairsBrackets(events, index) && i < |events|
    ensures var kind := events[i].kind;
            var starts := kind == "TaskScheduled" || kind == "TimerCreated" || kind == "SubOrchestrationCreated";
            var ends := || kind == "TaskCompleted" || kind == "TaskFailed" || kind == "TimerFired"
                        || kind == "SubOrchestrationCompleted" || kind == "SubOrchestrationFailed";
            && (i in index && index[i].role == StartRole <==> starts && events[i].sequenceId >= 0)
            && (i in index && index[i].role == EndRole <==> ends && events[i].scheduledId.Some?)
            && (i in index && starts ==> index[i].pairId == events[i].sequenceId)
            && (i in index && ends ==> events[i].scheduledId == Some(index[i].pairId))
  {
    KindsDisjoint(events[i].kind);
    if i in index {
      assert Entry(events, |events|, i, index[i]);
    }
  }

  /** Durations are shown on matched ends only and are never negative. */
  lemma DurationsAreNonNegative(events: seq<Event>, index: map<nat, PairInfo>, i: nat)
    requires PairsBrackets(events, index) && i in index && index[i].durationMs.Some?
    ensures index[i].durationMs.value >= 0 && index[i].role == EndRole && index[i].partner.Some?
  {
    assert Entry(events, |events|, i, index[i]);
  }

  /** An end is an orphan exactly when no start of its id is still open before it. */
  lemma OrphanIffNoOpenStart(events: seq<Event>, index: map<nat, PairInfo>, i: nat)
    requires PairsBrackets(events, index) && i in index && index[i].role == EndRole
    ensures index[i].partner.None? <==> forall s :: 0 <= s < i ==> !OpenUntil(events, index[i].pairId, s, i)
  {
    var id := index[i].pairId;
    assert Entry(events, |events|, i, index[i]);
    assert Closes(events[i], id) by {
      assert IsEnd(events[i]);
    }
    if s :| 0 <= s < i && OpenUntil(events, id, s, i) {
      var s' := OpenStartGivesMatch(events, id, s, i);
    }
  }

  /** Between the two ends of a pair, every start and end of that id has its partner between them too. */
  lemma PairsNest(events: seq<Event>, index: map<nat, PairInfo>, s: nat, e: nat, x: nat)
    requires PairsBrackets(events, index) && s in index && index[s].role == StartRole && index[s].partner == Some(e)
    requires s < x < e && x in index && index[x].pairId == index[s].pairId
    ensures index[x].partner.Some? && s < index[x].partner.value < e
  {
    var id := index[s].pairId;
    assert Entry(events, |events|, s, index[s]) && Entry(events, |events|, x, index[x]);
    assert Matched(events, id, s, e);
    if IsStart(events[x]) {
      var e' := StartsInsideMatchInside(events, id, s, e, x);
      EndIsUnique(events, id, x, e', index[x].partner.value);
    } else {
      assert Closes(events[x], id) && !Opens(events[x], id);
      var s' := EndsInsideMatchInside(events, id, s, e, x);
      StartIsUnique(events, id, s', index[x].partner.value, x);
    }
  }
}
