/** Removing workflow instances: pkg/workflow/remove.go, and load and Get of pkg/workflow/service.go. */
module Removal {
  import opened Basics
  import opened Like
  import opened StateKeys

  /**
   * The state store as these operations see it. `listable` and `stuck` say which backend calls
   * fail: listing keys at all, and deleting a given key.
   */
  class Store {
    var data: map<string, string>
    const listable: bool
    const stuck: set<string>

    constructor (data: map<string, string>, listable: bool, stuck: set<string>)
      ensures this.data == data && this.listable == listable && this.stuck == stuck
    {
      this.data, this.listable, this.stuck := data, listable, stuck;
    }

    /** Every key matching the pattern, in an order of the backend's choosing. */
    method Keys(pattern: string) returns (r: Result<seq<string>, string>)
      ensures r.Ok? == listable
      ensures r.Ok? ==> forall k :: k in r.value <==> k in Selected(data, pattern)
    {
      if !listable {
        return Err("list keys failed");
      }
      var rest := set k | k in data && Matches(pattern, k);
      var keys: seq<string> := [];
      while rest != {}
        invariant forall k :: k in Selected(data, pattern) <==> k in keys || k in rest
      {
        var k :| k in rest;
        keys := keys + [k];
        rest := rest - {k};
      }
      r := Ok(keys);
    }

    method Delete(key: string) returns (ok: bool)
      modifies this`data
      ensures ok == (key !in stuck)
      ensures data == if ok then old(data) - {key} else old(data)
    {
      ok := key !in stuck;
      if ok {
        data := data - {key};
      }
    }
  }

  function Selected(data: map<string, string>, pattern: string): set<string> {
    set k | k in data && Matches(pattern, k)
  }

  datatype Status = Running | Pending | Suspended | Completed | Failed | Terminated

  predicate IsTerminal(s: Status) {
    s.Completed? || s.Failed? || s.Terminated?
  }

  datatype Target = Target(appID: string, instanceID: string, status: Status, httpPort: int, baseURL: string,
    healthy: bool, ns: string)

  datatype Mechanism = TerminateThenPurge | Purge | Force

  function SelectMechanism(status: Status, sidecarHealthy: bool, force: bool): Mechanism {
    if force || !sidecarHealthy then Force
    else if IsTerminal(status) then Purge
    else TerminateThenPurge
  }

  datatype RemoveResult = RemoveResult(instanceID: string, mechanism: Mechanism, ok: bool)

  /** The two calls a sidecar answers; its own effect on the store is foreign code. */
  datatype Action = Terminate | DoPurge

  function PatternOf(t: Target, storeNs: string): string {
    InstanceKeyPattern(if t.ns != "" then t.ns else storeNs, t.appID, t.instanceID)
  }

  function MechanismOf(t: Target, force: bool): Mechanism {
    SelectMechanism(t.status, t.healthy && (t.httpPort > 0 || t.baseURL != ""), force)
  }

  class Remover {
    const store: Store?
    const ns: string
    const post: (Target, Action) -> bool

    constructor (store: Store?, ns: string, post: (Target, Action) -> bool)
      ensures this.store == store && this.ns == (if ns == "" then "default" else ns) && this.post == post
    {
      this.store, this.post := store, post;
      this.ns := if ns == "" then "default" else ns;
    }

    ghost function Footprint(): set<object> {
      if store == null then {} else {store}
    }

    /**
     * Deletes the instance's keys one by one, stopping at the first that fails. It succeeds exactly
     * when all of them can be deleted, and never touches a key outside the pattern.
     */
    method ForceDelete(t: Target) returns (ok: bool)
      modifies Footprint()
      ensures ok <==> && store != null && store.listable
                      && forall k :: k in old(Selected(store.data, PatternOf(t, ns))) ==> k !in store.stuck
      ensures store != null ==> store.data.Keys <= old(store.data).Keys
      ensures store != null ==> forall k :: k in old(store.data) && !Matches(PatternOf(t, ns), k) ==> k in store.data
      ensures store != null ==> forall k :: k in store.data ==> store.data[k] == old(store.data)[k]
      ensures ok ==> ForceDeleted(old(store.data), store.data, PatternOf(t, ns))
    {
      if store == null {
        return false;
      }
      var pattern := PatternOf(t, ns);
      var listed := store.Keys(pattern);
      if listed.Err? {
        return false;
      }
      var keys := listed.value;
      ghost var before := store.data;
      for i := 0 to |keys|
        invariant store.data.Keys == before.Keys - (set j | 0 <= j < i :: keys[j])
        invariant forall k :: k in store.data ==> store.data[k] == before[k]
        invariant forall j :: 0 <= j < i ==> keys[j] !in store.stuck
      {
        assert keys[i] in keys;
        var deleted := store.Delete(keys[i]);
        if !deleted {
          forall k | k in before && !Matches(pattern, k) ensures k in store.data {
            assert k !in keys;
          }
          return false;
        }
      }
      assert forall k :: k in keys <==> exists j :: 0 <= j < |keys| && keys[j] == k;
      assert forall k :: k in keys <==> k in before && Matches(pattern, k);
      ok := true;
    }

    method Remove(t: Target, force: bool) returns (res: RemoveResult)
      modifies Footprint()
      ensures res.instanceID == t.instanceID && res.mechanism == MechanismOf(t, force)
      ensures res.mechanism == Force <==> force || !t.healthy || (t.httpPort <= 0 && t.baseURL == "")
      ensures res.mechanism == Purge ==> t.status in {Completed, Failed, Terminated}
      ensures res.mechanism == TerminateThenPurge ==> t.status in {Running, Pending, Suspended}
      ensures res.mechanism.Purge? ==> res.ok == post(t, DoPurge)
      ensures res.mechanism.TerminateThenPurge? ==> res.ok == (post(t, Terminate) && post(t, DoPurge))
      ensures res.mechanism.Force? ==>
                (res.ok <==> store != null && store.listable
                             && forall k :: k in old(Selected(store.data, PatternOf(t, ns))) ==> k !in store.stuck)
      ensures res.mechanism.Force? && res.ok ==> ForceDeleted(old(store.data), store.data, PatternOf(t, ns))
      ensures store != null ==> store.data.Keys <= old(store.data).Keys
      ensures store != null ==> forall k :: k in store.data ==> store.data[k] == old(store.data)[k]
      ensures store != null ==> forall k ::
                k in old(store.data) && !(res.mechanism.Force? && Matches(PatternOf(t, ns), k)) ==> k in store.data
    {
      var mech := MechanismOf(t, force);
      var ok;
      match mech {
        case Purge => ok := post(t, DoPurge);
        case TerminateThenPurge =>
          ok := post(t, Terminate);
          if ok {
            ok := post(t, DoPurge);
          }
        case Force => ok := ForceDelete(t);
      }
      res := RemoveResult(t.instanceID, mech, ok);
    }

    /** One of the first n targets is removed by force and its pattern selects the key. */
    ghost predicate ForcedByAny(targets: seq<Target>, n: nat, force: bool, key: string)
      requires n <= |targets|
    {
      exists i :: 0 <= i < n && MechanismOf(targets[i], force).Force? && Matches(PatternOf(targets[i], ns), key)
    }

    /** One result per target, in order; the forced successes have no key left, and only forced patterns lost any. */
    method RemoveMany(targets: seq<Target>, force: bool) returns (out: seq<RemoveResult>)
      modifies Footprint()
      ensures |out| == |targets|
      ensures forall i :: 0 <= i < |out| ==>
                out[i].instanceID == targets[i].instanceID && out[i].mechanism == MechanismOf(targets[i], force)
      ensures forall i :: 0 <= i < |out| && out[i].mechanism.Force? && out[i].ok ==>
                store != null && Selected(store.data, PatternOf(targets[i], ns)) == {}
      ensures store != null ==> forall k :: k in old(store.data) && !ForcedByAny(targets, |targets|, force, k) ==>
                k in store.data && store.data[k] == old(store.data)[k]
    {
      out := [];
      for n := 0 to |targets|
        invariant |out| == n
        invariant forall i :: 0 <= i < n ==>
                    out[i].instanceID == targets[i].instanceID && out[i].mechanism == MechanismOf(targets[i], force)
        invariant forall i :: 0 <= i < n && out[i].mechanism.Force? && out[i].ok ==>
                    store != null && Selected(store.data, PatternOf(targets[i], ns)) == {}
        invariant store != null ==> store.data.Keys <= old(store.data).Keys
        invariant store != null ==> forall k :: k in store.data ==> store.data[k] == old(store.data)[k]
        invariant store != null ==>
                    forall k :: k in old(store.data) && !ForcedByAny(targets, n, force, k) ==> k in store.data
      {
        ghost var before := if store != null then store.data else map[];
        var res := Remove(targets[n], force);
        forall i | 0 <= i < n && out[i].mechanism.Force? && out[i].ok
          ensures store != null && Selected(store.data, PatternOf(targets[i], ns)) == {}
        {
          assert Selected(store.data, PatternOf(targets[i], ns)) <= Selected(before, PatternOf(targets[i], ns));
        }
        out := out + [res];
      }
    }
  }

  // ------------------------------------------------------- what a reader sees

  /** The fields of an execution that Get looks at; the rest is left to the decoder. */
  datatype Execution = Execution(historyLen: nat, status: Status, name: string, rest: string)

  datatype LoadError = NotFound

  /** How an instance's own keys and values become an execution: the durabletask decoder. */
  type Decoder = (string, string, map<string, string>) -> Execution

  function Load(
    data: map<string, string>, decode: Decoder, ns: string, appID: string, instanceID: string
  ): Result<Execution, LoadError>
  {
    var own := map k | k in data && Matches(InstanceKeyPattern(ns, appID, instanceID), k) :: data[k];
    if own == map[] then Err(NotFound) else Ok(decode(appID, instanceID, own))
  }

  function Get(
    data: map<string, string>, decode: Decoder, ns: string, appID: string, instanceID: string
  ): Result<Execution, LoadError>
  {
    match Load(data, decode, ns, appID, instanceID)
    case Err(e) => Err(e)
    case Ok(ex) => if ex.historyLen == 0 && ex.status == Pending && ex.name == "" then Err(NotFound) else Ok(ex)
  }

  /** Get hides exactly the executions that have no history, no name and are still pending. */
  lemma GetShowsIff(
    data: map<string, string>, decode: Decoder, ns: string, appID: string, instanceID: string, ex: Execution)
    ensures Get(data, decode, ns, appID, instanceID) == Ok(ex)
            <==> Load(data, decode, ns, appID, instanceID) == Ok(ex)
                 && (ex.historyLen > 0 || ex.status != Pending || ex.name != "")
    ensures Get(data, decode, ns, appID, instanceID).Err? ==>
              Get(data, decode, ns, appID, instanceID) == Err(NotFound)
  {
  }

  predicate CleanId(s: string) {
    NoBar(s) && Plain(s)
  }

  predicate CleanIds(ns: string, appID: string, instanceID: string) {
    CleanId(ns) && CleanId(appID) && CleanId(instanceID)
  }

  /** What a successful ForceDelete makes of the data. */
  ghost predicate ForceDeleted(before: map<string, string>, after: map<string, string>, pattern: string) {
    && Selected(after, pattern) == {}
    && (forall k :: k in after ==> k in before && after[k] == before[k])
    && (forall k :: k in before && !Matches(pattern, k) ==> k in after)
  }

  /** The deleted instance is gone and every other instance with clean ids loads as before. */
  lemma ForceDeleteTouchesOneInstance(
    before: map<string, string>, after: map<string, string>, decode: Decoder,
    ns: string, appID: string, instanceID: string, ns': string, appID': string, instanceID': string)
    requires CleanIds(ns, appID, instanceID) && CleanIds(ns', appID', instanceID')
    requires ForceDeleted(before, after, InstanceKeyPattern(ns, appID, instanceID))
    ensures Get(after, decode, ns, appID, instanceID) == Err(NotFound)
    ensures (ns', appID', instanceID') != (ns, appID, instanceID) ==>
              Load(after, decode, ns', appID', instanceID') == Load(before, decode, ns', appID', instanceID')
  {
    var p, p' := InstanceKeyPattern(ns, appID, instanceID), InstanceKeyPattern(ns', appID', instanceID');
    forall k ensures !(k in after && Matches(p, k)) {
      assert k !in Selected(after, p);
    }
    if (ns', appID', instanceID') != (ns, appID, instanceID) {
      forall k | Matches(p', k) ensures !Matches(p, k) {
        InstancePatternExactIffPlain(ns, appID, instanceID);
        InstancePatternExactIffPlain(ns', appID', instanceID');
        if Matches(p, k) {
          PrefixesAreDisjoint(ns, appID, instanceID, ns', appID', instanceID', k);
        }
      }
      assert (map k | k in after && Matches(p', k) :: after[k]) == (map k | k in before && Matches(p', k) :: before[k]);
    }
  }

  // ------------------------------------------------------- ids that are not clean

  /** An instance whose id goes on after "||" loses its keys with the shorter one's. */
  lemma ExtensionIsDeletedToo(
    before: map<string, string>, after: map<string, string>, decode: Decoder,
    ns: string, appID: string, instanceID: string, more: string)
    requires CleanIds(ns, appID, instanceID) && Plain(more)
    requires ForceDeleted(before, after, InstanceKeyPattern(ns, appID, instanceID))
    ensures Get(after, decode, ns, appID, instanceID + DELIMITER + more) == Err(NotFound)
  {
    var longer := instanceID + DELIMITER + more;
    PlainAppend(instanceID, DELIMITER);
    PlainAppend(instanceID + DELIMITER, more);
    InstancePatternExactIffPlain(ns, appID, instanceID);
    InstancePatternExactIffPlain(ns, appID, longer);
    var p, p' := InstancePrefix(ns, appID, instanceID), InstancePrefix(ns, appID, longer);
    assert p' == p + (more + DELIMITER);
    forall k | k in after ensures !Matches(InstanceKeyPattern(ns, appID, longer), k) {
      assert k in Selected(after, InstanceKeyPattern(ns, appID, instanceID)) <==> StartsWith(k, p);
      assert StartsWith(k, p') ==> StartsWith(k, p);
    }
  }

  /** An instance id with '_' in it: every instance that differs only there loses its keys too. */
  lemma UnderscoreDeletesOthers(
    before: map<string, string>, after: map<string, string>, decode: Decoder,
    ns: string, appID: string, p: string, c: char, q: string)
    requires CleanId(ns) && CleanId(appID) && CleanId(p) && CleanId(q) && CleanId([c])
    requires ForceDeleted(before, after, InstanceKeyPattern(ns, appID, p + "_" + q))
    ensures Get(after, decode, ns, appID, p + [c] + q) == Err(NotFound)
  {
    var other := p + [c] + q;
    PlainAppend(p, [c]);
    PlainAppend(p + [c], q);
    InstancePatternExactIffPlain(ns, appID, other);
    forall k | k in after ensures !Matches(InstanceKeyPattern(ns, appID, other), k) {
      var pattern := InstanceKeyPattern(ns, appID, p + "_" + q);
      assert k in Selected(after, pattern) <==> Matches(pattern, k);
      if StartsWith(k, InstancePrefix(ns, appID, other)) {
        UnderscoreMatches(ns, appID, p, c, q, k);
      }
    }
  }

  lemma UnderscoreMatches(ns: string, appID: string, p: string, c: char, q: string, key: string)
    requires Plain(ns) && Plain(appID) && Plain(p) && Plain(q)
             && StartsWith(key, InstancePrefix(ns, appID, p + [c] + q))
    ensures Matches(InstanceKeyPattern(ns, appID, p + "_" + q), key)
  {
    var head, tail := AppPrefix(ns, appID) + p, q + DELIMITER;
    PlainAppPrefix(ns, appID);
    PlainAppend(AppPrefix(ns, appID), p);
    PlainAppend(q, DELIMITER);
    var rest := key[|InstancePrefix(ns, appID, p + [c] + q)|..];
    assert key == InstancePrefix(ns, appID, p + [c] + q) + rest;
    assert key == head + ([c] + (tail + rest));
    assert InstanceKeyPattern(ns, appID, p + "_" + q) == head + ("_" + (tail + "%"));
    PlainPrefixPattern(tail, tail + rest);
    MatchesHole(head, c, tail + "%", tail + rest);
  }

  // ------------------------------------------------------- exactly when other instances are spared

  /** Some instance's keys, as the instance that wrote them knows them. */
  function OwnKeys(data: map<string, string>, ns: string, appID: string, instanceID: string): map<string, string> {
    map k | k in data && StartsWith(k, InstancePrefix(ns, appID, instanceID)) :: data[k]
  }

  predicate NoBars(ns: string, appID: string, instanceID: string) {
    NoBar(ns) && NoBar(appID) && NoBar(instanceID)
  }

  /** Whatever the store holds, a forced removal leaves the keys of every other bar-free instance. */
  ghost predicate SparesOthers(ns: string, appID: string, instanceID: string) {
    forall before, after, ns', appID', instanceID' ::
      NoBars(ns', appID', instanceID') && (ns', appID', instanceID') != (ns, appID, instanceID)
      && ForceDeleted(before, after, InstanceKeyPattern(ns, appID, instanceID)) ==>
        OwnKeys(after, ns', appID', instanceID') == OwnKeys(before, ns', appID', instanceID')
  }

  /** The same for what Load reads of every other clean instance. */
  ghost predicate SparesLoads(ns: string, appID: string, instanceID: string) {
    forall before, after, decode: Decoder, ns', appID', instanceID' ::
      CleanIds(ns', appID', instanceID') && (ns', appID', instanceID') != (ns, appID, instanceID)
      && ForceDeleted(before, after, InstanceKeyPattern(ns, appID, instanceID)) ==>
        Load(after, decode, ns', appID', instanceID') == Load(before, decode, ns', appID', instanceID')
  }

  lemma PatternGroups(ns: string, appID: string, instanceID: string, rest: string)
    ensures InstancePrefix(ns, appID, instanceID) + rest
            == appID + (DELIMITER + "dapr.internal." + (ns + ("." + (appID + (".workflow" + DELIMITER
               + (instanceID + (DELIMITER + rest)))))))
  {
  }

  /** The pattern of any ids selects the keys of the instance that their samples name. */
  lemma SampleIsSelected(ns: string, appID: string, instanceID: string, rest: string)
    ensures Matches(InstanceKeyPattern(ns, appID, instanceID),
              InstancePrefix(Sample(ns), Sample(appID), Sample(instanceID)) + rest)
  {
    var p3, r3 := instanceID + (DELIMITER + "%"), Sample(instanceID) + (DELIMITER + rest);
    MatchesAny(rest);
    SampleBefore(instanceID, DELIMITER, "%", rest);
    var p2, r2 := appID + (".workflow" + DELIMITER + p3), Sample(appID) + (".workflow" + DELIMITER + r3);
    SampleBefore(appID, ".workflow" + DELIMITER, p3, r3);
    var p1, r1 := ns + ("." + p2), Sample(ns) + ("." + r2);
    SampleBefore(ns, ".", p2, r2);
    SampleBefore(appID, DELIMITER + "dapr.internal.", p1, r1);
    PatternGroups(ns, appID, instanceID, "%");
    PatternGroups(Sample(ns), Sample(appID), Sample(instanceID), rest);
  }

  lemma SampleNoBar(s: string)
    requires NoBar(s)
    ensures NoBar(Sample(s)) && ('\\' !in s ==> Plain(Sample(s))) && (Sample(s) == s <==> Plain(s))
  {
    SampleChars(s);
    SampleOfPlainOnly(s);
  }

  /** A store with one key, of the instance that the samples name, and what the removal leaves of it. */
  lemma SampleIsDeleted(ns: string, appID: string, instanceID: string)
    returns (before: map<string, string>, key: string)
    ensures key == InstancePrefix(Sample(ns), Sample(appID), Sample(instanceID)) + "metadata"
    ensures before == map[key := ""] && ForceDeleted(before, map[], InstanceKeyPattern(ns, appID, instanceID))
  {
    key := InstancePrefix(Sample(ns), Sample(appID), Sample(instanceID)) + "metadata";
    before := map[key := ""];
    SampleIsSelected(ns, appID, instanceID, "metadata");
  }

  /** For bar-free ids a forced removal leaves all other instances' keys if and only if the ids are plain. */
  lemma SparesOthersIffPlain(ns: string, appID: string, instanceID: string)
    requires NoBars(ns, appID, instanceID)
    ensures SparesOthers(ns, appID, instanceID) <==> Plain(ns) && Plain(appID) && Plain(instanceID)
  {
    if Plain(ns) && Plain(appID) && Plain(instanceID) {
      forall before, after, ns', appID', instanceID' |
        NoBars(ns', appID', instanceID') && (ns', appID', instanceID') != (ns, appID, instanceID)
        && ForceDeleted(before, after, InstanceKeyPattern(ns, appID, instanceID))
        ensures OwnKeys(after, ns', appID', instanceID') == OwnKeys(before, ns', appID', instanceID')
      {
        OthersKept(before, after, ns, appID, instanceID, ns', appID', instanceID');
      }
    } else {
      var before, key := SampleIsDeleted(ns, appID, instanceID);
      SampleNoBar(ns);
      SampleNoBar(appID);
      SampleNoBar(instanceID);
      assert StartsWith(key, InstancePrefix(Sample(ns), Sample(appID), Sample(instanceID)));
      assert key in OwnKeys(before, Sample(ns), Sample(appID), Sample(instanceID));
      assert key !in OwnKeys(map[], Sample(ns), Sample(appID), Sample(instanceID));
    }
  }

  lemma OthersKept(
    before: map<string, string>, after: map<string, string>, ns: string, appID: string, instanceID: string,
    ns': string, appID': string, instanceID': string)
    requires NoBars(ns, appID, instanceID) && Plain(ns) && Plain(appID) && Plain(instanceID)
    requires NoBars(ns', appID', instanceID') && (ns', appID', instanceID') != (ns, appID, instanceID)
    requires ForceDeleted(before, after, InstanceKeyPattern(ns, appID, instanceID))
    ensures OwnKeys(after, ns', appID', instanceID') == OwnKeys(before, ns', appID', instanceID')
  {
    var p := InstancePrefix(ns', appID', instanceID');
    InstancePatternExactIffPlain(ns, appID, instanceID);
    forall k | k in before && StartsWith(k, p) ensures k in after {
      if StartsWith(k, InstancePrefix(ns, appID, instanceID)) {
        PrefixesAreDisjoint(ns, appID, instanceID, ns', appID', instanceID', k);
      }
    }
  }

  /** Without backslashes in the ids, the same goes for what is read of all other clean instances. */
  lemma SparesLoadsIffPlain(ns: string, appID: string, instanceID: string)
    requires NoBars(ns, appID, instanceID) && '\\' !in ns && '\\' !in appID && '\\' !in instanceID
    ensures SparesLoads(ns, appID, instanceID) <==> Plain(ns) && Plain(appID) && Plain(instanceID)
  {
    if Plain(ns) && Plain(appID) && Plain(instanceID) {
      forall before, after, decode: Decoder, ns', appID', instanceID' |
        CleanIds(ns', appID', instanceID') && (ns', appID', instanceID') != (ns, appID, instanceID)
        && ForceDeleted(before, after, InstanceKeyPattern(ns, appID, instanceID))
        ensures Load(after, decode, ns', appID', instanceID') == Load(before, decode, ns', appID', instanceID')
      {
        ForceDeleteTouchesOneInstance(before, after, decode, ns, appID, instanceID, ns', appID', instanceID');
      }
    } else {
      var before, key := SampleIsDeleted(ns, appID, instanceID);
      SampleNoBar(ns);
      SampleNoBar(appID);
      SampleNoBar(instanceID);
      OneKeyLoads(before, key, Sample(ns), Sample(appID), Sample(instanceID));
    }
  }

  lemma OneKeyLoads(before: map<string, string>, key: string, ns: string, appID: string, instanceID: string)
    requires CleanIds(ns, appID, instanceID) && before == map[key := ""]
    requires key == InstancePrefix(ns, appID, instanceID) + "metadata"
    ensures exists decode: Decoder :: Load(before, decode, ns, appID, instanceID)
                                      != Load(map[], decode, ns, appID, instanceID)
  {
    InstancePatternExactIffPlain(ns, appID, instanceID);
    var decode: Decoder := (a: string, i: string, own: map<string, string>) => Execution(0, Pending, "", "");
    assert Load(map[], decode, ns, appID, instanceID) == Err(NotFound);
    var own := map k | k in before && Matches(InstanceKeyPattern(ns, appID, instanceID), k) :: before[k];
    assert StartsWith(key, InstancePrefix(ns, appID, instanceID)) && key in before;
    assert Matches(InstanceKeyPattern(ns, appID, instanceID), key);
    assert key in own;
    assert Load(before, decode, ns, appID, instanceID).Ok?;
  }

  lemma FirstSegmentKeeps(p: string, tail: string)
    requires NoBar(p) && tail != "" && tail[0] == '%'
    ensures |Split(p + tail)[0]| > |p| && Split(p + tail)[0][|p|] == '%'
  {
    var s := p + tail;
    assert s[|p|] == '%' && forall i :: 0 <= i < |p| ==> s[i] == p[i];
    var cut := IndexOfDelimiter(s);
    assert cut.Some? ==> s[cut.value] == '|' && cut.value > |p|;
  }

  lemma HeadSegment(a: string, rest: string)
    requires NoBar(a)
    ensures Split(a + DELIMITER + rest) == [a] + Split(rest)
  {
    NoBarIsClean(a);
    SplitAfterHead(a, rest);
  }

  lemma ThirdSegment(a: string, t: string, s: string)
    requires NoBar(a) && NoBar(t)
    ensures var segs := Split(a + DELIMITER + (t + DELIMITER + s)); |segs| >= 3 && segs[2] == Split(s)[0]
  {
    HeadSegment(t, s);
    HeadSegment(a, t + DELIMITER + s);
    ThirdOf(Split(a + DELIMITER + (t + DELIMITER + s)), a, t, Split(s));
  }

  lemma ThirdOf(segs: seq<string>, a: string, t: string, tail: seq<string>)
    requires segs == [a] + ([t] + tail) && tail != []
    ensures |segs| >= 3 && segs[2] == tail[0]
  {
  }

  /** A key whose third segment starts with p and '%' is no clean instance's. */
  lemma PercentSegment(ns: string, appID: string, p: string, tail: string, ns': string, appID': string,
                       instanceID': string, key: string)
    requires NoBars(ns, appID, p) && CleanIds(ns', appID', instanceID')
    requires tail != "" && tail[0] == '%' && key == AppPrefix(ns, appID) + (p + tail)
    ensures !StartsWith(key, InstancePrefix(ns', appID', instanceID'))
  {
    var actor := WorkflowActorType(ns, appID);
    ActorTypeNoBar(ns, appID);
    FirstSegmentKeeps(p, tail);
    ThirdSegment(appID, actor, p + tail);
    Regrouped(appID, DELIMITER, actor, p + tail);
    if StartsWith(key, InstancePrefix(ns', appID', instanceID')) {
      SplitKeyWithPrefix(ns', appID', instanceID', key);
      assert Special(instanceID'[|p|]);
    }
  }

  lemma Regrouped(a: string, d: string, t: string, s: string)
    ensures a + d + t + d + s == a + d + (t + d + s)
  {
  }

  /** With backslashes it does not: an id with an escaped '%' is not plain, and spares all clean instances. */
  lemma EscapedIdSparesLoads(ns: string, appID: string, p: string, q: string)
    requires CleanIds(ns, appID, p)
    ensures SparesLoads(ns, appID, p + ("\\%" + q)) && !Plain(p + ("\\%" + q))
  {
    var id := p + ("\\%" + q);
    assert id[|p|] == '\\';
    forall before, after, decode: Decoder, ns', appID', instanceID' |
      CleanIds(ns', appID', instanceID') && ForceDeleted(before, after, InstanceKeyPattern(ns, appID, id))
      ensures Load(after, decode, ns', appID', instanceID') == Load(before, decode, ns', appID', instanceID')
    {
      var own := InstanceKeyPattern(ns', appID', instanceID');
      forall k | Matches(own, k) ensures !Matches(InstanceKeyPattern(ns, appID, id), k) {
        InstancePatternExactIffPlain(ns', appID', instanceID');
        if Matches(InstanceKeyPattern(ns, appID, id), k) {
          var tail := EscapedMatch(ns, appID, p, q, k);
          PercentSegment(ns, appID, p, tail, ns', appID', instanceID', k);
        }
      }
      assert (map k | k in after && Matches(own, k) :: after[k])
          == (map k | k in before && Matches(own, k) :: before[k]);
    }
  }

  lemma EscapedMatch(ns: string, appID: string, p: string, q: string, key: string) returns (tail: string)
    requires Plain(ns) && Plain(appID) && Plain(p)
    requires Matches(InstanceKeyPattern(ns, appID, p + ("\\%" + q)), key)
    ensures tail != "" && tail[0] == '%' && key == AppPrefix(ns, appID) + (p + tail)
  {
    var head, rest := AppPrefix(ns, appID) + p, "\\%" + (q + (DELIMITER + "%"));
    PlainAppPrefix(ns, appID);
    PlainAppend(AppPrefix(ns, appID), p);
    assert InstanceKeyPattern(ns, appID, p + ("\\%" + q)) == head + rest;
    MatchesPlain(head, rest, key);
    tail := key[|head|..];
  }
}
