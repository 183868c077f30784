/** "||"-joined state keys: pkg/statestore/keys.go and pkg/state/classify.go. */
module StateKeys {
  import opened Basics
  import opened Like

  const DELIMITER := "||"

  // ------------------------------------------------------- splitting and joining

  /** Where the first "||" of s starts. */
  function IndexOfDelimiter(s: string): (r: Option<nat>)
    ensures r.Some? ==> r.value + 2 <= |s| && s[r.value] == '|' && s[r.value + 1] == '|'
    ensures forall i :: 0 <= i < (if r.Some? then r.value else |s| - 1) ==> !(s[i] == '|' && s[i + 1] == '|')
  {
    if |s| < 2 then None
    else if s[0] == '|' && s[1] == '|' then Some(0)
    else
      match IndexOfDelimiter(s[1..])
      case None => None
      case Some(i) => Some(i + 1)
  }

  predicate HasDelimiter(s: string) {
    IndexOfDelimiter(s).Some?
  }

  /** strings.Split(s, "||"): cut at each delimiter, leftmost first. */
  function Split(s: string): (parts: seq<string>)
    ensures |parts| >= 1
    ensures |parts| == 1 <==> !HasDelimiter(s)
    decreases |s|
  {
    match IndexOfDelimiter(s)
    case None => [s]
    case Some(i) => [s[..i]] + Split(s[i + 2..])
  }

  /** strings.Join(parts, "||"). */
  function Join(parts: seq<string>): string {
    if parts == [] then ""
    else if |parts| == 1 then parts[0]
    else parts[0] + DELIMITER + Join(parts[1..])
  }

  lemma {:induction false} JoinSplit(s: string)
    ensures Join(Split(s)) == s
    decreases |s|
  {
    match IndexOfDelimiter(s)
    case None =>
    case Some(i) =>
      var rest := s[i + 2..];
      JoinSplit(rest);
      assert Split(s) == [s[..i]] + Split(rest);
      JoinCons(s[..i], Split(rest));
      CutRejoins(s, i);
  }

  lemma CutRejoins(s: string, i: nat)
    requires i + 2 <= |s| && s[i] == '|' && s[i + 1] == '|'
    ensures s[..i] + DELIMITER + s[i + 2..] == s
  {
  }

  lemma JoinCons(head: string, tail: seq<string>)
    requires tail != []
    ensures Join([head] + tail) == head + DELIMITER + Join(tail)
  {
    assert ([head] + tail)[1..] == tail;
  }

  /** The first delimiter of a + "||" + k is the one that was put there. */
  predicate CleanHead(a: string) {
    !HasDelimiter(a) && (a == "" || a[|a| - 1] != '|')
  }

  lemma IndexIsFirst(s: string, i: nat)
    requires i + 2 <= |s| && s[i] == '|' && s[i + 1] == '|'
    requires forall j :: 0 <= j < i ==> !(s[j] == '|' && s[j + 1] == '|')
    ensures IndexOfDelimiter(s) == Some(i)
  {
  }

  lemma SplitAfterHead(a: string, k: string)
    ensures CleanHead(a) ==> Split(a + DELIMITER + k) == [a] + Split(k)
    ensures Split(a + DELIMITER + k)[0] == a <==> CleanHead(a)
  {
    var s := a + DELIMITER + k;
    if CleanHead(a) {
      IndexIsFirst(s, |a|);
      assert s[..|a|] == a && s[|a| + 2..] == k;
    } else {
      var i := if HasDelimiter(a) then IndexOfDelimiter(a).value else |a| - 1;
      IndexIsFirst(s, i);
      assert Split(s)[0] == s[..i];
    }
  }

  // ------------------------------------------------------- workflow instance keys

  const SUFFIX_METADATA := "metadata"

  function WorkflowActorType(ns: string, appID: string): string {
    "dapr.internal." + ns + "." + appID + ".workflow"
  }

  function InstanceMetaPattern(ns: string, appID: string): string {
    appID + DELIMITER + WorkflowActorType(ns, appID) + DELIMITER + "%" + DELIMITER + SUFFIX_METADATA
  }

  function AllInstanceMetaPattern(ns: string): string {
    "%" + DELIMITER + "dapr.internal." + ns + "." + "%" + ".workflow" + DELIMITER + "%" + DELIMITER + SUFFIX_METADATA
  }

  function InstancePrefix(ns: string, appID: string, instanceID: string): string {
    appID + DELIMITER + WorkflowActorType(ns, appID) + DELIMITER + instanceID + DELIMITER
  }

  function InstanceKeyPattern(ns: string, appID: string, instanceID: string): string {
    InstancePrefix(ns, appID, instanceID) + "%"
  }

  function ParseAppID(key: string): Option<string> {
    var parts := Split(key);
    if |parts| < 3 || parts[0] == "" then None else Some(parts[0])
  }

  function ParseInstanceID(key: string): Option<string> {
    var parts := Split(key);
    if |parts| < 3 || parts[2] == "" then None else Some(parts[2])
  }

  predicate NoBar(s: string) {
    '|' !in s
  }

  /** Both ids of a key can be read back, whatever follows the prefix. */
  lemma ParseRecoversIds(ns: string, appID: string, instanceID: string, rest: string)
    requires NoBar(ns) && NoBar(appID) && NoBar(instanceID) && appID != "" && instanceID != ""
    ensures ParseAppID(InstancePrefix(ns, appID, instanceID) + rest) == Some(appID)
    ensures ParseInstanceID(InstancePrefix(ns, appID, instanceID) + rest) == Some(instanceID)
  {
    SplitInstanceKey(ns, appID, instanceID, rest);
  }

  lemma NoBarIsClean(s: string)
    requires NoBar(s)
    ensures CleanHead(s)
  {
    assert HasDelimiter(s) ==> '|' in s;
  }

  lemma ActorTypeNoBar(ns: string, appID: string)
    requires NoBar(ns) && NoBar(appID)
    ensures NoBar(WorkflowActorType(ns, appID))
  {
  }

  /** Three clean segments are cut off one by one. */
  lemma SplitThree(a: string, t: string, i: string, rest: string)
    requires NoBar(a) && NoBar(t) && NoBar(i)
    ensures Split(a + DELIMITER + (t + DELIMITER + (i + DELIMITER + rest))) == [a] + ([t] + ([i] + Split(rest)))
  {
    NoBarIsClean(a);
    NoBarIsClean(t);
    NoBarIsClean(i);
    SplitAfterHead(i, rest);
    SplitAfterHead(t, i + DELIMITER + rest);
    SplitAfterHead(a, t + DELIMITER + (i + DELIMITER + rest));
  }

  /** Regroups a key's segments from the left to the right. */
  lemma Regroup(a: string, t: string, i: string, d: string, rest: string)
    ensures a + d + t + d + i + d + rest == a + d + (t + d + (i + d + rest))
  {
  }

  lemma SplitInstanceKey(ns: string, appID: string, instanceID: string, rest: string)
    requires NoBar(ns) && NoBar(appID) && NoBar(instanceID)
    ensures Split(InstancePrefix(ns, appID, instanceID) + rest)
            == [appID] + ([WorkflowActorType(ns, appID)] + ([instanceID] + Split(rest)))
  {
    ActorTypeNoBar(ns, appID);
    SplitThree(appID, WorkflowActorType(ns, appID), instanceID, rest);
    Regroup(appID, WorkflowActorType(ns, appID), instanceID, DELIMITER, rest);
  }

  lemma ActorTypeGivesNamespace(ns: string, ns': string, appID: string)
    requires WorkflowActorType(ns, appID) == WorkflowActorType(ns', appID)
    ensures ns == ns'
  {
    var actor, actor' := WorkflowActorType(ns, appID), WorkflowActorType(ns', appID);
    assert |ns| == |ns'|;
    assert ns == actor[14..14 + |ns|] && ns' == actor'[14..14 + |ns|];
  }

  lemma SplitKeyWithPrefix(ns: string, appID: string, instanceID: string, key: string)
    requires NoBar(ns) && NoBar(appID) && NoBar(instanceID)
    requires StartsWith(key, InstancePrefix(ns, appID, instanceID))
    ensures |Split(key)| >= 4
    ensures Split(key)[0] == appID && Split(key)[1] == WorkflowActorType(ns, appID) && Split(key)[2] == instanceID
  {
    var rest := AfterPrefix(InstancePrefix(ns, appID, instanceID), key);
    SplitInstanceKey(ns, appID, instanceID, rest);
    FirstThree(Split(key), appID, WorkflowActorType(ns, appID), instanceID, Split(rest));
  }

  lemma AfterPrefix(p: string, key: string) returns (rest: string)
    requires StartsWith(key, p)
    ensures key == p + rest
  {
    rest := key[|p|..];
  }

  lemma FirstThree(segs: seq<string>, a: string, t: string, i: string, tail: seq<string>)
    requires segs == [a] + ([t] + ([i] + tail)) && tail != []
    ensures |segs| >= 4 && segs[0] == a && segs[1] == t && segs[2] == i
  {
  }

  /** No key belongs to two instances. */
  lemma PrefixesAreDisjoint(
    ns: string, appID: string, instanceID: string, ns': string, appID': string, instanceID': string, key: string)
    requires NoBar(ns) && NoBar(appID) && NoBar(instanceID) && NoBar(ns') && NoBar(appID') && NoBar(instanceID')
    requires StartsWith(key, InstancePrefix(ns, appID, instanceID))
             && StartsWith(key, InstancePrefix(ns', appID', instanceID'))
    ensures ns == ns' && appID == appID' && instanceID == instanceID'
  {
    SplitKeyWithPrefix(ns, appID, instanceID, key);
    SplitKeyWithPrefix(ns', appID', instanceID', key);
    ActorTypeGivesNamespace(ns, ns', appID);
  }

  /** The ids are interpolated raw, so the pattern is exact if and only if all three are plain. */
  lemma InstancePatternExactIffPlain(ns: string, appID: string, instanceID: string)
    ensures (forall key :: Matches(InstanceKeyPattern(ns, appID, instanceID), key)
                           <==> StartsWith(key, InstancePrefix(ns, appID, instanceID)))
            <==> Plain(ns) && Plain(appID) && Plain(instanceID)
  {
    var prefix := InstancePrefix(ns, appID, instanceID);
    var body := appID + DELIMITER + WorkflowActorType(ns, appID) + DELIMITER + instanceID;
    assert prefix == body + DELIMITER;
    DelimiterCompletesEscape(body);
    RawPrefixExactIffPlain(prefix);
    PlainPrefix(ns, appID, instanceID);
  }

  lemma PlainAppend(s: string, t: string)
    ensures Plain(s + t) <==> Plain(s) && Plain(t)
  {
    if Plain(s + t) {
      forall i | 0 <= i < |s| ensures !Special(s[i]) {
        assert (s + t)[i] == s[i];
      }
      forall i | 0 <= i < |t| ensures !Special(t[i]) {
        assert (s + t)[|s| + i] == t[i];
      }
    }
  }

  lemma PlainPrefix(ns: string, appID: string, instanceID: string)
    ensures Plain(InstancePrefix(ns, appID, instanceID)) <==> Plain(ns) && Plain(appID) && Plain(instanceID)
  {
    var actor := WorkflowActorType(ns, appID);
    PlainActorType(ns, appID);
    PlainAppend(appID, DELIMITER);
    PlainAppend(appID + DELIMITER, actor);
    PlainAppend(appID + DELIMITER + actor, DELIMITER);
    PlainAppend(appID + DELIMITER + actor + DELIMITER, instanceID);
    PlainAppend(appID + DELIMITER + actor + DELIMITER + instanceID, DELIMITER);
  }

  lemma PlainActorType(ns: string, appID: string)
    ensures Plain(WorkflowActorType(ns, appID)) <==> Plain(ns) && Plain(appID)
  {
    var dapr, dot, wf := "dapr.internal.", ".", ".workflow";
    PlainAppend(dapr, ns);
    PlainAppend(dapr + ns, dot);
    PlainAppend(dapr + ns + dot, appID);
    PlainAppend(dapr + ns + dot + appID, wf);
  }

  /** The part of a metadata key before the instance id. */
  function AppPrefix(ns: string, appID: string): string {
    appID + DELIMITER + WorkflowActorType(ns, appID) + DELIMITER
  }

  lemma PlainAppPrefix(ns: string, appID: string)
    ensures Plain(AppPrefix(ns, appID)) <==> Plain(ns) && Plain(appID)
    ensures WellEscaped(AppPrefix(ns, appID))
  {
    PlainPrefix(ns, appID, "");
    assert InstancePrefix(ns, appID, "") == AppPrefix(ns, appID) + DELIMITER;
    PlainAppend(AppPrefix(ns, appID), DELIMITER);
    DelimiterCompletesEscape(appID + DELIMITER + WorkflowActorType(ns, appID));
  }

  /** A metadata key of the app, whatever its instance id. */
  ghost predicate IsMetaKey(ns: string, appID: string, key: string) {
    Around(AppPrefix(ns, appID), DELIMITER + SUFFIX_METADATA, key)
  }

  /** The listing pattern selects exactly the app's metadata keys if and only if namespace and app id are plain. */
  lemma MetaPatternExactIffPlain(ns: string, appID: string)
    ensures (forall key :: Matches(InstanceMetaPattern(ns, appID), key) <==> IsMetaKey(ns, appID, key))
            <==> Plain(ns) && Plain(appID)
  {
    PlainAppPrefix(ns, appID);
    var t, u := AppPrefix(ns, appID), DELIMITER + SUFFIX_METADATA;
    RawAroundExactIffPlain(t, u);
    assert InstanceMetaPattern(ns, appID) == t + ("%" + u);
  }

  lemma HoleGroups(p: string, c: string, q: string, ns: string, x: string)
    ensures AppPrefix(ns, p + c + q) + x
            == p + (c + (q + DELIMITER + "dapr.internal." + ns + "." + p + (c + (q + ".workflow" + DELIMITER + x))))
  {
  }

  /** An app id with '_' in it: the pattern also selects the metadata keys of every app that differs there. */
  lemma UnderscoreSelectsOtherApps(ns: string, p: string, c: char, q: string, instanceID: string)
    requires Plain(ns) && Plain(p) && Plain(q)
    ensures Matches(
              InstanceMetaPattern(ns, p + "_" + q),
              AppPrefix(ns, p + [c] + q) + (instanceID + DELIMITER + SUFFIX_METADATA))
  {
    var u := DELIMITER + SUFFIX_METADATA;
    var mid, tail := q + DELIMITER + "dapr.internal." + ns + "." + p, q + ".workflow" + DELIMITER;
    HoleGroups(p, "_", q, ns, "%" + u);
    HoleGroups(p, [c], q, ns, instanceID + u);
    assert instanceID + u == instanceID + DELIMITER + SUFFIX_METADATA;
    assert InstanceMetaPattern(ns, p + "_" + q) == AppPrefix(ns, p + "_" + q) + ("%" + u);
    PlainPieces(ns, p, q);
    MatchesSuffix(u, instanceID + u);
    MatchesPlain(tail, "%" + u, tail + (instanceID + u));
    assert (tail + (instanceID + u))[|tail|..] == instanceID + u;
    MatchesHole(mid, c, tail + ("%" + u), tail + (instanceID + u));
    MatchesHole(p, c, mid + ("_" + (tail + ("%" + u))), mid + ([c] + (tail + (instanceID + u))));
  }

  lemma PlainPieces(ns: string, p: string, q: string)
    requires Plain(ns) && Plain(p) && Plain(q)
    ensures Plain(q + DELIMITER + "dapr.internal." + ns + "." + p) && Plain(q + ".workflow" + DELIMITER)
  {
    PlainAppend(q, DELIMITER);
    PlainAppend(q + DELIMITER, "dapr.internal.");
    PlainAppend(q + DELIMITER + "dapr.internal.", ns);
    PlainAppend(q + DELIMITER + "dapr.internal." + ns, ".");
    PlainAppend(q + DELIMITER + "dapr.internal." + ns + ".", p);
    PlainAppend(q, ".workflow");
    PlainAppend(q + ".workflow", DELIMITER);
  }

  // ------------------------------------------------------- classification

  datatype Kind = App | Workflow | Actor

  datatype KeyParts = KeyParts(appID: string, logicalKey: string, kind: Kind)

  function ComposeKey(appID: string, key: string): string {
    appID + DELIMITER + key
  }

  function Classify(key: string): KeyParts {
    var segs := Split(key);
    if |segs| < 2 then KeyParts("", key, App)
    else if |segs| == 2 then KeyParts(segs[0], segs[1], App)
    else KeyParts(segs[0], Join(segs[1..]), if StartsWith(segs[1], "dapr.internal.") then Workflow else Actor)
  }

  /** A key that has a prefix at all is its parts joined again. */
  lemma ClassifyLosesNothing(key: string)
    requires HasDelimiter(key)
    ensures ComposeKey(Classify(key).appID, Classify(key).logicalKey) == key
  {
    JoinSplit(key);
    var segs := Split(key);
    if |segs| == 2 {
      assert Join(segs[1..]) == segs[1];
    }
  }

  /** classify undoes ComposeKey exactly for parts that the delimiter cannot straddle. */
  lemma ClassifyInvertsCompose(appID: string, key: string)
    ensures Classify(ComposeKey(appID, key)) == KeyParts(appID, key, App)
            <==> !HasDelimiter(appID) && !HasDelimiter(key) && (appID == "" || appID[|appID| - 1] != '|')
  {
    IndexOfAnyDelimiter(appID, key);
    ClassifyHead(ComposeKey(appID, key));
    if CleanHead(appID) {
      ComposedParts(appID, key);
      ClassifyTwo(ComposeKey(appID, key), appID, Split(key));
    } else {
      SplitAfterHead(appID, key);
    }
  }

  lemma ClassifyHead(key: string)
    requires HasDelimiter(key)
    ensures Classify(key).appID == Split(key)[0]
  {
  }

  lemma ClassifyTwo(key: string, appID: string, tail: seq<string>)
    requires tail != [] && Split(key) == [appID] + tail
    ensures Classify(key).kind == App <==> |tail| == 1
    ensures |tail| == 1 ==> Classify(key) == KeyParts(appID, tail[0], App)
  {
  }

  lemma ComposedParts(appID: string, key: string)
    requires CleanHead(appID)
    ensures Split(ComposeKey(appID, key)) == [appID] + Split(key)
    ensures |Split(key)| == 1 <==> !HasDelimiter(key)
    ensures !HasDelimiter(key) ==> Split(key) == [key]
  {
    SplitAfterHead(appID, key);
  }

  lemma IndexOfAnyDelimiter(a: string, k: string)
    ensures HasDelimiter(a + DELIMITER + k)
  {
    var s := a + DELIMITER + k;
    assert s[|a|] == '|' && s[|a| + 1] == '|';
  }

  /** The key has two delimiters, one after the other. */
  ghost predicate TwoDelimiters(key: string) {
    exists a, b, c :: key == a + DELIMITER + (b + (DELIMITER + c))
  }

  /** The first delimiter is followed by "dapr.internal.", and that by another delimiter. */
  ghost predicate ActorKey(key: string) {
    exists a, b, c :: CleanHead(a) && key == a + DELIMITER + ("dapr.internal." + b + (DELIMITER + c))
  }

  lemma DelimiterInside(b: string, c: string)
    ensures HasDelimiter(b + (DELIMITER + c))
  {
    var s := b + (DELIMITER + c);
    assert s[|b|] == '|' && s[|b| + 1] == '|';
  }

  lemma ThreeSegments(key: string)
    ensures |Split(key)| >= 3 <==> TwoDelimiters(key)
  {
    if |Split(key)| >= 3 {
      var a, rest := FirstCut(key);
      var b, c := FirstCut(rest);
    }
    if a, b, c :| key == a + DELIMITER + (b + (DELIMITER + c)) {
      DelimiterLater(a, b, c);
    }
  }

  /** The first segment and what follows the delimiter. */
  lemma FirstCut(key: string) returns (a: string, rest: string)
    requires HasDelimiter(key)
    ensures key == a + DELIMITER + rest && key == a + (DELIMITER + rest) && CleanHead(a)
    ensures Split(key) == [a] + Split(rest)
  {
    var i := IndexOfDelimiter(key).value;
    a, rest := key[..i], key[i + 2..];
    CutAt(key, i);
    SplitAfterHead(a, rest);
  }

  lemma CutAt(key: string, i: nat)
    requires i + 2 <= |key| && key[i] == '|' && key[i + 1] == '|'
    ensures key == key[..i] + DELIMITER + key[i + 2..] && key == key[..i] + (DELIMITER + key[i + 2..])
  {
  }

  lemma DelimiterLater(a: string, b: string, c: string)
    ensures |Split(a + DELIMITER + (b + (DELIMITER + c)))| >= 3
  {
    var key, tail := a + DELIMITER + (b + (DELIMITER + c)), b + (DELIMITER + c);
    IndexOfAnyDelimiter(a, tail);
    var i := IndexOfDelimiter(key).value;
    assert key[|a|] == '|' && key[|a| + 1] == '|';
    assert i <= |a|;
    var rest := key[i + 2..];
    assert rest == key[i + 2..|a| + 2] + tail;
    assert rest == key[i + 2..|a| + 2] + b + (DELIMITER + c);
    DelimiterInside(key[i + 2..|a| + 2] + b, c);
  }

  lemma StartsInternal(b: string, tail: string)
    ensures StartsWith(Split("dapr.internal." + b + (DELIMITER + tail))[0], "dapr.internal.")
  {
    var s := "dapr.internal." + b + (DELIMITER + tail);
    DelimiterInside("dapr.internal." + b, tail);
    var i := IndexOfDelimiter(s).value;
    assert s[..14] == "dapr.internal.";
    assert forall k :: 0 <= k < 14 ==> s[k] == "dapr.internal."[k];
    assert s[i] == '|' && i >= 14;
    assert s[..i][..14] == "dapr.internal.";
  }

  lemma KindBySegments(key: string)
    ensures Classify(key).kind == Workflow <==> |Split(key)| >= 3 && StartsWith(Split(key)[1], "dapr.internal.")
  {
  }

  lemma WorkflowIsActorKey(key: string)
    requires |Split(key)| >= 3 && StartsWith(Split(key)[1], "dapr.internal.")
    ensures ActorKey(key)
  {
    var a, rest := FirstCut(key);
    var b, c := SecondCut(key, a, rest);
    var b' := AfterPrefix("dapr.internal.", b);
    IsActorKey(key, a, b', b, c);
  }

  lemma SecondCut(key: string, a: string, rest: string) returns (b: string, c: string)
    requires Split(key) == [a] + Split(rest) && |Split(key)| >= 3
    ensures rest == b + (DELIMITER + c) && Split(key)[1] == b
  {
    b, c := FirstCut(rest);
    SecondSegment(Split(key), a, b, Split(c));
  }

  lemma SecondSegment(segs: seq<string>, a: string, b: string, tail: seq<string>)
    requires segs == [a] + ([b] + tail)
    ensures |segs| >= 2 && segs[1] == b
  {
  }

  lemma IsActorKey(key: string, a: string, b: string, whole: string, c: string)
    requires CleanHead(a) && whole == "dapr.internal." + b && key == a + DELIMITER + (whole + (DELIMITER + c))
    ensures ActorKey(key)
  {
  }

  lemma ActorKeyIsWorkflow(a: string, b: string, c: string)
    requires CleanHead(a)
    ensures Classify(a + DELIMITER + ("dapr.internal." + b + (DELIMITER + c))).kind == Workflow
  {
    var rest := "dapr.internal." + b + (DELIMITER + c);
    SplitAfterHead(a, rest);
    DelimiterInside("dapr.internal." + b, c);
    StartsInternal(b, c);
    KindOfSegments(a + DELIMITER + rest, a, Split(rest));
  }

  lemma KindOfSegments(key: string, a: string, segs: seq<string>)
    requires Split(key) == [a] + segs && |segs| >= 2 && StartsWith(segs[0], "dapr.internal.")
    ensures Classify(key).kind == Workflow
  {
  }

  /** What a key is taken for, by its delimiters alone. */
  lemma ClassifyKindIff(key: string)
    ensures Classify(key).kind == App <==> !TwoDelimiters(key)
    ensures Classify(key).kind == Workflow <==> ActorKey(key)
  {
    ThreeSegments(key);
    KindBySegments(key);
    if Classify(key).kind == Workflow {
      WorkflowIsActorKey(key);
    }
    if a, b, c :| CleanHead(a) && key == a + DELIMITER + ("dapr.internal." + b + (DELIMITER + c)) {
      ActorKeyIsWorkflow(a, b, c);
    }
  }

  /** The keys of workflow instances are taken for such. */
  lemma InstanceKeysAreWorkflow(ns: string, appID: string, instanceID: string, rest: string)
    requires NoBar(appID)
    ensures Classify(InstancePrefix(ns, appID, instanceID) + rest).kind == Workflow
  {
    var actor, tail := WorkflowActorType(ns, appID), instanceID + DELIMITER + rest;
    NoBarIsClean(appID);
    Regroup(appID, actor, instanceID, DELIMITER, rest);
    ActorGroups(ns, appID);
    Assoc(actor, DELIMITER, tail);
    ActorKeyIsWorkflow(appID, ns + "." + appID + ".workflow", tail);
  }

  lemma ActorGroups(ns: string, appID: string)
    ensures WorkflowActorType(ns, appID) == "dapr.internal." + (ns + "." + appID + ".workflow")
  {
  }

  /** The input check of the create handler (pkg/server/state.go:99-108). */
  predicate CreateAccepted(appID: string, key: string) {
    appID != "" && key != "" && !HasDelimiter(appID) && !HasDelimiter(key)
  }

  /** Of the accepted records, exactly those whose app id ends in '|' are listed under wrong parts. */
  lemma AcceptedRecordsReadBack(appID: string, key: string)
    requires CreateAccepted(appID, key)
    ensures Classify(ComposeKey(appID, key)) == KeyParts(appID, key, App) <==> appID[|appID| - 1] != '|'
  {
    ClassifyInvertsCompose(appID, key);
  }
}
