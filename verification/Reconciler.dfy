/**
 * Electing the active store and keeping it in sight: cmd/workflow.go and cmd/reconciler.go.
 * The calls run one at a time. The disk, and what an address reads as, come from the outside;
 * opening and evicting pooled connections is ConnPool's.
 */
module Reconciler {
  import opened Basics
  import opened Like
  import opened Registry
  import opened Detection

  // ------------------------------------------------------- identity

  /** What a call finds outside: the files, the text an address is shown as, and which paths lie under which. */
  datatype World = World(
    disk: Disk,
    address: (string, string, map<string, string>) -> string,
    under: (string, string) -> bool)

  /** The metadata that ConnInfo (pkg/statestore/conninfo.go) reads for a type of store. */
  function ConnKeys(kind: string): set<string> {
    if kind == "state.redis" then {"redisHost"}
    else if kind == "state.sqlite" || kind == "state.postgresql" || kind == "state.postgres" then {"connectionString"}
    else if kind == "state.mongodb" then {"host", "server", "databaseName"}
    else {}
  }

  function Value(metadata: map<string, string>, key: string): string {
    if key in metadata then metadata[key] else ""
  }

  function ConnValues(c: Comp): map<string, string> {
    map k | k in ConnKeys(c.kind) :: Value(c.metadata, k)
  }

  /** Name, type, and the translated, secrets-free address, which depends on the connection values. */
  function Identity(w: World, c: Comp): string {
    c.name + "|" + c.kind + "|" + w.address(c.kind, c.path, ConnValues(c))
  }

  lemma BarSplits(a: string, b: string, rest: string, rest': string)
    requires '|' !in a && '|' !in b && a + "|" + rest == b + "|" + rest'
    ensures a == b && rest == rest'
  {
    var s := a + "|" + rest;
    assert s[|a|] == '|' && s[|b|] == '|';
    assert forall i :: 0 <= i < |a| ==> s[i] == a[i] && a[i] in a;
    assert forall i :: 0 <= i < |b| ==> s[i] == b[i] && b[i] in b;
    assert |a| == |b|;
    assert a == s[..|a|] && b == s[..|b|] && rest == s[|a| + 1..] && rest' == s[|b| + 1..];
  }

  /** Names and types without bars: two stores have one identity exactly when name, type and address agree. */
  lemma IdentitySeparatesIff(w: World, a: Comp, b: Comp)
    requires '|' !in a.name && '|' !in a.kind && '|' !in b.name && '|' !in b.kind
    ensures Identity(w, a) == Identity(w, b) <==>
              && a.name == b.name && a.kind == b.kind
              && w.address(a.kind, a.path, ConnValues(a)) == w.address(b.kind, b.path, ConnValues(b))
  {
    var x, y := w.address(a.kind, a.path, ConnValues(a)), w.address(b.kind, b.path, ConnValues(b));
    assert Identity(w, a) == a.name + "|" + (a.kind + "|" + x) && Identity(w, b) == b.name + "|" + (b.kind + "|" + y);
    if Identity(w, a) == Identity(w, b) {
      BarSplits(a.name, b.name, a.kind + "|" + x, b.kind + "|" + y);
      BarSplits(a.kind, b.kind, x, y);
    }
  }

  // ------------------------------------------------------- election

  predicate Covers(env: Env, parent: string, child: string) {
    env.norm(child) == env.norm(parent) || StartsWith(env.norm(child), env.norm(parent) + "/")
  }

  predicate PathUnder(env: Env, child: string, parents: seq<string>) {
    child != "" && exists i :: 0 <= i < |parents| && Covers(env, parents[i], child)
  }

  predicate Actor(c: Comp) {
    Value(c.metadata, "actorStateStore") == "true"
  }

  datatype Inputs = Inputs(loaded: set<string>, appPaths: seq<string>)

  predicate AppProvided(env: Env, c: Comp, inputs: Inputs) {
    c.name in inputs.loaded && PathUnder(env, c.path, inputs.appPaths)
  }

  /** The election's precedence: the lower the better. */
  function Rank(env: Env, c: Comp, inputs: Inputs): nat {
    if AppProvided(env, c, inputs) then (if Actor(c) then 1 else 2)
    else if c.name in inputs.loaded then (if Actor(c) then 3 else 4)
    else if Actor(c) then 5
    else 6
  }

  /** i is the first of the components of least rank. */
  ghost predicate Wins(env: Env, comps: seq<Comp>, inputs: Inputs, i: nat) {
    && i < |comps|
    && (forall j :: 0 <= j < |comps| ==> Rank(env, comps[i], inputs) <= Rank(env, comps[j], inputs))
    && (forall j :: 0 <= j < i ==> Rank(env, comps[i], inputs) < Rank(env, comps[j], inputs))
  }

  /** One of the election's loops. */
  method FirstWhere(comps: seq<Comp>, p: Comp -> bool) returns (r: Option<nat>)
    ensures r.Some? ==> r.value < |comps| && p(comps[r.value]) && forall j :: 0 <= j < r.value ==> !p(comps[j])
    ensures r.None? ==> forall j :: 0 <= j < |comps| ==> !p(comps[j])
  {
    for i := 0 to |comps|
      invariant forall j :: 0 <= j < i ==> !p(comps[j])
    {
      if p(comps[i]) {
        return Some(i);
      }
    }
    r := None;
  }

  lemma WinnerIsUnique(env: Env, comps: seq<Comp>, inputs: Inputs, i: nat, j: nat)
    requires Wins(env, comps, inputs, i) && Wins(env, comps, inputs, j)
    ensures i == j
  {
    var a, b := Rank(env, comps[i], inputs), Rank(env, comps[j], inputs);
    assert a <= b && b <= a;
  }

  /** The election as a function: compare each component with the winner of the rest. */
  function Winner(env: Env, comps: seq<Comp>, inputs: Inputs): (i: nat)
    requires comps != []
    ensures Wins(env, comps, inputs, i)
  {
    if |comps| == 1 then 0
    else
      var k := Winner(env, comps[1..], inputs);
      assert forall j :: 0 < j < |comps| ==> comps[j] == comps[1..][j - 1];
      if Rank(env, comps[0], inputs) <= Rank(env, comps[k + 1], inputs) then 0 else k + 1
  }

  function Active(env: Env, comps: seq<Comp>, inputs: Inputs): Option<Comp> {
    if comps == [] then None else Some(comps[Winner(env, comps, inputs)])
  }

  /** newStoreRegistry: the index of the active component. */
  method Elect(env: Env, comps: seq<Comp>, inputs: Inputs) returns (active: Option<nat>)
    ensures active.None? <==> comps == []
    ensures active.Some? ==>
      Wins(env, comps, inputs, active.value) && Active(env, comps, inputs) == Some(comps[active.value])
  {
    if |comps| == 0 {
      return None;
    }
    forall i: nat | Wins(env, comps, inputs, i) ensures i == Winner(env, comps, inputs) {
      WinnerIsUnique(env, comps, inputs, i, Winner(env, comps, inputs));
    }
    active := FirstWhere(comps, (c: Comp) => AppProvided(env, c, inputs) && Actor(c));
    if active.Some? { return; }
    active := FirstWhere(comps, (c: Comp) => AppProvided(env, c, inputs));
    if active.Some? { return; }
    active := FirstWhere(comps, (c: Comp) => c.name in inputs.loaded && Actor(c));
    if active.Some? { return; }
    active := FirstWhere(comps, (c: Comp) => c.name in inputs.loaded);
    if active.Some? { return; }
    active := FirstWhere(comps, (c: Comp) => Actor(c));
    if active.Some? { return; }
    active := Some(0);
  }

  /** Both or neither provided by a running app, and both or neither loaded. */
  predicate SameClass(env: Env, a: Comp, b: Comp, inputs: Inputs) {
    && (a.name in inputs.loaded <==> b.name in inputs.loaded)
    && (a.name in inputs.loaded ==> PathUnder(env, a.path, inputs.appPaths) == PathUnder(env, b.path, inputs.appPaths))
  }

  predicate ForActors(c: Comp) {
    "actorStateStore" in c.metadata && c.metadata["actorStateStore"] == "true"
  }

  /**
   * The elected store is one that a running app provides if there is one, else one that is loaded
   * if there is one; among those one for actors if there is one; and the first that remains.
   */
  lemma ElectedPrecedence(env: Env, comps: seq<Comp>, inputs: Inputs)
    requires comps != []
    ensures exists k ::
              0 <= k < |comps| && Active(env, comps, inputs) == Some(comps[k]) && Preferred(env, comps, inputs, k)
  {
    var k := Winner(env, comps, inputs);
    var c := comps[k];
    assert Wins(env, comps, inputs, k);
    forall j | 0 <= j < |comps| ensures Rank(env, c, inputs) <= Rank(env, comps[j], inputs) {
    }
    assert Preferred(env, comps, inputs, k);
  }

  ghost predicate Preferred(env: Env, comps: seq<Comp>, inputs: Inputs, k: nat)
    requires k < |comps|
  {
    var c := comps[k];
    && (forall d :: d in comps && d.name in inputs.loaded ==> c.name in inputs.loaded)
    && (forall d :: d in comps && d.name in inputs.loaded && PathUnder(env, d.path, inputs.appPaths) ==>
         PathUnder(env, c.path, inputs.appPaths))
    && (forall d :: d in comps && SameClass(env, d, c, inputs) && ForActors(d) ==> ForActors(c))
    && (forall j :: 0 <= j < k && SameClass(env, comps[j], c, inputs) ==> ForActors(comps[j]) != ForActors(c))
  }

  /** The normal form of the child is the parent's, or goes on from it after a slash. */
  predicate GoesOnFrom(env: Env, child: string, parent: string, rest: string) {
    env.norm(child) == env.norm(parent) + rest && (rest == "" || rest[0] == '/')
  }

  /** Which paths count as lying under one of the others; the empty one under none. */
  lemma PathUnderIff(env: Env, child: string, parents: seq<string>)
    ensures PathUnder(env, child, parents) <==>
              child != "" && exists p, rest :: p in parents && GoesOnFrom(env, child, p, rest)
  {
    if PathUnder(env, child, parents) {
      var i :| 0 <= i < |parents| && Covers(env, parents[i], child);
      var np, nc := env.norm(parents[i]), env.norm(child);
      assert nc == np + nc[|np|..];
      assert parents[i] in parents && GoesOnFrom(env, child, parents[i], nc[|np|..]);
    }
    if p, rest :| child != "" && p in parents && GoesOnFrom(env, child, p, rest) {
      GoesOn(env, child, p, rest);
      var i :| 0 <= i < |parents| && parents[i] == p;
      assert Covers(env, parents[i], child);
    }
  }

  lemma GoesOn(env: Env, child: string, parent: string, rest: string)
    requires GoesOnFrom(env, child, parent, rest)
    ensures Covers(env, parent, child)
  {
    if rest == "" {
      assert env.norm(parent) + "" == env.norm(parent);
    } else {
      assert rest == "/" + rest[1..];
      assert env.norm(child) == env.norm(parent) + "/" + rest[1..];
    }
  }

  // ------------------------------------------------------- the backend's operations

  datatype State = State(entries: seq<Entry>, elected: Option<Comp>, closed: bool)

  datatype Action =
    | Reconcile(detected: seq<Comp>, inputs: Inputs, now: int)
    | AddStore(name: string, kind: string, metadata: map<string, string>, now: int)
    | UpdateStore(id: string, name: string, kind: string, metadata: map<string, string>, now: int)
    | DeleteStore(id: string, w: World)
    | Close

  function AutoEntry(c: Comp): Entry {
    Entry("", c.name, c.kind, Auto, c.path, map[], 0, false)
  }

  function ManualEntry(id: string, name: string, kind: string, metadata: map<string, string>): Entry {
    Entry(id, name, kind, Manual, "", metadata, 0, false)
  }

  function Upserts(detected: seq<Comp>, now: int): seq<Op> {
    if detected == [] then [] else [UpsertAuto(AutoEntry(detected[0]), now)] + Upserts(detected[1..], now)
  }

  predicate Rescued(env: Env, c: Comp, inputs: Inputs) {
    c.path != "" && c.name in inputs.loaded && PathUnder(env, c.path, inputs.appPaths)
  }

  function Rescues(env: Env, detected: seq<Comp>, inputs: Inputs, now: int): seq<Op> {
    if detected == [] then []
    else
      (if Rescued(env, detected[0], inputs) then [Undismiss(detected[0].path, now)] else [])
      + Rescues(env, detected[1..], inputs, now)
  }

  function RescueActive(active: Option<Comp>, now: int): seq<Op> {
    if active.Some? && active.value.path != "" then [Undismiss(active.value.path, now)] else []
  }

  /** The registry after a reconcile: upsert all, undismiss the active store, undismiss what apps provide. */
  function Reconciled(env: Env, es: seq<Entry>, detected: seq<Comp>, inputs: Inputs, now: int): seq<Entry> {
    var es1 := Run(env, es, Upserts(detected, now));
    var es2 := Run(env, es1, RescueActive(Active(env, detected, inputs), now));
    Run(env, es2, Rescues(env, detected, inputs, now))
  }

  function HasId(id: string): Entry -> bool {
    (e: Entry) => e.id == id
  }

  /** The component an entry stands for: componentForEntry, detected and resolved along the entry's own path. */
  function ComponentForEntry(w: World, e: Entry): Comp {
    if e.source == Manual then Comp(e.name, e.kind, "", e.metadata, map[], "")
    else FirstMatch(w, e, Resolved(w.disk, [e.path]))
  }

  function FirstMatch(w: World, e: Entry, comps: seq<Comp>): Comp {
    if comps == [] then Comp(e.name, e.kind, e.path, map[], map[], "")
    else if comps[0].path == e.path || (comps[0].name == e.name && w.under(comps[0].path, e.path)) then comps[0]
    else FirstMatch(w, e, comps[1..])
  }

  /** The component's file is the entry's, or it has the entry's name and lies under the entry's path. */
  predicate Fits(w: World, e: Entry, c: Comp) {
    c.path == e.path || (c.name == e.name && w.under(c.path, e.path))
  }

  /** c is the first of the components that fits, or a bare component if none does. */
  ghost predicate FirstFit(w: World, e: Entry, comps: seq<Comp>, c: Comp) {
    || (&& c == Comp(e.name, e.kind, e.path, map[], map[], "")
        && forall i :: 0 <= i < |comps| ==> !Fits(w, e, comps[i]))
    || exists i ::
         0 <= i < |comps| && c == comps[i] && Fits(w, e, c) && forall j :: 0 <= j < i ==> !Fits(w, e, comps[j])
  }

  lemma {:induction false} FirstMatchIs(w: World, e: Entry, comps: seq<Comp>)
    ensures FirstFit(w, e, comps, FirstMatch(w, e, comps))
  {
    if comps != [] && !Fits(w, e, comps[0]) {
      var rest, c := comps[1..], FirstMatch(w, e, comps[1..]);
      FirstMatchIs(w, e, rest);
      assert forall i :: 0 < i < |comps| ==> comps[i] == rest[i - 1];
      if i :| 0 <= i < |rest| && c == rest[i] && Fits(w, e, c) && forall j :: 0 <= j < i ==> !Fits(w, e, rest[j]) {
        assert c == comps[i + 1];
      }
    }
  }

  /**
   * What an entry reads as: a manual one as its own metadata says; an auto one as the first component
   * found and resolved along its path that fits it.
   */
  lemma EntryReadsAs(w: World, e: Entry)
    ensures e.source == Manual ==> ComponentForEntry(w, e) == Comp(e.name, e.kind, "", e.metadata, map[], "")
    ensures e.source == Auto ==>
              var stores := DetectSecretStores(w.disk, [e.path]);
              FirstFit(w, e, ResolveAll(w.disk, Detect(w.disk, [e.path]), stores), ComponentForEntry(w, e))
  {
    FirstMatchIs(w, e, Resolved(w.disk, [e.path]));
  }

  /** DeleteStore refuses: the entry's component is the elected one, by identity. */
  predicate Refused(w: World, es: seq<Entry>, elected: Option<Comp>, id: string) {
    && elected.Some?
    && First(HasId(id), es).Some?
    && Identity(w, ComponentForEntry(w, es[First(HasId(id), es).value])) == Identity(w, elected.value)
  }

  function Step(env: Env, s: State, a: Action): State {
    match a
    case Reconcile(detected, inputs, now) =>
      s.(entries := Reconciled(env, s.entries, detected, inputs, now),
         elected := if s.closed then s.elected else Active(env, detected, inputs))
    case AddStore(name, kind, metadata, now) =>
      s.(entries := Apply(env, s.entries, Add(ManualEntry("", name, kind, metadata), now)))
    case UpdateStore(id, name, kind, metadata, now) =>
      s.(entries := Apply(env, s.entries, Update(ManualEntry(id, name, kind, metadata), now)))
    case DeleteStore(id, w) =>
      if Refused(w, s.entries, s.elected, id) then s else s.(entries := Apply(env, s.entries, Delete(id)))
    case Close => s.(closed := true)
  }

  function Exec(env: Env, s: State, actions: seq<Action>): State
    decreases |actions|
  {
    if actions == [] then s else Exec(env, Step(env, s, actions[0]), actions[1..])
  }

  // ------------------------------------------------------- what a reconcile leaves visible

  predicate ProperPaths(env: Env, detected: seq<Comp>) {
    forall i :: 0 <= i < |detected| ==> ProperPath(env, detected[i].path)
  }

  /** None of these operations sets a tombstone. */
  predicate Harmless(env: Env, ops: seq<Op>) {
    forall i :: 0 <= i < |ops| ==> OpOk(env, ops[i]) && !ops[i].Delete? && (ops[i].UpsertAuto? ==> !ops[i].e.dismissed)
  }

  predicate Clears(env: Env, op: Op, key: string) {
    op.Undismiss? && env.norm(op.path) == key
  }

  lemma HarmlessStep(env: Env, es: seq<Entry>, op: Op, key: string)
    requires Injective(env) && Keyed(env, es) && Harmless(env, [op])
    ensures Keyed(env, Apply(env, es, op))
    ensures Tombstoned(env, Apply(env, es, op), key) <==> Tombstoned(env, es, key) && !Clears(env, op, key)
  {
    assert [op][0] == op;
    KeyedStep(env, es, op);
    TombstoneStep(env, es, op, key);
  }

  lemma HarmlessParts(env: Env, ops: seq<Op>, key: string)
    requires ops != []
    ensures Harmless(env, ops) ==> Harmless(env, [ops[0]]) && Harmless(env, ops[1..])
    ensures (forall i :: 0 <= i < |ops| ==> !Clears(env, ops[i], key))
            <==> !Clears(env, ops[0], key) && forall i :: 0 <= i < |ops[1..]| ==> !Clears(env, ops[1..][i], key)
  {
    assert forall i :: 0 < i < |ops| ==> ops[i] == ops[1..][i - 1];
  }

  lemma {:induction false} HarmlessRun(env: Env, es: seq<Entry>, ops: seq<Op>, key: string)
    requires Injective(env) && Keyed(env, es) && Harmless(env, ops)
    ensures Keyed(env, Run(env, es, ops))
    ensures Tombstoned(env, Run(env, es, ops), key)
            <==> Tombstoned(env, es, key) && forall i :: 0 <= i < |ops| ==> !Clears(env, ops[i], key)
    decreases |ops|
  {
    if ops != [] {
      HarmlessParts(env, ops, key);
      HarmlessStep(env, es, ops[0], key);
      HarmlessRun(env, Apply(env, es, ops[0]), ops[1..], key);
    }
  }

  lemma {:induction false} UpsertsAreHarmless(env: Env, detected: seq<Comp>, now: int)
    requires ProperPaths(env, detected)
    ensures Harmless(env, Upserts(detected, now))
    ensures forall i :: 0 <= i < |Upserts(detected, now)| ==> Upserts(detected, now)[i].UpsertAuto?
  {
    if detected != [] {
      UpsertsAreHarmless(env, detected[1..], now);
    }
  }

  lemma {:induction false} RescuesReach(env: Env, detected: seq<Comp>, inputs: Inputs, now: int, c: Comp)
    ensures Harmless(env, Rescues(env, detected, inputs, now))
    ensures c in detected && Rescued(env, c, inputs) ==> Undismiss(c.path, now) in Rescues(env, detected, inputs, now)
  {
    if detected != [] {
      RescuesReach(env, detected[1..], inputs, now, c);
    }
  }

  predicate Visible(env: Env, es: seq<Entry>, c: Comp) {
    !Tombstoned(env, es, env.norm(c.path))
  }

  /** From es, upserting what is left of the stores gives the target. */
  ghost predicate Leads(env: Env, es: seq<Entry>, left: seq<Comp>, now: int, target: seq<Entry>) {
    Run(env, es, Upserts(left, now)) == target
  }

  lemma LeadsOn(env: Env, es: seq<Entry>, left: seq<Comp>, now: int, target: seq<Entry>)
    requires Leads(env, es, left, now, target)
    ensures left == [] ==> es == target
    ensures left != [] ==> Leads(env, Apply(env, es, UpsertAuto(AutoEntry(left[0]), now)), left[1..], now, target)
  {
    if left != [] {
      assert Upserts(left, now)[1..] == Upserts(left[1..], now);
    }
  }

  // ------------------------------------------------------- what a reconcile files

  /** The store has an auto entry with its details. */
  ghost predicate Filed(env: Env, es: seq<Entry>, c: Comp) {
    exists i :: 0 <= i < |es| && IsFiled(env, es[i], c)
  }

  predicate IsFiled(env: Env, e: Entry, c: Comp) {
    e.source == Auto && e.name == c.name && e.kind == c.kind && e.path == c.path && e.metadata == map[]
  }

  lemma UpsertFiles(env: Env, es: seq<Entry>, c: Comp, now: int)
    requires First(At(env, Manual, env.norm(c.path)), es).None?
    ensures Filed(env, Apply(env, es, UpsertAuto(AutoEntry(c), now)), c)
  {
    var es' := Apply(env, es, UpsertAuto(AutoEntry(c), now));
    match First(At(env, Auto, env.norm(c.path)), es)
    case Some(i) => assert IsFiled(env, es'[i], c);
    case None => assert IsFiled(env, es'[|es|], c);
  }

  lemma FiledStays(env: Env, es: seq<Entry>, op: Op, c: Comp)
    requires Filed(env, es, c)
    requires op.Undismiss? || (op.UpsertAuto? && env.norm(op.e.path) != env.norm(c.path))
    ensures Filed(env, Apply(env, es, op), c)
  {
    var i :| 0 <= i < |es| && IsFiled(env, es[i], c);
    var es' := Apply(env, es, op);
    assert IsFiled(env, es'[i], c);
  }

  lemma ManualStays(env: Env, es: seq<Entry>, op: Op, key: string)
    requires op.Undismiss? || op.UpsertAuto?
    ensures First(At(env, Manual, key), Apply(env, es, op)).None? <==> First(At(env, Manual, key), es).None?
  {
    var es' := Apply(env, es, op);
    assert |es| <= |es'| <= |es| + 1;
    assert forall i :: 0 <= i < |es| ==> At(env, Manual, key)(es'[i]) == At(env, Manual, key)(es[i]);
    assert |es'| > |es| ==> es'[|es|].source == Auto;
  }

  lemma {:induction false} FiledRun(env: Env, es: seq<Entry>, ops: seq<Op>, c: Comp)
    requires Filed(env, es, c)
    requires forall i :: 0 <= i < |ops| ==>
      ops[i].Undismiss? || (ops[i].UpsertAuto? && env.norm(ops[i].e.path) != env.norm(c.path))
    ensures Filed(env, Run(env, es, ops), c)
    decreases |ops|
  {
    if ops != [] {
      FiledStays(env, es, ops[0], c);
      FiledRun(env, Apply(env, es, ops[0]), ops[1..], c);
    }
  }

  lemma {:induction false} UpsertPaths(detected: seq<Comp>, now: int)
    ensures |Upserts(detected, now)| == |detected|
    ensures forall i :: 0 <= i < |detected| ==> Upserts(detected, now)[i] == UpsertAuto(AutoEntry(detected[i]), now)
  {
    if detected != [] {
      UpsertPaths(detected[1..], now);
    }
  }

  lemma {:induction false} UpsertsFile(env: Env, es: seq<Entry>, detected: seq<Comp>, now: int, k: nat)
    requires k < |detected| && First(At(env, Manual, env.norm(detected[k].path)), es).None?
    requires forall j :: k < j < |detected| ==> env.norm(detected[j].path) != env.norm(detected[k].path)
    ensures Filed(env, Run(env, es, Upserts(detected, now)), detected[k])
    decreases k
  {
    var op := UpsertAuto(AutoEntry(detected[0]), now);
    assert Upserts(detected, now)[1..] == Upserts(detected[1..], now);
    if k == 0 {
      UpsertFiles(env, es, detected[0], now);
      UpsertPaths(detected[1..], now);
      FiledRun(env, Apply(env, es, op), Upserts(detected[1..], now), detected[0]);
    } else {
      ManualStays(env, es, op, env.norm(detected[k].path));
      UpsertsFile(env, Apply(env, es, op), detected[1..], now, k - 1);
    }
  }

  /** A reconcile files every detected store whose path has no manual entry: the last one found of each path. */
  lemma ReconcileFiles(env: Env, es: seq<Entry>, detected: seq<Comp>, inputs: Inputs, now: int, k: nat)
    requires k < |detected| && First(At(env, Manual, env.norm(detected[k].path)), es).None?
    requires forall j :: k < j < |detected| ==> env.norm(detected[j].path) != env.norm(detected[k].path)
    ensures Filed(env, Reconciled(env, es, detected, inputs, now), detected[k])
  {
    var es1 := Run(env, es, Upserts(detected, now));
    var rescue := RescueActive(Active(env, detected, inputs), now);
    UpsertsFile(env, es, detected, now, k);
    FiledRun(env, es1, rescue, detected[k]);
    RescuesOnly(env, detected, inputs, now);
    FiledRun(env, Run(env, es1, rescue), Rescues(env, detected, inputs, now), detected[k]);
  }

  /** After a reconcile neither the elected store nor any store a running app provides is dismissed. */
  lemma ReconcileReveals(env: Env, es: seq<Entry>, detected: seq<Comp>, inputs: Inputs, now: int, c: Comp)
    requires Injective(env) && Keyed(env, es) && ProperPaths(env, detected)
    requires c in detected
    requires AppProvided(env, c, inputs) || (Active(env, detected, inputs) == Some(c) && c.path != "")
    ensures Visible(env, Reconciled(env, es, detected, inputs, now), c)
  {
    var key := env.norm(c.path);
    var active := Active(env, detected, inputs);
    UpsertsAreHarmless(env, detected, now);
    var es1 := Run(env, es, Upserts(detected, now));
    HarmlessRun(env, es, Upserts(detected, now), key);
    var rescue := RescueActive(active, now);
    var es2 := Run(env, es1, rescue);
    HarmlessRun(env, es1, rescue, key);
    var rescues := Rescues(env, detected, inputs, now);
    RescuesReach(env, detected, inputs, now, c);
    HarmlessRun(env, es2, rescues, key);
    if AppProvided(env, c, inputs) {
      assert Undismiss(c.path, now) in rescues;
    } else {
      assert rescue[0] == Undismiss(c.path, now);
    }
  }

  /** A reconcile dismisses nothing, and keeps ids distinct. */
  lemma ReconcileHidesNothing(env: Env, es: seq<Entry>, detected: seq<Comp>, inputs: Inputs, now: int, key: string)
    requires Injective(env) && Keyed(env, es) && ProperPaths(env, detected)
    ensures Keyed(env, Reconciled(env, es, detected, inputs, now))
    ensures Tombstoned(env, Reconciled(env, es, detected, inputs, now), key) ==> Tombstoned(env, es, key)
  {
    UpsertsAreHarmless(env, detected, now);
    HarmlessRun(env, es, Upserts(detected, now), key);
    var es1 := Run(env, es, Upserts(detected, now));
    var rescue := RescueActive(Active(env, detected, inputs), now);
    HarmlessRun(env, es1, rescue, key);
    if detected != [] {
      RescuesReach(env, detected, inputs, now, detected[0]);
    }
    HarmlessRun(env, Run(env, es1, rescue), Rescues(env, detected, inputs, now), key);
  }

  // ------------------------------------------------------- the elected store is never dismissed

  /** The auto entry of the elected store reads back as a component with the same identity. */
  ghost predicate ReadsBack(env: Env, w: World, es: seq<Entry>, c: Comp) {
    forall i :: 0 <= i < |es| && At(env, Auto, env.norm(c.path))(es[i]) ==>
      Identity(w, ComponentForEntry(w, es[i])) == Identity(w, c)
  }

  /**
   * One DeleteStore dismisses a visible elected store exactly when it is given that store's id
   * and the file no longer reads as the store that was elected.
   */
  lemma DeleteStoreHidesElected(env: Env, s: State, id: string, w: World, c: Comp)
    requires Injective(env) && Keyed(env, s.entries)
    requires s.elected == Some(c) && Visible(env, s.entries, c)
    ensures Visible(env, Step(env, s, DeleteStore(id, w)).entries, c)
            <==> !(id == EntryID(env, Auto, env.norm(c.path)) && Holds(env, s.entries, Auto, env.norm(c.path)))
                 || ReadsBack(env, w, s.entries, c)
  {
    var es, key := s.entries, env.norm(c.path);
    TombstoneStep(env, es, Delete(id), key);
    if id == EntryID(env, Auto, key) && Holds(env, es, Auto, key) {
      var i := OnlyEntry(env, es, key);
    }
  }

  /** The one auto entry of a path is the first with its id. */
  lemma OnlyEntry(env: Env, es: seq<Entry>, key: string) returns (i: nat)
    requires Injective(env) && Keyed(env, es) && Holds(env, es, Auto, key)
    ensures i < |es| && At(env, Auto, key)(es[i]) && First(HasId(EntryID(env, Auto, key)), es) == Some(i)
    ensures forall j :: 0 <= j < |es| && At(env, Auto, key)(es[j]) ==> j == i
  {
    i :| 0 <= i < |es| && At(env, Auto, key)(es[i]);
    assert EntryOk(env, es[i]);
    KeyedIdsDiffer(env, es, i, First(HasId(EntryID(env, Auto, key)), es).value);
    forall j | 0 <= j < |es| && At(env, Auto, key)(es[j]) ensures j == i {
      assert EntryOk(env, es[j]);
      KeyedIdsDiffer(env, es, i, j);
    }
  }

  lemma LowerRankWins(env: Env, a: Comp, b: Comp, inputs: Inputs)
    requires Rank(env, b, inputs) < Rank(env, a, inputs)
    ensures Active(env, [a, b], inputs) == Some(b)
  {
    assert Wins(env, [a, b], inputs, 1);
    WinnerIsUnique(env, [a, b], inputs, 1, Winner(env, [a, b], inputs));
  }

  lemma TwoUpserts(env: Env, a: Comp, b: Comp, now: int)
    requires a.path == b.path
    ensures OneAutoEntry(Run(env, [], Upserts([a, b], now)), a.path)
  {
    assert [a, b][1..] == [b];
    var x, y := UpsertAuto(AutoEntry(a), now), UpsertAuto(AutoEntry(b), now);
    OneUpsert(env, a, now);
    OneUpsert(env, b, now);
    assert Upserts([a, b], now) == [x] + [y] && [x, y][1..] == [y];
    var es1 := Apply(env, [], x);
    assert First(At(env, Auto, env.norm(b.path)), es1) == Some(0);
    assert Run(env, es1, [y]) == Apply(env, es1, y);
  }

  predicate OneAutoEntry(es: seq<Entry>, path: string) {
    |es| == 1 && es[0].source == Auto && es[0].path == path
  }

  lemma OneUpsert(env: Env, c: Comp, now: int)
    ensures Upserts([c], now) == [UpsertAuto(AutoEntry(c), now)]
    ensures Run(env, [], Upserts([c], now)) == Apply(env, [], UpsertAuto(AutoEntry(c), now))
    ensures OneAutoEntry(Run(env, [], Upserts([c], now)), c.path)
  {
    assert Upserts([c], now) == [UpsertAuto(AutoEntry(c), now)] + [];
    assert [UpsertAuto(AutoEntry(c), now)][1..] == [];
  }

  /** After a first reconcile that upserts one entry, that entry is all there is. */
  lemma OneEntry(env: Env, detected: seq<Comp>, path: string, inputs: Inputs, now: int)
    requires OneAutoEntry(Run(env, [], Upserts(detected, now)), path)
    ensures OneAutoEntry(Reconciled(env, [], detected, inputs, now), path)
  {
    var es1 := Run(env, [], Upserts(detected, now));
    var rescue := RescueActive(Active(env, detected, inputs), now);
    RescuesKeepOne(env, es1, rescue);
    RescuesOnly(env, detected, inputs, now);
    RescuesKeepOne(env, Run(env, es1, rescue), Rescues(env, detected, inputs, now));
  }

  /** What the file at c's path first reads as, resolved with the file's own secret stores. */
  function OwnReading(w: World, c: Comp): Option<Comp> {
    var own := Resolved(w.disk, [c.path]);
    if own == [] then None else Some(own[0])
  }

  /** An only entry whose file reads as another store lets the elected store be dismissed by its own id. */
  lemma OtherReadingHides(env: Env, w: World, s: State, c: Comp)
    requires Injective(env) && Keyed(env, s.entries) && s.elected == Some(c) && Visible(env, s.entries, c)
    requires OneAutoEntry(s.entries, c.path)
    requires OwnReading(w, c).Some? && OwnReading(w, c).value.path == c.path
    requires Identity(w, OwnReading(w, c).value) != Identity(w, c)
    ensures var s' := Step(env, s, DeleteStore(EntryID(env, Auto, env.norm(c.path)), w));
            s'.elected == Some(c) && !Visible(env, s'.entries, c)
  {
    assert At(env, Auto, env.norm(c.path))(s.entries[0]);
    assert ComponentForEntry(w, s.entries[0]) == OwnReading(w, c).value;
    DeleteStoreHidesElected(env, s, EntryID(env, Auto, env.norm(c.path)), w, c);
  }

  /**
   * Two stores in one file (pkg/statestore/detect.go reports one per YAML document): the second
   * is elected, and deleting it by its own id is not refused, because the file reads as the first.
   */
  lemma SharedFileHidesElected(env: Env, a: Comp, b: Comp, inputs: Inputs, now: int, w: World)
    requires Injective(env) && ProperPath(env, a.path) && a.path == b.path
    requires Rank(env, b, inputs) < Rank(env, a, inputs)
    requires Resolved(w.disk, [a.path]) == [a, b] && Identity(w, a) != Identity(w, b)
    ensures var s := Step(env, State([], None, false), Reconcile([a, b], inputs, now));
            var s' := Step(env, s, DeleteStore(EntryID(env, Auto, env.norm(b.path)), w));
            && s.elected == Some(b) && Visible(env, s.entries, b)
            && s'.elected == Some(b) && !Visible(env, s'.entries, b)
  {
    var es := Reconciled(env, [], [a, b], inputs, now);
    LowerRankWins(env, a, b, inputs);
    ReconcileHidesNothing(env, [], [a, b], inputs, now, env.norm(b.path));
    TwoUpserts(env, a, b, now);
    OneEntry(env, [a, b], a.path, inputs, now);
    OtherReadingHides(env, w, State(es, Some(b), false), b);
  }

  lemma {:induction false} RescuesOnly(env: Env, detected: seq<Comp>, inputs: Inputs, now: int)
    ensures forall i :: 0 <= i < |Rescues(env, detected, inputs, now)| ==>
      Rescues(env, detected, inputs, now)[i].Undismiss?
  {
    if detected != [] {
      RescuesOnly(env, detected[1..], inputs, now);
    }
  }

  lemma {:induction false} RescuesKeepOne(env: Env, es: seq<Entry>, ops: seq<Op>)
    requires |es| == 1 && forall i :: 0 <= i < |ops| ==> ops[i].Undismiss?
    ensures var es' := Run(env, es, ops); |es'| == 1 && es'[0].source == es[0].source && es'[0].path == es[0].path
    decreases |ops|
  {
    if ops != [] {
      RescuesKeepOne(env, Apply(env, es, ops[0]), ops[1..]);
    }
  }

  ghost predicate ElectedVisible(env: Env, s: State) {
    s.elected.Some? && s.elected.value.path != "" ==> Visible(env, s.entries, s.elected.value)
  }

  /** Detected paths are absolute, and at each DeleteStore the elected store's file still reads back. */
  ghost predicate ActionOk(env: Env, s: State, a: Action) {
    match a
    case Reconcile(detected, _, _) => ProperPaths(env, detected)
    case DeleteStore(_, w) => s.elected.Some? ==> ReadsBack(env, w, s.entries, s.elected.value)
    case _ => true
  }

  ghost predicate AllOk(env: Env, s: State, actions: seq<Action>)
    decreases |actions|
  {
    actions == [] || (ActionOk(env, s, actions[0]) && AllOk(env, Step(env, s, actions[0]), actions[1..]))
  }

  lemma ReconcileKeepsElected(env: Env, s: State, detected: seq<Comp>, inputs: Inputs, now: int)
    requires Injective(env) && Keyed(env, s.entries) && ElectedVisible(env, s) && ProperPaths(env, detected)
    ensures var s' := Step(env, s, Reconcile(detected, inputs, now)); Keyed(env, s'.entries) && ElectedVisible(env, s')
  {
    var s' := Step(env, s, Reconcile(detected, inputs, now));
    if s'.elected.Some? {
      var c := s'.elected.value;
      ReconcileHidesNothing(env, s.entries, detected, inputs, now, env.norm(c.path));
      if !s.closed && c.path != "" {
        ReconcileReveals(env, s.entries, detected, inputs, now, c);
      }
    } else {
      ReconcileHidesNothing(env, s.entries, detected, inputs, now, "");
    }
  }

  lemma StepKeepsElected(env: Env, s: State, a: Action)
    requires Injective(env) && Keyed(env, s.entries) && ElectedVisible(env, s) && ActionOk(env, s, a)
    ensures Keyed(env, Step(env, s, a).entries) && ElectedVisible(env, Step(env, s, a))
  {
    var key := if s.elected.Some? then env.norm(s.elected.value.path) else "";
    match a
    case Reconcile(detected, inputs, now) => ReconcileKeepsElected(env, s, detected, inputs, now);
    case AddStore(name, kind, metadata, now) =>
      var op := Add(ManualEntry("", name, kind, metadata), now);
      KeyedStep(env, s.entries, op);
      TombstoneStep(env, s.entries, op, key);
    case UpdateStore(id, name, kind, metadata, now) =>
      var op := Update(ManualEntry(id, name, kind, metadata), now);
      KeyedStep(env, s.entries, op);
      TombstoneStep(env, s.entries, op, key);
    case DeleteStore(id, w) =>
      KeyedStep(env, s.entries, Delete(id));
      if s.elected.Some? && s.elected.value.path != "" {
        DeleteStoreHidesElected(env, s, id, w, s.elected.value);
      }
    case Close =>
  }

  lemma {:induction false} ElectedIsNeverDismissed(env: Env, s: State, actions: seq<Action>)
    requires Injective(env) && Keyed(env, s.entries) && ElectedVisible(env, s) && AllOk(env, s, actions)
    ensures Keyed(env, Exec(env, s, actions).entries) && ElectedVisible(env, Exec(env, s, actions))
    decreases |actions|
  {
    if actions != [] {
      StepKeepsElected(env, s, actions[0]);
      ElectedIsNeverDismissed(env, Step(env, s, actions[0]), actions[1..]);
    }
  }

  // ------------------------------------------------------- one store per file, files unchanged

  /** Auto entries hold normalized paths, as Detect reports them. */
  predicate NormalPaths(env: Env, es: seq<Entry>) {
    forall i :: 0 <= i < |es| ==> es[i].source == Auto ==> env.norm(es[i].path) == es[i].path
  }

  predicate UpsertsNormal(env: Env, op: Op) {
    op.UpsertAuto? ==> env.norm(op.e.path) == op.e.path
  }

  lemma NormalStep(env: Env, es: seq<Entry>, op: Op)
    requires NormalPaths(env, es) && UpsertsNormal(env, op)
    ensures NormalPaths(env, Apply(env, es, op))
  {
    if op.Delete? {
      var es' := Marked(op.id, es);
      forall j | 0 <= j < |es'| && es'[j].source == Auto ensures env.norm(es'[j].path) == es'[j].path {
        var _ := MarkedFrom(op.id, es, j);
      }
    }
  }

  lemma {:induction false} NormalRun(env: Env, es: seq<Entry>, ops: seq<Op>)
    requires NormalPaths(env, es) && forall i :: 0 <= i < |ops| ==> UpsertsNormal(env, ops[i])
    ensures NormalPaths(env, Run(env, es, ops))
    decreases |ops|
  {
    if ops != [] {
      NormalStep(env, es, ops[0]);
      NormalRun(env, Apply(env, es, ops[0]), ops[1..]);
    }
  }

  predicate NormalComps(env: Env, detected: seq<Comp>) {
    forall i :: 0 <= i < |detected| ==> env.norm(detected[i].path) == detected[i].path
  }

  lemma {:induction false} ReconcileOpsNormal(env: Env, detected: seq<Comp>, inputs: Inputs, now: int)
    requires NormalComps(env, detected)
    ensures forall i :: 0 <= i < |Upserts(detected, now)| ==> UpsertsNormal(env, Upserts(detected, now)[i])
    ensures forall i :: 0 <= i < |Rescues(env, detected, inputs, now)| ==>
      UpsertsNormal(env, Rescues(env, detected, inputs, now)[i])
  {
    if detected != [] {
      ReconcileOpsNormal(env, detected[1..], inputs, now);
    }
  }

  lemma NormalAction(env: Env, s: State, a: Action)
    requires NormalPaths(env, s.entries) && (a.Reconcile? ==> NormalComps(env, a.detected))
    ensures NormalPaths(env, Step(env, s, a).entries)
  {
    match a
    case Reconcile(detected, inputs, now) =>
      ReconcileOpsNormal(env, detected, inputs, now);
      var es1 := Run(env, s.entries, Upserts(detected, now));
      NormalRun(env, s.entries, Upserts(detected, now));
      var rescue := RescueActive(Active(env, detected, inputs), now);
      NormalRun(env, es1, rescue);
      NormalRun(env, Run(env, es1, rescue), Rescues(env, detected, inputs, now));
    case AddStore(name, kind, metadata, now) =>
      NormalStep(env, s.entries, Add(ManualEntry("", name, kind, metadata), now));
    case UpdateStore(id, name, kind, metadata, now) =>
      NormalStep(env, s.entries, Update(ManualEntry(id, name, kind, metadata), now));
    case DeleteStore(id, w) => NormalStep(env, s.entries, Delete(id));
    case Close =>
  }

  /** f, just detected, and c, resolved earlier, have the same text: only what references resolve to may differ. */
  predicate SameText(f: Comp, c: Comp) {
    && f.name == c.name && f.kind == c.kind && f.path == c.path && f.refs == c.refs && f.secretStore == c.secretStore
    && forall k :: k in ConnKeys(c.kind) && k !in c.refs ==> Value(f.metadata, k) == Value(c.metadata, k)
  }

  /** The file still holds the elected store and no other. */
  predicate FileUnchanged(w: World, c: Comp) {
    var found := Detect(w.disk, [c.path]);
    |found| == 1 && SameText(found[0], c)
  }

  /** No connection key is a secret reference, or the file's own secret stores give what was elected with. */
  predicate SecretsAlike(w: World, c: Comp) {
    OwnReading(w, c).Some? && forall k :: k in ConnKeys(c.kind) && k in c.refs ==>
      Value(OwnReading(w, c).value.metadata, k) == Value(c.metadata, k)
  }

  lemma AlikeIffSameValues(w: World, c: Comp)
    requires FileUnchanged(w, c)
    ensures var own := OwnReading(w, c);
            && own.Some? && own.value.name == c.name && own.value.kind == c.kind && own.value.path == c.path
            && (SecretsAlike(w, c) <==> ConnValues(own.value) == ConnValues(c))
  {
    var f, own := Detect(w.disk, [c.path])[0], OwnReading(w, c).value;
    assert own == Resolve(w.disk, f, DetectSecretStores(w.disk, [c.path]));
    forall k | k in ConnKeys(c.kind) && k !in c.refs ensures Value(own.metadata, k) == Value(c.metadata, k) {
      assert Value(own.metadata, k) == Value(f.metadata, k);
    }
    if ConnValues(own) == ConnValues(c) {
      forall k | k in ConnKeys(c.kind) ensures Value(own.metadata, k) == Value(c.metadata, k) {
        assert ConnValues(own)[k] == ConnValues(c)[k];
      }
    }
  }

  /** The same disk, with addresses shown in another way. */
  function Shown(w: World, address: (string, string, map<string, string>) -> string): World {
    w.(address := address)
  }

  lemma SamePrefix(p: string, a: string, b: string)
    requires p + a == p + b
    ensures a == b
  {
    assert a == (p + a)[|p|..] && b == (p + b)[|p|..];
  }

  /** Two resolutions of one store have one identity, however addresses are shown, exactly if their values agree. */
  lemma SameIdentityIff(w: World, own: Comp, c: Comp)
    requires own.name == c.name && own.kind == c.kind && own.path == c.path
    ensures (forall address :: Identity(Shown(w, address), own) == Identity(Shown(w, address), c))
            <==> ConnValues(own) == ConnValues(c)
  {
    var telling := (kind: string, path: string, values: map<string, string>) =>
      if values == ConnValues(c) then "" else "other";
    if Identity(Shown(w, telling), own) == Identity(Shown(w, telling), c) {
      SamePrefix(c.name + "|" + c.kind + "|", telling(c.kind, c.path, ConnValues(own)),
        telling(c.kind, c.path, ConnValues(c)));
    }
  }

  lemma ReadsAsOwn(env: Env, w: World, es: seq<Entry>, c: Comp)
    requires NormalPaths(env, es) && env.norm(c.path) == c.path && FileUnchanged(w, c)
    ensures OwnReading(w, c).Some?
    ensures Identity(w, OwnReading(w, c).value) == Identity(w, c) ==> ReadsBack(env, w, es, c)
    ensures Holds(env, es, Auto, c.path) && ReadsBack(env, w, es, c) ==>
      Identity(w, OwnReading(w, c).value) == Identity(w, c)
  {
    AlikeIffSameValues(w, c);
    var own := OwnReading(w, c).value;
    forall e: Entry | e.path == c.path && e.source == Auto ensures ComponentForEntry(w, e) == own {
    }
  }

  lemma IdentityIsAddress(w: World, own: Comp, c: Comp)
    requires own.name == c.name && own.kind == c.kind && own.path == c.path
    ensures Identity(w, own) == Identity(w, c) <==> SameAddress(w, own, c)
  {
    if Identity(w, own) == Identity(w, c) {
      SamePrefix(c.name + "|" + c.kind + "|", w.address(c.kind, c.path, ConnValues(own)),
        w.address(c.kind, c.path, ConnValues(c)));
    }
  }

  predicate SameAddress(w: World, own: Comp, c: Comp) {
    w.address(c.kind, c.path, ConnValues(own)) == w.address(c.kind, c.path, ConnValues(c))
  }

  /**
   * While its file is unchanged and holds no other store, DeleteStore by its own id leaves the elected
   * store visible if and only if the file's own reading shows the same address; however addresses are
   * shown, if and only if SecretsAlike holds.
   */
  lemma DeleteOfUnchangedIff(env: Env, s: State, w: World, c: Comp)
    requires Injective(env) && Keyed(env, s.entries) && NormalPaths(env, s.entries)
    requires s.elected == Some(c) && Visible(env, s.entries, c)
    requires env.norm(c.path) == c.path && Holds(env, s.entries, Auto, c.path) && FileUnchanged(w, c)
    ensures StaysVisible(env, s, w, c)
            <==> OwnReading(w, c).Some? && SameAddress(w, OwnReading(w, c).value, c)
    ensures (forall address :: StaysVisible(env, s, Shown(w, address), c)) <==> SecretsAlike(w, c)
  {
    AlikeIffSameValues(w, c);
    var own := OwnReading(w, c).value;
    UnchangedStaysIff(env, s, w, c);
    IdentityIsAddress(w, own, c);
    SameIdentityIff(w, own, c);
    forall address
      ensures StaysVisible(env, s, Shown(w, address), c)
              <==> Identity(Shown(w, address), own) == Identity(Shown(w, address), c)
    {
      assert OwnReading(Shown(w, address), c) == OwnReading(w, c);
      UnchangedStaysIff(env, s, Shown(w, address), c);
    }
  }

  lemma UnchangedStaysIff(env: Env, s: State, w: World, c: Comp)
    requires Injective(env) && Keyed(env, s.entries) && NormalPaths(env, s.entries)
    requires s.elected == Some(c) && Visible(env, s.entries, c)
    requires env.norm(c.path) == c.path && Holds(env, s.entries, Auto, c.path) && FileUnchanged(w, c)
    ensures OwnReading(w, c).Some?
    ensures StaysVisible(env, s, w, c) <==> Identity(w, OwnReading(w, c).value) == Identity(w, c)
  {
    ReadsAsOwn(env, w, s.entries, c);
    DeleteStoreHidesElected(env, s, EntryID(env, Auto, c.path), w, c);
  }

  ghost predicate StaysVisible(env: Env, s: State, w: World, c: Comp) {
    Visible(env, Step(env, s, DeleteStore(EntryID(env, Auto, env.norm(c.path)), w)).entries, c)
  }

  /** On one disk: they do if the first secret store of the name is the same in the file and along all scan paths. */
  lemma SameStoreIsAlike(w: World, f: Comp, paths: seq<string>)
    requires Detect(w.disk, [f.path]) == [f]
    ensures var all, own := DetectSecretStores(w.disk, paths), DetectSecretStores(w.disk, [f.path]);
            var c := Resolve(w.disk, f, all);
            && FileUnchanged(w, c)
            && (Chosen(own, f.secretStore) == Chosen(all, f.secretStore) || ConnKeys(f.kind) !! f.refs.Keys
                ==> SecretsAlike(w, c))
  {
  }

  /** A store whose connection secret reads otherwise from its own file is elected, and hidden by its own id. */
  lemma SecretElsewhereHidesElected(
    env: Env, w: World, f: Comp, paths: seq<string>, inputs: Inputs, now: int)
    requires Injective(env) && ProperPath(env, f.path)
    requires Detect(w.disk, paths) == [f] && Detect(w.disk, [f.path]) == [f]
    requires Identity(w, Resolved(w.disk, [f.path])[0]) != Identity(w, Resolved(w.disk, paths)[0])
    ensures var c := Resolved(w.disk, paths)[0];
            var s := Step(env, State([], None, false), Reconcile(Resolved(w.disk, paths), inputs, now));
            var s' := Step(env, s, DeleteStore(EntryID(env, Auto, env.norm(c.path)), w));
            && s.elected == Some(c) && Visible(env, s.entries, c)
            && s'.elected == Some(c) && !Visible(env, s'.entries, c)
  {
    var detected := Resolved(w.disk, paths);
    var c := detected[0];
    assert detected == [c];
    OneUpsert(env, c, now);
    OneEntry(env, detected, c.path, inputs, now);
    ReconcileHidesNothing(env, [], detected, inputs, now, env.norm(c.path));
    OtherReadingHides(env, w, State(Reconciled(env, [], detected, inputs, now), Some(c), false), c);
  }

  /** A directory with a secret store in one file, and in another a SQLite store that names it. */
  predicate TwoFiles(d: Disk, dir: string, secretFile: string, storeFile: string, f: Comp, s: SecretStore,
                     secret: string) {
    && secretFile != storeFile && d.walk(dir) == [secretFile, storeFile] && d.walk(storeFile) == [storeFile]
    && d.stores(secretFile) == [] && d.secretStores(secretFile) == [s]
    && d.stores(storeFile) == [f] && d.secretStores(storeFile) == []
    && f.path == storeFile && f.kind == "state.sqlite" && f.secretStore == s.name && f.metadata == map[]
    && f.refs.Keys == {"connectionString"} && d.secret(s, f.refs["connectionString"]) == Some(secret)
  }

  lemma TwoFilesRead(d: Disk, dir: string, secretFile: string, storeFile: string, f: Comp, s: SecretStore,
                     secret: string)
    requires TwoFiles(d, dir, secretFile, storeFile, f, s, secret)
    ensures Detect(d, [dir]) == [f] && DetectSecretStores(d, [dir]) == [s]
    ensures Detect(d, [storeFile]) == [f] && DetectSecretStores(d, [storeFile]) == []
  {
    FlatMapOne(d.walk, dir);
    FlatMapOne(d.walk, storeFile);
    DedupFew(storeFile, secretFile);
    DedupFew(secretFile, storeFile);
    FlatMapTwo(d.stores, secretFile, storeFile);
    FlatMapTwo(d.secretStores, secretFile, storeFile);
    FlatMapOne(d.stores, storeFile);
    FlatMapOne(d.secretStores, storeFile);
  }

  lemma TwoFilesResolve(d: Disk, dir: string, secretFile: string, storeFile: string, f: Comp, s: SecretStore,
                        secret: string)
    requires TwoFiles(d, dir, secretFile, storeFile, f, s, secret)
    ensures Detect(d, [dir]) == [f] && Detect(d, [storeFile]) == [f]
    ensures Resolved(d, [dir]) == [f.(metadata := map["connectionString" := secret])]
    ensures Resolved(d, [storeFile]) == [f]
  {
    TwoFilesRead(d, dir, secretFile, storeFile, f, s, secret);
    assert Chosen([s], f.secretStore) == Some(s) && Chosen([], f.secretStore) == None;
    assert ResolvedMetadata(d, f, [s]) == map["connectionString" := secret];
    assert ResolvedMetadata(d, f, []) == map[];
  }

  lemma TwoFilesDiffer(w: World, f: Comp, secret: string)
    requires f.kind == "state.sqlite" && f.metadata == map[]
    requires w.address(f.kind, f.path, map["connectionString" := secret])
             != w.address(f.kind, f.path, map["connectionString" := ""])
    ensures Identity(w, f) != Identity(w, f.(metadata := map["connectionString" := secret]))
  {
    var c := f.(metadata := map["connectionString" := secret]);
    assert ConnValues(c) == map["connectionString" := secret] && ConnValues(f) == map["connectionString" := ""];
    if Identity(w, f) == Identity(w, c) {
      SamePrefix(f.name + "|" + f.kind + "|", w.address(f.kind, f.path, ConnValues(f)),
        w.address(f.kind, f.path, ConnValues(c)));
    }
  }

  /** In that layout the store is elected with its address and hidden by its own id, if the address shows. */
  lemma SecretInAnotherFile(
    env: Env, w: World, dir: string, secretFile: string, f: Comp, s: SecretStore, secret: string, inputs: Inputs,
    now: int)
    requires Injective(env) && ProperPath(env, f.path)
    requires TwoFiles(w.disk, dir, secretFile, f.path, f, s, secret)
    requires w.address(f.kind, f.path, map["connectionString" := secret])
             != w.address(f.kind, f.path, map["connectionString" := ""])
    ensures var c := f.(metadata := map["connectionString" := secret]);
            var st := Step(env, State([], None, false), Reconcile(Resolved(w.disk, [dir]), inputs, now));
            var st' := Step(env, st, DeleteStore(EntryID(env, Auto, env.norm(c.path)), w));
            && st.elected == Some(c) && Visible(env, st.entries, c)
            && st'.elected == Some(c) && !Visible(env, st'.entries, c)
  {
    TwoFilesResolve(w.disk, dir, secretFile, f.path, f, s, secret);
    TwoFilesDiffer(w, f, secret);
    SecretElsewhereHidesElected(env, w, f, [dir], inputs, now);
  }

  /** Detect reports absolute, clean paths; a delete finds the elected store's file and its secrets as they were. */
  ghost predicate Undisturbed(env: Env, s: State, actions: seq<Action>)
    decreases |actions|
  {
    actions == []
    || (&& (match actions[0]
            case Reconcile(detected, _, _) => ProperPaths(env, detected) && NormalComps(env, detected)
            case DeleteStore(_, w) =>
              s.elected.Some? ==> FileUnchanged(w, s.elected.value) && SecretsAlike(w, s.elected.value)
            case _ => true)
        && Undisturbed(env, Step(env, s, actions[0]), actions[1..]))
  }

  lemma {:induction false} UndisturbedIsOk(env: Env, s: State, actions: seq<Action>)
    requires NormalPaths(env, s.entries) && (s.elected.Some? ==> env.norm(s.elected.value.path) == s.elected.value.path)
    requires Undisturbed(env, s, actions)
    ensures AllOk(env, s, actions)
    decreases |actions|
  {
    if actions != [] {
      NormalAction(env, s, actions[0]);
      if actions[0].DeleteStore? && s.elected.Some? {
        AlikeIffSameValues(actions[0].w, s.elected.value);
        ReadsAsOwn(env, actions[0].w, s.entries, s.elected.value);
      }
      UndisturbedIsOk(env, Step(env, s, actions[0]), actions[1..]);
    }
  }

  /**
   * From an empty registry: the active store is never hidden while its file is left alone, holds no
   * other store, and resolves its connection secrets by itself.
   */
  lemma ActiveStoreStaysVisible(env: Env, actions: seq<Action>)
    requires Injective(env) && Undisturbed(env, State([], None, false), actions)
    ensures ElectedVisible(env, Exec(env, State([], None, false), actions))
  {
    UndisturbedIsOk(env, State([], None, false), actions);
    ElectedIsNeverDismissed(env, State([], None, false), actions);
  }

  // ------------------------------------------------------- the object

  datatype Refusal = Accepted | ActiveStore | Failed(why: Outcome)

  /** The reconciler's registry and election; saves says whether registry writes succeed. */
  class Backend {
    const env: Env
    const registry: ConnRegistry
    var elected: Option<Comp>
    var closed: bool

    ghost function View(): State
      reads this, registry
    {
      State(registry.entries, elected, closed)
    }

    ghost predicate Valid() {
      registry.env == env
    }

    constructor (registry: ConnRegistry)
      ensures this.registry == registry && env == registry.env && Valid() && elected == None && !closed
    {
      env, this.registry, elected, closed := registry.env, registry, None, false;
    }

    method PersistOne(d: Disk, found: Comp, stores: seq<SecretStore>, now: int, saves: bool) returns (c: Comp)
      requires Valid()
      modifies registry
      ensures c == Resolve(d, found, stores)
      ensures registry.entries == Apply(env, old(registry.entries), UpsertAuto(AutoEntry(c), now))
    {
      var metadata, _ := ResolveSecrets(d, found, stores);
      c := found.(metadata := metadata);
      var _ := registry.UpsertAuto(AutoEntry(c), now, saves);
    }

    /** Resolves and upserts each store found. */
    method Persist(d: Disk, found: seq<Comp>, stores: seq<SecretStore>, now: int, saves: bool)
      returns (detected: seq<Comp>)
      requires Valid()
      modifies registry
      ensures detected == ResolveAll(d, found, stores)
      ensures registry.entries == Run(env, old(registry.entries), Upserts(detected, now))
    {
      detected := [];
      ghost var all := ResolveAll(d, found, stores);
      ghost var target := Run(env, registry.entries, Upserts(all, now));
      ghost var left := all;
      var i := 0;
      while i < |found|
        invariant 0 <= i <= |found| && left == all[i..] && detected == all[..i]
        invariant Leads(env, registry.entries, left, now, target)
      {
        LeadsOn(env, registry.entries, left, now, target);
        var c := PersistOne(d, found[i], stores, now, saves);
        assert left[0] == c;
        left := left[1..];
        detected := detected + [c];
        i := i + 1;
      }
      LeadsOn(env, registry.entries, left, now, target);
    }

    method UndismissActive(active: Option<Comp>, now: int, saves: bool)
      requires Valid()
      modifies registry
      ensures registry.entries == Run(env, old(registry.entries), RescueActive(active, now))
    {
      if active.None? || active.value.path == "" {
        return;
      }
      var _ := registry.Undismiss(active.value.path, now, saves);
    }

    method UndismissAppProvided(detected: seq<Comp>, inputs: Inputs, now: int, saves: bool)
      requires Valid()
      modifies registry
      ensures registry.entries == Run(env, old(registry.entries), Rescues(env, detected, inputs, now))
    {
      var i := 0;
      while i < |detected|
        invariant 0 <= i <= |detected|
        invariant Run(env, registry.entries, Rescues(env, detected[i..], inputs, now))
                  == Run(env, old(registry.entries), Rescues(env, detected, inputs, now))
      {
        var c, rest := detected[i], Rescues(env, detected[i + 1..], inputs, now);
        assert detected[i..][1..] == detected[i + 1..];
        i := i + 1;
        if c.path == "" || c.name !in inputs.loaded || !PathUnder(env, c.path, inputs.appPaths) {
          assert [] + rest == rest;
          continue;
        }
        assert ([Undismiss(c.path, now)] + rest)[1..] == rest;
        var _ := registry.Undismiss(c.path, now, saves);
      }
    }

    method Reconcile(d: Disk, scanPaths: seq<string>, inputs: Inputs, now: int, saves: bool)
      requires Valid()
      modifies this, registry
      ensures View() == Step(env, old(View()), Action.Reconcile(Resolved(d, scanPaths), inputs, now))
    {
      var found := WalkAlong(d.walk, d.stores, scanPaths);
      var secretStores := WalkAlong(d.walk, d.secretStores, scanPaths);
      var detected := Persist(d, found, secretStores, now, saves);
      var index := Elect(env, detected, inputs);
      var active := if index.Some? then Some(detected[index.value]) else None;
      UndismissActive(active, now, saves);
      UndismissAppProvided(detected, inputs, now, saves);
      if !closed {
        elected := active;
      }
    }

    method AddStore(name: string, kind: string, metadata: map<string, string>, now: int, saves: bool)
      returns (r: Refusal)
      requires Valid()
      modifies registry
      ensures View() == Step(env, old(View()), Action.AddStore(name, kind, metadata, now))
      ensures r != Failed(Exists) ==>
                registry.entries == old(registry.entries) + [
                  Entry(env.hash("manual:" + name), name, kind, Manual, "", metadata, now, false)]
      ensures r == Failed(Exists) <==> First(Named(name), old(registry.entries)).Some?
    {
      var added := registry.Add(ManualEntry("", name, kind, metadata), now, saves);
      r := if added == Done then Accepted else Failed(added);
    }

    method UpdateStore(id: string, name: string, kind: string, metadata: map<string, string>, now: int, saves: bool)
      returns (r: Refusal, newId: string)
      requires Valid()
      modifies registry
      ensures View() == Step(env, old(View()), Action.UpdateStore(id, name, kind, metadata, now))
      ensures r == Accepted ==> newId == EntryID(env, Manual, name) && First(ManualId(newId), registry.entries).Some?
      ensures r == Accepted ==>
                Entry(env.hash("manual:" + name), name, kind, Manual, "", metadata, now, false) in registry.entries
    {
      var updated, made := registry.Update(ManualEntry(id, name, kind, metadata), now, saves);
      r, newId := if updated == Done then Accepted else Failed(updated), made;
    }

    method DeleteStore(id: string, w: World, saves: bool) returns (r: Refusal)
      requires Valid()
      modifies registry
      ensures View() == Step(env, old(View()), Action.DeleteStore(id, w))
      ensures r == ActiveStore <==> Refused(w, old(registry.entries), elected, id)
    {
      var found := registry.Find(HasId(id));
      if found.Some? {
        var comp := ComponentForEntry(w, registry.entries[found.value]);
        if elected.Some? && Identity(w, comp) == Identity(w, elected.value) {
          return ActiveStore;
        }
      }
      var deleted := registry.Delete(id, saves);
      r := if deleted == Done then Accepted else Failed(deleted);
    }
  }
}
