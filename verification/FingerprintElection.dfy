/** What a fingerprint (cmd/derive.go) settles about the store elected from what is detected (cmd/reconciler.go). */
module FingerprintElection {
  import opened Basics
  import opened Like
  import opened Registry
  import opened Detection
  import opened Reconciler
  import Derive

  /** The two election inputs of derivePaths. */
  function InputsOf(apps: seq<Derive.App>): Inputs {
    Inputs((set n | n in FlatMap(Derive.LoadedNames(), apps)), FlatMap(Derive.RunningPaths(), apps))
  }

  // ------------------------------------------------------- what two election inputs have in common

  /** What filepath.Clean gives: never the empty path, and a name in the root directory as it is. */
  ghost predicate Cleans(env: Env) {
    && (forall p :: env.norm(p) != "")
    && forall name :: RootName(name) ==> env.norm("/" + name) == "/" + name
  }

  predicate RootName(name: string) {
    '/' !in name && name != "" && name != "." && name != ".."
  }

  predicate CleanPath(env: Env, p: string) {
    StartsWith(p, "/") && env.norm(p) == p
  }

  /** A component as Detect reports it. */
  predicate Detectable(env: Env, c: Comp) {
    StartsWith(c.kind, "state.") && CleanPath(env, c.path)
  }

  predicate AllDetectable(env: Env, comps: seq<Comp>) {
    forall k :: 0 <= k < |comps| ==> Detectable(env, comps[k])
  }

  ghost predicate SameCover(env: Env, parents: seq<string>, others: seq<string>) {
    forall p :: CleanPath(env, p) ==> PathUnder(env, p, parents) == PathUnder(env, p, others)
  }

  /** The same stores count as loaded, and if any does, the same paths lie under a running app's paths. */
  ghost predicate SameElection(env: Env, i: Inputs, j: Inputs) {
    && i.loaded == j.loaded
    && (i.loaded == {} || SameCover(env, i.appPaths, j.appPaths))
  }

  lemma ElectsAt(env: Env, comps: seq<Comp>, i: Inputs, k: nat)
    requires Wins(env, comps, i, k)
    ensures Active(env, comps, i) == Some(comps[k])
  {
    WinnerIsUnique(env, comps, i, k, Winner(env, comps, i));
  }

  lemma SameElectionElectsSame(env: Env, i: Inputs, j: Inputs, comps: seq<Comp>)
    requires SameElection(env, i, j) && AllDetectable(env, comps)
    ensures Active(env, comps, i) == Active(env, comps, j)
  {
    forall k | 0 <= k < |comps| ensures Rank(env, comps[k], i) == Rank(env, comps[k], j) {
      assert Detectable(env, comps[k]);
    }
    if comps != [] {
      var k := Winner(env, comps, i);
      assert Wins(env, comps, j, k);
      ElectsAt(env, comps, j, k);
    }
  }

  ghost function Longest(s: set<string>): (n: nat)
    ensures forall x :: x in s ==> |x| <= n
  {
    if s == {} then 0
    else
      var x :| x in s;
      var n := Longest(s - {x});
      assert forall y :: y in s ==> y == x || y in s - {x};
      if |x| > n then |x| else n
  }

  lemma LongName(s: set<string>) returns (name: string)
    ensures '/' !in name && forall x :: x in s ==> |x| < |name|
    ensures name != ""
  {
    name := seq(Longest(s) + 1, _ => 'x');
  }

  lemma FreshName(s: set<string>) returns (name: string)
    ensures name !in s && '/' !in name && name != ""
  {
    name := LongName(s);
  }

  function Store(name: string, path: string): Comp {
    Comp(name, "state.redis", path, map[], map[], "")
  }

  /** A YAML file in the root directory. */
  function RootFile(name: string): string {
    "/" + (name + ".yaml")
  }

  lemma RootFileIsClean(env: Env, name: string)
    requires Cleans(env) && '/' !in name
    ensures CleanPath(env, RootFile(name)) && forall store :: Detectable(env, Store(store, RootFile(name)))
  {
    var file := name + ".yaml";
    assert file[|file| - 1] == 'l';
    assert RootName(file);
  }

  lemma RootFilesDiffer(env: Env)
    requires Cleans(env)
    ensures RootFile("a") != RootFile("b") && CleanPath(env, RootFile("a")) && CleanPath(env, RootFile("b"))
    ensures forall store :: Detectable(env, Store(store, RootFile("a"))) && Detectable(env, Store(store, RootFile("b")))
  {
    RootFileIsClean(env, "a");
    RootFileIsClean(env, "b");
    assert RootFile("a")[1] == 'a' && RootFile("b")[1] == 'b';
  }

  /** A file that lies under none of the paths. */
  lemma FileElsewhere(env: Env, parents: seq<string>) returns (name: string)
    requires Cleans(env)
    ensures '/' !in name && !PathUnder(env, RootFile(name), parents)
  {
    name := LongName(set p | p in parents :: env.norm(p));
    RootFileIsClean(env, name);
    forall k | 0 <= k < |parents| ensures !Covers(env, parents[k], RootFile(name)) {
      var np := env.norm(parents[k]);
      assert np != "" && |np| < |name|;
      assert RootFile(name)[|np|] == name[|np| - 1];
      assert (np + "/")[|np|] == '/';
    }
  }

  /** Two stores are elected from differently when only one input has the name loaded. */
  lemma LoadedDecides(env: Env, i: Inputs, j: Inputs, name: string) returns (a: Comp, b: Comp)
    requires Cleans(env) && name in i.loaded && name !in j.loaded
    ensures Telling(env, i, j, a, b)
  {
    var other := FreshName(i.loaded + j.loaded);
    a, b := Store(other, RootFile("a")), Store(name, RootFile("b"));
    RootFilesDiffer(env);
    assert other !in i.loaded && other !in j.loaded;
    assert Rank(env, a, i) == 6 && Rank(env, b, i) <= 4;
    ElectsAt(env, [a, b], i, 1);
    ElectsAt(env, [a, b], j, 0);
  }

  /** Detectable components of two files, without secrets, from which the inputs elect differently. */
  ghost predicate Telling(env: Env, i: Inputs, j: Inputs, a: Comp, b: Comp) {
    && Detectable(env, a) && Detectable(env, b) && a.path != b.path && a.refs == b.refs == map[]
    && Active(env, [a, b], i) != Active(env, [a, b], j)
  }

  lemma PathDecides(env: Env, i: Inputs, j: Inputs, name: string, path: string) returns (a: Comp, b: Comp)
    requires Cleans(env) && name in i.loaded && name in j.loaded && CleanPath(env, path)
    requires PathUnder(env, path, i.appPaths) && !PathUnder(env, path, j.appPaths)
    ensures Telling(env, i, j, a, b)
  {
    var file := FileElsewhere(env, i.appPaths);
    RootFileIsClean(env, file);
    a, b := Store(name, RootFile(file)), Store(name, path);
    assert Rank(env, a, i) == 4 && Rank(env, b, i) == 2;
    assert Rank(env, a, j) <= 4 && Rank(env, b, j) == 4;
    ElectsAt(env, [a, b], i, 1);
    ElectsAt(env, [a, b], j, 0);
  }

  lemma TellingStores(env: Env, i: Inputs, j: Inputs) returns (a: Comp, b: Comp)
    requires Cleans(env) && !SameElection(env, i, j)
    ensures Telling(env, i, j, a, b)
  {
    if n :| n in i.loaded && n !in j.loaded {
      a, b := LoadedDecides(env, i, j, n);
    } else if n :| n in j.loaded && n !in i.loaded {
      a, b := LoadedDecides(env, j, i, n);
    } else {
      assert i.loaded == j.loaded;
      var n :| n in i.loaded;
      var p :| CleanPath(env, p) && PathUnder(env, p, i.appPaths) != PathUnder(env, p, j.appPaths);
      if PathUnder(env, p, i.appPaths) {
        a, b := PathDecides(env, i, j, n, p);
      } else {
        a, b := PathDecides(env, j, i, n, p);
      }
    }
  }

  /** The inputs elect the same store from every detectable list if and only if SameElection holds. */
  lemma ElectionSettledIff(env: Env, i: Inputs, j: Inputs)
    requires Cleans(env)
    ensures (forall comps :: AllDetectable(env, comps) ==> Active(env, comps, i) == Active(env, comps, j))
            <==> SameElection(env, i, j)
  {
    if SameElection(env, i, j) {
      forall comps | AllDetectable(env, comps) ensures Active(env, comps, i) == Active(env, comps, j) {
        SameElectionElectsSame(env, i, j, comps);
      }
    } else {
      var a, b := TellingStores(env, i, j);
      assert AllDetectable(env, [a, b]);
    }
  }

  // ------------------------------------------------------- electing from what is detected

  /** Every store a file holds is reported with that file, and is one Detect can report. */
  ghost predicate DiskOk(env: Env, d: Disk) {
    forall file, c :: c in d.stores(file) ==> c.path == file && Detectable(env, c)
  }

  /** The store a reconcile of the apps elects. */
  function Elected(env: Env, d: Disk, place: Derive.Place, apps: seq<Derive.App>): Option<Comp> {
    Active(env, Resolved(d, Derive.ScanPaths(place, apps)), InputsOf(apps))
  }

  /** Whatever is on the disk, both app lists get the same store elected. */
  ghost predicate ElectedAlike(env: Env, place: Derive.Place, apps: seq<Derive.App>, others: seq<Derive.App>) {
    forall d :: DiskOk(env, d) ==> Elected(env, d, place, apps) == Elected(env, d, place, others)
  }

  lemma {:induction false} FlatMapMember<T, U>(f: T -> seq<U>, xs: seq<T>, y: U)
    requires y in FlatMap(f, xs)
    ensures exists x :: x in xs && y in f(x)
  {
    if y in f(xs[0]) {
      assert xs[0] in xs;
    } else {
      FlatMapMember(f, xs[1..], y);
      var x :| x in xs[1..] && y in f(x);
      assert x in xs;
    }
  }

  lemma ResolvedIsDetectable(env: Env, d: Disk, paths: seq<string>)
    requires DiskOk(env, d)
    ensures AllDetectable(env, Resolved(d, paths))
  {
    var found := Detect(d, paths);
    forall k | 0 <= k < |found| ensures Detectable(env, found[k]) {
      FlatMapMember(d.stores, Dedup(FlatMap(d.walk, paths), {}), found[k]);
    }
  }

  /** The same paths, each at the same first place. */
  predicate SameOrder(s: seq<string>, t: seq<string>) {
    Dedup(s, {}) == Dedup(t, {})
  }

  lemma SameOrderResolves(d: Disk, s: seq<string>, t: seq<string>)
    requires SameOrder(s, t)
    ensures Resolved(d, s) == Resolved(d, t)
  {
    SamePlacesSameFiles(d.walk, d.stores, s, t);
    SamePlacesSameFiles(d.walk, d.secretStores, s, t);
  }

  // ------------------------------------------------------- disks that tell scan paths apart

  /** The stores a and b, each in its file, with what a walk of each path meets. */
  function Holding(walk: string -> seq<string>, a: Comp, b: Comp): Disk {
    Disk(walk, (file: string) => if file == a.path then [a] else if file == b.path then [b] else [],
      (file: string) => [], (s: SecretStore, ref: SecretRef) => None)
  }

  lemma HoldingIsOk(env: Env, walk: string -> seq<string>, a: Comp, b: Comp)
    requires Detectable(env, a) && Detectable(env, b)
    ensures DiskOk(env, Holding(walk, a, b))
  {
  }

  lemma {:induction false} NothingToResolve(d: Disk, comps: seq<Comp>, stores: seq<SecretStore>)
    requires forall k :: 0 <= k < |comps| ==> comps[k].refs == map[]
    ensures ResolveAll(d, comps, stores) == comps
  {
    forall k | 0 <= k < |comps| ensures Resolve(d, comps[k], stores) == comps[k] {
      assert ResolvedMetadata(d, comps[k], stores) == comps[k].metadata;
    }
  }

  lemma HoldingResolves(walk: string -> seq<string>, a: Comp, b: Comp, paths: seq<string>)
    requires a.refs == b.refs == map[]
    ensures var d := Holding(walk, a, b);
            && Resolved(d, paths) == FlatMap(d.stores, Dedup(FlatMap(walk, Dedup(paths, {})), {}))
            && forall k :: 0 <= k < |Resolved(d, paths)| ==> Resolved(d, paths)[k] == a || Resolved(d, paths)[k] == b
  {
    var d := Holding(walk, a, b);
    RepeatsAddNothing(walk, paths, {}, {});
    var found := Detect(d, paths);
    forall k | 0 <= k < |found| ensures found[k] == a || found[k] == b {
      FlatMapMember(d.stores, Dedup(FlatMap(walk, paths), {}), found[k]);
    }
    NothingToResolve(d, found, DetectSecretStores(d, paths));
  }

  lemma {:induction false} FlatMapSkips<T, U>(f: T -> seq<U>, xs: seq<T>)
    requires forall x :: x in xs ==> f(x) == []
    ensures FlatMap(f, xs) == []
  {
    if xs != [] {
      FlatMapSkips(f, xs[1..]);
    }
  }

  lemma FlatMapFrom<T, U>(f: T -> seq<U>, xs: seq<T>, k: nat)
    requires k < |xs| && forall x :: x in xs[..k] ==> f(x) == []
    ensures FlatMap(f, xs) == f(xs[k]) + FlatMap(f, xs[k + 1..])
  {
    assert xs == xs[..k] + xs[k..] && xs[k..][1..] == xs[k + 1..];
    FlatMapAppend(f, xs[..k], xs[k..]);
    FlatMapSkips(f, xs[..k]);
  }

  /** One file under x, another under y. */
  function Apart(x: string, y: string, a: Comp, b: Comp): Disk {
    Holding((p: string) => if p == x then [a.path] else if p == y then [b.path] else [], a, b)
  }

  /** The first path at which anything is met gives the first store. */
  lemma FirstDetected(walk: string -> seq<string>, a: Comp, b: Comp, c: Comp, paths: seq<string>, k: nat)
    requires a.refs == b.refs == map[] && (c == a || (c == b && a.path != b.path))
    requires k < |Dedup(paths, {})| && walk(Dedup(paths, {})[k]) == [c.path]
    requires forall x :: x in Dedup(paths, {})[..k] ==> walk(x) == []
    ensures var r := Resolved(Holding(walk, a, b), paths); r != [] && r[0] == c
  {
    var d, places := Holding(walk, a, b), Dedup(paths, {});
    HoldingResolves(walk, a, b, paths);
    FlatMapFrom(walk, places, k);
    FirstRead(d.stores, FlatMap(walk, places), c.path);
    assert d.stores(c.path) == [c];
  }

  lemma FirstRead<T>(read: string -> seq<T>, met: seq<string>, file: string)
    requires met != [] && met[0] == file && read(file) != []
    ensures FlatMap(read, Dedup(met, {})) != [] && FlatMap(read, Dedup(met, {}))[0] == read(file)[0]
  {
    assert Dedup(met, {})[0] == file;
  }

  lemma NoneDetected(walk: string -> seq<string>, a: Comp, b: Comp, paths: seq<string>)
    requires a.refs == b.refs == map[] && forall p :: p in paths ==> walk(p) == []
    ensures Resolved(Holding(walk, a, b), paths) == []
  {
    var places := Dedup(paths, {});
    HoldingResolves(walk, a, b, paths);
    assert forall p :: p in places ==> p in paths;
    NothingMet(walk, Holding(walk, a, b).stores, places);
  }

  lemma NothingMet<T>(walk: string -> seq<string>, read: string -> seq<T>, places: seq<string>)
    requires forall x :: x in places ==> walk(x) == []
    ensures FlatMap(read, Dedup(FlatMap(walk, places), {})) == []
  {
    FlatMapSkips(walk, places);
  }

  lemma FirstOfEqualsWins(env: Env, comps: seq<Comp>, i: Inputs, r: nat)
    requires comps != [] && forall k :: 0 <= k < |comps| ==> Rank(env, comps[k], i) == r
    ensures Active(env, comps, i) == Some(comps[0])
  {
    ElectsAt(env, comps, i, 0);
  }

  /** Where two orders first differ. */
  lemma FirstDifference(s: seq<string>, t: seq<string>) returns (k: nat)
    requires s != t
    ensures k <= |s| && k <= |t| && s[..k] == t[..k]
    ensures (k == |s|) != (k == |t|) || (k < |s| && k < |t| && s[k] != t[k])
  {
    if s == [] || t == [] || s[0] != t[0] {
      k := 0;
    } else {
      assert s == [s[0]] + s[1..] && t == [t[0]] + t[1..];
      var n := FirstDifference(s[1..], t[1..]);
      k := n + 1;
      assert s[..k] == [s[0]] + s[1..][..n] && t[..k] == [t[0]] + t[1..][..n];
    }
  }

  /** Two stores that nothing prefers: no app has loaded them. */
  lemma Indifferent(env: Env, i: Inputs, j: Inputs) returns (a: Comp, b: Comp)
    requires Cleans(env)
    ensures Detectable(env, a) && Detectable(env, b) && a != b && a.path != b.path && a.refs == b.refs == map[]
    ensures Rank(env, a, i) == Rank(env, b, i) == Rank(env, a, j) == Rank(env, b, j) == 6
  {
    var name := FreshName(i.loaded + j.loaded);
    a, b := Store(name, RootFile("a")), Store(name, RootFile("b"));
    RootFilesDiffer(env);
    assert name !in i.loaded && name !in j.loaded;
  }

  /** Scan paths in another order detect in another order. */
  lemma OrderTells(env: Env, s: seq<string>, t: seq<string>, i: Inputs, j: Inputs) returns (d: Disk)
    requires Cleans(env) && !SameOrder(s, t)
    ensures DiskOk(env, d) && Active(env, Resolved(d, s), i) != Active(env, Resolved(d, t), j)
  {
    var a, b := Indifferent(env, i, j);
    var ps, pt := Dedup(s, {}), Dedup(t, {});
    var k := FirstDifference(ps, pt);
    if k == |pt| {
      d := ExtraTells(env, s, t, i, j, a, b, k);
    } else if k == |ps| {
      d := ExtraTells(env, t, s, j, i, a, b, k);
    } else {
      var x, y := ps[k], pt[k];
      d := Apart(x, y, a, b);
      HoldingIsOk(env, d.walk, a, b);
      assert y !in ps[..k] && x !in pt[..k];
      assert x !in ps[..k] && y !in pt[..k];
      FirstDetected(d.walk, a, b, a, s, k);
      FirstIsElected(env, d, a, b, s, i);
      FirstDetected(d.walk, a, b, b, t, k);
      FirstIsElected(env, d, a, b, t, j);
    }
  }

  lemma FirstIsElected(env: Env, d: Disk, a: Comp, b: Comp, paths: seq<string>, i: Inputs)
    requires a.refs == b.refs == map[] && d == Holding(d.walk, a, b) && Resolved(d, paths) != []
    requires Rank(env, a, i) == Rank(env, b, i) == 6
    ensures Active(env, Resolved(d, paths), i) == Some(Resolved(d, paths)[0])
  {
    HoldingResolves(d.walk, a, b, paths);
    FirstOfEqualsWins(env, Resolved(d, paths), i, 6);
  }

  /** A path that only s has can hold the one store there is. */
  lemma ExtraTells(env: Env, s: seq<string>, t: seq<string>, i: Inputs, j: Inputs, a: Comp, b: Comp, k: nat)
    returns (d: Disk)
    requires Detectable(env, a) && Detectable(env, b) && a.refs == b.refs == map[]
    requires k == |Dedup(t, {})| < |Dedup(s, {})| && Dedup(s, {})[..k] == Dedup(t, {})
    ensures DiskOk(env, d) && Active(env, Resolved(d, s), i) != Active(env, Resolved(d, t), j)
  {
    var x := Dedup(s, {})[k];
    d := Apart(x, x, a, b);
    HoldingIsOk(env, d.walk, a, b);
    assert x !in Dedup(s, {})[..k];
    FirstDetected(d.walk, a, b, a, s, k);
    assert x !in Dedup(t, {});
    NoneDetected(d.walk, a, b, t);
  }

  /** With both stores under the first path and none elsewhere, the two are detected in order. */
  lemma BothDetected(walk: string -> seq<string>, a: Comp, b: Comp, paths: seq<string>)
    requires a.refs == b.refs == map[] && a.path != b.path && paths != []
    requires walk(paths[0]) == [a.path, b.path] && forall x :: x != paths[0] ==> walk(x) == []
    ensures Resolved(Holding(walk, a, b), paths) == [a, b]
  {
    var d, places := Holding(walk, a, b), Dedup(paths, {});
    HoldingResolves(walk, a, b, paths);
    FirstPlace(paths);
    BothMet(walk, places, a.path, b.path);
    DedupFew(a.path, b.path);
    BothRead(d, a, b);
  }

  lemma BothRead(d: Disk, a: Comp, b: Comp)
    requires d.stores(a.path) == [a] && d.stores(b.path) == [b]
    ensures FlatMap(d.stores, [a.path, b.path]) == [a, b]
  {
    FlatMapTwo(d.stores, a.path, b.path);
    assert [a] + [b] == [a, b];
  }

  lemma FirstPlace(paths: seq<string>)
    requires paths != []
    ensures var places := Dedup(paths, {}); places != [] && places[0] == paths[0] && paths[0] !in places[1..]
  {
    var places := Dedup(paths, {});
    assert places == [paths[0]] + Dedup(paths[1..], {} + {paths[0]});
  }

  lemma BothMet(walk: string -> seq<string>, places: seq<string>, f: string, g: string)
    requires places != [] && walk(places[0]) == [f, g] && forall x :: x in places[1..] ==> walk(x) == []
    ensures FlatMap(walk, places) == [f, g]
  {
    FlatMapSkips(walk, places[1..]);
    assert [f, g] + [] == [f, g];
  }

  /**
   * Whatever is on the disk, two app lists get the same store elected: if and only if their scan
   * paths come in the same order, and, if there are any, their inputs are alike.
   */
  lemma ElectedAlikeIff(env: Env, place: Derive.Place, apps: seq<Derive.App>, others: seq<Derive.App>)
    requires Cleans(env)
    ensures var s, t := Derive.ScanPaths(place, apps), Derive.ScanPaths(place, others);
            ElectedAlike(env, place, apps, others)
            <==> SameOrder(s, t) && (s == [] || SameElection(env, InputsOf(apps), InputsOf(others)))
  {
    var s, t := Derive.ScanPaths(place, apps), Derive.ScanPaths(place, others);
    var i, j := InputsOf(apps), InputsOf(others);
    if !SameOrder(s, t) {
      var d := OrderTells(env, s, t, i, j);
      assert Elected(env, d, place, apps) != Elected(env, d, place, others);
    } else if s != [] && !SameElection(env, i, j) {
      var d := InputsTell(env, s, i, j);
      SameOrderResolves(d, s, t);
      assert Elected(env, d, place, apps) != Elected(env, d, place, others);
    } else {
      forall d | DiskOk(env, d) ensures Elected(env, d, place, apps) == Elected(env, d, place, others) {
        SameOrderResolves(d, s, t);
        ResolvedIsDetectable(env, d, s);
        if s != [] {
          SameElectionElectsSame(env, i, j, Resolved(d, s));
        }
      }
    }
  }

  lemma InputsTell(env: Env, s: seq<string>, i: Inputs, j: Inputs) returns (d: Disk)
    requires Cleans(env) && s != [] && !SameElection(env, i, j)
    ensures DiskOk(env, d) && Active(env, Resolved(d, s), i) != Active(env, Resolved(d, s), j)
  {
    var a, b := TellingStores(env, i, j);
    var walk := (p: string) => if p == s[0] then [a.path, b.path] else [];
    d := Holding(walk, a, b);
    HoldingIsOk(env, walk, a, b);
    BothDetected(walk, a, b, s);
  }

  // ------------------------------------------------------- what the fingerprint settles

  predicate EqualFingerprints(dir: string -> string, apps: seq<Derive.App>, others: seq<Derive.App>) {
    && Derive.CleanGroups(Derive.GroupsOf(dir, apps)) && Derive.CleanGroups(Derive.GroupsOf(dir, others))
    && Derive.FingerprintText(dir, apps) == Derive.FingerprintText(dir, others)
  }

  /** What the fingerprint leaves open agrees: the stopped apps' stores, and the paths no running app provides. */
  predicate SameRest(dir: string -> string, apps: seq<Derive.App>, others: seq<Derive.App>) {
    && multiset(FlatMap(Derive.StoppedStores(), apps))
       == multiset(FlatMap(Derive.StoppedStores(), others))
    && multiset(FlatMap(Derive.OtherPaths(dir), apps))
       == multiset(FlatMap(Derive.OtherPaths(dir), others))
  }

  /** The same loaded names and running paths, each as often. */
  predicate SameInputs(apps: seq<Derive.App>, others: seq<Derive.App>) {
    && multiset(FlatMap(Derive.LoadedNames(), apps))
       == multiset(FlatMap(Derive.LoadedNames(), others))
    && multiset(FlatMap(Derive.RunningPaths(), apps))
       == multiset(FlatMap(Derive.RunningPaths(), others))
  }

  lemma SameMembers(xs: seq<string>, ys: seq<string>)
    requires multiset(xs) == multiset(ys)
    ensures forall x :: x in xs <==> x in ys
  {
    assert forall x :: (x in xs <==> x in multiset(xs)) && (x in ys <==> x in multiset(ys));
  }

  lemma SamePathsUnder(env: Env, p: string, xs: seq<string>, ys: seq<string>)
    requires forall x :: x in xs ==> x in ys
    ensures PathUnder(env, p, xs) ==> PathUnder(env, p, ys)
  {
    if PathUnder(env, p, xs) {
      var i :| 0 <= i < |xs| && Covers(env, xs[i], p);
      assert xs[i] in ys;
      var k :| 0 <= k < |ys| && ys[k] == xs[i];
      assert Covers(env, ys[k], p);
    }
  }

  /**
   * App lists with equal fingerprints have equal election inputs if and only if the rest agrees, too.
   * Then they get the same store elected on every disk if and only if their scan paths come in the
   * same order, as with an explicit path.
   */
  lemma FingerprintSettlesElection(
    env: Env, dir: string -> string, place: Derive.Place, apps: seq<Derive.App>, others: seq<Derive.App>)
    requires Cleans(env) && EqualFingerprints(dir, apps, others)
    ensures SameRest(dir, apps, others)
            <==> SameInputs(apps, others)
    ensures SameRest(dir, apps, others) ==>
              (ElectedAlike(env, place, apps, others)
               <==> SameOrder(Derive.ScanPaths(place, apps), Derive.ScanPaths(place, others)))
    ensures SameRest(dir, apps, others) && place.explicit != "" ==> ElectedAlike(env, place, apps, others)
  {
    Derive.FingerprintSettlesLoaded(dir, apps, others);
    Derive.FingerprintSettlesPaths(dir, apps, others);
    if SameRest(dir, apps, others) {
      SameInputsElect(env, apps, others);
      ElectedAlikeIff(env, place, apps, others);
    }
  }

  lemma SameInputsElect(env: Env, apps: seq<Derive.App>, others: seq<Derive.App>)
    requires SameInputs(apps, others)
    ensures SameElection(env, InputsOf(apps), InputsOf(others))
  {
    var i, j := InputsOf(apps), InputsOf(others);
    SameMembers(FlatMap(Derive.LoadedNames(), apps), FlatMap(Derive.LoadedNames(), others));
    SameMembers(i.appPaths, j.appPaths);
    forall p ensures PathUnder(env, p, i.appPaths) == PathUnder(env, p, j.appPaths) {
      SamePathsUnder(env, p, i.appPaths, j.appPaths);
      SamePathsUnder(env, p, j.appPaths, i.appPaths);
    }
  }

  // ------------------------------------------------------- what it leaves open

  /**
   * Two apps that swap stores have one fingerprint, and of two stores detected in the same order
   * the one that the running app has loaded is elected in turn.
   */
  lemma SwappedStoresElectDifferently(
    env: Env, d: Disk, dir: string -> string, place: Derive.Place, a: Comp, b: Comp)
    requires a.name != b.name
    requires Resolved(d, Derive.ScanPaths(place, [])) == [a, b]
    ensures var apps, others := Derive.Pair(a.name, b.name), Derive.Pair(b.name, a.name);
            && Derive.FingerprintText(dir, apps) == Derive.FingerprintText(dir, others)
            && Elected(env, d, place, apps) == Some(a)
            && Elected(env, d, place, others) == Some(b)
  {
    Derive.SwappedStoresLookAlike(dir, a.name, b.name);
    RunningStoreWins(env, d, place, a.name, b.name, a, b, 0);
    RunningStoreWins(env, d, place, b.name, a.name, a, b, 1);
  }

  lemma RunningStoreWins(
    env: Env, d: Disk, place: Derive.Place, s: string, t: string, a: Comp, b: Comp, k: nat)
    requires a.name != b.name && k < 2 && s == [a, b][k].name
    requires Resolved(d, Derive.ScanPaths(place, [])) == [a, b]
    ensures Elected(env, d, place, Derive.Pair(s, t)) == Some([a, b][k])
  {
    Derive.PairScansNothing(place, s, t);
    PairLoads(s, t);
    LoadedWins(env, InputsOf(Derive.Pair(s, t)), a, b, k);
  }

  lemma PairLoads(s: string, t: string)
    ensures InputsOf(Derive.Pair(s, t)).loaded == {s}
  {
    Derive.SwappedStoresLookAlike(p => p, s, t);
    LoadedOnly(Derive.Pair(s, t), [s]);
  }

  lemma LoadedOnly(apps: seq<Derive.App>, names: seq<string>)
    requires FlatMap(Derive.LoadedNames(), apps) == names
    ensures InputsOf(apps).loaded == set n | n in names
  {
  }

  lemma LoadedWins(env: Env, i: Inputs, a: Comp, b: Comp, k: nat)
    requires a.name != b.name && k < 2 && i.loaded == {[a, b][k].name}
    ensures Active(env, [a, b], i) == Some([a, b][k])
  {
    var comps := [a, b];
    assert Rank(env, comps[k], i) <= 4 && Rank(env, comps[1 - k], i) >= 5;
    ElectsAt(env, comps, i, k);
  }

  /** The disk holds the store a, and nothing else, under x, b under y, and nothing under the home directory. */
  ghost predicate OneUnderEach(env: Env, d: Disk, place: Derive.Place, x: string, y: string, a: Comp, b: Comp) {
    && place.explicit == "" && (place.home.Some? ==> d.walk(place.home.value) == [])
    && d.walk(x) == [a.path] && d.walk(y) == [b.path] && a.path != b.path && a.path != "" && b.path != ""
    && Covers(env, x, a.path) && Covers(env, y, b.path)
    && d.stores(a.path) == [a] && d.stores(b.path) == [b] && a.refs == b.refs == map[]
  }

  /**
   * Two running apps that swap their paths and stores: one fingerprint, nothing else differs, and
   * each time the store of the first app is elected.
   */
  lemma SwappedPathsElectDifferently(
    env: Env, d: Disk, dir: string -> string, place: Derive.Place, x: string, y: string, a: Comp, b: Comp)
    requires OneUnderEach(env, d, place, x, y, a, b) && Actor(a) == Actor(b)
    ensures var apps, others := Derive.Two(x, a.name, y, b.name), Derive.Two(y, b.name, x, a.name);
            && Derive.FingerprintText(dir, apps) == Derive.FingerprintText(dir, others)
            && SameRest(dir, apps, others)
            && Elected(env, d, place, apps) == Some(a)
            && Elected(env, d, place, others) == Some(b)
  {
    Derive.SwappedTwoLookAlike(dir, x, a.name, y, b.name);
    Derive.TwoGives(dir, place, x, a.name, y, b.name);
    Derive.TwoGives(dir, place, y, b.name, x, a.name);
    FirstAppsStore(env, d, place, x, y, a, b);
    FirstAppsStore(env, d, place, y, x, b, a);
  }

  lemma FirstAppsStore(env: Env, d: Disk, place: Derive.Place, x: string, y: string, a: Comp, b: Comp)
    requires OneUnderEach(env, d, place, x, y, a, b) && Actor(a) == Actor(b)
    ensures Elected(env, d, place, Derive.Two(x, a.name, y, b.name)) == Some(a)
  {
    var apps := Derive.Two(x, a.name, y, b.name);
    Derive.TwoGives(d => d, place, x, a.name, y, b.name);
    EachDetected(env, d, place, x, y, a, b);
    LoadedOnly(apps, [a.name, b.name]);
    BothProvided(env, x, y, a, b, InputsOf(apps));
  }

  lemma BothProvided(env: Env, x: string, y: string, a: Comp, b: Comp, i: Inputs)
    requires a.name in i.loaded && b.name in i.loaded && i.appPaths == [x, y] && Actor(a) == Actor(b)
    requires a.path != "" && b.path != "" && Covers(env, x, a.path) && Covers(env, y, b.path)
    ensures Active(env, [a, b], i) == Some(a)
  {
    assert Covers(env, i.appPaths[0], a.path) && Covers(env, i.appPaths[1], b.path);
    FirstOfEqualsWins(env, [a, b], i, if Actor(a) then 1 else 2);
  }

  lemma EachDetected(env: Env, d: Disk, place: Derive.Place, x: string, y: string, a: Comp, b: Comp)
    requires OneUnderEach(env, d, place, x, y, a, b)
    ensures Resolved(d, (if place.home.Some? then [place.home.value] else []) + [x, y]) == [a, b]
  {
    var home := if place.home.Some? then [place.home.value] else [];
    FlatMapAppend(d.walk, home, [x, y]);
    FlatMapTwo(d.walk, x, y);
    FlatMapSkips(d.walk, home);
    assert [] + ([a.path] + [b.path]) == [a.path, b.path];
    DedupFew(a.path, b.path);
    BothRead(d, a, b);
    NothingToResolve(d, [a, b], DetectSecretStores(d, home + [x, y]));
  }
}
