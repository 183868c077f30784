/**
 * The apps-derived inputs and their fingerprint: cmd/derive.go. The hash is left out: a
 * fingerprint is the text hashed.
 */
module Derive {
  import opened Basics
  import opened Like
  import opened Sorting

  datatype Component = Component(name: string, kind: string)

  datatype App = App(id: string, resourcePaths: seq<string>, configPath: string, components: seq<Component>,
    daprdStatus: string)

  predicate Running(a: App) {
    a.daprdStatus != "stopped"
  }

  // ------------------------------------------------------- the four groups

  function Without<T>(xs: seq<T>, j: nat): seq<T>
    requires j < |xs|
  {
    xs[..j] + xs[j + 1..]
  }

  lemma WithoutMultiset<T>(xs: seq<T>, j: nat)
    requires j < |xs|
    ensures multiset(Without(xs, j)) == multiset(xs) - multiset{xs[j]}
  {
    assert xs == xs[..j] + ([xs[j]] + xs[j + 1..]);
  }

  lemma {:induction false} FlatMapWithout<T, U>(f: T -> seq<U>, xs: seq<T>, j: nat)
    requires j < |xs|
    ensures multiset(FlatMap(f, xs)) == multiset(f(xs[j])) + multiset(FlatMap(f, Without(xs, j)))
  {
    if j == 0 {
      assert Without(xs, 0) == xs[1..];
    } else {
      FlatMapWithout(f, xs[1..], j - 1);
      assert Without(xs, j)[1..] == Without(xs[1..], j - 1);
    }
  }

  /** The order of the elements does not matter to what the result holds. */
  lemma {:induction false} FlatMapPermutes<T, U>(f: T -> seq<U>, xs: seq<T>, ys: seq<T>)
    requires multiset(xs) == multiset(ys)
    ensures multiset(FlatMap(f, xs)) == multiset(FlatMap(f, ys))
    decreases |xs|
  {
    if xs == [] {
      assert |multiset(ys)| == 0;
    } else {
      assert xs[0] in multiset(ys);
      var j :| 0 <= j < |ys| && ys[j] == xs[0];
      WithoutMultiset(ys, j);
      WithoutMultiset(xs, 0);
      assert Without(xs, 0) == xs[1..];
      FlatMapPermutes(f, xs[1..], Without(ys, j));
      FlatMapWithout(f, ys, j);
    }
  }

  function Names(): Component -> seq<string> {
    (c: Component) => if StartsWith(c.kind, "state.") then [c.name] else []
  }

  function Ids(): App -> seq<string> {
    (a: App) => [a.id]
  }

  /** An app's resource paths and the directory of its config file. */
  function PathsOf(dir: string -> string, a: App): seq<string> {
    a.resourcePaths + if a.configPath != "" then [dir(a.configPath)] else []
  }

  function Paths(dir: string -> string): App -> seq<string> {
    (a: App) => PathsOf(dir, a)
  }

  function StoresOf(a: App): seq<string> {
    FlatMap(Names(), a.components)
  }

  function Stores(): App -> seq<string> {
    (a: App) => StoresOf(a)
  }

  function RunningIds(): App -> seq<string> {
    (a: App) => if Running(a) then [a.id] else []
  }

  datatype Groups = Groups(ids: seq<string>, paths: seq<string>, stores: seq<string>, running: seq<string>)

  function GroupsOf(dir: string -> string, apps: seq<App>): Groups {
    Groups(FlatMap(Ids(), apps), FlatMap(Paths(dir), apps), FlatMap(Stores(), apps), FlatMap(RunningIds(), apps))
  }

  function SortGroups(g: Groups): Groups {
    Groups(SortStrings(g.ids), SortStrings(g.paths), SortStrings(g.stores), SortStrings(g.running))
  }

  // ------------------------------------------------------- the encoding

  const NUL: char := 0 as char
  const SOH: char := 1 as char

  function EncodeGroup(items: seq<string>): string {
    if items == [] then "" else items[0] + [NUL] + EncodeGroup(items[1..])
  }

  function Encode(g: Groups): string {
    EncodeGroup(g.ids)
    + ([SOH] + (EncodeGroup(g.paths) + ([SOH] + (EncodeGroup(g.stores) + ([SOH] + EncodeGroup(g.running))))))
  }

  /** An item the encoding keeps apart from its separators. */
  predicate CleanItem(s: string) {
    NUL !in s && (s == "" || s[0] != SOH)
  }

  predicate CleanItems(items: seq<string>) {
    forall i :: 0 <= i < |items| ==> CleanItem(items[i])
  }

  predicate CleanGroups(g: Groups) {
    CleanItems(g.ids) && CleanItems(g.paths) && CleanItems(g.stores) && CleanItems(g.running)
  }

  /** The text up to the first NUL, and what follows it. */
  function UntilNul(s: string): (r: Option<(string, string)>)
    ensures r.Some? ==> NUL !in r.value.0 && s == r.value.0 + [NUL] + r.value.1
  {
    if s == "" then None
    else if s[0] == NUL then assert s == "" + [NUL] + s[1..]; Some(("", s[1..]))
    else
      match UntilNul(s[1..])
      case None => None
      case Some((item, rest)) =>
        assert s == [s[0]] + s[1..] && s[0] != NUL;
        Some(([s[0]] + item, rest))
  }

  /** Reads items up to a separator or the end. */
  function ParseGroup(s: string): (r: Option<(seq<string>, string)>)
    ensures r.Some? ==> CleanItems(r.value.0) && s == EncodeGroup(r.value.0) + r.value.1
    decreases |s|
  {
    if s == "" || s[0] == SOH then
      assert s == EncodeGroup([]) + s;
      Some(([], s))
    else
      match UntilNul(s)
      case None => None
      case Some((item, rest)) =>
        match ParseGroup(rest)
        case None => None
        case Some((items, rest')) =>
          assert item != "" ==> item[0] == s[0];
          EncodeCons(item, items, rest');
          Some(([item] + items, rest'))
  }

  lemma EncodeCons(item: string, items: seq<string>, rest: string)
    ensures EncodeGroup([item] + items) + rest == item + [NUL] + (EncodeGroup(items) + rest)
    ensures CleanItem(item) && CleanItems(items) ==> CleanItems([item] + items)
  {
    assert ([item] + items)[1..] == items;
    Assoc(item + [NUL], EncodeGroup(items), rest);
  }

  lemma {:induction false} UntilNulFinds(item: string, rest: string)
    requires NUL !in item
    ensures UntilNul(item + [NUL] + rest) == Some((item, rest))
  {
    if item == "" {
      assert ("" + [NUL] + rest)[1..] == rest;
    } else {
      UntilNulFinds(item[1..], rest);
      assert (item + [NUL] + rest)[1..] == item[1..] + [NUL] + rest;
      assert [item[0]] + item[1..] == item;
    }
  }

  lemma {:induction false} ParseGroupInverts(items: seq<string>, rest: string)
    requires CleanItems(items) && (rest == "" || rest[0] == SOH)
    ensures ParseGroup(EncodeGroup(items) + rest) == Some((items, rest))
  {
    if items == [] {
      assert "" + rest == rest;
    } else {
      var tail := EncodeGroup(items[1..]) + rest;
      assert EncodeGroup(items) + rest == items[0] + [NUL] + tail;
      UntilNulFinds(items[0], tail);
      ParseGroupInverts(items[1..], rest);
      assert [items[0]] + items[1..] == items;
      assert CleanItem(items[0]);
    }
  }

  /** A group and the separator that ends it. */
  function ParseSeparated(s: string): (r: Option<(seq<string>, string)>)
    ensures r.Some? ==> CleanItems(r.value.0)
  {
    match ParseGroup(s)
    case None => None
    case Some((items, rest)) => if rest == "" then None else Some((items, rest[1..]))
  }

  lemma ParseSeparatedInverts(items: seq<string>, rest: string)
    requires CleanItems(items)
    ensures ParseSeparated(EncodeGroup(items) + ([SOH] + rest)) == Some((items, rest))
  {
    ParseGroupInverts(items, [SOH] + rest);
    assert ([SOH] + rest)[1..] == rest;
  }

  function Parse(s: string): (r: Option<Groups>)
    ensures r.Some? ==> CleanGroups(r.value)
  {
    match ParseSeparated(s)
    case None => None
    case Some((ids, s1)) =>
      match ParseSeparated(s1)
      case None => None
      case Some((paths, s2)) =>
        match ParseSeparated(s2)
        case None => None
        case Some((stores, s3)) =>
          match ParseGroup(s3)
          case None => None
          case Some((running, s4)) => if s4 == "" then Some(Groups(ids, paths, stores, running)) else None
  }

  /** Parse reads every clean group list back, and never returns another. */
  lemma EncodeCanBeReadBack(g: Groups)
    ensures Parse(Encode(g)) == Some(g) <==> CleanGroups(g)
  {
    if CleanGroups(g) {
      var s3 := EncodeGroup(g.running);
      var s2 := EncodeGroup(g.stores) + ([SOH] + s3);
      var s1 := EncodeGroup(g.paths) + ([SOH] + s2);
      ParseSeparatedInverts(g.ids, s1);
      ParseSeparatedInverts(g.paths, s2);
      ParseSeparatedInverts(g.stores, s3);
      ParseGroupInverts(g.running, "");
      assert s3 + "" == s3;
    }
  }

  /** However it is decoded: clean group lists with the same text are the same. */
  lemma CleanEncodingsDiffer(g: Groups, h: Groups)
    requires CleanGroups(g) && CleanGroups(h) && Encode(g) == Encode(h)
    ensures g == h
  {
    EncodeCanBeReadBack(g);
    EncodeCanBeReadBack(h);
  }

  // ------------------------------------------------------- the fingerprint

  function FingerprintText(dir: string -> string, apps: seq<App>): string {
    Encode(SortGroups(GroupsOf(dir, apps)))
  }

  predicate SameMultisets(g: Groups, h: Groups) {
    && multiset(g.ids) == multiset(h.ids) && multiset(g.paths) == multiset(h.paths)
    && multiset(g.stores) == multiset(h.stores) && multiset(g.running) == multiset(h.running)
  }

  lemma SameSortedGroups(g: Groups, h: Groups)
    ensures SortGroups(g) == SortGroups(h) <==> SameMultisets(g, h)
  {
    SameSortIffSameMultiset(g.ids, h.ids);
    SameSortIffSameMultiset(g.paths, h.paths);
    SameSortIffSameMultiset(g.stores, h.stores);
    SameSortIffSameMultiset(g.running, h.running);
  }

  lemma SortKeepsClean(items: seq<string>)
    requires CleanItems(items)
    ensures CleanItems(SortStrings(items))
  {
    SortPermutes(Less, items);
    forall i | 0 <= i < |SortStrings(items)| ensures CleanItem(SortStrings(items)[i]) {
      assert SortStrings(items)[i] in multiset(SortStrings(items));
      assert SortStrings(items)[i] in multiset(items);
    }
  }

  lemma SortKeepsCleanGroups(g: Groups)
    requires CleanGroups(g)
    ensures CleanGroups(SortGroups(g))
  {
    SortKeepsClean(g.ids);
    SortKeepsClean(g.paths);
    SortKeepsClean(g.stores);
    SortKeepsClean(g.running);
  }

  /** Equal fingerprints mean equal groups, as multisets, and the other way round. */
  lemma FingerprintsAgree(dir: string -> string, apps: seq<App>, others: seq<App>)
    requires CleanGroups(GroupsOf(dir, apps)) && CleanGroups(GroupsOf(dir, others))
    ensures FingerprintText(dir, apps) == FingerprintText(dir, others)
            <==> SameMultisets(GroupsOf(dir, apps), GroupsOf(dir, others))
  {
    var g, h := GroupsOf(dir, apps), GroupsOf(dir, others);
    SortKeepsCleanGroups(g);
    SortKeepsCleanGroups(h);
    EncodeCanBeReadBack(SortGroups(g));
    EncodeCanBeReadBack(SortGroups(h));
    SameSortedGroups(g, h);
  }

  /** The order in which apps are listed never matters, clean items or not. */
  lemma AppOrderIsIrrelevant(dir: string -> string, apps: seq<App>, others: seq<App>)
    requires multiset(apps) == multiset(others)
    ensures FingerprintText(dir, apps) == FingerprintText(dir, others)
  {
    FlatMapPermutes(Ids(), apps, others);
    FlatMapPermutes(Paths(dir), apps, others);
    FlatMapPermutes(Stores(), apps, others);
    FlatMapPermutes(RunningIds(), apps, others);
    SameSortedGroups(GroupsOf(dir, apps), GroupsOf(dir, others));
  }

  // ------------------------------------------------------- when the fingerprint tells app lists apart

  lemma OneApp<U>(f: App -> seq<U>, a: App)
    ensures FlatMap(f, [a]) == f(a)
  {
    assert FlatMap(f, [a]) == f(a) + [];
  }

  lemma OneStore(name: string, kind: string)
    requires StartsWith(kind, "state.")
    ensures FlatMap(Names(), [Component(name, kind)]) == [name]
  {
    assert FlatMap(Names(), [Component(name, kind)]) == Names()(Component(name, kind)) + [];
  }

  lemma TwoStores(name: string, other: string, kind: string)
    requires StartsWith(kind, "state.")
    ensures FlatMap(Names(), [Component(name, kind), Component(other, kind)]) == [name, other]
  {
    OneStore(other, kind);
    assert [Component(name, kind), Component(other, kind)][1..] == [Component(other, kind)];
  }

  lemma TwoApps<U>(f: App -> seq<U>, a: App, b: App)
    ensures FlatMap(f, [a, b]) == f(a) + f(b)
  {
    assert [a, b][1..] == [b];
    OneApp(f, b);
  }

  const REDIS := "state.redis"

  /** A stopped app with the given stores. */
  function Idle(id: string, paths: seq<string>, stores: seq<Component>): App {
    App(id, paths, "", stores, "stopped")
  }

  lemma IdleGroups(dir: string -> string, a: App, stores: seq<string>)
    requires a.configPath == "" && !Running(a) && StoresOf(a) == stores
    ensures GroupsOf(dir, [a]) == Groups([a.id], a.resourcePaths, stores, [])
  {
    OneApp(Ids(), a);
    OneApp(Paths(dir), a);
    OneApp(Stores(), a);
    OneApp(RunningIds(), a);
  }

  lemma TwoIdleGroups(dir: string -> string, a: App, b: App)
    requires a.configPath == b.configPath == "" && !Running(a) && !Running(b)
    ensures GroupsOf(dir, [a, b])
            == Groups([a.id, b.id], a.resourcePaths + b.resourcePaths, StoresOf(a) + StoresOf(b), [])
  {
    TwoApps(Ids(), a, b);
    TwoApps(Paths(dir), a, b);
    TwoApps(Stores(), a, b);
    TwoApps(RunningIds(), a, b);
    assert PathsOf(dir, a) == a.resourcePaths && PathsOf(dir, b) == b.resourcePaths;
  }

  lemma SortFew(s: string)
    ensures SortStrings([]) == [] && SortStrings([s]) == [s] && SortStrings(["", s]) == ["", s]
  {
    assert [s][1..] == [] && ["", s][1..] == [s];
    assert SortBy(Less, [s]) == Insert(Less, s, []) == [s];
    assert SortBy(Less, ["", s]) == Insert(Less, "", [s]) == [""] + [s];
  }

  lemma EncodeFew(s: string)
    ensures EncodeGroup([]) == "" && EncodeGroup([s]) == s + [NUL] && EncodeGroup(["", s]) == [NUL] + s + [NUL]
  {
    assert [s][1..] == [] && ["", s][1..] == [s];
    assert EncodeGroup([s]) == s + [NUL] + "";
    assert EncodeGroup(["", s]) == "" + [NUL] + EncodeGroup([s]);
  }

  /** Two lists of stopped apps, one with an item that begins with byte 1: their fingerprints are equal. */
  lemma SeparatorFirstCollides(dir: string -> string, x: string)
    ensures var s := [SOH] + x;
            var apps := [Idle("", [""], [Component(x, REDIS)]), Idle(s, [], [])];
            var others := [Idle("", [x], [Component("", REDIS), Component(s, REDIS)])];
            && GroupsOf(dir, apps) == Groups(["", s], [""], [x], [])
            && GroupsOf(dir, others) == Groups([""], [x], ["", s], [])
            && FingerprintText(dir, apps) == FingerprintText(dir, others)
  {
    var s := [SOH] + x;
    OneStore(x, REDIS);
    TwoStores("", s, REDIS);
    TwoIdleGroups(dir, Idle("", [""], [Component(x, REDIS)]), Idle(s, [], []));
    IdleGroups(dir, Idle("", [x], [Component("", REDIS), Component(s, REDIS)]), ["", s]);
    SortFew(s);
    SortFew(x);
    SortFew("");
    SameText(x);
  }

  lemma SameText(x: string)
    ensures var s := [SOH] + x; Encode(Groups(["", s], [""], [x], [])) == Encode(Groups([""], [x], ["", s], []))
  {
    var s := [SOH] + x;
    EncodeFew(s);
    EncodeFew(x);
    EncodeFew("");
    assert Encode(Groups(["", s], [""], [x], []))
        == [NUL, SOH] + x + [NUL, SOH, NUL, SOH] + x + [NUL, SOH];
    assert Encode(Groups([""], [x], ["", s], []))
        == [NUL, SOH] + x + [NUL, SOH, NUL, SOH] + x + [NUL, SOH];
  }

  /** Two lists of one stopped app, one with an item that begins with byte 0. */
  lemma NulFirstCollides(dir: string -> string, x: string)
    ensures var s := [NUL] + x;
            var apps := [Idle("", [], [Component("", REDIS), Component(x, REDIS)])];
            var others := [Idle("", [], [Component(s, REDIS)])];
            && GroupsOf(dir, apps) == Groups([""], [], ["", x], [])
            && GroupsOf(dir, others) == Groups([""], [], [s], [])
            && FingerprintText(dir, apps) == FingerprintText(dir, others)
  {
    var s := [NUL] + x;
    OneStore(s, REDIS);
    TwoStores("", x, REDIS);
    IdleGroups(dir, Idle("", [], [Component("", REDIS), Component(x, REDIS)]), ["", x]);
    IdleGroups(dir, Idle("", [], [Component(s, REDIS)]), [s]);
    SortFew(s);
    SortFew(x);
    SortFew("");
    EncodeFew(s);
    EncodeFew(x);
    assert EncodeGroup(["", x]) == EncodeGroup([s]);
  }

  predicate ItemsOver(allowed: string -> bool, items: seq<string>) {
    forall i :: 0 <= i < |items| ==> allowed(items[i])
  }

  predicate GroupsOver(allowed: string -> bool, g: Groups) {
    && ItemsOver(allowed, g.ids) && ItemsOver(allowed, g.paths)
    && ItemsOver(allowed, g.stores) && ItemsOver(allowed, g.running)
  }

  /** On app lists with allowed items only, equal fingerprints mean equal multisets. */
  ghost predicate TellsApart(dir: string -> string, allowed: string -> bool) {
    forall apps, others ::
      GroupsOver(allowed, GroupsOf(dir, apps)) && GroupsOver(allowed, GroupsOf(dir, others))
      && FingerprintText(dir, apps) == FingerprintText(dir, others)
      ==> SameMultisets(GroupsOf(dir, apps), GroupsOf(dir, others))
  }

  ghost predicate SuffixClosed(allowed: string -> bool) {
    forall s: string, i :: 0 <= i <= |s| && allowed(s) ==> allowed(s[i..])
  }

  lemma OverClean(allowed: string -> bool, g: Groups)
    requires GroupsOver(allowed, g) && forall s :: allowed(s) ==> CleanItem(s)
    ensures CleanGroups(g)
  {
  }

  lemma NotApart(dir: string -> string, allowed: string -> bool, apps: seq<App>, others: seq<App>, g: Groups, h: Groups)
    requires GroupsOf(dir, apps) == g && GroupsOf(dir, others) == h
    requires GroupsOver(allowed, g) && GroupsOver(allowed, h) && !SameMultisets(g, h)
    requires FingerprintText(dir, apps) == FingerprintText(dir, others)
    ensures !TellsApart(dir, allowed)
  {
  }

  lemma OtherSizes(g: Groups, h: Groups)
    requires |g.ids| != |h.ids| || |g.stores| != |h.stores|
    ensures !SameMultisets(g, h)
  {
    assert |multiset(g.ids)| == |g.ids| && |multiset(h.ids)| == |h.ids|;
    assert |multiset(g.stores)| == |g.stores| && |multiset(h.stores)| == |h.stores|;
  }

  lemma FewOver(allowed: string -> bool, s: string, t: string)
    requires allowed(s) && allowed(t)
    ensures ItemsOver(allowed, []) && ItemsOver(allowed, [s]) && ItemsOver(allowed, [t]) && ItemsOver(allowed, [s, t])
  {
  }

  lemma NulCollides(dir: string -> string, allowed: string -> bool, x: string)
    requires allowed("") && allowed(x) && allowed([NUL] + x)
    ensures !TellsApart(dir, allowed)
  {
    var s := [NUL] + x;
    NulFirstCollides(dir, x);
    var g, h := Groups([""], [], ["", x], []), Groups([""], [], [s], []);
    OtherSizes(g, h);
    FewOver(allowed, "", x);
    FewOver(allowed, "", s);
    NotApart(dir, allowed,
      [Idle("", [], [Component("", REDIS), Component(x, REDIS)])],
      [Idle("", [], [Component(s, REDIS)])], g, h);
  }

  lemma SeparatorCollides(dir: string -> string, allowed: string -> bool, x: string)
    requires allowed("") && allowed(x) && allowed([SOH] + x)
    ensures !TellsApart(dir, allowed)
  {
    var s := [SOH] + x;
    SeparatorFirstCollides(dir, x);
    var g, h := Groups(["", s], [""], [x], []), Groups([""], [x], ["", s], []);
    OtherSizes(g, h);
    FewOver(allowed, "", s);
    FewOver(allowed, "", x);
    NotApart(dir, allowed,
      [Idle("", [""], [Component(x, REDIS)]), Idle(s, [], [])],
      [Idle("", [x], [Component("", REDIS), Component(s, REDIS)])], g, h);
  }

  /** An allowed item that is not clean has a suffix that collides. */
  lemma UncleanCollides(dir: string -> string, allowed: string -> bool, s: string)
    requires SuffixClosed(allowed) && allowed(s) && !CleanItem(s)
    ensures !TellsApart(dir, allowed)
  {
    assert s[|s|..] == "" && allowed(s[|s|..]);
    if NUL in s {
      var i :| 0 <= i < |s| && s[i] == NUL;
      assert allowed(s[i..]) && allowed(s[i + 1..]) && s[i..] == [NUL] + s[i + 1..];
      NulCollides(dir, allowed, s[i + 1..]);
    } else {
      assert allowed(s[1..]) && s == [SOH] + s[1..];
      SeparatorCollides(dir, allowed, s[1..]);
    }
  }

  lemma CleanTellsApart(dir: string -> string, allowed: string -> bool)
    requires forall s :: allowed(s) ==> CleanItem(s)
    ensures TellsApart(dir, allowed)
  {
    forall apps, others | GroupsOver(allowed, GroupsOf(dir, apps)) && GroupsOver(allowed, GroupsOf(dir, others))
      ensures FingerprintText(dir, apps) == FingerprintText(dir, others)
              ==> SameMultisets(GroupsOf(dir, apps), GroupsOf(dir, others))
    {
      OverClean(allowed, GroupsOf(dir, apps));
      OverClean(allowed, GroupsOf(dir, others));
      FingerprintsAgree(dir, apps, others);
    }
  }

  /**
   * For items from any set closed under suffixes (all strings, or all strings over some
   * characters): fingerprints tell app lists apart if and only if every allowed item is clean.
   */
  lemma TellsApartIffClean(dir: string -> string, allowed: string -> bool)
    requires SuffixClosed(allowed)
    ensures TellsApart(dir, allowed) <==> forall s :: allowed(s) ==> CleanItem(s)
  {
    if s :| allowed(s) && !CleanItem(s) {
      UncleanCollides(dir, allowed, s);
    } else {
      CleanTellsApart(dir, allowed);
    }
  }

  // ------------------------------------------------------- items that are not empty

  function NonEmptyOver(alphabet: char -> bool): string -> bool {
    (s: string) => s != "" && forall i :: 0 <= i < |s| ==> alphabet(s[i])
  }

  lemma SortAlike(s: string, t: string)
    requires s == t || Less(s, t)
    ensures SortStrings([s, t]) == [s, t] && SortStrings([t, s]) == [s, t] && SortStrings([s]) == [s]
  {
    assert [s][1..] == [] && [t][1..] == [] && [s, t][1..] == [t] && [t, s][1..] == [s];
    assert SortStrings([]) == [];
    assert SortStrings([s]) == Insert(Less, s, []) == [s] && SortStrings([t]) == Insert(Less, t, []) == [t];
    assert SortStrings([s, t]) == Insert(Less, s, [t]) && SortStrings([t, s]) == Insert(Less, t, [s]);
    LessOrdersTwo(s, t);
  }

  const NULS: string := [NUL, NUL, NUL]

  /** Two items that are byte 0 read as one item of three. */
  lemma NulsCollide(dir: string -> string)
    ensures var z := [NUL];
            var apps := [Idle(z, [], [Component(z, REDIS), Component(z, REDIS)])];
            var others := [Idle(z, [], [Component(NULS, REDIS)])];
            && GroupsOf(dir, apps) == Groups([z], [], [z, z], [])
            && GroupsOf(dir, others) == Groups([z], [], [NULS], [])
            && FingerprintText(dir, apps) == FingerprintText(dir, others)
  {
    var z := [NUL];
    OneStore(NULS, REDIS);
    TwoStores(z, z, REDIS);
    IdleGroups(dir, Idle(z, [], [Component(z, REDIS), Component(z, REDIS)]), [z, z]);
    IdleGroups(dir, Idle(z, [], [Component(NULS, REDIS)]), [NULS]);
    SortAlike(z, z);
    SortAlike(NULS, NULS);
    EncodeTwo(z, z);
    EncodeFew(NULS);
    assert EncodeGroup([z, z]) == EncodeGroup([NULS]);
  }

  lemma EncodeTwo(s: string, t: string)
    ensures EncodeGroup([s, t]) == s + [NUL] + (t + [NUL])
  {
    assert [s, t][1..] == [t];
    EncodeFew(t);
  }

  const ONE: string := [SOH]
  const TWO: string := [SOH, SOH]

  /** An idle and a running app, each with an id of bytes 1. */
  function PathVariant(): seq<App> {
    [Idle(TWO, [TWO], []), App(ONE, [], "", [], "")]
  }

  function StoreVariant(): seq<App> {
    [Idle(ONE, [], [Component(ONE, REDIS)]), App(TWO, [], "", [], "")]
  }

  /** Items that begin with byte 1: the last separators fall elsewhere. */
  lemma SeparatorsCollide(dir: string -> string)
    ensures GroupsOf(dir, PathVariant()) == Groups([TWO, ONE], [TWO], [], [ONE])
    ensures GroupsOf(dir, StoreVariant()) == Groups([ONE, TWO], [], [ONE], [TWO])
    ensures FingerprintText(dir, PathVariant()) == FingerprintText(dir, StoreVariant())
  {
    VariantGroups(dir, Idle(TWO, [TWO], []), App(ONE, [], "", [], ""));
    VariantGroups(dir, Idle(ONE, [], [Component(ONE, REDIS)]), App(TWO, [], "", [], ""));
    OneStore(ONE, REDIS);
    assert Less(ONE, TWO);
    SortAlike(ONE, TWO);
    SortAlike(TWO, TWO);
    SortAlike(ONE, ONE);
    EncodeFew(ONE);
    EncodeFew(TWO);
    SeparatorsFall(EncodeGroup([ONE, TWO]));
  }

  lemma SeparatorsFall(ids: string)
    ensures ids + ([SOH] + (TWO + [NUL] + ([SOH] + ("" + ([SOH] + (ONE + [NUL]))))))
            == ids + ([SOH] + ("" + ([SOH] + (ONE + [NUL] + ([SOH] + (TWO + [NUL]))))))
  {
    var a := [SOH] + (TWO + [NUL] + ([SOH] + ("" + ([SOH] + (ONE + [NUL])))));
    var b := [SOH] + ("" + ([SOH] + (ONE + [NUL] + ([SOH] + (TWO + [NUL])))));
    assert a == [SOH, SOH, SOH, NUL, SOH, SOH, SOH, NUL] == b;
  }

  lemma VariantGroups(dir: string -> string, a: App, b: App)
    requires a.configPath == b.configPath == "" && !Running(a) && Running(b)
    ensures GroupsOf(dir, [a, b])
            == Groups([a.id, b.id], a.resourcePaths + b.resourcePaths, StoresOf(a) + StoresOf(b), [b.id])
  {
    TwoApps(Ids(), a, b);
    TwoApps(Paths(dir), a, b);
    TwoApps(Stores(), a, b);
    TwoApps(RunningIds(), a, b);
    assert PathsOf(dir, a) == a.resourcePaths && PathsOf(dir, b) == b.resourcePaths;
  }

  lemma NulsNotApart(dir: string -> string, allowed: string -> bool)
    requires allowed([NUL]) && allowed(NULS)
    ensures !TellsApart(dir, allowed)
  {
    NulsCollide(dir);
    var g, h := Groups([[NUL]], [], [[NUL], [NUL]], []), Groups([[NUL]], [], [NULS], []);
    OtherSizes(g, h);
    FewOver(allowed, [NUL], NULS);
    FewOver(allowed, [NUL], [NUL]);
    NotApart(dir, allowed,
      [Idle([NUL], [], [Component([NUL], REDIS), Component([NUL], REDIS)])],
      [Idle([NUL], [], [Component(NULS, REDIS)])], g, h);
  }

  lemma SeparatorsNotApart(dir: string -> string, allowed: string -> bool)
    requires allowed(ONE) && allowed(TWO)
    ensures !TellsApart(dir, allowed)
  {
    SeparatorsCollide(dir);
    var g, h := Groups([TWO, ONE], [TWO], [], [ONE]), Groups([ONE, TWO], [], [ONE], [TWO]);
    OtherSizes(g, h);
    FewOver(allowed, ONE, TWO);
    FewOver(allowed, TWO, ONE);
    NotApart(dir, allowed, PathVariant(), StoreVariant(), g, h);
  }

  /**
   * For items that are not empty, as real ones are, over an alphabet: fingerprints tell app lists
   * apart if and only if the alphabet has neither byte 0 nor byte 1.
   */
  lemma TellsApartNonEmptyIff(dir: string -> string, alphabet: char -> bool)
    ensures TellsApart(dir, NonEmptyOver(alphabet)) <==> !alphabet(NUL) && !alphabet(SOH)
  {
    if alphabet(NUL) {
      NulsNotApart(dir, NonEmptyOver(alphabet));
    } else if alphabet(SOH) {
      SeparatorsNotApart(dir, NonEmptyOver(alphabet));
    } else {
      CleanTellsApart(dir, NonEmptyOver(alphabet));
    }
  }

  // ------------------------------------------------------- the loops

  method StoreNames(components: seq<Component>) returns (names: seq<string>)
    ensures names == FlatMap(Names(), components)
  {
    names := [];
    for i := 0 to |components|
      invariant names == FlatMap(Names(), components[..i])
    {
      FlatMapNext(Names(), components, i);
      if StartsWith(components[i].kind, "state.") {
        names := names + [components[i].name];
      }
    }
    assert components[..|components|] == components;
  }

  method CollectGroups(dir: string -> string, apps: seq<App>) returns (g: Groups)
    ensures g == GroupsOf(dir, apps)
  {
    var ids: seq<string>, paths: seq<string>, stores: seq<string>, running: seq<string> := [], [], [], [];
    for i := 0 to |apps|
      invariant Groups(ids, paths, stores, running) == GroupsOf(dir, apps[..i])
    {
      var a := apps[i];
      FlatMapNext(Ids(), apps, i);
      FlatMapNext(Paths(dir), apps, i);
      FlatMapNext(Stores(), apps, i);
      FlatMapNext(RunningIds(), apps, i);
      ghost var before := paths;
      ids := ids + [a.id];
      paths := paths + a.resourcePaths;
      if a.configPath != "" {
        paths := paths + [dir(a.configPath)];
      }
      assert paths == before + PathsOf(dir, a);
      var names := StoreNames(a.components);
      stores := stores + names;
      if Running(a) {
        running := running + [a.id];
      }
    }
    assert apps[..|apps|] == apps;
    g := Groups(ids, paths, stores, running);
  }

  method WriteGroup(h: string, items: seq<string>) returns (h': string)
    ensures h' == h + EncodeGroup(items)
  {
    h' := h;
    var i := 0;
    while i < |items|
      invariant 0 <= i <= |items|
      invariant h' + EncodeGroup(items[i..]) == h + EncodeGroup(items)
    {
      assert EncodeGroup(items[i..]) == items[i] + [NUL] + EncodeGroup(items[i + 1..]);
      assert h' + EncodeGroup(items[i..]) == h' + items[i] + [NUL] + EncodeGroup(items[i + 1..]);
      h' := h' + items[i] + [NUL];
      i := i + 1;
    }
    assert items[i..] == [];
  }

  /** appsFingerprint, up to the hash. */
  method AppsFingerprint(dir: string -> string, apps: seq<App>) returns (h: string)
    ensures h == FingerprintText(dir, apps)
  {
    var g := CollectGroups(dir, apps);
    var s := SortGroups(g);
    h := WriteGroup("", s.ids);
    h := WriteGroup(h + [SOH], s.paths);
    h := WriteGroup(h + [SOH], s.stores);
    h := WriteGroup(h + [SOH], s.running);
    JoinGroups(EncodeGroup(s.ids), EncodeGroup(s.paths), EncodeGroup(s.stores), EncodeGroup(s.running));
  }

  lemma JoinGroups(a: string, b: string, c: string, d: string)
    ensures "" + a + [SOH] + b + [SOH] + c + [SOH] + d == a + ([SOH] + (b + ([SOH] + (c + ([SOH] + d)))))
  {
  }

  // ------------------------------------------------------- what reconcile derives

  function LoadedNames(): App -> seq<string> {
    (a: App) => if Running(a) then StoresOf(a) else []
  }

  function RunningPaths(): App -> seq<string> {
    (a: App) => if Running(a) then a.resourcePaths else []
  }

  function ResourcePaths(): App -> seq<string> {
    (a: App) => a.resourcePaths
  }

  /** Where stores are looked for: the components directory in the home directory, if any, and an explicit path. */
  datatype Place = Place(home: Option<string>, explicit: string)

  /** The paths along which stores are detected; every app counts, stopped or not. */
  function ScanPaths(place: Place, apps: seq<App>): seq<string> {
    if place.explicit != "" then [place.explicit]
    else (if place.home.Some? then [place.home.value] else []) + FlatMap(ResourcePaths(), apps)
  }

  /** derivePaths: the scan paths and the two election inputs. */
  method DerivePaths(place: Place, apps: seq<App>)
    returns (scanPaths: seq<string>, loaded: set<string>, appPaths: seq<string>)
    ensures scanPaths == ScanPaths(place, apps)
    ensures forall s :: s in loaded <==> s in FlatMap(LoadedNames(), apps)
    ensures forall s :: s in loaded <==> exists a :: a in apps && a.daprdStatus != "stopped" && ListsStore(a, s)
    ensures appPaths == FlatMap(RunningPaths(), apps)
    ensures forall p :: p in appPaths <==> exists a :: a in apps && a.daprdStatus != "stopped" && p in a.resourcePaths
    ensures forall p :: p in scanPaths <==>
              if place.explicit != "" then p == place.explicit
              else place.home == Some(p) || exists a :: a in apps && p in a.resourcePaths
  {
    LoadedAre(apps);
    RunningPathsAre(apps);
    ScannedAre(place, apps);
    loaded, appPaths := {}, [];
    for i := 0 to |apps|
      invariant forall s :: s in loaded <==> s in FlatMap(LoadedNames(), apps[..i])
      invariant appPaths == FlatMap(RunningPaths(), apps[..i])
    {
      FlatMapNext(LoadedNames(), apps, i);
      FlatMapNext(RunningPaths(), apps, i);
      if Running(apps[i]) {
        var names := StoreNames(apps[i].components);
        assert LoadedNames()(apps[i]) == names;
        loaded := loaded + set n | n in names;
        appPaths := appPaths + apps[i].resourcePaths;
      }
    }
    assert apps[..|apps|] == apps;
    scanPaths := ScanLoop(place, apps);
  }

  lemma {:induction false} InFlatMap<T, U>(f: T -> seq<U>, xs: seq<T>, y: U)
    ensures y in FlatMap(f, xs) <==> exists x :: x in xs && y in f(x)
  {
    if xs != [] {
      InFlatMap(f, xs[1..], y);
      assert forall x :: x in xs <==> x == xs[0] || x in xs[1..];
    }
  }

  /** The app lists a state store of the name. */
  ghost predicate ListsStore(a: App, s: string) {
    exists c :: c in a.components && c.name == s && StartsWith(c.kind, "state.")
  }

  /** The loaded names are those of the state stores that running apps list. */
  lemma LoadedAre(apps: seq<App>)
    ensures forall s :: s in FlatMap(LoadedNames(), apps)
                        <==> exists a :: a in apps && a.daprdStatus != "stopped" && ListsStore(a, s)
  {
    forall s ensures s in FlatMap(LoadedNames(), apps)
                     <==> exists a :: a in apps && a.daprdStatus != "stopped" && ListsStore(a, s)
    {
      InFlatMap(LoadedNames(), apps, s);
      forall a: App ensures s in StoresOf(a) <==> ListsStore(a, s) {
        InFlatMap(Names(), a.components, s);
      }
    }
  }

  lemma RunningPathsAre(apps: seq<App>)
    ensures forall p :: p in FlatMap(RunningPaths(), apps)
                        <==> exists a :: a in apps && a.daprdStatus != "stopped" && p in a.resourcePaths
  {
    forall p ensures p in FlatMap(RunningPaths(), apps)
                     <==> exists a :: a in apps && a.daprdStatus != "stopped" && p in a.resourcePaths
    {
      InFlatMap(RunningPaths(), apps, p);
    }
  }

  lemma ScannedAre(place: Place, apps: seq<App>)
    ensures forall p :: p in ScanPaths(place, apps) <==>
              if place.explicit != "" then p == place.explicit
              else place.home == Some(p) || exists a :: a in apps && p in a.resourcePaths
  {
    forall p ensures p in FlatMap(ResourcePaths(), apps) <==> exists a :: a in apps && p in a.resourcePaths {
      InFlatMap(ResourcePaths(), apps, p);
    }
  }

  method ScanLoop(place: Place, apps: seq<App>) returns (scanPaths: seq<string>)
    ensures scanPaths == ScanPaths(place, apps)
  {
    if place.explicit != "" {
      return [place.explicit];
    }
    scanPaths := if place.home.Some? then [place.home.value] else [];
    ghost var first := scanPaths;
    for i := 0 to |apps|
      invariant scanPaths == first + FlatMap(ResourcePaths(), apps[..i])
    {
      FlatMapNext(ResourcePaths(), apps, i);
      scanPaths := scanPaths + apps[i].resourcePaths;
    }
    assert apps[..|apps|] == apps;
  }

  /** The stores of the stopped apps. */
  function StoppedStores(): App -> seq<string> {
    (a: App) => if Running(a) then [] else StoresOf(a)
  }

  function OtherPathsOf(dir: string -> string, a: App): seq<string> {
    (if Running(a) then [] else a.resourcePaths) + if a.configPath != "" then [dir(a.configPath)] else []
  }

  /** The fingerprinted paths that are no running app's resource paths. */
  function OtherPaths(dir: string -> string): App -> seq<string> {
    (a: App) => OtherPathsOf(dir, a)
  }

  lemma {:induction false} FlatMapSplits<T, U>(whole: T -> seq<U>, f: T -> seq<U>, g: T -> seq<U>, xs: seq<T>)
    requires forall x :: multiset(whole(x)) == multiset(f(x)) + multiset(g(x))
    ensures multiset(FlatMap(whole, xs)) == multiset(FlatMap(f, xs)) + multiset(FlatMap(g, xs))
  {
    if xs != [] {
      FlatMapSplits(whole, f, g, xs[1..]);
    }
  }

  lemma LoadedAndStopped(apps: seq<App>)
    ensures multiset(FlatMap(Stores(), apps))
            == multiset(FlatMap(LoadedNames(), apps)) + multiset(FlatMap(StoppedStores(), apps))
  {
    FlatMapSplits(Stores(), LoadedNames(), StoppedStores(), apps);
  }

  lemma RunningAndOther(dir: string -> string, apps: seq<App>)
    ensures multiset(FlatMap(Paths(dir), apps))
            == multiset(FlatMap(RunningPaths(), apps)) + multiset(FlatMap(OtherPaths(dir), apps))
  {
    forall a: App ensures multiset(Paths(dir)(a)) == multiset(RunningPaths()(a)) + multiset(OtherPaths(dir)(a)) {
      assert PathsOf(dir, a) == RunningPaths()(a) + OtherPathsOf(dir, a) || !Running(a);
    }
    FlatMapSplits(Paths(dir), RunningPaths(), OtherPaths(dir), apps);
  }

  /** A store counts as loaded exactly when not all that list it are stopped. */
  lemma LoadedUnlessAllStopped(apps: seq<App>, name: string)
    ensures name in FlatMap(LoadedNames(), apps)
            <==> multiset(FlatMap(StoppedStores(), apps))[name] < multiset(FlatMap(Stores(), apps))[name]
  {
    LoadedAndStopped(apps);
    assert name in FlatMap(LoadedNames(), apps) <==> name in multiset(FlatMap(LoadedNames(), apps));
  }

  /**
   * Between app lists with equal fingerprints: which stores are loaded agrees exactly when the
   * stopped apps' stores do.
   */
  lemma FingerprintSettlesLoaded(dir: string -> string, apps: seq<App>, others: seq<App>)
    requires CleanGroups(GroupsOf(dir, apps)) && CleanGroups(GroupsOf(dir, others))
    requires FingerprintText(dir, apps) == FingerprintText(dir, others)
    ensures multiset(FlatMap(LoadedNames(), apps)) == multiset(FlatMap(LoadedNames(), others))
            <==> multiset(FlatMap(StoppedStores(), apps)) == multiset(FlatMap(StoppedStores(), others))
  {
    FingerprintsAgree(dir, apps, others);
    LoadedAndStopped(apps);
    LoadedAndStopped(others);
    SameDifference(multiset(FlatMap(Stores(), apps)),
      multiset(FlatMap(LoadedNames(), apps)), multiset(FlatMap(StoppedStores(), apps)),
      multiset(FlatMap(LoadedNames(), others)), multiset(FlatMap(StoppedStores(), others)));
  }

  lemma {:induction false} RunningStopsNone(apps: seq<App>)
    requires forall i :: 0 <= i < |apps| ==> Running(apps[i])
    ensures FlatMap(StoppedStores(), apps) == []
  {
    if apps != [] {
      RunningStopsNone(apps[1..]);
    }
  }

  /** So while every app runs, the fingerprint settles which stores count as loaded. */
  lemma AllRunningSettlesLoaded(dir: string -> string, apps: seq<App>, others: seq<App>)
    requires CleanGroups(GroupsOf(dir, apps)) && CleanGroups(GroupsOf(dir, others))
    requires FingerprintText(dir, apps) == FingerprintText(dir, others)
    requires (forall i :: 0 <= i < |apps| ==> Running(apps[i])) && forall i :: 0 <= i < |others| ==> Running(others[i])
    ensures multiset(FlatMap(LoadedNames(), apps)) == multiset(FlatMap(LoadedNames(), others))
  {
    RunningStopsNone(apps);
    RunningStopsNone(others);
    FingerprintSettlesLoaded(dir, apps, others);
  }

  lemma SameDifference<T>(whole: multiset<T>, a: multiset<T>, b: multiset<T>, a': multiset<T>, b': multiset<T>)
    requires whole == a + b == a' + b'
    ensures a == a' <==> b == b'
  {
    assert a == whole - b && b == whole - a && a' == whole - b' && b' == whole - a';
  }

  /** And the running apps' paths agree exactly when the other fingerprinted paths do. */
  lemma FingerprintSettlesPaths(dir: string -> string, apps: seq<App>, others: seq<App>)
    requires CleanGroups(GroupsOf(dir, apps)) && CleanGroups(GroupsOf(dir, others))
    requires FingerprintText(dir, apps) == FingerprintText(dir, others)
    ensures multiset(FlatMap(RunningPaths(), apps)) == multiset(FlatMap(RunningPaths(), others))
            <==> multiset(FlatMap(OtherPaths(dir), apps)) == multiset(FlatMap(OtherPaths(dir), others))
  {
    FingerprintsAgree(dir, apps, others);
    RunningAndOther(dir, apps);
    RunningAndOther(dir, others);
    SameDifference(multiset(FlatMap(Paths(dir), apps)),
      multiset(FlatMap(RunningPaths(), apps)), multiset(FlatMap(OtherPaths(dir), apps)),
      multiset(FlatMap(RunningPaths(), others)), multiset(FlatMap(OtherPaths(dir), others)));
  }

  /** With every app running: a config file's directory is fingerprinted like a resource path, and is none. */
  lemma ConfigDirLooksLikePath(dir: string -> string, id: string, config: string)
    requires config != ""
    ensures var apps, others := [App(id, [dir(config)], "", [], "")], [App(id, [], config, [], "")];
            && FingerprintText(dir, apps) == FingerprintText(dir, others)
            && FlatMap(RunningPaths(), apps) == [dir(config)] && FlatMap(RunningPaths(), others) == []
  {
    var a, b := App(id, [dir(config)], "", [], ""), App(id, [], config, [], "");
    OneApp(Ids(), a);
    OneApp(Ids(), b);
    OneApp(Paths(dir), a);
    OneApp(Paths(dir), b);
    OneApp(Stores(), a);
    OneApp(Stores(), b);
    OneApp(RunningIds(), a);
    OneApp(RunningIds(), b);
    OneApp(RunningPaths(), a);
    OneApp(RunningPaths(), b);
    assert PathsOf(dir, a) == PathsOf(dir, b) == [dir(config)];
  }

  /** A running app with store s and a stopped one with store t. */
  function Pair(s: string, t: string): seq<App> {
    [Started(s), Stopped(t)]
  }

  function Started(s: string): App {
    App("a", [], "", [Component(s, "state.redis")], "")
  }

  function Stopped(s: string): App {
    App("b", [], "", [Component(s, "state.redis")], "stopped")
  }

  lemma StartedGives(dir: string -> string, s: string)
    ensures PathsOf(dir, Started(s)) == [] && StoresOf(Started(s)) == [s] && Running(Started(s)) && Started(s).id == "a"
  {
    OneStore(s, "state.redis");
  }

  lemma StoppedGives(dir: string -> string, s: string)
    ensures PathsOf(dir, Stopped(s)) == [] && StoresOf(Stopped(s)) == [s]
    ensures !Running(Stopped(s)) && Stopped(s).id == "b"
  {
    OneStore(s, "state.redis");
  }

  lemma PairGroups(dir: string -> string, s: string, t: string)
    ensures GroupsOf(dir, Pair(s, t)) == Groups(["a", "b"], [], [s, t], ["a"])
    ensures FlatMap(LoadedNames(), Pair(s, t)) == [s]
  {
    var a, b := Started(s), Stopped(t);
    StartedGives(dir, s);
    StoppedGives(dir, t);
    TwoApps(Ids(), a, b);
    TwoApps(Paths(dir), a, b);
    TwoApps(Stores(), a, b);
    TwoApps(RunningIds(), a, b);
    TwoApps(LoadedNames(), a, b);
  }

  /** With a stopped app it does not: two apps that swap stores look the same. */
  lemma SwappedStoresLookAlike(dir: string -> string, s: string, t: string)
    ensures FingerprintText(dir, Pair(s, t)) == FingerprintText(dir, Pair(t, s))
    ensures FlatMap(LoadedNames(), Pair(s, t)) == [s] && FlatMap(LoadedNames(), Pair(t, s)) == [t]
  {
    PairGroups(dir, s, t);
    PairGroups(dir, t, s);
    SameSortedGroups(GroupsOf(dir, Pair(s, t)), GroupsOf(dir, Pair(t, s)));
    SwapIsSame(s, t);
  }

  lemma SwapIsSame(s: string, t: string)
    ensures multiset([s, t]) == multiset([t, s])
  {
  }

  lemma PairScansNothing(place: Place, s: string, t: string)
    ensures ScanPaths(place, Pair(s, t)) == ScanPaths(place, [])
  {
    TwoApps(ResourcePaths(), Started(s), Stopped(t));
  }

  /** Two running apps, each with one path and one store. */
  function Two(x: string, s: string, y: string, t: string): seq<App> {
    [App("a", [x], "", [Component(s, REDIS)], ""), App("b", [y], "", [Component(t, REDIS)], "")]
  }

  lemma TwoGives(dir: string -> string, place: Place, x: string, s: string, y: string, t: string)
    ensures GroupsOf(dir, Two(x, s, y, t)) == Groups(["a", "b"], [x, y], [s, t], ["a", "b"])
    ensures FlatMap(LoadedNames(), Two(x, s, y, t)) == [s, t] && FlatMap(RunningPaths(), Two(x, s, y, t)) == [x, y]
    ensures FlatMap(StoppedStores(), Two(x, s, y, t)) == [] && FlatMap(OtherPaths(dir), Two(x, s, y, t)) == []
    ensures place.explicit == "" ==> ScanPaths(place, Two(x, s, y, t))
                                     == (if place.home.Some? then [place.home.value] else []) + [x, y]
  {
    var a, b := App("a", [x], "", [Component(s, REDIS)], ""), App("b", [y], "", [Component(t, REDIS)], "");
    OneStore(s, REDIS);
    OneStore(t, REDIS);
    assert PathsOf(dir, a) == [x] && PathsOf(dir, b) == [y];
    TwoApps(Ids(), a, b);
    TwoApps(Paths(dir), a, b);
    TwoApps(Stores(), a, b);
    TwoApps(RunningIds(), a, b);
    TwoApps(ResourcePaths(), a, b);
    TwoRunning(dir, a, b);
  }

  lemma TwoRunning(dir: string -> string, a: App, b: App)
    requires Running(a) && Running(b) && a.configPath == b.configPath == ""
    ensures FlatMap(LoadedNames(), [a, b]) == StoresOf(a) + StoresOf(b)
    ensures FlatMap(RunningPaths(), [a, b]) == a.resourcePaths + b.resourcePaths
    ensures FlatMap(StoppedStores(), [a, b]) == [] && FlatMap(OtherPaths(dir), [a, b]) == []
  {
    TwoApps(LoadedNames(), a, b);
    TwoApps(RunningPaths(), a, b);
    TwoApps(StoppedStores(), a, b);
    TwoApps(OtherPaths(dir), a, b);
  }

  lemma SwappedTwoLookAlike(dir: string -> string, x: string, s: string, y: string, t: string)
    ensures FingerprintText(dir, Two(x, s, y, t)) == FingerprintText(dir, Two(y, t, x, s))
  {
    var place := Place(None, "");
    TwoGives(dir, place, x, s, y, t);
    TwoGives(dir, place, y, t, x, s);
    SameSortedGroups(GroupsOf(dir, Two(x, s, y, t)), GroupsOf(dir, Two(y, t, x, s)));
    SwapIsSame(x, y);
    SwapIsSame(s, t);
  }
}
