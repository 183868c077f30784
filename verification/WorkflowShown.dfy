/** Which instances List shows and Stats counts (pkg/workflow/service.go), in terms of the query and the store. */
module WorkflowShown {
  import opened Basics
  import opened StateKeys
  import opened Paging
  import opened WorkflowService
  import Like
  import Sorting

  /** The part is somewhere in the text. */
  ghost predicate Occurs(part: string, text: string) {
    exists before, after :: text == before + part + after
  }

  /** What a query asks of an instance. */
  ghost predicate Admitted(svc: Service, q: ListQuery, x: Summary) {
    && (!q.includeChildren ==> x.parent == "")
    && (q.status != [] ==> exists i :: 0 <= i < |q.status| && q.status[i] == x.status)
    && (q.search != "" ==>
         || Occurs(svc.lower(q.search), svc.lower(x.instanceID))
         || Occurs(svc.lower(q.search), svc.lower(x.name)))
  }

  /** The key is an instance's metadata key, and the instance loads as x, in the app's own namespace if it has one. */
  ghost predicate Loads(svc: Service, q: ListQuery, key: string, x: Summary) {
    && svc.store.Some? && ParseAppID(key).Some? && ParseInstanceID(key).Some?
    && svc.store.value.load(
         if q.appID == "" || svc.nsOf(q.appID) == "" then svc.namespace else svc.nsOf(q.appID),
         ParseAppID(key).value, ParseInstanceID(key).value) == Some(x)
  }

  ghost predicate LoadsAdmitted(svc: Service, q: ListQuery, key: string) {
    exists x :: Loads(svc, q, key, x) && Admitted(svc, q, x)
  }

  ghost function Asked(svc: Service, q: ListQuery): string -> bool {
    key => LoadsAdmitted(svc, q, key)
  }

  ghost function AskedWithStatus(svc: Service, q: ListQuery, s: Status): string -> bool {
    key => exists x :: Loads(svc, q, key, x) && Admitted(svc, q, x) && x.status == s
  }

  /** No two keys are of instances with one app id, slash and instance id. */
  ghost predicate DistinctInstances(keys: seq<string>) {
    forall i, j ::
      0 <= i < j < |keys| && ParseAppID(keys[i]).Some? && ParseInstanceID(keys[i]).Some?
      && ParseAppID(keys[j]).Some? && ParseInstanceID(keys[j]).Some? ==>
        ParseAppID(keys[i]).value + "/" + ParseInstanceID(keys[i]).value
        != ParseAppID(keys[j]).value + "/" + ParseInstanceID(keys[j]).value
  }

  lemma ContainsIsOccurs(text: string, part: string)
    ensures Like.Contains(text, part) <==> Occurs(part, text)
  {
    if Like.Contains(text, part) {
      var i :| 0 <= i <= |text| && Like.StartsWith(text[i..], part);
      assert text == text[..i] + part + text[i + |part|..];
    }
    if before, after :| text == before + part + after {
      assert text[|before|..] == part + after;
      assert Like.StartsWith(text[|before|..], part);
    }
  }

  lemma AdmittedMatches(svc: Service, q: ListQuery, x: Summary)
    ensures svc.Matches(x, q) <==> Admitted(svc, q, x)
  {
    ContainsIsOccurs(svc.lower(x.instanceID), svc.lower(q.search));
    ContainsIsOccurs(svc.lower(x.name), svc.lower(q.search));
  }

  /** One key of the view: it yields x exactly when it loads as x and the query admits x. */
  lemma YieldsAdmitted(svc: Service, q: ListQuery, key: string)
    requires svc.store.Some?
    ensures forall x :: x in Yield(svc.ViewFor(q)(key), {}) <==> Loads(svc, q, key, x) && Admitted(svc, q, x)
    ensures |Yield(svc.ViewFor(q)(key), {})| == if LoadsAdmitted(svc, q, key) then 1 else 0
  {
    forall x {
      AdmittedMatches(svc, q.(pageToken := ""), x);
    }
    var row := svc.RowOf(q.(pageToken := ""), key);
    assert svc.ViewFor(q)(key) == row;
    if row.Row? && row.item.Some? {
      assert Loads(svc, q, key, row.item.value) && Admitted(svc, q, row.item.value);
    }
  }

  lemma {:induction false} SelectsAdmitted(svc: Service, q: ListQuery, keys: seq<string>)
    requires svc.store.Some?
    ensures forall x :: x in Select(svc.ViewFor(q), keys)
                        <==> exists key :: key in keys && Loads(svc, q, key, x) && Admitted(svc, q, x)
    ensures |Select(svc.ViewFor(q), keys)| == |Sorting.Filter(Asked(svc, q), keys)|
  {
    if keys != [] {
      YieldsAdmitted(svc, q, keys[0]);
      SelectsAdmitted(svc, q, keys[1..]);
      assert forall key :: key in keys <==> key == keys[0] || key in keys[1..];
    }
  }

  lemma {:induction false} CollectsSelected<T>(view: View<T>, seen: set<string>, keys: seq<string>, x: T)
    ensures x in Collect(view, seen, keys) ==> x in Select(view, keys)
    decreases |keys|
  {
    if keys != [] {
      CollectsSelected(view, Note(view(keys[0]), seen), keys[1..], x);
    }
  }

  lemma {:induction false} SelectedOfPage<T>(view: View<T>, pages: seq<seq<string>>, i: nat, x: T)
    requires i < |pages| && x in Select(view, pages[i])
    ensures x in Select(view, Flat(pages))
  {
    SelectAppend(view, pages[0], Flat(pages[1..]));
    if i > 0 {
      SelectedOfPage(view, pages[1..], i - 1, x);
    }
  }

  /** Whatever pages can be read, a fill gathers only what the plain filter selects. */
  lemma {:induction false} FillWithin<T>(view: View<T>, c: Cursor, l: Limits, g: Progress<T>, x: T)
    requires g.at < |c.pages| == |c.tokens|
    ensures Fill(view, c, l, g).Ok? && x in Fill(view, c, l, g).value.items ==>
              x in g.items || x in Select(view, Flat(c.pages))
    decreases |c.pages| - g.at
  {
    if c.tokens[g.at] !in c.broken {
      var g1 := AfterPage(view, c, g);
      CollectsSelected(view, g.seen, c.pages[g.at], x);
      if x in Select(view, c.pages[g.at]) {
        SelectedOfPage(view, c.pages, g.at, x);
      }
      if !Stops(c, l, g1) {
        FillWithin(view, c, l, g1, x);
      }
    }
  }

  /** The keys a query is about. */
  ghost predicate Shown(svc: Service, q: ListQuery, keys: seq<string>, x: Summary) {
    exists key :: key in keys && Loads(svc, q, key, x) && Admitted(svc, q, x)
  }

  /** A List shows only instances that load from a listed key and that the query admits, whatever fails. */
  lemma ListShowsOnlyAdmitted(svc: Service, q: ListQuery, x: Summary)
    requires svc.store.Some? ==> svc.store.value.Valid()
    requires svc.ListSpec(q).Ok? && x in svc.ListSpec(q).value.items
    ensures svc.store.Some? && Admitted(svc, q, x) && Shown(svc, q, KeysOf(svc, q), x)
  {
    var g := svc.Filled(q).value;
    Sorting.SortPermutes(AfterOrZero, g.items);
    assert x in Sorting.SortBy(AfterOrZero, g.items) ==> x in multiset(Sorting.SortBy(AfterOrZero, g.items));
    var c := svc.CursorOf(q);
    FillWithin(svc.ViewFor(q), c, svc.LimitsOf(q), Start(IndexOf(c.tokens, q.pageToken)), x);
    SelectsAdmitted(svc, q, KeysOf(svc, q));
  }

  lemma DistinctRowsOf(svc: Service, q: ListQuery, keys: seq<string>)
    requires svc.store.Some? && DistinctInstances(keys)
    ensures DistinctRows(svc.ViewFor(q), keys)
  {
  }

  /**
   * Over a steady store with distinct instances, paging shows exactly the instances that load from
   * a listed key and that the query admits: one for each such key.
   */
  lemma PagingShowsExactlyTheAdmitted(svc: Service, q: ListQuery)
    requires Steady(svc, q) && DistinctInstances(KeysOf(svc, q))
    ensures forall x :: x in Flat(AllPages(svc, q)) <==> Shown(svc, q, KeysOf(svc, q), x)
    ensures |Flat(AllPages(svc, q))| == |Sorting.Filter(Asked(svc, q), KeysOf(svc, q))|
  {
    var shown, kept := Flat(AllPages(svc, q)), Select(svc.ViewFor(q), KeysOf(svc, q));
    DistinctRowsOf(svc, q, KeysOf(svc, q));
    PagingIsComplete(svc, q);
    SelectsAdmitted(svc, q, KeysOf(svc, q));
    assert |multiset(shown)| == |multiset(kept)|;
    forall x ensures x in shown <==> x in kept {
      assert x in shown <==> x in multiset(shown);
      assert x in kept <==> x in multiset(kept);
    }
  }

  /** The keys List reads, and how many a page: those of the app in its namespace, or of all apps. */
  lemma ListReads(svc: Service, q: ListQuery)
    requires svc.store.Some?
    ensures var size := if q.pageSize <= 0 then 50 else q.pageSize;
            svc.CursorOf(q)
            == if q.appID == "" then svc.store.value.cursor(AllInstanceMetaPattern(svc.namespace), size)
               else if svc.nsOf(q.appID) == ""
                 then svc.store.value.cursor(InstanceMetaPattern(svc.namespace, q.appID), size)
               else svc.store.value.cursor(InstanceMetaPattern(svc.nsOf(q.appID), q.appID), size)
    ensures svc.MetaPattern(q.appID)
            == if q.appID == "" then AllInstanceMetaPattern(svc.namespace)
               else if svc.nsOf(q.appID) == "" then InstanceMetaPattern(svc.namespace, q.appID)
               else InstanceMetaPattern(svc.nsOf(q.appID), q.appID)
  {
  }

  /** The query that Stats counts: the status list is ignored. */
  function AnyStatus(q: ListQuery): ListQuery {
    q.(status := [])
  }

  lemma {:induction false} FilterAlike<T>(p: T -> bool, p': T -> bool, xs: seq<T>)
    requires forall x :: x in xs ==> p(x) == p'(x)
    ensures Sorting.Filter(p, xs) == Sorting.Filter(p', xs)
  {
    if xs != [] {
      FilterAlike(p, p', xs[1..]);
    }
  }

  lemma {:induction false} SelectsByStatus(svc: Service, q: ListQuery, s: Status, keys: seq<string>)
    requires svc.store.Some?
    ensures |Sorting.Filter(HasStatus(s), Select(svc.ViewFor(q), keys))|
            == |Sorting.Filter(AskedWithStatus(svc, q, s), keys)|
  {
    if keys != [] {
      var first := Yield(svc.ViewFor(q)(keys[0]), {});
      YieldsAdmitted(svc, q, keys[0]);
      SelectsByStatus(svc, q, s, keys[1..]);
      FilterAppend(HasStatus(s), first, Select(svc.ViewFor(q), keys[1..]));
      FilterOne(svc, q, s, keys[0], first);
    }
  }

  lemma FilterOne(svc: Service, q: ListQuery, s: Status, key: string, first: seq<Summary>)
    requires |first| <= 1 && forall x :: x in first <==> Loads(svc, q, key, x) && Admitted(svc, q, x)
    ensures |Sorting.Filter(HasStatus(s), first)| == if AskedWithStatus(svc, q, s)(key) then 1 else 0
  {
    if first != [] {
      assert first[0] in first && first[1..] == [];
    }
    if x :| Loads(svc, q, key, x) && Admitted(svc, q, x) && x.status == s {
      assert x in first;
    }
  }

  /**
   * With distinct instances Stats' total is the number of keys whose instance loads and meets the
   * query, whatever its status; and each count the number of those of that status.
   */
  lemma StatsCountsExactlyTheAdmitted(svc: Service, q: ListQuery, r: StatsResult, s: Status)
    requires svc.store.Some? && svc.store.value.Valid() && Tallies(r, svc.Counted(q))
    requires DistinctInstances(svc.store.value.cursor(svc.MetaPattern(q.appID), 0).pages[0])
    ensures var keys := svc.store.value.cursor(svc.MetaPattern(q.appID), 0).pages[0];
            && r.total == |Sorting.Filter(Asked(svc, AnyStatus(q)), keys)|
            && CountOf(r.counts, s) == |Sorting.Filter(AskedWithStatus(svc, AnyStatus(q), s), keys)|
  {
    var keys := svc.store.value.cursor(svc.MetaPattern(q.appID), 0).pages[0];
    CountedAre(svc, svc.CountQuery(q), keys, s);
    AskedAlike(svc, q, s, keys);
  }

  lemma CountedAre(svc: Service, q: ListQuery, keys: seq<string>, s: Status)
    requires svc.store.Some? && DistinctInstances(keys)
    ensures var items := Collect(svc.ViewFor(q), {}, keys);
            && |items| == |Sorting.Filter(Asked(svc, q), keys)|
            && |Sorting.Filter(HasStatus(s), items)| == |Sorting.Filter(AskedWithStatus(svc, q, s), keys)|
  {
    DistinctRowsOf(svc, q, keys);
    CollectDistinct(svc.ViewFor(q), {}, keys);
    SelectsAdmitted(svc, q, keys);
    SelectsByStatus(svc, q, s, keys);
  }

  lemma AskedAlike(svc: Service, q: ListQuery, s: Status, keys: seq<string>)
    ensures Sorting.Filter(Asked(svc, svc.CountQuery(q)), keys) == Sorting.Filter(Asked(svc, AnyStatus(q)), keys)
    ensures Sorting.Filter(AskedWithStatus(svc, svc.CountQuery(q), s), keys)
            == Sorting.Filter(AskedWithStatus(svc, AnyStatus(q), s), keys)
  {
    forall key, x {
      SameQuestion(svc, q, key, x);
    }
    FilterAlike(Asked(svc, svc.CountQuery(q)), Asked(svc, AnyStatus(q)), keys);
    FilterAlike(AskedWithStatus(svc, svc.CountQuery(q), s), AskedWithStatus(svc, AnyStatus(q), s), keys);
  }

  lemma SameQuestion(svc: Service, q: ListQuery, key: string, x: Summary)
    ensures Loads(svc, svc.CountQuery(q), key, x) == Loads(svc, AnyStatus(q), key, x)
    ensures Admitted(svc, svc.CountQuery(q), x) == Admitted(svc, AnyStatus(q), x)
  {
  }
}
