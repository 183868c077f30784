/** Listing and counting workflow instances: List and Stats of pkg/workflow/service.go. */
module WorkflowService {
  import opened Basics
  import opened StateKeys
  import opened Paging
  import Like
  import Sorting

  datatype Status = Pending | Running | Completed | Failed | Terminated | Suspended

  datatype Summary = Summary(appID: string, instanceID: string, name: string, status: Status, parent: string,
    createdAt: Option<int>)

  datatype ListQuery = ListQuery(appID: string, status: seq<Status>, search: string, pageSize: int, pageToken: string,
    includeChildren: bool)

  datatype ListResult = ListResult(items: seq<Summary>, next: string)

  datatype StatsResult = StatsResult(counts: map<Status, nat>, total: nat)

  datatype Error = NoStore | KeysFailed(reason: string)

  /**
   * The store: a cursor per key pattern and page size (0 asks for all keys at once), and the
   * load of one instance from its own keys, None when it fails.
   */
  datatype Store = Store(cursor: (string, nat) -> Cursor, load: (string, string, string) -> Option<Summary>)
  {
    ghost predicate Valid() {
      forall p, n :: cursor(p, n).Valid()
    }
  }

  /** Newest first; instances without a creation time last. */
  predicate AfterOrZero(a: Summary, b: Summary) {
    a.createdAt.Some? && (b.createdAt.None? || a.createdAt.value > b.createdAt.value)
  }

  function DedupKey(appID: string, id: string): string {
    appID + "/" + id
  }

  /** `lower` is strings.ToLower; `nsOf` gives an app's own namespace, "" for none. */
  datatype Service = Service(store: Option<Store>, namespace: string, nsOf: string -> string, lower: string -> string)
  {
    function EffectiveNS(appID: string): string {
      if appID != "" && nsOf(appID) != "" then nsOf(appID) else namespace
    }

    function MetaPattern(appID: string): string {
      if appID != "" then InstanceMetaPattern(EffectiveNS(appID), appID) else AllInstanceMetaPattern(EffectiveNS(appID))
    }

    predicate Matches(s: Summary, q: ListQuery) {
      && (q.includeChildren || s.parent == "")
      && (q.status == [] || s.status in q.status)
      && (|| q.search == ""
          || Like.Contains(lower(s.instanceID), lower(q.search))
          || Like.Contains(lower(s.name), lower(q.search)))
    }

    function LoadRow(appID: string, id: string, q: ListQuery): Option<Summary>
      requires store.Some?
    {
      match store.value.load(EffectiveNS(q.appID), appID, id)
      case Some(s) => if Matches(s, q) then Some(s) else None
      case None => None
    }

    function RowOf(q: ListQuery, key: string): Row<Summary>
      requires store.Some?
    {
      var appID, id := ParseAppID(key), ParseInstanceID(key);
      if appID.None? || id.None? then Skip
      else Row(DedupKey(appID.value, id.value), LoadRow(appID.value, id.value, q))
    }

    /** The filter of a query; it does not depend on where the page starts. */
    function ViewFor(q: ListQuery): View<Summary>
      requires store.Some?
    {
      RowsOf(q.(pageToken := ""))
    }

    function RowsOf(q: ListQuery): View<Summary>
      requires store.Some?
    {
      key => RowOf(q, key)
    }

    function LimitsOf(q: ListQuery): Limits {
      LimitsFor(q.status != [] || q.search != "" || !q.includeChildren, q.pageSize)
    }

    function CursorOf(q: ListQuery): Cursor
      requires store.Some?
    {
      store.value.cursor(MetaPattern(q.appID), LimitsOf(q).pageSize)
    }

    function Render(q: ListQuery, g: Progress<Summary>): ListResult
      requires store.Some? && g.at >= 1
    {
      var items := Sorting.SortBy(AfterOrZero, g.items);
      var l := LimitsOf(q);
      var shown := if !l.filtered && |items| > l.pageSize then items[..l.pageSize] else items;
      ListResult(shown, CursorOf(q).NextToken(g.at - 1))
    }

    /** What List returns, as a function of the query. */
    ghost function ListSpec(q: ListQuery): Result<ListResult, Error>
      requires store.Some? ==> store.value.Valid()
    {
      if store.None? then Err(NoStore)
      else
        match Filled(q)
        case Err(why) => Err(KeysFailed(why))
        case Ok(g) => Ok(Render(q, g))
    }

    /** What one call gathers from the page its token names. */
    ghost function Filled(q: ListQuery): (r: Result<Progress<Summary>, string>)
      requires store.Some? && store.value.Valid()
      ensures r.Ok? ==> r.value.at >= 1
    {
      var c := CursorOf(q);
      FillFrom(ViewFor(q), c, LimitsOf(q), Start(IndexOf(c.tokens, q.pageToken)))
    }

    /** List for a query, by page token. */
    ghost function Client(q: ListQuery): Client<Summary>
      requires store.Some? && store.value.Valid()
    {
      token => match ListSpec(q.(pageToken := token)) case Err(_) => None case Ok(r) => Some((r.items, r.next))
    }

    /** The body of List's loop over one key page. */
    method ScanPage(q: ListQuery, keys: seq<string>, items0: seq<Summary>, seen0: set<string>)
      returns (items: seq<Summary>, seen: set<string>)
      requires store.Some?
      ensures seen == SeenAfter(ViewFor(q), seen0, keys)
      ensures items == items0 + Collect(ViewFor(q), seen0, keys)
    {
      ghost var view := ViewFor(q);
      items, seen := items0, seen0;
      for n := 0 to |keys|
        invariant seen == SeenAfter(view, seen0, keys[..n])
        invariant items == items0 + Collect(view, seen0, keys[..n])
      {
        CollectOneMore(view, seen0, keys, n);
        ghost var found := Collect(view, seen0, keys[..n]);
        assert view(keys[n]) == RowOf(q.(pageToken := ""), keys[n]);
        var appID, id := ParseAppID(keys[n]), ParseInstanceID(keys[n]);
        if appID.None? || id.None? {
          continue;
        }
        var dedupKey := DedupKey(appID.value, id.value);
        if dedupKey in seen {
          continue;
        }
        seen := seen + {dedupKey};
        var ex := store.value.load(EffectiveNS(q.appID), appID.value, id.value);
        if ex.None? {
          continue;
        }
        if Matches(ex.value, q) {
          Assoc(items0, found, [ex.value]);
          items := items + [ex.value];
        }
      }
      assert keys[..|keys|] == keys;
    }

    /** List's outer loop: the items gathered and the token to go on from. */
    method Gather(q: ListQuery) returns (r: Result<(seq<Summary>, string), Error>)
      requires store.Some? && store.value.Valid()
      ensures match Filled(q)
              case Err(why) => r == Err(KeysFailed(why))
              case Ok(g) => r == Ok((g.items, CursorOf(q).NextToken(g.at - 1)))
    {
      var c, l := CursorOf(q), LimitsOf(q);
      ghost var view := ViewFor(q);
      ghost var g: Progress<Summary> := Start(IndexOf(c.tokens, q.pageToken));
      var items: seq<Summary>, seen: set<string>, scanned: nat, token := [], {}, 0, q.pageToken;
      while true
        invariant g == Progress(items, seen, scanned, g.at) && g.at <= |c.pages| && IndexOf(c.tokens, token) == g.at
        invariant Filled(q) == FillFrom(view, c, l, g)
        decreases |c.pages| - g.at
      {
        FillTurn(view, c, l, g, token);
        var page := c.Fetch(token);
        if page.Err? {
          return Err(KeysFailed(page.error));
        }
        var next := page.value.1;
        scanned := scanned + |page.value.0|;
        items, seen := ScanPage(q, page.value.0, items, seen);
        g := AfterPage(view, c, g);
        if !l.filtered || |items| >= l.pageSize || next == "" || scanned >= l.maxScan {
          return Ok((items, next));
        }
        token := next;
      }
    }

    method List(q: ListQuery) returns (r: Result<ListResult, Error>)
      requires store.Some? ==> store.value.Valid()
      ensures r == ListSpec(q)
    {
      if store.None? {
        return Err(NoStore);
      }
      var gathered := Gather(q);
      if gathered.Err? {
        return Err(gathered.error);
      }
      var l := LimitsOf(q);
      var items := Sorting.SortBy(AfterOrZero, gathered.value.0);
      if !l.filtered && |items| > l.pageSize {
        items := items[..l.pageSize];
      }
      r := Ok(ListResult(items, gathered.value.1));
    }

    /** The query Stats counts with: status and paging are ignored. */
    function CountQuery(q: ListQuery): ListQuery {
      q.(status := [], pageSize := 0, pageToken := "")
    }

    /** The instances Stats counts: one scan of all keys with one `seen` set. */
    function Counted(q: ListQuery): seq<Summary>
      requires store.Some? && |store.value.cursor(MetaPattern(q.appID), 0).pages| >= 1
    {
      Collect(ViewFor(CountQuery(q)), {}, store.value.cursor(MetaPattern(q.appID), 0).pages[0])
    }

    method Stats(q: ListQuery) returns (r: Result<StatsResult, Error>)
      requires store.Some? ==> store.value.Valid()
      ensures r.Err? <==> store.None? || "" in store.value.cursor(MetaPattern(q.appID), 0).broken
      ensures r.Ok? ==> Tallies(r.value, Counted(q))
    {
      if store.None? {
        return Err(NoStore);
      }
      var c := store.value.cursor(MetaPattern(q.appID), 0);
      var searchQ := CountQuery(q);
      ghost var view := ViewFor(searchQ);
      FetchAt(c, 0);
      var page := c.Fetch("");
      if page.Err? {
        return Err(KeysFailed(page.error));
      }
      var keys := page.value.0;
      var counts: map<Status, nat>, total: nat, seen: set<string> := map[], 0, {};
      ghost var items: seq<Summary> := [];
      for n := 0 to |keys|
        invariant seen == SeenAfter(view, {}, keys[..n]) && items == Collect(view, {}, keys[..n])
        invariant Tallies(StatsResult(counts, total), items)
      {
        CollectOneMore(view, {}, keys, n);
        var appID, id := ParseAppID(keys[n]), ParseInstanceID(keys[n]);
        if appID.None? || id.None? {
          continue;
        }
        var dedupKey := DedupKey(appID.value, id.value);
        if dedupKey in seen {
          continue;
        }
        seen := seen + {dedupKey};
        var ex := store.value.load(EffectiveNS(q.appID), appID.value, id.value);
        if ex.None? || !Matches(ex.value, searchQ) {
          continue;
        }
        TallyOneMore(StatsResult(counts, total), items, ex.value);
        counts := counts[ex.value.status := CountOf(counts, ex.value.status) + 1];
        total := total + 1;
        items := items + [ex.value];
      }
      assert keys[..|keys|] == keys;
      r := Ok(StatsResult(counts, total));
    }
  }

  function CountOf(counts: map<Status, nat>, s: Status): nat {
    if s in counts then counts[s] else 0
  }

  function HasStatus(s: Status): Summary -> bool {
    (x: Summary) => x.status == s
  }

  /** Each count is the number of items of that status, and the total is the number of all. */
  ghost predicate Tallies(r: StatsResult, items: seq<Summary>) {
    && r.total == |items|
    && forall s :: CountOf(r.counts, s) == |Sorting.Filter(HasStatus(s), items)|
  }

  lemma {:induction false} FilterAppend<T>(p: T -> bool, a: seq<T>, b: seq<T>)
    ensures Sorting.Filter(p, a + b) == Sorting.Filter(p, a) + Sorting.Filter(p, b)
  {
    if a == [] {
      assert a + b == b;
    } else {
      FilterAppend(p, a[1..], b);
      Assoc(if p(a[0]) then [a[0]] else [], Sorting.Filter(p, a[1..]), Sorting.Filter(p, b));
      assert (a + b)[1..] == a[1..] + b;
    }
  }

  lemma TallyOneMore(r: StatsResult, items: seq<Summary>, x: Summary)
    requires Tallies(r, items)
    ensures Tallies(StatsResult(r.counts[x.status := CountOf(r.counts, x.status) + 1], r.total + 1), items + [x])
  {
    forall s ensures |Sorting.Filter(HasStatus(s), items + [x])|
                     == |Sorting.Filter(HasStatus(s), items)| + if x.status == s then 1 else 0
    {
      FilterAppend(HasStatus(s), items, [x]);
      assert [x][1..] == [];
    }
  }

  /** Every page comes newest first, and instances without a creation time come last. */
  lemma ListedNewestFirst(svc: Service, q: ListQuery)
    requires svc.store.Some? ==> svc.store.value.Valid()
    ensures svc.ListSpec(q).Ok? ==>
              var items := svc.ListSpec(q).value.items;
              forall i, j :: 0 <= i < j < |items| && items[j].createdAt.Some? ==>
                items[i].createdAt.Some? && items[i].createdAt.value >= items[j].createdAt.value
  {
    if svc.ListSpec(q).Ok? {
      var c := svc.CursorOf(q);
      var g := Fill(svc.ViewFor(q), c, svc.LimitsOf(q), Start(IndexOf(c.tokens, q.pageToken))).value;
      assert Sorting.StrictWeak(AfterOrZero);
      Sorting.SortSorts(AfterOrZero, g.items);
      assert Sorting.Sorted(AfterOrZero, svc.ListSpec(q).value.items);
    }
  }

  // ------------------------------------------------------- paging to exhaustion

  /** The store does not change or fail, and no key page is longer than was asked for. */
  ghost predicate Steady(svc: Service, q: ListQuery) {
    && svc.store.Some? && svc.store.value.Valid()
    && svc.CursorOf(q).broken == {}
    && svc.CursorOf(q).PagesWithin(svc.LimitsOf(q).pageSize)
  }

  /** What a client is shown that pages through a query from its first page. */
  ghost function AllPages(svc: Service, q: ListQuery): seq<seq<Summary>>
    requires svc.store.Some? && svc.store.value.Valid()
  {
    PageThrough(svc.CursorOf(q), svc.Client(q), 0)
  }

  /** Each List call sorts what it keeps of one run of pages, and hands out the token of the page after it. */
  lemma OneCall(svc: Service, q: ListQuery, i: nat) returns (at: nat)
    requires Steady(svc, q) && i < |svc.CursorOf(q).pages|
    ensures i < at <= |svc.CursorOf(q).pages|
    ensures var c, l, view := svc.CursorOf(q), svc.LimitsOf(q), svc.ViewFor(q);
            var items := Collect(view, {}, Flat(c.pages[i..at]));
            && Fill(view, c, l, Start(i))
               == Ok(Progress(items, SeenAfter(view, {}, Flat(c.pages[i..at])), |Flat(c.pages[i..at])|, at))
            && svc.ListSpec(q.(pageToken := c.tokens[i]))
               == Ok(ListResult(Sorting.SortBy(AfterOrZero, items), c.NextToken(at - 1)))
  {
    var c, l, view := svc.CursorOf(q), svc.LimitsOf(q), svc.ViewFor(q);
    var q' := q.(pageToken := c.tokens[i]);
    assert svc.CursorOf(q') == c && svc.LimitsOf(q') == l && svc.ViewFor(q') == view;
    FetchAt(c, i);
    var g := OneFill(view, c, l, i);
    at := g.at;
    Sorting.SortPermutes(AfterOrZero, g.items);
    if !l.filtered {
      assert g == AfterPage(view, c, Start(i));
      CollectAtMost(view, {}, c.pages[i]);
    }
  }

  lemma ServesPages(svc: Service, q: ListQuery)
    requires Steady(svc, q)
    ensures Serves(svc.Client(q), svc.ViewFor(q), svc.CursorOf(q), svc.LimitsOf(q))
  {
    forall i: nat | i < |svc.CursorOf(q).pages|
      ensures ServesAt(svc.Client(q), svc.ViewFor(q), svc.CursorOf(q), svc.LimitsOf(q), i)
    {
      var at := OneCall(svc, q, i);
      Sorting.SortPermutes(AfterOrZero, Collect(svc.ViewFor(q), {}, Flat(svc.CursorOf(q).pages[i..at])));
    }
  }

  /** The keys the store holds for the query, in cursor order. */
  function KeysOf(svc: Service, q: ListQuery): seq<string>
    requires svc.store.Some?
  {
    Flat(svc.CursorOf(q).pages)
  }

  /**
   * Over a steady store, paging from the empty token to the end yields exactly the instances
   * that a plain filter of all keys yields, each as often.
   */
  lemma PagingIsComplete(svc: Service, q: ListQuery)
    requires Steady(svc, q) && DistinctRows(svc.ViewFor(q), KeysOf(svc, q))
    ensures multiset(Flat(AllPages(svc, q))) == multiset(Select(svc.ViewFor(q), KeysOf(svc, q)))
  {
    var c := svc.CursorOf(q);
    ServesPages(svc, q);
    PageThroughFollows(svc.Client(q), svc.ViewFor(q), c, svc.LimitsOf(q), 0);
    assert c.pages[0..] == c.pages;
    FollowIsSelect(svc.ViewFor(q), c, svc.LimitsOf(q), 0);
  }

  /**
   * With repeated dedup keys: paging still yields all that a plain filter yields if and only if
   * within no single call a row with an item repeats an earlier row's dedup key.
   */
  lemma PagingIsCompleteIff(svc: Service, q: ListQuery)
    requires Steady(svc, q)
    ensures multiset(Flat(AllPages(svc, q))) == multiset(Select(svc.ViewFor(q), KeysOf(svc, q)))
            <==> CallsHideNothing(svc.ViewFor(q), svc.CursorOf(q), svc.LimitsOf(q), 0)
  {
    var c, l, view := svc.CursorOf(q), svc.LimitsOf(q), svc.ViewFor(q);
    ServesPages(svc, q);
    PageThroughFollows(svc.Client(q), view, c, l, 0);
    assert c.pages[0..] == c.pages;
    FollowLosesIff(view, c, l, 0);
    SameSizes(Flat(AllPages(svc, q)), Flat(Follow(view, c, l, 0)), Select(view, KeysOf(svc, q)));
  }

  lemma SameSizes(shown: seq<Summary>, followed: seq<Summary>, selected: seq<Summary>)
    requires multiset(shown) == multiset(followed)
    ensures multiset(shown) == multiset(selected) ==> |followed| == |selected|
    ensures followed == selected ==> multiset(shown) == multiset(selected)
  {
    assert |multiset(followed)| == |followed| && |multiset(selected)| == |selected|;
  }

  /**
   * One filtered call: its items are what the filter keeps of the pages it scanned, fewer than
   * two pages of them; it scanned less than a page beyond the cap; and it comes back short only
   * at the end of the keys or at the cap.
   */
  lemma FilteredCallBounds(svc: Service, q: ListQuery, i: nat) returns (at: nat)
    requires Steady(svc, q) && i < |svc.CursorOf(q).pages|
    requires q.status != [] || q.search != "" || !q.includeChildren
    ensures i < at <= |svc.CursorOf(q).pages|
    ensures var c := svc.CursorOf(q);
            var size := if q.pageSize <= 0 then 50 else q.pageSize;
            var cap := if 10 * size > 2000 then 2000 else 10 * size;
            var scanned := Flat(c.pages[i..at]);
            var items := Sorting.SortBy(AfterOrZero, Collect(svc.ViewFor(q), {}, scanned));
            && svc.ListSpec(q.(pageToken := c.tokens[i])) == Ok(ListResult(items, c.NextToken(at - 1)))
            && |items| < 2 * size && |scanned| < cap + size
            && (|items| < size ==> at == |c.pages| || |scanned| >= cap)
  {
    at := OneCall(svc, q, i);
    FillBounds(svc.ViewFor(q), svc.CursorOf(q), svc.LimitsOf(q), Start<Summary>(i));
    Sorting.SortPermutes(AfterOrZero, Collect(svc.ViewFor(q), {}, Flat(svc.CursorOf(q).pages[i..at])));
  }

  /** One call shows every instance of the keys it scanned if and only if none of them is hidden. */
  lemma CallShowsAllIff(svc: Service, q: ListQuery, i: nat) returns (at: nat)
    requires Steady(svc, q) && i < |svc.CursorOf(q).pages|
    ensures var c, view := svc.CursorOf(q), svc.ViewFor(q);
            var r := svc.ListSpec(q.(pageToken := c.tokens[i]));
            && i < at <= |c.pages| && r.Ok? && r.value.next == c.NextToken(at - 1)
            && (multiset(r.value.items) == multiset(Select(view, Flat(c.pages[i..at])))
                <==> NothingHidden(view, {}, Flat(c.pages[i..at])))
  {
    at := OneCall(svc, q, i);
    var scanned := Flat(svc.CursorOf(q).pages[i..at]);
    Sorting.SortPermutes(AfterOrZero, Collect(svc.ViewFor(q), {}, scanned));
    ScanIsSelectIff(svc.ViewFor(q), scanned);
  }

  /** Stats counts every instance if and only if no row with an item repeats an earlier row's dedup key. */
  lemma StatsCountsAllIff(svc: Service, q: ListQuery, r: StatsResult)
    requires svc.store.Some? && |svc.store.value.cursor(svc.MetaPattern(q.appID), 0).pages| >= 1
    requires Tallies(r, svc.Counted(q))
    ensures var keys := svc.store.value.cursor(svc.MetaPattern(q.appID), 0).pages[0];
            r.total == |Select(svc.ViewFor(svc.CountQuery(q)), keys)| <==>
              NothingHidden(svc.ViewFor(svc.CountQuery(q)), {}, keys)
  {
    CollectLosesIff(svc.ViewFor(svc.CountQuery(q)), {}, svc.store.value.cursor(svc.MetaPattern(q.appID), 0).pages[0]);
  }

  // ------------------------------------------------------- dedup keys

  /** App ids without "/" keep the dedup keys of different instances apart. */
  lemma DedupKeySeparates(appID: string, id: string, appID': string, id': string)
    requires '/' !in appID && '/' !in appID' && DedupKey(appID, id) == DedupKey(appID', id')
    ensures appID == appID' && id == id'
  {
    var d := DedupKey(appID, id);
    assert d[|appID|] == '/' && d[|appID'|] == '/';
    assert forall i :: 0 <= i < |appID| ==> d[i] in appID;
    assert forall i :: 0 <= i < |appID'| ==> d[i] in appID';
    assert |appID| == |appID'|;
    assert appID == d[..|appID|] && id == d[|appID| + 1..];
    assert appID' == d[..|appID'|] && id' == d[|appID'| + 1..];
  }

  /** The second app id goes on, after a slash, with a part r that the first has in its instance id. */
  predicate SlashMoves(appID: string, id: string, appID': string, id': string, r: string) {
    appID' == appID + "/" + r && id == r + "/" + id'
  }

  lemma SlashMovesCollides(appID: string, id: string, appID': string, id': string, r: string)
    requires SlashMoves(appID, id, appID', id', r)
    ensures DedupKey(appID, id) == DedupKey(appID', id') && appID != appID'
  {
    assert appID + "/" + (r + "/" + id') == appID + "/" + r + "/" + id';
    assert |appID'| > |appID|;
  }

  lemma LongerAppID(appID: string, id: string, appID': string, id': string) returns (r: string)
    requires DedupKey(appID, id) == DedupKey(appID', id') && |appID| < |appID'|
    ensures SlashMoves(appID, id, appID', id', r)
  {
    var d := DedupKey(appID, id);
    r := appID'[|appID| + 1..];
    assert d[..|appID'|] == appID' && d[|appID|] == '/';
    assert d[|appID| + 1..] == id && d[|appID'| + 1..] == id' && d[|appID'|] == '/';
    assert appID' == d[..|appID|] + [d[|appID|]] + d[|appID| + 1..|appID'|];
    assert id == d[|appID| + 1..|appID'|] + [d[|appID'|]] + d[|appID'| + 1..];
  }

  /**
   * Two different instances share a dedup key exactly when one's app id extends the other's by
   * a part of its instance id.
   */
  lemma DedupKeyCollidesIff(appID: string, id: string, appID': string, id': string)
    ensures DedupKey(appID, id) == DedupKey(appID', id') && (appID, id) != (appID', id')
            <==> (exists r :: SlashMoves(appID, id, appID', id', r))
                 || exists r :: SlashMoves(appID', id', appID, id, r)
  {
    if r :| SlashMoves(appID, id, appID', id', r) {
      SlashMovesCollides(appID, id, appID', id', r);
    } else if r :| SlashMoves(appID', id', appID, id, r) {
      SlashMovesCollides(appID', id', appID, id, r);
    } else if DedupKey(appID, id) == DedupKey(appID', id') {
      if |appID| < |appID'| {
        var r := LongerAppID(appID, id, appID', id');
      } else if |appID'| < |appID| {
        var r := LongerAppID(appID', id', appID, id);
      } else {
        var d := DedupKey(appID, id);
        assert appID == d[..|appID|] && appID' == d[..|appID'|] && id == d[|appID| + 1..] && id' == d[|appID'| + 1..];
      }
    }
  }

  function MetaKey(appID: string, id: string): string {
    InstancePrefix("default", appID, id) + "metadata"
  }

  function Loaded(appID: string, id: string): Summary {
    Summary(appID, id, "", Running, "", None)
  }

  /** A store with the metadata keys of two instances, both of which load. */
  function TwoInstances(appID: string, id: string, appID': string, id': string): Service {
    var keys := [MetaKey(appID, id), MetaKey(appID', id')];
    Service(
      Some(Store((_, _) => Cursor([keys], [""], {}), (ns: string, a: string, i: string) => Some(Loaded(a, i)))),
      "default", (a: string) => "", (s: string) => s)
  }

  const EVERYTHING := ListQuery("", [], "", 0, "", true)

  lemma TwoRows(appID: string, id: string, appID': string, id': string)
    requires NoBar(appID) && NoBar(id) && NoBar(appID') && NoBar(id')
    requires appID != "" && id != "" && appID' != "" && id' != ""
    ensures var view := TwoInstances(appID, id, appID', id').ViewFor(EVERYTHING);
            && view(MetaKey(appID, id)) == Row(DedupKey(appID, id), Some(Loaded(appID, id)))
            && view(MetaKey(appID', id')) == Row(DedupKey(appID', id'), Some(Loaded(appID', id')))
  {
    ParseRecoversIds("default", appID, id, "metadata");
    ParseRecoversIds("default", appID', id', "metadata");
  }

  lemma TwoCursor(appID: string, id: string, appID': string, id': string)
    ensures var svc := TwoInstances(appID, id, appID', id');
            var keys := [MetaKey(appID, id), MetaKey(appID', id')];
            && svc.store.value.Valid() && svc.CursorOf(EVERYTHING) == Cursor([keys], [""], {})
            && svc.store.value.cursor(svc.MetaPattern(""), 0) == Cursor([keys], [""], {})
            && KeysOf(svc, EVERYTHING) == keys
  {
    FlatCons([MetaKey(appID, id), MetaKey(appID', id')], []);
  }

  /** A store with one page, listed in one call. */
  lemma OnePageListed(svc: Service, keys: seq<string>, x: Summary)
    requires svc.store.Some? && svc.store.value.Valid() && svc.CursorOf(EVERYTHING) == Cursor([keys], [""], {})
    requires |keys| <= 2 && Collect(svc.ViewFor(EVERYTHING), {}, keys) == [x]
    ensures svc.ListSpec(EVERYTHING) == Ok(ListResult([x], ""))
  {
    var c := svc.CursorOf(EVERYTHING);
    EverythingSteady(svc, keys);
    var at := OneCall(svc, EVERYTHING, 0);
    assert c.pages[0..at] == [keys];
    FlatCons(keys, []);
    assert EVERYTHING.(pageToken := "") == EVERYTHING;
    SortOne(x);
  }

  lemma EverythingSteady(svc: Service, keys: seq<string>)
    requires svc.store.Some? && svc.store.value.Valid() && svc.CursorOf(EVERYTHING) == Cursor([keys], [""], {})
    requires |keys| <= 2
    ensures Steady(svc, EVERYTHING)
  {
    assert svc.CursorOf(EVERYTHING).pages[0] == keys && svc.LimitsOf(EVERYTHING).pageSize == DEFAULT_PAGE_SIZE;
  }

  lemma SortOne(x: Summary)
    ensures Sorting.SortBy(AfterOrZero, [x]) == [x]
  {
    assert Sorting.SortBy(AfterOrZero, [x]) == Sorting.Insert(AfterOrZero, x, []) == [x];
  }

  /** Whatever colliding ids: the second instance is neither listed nor counted. */
  lemma CollidingInstanceIsLost(appID: string, id: string, appID': string, id': string)
    requires NoBar(appID) && NoBar(id) && NoBar(appID') && NoBar(id')
    requires appID != "" && id != "" && appID' != "" && id' != ""
    requires DedupKey(appID, id) == DedupKey(appID', id')
    ensures var svc := TwoInstances(appID, id, appID', id');
            && svc.store.value.Valid()
            && svc.ListSpec(EVERYTHING) == Ok(ListResult([Loaded(appID, id)], ""))
            && svc.Counted(EVERYTHING) == [Loaded(appID, id)]
            && Select(svc.ViewFor(EVERYTHING), KeysOf(svc, EVERYTHING)) == [Loaded(appID, id), Loaded(appID', id')]
  {
    var svc := TwoInstances(appID, id, appID', id');
    var keys := [MetaKey(appID, id), MetaKey(appID', id')];
    TwoRows(appID, id, appID', id');
    TwoCursor(appID, id, appID', id');
    CollectTwo(svc.ViewFor(EVERYTHING), keys[0], keys[1], DedupKey(appID, id), Loaded(appID, id), Loaded(appID', id'));
    OnePageListed(svc, keys, Loaded(appID, id));
    assert svc.CountQuery(EVERYTHING) == EVERYTHING;
  }

  lemma CollectTwo(view: View<Summary>, k1: string, k2: string, d: string, x: Summary, y: Summary)
    requires view(k1) == Row(d, Some(x)) && view(k2) == Row(d, Some(y))
    ensures Collect(view, {}, [k1, k2]) == [x] && Select(view, [k1, k2]) == [x, y]
  {
    assert [k1, k2][1..] == [k2] && [k2][1..] == [];
    assert Collect(view, {d}, [k2]) == [] && Note(view(k1), {}) == {d};
    assert Select(view, [k2]) == [y];
  }

  predicate ParsesTo(key: string, appID: string, id: string) {
    ParseAppID(key) == Some(appID) && ParseInstanceID(key) == Some(id)
  }

  /** One metadata key per instance and no "/" in app ids: no two rows of a listing collide. */
  lemma SlashFreeKeysAreDistinct(svc: Service, q: ListQuery, keys: seq<string>)
    requires svc.store.Some?
    requires forall i :: 0 <= i < |keys| && ParseAppID(keys[i]).Some? ==> '/' !in ParseAppID(keys[i]).value
    requires forall i, j, a, id :: 0 <= i < j < |keys| && ParsesTo(keys[i], a, id) ==> !ParsesTo(keys[j], a, id)
    ensures DistinctRows(svc.ViewFor(q), keys)
  {
    var view := svc.ViewFor(q);
    forall i, j | 0 <= i < j < |keys| && view(keys[i]).Row? && view(keys[j]).Row?
      ensures view(keys[i]).dedup != view(keys[j]).dedup
    {
      var a, id := ParseAppID(keys[i]).value, ParseInstanceID(keys[i]).value;
      var a', id' := ParseAppID(keys[j]).value, ParseInstanceID(keys[j]).value;
      assert ParsesTo(keys[i], a, id) && ParsesTo(keys[j], a', id');
      if view(keys[i]).dedup == view(keys[j]).dedup {
        DedupKeySeparates(a, id, a', id');
      }
    }
  }

  // ------------------------------------------------------- Stats against List

  function WithStatus(q: ListQuery, s: Status): ListQuery {
    q.(status := [s])
  }

  lemma RowByStatus(svc: Service, q: ListQuery, s: Status, key: string)
    requires svc.store.Some?
    ensures var one, all := svc.RowOf(WithStatus(q, s).(pageToken := ""), key), svc.RowOf(svc.CountQuery(q), key);
            && one.Row? == all.Row?
            && (one.Row? ==> one.dedup == all.dedup
                             && one.item == if all.item.Some? && all.item.value.status == s then all.item else None)
  {
    var appID, id := ParseAppID(key), ParseInstanceID(key);
    if appID.Some? && id.Some? {
      var x := svc.store.value.load(svc.EffectiveNS(q.appID), appID.value, id.value);
      assert x.Some? ==> (svc.Matches(x.value, WithStatus(q, s)) <==>
        svc.Matches(x.value, svc.CountQuery(q)) && x.value.status == s);
    }
  }

  lemma YieldByStatus(svc: Service, q: ListQuery, s: Status, seen: set<string>, key: string)
    requires svc.store.Some?
    ensures var one, all := svc.ViewFor(WithStatus(q, s)), svc.ViewFor(svc.CountQuery(q));
            && Yield(one(key), seen) == Sorting.Filter(HasStatus(s), Yield(all(key), seen))
            && Note(one(key), seen) == Note(all(key), seen)
  {
    RowByStatus(svc, q, s, key);
    YieldFiltered(svc.RowOf(WithStatus(q, s).(pageToken := ""), key), svc.RowOf(svc.CountQuery(q), key), s, seen);
  }

  lemma YieldFiltered(one: Row<Summary>, all: Row<Summary>, s: Status, seen: set<string>)
    requires one.Row? == all.Row?
    requires one.Row? ==> one.dedup == all.dedup
    requires one.Row? ==> one.item == if all.item.Some? && all.item.value.status == s then all.item else None
    ensures Yield(one, seen) == Sorting.Filter(HasStatus(s), Yield(all, seen)) && Note(one, seen) == Note(all, seen)
  {
    if Yield(all, seen) != [] {
      assert Yield(all, seen)[1..] == [];
    }
  }

  /** Asking for one status is filtering what the count query selects. */
  lemma {:induction false} SelectByStatus(svc: Service, q: ListQuery, s: Status, keys: seq<string>)
    requires svc.store.Some?
    ensures Select(svc.ViewFor(WithStatus(q, s)), keys)
            == Sorting.Filter(HasStatus(s), Select(svc.ViewFor(svc.CountQuery(q)), keys))
  {
    if keys != [] {
      var all := svc.ViewFor(svc.CountQuery(q));
      SelectByStatus(svc, q, s, keys[1..]);
      YieldByStatus(svc, q, s, {}, keys[0]);
      FilterAppend(HasStatus(s), Yield(all(keys[0]), {}), Select(all, keys[1..]));
    }
  }

  /**
   * Over an unchanging store, Stats counts for each status what paging List with that status,
   * and the same other filters, finds in all.
   */
  lemma StatsAgreesWithList(svc: Service, q: ListQuery, s: Status, r: StatsResult)
    requires Steady(svc, WithStatus(q, s))
    requires var whole := svc.store.value.cursor(svc.MetaPattern(q.appID), 0);
             whole.pages[0] == KeysOf(svc, WithStatus(q, s))
    requires DistinctRows(svc.ViewFor(svc.CountQuery(q)), KeysOf(svc, WithStatus(q, s)))
    requires Tallies(r, svc.Counted(q))
    ensures CountOf(r.counts, s) == |Flat(AllPages(svc, WithStatus(q, s)))|
  {
    var keys, all := KeysOf(svc, WithStatus(q, s)), svc.ViewFor(svc.CountQuery(q));
    CollectDistinct(all, {}, keys);
    SelectByStatus(svc, q, s, keys);
    assert DistinctRows(svc.ViewFor(WithStatus(q, s)), keys) by {
      forall k ensures svc.ViewFor(WithStatus(q, s))(k).Row? == all(k).Row?
                       && (all(k).Row? ==> svc.ViewFor(WithStatus(q, s))(k).dedup == all(k).dedup) {}
    }
    PagingIsComplete(svc, WithStatus(q, s));
    assert |multiset(Flat(AllPages(svc, WithStatus(q, s))))| == |multiset(Select(svc.ViewFor(WithStatus(q, s)), keys))|;
  }

  /** The same for the one scan Stats makes, duplicates and all. */
  lemma {:induction false} CollectByStatus(svc: Service, q: ListQuery, s: Status, seen: set<string>, keys: seq<string>)
    requires svc.store.Some?
    ensures Collect(svc.ViewFor(WithStatus(q, s)), seen, keys)
            == Sorting.Filter(HasStatus(s), Collect(svc.ViewFor(svc.CountQuery(q)), seen, keys))
    decreases |keys|
  {
    if keys != [] {
      var all := svc.ViewFor(svc.CountQuery(q));
      var more := Note(all(keys[0]), seen);
      CollectByStatus(svc, q, s, more, keys[1..]);
      YieldByStatus(svc, q, s, seen, keys[0]);
      FilterAppend(HasStatus(s), Yield(all(keys[0]), seen), Collect(all, more, keys[1..]));
    }
  }

  /** Whatever the keys, Stats never counts more than paging finds. */
  lemma StatsNeverExceedsList(svc: Service, q: ListQuery, s: Status, r: StatsResult)
    requires Steady(svc, WithStatus(q, s))
    requires var whole := svc.store.value.cursor(svc.MetaPattern(q.appID), 0);
             whole.pages[0] == KeysOf(svc, WithStatus(q, s))
    requires Tallies(r, svc.Counted(q))
    ensures CountOf(r.counts, s) <= |Flat(AllPages(svc, WithStatus(q, s)))|
  {
    var q' := WithStatus(q, s);
    var c, keys := svc.CursorOf(q'), KeysOf(svc, q');
    CollectByStatus(svc, q, s, {}, keys);
    ServesPages(svc, q');
    PageThroughFollows(svc.Client(q'), svc.ViewFor(q'), c, svc.LimitsOf(q'), 0);
    assert c.pages[0..] == c.pages;
    ScanWithinFollow(svc.ViewFor(q'), c, svc.LimitsOf(q'), 0);
    var found, paged := multiset(Collect(svc.ViewFor(q'), {}, keys)), multiset(Flat(AllPages(svc, q')));
    assert paged == found + (paged - found);
    assert |paged| == |found| + |paged - found|;
  }

  /** The six counts add up to the total. */
  lemma {:induction false} TotalIsSumOfCounts(r: StatsResult, items: seq<Summary>)
    requires Tallies(r, items)
    ensures r.total == CountOf(r.counts, Pending) + CountOf(r.counts, Running) + CountOf(r.counts, Completed)
                       + CountOf(r.counts, Failed) + CountOf(r.counts, Terminated) + CountOf(r.counts, Suspended)
  {
    EveryItemHasOneStatus(items);
  }

  lemma {:induction false} EveryItemHasOneStatus(items: seq<Summary>)
    ensures |items| == |Sorting.Filter(HasStatus(Pending), items)| + |Sorting.Filter(HasStatus(Running), items)|
                       + |Sorting.Filter(HasStatus(Completed), items)| + |Sorting.Filter(HasStatus(Failed), items)|
                       + |Sorting.Filter(HasStatus(Terminated), items)| + |Sorting.Filter(HasStatus(Suspended), items)|
  {
    if items != [] {
      EveryItemHasOneStatus(items[1..]);
    }
  }
}
