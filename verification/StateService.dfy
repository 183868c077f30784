/** Browsing state records: List and AppIDs of pkg/state/service.go. */
module StateService {
  import opened Basics
  import opened StateKeys
  import opened StatePattern
  import opened Paging
  import Like
  import Sorting

  datatype Record = Record(key: string, value: string)

  datatype ListQuery = ListQuery(appID: string, search: string, pageSize: int, pageToken: string, includeInternal: bool)

  datatype Item = Item(parts: KeyParts, record: Record)

  datatype ListResult = ListResult(items: seq<Item>, next: string)

  datatype Error = NoStore | NotBrowsable | KeysFailed | RecordsFailed

  /** The store's cursors, and the bulk read of records, None when it fails. */
  datatype Store = Store(cursor: (string, nat) -> Cursor, records: seq<string> -> Option<seq<Record>>, browsable: bool)
  {
    ghost predicate Valid() {
      forall p, n :: cursor(p, n).Valid()
    }
  }

  predicate Survives(includeInternal: bool, key: string) {
    includeInternal || Classify(key).kind == App
  }

  function RowOf(includeInternal: bool, key: string): Row<string> {
    if Survives(includeInternal, key) then Row(key, Some(key)) else Skip
  }

  function ViewFor(includeInternal: bool): View<string> {
    key => RowOf(includeInternal, key)
  }

  /** `parts` holds the classification of every matched key. */
  ghost predicate PartsOf(matched: seq<string>, parts: map<string, KeyParts>) {
    && (forall k :: k in parts ==> parts[k] == Classify(k))
    && (forall k :: k in matched ==> k in parts)
  }

  lemma ScanOneMore(includeInternal: bool, seen0: set<string>, keys: seq<string>, n: nat)
    requires n < |keys|
    ensures var view, k := ViewFor(includeInternal), keys[n];
            var seen, got := SeenAfter(view, seen0, keys[..n]), Collect(view, seen0, keys[..n]);
            && SeenAfter(view, seen0, keys[..n + 1]) == (if Survives(includeInternal, k) then seen + {k} else seen)
            && Collect(view, seen0, keys[..n + 1])
               == got + (if Survives(includeInternal, k) && k !in seen then [k] else [])
  {
    CollectOneMore(ViewFor(includeInternal), seen0, keys, n);
  }

  lemma KeysPlus(parts: map<string, KeyParts>, k: string, p: KeyParts)
    ensures parts[k := p].Keys == parts.Keys + {k} && (k in parts ==> parts.Keys + {k} == parts.Keys)
  {
  }

  lemma NewPart(matched: seq<string>, parts: map<string, KeyParts>, k: string)
    requires PartsOf(matched, parts)
    ensures PartsOf(matched + [k], parts[k := Classify(k)])
  {
  }

  function ByKey(recs: seq<Record>): map<string, Record> {
    if recs == [] then map[] else ByKey(recs[..|recs| - 1])[recs[|recs| - 1].key := recs[|recs| - 1]]
  }

  /** A row per matched key whose record still exists. */
  function Rows(matched: seq<string>, byKey: map<string, Record>): seq<Item> {
    if matched == [] then []
    else
      var init, k := matched[..|matched| - 1], matched[|matched| - 1];
      Rows(init, byKey) + if k in byKey then [Item(Classify(k), byKey[k])] else []
  }

  predicate KeyOrder(a: Item, b: Item) {
    Sorting.Less(a.record.key, b.record.key)
  }

  datatype Service = Service(store: Option<Store>)
  {
    function LimitsOf(q: ListQuery): Limits {
      LimitsFor(!q.includeInternal, q.pageSize)
    }

    function CursorOf(q: ListQuery): Cursor
      requires store.Some?
    {
      store.value.cursor(ListPattern(q.appID, q.search), LimitsOf(q).pageSize)
    }

    function Ready(): Option<Error> {
      if store.None? then Some(NoStore) else if !store.value.browsable then Some(NotBrowsable) else None
    }

    function Render(matched: seq<string>, next: string): Result<ListResult, Error>
      requires store.Some?
    {
      match store.value.records(matched)
      case None => Err(RecordsFailed)
      case Some(recs) => Ok(ListResult(Sorting.SortBy(KeyOrder, Rows(matched, ByKey(recs))), next))
    }

    /** What List returns, as a function of the query. */
    ghost function ListSpec(q: ListQuery): Result<ListResult, Error>
      requires store.Some? ==> store.value.Valid()
    {
      if Ready().Some? then Err(Ready().value)
      else
        match Filled(q)
        case Err(_) => Err(KeysFailed)
        case Ok(g) => Render(g.items, CursorOf(q).NextToken(g.at - 1))
    }

    /** What one call gathers from the page its token names. */
    ghost function Filled(q: ListQuery): (r: Result<Progress<string>, string>)
      requires store.Some? && store.value.Valid()
      ensures r.Ok? ==> r.value.at >= 1
    {
      var c := CursorOf(q);
      FillFrom(ViewFor(q.includeInternal), c, LimitsOf(q), Start(IndexOf(c.tokens, q.pageToken)))
    }

    /** List for a query, by page token, as the keys it shows. */
    ghost function Client(q: ListQuery): Client<string>
      requires store.Some? && store.value.Valid()
    {
      token =>
        match ListSpec(q.(pageToken := token))
        case Err(_) => None
        case Ok(r) => Some((ItemKeys(r.items), r.next))
    }

    /** The body of List's loop over one key page; `parts` doubles as the set of keys seen. */
    method ScanPage(includeInternal: bool, keys: seq<string>, matched0: seq<string>, parts0: map<string, KeyParts>)
      returns (matched: seq<string>, parts: map<string, KeyParts>)
      requires PartsOf(matched0, parts0)
      ensures PartsOf(matched, parts)
      ensures parts.Keys == SeenAfter(ViewFor(includeInternal), parts0.Keys, keys)
      ensures matched == matched0 + Collect(ViewFor(includeInternal), parts0.Keys, keys)
    {
      ghost var view, seen0 := ViewFor(includeInternal), parts0.Keys;
      matched, parts := matched0, parts0;
      for n := 0 to |keys|
        invariant PartsOf(matched, parts)
        invariant parts.Keys == SeenAfter(view, seen0, keys[..n])
        invariant matched == matched0 + Collect(view, seen0, keys[..n])
      {
        ScanOneMore(includeInternal, seen0, keys, n);
        var k := keys[n];
        var p := Classify(k);
        if !includeInternal && p.kind != App {
          continue;
        }
        KeysPlus(parts, k, p);
        if k in parts {
          continue;
        }
        NewPart(matched, parts, k);
        Assoc(matched0, Collect(view, seen0, keys[..n]), [k]);
        parts, matched := parts[k := p], matched + [k];
      }
      assert keys[..|keys|] == keys;
    }

    /** List's outer loop. */
    method Gather(q: ListQuery) returns (r: Result<(seq<string>, map<string, KeyParts>, string), Error>)
      requires store.Some? && store.value.Valid()
      ensures match Filled(q)
              case Err(_) => r == Err(KeysFailed)
              case Ok(g) => r.Ok? && r.value.0 == g.items && r.value.2 == CursorOf(q).NextToken(g.at - 1)
      ensures r.Ok? ==> PartsOf(r.value.0, r.value.1)
    {
      var c, l := CursorOf(q), LimitsOf(q);
      ghost var view := ViewFor(q.includeInternal);
      ghost var g: Progress<string> := Start(IndexOf(c.tokens, q.pageToken));
      var matched: seq<string>, parts: map<string, KeyParts>, scanned: nat, token := [], map[], 0, q.pageToken;
      while true
        invariant g == Progress(matched, parts.Keys, scanned, g.at) && g.at <= |c.pages|
                  && IndexOf(c.tokens, token) == g.at
        invariant Filled(q) == FillFrom(view, c, l, g)
        invariant PartsOf(matched, parts)
        decreases |c.pages| - g.at
      {
        FillTurn(view, c, l, g, token);
        var page := c.Fetch(token);
        if page.Err? {
          return Err(KeysFailed);
        }
        var next := page.value.1;
        scanned := scanned + |page.value.0|;
        matched, parts := ScanPage(q.includeInternal, page.value.0, matched, parts);
        g := AfterPage(view, c, g);
        if q.includeInternal || |matched| >= l.pageSize || next == "" || scanned >= l.maxScan {
          return Ok((matched, parts, next));
        }
        token := next;
      }
    }

    method Index(recs: seq<Record>) returns (byKey: map<string, Record>)
      ensures byKey == ByKey(recs)
    {
      byKey := map[];
      for n := 0 to |recs|
        invariant byKey == ByKey(recs[..n])
      {
        assert recs[..n + 1][..n] == recs[..n];
        byKey := byKey[recs[n].key := recs[n]];
      }
      assert recs[..|recs|] == recs;
    }

    method Assemble(matched: seq<string>, parts: map<string, KeyParts>, byKey: map<string, Record>)
      returns (items: seq<Item>)
      requires PartsOf(matched, parts)
      ensures items == Rows(matched, byKey)
    {
      items := [];
      for n := 0 to |matched|
        invariant items == Rows(matched[..n], byKey)
      {
        assert matched[..n + 1][..n] == matched[..n];
        var k := matched[n];
        assert k in matched;
        if k in byKey {
          items := items + [Item(parts[k], byKey[k])];
        }
      }
      assert matched[..|matched|] == matched;
    }

    method List(q: ListQuery) returns (r: Result<ListResult, Error>)
      requires store.Some? ==> store.value.Valid()
      ensures r == ListSpec(q)
      ensures r == Err(NoStore) <==> store.None?
      ensures r == Err(NotBrowsable) <==> store.Some? && !store.value.browsable
    {
      if Ready().Some? {
        return Err(Ready().value);
      }
      var gathered := Gather(q);
      if gathered.Err? {
        return Err(gathered.error);
      }
      var (matched, parts, next) := gathered.value;
      var read := store.value.records(matched);
      if read.None? {
        return Err(RecordsFailed);
      }
      var byKey := Index(read.value);
      var items := Assemble(matched, parts, byKey);
      r := Ok(ListResult(Sorting.SortBy(KeyOrder, items), next));
    }

    /** The distinct prefixes of the surviving keys, in order. */
    method AppIDs(includeInternal: bool) returns (r: Result<seq<string>, Error>)
      requires store.Some? ==> store.value.Valid()
      ensures Ready().Some? ==> r == Err(Ready().value)
      ensures Ready().None? ==> r.Err? == ("" in store.value.cursor("%", 0).broken)
      ensures r.Ok? ==> forall i, j :: 0 <= i < j < |r.value| ==> Sorting.Less(r.value[i], r.value[j])
      ensures r.Ok? ==> forall a :: a in r.value <==>
                a != "" && exists k ::
                  k in store.value.cursor("%", 0).pages[0] && Survives(includeInternal, k) && Classify(k).appID == a
    {
      if Ready().Some? {
        return Err(Ready().value);
      }
      var c := store.value.cursor("%", 0);
      FetchAt(c, 0);
      var page := c.Fetch("");
      if page.Err? {
        return Err(KeysFailed);
      }
      var keys := page.value.0;
      var ids: seq<string> := [];
      for n := 0 to |keys|
        invariant forall i, j :: 0 <= i < j < |ids| ==> ids[i] != ids[j]
        invariant forall a :: a in ids <==>
                    a != "" && exists m ::
                      0 <= m < n && Survives(includeInternal, keys[m]) && Classify(keys[m]).appID == a
      {
        var p := Classify(keys[n]);
        if p.appID == "" || (!includeInternal && p.kind != App) || p.appID in ids {
          continue;
        }
        ids := ids + [p.appID];
      }
      SortedDistinct(ids);
      r := Ok(Sorting.SortStrings(ids));
    }
  }

  lemma SortedDistinct(ids: seq<string>)
    requires forall i, j :: 0 <= i < j < |ids| ==> ids[i] != ids[j]
    ensures forall a :: a in Sorting.SortStrings(ids) <==> a in ids
    ensures var s := Sorting.SortStrings(ids); forall i, j :: 0 <= i < j < |s| ==> Sorting.Less(s[i], s[j])
  {
    var s := Sorting.SortStrings(ids);
    Sorting.SortPermutes(Sorting.Less, ids);
    Sorting.LessIsStrictWeak();
    Sorting.SortSorts(Sorting.Less, ids);
    forall a ensures a in s <==> a in ids {
      assert a in s <==> a in multiset(s);
      assert a in ids <==> a in multiset(ids);
    }
    PermutedDistinct(ids, s);
    forall i, j | 0 <= i < j < |s| ensures Sorting.Less(s[i], s[j]) {
      Sorting.LessOrdersTwo(s[i], s[j]);
    }
  }

  lemma {:induction false} DistinctCounts<T>(xs: seq<T>, x: T)
    requires forall i, j :: 0 <= i < j < |xs| ==> xs[i] != xs[j]
    ensures multiset(xs)[x] <= 1
  {
    if xs != [] {
      var tail := xs[1..];
      DistinctCounts(tail, x);
      assert xs == [xs[0]] + tail;
      assert xs[0] !in tail;
    }
  }

  lemma RepeatCounts<T>(xs: seq<T>, i: nat, j: nat)
    requires i < j < |xs| && xs[i] == xs[j]
    ensures multiset(xs)[xs[i]] >= 2
  {
    var before, rest := xs[..j], xs[j + 1..];
    assert xs == before + [xs[j]] + rest;
    assert before[i] in multiset(before);
  }

  lemma PermutedDistinct<T>(xs: seq<T>, ys: seq<T>)
    requires multiset(xs) == multiset(ys)
    requires forall i, j :: 0 <= i < j < |xs| ==> xs[i] != xs[j]
    ensures forall i, j :: 0 <= i < j < |ys| ==> ys[i] != ys[j]
  {
    forall i, j | 0 <= i < j < |ys| ensures ys[i] != ys[j] {
      DistinctCounts(xs, ys[i]);
      if ys[i] == ys[j] {
        RepeatCounts(ys, i, j);
      }
    }
  }

  // ------------------------------------------------------- what an item holds

  lemma {:induction false} ByKeyHolds(recs: seq<Record>, k: string)
    requires k in ByKey(recs)
    ensures ByKey(recs)[k] in recs && ByKey(recs)[k].key == k
  {
    var init, last := recs[..|recs| - 1], recs[|recs| - 1];
    assert recs == init + [last];
    if k != last.key {
      ByKeyHolds(init, k);
    }
  }

  lemma {:induction false} RowsHold(matched: seq<string>, byKey: map<string, Record>, x: Item)
    requires x in Rows(matched, byKey)
    ensures exists k :: k in matched && k in byKey && x == Item(Classify(k), byKey[k])
  {
    var init, k := matched[..|matched| - 1], matched[|matched| - 1];
    assert matched == init + [k];
    if x in Rows(init, byKey) {
      RowsHold(init, byKey, x);
      var y :| y in init && y in byKey && x == Item(Classify(y), byKey[y]);
      assert y in matched;
    } else {
      assert k in byKey && x == Item(Classify(k), byKey[k]);
    }
  }

  /** Every item shows a record that the store returned for it, with the parts of that record's key. */
  lemma ItemsAreRecords(svc: Service, q: ListQuery, x: Item)
    requires svc.store.Some? ==> svc.store.value.Valid()
    requires svc.ListSpec(q).Ok? && x in svc.ListSpec(q).value.items
    ensures x.parts == Classify(x.record.key)
    ensures svc.store.Some? && exists keys, recs ::
              svc.store.value.records(keys) == Some(recs) && x.record.key in keys && x.record in recs
  {
    var matched := svc.Filled(q).value.items;
    var recs := svc.store.value.records(matched).value;
    ShownRow(matched, recs, x);
    assert svc.store.value.records(matched) == Some(recs);
  }

  lemma ShownRow(matched: seq<string>, recs: seq<Record>, x: Item)
    requires x in Sorting.SortBy(KeyOrder, Rows(matched, ByKey(recs)))
    ensures x.parts == Classify(x.record.key) && x.record.key in matched && x.record in recs
  {
    var rows := Rows(matched, ByKey(recs));
    Sorting.SortPermutes(KeyOrder, rows);
    assert x in multiset(Sorting.SortBy(KeyOrder, rows));
    RowsHold(matched, ByKey(recs), x);
    var k :| k in matched && k in ByKey(recs) && x == Item(Classify(k), ByKey(recs)[k]);
    ByKeyHolds(recs, k);
  }

  // ------------------------------------------------------- paging to exhaustion

  function ItemKeys(items: seq<Item>): seq<string> {
    if items == [] then [] else [items[0].record.key] + ItemKeys(items[1..])
  }

  lemma {:induction false} ItemKeysAppend(a: seq<Item>, b: seq<Item>)
    ensures ItemKeys(a + b) == ItemKeys(a) + ItemKeys(b)
  {
    if a == [] {
      assert a + b == b;
    } else {
      ItemKeysAppend(a[1..], b);
      Assoc([a[0].record.key], ItemKeys(a[1..]), ItemKeys(b));
      assert (a + b)[1..] == a[1..] + b;
    }
  }

  lemma {:induction false} InsertByKey(x: Item, items: seq<Item>)
    ensures ItemKeys(Sorting.Insert(KeyOrder, x, items)) == Sorting.Insert(Sorting.Less, x.record.key, ItemKeys(items))
  {
    if items != [] {
      InsertByKey(x, items[1..]);
      assert ItemKeys(items)[1..] == ItemKeys(items[1..]);
    }
    assert ([x] + items)[1..] == items;
  }

  lemma {:induction false} SortByKey(items: seq<Item>)
    ensures ItemKeys(Sorting.SortBy(KeyOrder, items)) == Sorting.SortStrings(ItemKeys(items))
  {
    if items != [] {
      SortByKey(items[1..]);
      InsertByKey(items[0], Sorting.SortBy(KeyOrder, items[1..]));
      assert ItemKeys(items)[1..] == ItemKeys(items[1..]);
    }
  }

  lemma {:induction false} RowKeys(matched: seq<string>, byKey: map<string, Record>)
    requires forall k :: k in matched ==> k in byKey && byKey[k].key == k
    ensures ItemKeys(Rows(matched, byKey)) == matched
    decreases |matched|
  {
    if matched != [] {
      var init, k := matched[..|matched| - 1], matched[|matched| - 1];
      RowKeys(init, byKey);
      ItemKeysAppend(Rows(init, byKey), [Item(Classify(k), byKey[k])]);
      assert [Item(Classify(k), byKey[k])][1..] == [];
      assert matched == init + [k];
    }
  }

  /** The store does not change or fail: every key listed for the query still has its record when it is read. */
  ghost predicate Steady(svc: Service, q: ListQuery) {
    && svc.Ready().None? && svc.store.value.Valid()
    && svc.CursorOf(q).broken == {}
    && forall ks :: Listed(svc.CursorOf(q), ks) ==> ReadsAll(svc.store.value, ks)
  }

  /** The cursor lists all of the keys. */
  ghost predicate Listed(c: Cursor, ks: seq<string>) {
    forall k :: k in ks ==> k in Flat(c.pages)
  }

  ghost predicate ReadsAll(store: Store, ks: seq<string>) {
    var recs := store.records(ks);
    recs.Some? && forall k :: k in ks ==> k in ByKey(recs.value) && ByKey(recs.value)[k].key == k
  }

  /** The keys a client is shown that pages through a query from its first page. */
  ghost function AllPages(svc: Service, q: ListQuery): seq<seq<string>>
    requires svc.store.Some? && svc.store.value.Valid()
  {
    PageThrough(svc.CursorOf(q), svc.Client(q), 0)
  }

  /** The keys kept of some pages are keys the cursor lists. */
  lemma KeptAreListed(includeInternal: bool, c: Cursor, i: nat, at: nat)
    requires i <= at <= |c.pages|
    ensures Listed(c, Collect(ViewFor(includeInternal), {}, Flat(c.pages[i..at])))
  {
    CollectKeeps(includeInternal, {}, Flat(c.pages[i..at]));
    FlatAppend(c.pages[..i], c.pages[i..at]);
    FlatAppend(c.pages[..at], c.pages[at..]);
    assert c.pages[..i] + c.pages[i..at] == c.pages[..at];
    assert c.pages[..at] + c.pages[at..] == c.pages;
  }

  lemma {:induction false} CollectKeeps(includeInternal: bool, seen: set<string>, keys: seq<string>)
    ensures forall k :: k in Collect(ViewFor(includeInternal), seen, keys) ==> k in keys
    decreases |keys|
  {
    if keys != [] {
      CollectKeeps(includeInternal, Note(RowOf(includeInternal, keys[0]), seen), keys[1..]);
    }
  }

  /**
   * Each List call shows, sorted, the keys it keeps of one run of pages, and hands out the
   * token of the page after it.
   */
  lemma OneCall(svc: Service, q: ListQuery, i: nat) returns (at: nat)
    requires Steady(svc, q) && i < |svc.CursorOf(q).pages|
    ensures i < at <= |svc.CursorOf(q).pages|
    ensures var c, view := svc.CursorOf(q), ViewFor(q.includeInternal);
            var keys := Collect(view, {}, Flat(c.pages[i..at]));
            var r := svc.ListSpec(q.(pageToken := c.tokens[i]));
            && Fill(view, c, svc.LimitsOf(q), Start(i))
               == Ok(Progress(keys, SeenAfter(view, {}, Flat(c.pages[i..at])), |Flat(c.pages[i..at])|, at))
            && r.Ok? && ItemKeys(r.value.items) == Sorting.SortStrings(keys) && r.value.next == c.NextToken(at - 1)
  {
    var c, l, view := svc.CursorOf(q), svc.LimitsOf(q), ViewFor(q.includeInternal);
    var q' := q.(pageToken := c.tokens[i]);
    assert svc.CursorOf(q') == c && svc.LimitsOf(q') == l;
    FetchAt(c, i);
    var g := OneFill(view, c, l, i);
    at := g.at;
    KeptAreListed(q.includeInternal, c, i, at);
    assert ReadsAll(svc.store.value, g.items);
    var byKey := ByKey(svc.store.value.records(g.items).value);
    RowKeys(g.items, byKey);
    SortByKey(Rows(g.items, byKey));
  }

  lemma ServesPages(svc: Service, q: ListQuery)
    requires Steady(svc, q)
    ensures Serves(svc.Client(q), ViewFor(q.includeInternal), svc.CursorOf(q), svc.LimitsOf(q))
  {
    forall i: nat | i < |svc.CursorOf(q).pages|
      ensures ServesAt(svc.Client(q), ViewFor(q.includeInternal), svc.CursorOf(q), svc.LimitsOf(q), i)
    {
      var at := OneCall(svc, q, i);
      Sorting.SortPermutes(Sorting.Less, Collect(ViewFor(q.includeInternal), {}, Flat(svc.CursorOf(q).pages[i..at])));
    }
  }

  lemma {:induction false} ItemKeysSize(items: seq<Item>)
    ensures |ItemKeys(items)| == |items|
  {
    if items != [] {
      ItemKeysSize(items[1..]);
    }
  }

  /**
   * One call without internal keys: it shows what the filter keeps of the pages it scanned, fewer
   * than two pages of keys; it scanned less than a page beyond the cap; and it comes back short
   * only at the end of the keys or at the cap.
   */
  lemma FilteredCallBounds(svc: Service, q: ListQuery, i: nat) returns (at: nat)
    requires Steady(svc, q) && i < |svc.CursorOf(q).pages| && !q.includeInternal
    requires svc.CursorOf(q).PagesWithin(svc.LimitsOf(q).pageSize)
    ensures i < at <= |svc.CursorOf(q).pages|
    ensures var c := svc.CursorOf(q);
            var size := if q.pageSize <= 0 then 50 else q.pageSize;
            var cap := if 10 * size > 2000 then 2000 else 10 * size;
            var scanned := Flat(c.pages[i..at]);
            var r := svc.ListSpec(q.(pageToken := c.tokens[i]));
            && r.Ok? && r.value.next == c.NextToken(at - 1)
            && ItemKeys(r.value.items) == Sorting.SortStrings(Collect(ViewFor(false), {}, scanned))
            && |r.value.items| < 2 * size && |scanned| < cap + size
            && (|r.value.items| < size ==> at == |c.pages| || |scanned| >= cap)
  {
    at := OneCall(svc, q, i);
    var c := svc.CursorOf(q);
    FillBounds(ViewFor(false), c, svc.LimitsOf(q), Start<string>(i));
    Sorting.SortPermutes(Sorting.Less, Collect(ViewFor(false), {}, Flat(c.pages[i..at])));
    ItemKeysSize(svc.ListSpec(q.(pageToken := c.tokens[i])).value.items);
  }

  /** Whether the query asks for the key: app prefix, literal search in the rest, and kind. */
  ghost predicate Wanted(q: ListQuery, key: string) {
    && (q.appID == "" || Like.StartsWith(key, q.appID + DELIMITER))
    && (q.search == "" || Like.Contains(if q.appID == "" then key else key[|q.appID| + 2..], q.search))
    && (q.includeInternal || !TwoDelimiters(key))
  }

  ghost predicate NoRepeats(keys: seq<string>) {
    forall i, j :: 0 <= i < j < |keys| ==> keys[i] != keys[j]
  }

  /** Paging shows the surviving keys of the cursor, each as often as the cursor lists it. */
  lemma PagingShowsSurvivors(svc: Service, q: ListQuery)
    requires Steady(svc, q) && NoRepeats(Flat(svc.CursorOf(q).pages))
    ensures multiset(Flat(AllPages(svc, q)))
            == multiset(Select(ViewFor(q.includeInternal), Flat(svc.CursorOf(q).pages)))
  {
    var c, view := svc.CursorOf(q), ViewFor(q.includeInternal);
    assert c.pages[0..] == c.pages;
    ServesPages(svc, q);
    PageThroughFollows(svc.Client(q), view, c, svc.LimitsOf(q), 0);
    FollowIsSelect(view, c, svc.LimitsOf(q), 0);
  }

  lemma SameElements<T>(xs: seq<T>, ys: seq<T>)
    requires multiset(xs) == multiset(ys)
    ensures forall x :: x in xs <==> x in ys
  {
    forall x ensures x in xs <==> x in ys {
      assert x in xs <==> x in multiset(xs);
      assert x in ys <==> x in multiset(ys);
    }
  }

  /**
   * Over a steady store holding the keys `all`, paging from the empty token to the end shows
   * every key the query asks for exactly once and no other.
   */
  lemma PagingShowsExactlyTheWantedKeys(svc: Service, q: ListQuery, all: set<string>)
    requires Steady(svc, q) && NoRepeats(Flat(svc.CursorOf(q).pages))
    requires forall k :: k in Flat(svc.CursorOf(q).pages) <==>
      k in all && Like.Matches(ListPattern(q.appID, q.search), k)
    ensures NoRepeats(Flat(AllPages(svc, q)))
    ensures forall k :: k in Flat(AllPages(svc, q)) <==> k in all && Wanted(q, k)
  {
    var keys := Flat(svc.CursorOf(q).pages);
    var kept, shown := Select(ViewFor(q.includeInternal), keys), Flat(AllPages(svc, q));
    PagingShowsSurvivors(svc, q);
    SelectSurvivors(q.includeInternal, keys);
    PermutedDistinct(kept, shown);
    SameElements(kept, shown);
    forall k ensures k in shown <==> k in all && Wanted(q, k) {
      WantedIffSelected(q, k);
    }
  }

  lemma WantedIffSelected(q: ListQuery, key: string)
    ensures Wanted(q, key) <==> Like.Matches(ListPattern(q.appID, q.search), key) && Survives(q.includeInternal, key)
  {
    ListPatternSelects(q.appID, q.search, key);
    ClassifyKindIff(key);
  }

  lemma {:induction false} SelectSurvivors(includeInternal: bool, keys: seq<string>)
    requires NoRepeats(keys)
    ensures NoRepeats(Select(ViewFor(includeInternal), keys))
    ensures forall k :: k in Select(ViewFor(includeInternal), keys) <==> k in keys && Survives(includeInternal, k)
  {
    if keys != [] {
      var tail := keys[1..];
      assert forall i :: 0 <= i < |tail| ==> tail[i] == keys[i + 1];
      SelectSurvivors(includeInternal, tail);
      var rest := Select(ViewFor(includeInternal), tail);
      assert keys[0] !in tail;
      assert keys == [keys[0]] + tail;
      assert Select(ViewFor(includeInternal), keys)
             == (if Survives(includeInternal, keys[0]) then [keys[0]] else []) + rest;
    }
  }
}
