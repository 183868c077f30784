/**
 * Cursor paging with a per-key filter: the loop-fill that pkg/workflow and pkg/state share.
 *
 * One call keeps fetching key pages until it has a full page of items, the keys end, or the
 * scan cap is reached. The specification below is over an unchanging store, whose cursor
 * hands out a fixed sequence of key pages; pages may be short or empty.
 */
module Paging {
  import opened Basics

  /** What a call makes of one key: nothing, or a row with a dedup key that may yield an item. */
  datatype Row<+T> = Skip | Row(dedup: string, item: Option<T>)

  type View<!T> = string -> Row<T>

  /** A store's cursor: page i is fetched with tokens[i]; reading a broken token fails. */
  datatype Cursor = Cursor(pages: seq<seq<string>>, tokens: seq<string>, broken: set<string>)
  {
    ghost predicate Valid() {
      && |pages| == |tokens| >= 1 && tokens[0] == ""
      && forall i, j :: 0 <= i < j < |tokens| ==> tokens[i] != tokens[j]
    }

    function NextToken(i: nat): string {
      if i + 1 < |tokens| then tokens[i + 1] else ""
    }

    function Fetch(token: string): Result<(seq<string>, string), string> {
      var i := IndexOf(tokens, token);
      if i >= |pages| || token in broken then Err("keys failed") else Ok((pages[i], NextToken(i)))
    }

    ghost predicate PagesWithin(pageSize: nat) {
      forall i :: 0 <= i < |pages| ==> |pages[i]| <= pageSize
    }
  }

  function IndexOf(xs: seq<string>, x: string): (i: nat)
    ensures i <= |xs|
    ensures i < |xs| ==> xs[i] == x
    ensures forall j :: 0 <= j < i ==> xs[j] != x
  {
    if xs == [] || xs[0] == x then 0 else 1 + IndexOf(xs[1..], x)
  }

  lemma FetchAt(c: Cursor, i: nat)
    requires c.Valid() && i < |c.pages|
    ensures IndexOf(c.tokens, c.tokens[i]) == i
    ensures c.Fetch(c.tokens[i])
            == if c.tokens[i] in c.broken then Err("keys failed") else Ok((c.pages[i], c.NextToken(i)))
  {
  }

  function Flat<T>(xss: seq<seq<T>>): seq<T> {
    if xss == [] then [] else xss[0] + Flat(xss[1..])
  }

  lemma {:induction false} FlatAppend<T>(a: seq<seq<T>>, b: seq<seq<T>>)
    ensures Flat(a + b) == Flat(a) + Flat(b)
  {
    if a == [] {
      assert a + b == b;
    } else {
      FlatAppend(a[1..], b);
      Assoc(a[0], Flat(a[1..]), Flat(b));
      assert (a + b)[1..] == a[1..] + b;
    }
  }

  // ------------------------------------------------------- keys to items

  function Yield<T>(row: Row<T>, seen: set<string>): seq<T> {
    if row.Row? && row.dedup !in seen && row.item.Some? then [row.item.value] else []
  }

  function Note<T>(row: Row<T>, seen: set<string>): set<string> {
    if row.Row? then seen + {row.dedup} else seen
  }

  function SeenAfter<T>(view: View<T>, seen: set<string>, keys: seq<string>): set<string>
    decreases |keys|
  {
    if keys == [] then seen else SeenAfter(view, Note(view(keys[0]), seen), keys[1..])
  }

  /** The items of the keys, in key order, skipping rows whose dedup key was seen before. */
  function Collect<T>(view: View<T>, seen: set<string>, keys: seq<string>): seq<T>
    decreases |keys|
  {
    if keys == [] then []
    else Yield(view(keys[0]), seen) + Collect(view, Note(view(keys[0]), seen), keys[1..])
  }

  /** The plain filter: every key's item, duplicates included. */
  function Select<T>(view: View<T>, keys: seq<string>): seq<T> {
    if keys == [] then [] else Yield(view(keys[0]), {}) + Select(view, keys[1..])
  }

  lemma {:induction false} CollectAppend<T>(view: View<T>, seen: set<string>, a: seq<string>, b: seq<string>)
    ensures SeenAfter(view, seen, a + b) == SeenAfter(view, SeenAfter(view, seen, a), b)
    ensures Collect(view, seen, a + b) == Collect(view, seen, a) + Collect(view, SeenAfter(view, seen, a), b)
    decreases |a|
  {
    if a == [] {
      assert a + b == b;
    } else {
      CollectAppend(view, Note(view(a[0]), seen), a[1..], b);
      Assoc(Yield(view(a[0]), seen), Collect(view, Note(view(a[0]), seen), a[1..]),
        Collect(view, SeenAfter(view, seen, a), b));
      assert (a + b)[1..] == a[1..] + b;
    }
  }

  /** One more key of a page, as the loops process it. */
  lemma CollectOneMore<T>(view: View<T>, seen: set<string>, keys: seq<string>, n: nat)
    requires n < |keys|
    ensures var before := SeenAfter(view, seen, keys[..n]);
            && SeenAfter(view, seen, keys[..n + 1]) == Note(view(keys[n]), before)
            && Collect(view, seen, keys[..n + 1]) == Collect(view, seen, keys[..n]) + Yield(view(keys[n]), before)
  {
    assert keys[..n + 1] == keys[..n] + [keys[n]];
    CollectAppend(view, seen, keys[..n], [keys[n]]);
    assert [keys[n]][1..] == [];
  }

  lemma {:induction false} CollectAtMost<T>(view: View<T>, seen: set<string>, keys: seq<string>)
    ensures |Collect(view, seen, keys)| <= |keys|
    decreases |keys|
  {
    if keys != [] {
      CollectAtMost(view, Note(view(keys[0]), seen), keys[1..]);
    }
  }

  lemma {:induction false} SelectAppend<T>(view: View<T>, a: seq<string>, b: seq<string>)
    ensures Select(view, a + b) == Select(view, a) + Select(view, b)
  {
    if a == [] {
      assert a + b == b;
    } else {
      SelectAppend(view, a[1..], b);
      Assoc(Yield(view(a[0]), {}), Select(view, a[1..]), Select(view, b));
      assert (a + b)[1..] == a[1..] + b;
    }
  }

  /** No two rows share a dedup key. */
  ghost predicate DistinctRows<T>(view: View<T>, keys: seq<string>) {
    forall i, j :: 0 <= i < j < |keys| && view(keys[i]).Row? && view(keys[j]).Row? ==>
      view(keys[i]).dedup != view(keys[j]).dedup
  }

  ghost predicate Unseen<T>(view: View<T>, seen: set<string>, keys: seq<string>) {
    forall i :: 0 <= i < |keys| && view(keys[i]).Row? ==> view(keys[i]).dedup !in seen
  }

  lemma {:induction false} CollectDistinct<T>(view: View<T>, seen: set<string>, keys: seq<string>)
    requires DistinctRows(view, keys) && Unseen(view, seen, keys)
    ensures Collect(view, seen, keys) == Select(view, keys)
    decreases |keys|
  {
    if keys != [] {
      assert forall i :: 0 <= i < |keys[1..]| ==> keys[1..][i] == keys[i + 1];
      CollectDistinct(view, Note(view(keys[0]), seen), keys[1..]);
    }
  }

  /** Having seen more can only lose items. */
  lemma {:induction false} CollectMonotone<T>(view: View<T>, seen: set<string>, more: set<string>, keys: seq<string>)
    requires seen <= more
    ensures multiset(Collect(view, more, keys)) <= multiset(Collect(view, seen, keys))
    decreases |keys|
  {
    if keys != [] {
      CollectMonotone(view, Note(view(keys[0]), seen), Note(view(keys[0]), more), keys[1..]);
    }
  }

  // ------------------------------------------------------- one call

  datatype Limits = Limits(filtered: bool, pageSize: nat, maxScan: nat)

  const DEFAULT_PAGE_SIZE := 50
  const FILTERED_SCAN_PAGE_MULTIPLE := 10
  const MAX_FILTERED_SCAN_KEYS := 2000

  function LimitsFor(filtered: bool, pageSize: int): (l: Limits)
    ensures l.pageSize >= 1 && l.maxScan >= 1
  {
    var size := if pageSize <= 0 then DEFAULT_PAGE_SIZE else pageSize;
    var scan := size * FILTERED_SCAN_PAGE_MULTIPLE;
    Limits(filtered, size, if scan > MAX_FILTERED_SCAN_KEYS then MAX_FILTERED_SCAN_KEYS else scan)
  }

  /** What a call has gathered: items, dedup keys seen, keys scanned, and the page to go on from. */
  datatype Progress<T> = Progress(items: seq<T>, seen: set<string>, scanned: nat, at: nat)

  function Start<T>(i: nat): Progress<T> {
    Progress([], {}, 0, i)
  }

  function AfterPage<T>(view: View<T>, c: Cursor, g: Progress<T>): Progress<T>
    requires g.at < |c.pages|
  {
    var page := c.pages[g.at];
    Progress(g.items + Collect(view, g.seen, page), SeenAfter(view, g.seen, page), g.scanned + |page|, g.at + 1)
  }

  predicate Stops<T>(c: Cursor, l: Limits, g: Progress<T>) {
    !l.filtered || |g.items| >= l.pageSize || g.at >= |c.pages| || g.scanned >= l.maxScan
  }

  /** The loop-fill from a given state; an error as soon as a page cannot be read. */
  function Fill<T>(view: View<T>, c: Cursor, l: Limits, g: Progress<T>): (r: Result<Progress<T>, string>)
    requires g.at < |c.pages| == |c.tokens|
    ensures r.Ok? ==> g.at < r.value.at <= |c.pages|
    decreases |c.pages| - g.at
  {
    if c.tokens[g.at] in c.broken then Err("keys failed")
    else
      var g' := AfterPage(view, c, g);
      if Stops(c, l, g') then Ok(g') else Fill(view, c, l, g')
  }

  /** Fill, or the error of a token that names no page. */
  function FillFrom<T>(view: View<T>, c: Cursor, l: Limits, g: Progress<T>): Result<Progress<T>, string>
    requires |c.pages| == |c.tokens|
  {
    if g.at >= |c.pages| then Err("keys failed") else Fill(view, c, l, g)
  }

  /** One turn of the loop: what the fetch gives, and how far that takes the fill. */
  lemma FillTurn<T>(view: View<T>, c: Cursor, l: Limits, g: Progress<T>, token: string)
    requires c.Valid() && g.at <= |c.pages| && IndexOf(c.tokens, token) == g.at
    ensures c.Fetch(token).Err? ==>
      FillFrom(view, c, l, g) == Err("keys failed") && c.Fetch(token).error == "keys failed"
    ensures c.Fetch(token).Ok? ==>
              && g.at < |c.pages|
              && c.Fetch(token).value == (c.pages[g.at], c.NextToken(g.at))
              && var g1 := AfterPage(view, c, g);
                 && (c.NextToken(g.at) == "" <==> g1.at >= |c.pages|)
                 && FillFrom(view, c, l, g) == (if Stops(c, l, g1) then Ok(g1) else FillFrom(view, c, l, g1))
                 && (g1.at < |c.pages| ==> IndexOf(c.tokens, c.NextToken(g.at)) == g1.at)
  {
    if g.at + 1 < |c.tokens| {
      FetchAt(c, g.at + 1);
      assert c.tokens[0] != c.tokens[g.at + 1];
    }
  }

  /** A call reads a run of consecutive pages and returns what the filter keeps of them. */
  lemma {:induction false} FillGathers<T>(view: View<T>, c: Cursor, l: Limits, g: Progress<T>)
    requires c.Valid() && c.broken == {} && g.at < |c.pages|
    ensures Fill(view, c, l, g).Ok?
    ensures var g' := Fill(view, c, l, g).value;
            && g.at < g'.at <= |c.pages|
            && g'.items == g.items + Collect(view, g.seen, Flat(c.pages[g.at..g'.at]))
            && g'.scanned == g.scanned + |Flat(c.pages[g.at..g'.at])|
            && g'.seen == SeenAfter(view, g.seen, Flat(c.pages[g.at..g'.at]))
            && Stops(c, l, g')
    decreases |c.pages| - g.at
  {
    var g1 := AfterPage(view, c, g);
    var page := c.pages[g.at];
    if Stops(c, l, g1) {
      assert c.pages[g.at..g1.at] == [page];
      assert Flat([page]) == page + Flat([]) == page;
    } else {
      FillGathers(view, c, l, g1);
      FlatNext(c.pages, g.at, Fill(view, c, l, g1).value.at);
      var rest := Flat(c.pages[g1.at..Fill(view, c, l, g1).value.at]);
      CollectAppend(view, g.seen, page, rest);
      Assoc(g.items, Collect(view, g.seen, page), Collect(view, g1.seen, rest));
    }
  }

  lemma FlatNext<T>(xss: seq<seq<T>>, i: nat, j: nat)
    requires i < j <= |xss|
    ensures Flat(xss[i..j]) == xss[i] + Flat(xss[i + 1..j])
  {
    assert xss[i..j][1..] == xss[i + 1..j];
  }

  /** A whole call from page i. */
  lemma OneFill<T>(view: View<T>, c: Cursor, l: Limits, i: nat) returns (g: Progress<T>)
    requires c.Valid() && c.broken == {} && i < |c.pages|
    ensures Fill(view, c, l, Start(i)) == Ok(g) && i < g.at <= |c.pages|
    ensures var scanned := Flat(c.pages[i..g.at]);
            g == Progress(Collect(view, {}, scanned), SeenAfter(view, {}, scanned), |scanned|, g.at)
  {
    FillGathers(view, c, l, Start<T>(i));
    g := Fill(view, c, l, Start<T>(i)).value;
  }

  /**
   * A filtered call returns fewer than two pages of items, scans less than a page beyond the
   * cap, and comes back short only at the end of the keys or at the cap.
   */
  lemma {:induction false} FillBounds<T>(view: View<T>, c: Cursor, l: Limits, g: Progress<T>)
    requires c.Valid() && c.broken == {} && g.at < |c.pages| && c.PagesWithin(l.pageSize)
    requires l.filtered && |g.items| < l.pageSize && g.scanned < l.maxScan
    ensures Fill(view, c, l, g).Ok?
    ensures var g' := Fill(view, c, l, g).value;
            && |g'.items| < 2 * l.pageSize
            && g'.scanned < l.maxScan + l.pageSize
            && (|g'.items| < l.pageSize ==> g'.at == |c.pages| || g'.scanned >= l.maxScan)
    decreases |c.pages| - g.at
  {
    var g1 := AfterPage(view, c, g);
    CollectAtMost(view, g.seen, c.pages[g.at]);
    if !Stops(c, l, g1) {
      FillBounds(view, c, l, g1);
    }
  }

  // ------------------------------------------------------- following the tokens

  /** The items of each call when every NextToken is followed from page i on. */
  function Follow<T>(view: View<T>, c: Cursor, l: Limits, i: nat): seq<seq<T>>
    requires i <= |c.pages| == |c.tokens|
    decreases |c.pages| - i
  {
    if i == |c.pages| then []
    else
      match Fill(view, c, l, Start(i))
      case Err(_) => []
      case Ok(g) => [g.items] + Follow(view, c, l, g.at)
  }

  /** The first call of Follow, and the keys before and after the point it stops at. */
  lemma FollowUnfolds<T>(view: View<T>, c: Cursor, l: Limits, i: nat) returns (at: nat)
    requires c.Valid() && c.broken == {} && i < |c.pages|
    ensures i < at <= |c.pages|
    ensures Flat(c.pages[i..]) == Flat(c.pages[i..at]) + Flat(c.pages[at..])
    ensures Flat(Follow(view, c, l, i)) == Collect(view, {}, Flat(c.pages[i..at])) + Flat(Follow(view, c, l, at))
  {
    FillGathers(view, c, l, Start<T>(i));
    var g := Fill(view, c, l, Start<T>(i)).value;
    at := g.at;
    FlatSplit(c.pages, i, at);
    FlatCons(g.items, Follow(view, c, l, at));
    assert [] + Collect(view, {}, Flat(c.pages[i..at])) == Collect(view, {}, Flat(c.pages[i..at]));
  }

  lemma FlatSplit<T>(xss: seq<seq<T>>, i: nat, j: nat)
    requires i <= j <= |xss|
    ensures Flat(xss[i..]) == Flat(xss[i..j]) + Flat(xss[j..])
  {
    assert xss[i..] == xss[i..j] + xss[j..];
    FlatAppend(xss[i..j], xss[j..]);
  }

  lemma FlatCons<T>(xs: seq<T>, xss: seq<seq<T>>)
    ensures Flat([xs] + xss) == xs + Flat(xss)
  {
    assert ([xs] + xss)[1..] == xss;
  }

  /** Over an unchanging store, the calls together hold what a plain filter of all keys holds. */
  lemma {:induction false} FollowIsSelect<T>(view: View<T>, c: Cursor, l: Limits, i: nat)
    requires c.Valid() && c.broken == {} && i <= |c.pages|
    requires DistinctRows(view, Flat(c.pages[i..]))
    ensures Flat(Follow(view, c, l, i)) == Select(view, Flat(c.pages[i..]))
    decreases |c.pages| - i
  {
    if i < |c.pages| {
      var at := FollowUnfolds(view, c, l, i);
      var now, later := Flat(c.pages[i..at]), Flat(c.pages[at..]);
      DistinctParts(view, now, later);
      CollectDistinct(view, {}, now);
      SelectAppend(view, now, later);
      FollowIsSelect(view, c, l, at);
    }
  }

  lemma DistinctParts<T>(view: View<T>, a: seq<string>, b: seq<string>)
    requires DistinctRows(view, a + b)
    ensures DistinctRows(view, a) && DistinctRows(view, b)
  {
    assert forall i :: 0 <= i < |a| ==> (a + b)[i] == a[i];
    assert forall i :: 0 <= i < |b| ==> (a + b)[|a| + i] == b[i];
  }

  /**
   * With no condition on the keys, one scan with a single `seen` set (as Stats makes) never
   * finds an item that paging (with a `seen` set per call) misses.
   */
  lemma {:induction false} ScanWithinFollow<T>(view: View<T>, c: Cursor, l: Limits, i: nat)
    requires c.Valid() && c.broken == {} && i <= |c.pages|
    ensures multiset(Collect(view, {}, Flat(c.pages[i..]))) <= multiset(Flat(Follow(view, c, l, i)))
    decreases |c.pages| - i
  {
    if i < |c.pages| {
      var at := FollowUnfolds(view, c, l, i);
      var now, later := Flat(c.pages[i..at]), Flat(c.pages[at..]);
      CollectAppend(view, {}, now, later);
      CollectMonotone(view, {}, SeenAfter(view, {}, now), later);
      ScanWithinFollow(view, c, l, at);
    }
  }

  // ------------------------------------------------------- when no instance is hidden

  /** No row with an item repeats the dedup key of a row before it. */
  ghost predicate NothingHidden<T>(view: View<T>, seen: set<string>, keys: seq<string>) {
    forall j :: 0 <= j < |keys| && view(keys[j]).Row? && view(keys[j]).item.Some? ==> !Repeats(view, seen, keys, j)
  }

  ghost predicate Repeats<T>(view: View<T>, seen: set<string>, keys: seq<string>, j: nat)
    requires j < |keys| && view(keys[j]).Row?
  {
    view(keys[j]).dedup in seen
      || exists i :: 0 <= i < j && view(keys[i]).Row? && view(keys[i]).dedup == view(keys[j]).dedup
  }

  lemma RepeatsInTail<T>(view: View<T>, seen: set<string>, keys: seq<string>, j: nat)
    requires 0 < j < |keys| && view(keys[j]).Row?
    ensures Repeats(view, seen, keys, j) <==> Repeats(view, Note(view(keys[0]), seen), keys[1..], j - 1)
  {
    var tail, more := keys[1..], Note(view(keys[0]), seen);
    if i :| 0 <= i < j && view(keys[i]).Row? && view(keys[i]).dedup == view(keys[j]).dedup {
      assert i > 0 ==> tail[i - 1] == keys[i];
    }
    if i :| 0 <= i < j - 1 && view(tail[i]).Row? && view(tail[i]).dedup == view(tail[j - 1]).dedup {
      assert keys[i + 1] == tail[i];
    }
  }

  lemma HiddenInTail<T>(view: View<T>, seen: set<string>, keys: seq<string>)
    requires keys != []
    ensures NothingHidden(view, seen, keys)
            <==> !(view(keys[0]).Row? && view(keys[0]).item.Some? && view(keys[0]).dedup in seen)
                 && NothingHidden(view, Note(view(keys[0]), seen), keys[1..])
  {
    var tail := keys[1..];
    forall j: nat | j < |tail| && view(tail[j]).Row?
      ensures Repeats(view, seen, keys, j + 1) <==> Repeats(view, Note(view(keys[0]), seen), tail, j)
    {
      RepeatsInTail(view, seen, keys, j + 1);
    }
    assert view(keys[0]).Row? ==> (Repeats(view, seen, keys, 0) <==> view(keys[0]).dedup in seen);
    assert forall j :: 0 < j < |keys| ==> keys[j] == tail[j - 1];
    if NothingHidden(view, seen, keys) {
      forall j | 0 <= j < |tail| && view(tail[j]).Row? && view(tail[j]).item.Some?
        ensures !Repeats(view, Note(view(keys[0]), seen), tail, j)
      {
        assert keys[j + 1] == tail[j];
      }
    }
  }

  /** Deduplication loses nothing exactly when nothing is hidden; else it loses items outright. */
  lemma {:induction false} CollectLosesIff<T>(view: View<T>, seen: set<string>, keys: seq<string>)
    ensures |Collect(view, seen, keys)| <= |Select(view, keys)|
    ensures |Collect(view, seen, keys)| == |Select(view, keys)| <==> NothingHidden(view, seen, keys)
    ensures NothingHidden(view, seen, keys) ==> Collect(view, seen, keys) == Select(view, keys)
    decreases |keys|
  {
    if keys != [] {
      CollectLosesIff(view, Note(view(keys[0]), seen), keys[1..]);
      HiddenInTail(view, seen, keys);
    }
  }

  /** A scan finds what a plain filter finds if and only if no row with an item repeats an earlier dedup key. */
  lemma ScanIsSelectIff<T>(view: View<T>, keys: seq<string>)
    ensures multiset(Collect(view, {}, keys)) == multiset(Select(view, keys)) <==> NothingHidden(view, {}, keys)
  {
    CollectLosesIff(view, {}, keys);
    assert |multiset(Collect(view, {}, keys))| == |Collect(view, {}, keys)|;
    assert |multiset(Select(view, keys))| == |Select(view, keys)|;
  }

  /** Nothing is hidden within any one of the calls from page i on. */
  ghost predicate CallsHideNothing<T>(view: View<T>, c: Cursor, l: Limits, i: nat)
    requires i <= |c.pages| == |c.tokens|
    decreases |c.pages| - i
  {
    i == |c.pages|
    || match Fill(view, c, l, Start(i))
       case Err(_) => false
       case Ok(g) => NothingHidden(view, {}, Flat(c.pages[i..g.at])) && CallsHideNothing(view, c, l, g.at)
  }

  /** The keys of one call: what it yields, what it hides, and the calls after it. */
  lemma CallUnfolds<T>(view: View<T>, c: Cursor, l: Limits, i: nat) returns (at: nat)
    requires c.Valid() && c.broken == {} && i < |c.pages|
    ensures i < at <= |c.pages|
    ensures |Flat(Follow(view, c, l, i))| == |Collect(view, {}, Flat(c.pages[i..at]))| + |Flat(Follow(view, c, l, at))|
    ensures Flat(Follow(view, c, l, i)) == Collect(view, {}, Flat(c.pages[i..at])) + Flat(Follow(view, c, l, at))
    ensures Select(view, Flat(c.pages[i..])) == Select(view, Flat(c.pages[i..at])) + Select(view, Flat(c.pages[at..]))
    ensures CallsHideNothing(view, c, l, i)
            <==> NothingHidden(view, {}, Flat(c.pages[i..at])) && CallsHideNothing(view, c, l, at)
  {
    var g := OneFill(view, c, l, i);
    at := g.at;
    FlatSplit(c.pages, i, at);
    FlatCons(g.items, Follow(view, c, l, at));
    SelectAppend(view, Flat(c.pages[i..at]), Flat(c.pages[at..]));
  }

  lemma {:induction false} FollowLosesIff<T>(view: View<T>, c: Cursor, l: Limits, i: nat)
    requires c.Valid() && c.broken == {} && i <= |c.pages|
    ensures |Flat(Follow(view, c, l, i))| <= |Select(view, Flat(c.pages[i..]))|
    ensures |Flat(Follow(view, c, l, i))| == |Select(view, Flat(c.pages[i..]))| <==> CallsHideNothing(view, c, l, i)
    ensures CallsHideNothing(view, c, l, i) ==> Flat(Follow(view, c, l, i)) == Select(view, Flat(c.pages[i..]))
    decreases |c.pages| - i
  {
    if i < |c.pages| {
      var at := CallUnfolds(view, c, l, i);
      CollectLosesIff(view, {}, Flat(c.pages[i..at]));
      FollowLosesIff(view, c, l, at);
    } else {
      assert c.pages[i..] == [];
    }
  }

  // ------------------------------------------------------- a client of the tokens

  /** One call, as its client sees it: the items and the next token, None for an error. */
  type Client<!T> = string -> Option<(seq<T>, string)>

  /** What a client is shown that starts at page i and follows the tokens to the end. */
  ghost function PageThrough<T>(c: Cursor, client: Client<T>, i: nat): seq<seq<T>>
    requires i < |c.tokens|
    decreases |c.tokens| - i
  {
    match client(c.tokens[i])
    case None => []
    case Some((items, next)) =>
      var j := IndexOf(c.tokens, next);
      if next != "" && i < j < |c.tokens| then [items] + PageThrough(c, client, j) else [items]
  }

  /** The call for page i shows what one loop-fill gathers, in some order, and the token of the page after it. */
  ghost predicate ServesAt<T>(client: Client<T>, view: View<T>, c: Cursor, l: Limits, i: nat)
    requires i < |c.pages| == |c.tokens|
  {
    var (r, shown) := (Fill(view, c, l, Start(i)), client(c.tokens[i]));
    && r.Ok? && shown.Some?
    && multiset(shown.value.0) == multiset(r.value.items) && shown.value.1 == c.NextToken(r.value.at - 1)
  }

  ghost predicate Serves<T>(client: Client<T>, view: View<T>, c: Cursor, l: Limits)
    requires |c.pages| == |c.tokens|
  {
    forall i: nat :: i < |c.pages| ==> ServesAt(client, view, c, l, i)
  }

  lemma SameMultiset<T>(shown: seq<T>, items: seq<T>, later: seq<seq<T>>, follow: seq<seq<T>>)
    requires multiset(shown) == multiset(items) && multiset(Flat(later)) == multiset(Flat(follow))
    ensures multiset(Flat([shown] + later)) == multiset(Flat([items] + follow))
  {
    FlatCons(shown, later);
    FlatCons(items, follow);
  }

  /** Following the tokens of the calls is following the loop-fills. */
  lemma {:induction false} PageThroughFollows<T>(client: Client<T>, view: View<T>, c: Cursor, l: Limits, i: nat)
    requires c.Valid() && Serves(client, view, c, l) && i < |c.pages|
    ensures multiset(Flat(PageThrough(c, client, i))) == multiset(Flat(Follow(view, c, l, i)))
    decreases |c.pages| - i
  {
    assert ServesAt(client, view, c, l, i);
    var g, shown := Fill(view, c, l, Start<T>(i)).value, client(c.tokens[i]).value.0;
    if g.at < |c.pages| {
      FetchAt(c, g.at);
      assert c.tokens[0] != c.tokens[g.at];
      PageThroughFollows(client, view, c, l, g.at);
      SameMultiset(shown, g.items, PageThrough(c, client, g.at), Follow(view, c, l, g.at));
    } else {
      SameMultiset(shown, g.items, [], Follow(view, c, l, g.at));
      assert [shown] + [] == [shown];
    }
  }

  lemma RepeatedRowAcrossCalls<T>(view: View<T>, k1: string, k2: string, x: T, y: T, d: string)
    requires view(k1) == Row(d, Some(x)) && view(k2) == Row(d, Some(y))
    ensures Flat(Follow(view, Cursor([[k1], [k2]], ["", "t"], {}), Limits(true, 1, 10), 0)) == [x, y]
  {
    var c, l := Cursor([[k1], [k2]], ["", "t"], {}), Limits(true, 1, 10);
    assert Collect(view, {}, [k1]) == [x] && Collect(view, {}, [k2]) == [y];
    assert c.pages[0] == [k1] && c.pages[1] == [k2];
    assert AfterPage(view, c, Start<T>(0)).items == [x];
    assert AfterPage(view, c, Start<T>(1)).items == [y];
    assert Follow(view, c, l, 2) == [];
    assert Follow(view, c, l, 1) == [[y]];
    assert Follow(view, c, l, 0) == [[x]] + Follow(view, c, l, 1);
    FlatCons([x], [[y]]);
    FlatCons([y], []);
  }

  lemma RepeatedRowInOneCall<T>(view: View<T>, k1: string, k2: string, x: T, y: T, d: string)
    requires view(k1) == Row(d, Some(x)) && view(k2) == Row(d, Some(y))
    ensures Flat(Follow(view, Cursor([[k1, k2]], [""], {}), Limits(true, 2, 20), 0)) == [x]
  {
    var c, l := Cursor([[k1, k2]], [""], {}), Limits(true, 2, 20);
    assert [k1, k2][1..] == [k2];
    assert Note(view(k1), {}) == {d} && Collect(view, {d}, [k2]) == [];
    assert Collect(view, {}, [k1, k2]) == [x];
    assert AfterPage(view, c, Start<T>(0)).items == [x];
    assert Follow(view, c, l, 1) == [];
    assert Follow(view, c, l, 0) == [[x]];
    FlatCons([x], []);
  }

  /** A dedup key that recurs in a later call is shown twice, and twice in one call only once. */
  lemma RepeatedRowDependsOnPages<T>(view: View<T>, k1: string, k2: string, x: T, y: T, d: string)
    requires view(k1) == Row(d, Some(x)) && view(k2) == Row(d, Some(y))
    ensures Flat(Follow(view, Cursor([[k1], [k2]], ["", "t"], {}), Limits(true, 1, 10), 0)) == [x, y]
    ensures Flat(Follow(view, Cursor([[k1, k2]], [""], {}), Limits(true, 2, 20), 0)) == [x]
  {
    RepeatedRowAcrossCalls(view, k1, k2, x, y, d);
    RepeatedRowInOneCall(view, k1, k2, x, y, d);
  }
}
