/** Stopped instances: pkg/lifecycle/registry.go, overlay.go and manager.go. */
module Lifecycle {
  import opened Basics
  import opened Sorting

  datatype Target = TargetApp | TargetDaprd | TargetAll

  datatype Source = Standalone | Aspire | Compose | Testcontainers

  const STOPPED: string := "stopped"

  /** The fields the overlay decides on; it blanks the others of an instance it synthesizes. */
  datatype Instance = Instance(
    key: string,
    appID: string,
    source: Source,
    appStatus: string,
    daprdStatus: string,
    appPID: int,
    daprdPID: int,
    cliPID: int)

  /** procs holds the pid each target had when it was stopped. */
  datatype Entry = Entry(instance: Instance, procs: map<Target, int>)

  datatype Reg = Reg(entries: map<string, Entry>, suppressed: set<string>)

  predicate FullyStopped(i: Instance) {
    i.appStatus == STOPPED && i.daprdStatus == STOPPED
  }

  // ------------------------------------------------------- the registry's operations

  ghost function ToSeq(s: set<string>): seq<string> {
    if s == {} then []
    else
      var x :| x in s;
      [x] + ToSeq(s - {x})
  }

  lemma {:induction false} ToSeqHolds(s: set<string>)
    ensures multiset(ToSeq(s)) == multiset(s)
  {
    if s != {} {
      var all := ToSeq(s);
      ToSeqHolds(s - {all[0]});
      assert all == [all[0]] + ToSeq(s - {all[0]});
      assert multiset(s) == multiset{all[0]} + multiset(s - {all[0]});
    }
  }

  /** The entries' keys, sorted. */
  ghost function Keys(entries: map<string, Entry>): seq<string> {
    SortStrings(ToSeq(entries.Keys))
  }

  lemma KeysHold(entries: map<string, Entry>)
    ensures multiset(Keys(entries)) == multiset(entries.Keys)
    ensures forall k :: k in Keys(entries) <==> k in entries
  {
    ToSeqHolds(entries.Keys);
    SortPermutes(Less, ToSeq(entries.Keys));
    forall k ensures k in Keys(entries) <==> k in entries {
      assert k in Keys(entries) <==> k in multiset(Keys(entries));
    }
  }

  function FirstWithAppID(entries: map<string, Entry>, keys: seq<string>, appID: string): Option<Entry> {
    if keys == [] then None
    else if keys[0] in entries && entries[keys[0]].instance.appID == appID then Some(entries[keys[0]])
    else FirstWithAppID(entries, keys[1..], appID)
  }

  /** By key first, then by app id. */
  ghost function Lookup(r: Reg, key: string): Option<Entry> {
    if key in r.entries then Some(r.entries[key]) else FirstWithAppID(r.entries, Keys(r.entries), key)
  }

  function Recorded(r: Reg, i: Instance, snaps: map<Target, int>): Reg {
    var procs := if i.key in r.entries then r.entries[i.key].procs else map[];
    r.(entries := r.entries[i.key := Entry(i, procs + snaps)])
  }

  function TargetDropped(r: Reg, key: string, t: Target): Reg {
    if key !in r.entries then r
    else
      var procs := r.entries[key].procs - {t};
      if |procs| == 0 then r.(entries := r.entries - {key})
      else r.(entries := r.entries[key := r.entries[key].(procs := procs)])
  }

  function Dropped(r: Reg, key: string): Reg {
    r.(entries := r.entries - {key})
  }

  // ------------------------------------------------------- the overlay's List

  /** The target's process is alive under another pid than when it was stopped. */
  predicate Stale(e: Entry, t: Target, i: Instance) {
    t in e.procs && PidOf(i, t) != 0 && PidOf(i, t) != e.procs[t]
  }

  function PidOf(i: Instance, t: Target): int {
    match t
    case TargetApp => i.appPID
    case TargetDaprd => i.daprdPID
    case TargetAll => i.cliPID
  }

  predicate Native(i: Instance) {
    i.source == Compose || i.source == Testcontainers
  }

  /** What a live instance looks like, and which snapshots it makes stale. */
  function Drops(e: Entry, i: Instance): seq<Target> {
    (if Stale(e, TargetDaprd, i) then [TargetDaprd] else [])
    + (if Stale(e, TargetAll, i) then [TargetAll] else [])
    + (if Stale(e, TargetApp, i) then [TargetApp] else [])
  }

  function Corrected(e: Entry, i: Instance): Instance {
    if TargetApp in e.procs && !Stale(e, TargetApp, i) then i.(appStatus := STOPPED, appPID := 0) else i
  }

  function TargetsDropped(r: Reg, key: string, ts: seq<Target>): Reg
    decreases |ts|
  {
    if ts == [] then r else TargetsDropped(TargetDropped(r, key, ts[0]), key, ts[1..])
  }

  ghost function Applied(r: Reg, i: Instance): (Reg, Instance) {
    match Lookup(r, i.key)
    case None => (r, i)
    case Some(e) => if Native(i) then (r, i) else (TargetsDropped(r, i.key, Drops(e, i)), Corrected(e, i))
  }

  ghost function AllApplied(r: Reg, items: seq<Instance>): (Reg, seq<Instance>)
    decreases |items|
  {
    if items == [] then (r, [])
    else
      var (r1, i) := Applied(r, items[0]);
      var (r2, rest) := AllApplied(r1, items[1..]);
      (r2, [i] + rest)
  }

  function Synthesized(e: Entry, alive: int -> bool): Instance {
    var i := e.instance.(daprdStatus := STOPPED, daprdPID := 0, cliPID := 0);
    if TargetApp in e.procs || !(i.appPID != 0 && alive(i.appPID)) then i.(appStatus := STOPPED, appPID := 0) else i
  }

  function GhostsAmong(
    entries: map<string, Entry>, keys: seq<string>, live: set<string>, alive: int -> bool): seq<Instance>
  {
    if keys == [] then []
    else
      (if keys[0] in entries && entries[keys[0]].instance.key !in live
       then [Synthesized(entries[keys[0]], alive)] else [])
      + GhostsAmong(entries, keys[1..], live, alive)
  }

  /** The suppression loop: hide what is still stopped, forget the suppression of the rest. */
  function Sifted(suppressed: set<string>, items: seq<Instance>): (set<string>, seq<Instance>) {
    if items == [] then (suppressed, [])
    else if items[0].key in suppressed && FullyStopped(items[0]) then Sifted(suppressed, items[1..])
    else
      var (s, rest) := Sifted(suppressed - {items[0].key}, items[1..]);
      (s, [items[0]] + rest)
  }

  function LiveKeys(items: seq<Instance>): set<string> {
    set i | 0 <= i < |items| :: items[i].key
  }

  function ByAppID(): (Instance, Instance) -> bool {
    (a: Instance, b: Instance) => if a.appID != b.appID then Less(a.appID, b.appID) else Less(a.key, b.key)
  }

  ghost function Listed(r: Reg, items: seq<Instance>, alive: int -> bool): (Reg, seq<Instance>) {
    var (r1, applied) := AllApplied(r, items);
    var (s, shown) := Sifted(r1.suppressed,
      applied + GhostsAmong(r1.entries, Keys(r1.entries), LiveKeys(items), alive));
    (r1.(suppressed := s), SortBy(ByAppID(), shown))
  }

  // ------------------------------------------------------- one key at a time

  /**
   * Entries are filed under their instance's key, which is its app id: only instances that are
   * not compose containers are recorded, and their key is their app id.
   */
  ghost predicate Inv(r: Reg) {
    forall k :: k in r.entries ==> r.entries[k].instance.key == k && r.entries[k].instance.appID == k
  }

  function Peek(r: Reg, k: string): Option<Entry> {
    if k in r.entries then Some(r.entries[k]) else None
  }

  lemma {:induction false} NoOtherAppID(entries: map<string, Entry>, keys: seq<string>, k: string)
    requires forall x :: x in entries ==> entries[x].instance.appID == x
    requires k !in entries
    ensures FirstWithAppID(entries, keys, k) == None
  {
    if keys != [] {
      NoOtherAppID(entries, keys[1..], k);
    }
  }

  /** The keys come in strictly ascending order. */
  lemma KeysAscend(entries: map<string, Entry>)
    ensures var keys := Keys(entries); forall i, j :: 0 <= i < j < |keys| ==> Less(keys[i], keys[j])
  {
    var keys := Keys(entries);
    KeysHold(entries);
    LessIsStrictWeak();
    SortSorts(Less, ToSeq(entries.Keys));
    forall i, j | 0 <= i < j < |keys| ensures Less(keys[i], keys[j]) {
      LessOrdersTwo(keys[i], keys[j]);
      if keys[i] == keys[j] {
        TwiceIn(keys, i, j);
      }
    }
  }

  lemma TwiceIn(keys: seq<string>, i: nat, j: nat)
    requires i < j < |keys| && keys[i] == keys[j]
    ensures multiset(keys)[keys[i]] >= 2
  {
    var before, rest := keys[..j], keys[j + 1..];
    assert keys == before + [keys[j]] + rest;
    assert before[i] in multiset(before);
  }

  lemma {:induction false} FirstOfAppID(entries: map<string, Entry>, keys: seq<string>, appID: string)
    requires forall i :: 0 <= i < |keys| ==> keys[i] in entries
    ensures FirstWithAppID(entries, keys, appID).None? <==>
              forall i :: 0 <= i < |keys| ==> entries[keys[i]].instance.appID != appID
    ensures FirstWithAppID(entries, keys, appID).Some? ==> exists i ::
              && 0 <= i < |keys| && FirstWithAppID(entries, keys, appID) == Some(entries[keys[i]])
              && entries[keys[i]].instance.appID == appID
              && forall j :: 0 <= j < i ==> entries[keys[j]].instance.appID != appID
  {
    if keys != [] && entries[keys[0]].instance.appID != appID {
      var rest := keys[1..];
      FirstOfAppID(entries, rest, appID);
      assert forall i :: 0 < i < |keys| ==> keys[i] == rest[i - 1];
      if FirstWithAppID(entries, rest, appID).Some? {
        var i :| && 0 <= i < |rest| && FirstWithAppID(entries, rest, appID) == Some(entries[rest[i]])
                 && entries[rest[i]].instance.appID == appID
                 && forall j :: 0 <= j < i ==> entries[rest[j]].instance.appID != appID;
        assert keys[i + 1] == rest[i];
      }
    }
  }

  /** Of the entries with the app id, this one has the least key. */
  ghost predicate LeastWithAppID(entries: map<string, Entry>, appID: string, k: string) {
    && k in entries && entries[k].instance.appID == appID
    && forall x :: x in entries && x != k && entries[x].instance.appID == appID ==> Less(k, x)
  }

  /** What Get finds: the entry of the key; failing that, of those with the app id the one with the least key. */
  lemma LookupFinds(r: Reg, key: string)
    ensures key in r.entries ==> Lookup(r, key) == Some(r.entries[key])
    ensures key !in r.entries ==>
              && (Lookup(r, key).None? <==> forall k :: k in r.entries ==> r.entries[k].instance.appID != key)
              && (Lookup(r, key).Some? ==>
                   exists k :: LeastWithAppID(r.entries, key, k) && Lookup(r, key) == Some(r.entries[k]))
  {
    if key !in r.entries {
      var keys := Keys(r.entries);
      KeysHold(r.entries);
      KeysAscend(r.entries);
      LeastFound(r.entries, keys, key);
    }
  }

  lemma LeastFound(entries: map<string, Entry>, keys: seq<string>, appID: string)
    requires forall k :: k in keys <==> k in entries
    requires forall i, j :: 0 <= i < j < |keys| ==> Less(keys[i], keys[j])
    ensures var found := FirstWithAppID(entries, keys, appID);
            && (found.None? <==> forall k :: k in entries ==> entries[k].instance.appID != appID)
            && (found.Some? ==> exists k :: LeastWithAppID(entries, appID, k) && found == Some(entries[k]))
  {
    assert forall i :: 0 <= i < |keys| ==> keys[i] in keys;
    FirstOfAppID(entries, keys, appID);
    if FirstWithAppID(entries, keys, appID).Some? {
      var i :| && 0 <= i < |keys| && FirstWithAppID(entries, keys, appID) == Some(entries[keys[i]])
               && entries[keys[i]].instance.appID == appID
               && forall j :: 0 <= j < i ==> entries[keys[j]].instance.appID != appID;
      FirstIsLeast(entries, keys, appID, i);
    }
  }

  lemma FirstIsLeast(entries: map<string, Entry>, keys: seq<string>, appID: string, i: nat)
    requires i < |keys| && forall k :: k in keys <==> k in entries
    requires forall i, j :: 0 <= i < j < |keys| ==> Less(keys[i], keys[j])
    requires entries[keys[i]].instance.appID == appID
    requires forall j :: 0 <= j < i ==> entries[keys[j]].instance.appID != appID
    ensures LeastWithAppID(entries, appID, keys[i])
  {
    forall x | x in entries && x != keys[i] && entries[x].instance.appID == appID ensures Less(keys[i], x) {
      assert x in keys;
      var j :| 0 <= j < |keys| && keys[j] == x;
    }
  }

  lemma LookupIsPeek(r: Reg, k: string)
    requires Inv(r)
    ensures Lookup(r, k) == Peek(r, k)
  {
    if k !in r.entries {
      NoOtherAppID(r.entries, Keys(r.entries), k);
    }
  }

  function DropAll(e: Entry, ts: seq<Target>): Option<Entry>
    decreases |ts|
  {
    if ts == [] then Some(e)
    else
      var procs := e.procs - {ts[0]};
      if |procs| == 0 then None else DropAll(e.(procs := procs), ts[1..])
  }

  lemma {:induction false} TargetsDroppedAt(r: Reg, key: string, ts: seq<Target>)
    requires key in r.entries
    ensures Peek(TargetsDropped(r, key, ts), key) == DropAll(r.entries[key], ts)
    decreases |ts|
  {
    if ts != [] {
      var r1 := TargetDropped(r, key, ts[0]);
      if key in r1.entries {
        TargetsDroppedAt(r1, key, ts[1..]);
      } else {
        NothingToDrop(r1, key, ts[1..]);
      }
    }
  }

  lemma {:induction false} NothingToDrop(r: Reg, key: string, ts: seq<Target>)
    requires key !in r.entries
    ensures TargetsDropped(r, key, ts) == r
    decreases |ts|
  {
    if ts != [] {
      NothingToDrop(r, key, ts[1..]);
    }
  }

  lemma {:induction false} TargetsDroppedElsewhere(r: Reg, key: string, ts: seq<Target>)
    ensures var r' := TargetsDropped(r, key, ts);
            r'.suppressed == r.suppressed && (Inv(r) ==> Inv(r')) && forall k :: k != key ==> Peek(r', k) == Peek(r, k)
    decreases |ts|
  {
    if ts != [] {
      DroppedElsewhere(r, key, ts[0]);
      TargetsDroppedElsewhere(TargetDropped(r, key, ts[0]), key, ts[1..]);
    }
  }

  lemma DroppedElsewhere(r: Reg, key: string, t: Target)
    ensures var r' := TargetDropped(r, key, t);
            r'.suppressed == r.suppressed && (Inv(r) ==> Inv(r')) && forall k :: k != key ==> Peek(r', k) == Peek(r, k)
  {
  }

  /** The effect of applying one entry to its instance. */
  function EntryAfter(o: Option<Entry>, i: Instance): Option<Entry> {
    if o.None? || Native(i) then o else DropAll(o.value, Drops(o.value, i))
  }

  function InstanceAfter(o: Option<Entry>, i: Instance): Instance {
    if o.None? || Native(i) then i else Corrected(o.value, i)
  }

  lemma AppliedAt(r: Reg, i: Instance)
    requires Inv(r)
    ensures var (r', i') := Applied(r, i);
            && Inv(r') && r'.suppressed == r.suppressed
            && i' == InstanceAfter(Peek(r, i.key), i)
            && Peek(r', i.key) == EntryAfter(Peek(r, i.key), i)
            && forall k :: k != i.key ==> Peek(r', k) == Peek(r, k)
  {
    LookupIsPeek(r, i.key);
    if Peek(r, i.key).Some? && !Native(i) {
      var ts := Drops(r.entries[i.key], i);
      TargetsDroppedAt(r, i.key, ts);
      TargetsDroppedElsewhere(r, i.key, ts);
    }
  }

  function Without(e: Entry, ts: set<Target>): Option<Entry> {
    if e.procs - ts == map[] then None else Some(e.(procs := e.procs - ts))
  }

  function TargetSet(ts: seq<Target>): set<Target> {
    set t | t in ts
  }

  lemma MinusTwice(m: map<Target, int>, t: Target, ts: seq<Target>)
    requires ts != [] && ts[0] == t
    ensures m - {t} - TargetSet(ts[1..]) == m - TargetSet(ts)
  {
    assert TargetSet(ts) == {t} + TargetSet(ts[1..]);
  }

  lemma {:induction false} DropAllIs(e: Entry, ts: seq<Target>)
    requires ts != []
    ensures DropAll(e, ts) == Without(e, TargetSet(ts))
    decreases |ts|
  {
    MinusTwice(e.procs, ts[0], ts);
    var e1 := e.(procs := e.procs - {ts[0]});
    if |ts| == 1 {
      assert e1.procs - TargetSet(ts[1..]) == e1.procs;
    }
    if |e1.procs| > 0 && |ts| > 1 {
      DropAllIs(e1, ts[1..]);
    }
  }

  lemma DropsAre(e: Entry, i: Instance)
    ensures forall t :: t in Drops(e, i) <==> Stale(e, t, i)
  {
  }

  /** Stale snapshots go; the others stay. */
  lemma AfterDrops(e: Entry, i: Instance)
    ensures var o := DropAll(e, Drops(e, i));
            && (o.None? ==> forall t :: t in e.procs ==> Stale(e, t, i))
            && (o.Some? ==> o.value.instance == e.instance
                            && (forall t :: t in o.value.procs <==> t in e.procs && !Stale(e, t, i))
                            && forall t :: t in o.value.procs ==> o.value.procs[t] == e.procs[t])
  {
    DropsAre(e, i);
    if Drops(e, i) != [] {
      DropAllIs(e, Drops(e, i));
      var left := e.procs - TargetSet(Drops(e, i));
      assert forall t :: t in left <==> t in e.procs && !Stale(e, t, i);
    }
  }

  /** Seeing the same instance again changes nothing more. */
  lemma ApplyingTwice(o: Option<Entry>, i: Instance)
    ensures EntryAfter(EntryAfter(o, i), i) == EntryAfter(o, i)
    ensures InstanceAfter(EntryAfter(o, i), i) == InstanceAfter(o, i)
  {
    if o.Some? && !Native(i) {
      AfterDrops(o.value, i);
      if EntryAfter(o, i).Some? {
        var e' := EntryAfter(o, i).value;
        assert forall t :: !Stale(e', t, i);
        assert Drops(e', i) == [];
      }
    }
  }

  // ------------------------------------------------------- one List

  /** The scan reports each instance once. */
  predicate UniqueKeys(items: seq<Instance>) {
    forall i, j :: 0 <= i < j < |items| ==> items[i].key != items[j].key
  }

  /** What applying every entry does to each item, and to the entries. */
  ghost predicate AppliedTo(r: Reg, items: seq<Instance>, r': Reg, out: seq<Instance>) {
    && Inv(r') && r'.suppressed == r.suppressed && |out| == |items|
    && (forall n :: 0 <= n < |items| ==> out[n] == InstanceAfter(Peek(r, items[n].key), items[n]))
    && (forall n :: 0 <= n < |items| ==> Peek(r', items[n].key) == EntryAfter(Peek(r, items[n].key), items[n]))
    && (forall k :: k !in LiveKeys(items) ==> Peek(r', k) == Peek(r, k))
  }

  lemma AppliedCons(r: Reg, items: seq<Instance>, r1: Reg, r': Reg, rest: seq<Instance>)
    requires items != [] && UniqueKeys(items) && r1.suppressed == r.suppressed
    requires Peek(r1, items[0].key) == EntryAfter(Peek(r, items[0].key), items[0])
    requires forall k :: k != items[0].key ==> Peek(r1, k) == Peek(r, k)
    requires AppliedTo(r1, items[1..], r', rest)
    ensures AppliedTo(r, items, r', [InstanceAfter(Peek(r, items[0].key), items[0])] + rest)
  {
    assert forall n :: 0 < n < |items| ==> items[n] == items[1..][n - 1] && items[n].key != items[0].key;
    assert items[0].key !in LiveKeys(items[1..]);
    forall k | k !in LiveKeys(items) ensures k != items[0].key && k !in LiveKeys(items[1..]) {
    }
  }

  lemma {:induction false} AllAppliedTo(r: Reg, items: seq<Instance>)
    requires Inv(r) && UniqueKeys(items)
    ensures AppliedTo(r, items, AllApplied(r, items).0, AllApplied(r, items).1)
    decreases |items|
  {
    if items != [] {
      var (r1, i) := Applied(r, items[0]);
      AppliedAt(r, items[0]);
      AllAppliedTo(r1, items[1..]);
      AppliedCons(r, items, r1, AllApplied(r1, items[1..]).0, AllApplied(r1, items[1..]).1);
    }
  }

  lemma AllAppliedAt(r: Reg, items: seq<Instance>)
    requires Inv(r) && UniqueKeys(items)
    ensures var (r', out) := AllApplied(r, items);
            && Inv(r') && r'.suppressed == r.suppressed && |out| == |items|
            && (forall n :: 0 <= n < |items| ==> out[n] == InstanceAfter(Peek(r, items[n].key), items[n]))
            && (forall n :: 0 <= n < |items| ==> Peek(r', items[n].key) == EntryAfter(Peek(r, items[n].key), items[n]))
            && (forall k :: k !in LiveKeys(items) ==> Peek(r', k) == Peek(r, k))
  {
    AllAppliedTo(r, items);
  }

  lemma {:induction false} GhostsAre(
    entries: map<string, Entry>, keys: seq<string>, live: set<string>, alive: int -> bool, x: Instance)
    requires forall k :: k in entries ==> entries[k].instance.key == k
    ensures x in GhostsAmong(entries, keys, live, alive)
            <==> exists k :: k in keys && k in entries && k !in live && x == Synthesized(entries[k], alive)
  {
    if keys != [] {
      GhostsAre(entries, keys[1..], live, alive, x);
      assert keys == [keys[0]] + keys[1..];
    }
  }

  /** An instance the overlay has before suppression: a corrected live one, or a ghost. */
  ghost predicate Seen(r: Reg, items: seq<Instance>, alive: int -> bool, x: Instance) {
    if x.key in LiveKeys(items)
    then exists n :: 0 <= n < |items| && items[n].key == x.key && x == InstanceAfter(Peek(r, x.key), items[n])
    else x.key in r.entries && x == Synthesized(r.entries[x.key], alive)
  }

  ghost function BeforeSifting(r: Reg, items: seq<Instance>, alive: int -> bool): seq<Instance> {
    var (r1, applied) := AllApplied(r, items);
    applied + GhostsAmong(r1.entries, Keys(r1.entries), LiveKeys(items), alive)
  }

  lemma SeenIsSifted(r: Reg, items: seq<Instance>, alive: int -> bool, x: Instance)
    requires Inv(r) && UniqueKeys(items)
    ensures x in BeforeSifting(r, items, alive) <==> Seen(r, items, alive, x)
  {
    var (r1, applied) := AllApplied(r, items);
    var ghosts := GhostsAmong(r1.entries, Keys(r1.entries), LiveKeys(items), alive);
    AllAppliedAt(r, items);
    AppliedLive(r, items, applied, x);
    KeysHold(r1.entries);
    GhostsAre(r1.entries, Keys(r1.entries), LiveKeys(items), alive, x);
    assert x in applied + ghosts <==> x in applied || x in ghosts;
    if x.key !in LiveKeys(items) {
      assert Peek(r1, x.key) == Peek(r, x.key);
    }
  }

  lemma AppliedLive(r: Reg, items: seq<Instance>, applied: seq<Instance>, x: Instance)
    requires |applied| == |items|
    requires forall n :: 0 <= n < |items| ==> applied[n] == InstanceAfter(Peek(r, items[n].key), items[n])
    ensures x in applied
            <==> && x.key in LiveKeys(items)
                 && exists n ::
                   0 <= n < |items| && items[n].key == x.key && x == InstanceAfter(Peek(r, x.key), items[n])
  {
    if x in applied {
      var n :| 0 <= n < |applied| && applied[n] == x;
      assert items[n].key == x.key;
    }
    if n :| 0 <= n < |items| && items[n].key == x.key && x == InstanceAfter(Peek(r, x.key), items[n]) {
      assert applied[n] == x;
    }
  }

  lemma SeenOnce(r: Reg, items: seq<Instance>, alive: int -> bool, x: Instance, y: Instance)
    requires UniqueKeys(items) && Seen(r, items, alive, x) && Seen(r, items, alive, y) && x.key == y.key
    ensures x == y
  {
    if x.key in LiveKeys(items) {
      var n :| 0 <= n < |items| && items[n].key == x.key && x == InstanceAfter(Peek(r, x.key), items[n]);
      var m :| 0 <= m < |items| && items[m].key == y.key && y == InstanceAfter(Peek(r, y.key), items[m]);
      SameIndex(items, n, m);
    }
  }

  lemma SameIndex(items: seq<Instance>, n: nat, m: nat)
    requires UniqueKeys(items) && n < |items| && m < |items| && items[n].key == items[m].key
    ensures n == m
  {
  }

  /** Items with one key are equal. */
  ghost predicate OnePerKey(items: seq<Instance>) {
    forall x, y :: x in items && y in items && x.key == y.key ==> x == y
  }

  lemma {:induction false} SiftedShows(s: set<string>, items: seq<Instance>, x: Instance)
    requires OnePerKey(items)
    ensures x in Sifted(s, items).1 <==> x in items && !(x.key in s && FullyStopped(x))
    decreases |items|
  {
    if items != [] {
      var i, rest := items[0], items[1..];
      assert forall y :: y in items <==> y == i || y in rest;
      if i.key in s && FullyStopped(i) {
        SiftedShows(s, rest, x);
      } else {
        SiftedShows(s - {i.key}, rest, x);
        var out := Sifted(s, items).1;
        assert out == [i] + out[1..];
        assert x in rest && x.key == i.key ==> x == i;
      }
    }
  }

  lemma {:induction false} SiftedForgets(s: set<string>, items: seq<Instance>, k: string)
    requires OnePerKey(items)
    ensures k in Sifted(s, items).0 <==> k in s && forall x :: x in items && x.key == k ==> FullyStopped(x)
    decreases |items|
  {
    if items != [] {
      var i, rest := items[0], items[1..];
      assert forall y :: y in items <==> y == i || y in rest;
      SiftedForgets(if i.key in s && FullyStopped(i) then s else s - {i.key}, rest, k);
    }
  }

  /** What a List shows, what it leaves suppressed, and what it does to each entry. */
  lemma ListedShows(r: Reg, items: seq<Instance>, alive: int -> bool)
    requires Inv(r) && UniqueKeys(items)
    ensures var (r', shown) := Listed(r, items, alive);
            && Inv(r')
            && (forall x :: x in shown <==> Seen(r, items, alive, x) && !(x.key in r.suppressed && FullyStopped(x)))
            && (forall k :: k in r'.suppressed <==>
                 k in r.suppressed && forall x :: Seen(r, items, alive, x) && x.key == k ==> FullyStopped(x))
            && (forall n :: 0 <= n < |items| ==> Peek(r', items[n].key) == EntryAfter(Peek(r, items[n].key), items[n]))
            && (forall k :: k !in LiveKeys(items) ==> Peek(r', k) == Peek(r, k))
  {
    var all := BeforeSifting(r, items, alive);
    AllAppliedAt(r, items);
    forall x ensures x in all <==> Seen(r, items, alive, x) {
      SeenIsSifted(r, items, alive, x);
    }
    forall x, y | x in all && y in all && x.key == y.key ensures x == y {
      SeenOnce(r, items, alive, x, y);
    }
    SiftResult(r.suppressed, all);
  }

  lemma SiftResult(s: set<string>, items: seq<Instance>)
    requires OnePerKey(items)
    ensures forall x :: x in SortBy(ByAppID(), Sifted(s, items).1) <==> x in items && !(x.key in s && FullyStopped(x))
    ensures forall k :: k in Sifted(s, items).0 <==> k in s && forall x :: x in items && x.key == k ==> FullyStopped(x)
  {
    var out := Sifted(s, items).1;
    SortPermutes(ByAppID(), out);
    forall x ensures x in SortBy(ByAppID(), out) <==> x in items && !(x.key in s && FullyStopped(x)) {
      SiftedShows(s, items, x);
      assert x in SortBy(ByAppID(), out) <==> x in multiset(SortBy(ByAppID(), out));
    }
    forall k ensures k in Sifted(s, items).0 <==> k in s && forall x :: x in items && x.key == k ==> FullyStopped(x) {
      SiftedForgets(s, items, k);
    }
  }

  lemma AppIDOrderIsStrictWeak()
    ensures StrictWeak(ByAppID())
  {
    forall a: Instance, b: Instance | ByAppID()(a, b) ensures !ByAppID()(b, a) {
      LessOrdersTwo(a.appID, b.appID);
      LessOrdersTwo(a.key, b.key);
    }
    forall a: Instance, b: Instance, c: Instance | ByAppID()(a, c) ensures ByAppID()(a, b) || ByAppID()(b, c) {
      LessOrdersTwo(a.appID, b.appID);
      LessOrdersTwo(b.appID, c.appID);
      if a.appID != c.appID {
        LessSplits(a.appID, b.appID, c.appID);
      } else {
        LessSplits(a.key, b.key, c.key);
      }
    }
  }

  /** A List comes sorted by app id, then by key. */
  lemma ListedInOrder(r: Reg, items: seq<Instance>, alive: int -> bool)
    ensures var shown := Listed(r, items, alive).1;
            forall i, j :: 0 <= i < j < |shown| ==>
              || Less(shown[i].appID, shown[j].appID)
              || (shown[i].appID == shown[j].appID && !Less(shown[j].key, shown[i].key))
  {
    AppIDOrderIsStrictWeak();
    var (r1, applied) := AllApplied(r, items);
    var shown := Listed(r, items, alive).1;
    SortSorts(ByAppID(), Sifted(r1.suppressed, BeforeSifting(r, items, alive)).1);
    forall i, j | 0 <= i < j < |shown|
      ensures || Less(shown[i].appID, shown[j].appID)
              || (shown[i].appID == shown[j].appID && !Less(shown[j].key, shown[i].key))
    {
      LessOrdersTwo(shown[i].appID, shown[j].appID);
      assert !ByAppID()(shown[j], shown[i]);
    }
  }

  // ------------------------------------------------------- what is shown of an instance

  /**
   * A ghost: its sidecar is shown stopped, and its app too, unless only the sidecar was stopped and
   * the app's process lives on; all else is as it was at the stop.
   */
  lemma GhostShows(e: Entry, alive: int -> bool)
    ensures var x, was := Synthesized(e, alive), e.instance;
            var appLives := TargetApp !in e.procs && was.appPID != 0 && alive(was.appPID);
            && x.key == was.key && x.appID == was.appID && x.source == was.source
            && x.daprdStatus == "stopped" && x.daprdPID == 0 && x.cliPID == 0
            && x.appStatus == (if appLives then was.appStatus else "stopped")
            && x.appPID == (if appLives then was.appPID else 0)
            && (FullyStopped(x) <==> !appLives || was.appStatus == "stopped")
  {
  }

  /**
   * A live instance: its app is shown stopped exactly when it is no container, its app was stopped
   * here, and no app process runs under another pid; nothing else is changed.
   */
  lemma LiveShows(o: Option<Entry>, i: Instance)
    ensures var stopped :=
              && o.Some? && i.source != Compose && i.source != Testcontainers && TargetApp in o.value.procs
              && (i.appPID == 0 || i.appPID == o.value.procs[TargetApp]);
            InstanceAfter(o, i) == if stopped then i.(appStatus := "stopped", appPID := 0) else i
  {
  }

  /** A snapshot is kept exactly while its process does not run under another pid. */
  lemma SnapshotKeptIff(e: Entry, i: Instance, t: Target)
    requires t in e.procs && i.source != Compose && i.source != Testcontainers
    ensures var pid := if t == TargetApp then i.appPID else if t == TargetDaprd then i.daprdPID else i.cliPID;
            var left := EntryAfter(Some(e), i);
            left.Some? && t in left.value.procs && left.value.procs[t] == e.procs[t]
            <==> pid == 0 || pid == e.procs[t]
  {
    AfterDrops(e, i);
  }

  /** Recording a stop files the instance as it is and adds its snapshots to those it has. */
  lemma RecordedHas(r: Reg, i: Instance, snaps: map<Target, int>, k: string, t: Target)
    ensures var r' := Recorded(r, i, snaps);
            var was := if i.key in r.entries then r.entries[i.key].procs else map[];
            && r'.suppressed == r.suppressed && i.key in r'.entries && r'.entries[i.key].instance == i
            && (t in r'.entries[i.key].procs <==> t in snaps || t in was)
            && (t in r'.entries[i.key].procs ==>
                 r'.entries[i.key].procs[t] == if t in snaps then snaps[t] else was[t])
            && (k != i.key ==> Peek(r', k) == Peek(r, k))
  {
  }

  /** Dropping a target takes that snapshot alone, and the entry with its last one. */
  lemma TargetDroppedHas(r: Reg, key: string, t: Target, k: string)
    ensures var r' := TargetDropped(r, key, t);
            && r'.suppressed == r.suppressed
            && (k != key ==> Peek(r', k) == Peek(r, k))
            && (key in r'.entries <==> key in r.entries && exists u :: u != t && u in r.entries[key].procs)
            && (key in r'.entries ==>
                 && r'.entries[key].instance == r.entries[key].instance
                 && r'.entries[key].procs == r.entries[key].procs - {t})
  {
    if key in r.entries {
      var procs := r.entries[key].procs - {t};
      assert |procs| == 0 <==> procs == map[];
      if procs != map[] {
        var u :| u in procs;
      }
    }
  }

  // ------------------------------------------------------- dismissing

  /** The key Dismiss suppresses. */
  ghost function Canonical(r: Reg, key: string): string {
    match Lookup(r, key) case None => key case Some(e) => e.instance.key
  }

  function Hide(r: Reg, keys: set<string>): Reg {
    Reg(r.entries - keys, r.suppressed + keys)
  }

  function StoppedKeys(items: seq<Instance>): set<string> {
    set n | 0 <= n < |items| && FullyStopped(items[n]) :: items[n].key
  }

  ghost function Cleared(r: Reg, items: seq<Instance>, alive: int -> bool): Reg {
    var (r1, shown) := Listed(r, items, alive);
    Hide(r1, StoppedKeys(shown))
  }

  lemma ClearedKeeps(r: Reg, items: seq<Instance>, alive: int -> bool, x: Instance)
    requires Inv(r) && UniqueKeys(items)
    requires Seen(Cleared(r, items, alive), items, alive, x) && FullyStopped(x)
    ensures x.key in Cleared(r, items, alive).suppressed
  {
    var (r1, shown) := Listed(r, items, alive);
    var r2 := Cleared(r, items, alive);
    ListedShows(r, items, alive);
    var k := x.key;
    if k !in StoppedKeys(shown) {
      assert Peek(r2, k) == Peek(r1, k);
      if k in LiveKeys(items) {
        var n :| 0 <= n < |items| && items[n].key == k && x == InstanceAfter(Peek(r2, k), items[n]);
        ApplyingTwice(Peek(r, k), items[n]);
      }
      assert Seen(r, items, alive, x);
      assert x !in shown;
      forall y | Seen(r, items, alive, y) && y.key == k ensures FullyStopped(y) {
        SeenOnce(r, items, alive, x, y);
      }
    }
  }

  /** A List right after ClearInactive, on the same scan, shows nothing fully stopped. */
  lemma ClearedListIsRunning(r: Reg, items: seq<Instance>, alive: int -> bool)
    requires Inv(r) && UniqueKeys(items)
    ensures forall x :: x in Listed(Cleared(r, items, alive), items, alive).1 ==> !FullyStopped(x)
  {
    ListedShows(r, items, alive);
    var r2 := Cleared(r, items, alive);
    ListedShows(r2, items, alive);
    forall x | x in Listed(r2, items, alive).1 ensures !FullyStopped(x) {
      if FullyStopped(x) {
        ClearedKeeps(r, items, alive, x);
      }
    }
  }

  // ------------------------------------------------------- sequences of operations

  datatype Op =
    | List(items: seq<Instance>, alive: int -> bool)
    | ClearInactive(items: seq<Instance>, alive: int -> bool)
    | Dismiss(key: string)
    | RecordStop(i: Instance, snaps: map<Target, int>)
    | DropTarget(key: string, t: Target)
    | Drop(key: string)

  ghost function Step(r: Reg, op: Op): Reg {
    match op
    case List(items, alive) => Listed(r, items, alive).0
    case ClearInactive(items, alive) => Cleared(r, items, alive)
    case Dismiss(key) => Hide(r, {Canonical(r, key)})
    case RecordStop(i, snaps) => Recorded(r, i, snaps)
    case DropTarget(key, t) => TargetDropped(r, key, t)
    case Drop(key) => Dropped(r, key)
  }

  /** Scans report each key once, and recorded instances are keyed by their app id. */
  predicate OpOk(op: Op) {
    match op
    case List(items, _) => UniqueKeys(items)
    case ClearInactive(items, _) => UniqueKeys(items)
    case RecordStop(i, _) => i.key == i.appID
    case _ => true
  }

  ghost function Exec(r: Reg, ops: seq<Op>): Reg
    decreases |ops|
  {
    if ops == [] then r else Exec(Step(r, ops[0]), ops[1..])
  }

  lemma StepKeepsInv(r: Reg, op: Op)
    requires Inv(r) && OpOk(op)
    ensures Inv(Step(r, op))
  {
    match op
    case List(items, alive) => ListedShows(r, items, alive);
    case ClearInactive(items, alive) => ListedShows(r, items, alive);
    case _ =>
  }

  lemma {:induction false} ExecKeepsInv(r: Reg, ops: seq<Op>)
    requires Inv(r) && forall n :: 0 <= n < |ops| ==> OpOk(ops[n])
    ensures Inv(Exec(r, ops))
    decreases |ops|
  {
    if ops != [] {
      StepKeepsInv(r, ops[0]);
      ExecKeepsInv(Step(r, ops[0]), ops[1..]);
    }
  }

  /** The key was dismissed, and nothing has been recorded for it since. */
  predicate Hidden(r: Reg, k: string) {
    k in r.suppressed && k !in r.entries
  }

  /** The scan has the key, and not fully stopped. */
  predicate SeesAwake(items: seq<Instance>, k: string) {
    exists n :: 0 <= n < |items| && items[n].key == k && !FullyStopped(items[n])
  }

  /** Neither records a stop of k nor sees it awake. */
  predicate Quiet(op: Op, k: string) {
    match op
    case List(items, _) => !SeesAwake(items, k)
    case ClearInactive(items, _) => !SeesAwake(items, k)
    case RecordStop(i, _) => i.key != k
    case _ => true
  }

  predicate Shows(shown: seq<Instance>, k: string) {
    exists n :: 0 <= n < |shown| && shown[n].key == k
  }

  /** One List of a hidden key: it is shown, and its suppression cleared, exactly when the scan sees it awake. */
  lemma HiddenList(r: Reg, items: seq<Instance>, alive: int -> bool, k: string)
    requires Inv(r) && UniqueKeys(items) && Hidden(r, k)
    ensures var (r', shown) := Listed(r, items, alive);
            && (Shows(shown, k) <==> SeesAwake(items, k))
            && (k in r'.suppressed <==> !SeesAwake(items, k))
            && k !in r'.entries
            && (forall n :: 0 <= n < |items| && items[n].key == k && !FullyStopped(items[n]) ==> items[n] in shown)
  {
    var (r', shown) := Listed(r, items, alive);
    ListedShows(r, items, alive);
    assert Peek(r, k) == None && Peek(r', k) == None;
    forall n | 0 <= n < |items| && items[n].key == k ensures Seen(r, items, alive, items[n]) {
      assert items[n] == InstanceAfter(Peek(r, k), items[n]);
    }
    if Shows(shown, k) {
      var n :| 0 <= n < |shown| && shown[n].key == k;
      assert shown[n] in shown;
    }
    if SeesAwake(items, k) {
      var n :| 0 <= n < |items| && items[n].key == k && !FullyStopped(items[n]);
      assert items[n] in shown;
    }
    forall x | Seen(r, items, alive, x) && x.key == k ensures !SeesAwake(items, k) ==> FullyStopped(x) {
    }
  }

  lemma QuietKeepsHidden(r: Reg, op: Op, k: string)
    requires Inv(r) && OpOk(op) && Hidden(r, k) && Quiet(op, k)
    ensures Hidden(Step(r, op), k)
  {
    match op
    case List(items, alive) => HiddenList(r, items, alive, k);
    case ClearInactive(items, alive) => HiddenList(r, items, alive, k);
    case _ =>
  }

  lemma {:induction false} StaysHidden(r: Reg, ops: seq<Op>, k: string)
    requires Inv(r) && Hidden(r, k) && forall n :: 0 <= n < |ops| ==> OpOk(ops[n]) && Quiet(ops[n], k)
    ensures Inv(Exec(r, ops)) && Hidden(Exec(r, ops), k)
    decreases |ops|
  {
    if ops != [] {
      StepKeepsInv(r, ops[0]);
      QuietKeepsHidden(r, ops[0], k);
      StaysHidden(Step(r, ops[0]), ops[1..], k);
    }
  }

  /**
   * After Dismiss, through any operations that neither see the key awake nor record a stop
   * of it, the next List shows the key exactly when its scan sees it awake.
   */
  lemma DismissedUntilAwake(r: Reg, key: string, ops: seq<Op>, items: seq<Instance>, alive: int -> bool)
    requires Inv(r) && UniqueKeys(items)
    requires forall n :: 0 <= n < |ops| ==> OpOk(ops[n]) && Quiet(ops[n], Canonical(r, key))
    ensures var k := Canonical(r, key);
            var r1 := Exec(Step(r, Dismiss(key)), ops);
            var (r2, shown) := Listed(r1, items, alive);
            && (Shows(shown, k) <==> SeesAwake(items, k))
            && (k in r2.suppressed <==> !SeesAwake(items, k))
  {
    var k := Canonical(r, key);
    StepKeepsInv(r, Dismiss(key));
    StaysHidden(Step(r, Dismiss(key)), ops, k);
    HiddenList(Exec(Step(r, Dismiss(key)), ops), items, alive, k);
  }

  /** The same for every key ClearInactive clears. */
  lemma ClearedUntilAwake(
    r: Reg, scan: seq<Instance>, was: int -> bool, k: string, ops: seq<Op>, items: seq<Instance>, alive: int -> bool)
    requires Inv(r) && UniqueKeys(scan) && UniqueKeys(items)
    requires k in StoppedKeys(Listed(r, scan, was).1)
    requires forall n :: 0 <= n < |ops| ==> OpOk(ops[n]) && Quiet(ops[n], k)
    ensures var r1 := Exec(Cleared(r, scan, was), ops);
            var (r2, shown) := Listed(r1, items, alive);
            && (Shows(shown, k) <==> SeesAwake(items, k))
            && (k in r2.suppressed <==> !SeesAwake(items, k))
  {
    StepKeepsInv(r, ClearInactive(scan, was));
    StaysHidden(Cleared(r, scan, was), ops, k);
    HiddenList(Exec(Cleared(r, scan, was), ops), items, alive, k);
  }

  // ------------------------------------------------------- the objects

  class Registry {
    var entries: map<string, Entry>
    var suppressed: set<string>

    function View(): Reg
      reads this
    {
      Reg(entries, suppressed)
    }

    constructor ()
      ensures View() == Reg(map[], {}) && Inv(View())
    {
      entries, suppressed := map[], {};
    }

    method RecordStop(i: Instance, snaps: map<Target, int>)
      modifies this
      ensures View() == Recorded(old(View()), i, snaps)
    {
      var procs := map[];
      if i.key in entries {
        procs := entries[i.key].procs;
      }
      entries := entries[i.key := Entry(i, procs + snaps)];
    }

    /** sortedKeys: the map is walked in any order, then the keys are sorted. */
    method SortedKeys() returns (keys: seq<string>)
      ensures keys == Keys(entries)
    {
      var rest, found := entries.Keys, [];
      while rest != {}
        invariant rest <= entries.Keys
        invariant multiset(found) + multiset(rest) == multiset(entries.Keys)
        decreases rest
      {
        var k :| k in rest;
        ghost var before := rest;
        rest := rest - {k};
        found := found + [k];
        assert multiset(before) == multiset(rest) + multiset{k};
      }
      ToSeqHolds(entries.Keys);
      SameSortIffSameMultiset(found, ToSeq(entries.Keys));
      keys := SortStrings(found);
    }

    method Get(key: string) returns (e: Option<Entry>)
      ensures e == Lookup(View(), key)
    {
      if key in entries {
        return Some(entries[key]);
      }
      var keys := SortedKeys();
      var n := 0;
      while n < |keys|
        invariant 0 <= n <= |keys|
        invariant FirstWithAppID(entries, keys[n..], key) == FirstWithAppID(entries, keys, key)
      {
        if keys[n] in entries && entries[keys[n]].instance.appID == key {
          return Some(entries[keys[n]]);
        }
        assert keys[n..][1..] == keys[n + 1..];
        n := n + 1;
      }
      e := None;
    }

    method DropTarget(key: string, t: Target)
      modifies this
      ensures View() == TargetDropped(old(View()), key, t)
    {
      if key !in entries {
        return;
      }
      var e := entries[key];
      e := e.(procs := e.procs - {t});
      if |e.procs| == 0 {
        entries := entries - {key};
      } else {
        entries := entries[key := e];
      }
    }

    method Drop(key: string)
      modifies this
      ensures View() == Dropped(old(View()), key)
    {
      entries := entries - {key};
    }

    method Suppress(key: string)
      modifies this
      ensures View() == old(View()).(suppressed := old(suppressed) + {key})
    {
      suppressed := suppressed + {key};
    }

    method Unsuppress(key: string)
      modifies this
      ensures View() == old(View()).(suppressed := old(suppressed) - {key})
    {
      suppressed := suppressed - {key};
    }

    method List() returns (out: seq<Entry>)
      ensures |out| == |Keys(entries)|
      ensures forall n :: 0 <= n < |out| ==> Keys(entries)[n] in entries && out[n] == entries[Keys(entries)[n]]
    {
      var keys := SortedKeys();
      KeysHold(entries);
      out := [];
      for n := 0 to |keys|
        invariant |out| == n
        invariant forall m :: 0 <= m < n ==> keys[m] in entries && out[m] == entries[keys[m]]
      {
        assert keys[n] in Keys(entries);
        out := out + [entries[keys[n]]];
      }
    }
  }

  lemma DropFirst(r: Reg, key: string, t: Target, rest: seq<Target>)
    ensures TargetsDropped(r, key, [t] + rest) == TargetsDropped(TargetDropped(r, key, t), key, rest)
    ensures [] + rest == rest
  {
    assert ([t] + rest)[1..] == rest;
  }

  lemma DropsRegroup(e: Entry, i: Instance)
    ensures Drops(e, i)
            == (if Stale(e, TargetDaprd, i) then [TargetDaprd] else [])
               + ((if Stale(e, TargetAll, i) then [TargetAll] else [])
                 + ((if Stale(e, TargetApp, i) then [TargetApp] else []) + []))
  {
  }

  class Overlay {
    const reg: Registry

    constructor (reg: Registry)
      ensures this.reg == reg
    {
      this.reg := reg;
    }

    method ApplyEntry(i: Instance) returns (out: Instance)
      modifies reg
      ensures (reg.View(), out) == Applied(old(reg.View()), i)
    {
      var found := reg.Get(i.key);
      if found.None? || i.source == Compose || i.source == Testcontainers {
        return i;
      }
      var e := found.value;
      ghost var r := reg.View();
      ghost var app := (if Stale(e, TargetApp, i) then [TargetApp] else []) + [];
      ghost var others := (if Stale(e, TargetAll, i) then [TargetAll] else []) + app;
      DropsRegroup(e, i);
      DropFirst(r, i.key, TargetDaprd, others);
      if Stale(e, TargetDaprd, i) {
        reg.DropTarget(i.key, TargetDaprd);
      }
      DropFirst(reg.View(), i.key, TargetAll, app);
      if Stale(e, TargetAll, i) {
        reg.DropTarget(i.key, TargetAll);
      }
      DropFirst(reg.View(), i.key, TargetApp, []);
      if TargetApp !in e.procs {
        return i;
      }
      if Stale(e, TargetApp, i) {
        reg.DropTarget(i.key, TargetApp);
        return i;
      }
      out := i.(appStatus := STOPPED, appPID := 0);
    }

    method ApplyAll(items: seq<Instance>) returns (out: seq<Instance>)
      modifies reg
      ensures (reg.View(), out) == AllApplied(old(reg.View()), items)
    {
      out := [];
      var n := 0;
      assert items[0..] == items && [] + AllApplied(reg.View(), items).1 == AllApplied(reg.View(), items).1;
      while n < |items|
        invariant 0 <= n <= |items|
        invariant var (r, rest) := AllApplied(reg.View(), items[n..]);
          (r, out + rest) == AllApplied(old(reg.View()), items)
      {
        ghost var r0, before := reg.View(), out;
        var i := ApplyEntry(items[n]);
        assert items[n..][1..] == items[n + 1..];
        AppliedNext(r0, items[n..], before);
        out := out + [i];
        n := n + 1;
      }
      assert items[n..] == [] && out + [] == out;
    }

    method Ghosts(live: set<string>, alive: int -> bool) returns (out: seq<Instance>)
      ensures out == GhostsAmong(reg.entries, Keys(reg.entries), live, alive)
    {
      var entries := reg.List();
      ghost var keys := Keys(reg.entries);
      out := [];
      var n := 0;
      while n < |entries|
        invariant 0 <= n <= |entries|
        invariant out + GhostsAmong(reg.entries, keys[n..], live, alive) == GhostsAmong(reg.entries, keys, live, alive)
      {
        assert keys[n..][1..] == keys[n + 1..];
        GhostsNext(reg.entries, keys[n..], live, alive, out);
        if entries[n].instance.key !in live {
          out := out + [Synthesized(entries[n], alive)];
        }
        n := n + 1;
      }
    }

    method Sift(items: seq<Instance>) returns (out: seq<Instance>)
      modifies reg
      ensures reg.View() == old(reg.View()).(suppressed := Sifted(old(reg.suppressed), items).0)
      ensures out == Sifted(old(reg.suppressed), items).1
    {
      out := [];
      var n := 0;
      assert items[0..] == items && [] + Sifted(reg.suppressed, items).1 == Sifted(reg.suppressed, items).1;
      while n < |items|
        invariant 0 <= n <= |items| && reg.entries == old(reg.entries)
        invariant var (s, rest) := Sifted(reg.suppressed, items[n..]);
          (s, out + rest) == Sifted(old(reg.suppressed), items)
      {
        var i := items[n];
        assert items[n..][1..] == items[n + 1..];
        SiftedNext(reg.suppressed, items[n..], out);
        n := n + 1;
        if i.key in reg.suppressed {
          if FullyStopped(i) {
            continue;
          }
          reg.Unsuppress(i.key);
        }
        out := out + [i];
      }
    }

    method List(scan: seq<Instance>, alive: int -> bool) returns (out: seq<Instance>)
      modifies reg
      ensures (reg.View(), out) == Listed(old(reg.View()), scan, alive)
    {
      var items := ApplyAll(scan);
      var ghosts := Ghosts(LiveKeys(scan), alive);
      items := Sift(items + ghosts);
      out := SortBy(ByAppID(), items);
    }
  }

  lemma AppliedNext(r: Reg, items: seq<Instance>, out: seq<Instance>)
    requires items != []
    ensures var (r1, i) := Applied(r, items[0]);
            var (r2, rest) := AllApplied(r1, items[1..]);
            AllApplied(r, items).0 == r2 && out + AllApplied(r, items).1 == out + [i] + rest
  {
    var (r1, i) := Applied(r, items[0]);
    Assoc(out, [i], AllApplied(r1, items[1..]).1);
  }

  lemma GhostsNext(
    entries: map<string, Entry>, keys: seq<string>, live: set<string>, alive: int -> bool, out: seq<Instance>)
    requires keys != [] && keys[0] in entries
    ensures out + GhostsAmong(entries, keys, live, alive)
            == (if entries[keys[0]].instance.key !in live then out + [Synthesized(entries[keys[0]], alive)] else out)
               + GhostsAmong(entries, keys[1..], live, alive)
  {
    var rest := GhostsAmong(entries, keys[1..], live, alive);
    assert [] + rest == rest;
    if entries[keys[0]].instance.key !in live {
      Assoc(out, [Synthesized(entries[keys[0]], alive)], rest);
    }
  }

  lemma SiftedNext(s: set<string>, items: seq<Instance>, out: seq<Instance>)
    requires items != []
    ensures var i := items[0];
            if i.key in s && FullyStopped(i) then Sifted(s, items) == Sifted(s, items[1..])
            else
              && Sifted(s, items).0 == Sifted(s - {i.key}, items[1..]).0
              && out + Sifted(s, items).1 == out + [i] + Sifted(s - {i.key}, items[1..]).1
    ensures items[0].key !in s ==> s - {items[0].key} == s
  {
    Assoc(out, [items[0]], Sifted(s - {items[0].key}, items[1..]).1);
  }

  class Manager {
    const apps: Overlay

    constructor (apps: Overlay)
      ensures this.apps == apps
    {
      this.apps := apps;
    }

    method Dismiss(key: string)
      modifies apps.reg
      ensures apps.reg.View() == Step(old(apps.reg.View()), Op.Dismiss(key))
    {
      var k := key;
      var e := apps.reg.Get(key);
      if e.Some? {
        k := e.value.instance.key;
      }
      DropAndSuppress(k);
    }

    method DropAndSuppress(key: string)
      modifies apps.reg
      ensures apps.reg.View() == Reg(old(apps.reg.entries) - {key}, old(apps.reg.suppressed) + {key})
    {
      apps.reg.Drop(key);
      apps.reg.Suppress(key);
    }

    /** Dismisses each fully stopped instance the overlay lists, and counts them. */
    method ClearInactive(scan: seq<Instance>, alive: int -> bool) returns (count: nat)
      modifies apps.reg
      ensures apps.reg.View() == Step(old(apps.reg.View()), Op.ClearInactive(scan, alive))
      ensures count == |StoppedKeys(Listed(old(apps.reg.View()), scan, alive).1)|
    {
      var items := apps.List(scan, alive);
      ghost var r := apps.reg.View();
      var seen: set<string> := {};
      for n := 0 to |items|
        invariant seen == StoppedKeys(items[..n])
        invariant apps.reg.View() == Hide(r, seen)
      {
        StoppedNext(items, n);
        var i := items[n];
        if !FullyStopped(i) || i.key in seen {
          continue;
        }
        HideOneMore(r, seen, i.key);
        seen := seen + {i.key};
        DropAndSuppress(i.key);
      }
      assert items[..|items|] == items;
      count := |seen|;
    }
  }

  lemma HideOneMore(r: Reg, keys: set<string>, k: string)
    ensures Hide(r, keys + {k}) == Reg(Hide(r, keys).entries - {k}, Hide(r, keys).suppressed + {k})
  {
    assert r.entries - (keys + {k}) == r.entries - keys - {k};
    assert r.suppressed + (keys + {k}) == r.suppressed + keys + {k};
  }

  lemma StoppedNext(items: seq<Instance>, n: nat)
    requires n < |items|
    ensures StoppedKeys(items[..n + 1])
            == StoppedKeys(items[..n]) + if FullyStopped(items[n]) then {items[n].key} else {}
  {
    var a, b := items[..n], items[..n + 1];
    assert forall m :: 0 <= m < n ==> a[m] == b[m];
    assert b[n] == items[n];
  }
}
