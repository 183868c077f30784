/** The registry of state-store connections: cmd/registry.go. */
module Registry {
  import opened Basics
  import opened Like

  datatype Source = Auto | Manual

  datatype Entry = Entry(
    id: string,
    name: string,
    kind: string,
    source: Source,
    path: string,
    metadata: map<string, string>,
    updatedAt: int,
    dismissed: bool)

  /** What the platform supplies: path normalization and the truncated hash. */
  datatype Env = Env(norm: string -> string, hash: string -> string)

  /** SHA-256 cut to twelve characters, taken to be free of collisions. */
  ghost predicate Injective(env: Env) {
    forall a, b :: env.hash(a) == env.hash(b) ==> a == b
  }

  function EntryID(env: Env, source: Source, key: string): string {
    env.hash(if source == Manual then "manual:" + key else key)
  }

  /** An auto entry is keyed by its path, a manual one by its name. */
  function Key(env: Env, e: Entry): string {
    if e.source == Manual then e.name else env.norm(e.path)
  }

  /** A path whose normal form cannot be mistaken for a manual key, as no absolute path can. */
  predicate ProperPath(env: Env, path: string) {
    !StartsWith(env.norm(path), "manual:")
  }

  /** Ids never collide, except that of a manual name with that of a path spelled like its key. */
  lemma IdsSeparate(env: Env, s: Source, k: string, s': Source, k': string)
    requires Injective(env)
    ensures EntryID(env, s, k) == EntryID(env, s', k')
            <==> || (s == s' && k == k')
                 || (s == Manual && s' == Auto && k' == "manual:" + k)
                 || (s == Auto && s' == Manual && k == "manual:" + k')
  {
    if s == Manual && s' == Manual {
      assert ("manual:" + k)[7..] == k && ("manual:" + k')[7..] == k';
    }
  }

  // ------------------------------------------------------- the operations

  /** Every mutator, with the time it reads off the clock. */
  datatype Op =
    | UpsertAuto(e: Entry, now: int)
    | Add(e: Entry, now: int)
    | Update(e: Entry, now: int)
    | Delete(id: string)
    | Undismiss(path: string, now: int)

  /** The first entry that fits. */
  function First(p: Entry -> bool, es: seq<Entry>): (r: Option<nat>)
    ensures r.Some? ==> r.value < |es| && p(es[r.value]) && forall i :: 0 <= i < r.value ==> !p(es[i])
    ensures r.None? ==> forall i :: 0 <= i < |es| ==> !p(es[i])
  {
    if es == [] then None
    else if p(es[0]) then Some(0)
    else
      match First(p, es[1..])
      case None =>
        assert forall i :: 0 < i < |es| ==> es[i] == es[1..][i - 1];
        None
      case Some(i) =>
        assert forall j :: 0 < j < |es| ==> es[j] == es[1..][j - 1];
        Some(i + 1)
  }

  function At(env: Env, source: Source, key: string): Entry -> bool {
    (e: Entry) => e.source == source && env.norm(e.path) == key
  }

  function Named(name: string): Entry -> bool {
    (e: Entry) => e.source == Manual && e.name == name
  }

  function ManualId(id: string): Entry -> bool {
    (e: Entry) => e.source == Manual && e.id == id
  }

  predicate NamedElse(es: seq<Entry>, i: nat, name: string) {
    exists j :: 0 <= j < |es| && j != i && es[j].source == Manual && es[j].name == name
  }

  function TombstoneAt(env: Env, key: string): Entry -> bool {
    (e: Entry) => e.source != Manual && e.dismissed && env.norm(e.path) == key
  }

  predicate SameDetails(cur: Entry, id: string, e: Entry) {
    cur.id == id && cur.name == e.name && cur.kind == e.kind && cur.path == e.path && cur.metadata == e.metadata
  }

  /** The stored entry with the detected one's details; its tombstone stays. */
  function Refreshed(cur: Entry, id: string, e: Entry, now: int): Entry {
    if SameDetails(cur, id, e) then cur
    else cur.(id := id, name := e.name, kind := e.kind, path := e.path, metadata := e.metadata, updatedAt := now)
  }

  function Marked(id: string, es: seq<Entry>): seq<Entry> {
    if es == [] then []
    else MarkedEntry(id, es[0]) + Marked(id, es[1..])
  }

  /** One entry, gone if it is the manual entry of the id, marked if it is the auto entry. */
  function MarkedEntry(id: string, e: Entry): seq<Entry> {
    if e.id != id then [e] else if e.source == Manual then [] else [e.(dismissed := true)]
  }

  function Apply(env: Env, es: seq<Entry>, op: Op): seq<Entry> {
    match op
    case UpsertAuto(e, now) => (
      var key := env.norm(e.path);
      var id := EntryID(env, Auto, key);
      if First(At(env, Manual, key), es).Some? then es
      else
        match First(At(env, Auto, key), es)
        case Some(i) => es[i := Refreshed(es[i], id, e, now)]
        case None => es + [e.(source := Auto, id := id, updatedAt := now)])
    case Add(e, now) =>
      if First(Named(e.name), es).Some? then es
      else es + [e.(source := Manual, id := EntryID(env, Manual, e.name), updatedAt := now)]
    case Update(e, now) => (
      match First(ManualId(e.id), es)
      case None => es
      case Some(i) =>
        if NamedElse(es, i, e.name) then es
        else es[i := e.(source := Manual, id := EntryID(env, Manual, e.name), updatedAt := now)])
    case Delete(id) => Marked(id, es)
    case Undismiss(path, now) =>
      match First(TombstoneAt(env, env.norm(path)), es)
      case None => es
      case Some(i) => es[i := es[i].(dismissed := false, updatedAt := now)]
  }

  // ------------------------------------------------------- ids

  predicate EntryOk(env: Env, e: Entry) {
    && e.id == EntryID(env, e.source, Key(env, e))
    && (e.source == Auto ==> ProperPath(env, e.path))
  }

  /** Every id is the one the entry's key gives, and no two entries share source and key. */
  ghost predicate Keyed(env: Env, es: seq<Entry>) {
    && (forall i :: 0 <= i < |es| ==> EntryOk(env, es[i]))
    && (forall i, j :: 0 <= i < j < |es| ==> !SameKey(env, es[i], es[j]))
  }

  predicate SameKey(env: Env, a: Entry, b: Entry) {
    a.source == b.source && Key(env, a) == Key(env, b)
  }

  /** Only detected files are upserted. */
  predicate OpOk(env: Env, op: Op) {
    op.UpsertAuto? ==> ProperPath(env, op.e.path)
  }

  lemma KeyedAppend(env: Env, es: seq<Entry>, e: Entry)
    requires Keyed(env, es) && EntryOk(env, e) && forall i :: 0 <= i < |es| ==> !SameKey(env, es[i], e)
    ensures Keyed(env, es + [e])
  {
  }

  lemma KeyedUpdate(env: Env, es: seq<Entry>, i: nat, e: Entry)
    requires Keyed(env, es) && i < |es| && EntryOk(env, e)
    requires forall j :: 0 <= j < |es| && j != i ==> !SameKey(env, es[j], e)
    ensures Keyed(env, es[i := e])
  {
    var es' := es[i := e];
    forall j, k | 0 <= j < k < |es'| ensures !SameKey(env, es'[j], es'[k]) {
      assert j != i && k != i ==> !SameKey(env, es[j], es[k]);
      assert j == i ==> !SameKey(env, es[k], e);
    }
  }

  /** An entry that keeps its source and key can stand where it stood. */
  lemma KeyedReplace(env: Env, es: seq<Entry>, i: nat, e: Entry)
    requires Keyed(env, es) && i < |es| && EntryOk(env, e) && SameKey(env, es[i], e)
    ensures Keyed(env, es[i := e])
  {
    forall j | 0 <= j < |es| && j != i ensures !SameKey(env, es[j], e) {
      assert j < i ==> !SameKey(env, es[j], es[i]);
      assert j > i ==> !SameKey(env, es[i], es[j]);
    }
    KeyedUpdate(env, es, i, e);
  }

  /** What Marked leaves comes from an entry with the same key. */
  lemma {:induction false} MarkedFrom(id: string, es: seq<Entry>, j: nat) returns (i: nat)
    requires j < |Marked(id, es)|
    ensures j <= i < |es| && Marked(id, es)[j] == es[i].(dismissed := es[i].dismissed || es[i].id == id)
  {
    var rest := Marked(id, es[1..]);
    var head := MarkedEntry(id, es[0]);
    assert Marked(id, es) == head + rest;
    if j < |head| {
      i := 0;
    } else {
      i := MarkedFrom(id, es[1..], j - |head|);
      i := i + 1;
    }
  }

  lemma {:induction false} KeyedMarked(env: Env, id: string, es: seq<Entry>)
    requires Keyed(env, es)
    ensures Keyed(env, Marked(id, es))
  {
    if es != [] {
      var rest := Marked(id, es[1..]);
      KeyedMarked(env, id, es[1..]);
      forall j | 0 <= j < |rest| ensures !SameKey(env, es[0], rest[j]) {
        var i := MarkedFrom(id, es[1..], j);
        assert !SameKey(env, es[0], es[i + 1]);
      }
      assert EntryOk(env, es[0]);
    }
  }

  lemma KeyedUpsert(env: Env, es: seq<Entry>, e: Entry, now: int)
    requires Keyed(env, es) && ProperPath(env, e.path)
    ensures Keyed(env, Apply(env, es, UpsertAuto(e, now)))
  {
    var key := env.norm(e.path);
    var id := EntryID(env, Auto, key);
    if First(At(env, Manual, key), es).None? {
      match First(At(env, Auto, key), es)
      case Some(i) =>
        KeyedReplace(env, es, i, Refreshed(es[i], id, e, now));
      case None =>
        var e' := e.(source := Auto, id := id, updatedAt := now);
        forall i | 0 <= i < |es| ensures !SameKey(env, es[i], e') {
          assert !At(env, Auto, key)(es[i]);
        }
        KeyedAppend(env, es, e');
    }
  }

  lemma KeyedAdd(env: Env, es: seq<Entry>, e: Entry, now: int)
    requires Keyed(env, es)
    ensures Keyed(env, Apply(env, es, Add(e, now)))
  {
    if First(Named(e.name), es).None? {
      var e' := e.(source := Manual, id := EntryID(env, Manual, e.name), updatedAt := now);
      forall i | 0 <= i < |es| ensures !SameKey(env, es[i], e') {
        assert !Named(e.name)(es[i]);
      }
      KeyedAppend(env, es, e');
    }
  }

  lemma KeyedRename(env: Env, es: seq<Entry>, e: Entry, now: int)
    requires Keyed(env, es)
    ensures Keyed(env, Apply(env, es, Update(e, now)))
  {
    match First(ManualId(e.id), es)
    case None =>
    case Some(i) =>
      if !NamedElse(es, i, e.name) {
        KeyedUpdate(env, es, i, e.(source := Manual, id := EntryID(env, Manual, e.name), updatedAt := now));
      }
  }

  lemma KeyedStep(env: Env, es: seq<Entry>, op: Op)
    requires Keyed(env, es) && OpOk(env, op)
    ensures Keyed(env, Apply(env, es, op))
  {
    match op
    case UpsertAuto(e, now) => KeyedUpsert(env, es, e, now);
    case Add(e, now) => KeyedAdd(env, es, e, now);
    case Update(e, now) => KeyedRename(env, es, e, now);
    case Delete(id) => KeyedMarked(env, id, es);
    case Undismiss(path, now) =>
      match First(TombstoneAt(env, env.norm(path)), es)
      case None =>
      case Some(i) => KeyedReplace(env, es, i, es[i].(dismissed := false, updatedAt := now));
  }

  function Run(env: Env, es: seq<Entry>, ops: seq<Op>): seq<Entry>
    decreases |ops|
  {
    if ops == [] then es else Run(env, Apply(env, es, ops[0]), ops[1..])
  }

  lemma {:induction false} KeyedRun(env: Env, es: seq<Entry>, ops: seq<Op>)
    requires Keyed(env, es) && forall i :: 0 <= i < |ops| ==> OpOk(env, ops[i])
    ensures Keyed(env, Run(env, es, ops))
    decreases |ops|
  {
    if ops != [] {
      KeyedStep(env, es, ops[0]);
      KeyedRun(env, Apply(env, es, ops[0]), ops[1..]);
    }
  }

  lemma KeyedIdsDiffer(env: Env, es: seq<Entry>, i: nat, j: nat)
    requires Injective(env) && Keyed(env, es) && i < |es| && j < |es|
    ensures es[i].id == es[j].id <==> i == j
  {
    IdsSeparate(env, es[i].source, Key(env, es[i]), es[j].source, Key(env, es[j]));
    assert EntryOk(env, es[i]) && EntryOk(env, es[j]);
    assert i < j ==> !SameKey(env, es[i], es[j]);
    assert j < i ==> !SameKey(env, es[j], es[i]);
  }

  /** From an empty file, ids stay pairwise distinct and equal to what entryID computes. */
  lemma IdsStayDistinct(env: Env, ops: seq<Op>)
    requires Injective(env) && forall i :: 0 <= i < |ops| ==> OpOk(env, ops[i])
    ensures var es := Run(env, [], ops);
            && (forall i :: 0 <= i < |es| ==> es[i].id == EntryID(env, es[i].source, Key(env, es[i])))
            && (forall i, j :: 0 <= i < j < |es| ==> es[i].id != es[j].id)
  {
    KeyedRun(env, [], ops);
    var es := Run(env, [], ops);
    forall i | 0 <= i < |es| ensures es[i].id == EntryID(env, es[i].source, Key(env, es[i])) {
      assert EntryOk(env, es[i]);
    }
    forall i, j | 0 <= i < j < |es| ensures es[i].id != es[j].id {
      KeyedIdsDiffer(env, es, i, j);
    }
  }

  // ------------------------------------------------------- tombstones

  /** The auto entry of this normalized path is dismissed. */
  predicate Tombstoned(env: Env, es: seq<Entry>, key: string) {
    exists i :: 0 <= i < |es| && TombstoneAt(env, key)(es[i])
  }

  predicate Holds(env: Env, es: seq<Entry>, source: Source, key: string) {
    exists i :: 0 <= i < |es| && At(env, source, key)(es[i])
  }

  /** The two operations that change a tombstone; an inserted entry brings its own flag. */
  ghost predicate TombstonedAfter(env: Env, es: seq<Entry>, op: Op, key: string) {
    match op
    case UpsertAuto(e, _) =>
      || Tombstoned(env, es, key)
      || (e.dismissed && env.norm(e.path) == key && !Holds(env, es, Auto, key) && !Holds(env, es, Manual, key))
    case Delete(id) => Tombstoned(env, es, key) || (Holds(env, es, Auto, key) && id == EntryID(env, Auto, key))
    case Undismiss(path, _) => Tombstoned(env, es, key) && env.norm(path) != key
    case _ => Tombstoned(env, es, key)
  }

  lemma TombstoneAppend(env: Env, es: seq<Entry>, e: Entry, key: string)
    ensures Tombstoned(env, es + [e], key) <==> Tombstoned(env, es, key) || TombstoneAt(env, key)(e)
  {
    var es' := es + [e];
    assert es'[|es|] == e;
    if Tombstoned(env, es, key) {
      var i :| 0 <= i < |es| && TombstoneAt(env, key)(es[i]);
      assert es'[i] == es[i];
    }
  }

  lemma TombstoneUpdate(env: Env, es: seq<Entry>, i: nat, e: Entry, key: string)
    requires i < |es|
    requires TombstoneAt(env, key)(e) == TombstoneAt(env, key)(es[i])
    ensures Tombstoned(env, es[i := e], key) <==> Tombstoned(env, es, key)
  {
    var es' := es[i := e];
    assert forall j :: 0 <= j < |es| ==> TombstoneAt(env, key)(es'[j]) == TombstoneAt(env, key)(es[j]);
  }

  lemma TombstoneAfterUpsert(env: Env, es: seq<Entry>, e: Entry, now: int, key: string)
    ensures Tombstoned(env, Apply(env, es, UpsertAuto(e, now)), key) <==>
      TombstonedAfter(env, es, UpsertAuto(e, now), key)
  {
    var k := env.norm(e.path);
    var id := EntryID(env, Auto, k);
    if First(At(env, Manual, k), es).None? {
      match First(At(env, Auto, k), es)
      case Some(i) => TombstoneUpdate(env, es, i, Refreshed(es[i], id, e, now), key);
      case None => TombstoneAppend(env, es, e.(source := Auto, id := id, updatedAt := now), key);
    }
  }

  /** An auto entry of the path that is dismissed, or is when its id is deleted. */
  predicate Markable(env: Env, id: string, key: string, e: Entry) {
    At(env, Auto, key)(e) && (e.dismissed || e.id == id)
  }

  predicate AnyMarkable(env: Env, id: string, key: string, es: seq<Entry>) {
    exists i :: 0 <= i < |es| && Markable(env, id, key, es[i])
  }

  lemma {:induction false} TombstoneMarked(env: Env, id: string, es: seq<Entry>, key: string)
    ensures Tombstoned(env, Marked(id, es), key) <==> AnyMarkable(env, id, key, es)
  {
    if es != [] {
      TombstoneMarked(env, id, es[1..], key);
      TombstonePrepend(env, MarkedEntry(id, es[0]), Marked(id, es[1..]), key);
      MarkableSplit(env, id, es, key);
    }
  }

  lemma TombstonePrepend(env: Env, head: seq<Entry>, rest: seq<Entry>, key: string)
    requires |head| <= 1
    ensures Tombstoned(env, head + rest, key) <==>
      (head != [] && TombstoneAt(env, key)(head[0])) || Tombstoned(env, rest, key)
  {
    var all := head + rest;
    if Tombstoned(env, rest, key) {
      var i :| 0 <= i < |rest| && TombstoneAt(env, key)(rest[i]);
      assert all[|head| + i] == rest[i];
    }
    if head != [] {
      assert all[0] == head[0];
    }
  }

  lemma MarkableSplit(env: Env, id: string, es: seq<Entry>, key: string)
    requires es != []
    ensures AnyMarkable(env, id, key, es) <==> Markable(env, id, key, es[0]) || AnyMarkable(env, id, key, es[1..])
    ensures var head := MarkedEntry(id, es[0]);
            Markable(env, id, key, es[0]) <==> head != [] && TombstoneAt(env, key)(head[0])
  {
    if i :| 0 <= i < |es| && Markable(env, id, key, es[i]) {
      assert i > 0 ==> es[1..][i - 1] == es[i];
    }
    if i :| 0 <= i < |es[1..]| && Markable(env, id, key, es[1..][i]) {
      assert es[i + 1] == es[1..][i];
    }
  }

  lemma TombstoneAfterDelete(env: Env, es: seq<Entry>, id: string, key: string)
    requires Injective(env) && Keyed(env, es)
    ensures Tombstoned(env, Apply(env, es, Delete(id)), key) <==> TombstonedAfter(env, es, Delete(id), key)
  {
    TombstoneMarked(env, id, es, key);
    forall i | 0 <= i < |es| && At(env, Auto, key)(es[i]) ensures es[i].id == EntryID(env, Auto, key) {
      assert EntryOk(env, es[i]);
    }
    if i :| 0 <= i < |es| && At(env, Auto, key)(es[i]) {
      assert id == EntryID(env, Auto, key) ==> Markable(env, id, key, es[i]);
    }
    if i :| 0 <= i < |es| && TombstoneAt(env, key)(es[i]) {
      assert Markable(env, id, key, es[i]);
    }
  }

  lemma TombstoneAfterUndismiss(env: Env, es: seq<Entry>, path: string, now: int, key: string)
    requires Keyed(env, es)
    ensures Tombstoned(env, Apply(env, es, Undismiss(path, now)), key) <==>
      TombstonedAfter(env, es, Undismiss(path, now), key)
  {
    match First(TombstoneAt(env, env.norm(path)), es)
    case None =>
    case Some(i) =>
      var e := es[i].(dismissed := false, updatedAt := now);
      if env.norm(path) == key {
        var es' := es[i := e];
        forall j | 0 <= j < |es'| ensures !TombstoneAt(env, key)(es'[j]) {
          assert j < i ==> !SameKey(env, es[j], es[i]);
          assert j > i ==> !SameKey(env, es[i], es[j]);
        }
      } else {
        TombstoneUpdate(env, es, i, e, key);
      }
  }

  lemma TombstoneAfterRename(env: Env, es: seq<Entry>, e: Entry, now: int, key: string)
    ensures Tombstoned(env, Apply(env, es, Update(e, now)), key) <==> Tombstoned(env, es, key)
  {
    match First(ManualId(e.id), es)
    case None =>
    case Some(i) =>
      TombstoneUpdate(env, es, i, e.(source := Manual, id := EntryID(env, Manual, e.name), updatedAt := now), key);
  }

  /** Exactly which operations set and clear a tombstone. */
  lemma TombstoneStep(env: Env, es: seq<Entry>, op: Op, key: string)
    requires Injective(env) && Keyed(env, es)
    ensures Tombstoned(env, Apply(env, es, op), key) <==> TombstonedAfter(env, es, op, key)
  {
    match op
    case UpsertAuto(e, now) => TombstoneAfterUpsert(env, es, e, now, key);
    case Add(e, now) =>
      TombstoneAppend(env, es, e.(source := Manual, id := EntryID(env, Manual, e.name), updatedAt := now), key);
    case Update(e, now) => TombstoneAfterRename(env, es, e, now, key);
    case Delete(id) => TombstoneAfterDelete(env, es, id, key);
    case Undismiss(path, now) => TombstoneAfterUndismiss(env, es, path, now, key);
  }

  /** A tombstone survives every run in which its path is not undismissed. */
  lemma {:induction false} TombstoneSurvives(env: Env, es: seq<Entry>, ops: seq<Op>, key: string)
    requires Injective(env) && Keyed(env, es) && Tombstoned(env, es, key)
    requires forall i :: 0 <= i < |ops| ==> OpOk(env, ops[i]) && !(ops[i].Undismiss? && env.norm(ops[i].path) == key)
    ensures Tombstoned(env, Run(env, es, ops), key)
    decreases |ops|
  {
    if ops != [] {
      KeyedStep(env, es, ops[0]);
      TombstoneStep(env, es, ops[0], key);
      TombstoneSurvives(env, Apply(env, es, ops[0]), ops[1..], key);
    }
  }

  // ------------------------------------------------------- what each operation does to the entries

  predicate HasManualAt(env: Env, es: seq<Entry>, key: string) {
    exists c :: c in es && c.source == Manual && env.norm(c.path) == key
  }

  lemma InUpdate(es: seq<Entry>, i: nat, y: Entry, x: Entry)
    requires i < |es| && forall j :: 0 <= j < |es| && j != i ==> es[j] != es[i]
    ensures x in es[i := y] <==> (x in es && x != es[i]) || x == y
  {
    var es' := es[i := y];
    assert es'[i] == y;
    if x in es && x != es[i] {
      var j :| 0 <= j < |es| && es[j] == x;
      assert es'[j] == x;
    }
    if x in es' {
      var j :| 0 <= j < |es'| && es'[j] == x;
      assert j != i ==> es[j] == x;
    }
  }

  lemma KeyedDiffer(env: Env, es: seq<Entry>, i: nat)
    requires Keyed(env, es) && i < |es|
    ensures forall j :: 0 <= j < |es| && j != i ==> es[j] != es[i] && !SameKey(env, es[j], es[i])
  {
    forall j | 0 <= j < |es| && j != i ensures es[j] != es[i] && !SameKey(env, es[j], es[i]) {
      assert j < i ==> !SameKey(env, es[j], es[i]);
      assert j > i ==> !SameKey(env, es[i], es[j]);
    }
  }

  /**
   * A detected store: nothing changes if a manual entry has its path; else its auto entry c gets the
   * detected details, with a new time only if they differ, and keeps its tombstone; or it is added.
   */
  lemma UpsertedEntries(env: Env, es: seq<Entry>, e: Entry, now: int, x: Entry)
    requires Keyed(env, es)
    ensures var key := env.norm(e.path);
            var es' := Apply(env, es, UpsertAuto(e, now));
            && (HasManualAt(env, es, key) ==> es' == es)
            && (!HasManualAt(env, es, key) ==>
                 && (forall c :: c in es && c.source == Auto && env.norm(c.path) == key ==>
                      (x in es' <==> (x in es && x != c) || x == Detailed(env, c, e, now)))
                 && ((forall c :: c in es ==> !(c.source == Auto && env.norm(c.path) == key)) ==>
                      es' == es + [e.(source := Auto, id := env.hash(key), updatedAt := now)]))
  {
    var key := env.norm(e.path);
    if First(At(env, Manual, key), es).None? {
      match First(At(env, Auto, key), es)
      case Some(i) =>
        KeyedDiffer(env, es, i);
        InUpdate(es, i, Refreshed(es[i], EntryID(env, Auto, key), e, now), x);
        forall c | c in es && c.source == Auto && env.norm(c.path) == key ensures c == es[i] {
          var j :| 0 <= j < |es| && es[j] == c;
          assert SameKey(env, es[j], es[i]);
        }
      case None =>
    }
  }

  function Detailed(env: Env, c: Entry, e: Entry, now: int): Entry {
    var id := env.hash(env.norm(e.path));
    var y := c.(id := id, name := e.name, kind := e.kind, path := e.path, metadata := e.metadata);
    if y == c then c else y.(updatedAt := now)
  }

  /** Adding appends a manual entry under the name's own id, unless one has the name. */
  lemma AddedEntries(env: Env, es: seq<Entry>, e: Entry, now: int)
    ensures var es' := Apply(env, es, Add(e, now));
            && ((exists c :: c in es && c.source == Manual && c.name == e.name) ==> es' == es)
            && ((forall c :: c in es ==> !(c.source == Manual && c.name == e.name)) ==>
                 es' == es + [e.(source := Manual, id := env.hash("manual:" + e.name), updatedAt := now)])
  {
  }

  /** Updating replaces the manual entry c of the id, unless another manual entry has the new name. */
  lemma UpdatedEntries(env: Env, es: seq<Entry>, e: Entry, now: int, c: Entry, x: Entry)
    requires Injective(env) && Keyed(env, es) && c in es && c.source == Manual && c.id == e.id
    ensures var es' := Apply(env, es, Update(e, now));
            var y := e.(source := Manual, id := env.hash("manual:" + e.name), updatedAt := now);
            && ((exists d :: d in es && d != c && d.source == Manual && d.name == e.name) ==> es' == es)
            && ((forall d :: d in es && d != c ==> !(d.source == Manual && d.name == e.name)) ==>
                 (x in es' <==> (x in es && x != c) || x == y))
  {
    var k :| 0 <= k < |es| && es[k] == c;
    var i := First(ManualId(e.id), es).value;
    KeyedIdsDiffer(env, es, i, k);
    KeyedDiffer(env, es, i);
    if d :| d in es && d != c && d.source == Manual && d.name == e.name {
      var j :| 0 <= j < |es| && es[j] == d;
      assert NamedElse(es, i, e.name);
    }
    InUpdate(es, i, e.(source := Manual, id := EntryID(env, Manual, e.name), updatedAt := now), x);
  }

  /** Without a manual entry of the id nothing is updated. */
  lemma UpdateNeedsEntry(env: Env, es: seq<Entry>, e: Entry, now: int)
    requires forall c :: c in es ==> !(c.source == Manual && c.id == e.id)
    ensures Apply(env, es, Update(e, now)) == es
  {
  }

  /** Deleting takes manual entries of the id out, marks auto ones dismissed, and leaves the rest. */
  lemma {:induction false} DeletedEntries(env: Env, es: seq<Entry>, id: string, x: Entry)
    ensures x in Apply(env, es, Delete(id))
            <==> (x in es && x.id != id)
                 || exists c :: c in es && c.id == id && c.source == Auto && x == c.(dismissed := true)
  {
    if es != [] {
      DeletedEntries(env, es[1..], id, x);
      InMarked(id, es, x);
    }
  }

  lemma InMarked(id: string, es: seq<Entry>, x: Entry)
    requires es != []
    ensures x in Marked(id, es) <==> x in MarkedEntry(id, es[0]) || x in Marked(id, es[1..])
    ensures forall c :: c in es <==> c == es[0] || c in es[1..]
  {
  }

  /** Undismissing clears the tombstone c of the path, if there is one, and changes nothing else. */
  lemma UndismissedEntries(env: Env, es: seq<Entry>, path: string, now: int, x: Entry)
    requires Keyed(env, es)
    ensures var es' := Apply(env, es, Undismiss(path, now));
            && ((forall c :: c in es ==> !(c.source == Auto && c.dismissed && env.norm(c.path) == env.norm(path))) ==>
                 es' == es)
            && (forall c :: c in es && c.source == Auto && c.dismissed && env.norm(c.path) == env.norm(path) ==>
                 (x in es' <==> (x in es && x != c) || x == c.(dismissed := false, updatedAt := now)))
  {
    match First(TombstoneAt(env, env.norm(path)), es)
    case None =>
    case Some(i) =>
      KeyedDiffer(env, es, i);
      InUpdate(es, i, es[i].(dismissed := false, updatedAt := now), x);
      forall c | c in es && c.source == Auto && c.dismissed && env.norm(c.path) == env.norm(path) ensures c == es[i] {
        var j :| 0 <= j < |es| && es[j] == c;
        assert SameKey(env, es[j], es[i]);
      }
  }

  // ------------------------------------------------------- the object

  datatype Outcome = Done | Exists | NotExist | SaveFailed

  /** The operations that leave the file alone: nothing to change, or refused. */
  predicate WritesFile(env: Env, es: seq<Entry>, op: Op) {
    match op
    case UpsertAuto(e, now) => (
      var key := env.norm(e.path);
      && First(At(env, Manual, key), es).None?
      && (match First(At(env, Auto, key), es)
          case None => true
          case Some(i) => !SameDetails(es[i], EntryID(env, Auto, key), e)))
    case Add(e, _) => First(Named(e.name), es).None?
    case Update(e, _) => (match First(ManualId(e.id), es) case None => false case Some(i) => !NamedElse(es, i, e.name))
    case Delete(id) => exists i :: 0 <= i < |es| && es[i].id == id
    case Undismiss(path, _) => First(TombstoneAt(env, env.norm(path)), es).Some?
  }

  /** What a call reports when the operation is not refused: a write that fails is an error. */
  predicate Reported(env: Env, es: seq<Entry>, op: Op, saves: bool, r: Outcome) {
    r == if WritesFile(env, es, op) && !saves then SaveFailed else Done
  }

  /** Entries change only when the file is written. */
  lemma UnwrittenIsUnchanged(env: Env, es: seq<Entry>, op: Op)
    requires !WritesFile(env, es, op)
    ensures Apply(env, es, op) == es
  {
    if op.Delete? {
      MarkedNone(op.id, es);
    }
  }

  lemma {:induction false} MarkedNone(id: string, es: seq<Entry>)
    requires forall i :: 0 <= i < |es| ==> es[i].id != id
    ensures Marked(id, es) == es
  {
    if es != [] {
      MarkedNone(id, es[1..]);
      assert es == [es[0]] + es[1..];
    }
  }

  /** The registry's entries; whether a save succeeds is given by the caller. */
  class ConnRegistry {
    const env: Env
    var entries: seq<Entry>

    constructor (env: Env)
      ensures this.env == env && entries == []
    {
      this.env := env;
      entries := [];
    }

    /** One of the loops over the entries, up to its match. */
    method Find(p: Entry -> bool) returns (r: Option<nat>)
      ensures r == First(p, entries)
    {
      var i := 0;
      while i < |entries|
        invariant 0 <= i <= |entries|
        invariant First(p, entries) == match First(p, entries[i..]) case None => None case Some(k) => Some(i + k)
      {
        if p(entries[i]) {
          return Some(i);
        }
        assert entries[i..][1..] == entries[i + 1..];
        i := i + 1;
      }
      r := None;
    }

    method UpsertAuto(e: Entry, now: int, saves: bool) returns (r: Outcome)
      modifies this
      ensures entries == Apply(env, old(entries), Op.UpsertAuto(e, now))
      ensures Reported(env, old(entries), Op.UpsertAuto(e, now), saves, r)
    {
      var key := env.norm(e.path);
      var id := EntryID(env, Auto, key);
      var manual := Find(At(env, Manual, key));
      if manual.Some? {
        return Done;
      }
      var found := Find(At(env, Auto, key));
      if found.Some? {
        var i := found.value;
        var cur := entries[i];
        if SameDetails(cur, id, e) {
          return Done;
        }
        cur := cur.(id := id, name := e.name);
        cur := cur.(kind := e.kind, path := e.path);
        cur := cur.(metadata := e.metadata, updatedAt := now);
        entries := entries[i := cur];
      } else {
        entries := entries + [e.(source := Auto, id := id, updatedAt := now)];
      }
      r := if saves then Done else SaveFailed;
    }

    method Add(e: Entry, now: int, saves: bool) returns (r: Outcome)
      modifies this
      ensures entries == Apply(env, old(entries), Op.Add(e, now))
      ensures r == if First(Named(e.name), old(entries)).Some? then Exists else if saves then Done else SaveFailed
    {
      var found := Find(Named(e.name));
      if found.Some? {
        return Exists;
      }
      entries := entries + [e.(source := Manual, id := EntryID(env, Manual, e.name), updatedAt := now)];
      r := if saves then Done else SaveFailed;
    }

    method Update(e: Entry, now: int, saves: bool) returns (r: Outcome, id: string)
      modifies this
      ensures entries == Apply(env, old(entries), Op.Update(e, now))
      ensures match First(ManualId(e.id), old(entries))
              case None => r == NotExist
              case Some(i) =>
                if NamedElse(old(entries), i, e.name) then r == Exists
                else Reported(env, old(entries), Op.Update(e, now), saves, r)
      ensures r == Done ==> id == EntryID(env, Manual, e.name) && First(ManualId(id), entries).Some?
      ensures r == Done ==> e.(source := Manual, id := id, updatedAt := now) in entries
    {
      var found := Find(ManualId(e.id));
      if found.None? {
        return NotExist, "";
      }
      var i := found.value;
      var j := 0;
      while j < |entries|
        invariant 0 <= j <= |entries|
        invariant forall k :: 0 <= k < j && k != i ==> entries[k].source != Manual || entries[k].name != e.name
      {
        if j != i && entries[j].source == Manual && entries[j].name == e.name {
          return Exists, "";
        }
        j := j + 1;
      }
      id := EntryID(env, Manual, e.name);
      entries := entries[i := e.(source := Manual, id := id, updatedAt := now)];
      assert ManualId(id)(entries[i]);
      if !saves {
        return SaveFailed, "";
      }
      r := Done;
    }

    method Delete(id: string, saves: bool) returns (r: Outcome)
      modifies this
      ensures entries == Apply(env, old(entries), Op.Delete(id))
      ensures Reported(env, old(entries), Op.Delete(id), saves, r)
    {
      var out, changed: bool := [], false;
      for i := 0 to |entries|
        invariant entries == old(entries)
        invariant changed <==> exists k :: 0 <= k < i && entries[k].id == id
        invariant out + Marked(id, entries[i..]) == Marked(id, entries)
      {
        var e := entries[i];
        assert entries[i..][1..] == entries[i + 1..];
        ghost var before := out;
        if e.id != id {
          out := out + [e];
        } else {
          changed := true;
          if e.source != Manual {
            out := out + [e.(dismissed := true)];
          }
        }
        assert out == before + MarkedEntry(id, e);
        MarkedNext(id, before, entries[i..]);
      }
      assert entries[|entries|..] == [];
      entries := out;
      r := if changed && !saves then SaveFailed else Done;
    }

    method Undismiss(path: string, now: int, saves: bool) returns (r: Outcome)
      modifies this
      ensures entries == Apply(env, old(entries), Op.Undismiss(path, now))
      ensures Reported(env, old(entries), Op.Undismiss(path, now), saves, r)
    {
      var found := Find(TombstoneAt(env, env.norm(path)));
      if found.None? {
        return Done;
      }
      entries := entries[found.value := entries[found.value].(dismissed := false, updatedAt := now)];
      r := if saves then Done else SaveFailed;
    }
  }

  lemma MarkedNext(id: string, out: seq<Entry>, es: seq<Entry>)
    requires es != []
    ensures out + Marked(id, es)
            == out + MarkedEntry(id, es[0]) + Marked(id, es[1..])
  {
    Assoc(out, MarkedEntry(id, es[0]), Marked(id, es[1..]));
  }
}
