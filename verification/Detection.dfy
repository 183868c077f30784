/**
 * Finding state stores and the secrets they name: pkg/statestore/detect.go and secrets.go.
 * A Disk is what the files hold during one call.
 */
module Detection {
  import opened Basics

  /** A secretKeyRef: the secret and the key in it. */
  datatype SecretRef = SecretRef(name: string, key: string)

  /** A state store. As detected, metadata holds the inline values only; refs are to be resolved. */
  datatype Comp = Comp(
    name: string,
    kind: string,
    path: string,
    metadata: map<string, string>,
    refs: map<string, SecretRef>,
    secretStore: string)

  /** A local secret store: its type and the file it reads. */
  datatype SecretStore = SecretStore(name: string, kind: string, file: string, separator: string)

  /**
   * walk: the YAML files under a path, absolute, in the order of the walk. stores, secretStores: the
   * components in a file, in document order. secret: what a secret store answers, environment and
   * secrets file read at the time.
   */
  datatype Disk = Disk(
    walk: string -> seq<string>,
    stores: string -> seq<Comp>,
    secretStores: string -> seq<SecretStore>,
    secret: (SecretStore, SecretRef) -> Option<string>)

  // ------------------------------------------------------- walking each file once

  function Members(xs: seq<string>): set<string> {
    set x | x in xs
  }

  /** The elements not seen before, each at its first place. */
  function Dedup(xs: seq<string>, seen: set<string>): (r: seq<string>)
    ensures forall x :: x in r <==> x in xs && x !in seen
    ensures forall i, j :: 0 <= i < j < |r| ==> r[i] != r[j]
    decreases |xs|
  {
    if xs == [] then []
    else if xs[0] in seen then Dedup(xs[1..], seen)
    else [xs[0]] + Dedup(xs[1..], seen + {xs[0]})
  }

  lemma {:induction false} DedupAppend(xs: seq<string>, ys: seq<string>, seen: set<string>)
    ensures Dedup(xs + ys, seen) == Dedup(xs, seen) + Dedup(ys, seen + Members(xs))
    decreases |xs|
  {
    if xs == [] {
      assert xs + ys == ys && seen + Members(xs) == seen;
    } else {
      assert (xs + ys)[1..] == xs[1..] + ys;
      assert seen + Members(xs) == seen + {xs[0]} + Members(xs[1..]);
      if xs[0] in seen {
        assert seen + {xs[0]} == seen;
        DedupAppend(xs[1..], ys, seen);
      } else {
        DedupAppend(xs[1..], ys, seen + {xs[0]});
      }
    }
  }

  lemma DedupOne(xs: seq<string>, x: string)
    ensures Dedup(xs + [x], {}) == Dedup(xs, {}) + if x in xs then [] else [x]
  {
    DedupAppend(xs, [x], {});
    assert [x][1..] == [];
  }

  lemma DedupUnseen(x: string, seen: set<string>)
    requires x !in seen
    ensures Dedup([x], seen) == [x]
  {
    assert [x][1..] == [] && [x] + [] == [x];
  }

  lemma DedupFew(x: string, y: string)
    requires x != y
    ensures Dedup([x], {}) == [x] && Dedup([x, y], {}) == [x, y]
  {
    DedupUnseen(x, {});
    DedupUnseen(y, {} + {x});
    assert [x, y][1..] == [y];
  }

  lemma {:induction false} DedupNothing(xs: seq<string>, seen: set<string>)
    requires forall x :: x in xs ==> x in seen
    ensures Dedup(xs, seen) == []
  {
    if xs != [] {
      DedupNothing(xs[1..], seen);
    }
  }

  /** What read gives for every file under the paths, each file once. */
  function Along<T>(walk: string -> seq<string>, read: string -> seq<T>, paths: seq<string>): seq<T> {
    FlatMap(read, Dedup(FlatMap(walk, paths), {}))
  }

  function Detect(d: Disk, paths: seq<string>): seq<Comp> {
    Along(d.walk, d.stores, paths)
  }

  function DetectSecretStores(d: Disk, paths: seq<string>): seq<SecretStore> {
    Along(d.walk, d.secretStores, paths)
  }

  lemma FlatMapOne<T, U>(f: T -> seq<U>, x: T)
    ensures FlatMap(f, [x]) == f(x)
  {
    assert FlatMap(f, [x]) == f(x) + [];
  }

  lemma FlatMapTwo<T, U>(f: T -> seq<U>, x: T, y: T)
    ensures FlatMap(f, [x, y]) == f(x) + f(y)
  {
    assert [x, y][1..] == [y];
    FlatMapOne(f, y);
  }

  /** The loops of Detect and DetectSecretStores. */
  method WalkAlong<T>(walk: string -> seq<string>, read: string -> seq<T>, paths: seq<string>) returns (out: seq<T>)
    ensures out == Along(walk, read, paths)
  {
    out := [];
    var seen: set<string> := {};
    for i := 0 to |paths|
      invariant Gathered(read, FlatMap(walk, paths[..i]), seen, out)
    {
      FlatMapNext(walk, paths, i);
      seen, out := Visit(read, walk(paths[i]), FlatMap(walk, paths[..i]), seen, out);
    }
    assert paths[..|paths|] == paths;
  }

  /** The files met so far have been read, each once. */
  ghost predicate Gathered<T>(read: string -> seq<T>, met: seq<string>, seen: set<string>, out: seq<T>) {
    seen == Members(met) && out == FlatMap(read, Dedup(met, {}))
  }

  /** The walk's visits to the files under one path. */
  method Visit<T>(read: string -> seq<T>, files: seq<string>, ghost before: seq<string>, seen0: set<string>,
                  out0: seq<T>)
    returns (seen: set<string>, out: seq<T>)
    requires Gathered(read, before, seen0, out0)
    ensures Gathered(read, before + files, seen, out)
  {
    seen, out := seen0, out0;
    ghost var met := before;
    for j := 0 to |files|
      invariant met + files[j..] == before + files && Gathered(read, met, seen, out)
    {
      GatherOne(read, met, files[j], seen, out);
      NextMet(met, files[j..]);
      met := met + [files[j]];
      if files[j] in seen {
        continue;
      }
      seen := seen + {files[j]};
      out := out + read(files[j]);
    }
    assert met + [] == met;
  }

  lemma NextMet(met: seq<string>, rest: seq<string>)
    requires rest != []
    ensures met + [rest[0]] + rest[1..] == met + rest
  {
  }

  lemma GatherOne<T>(read: string -> seq<T>, met: seq<string>, file: string, seen: set<string>, out: seq<T>)
    requires Gathered(read, met, seen, out)
    ensures file in seen ==> Gathered(read, met + [file], seen, out)
    ensures file !in seen ==> Gathered(read, met + [file], seen + {file}, out + read(file))
  {
    DedupOne(met, file);
    assert Dedup(met, {}) + [] == Dedup(met, {});
    FlatMapAppend(read, Dedup(met, {}), [file]);
    FlatMapOne(read, file);
  }

  /** Walking a path again finds no new file. */
  lemma {:induction false} RepeatsAddNothing(walk: string -> seq<string>, paths: seq<string>, done: set<string>,
                                             seen: set<string>)
    requires forall p, f :: p in done && f in walk(p) ==> f in seen
    ensures Dedup(FlatMap(walk, Dedup(paths, done)), seen) == Dedup(FlatMap(walk, paths), seen)
    decreases |paths|
  {
    if paths != [] {
      var p, rest := paths[0], paths[1..];
      if p in done {
        RepeatsAddNothing(walk, rest, done, seen);
        DedupAppend(walk(p), FlatMap(walk, rest), seen);
        DedupNothing(walk(p), seen);
        assert seen + Members(walk(p)) == seen;
      } else {
        var seen' := seen + Members(walk(p));
        RepeatsAddNothing(walk, rest, done + {p}, seen');
        DedupAppend(walk(p), FlatMap(walk, rest), seen);
        DedupAppend(walk(p), FlatMap(walk, Dedup(rest, done + {p})), seen);
        assert Dedup(paths, done)[1..] == Dedup(rest, done + {p});
      }
    }
  }

  lemma SamePlacesSameFiles<T>(walk: string -> seq<string>, read: string -> seq<T>, paths: seq<string>,
                               others: seq<string>)
    requires Dedup(paths, {}) == Dedup(others, {})
    ensures Along(walk, read, paths) == Along(walk, read, others)
  {
    RepeatsAddNothing(walk, paths, {}, {});
    RepeatsAddNothing(walk, others, {}, {});
  }

  // ------------------------------------------------------- secrets

  /** The first secret store of the name. */
  function Chosen(stores: seq<SecretStore>, name: string): Option<SecretStore> {
    if stores == [] then None
    else if stores[0].name == name then Some(stores[0])
    else Chosen(stores[1..], name)
  }

  /** It is the first store of the name, and none only if there is none. */
  lemma {:induction false} ChosenIsFirst(stores: seq<SecretStore>, name: string)
    ensures Chosen(stores, name).None? <==> forall i :: 0 <= i < |stores| ==> stores[i].name != name
    ensures Chosen(stores, name).Some? ==> exists i ::
              && 0 <= i < |stores| && stores[i].name == name && Chosen(stores, name) == Some(stores[i])
              && forall j :: 0 <= j < i ==> stores[j].name != name
  {
    if stores != [] && stores[0].name != name {
      var rest := stores[1..];
      ChosenIsFirst(rest, name);
      assert forall i :: 0 < i < |stores| ==> stores[i] == rest[i - 1];
      if Chosen(rest, name).Some? {
        var i :| && 0 <= i < |rest| && rest[i].name == name && Chosen(rest, name) == Some(rest[i])
                 && forall j :: 0 <= j < i ==> rest[j].name != name;
        assert stores[i + 1] == rest[i];
      }
    }
  }

  function ResolveOne(d: Disk, store: Option<SecretStore>, ref: SecretRef): Option<string> {
    if store.None? then None else d.secret(store.value, ref)
  }

  function Lookup<K, V>(m: map<K, V>, k: K): Option<V> {
    if k in m then Some(m[k]) else None
  }

  /** The value of one metadata key after resolving: a reference that cannot be resolved leaves an inline value. */
  function ValueOf(d: Disk, c: Comp, store: Option<SecretStore>, key: string): Option<string> {
    if key in c.refs && ResolveOne(d, store, c.refs[key]).Some? then ResolveOne(d, store, c.refs[key])
    else Lookup(c.metadata, key)
  }

  function ResolvedMetadata(d: Disk, c: Comp, stores: seq<SecretStore>): map<string, string> {
    var store := Chosen(stores, c.secretStore);
    map k | k in c.metadata.Keys + c.refs.Keys && ValueOf(d, c, store, k).Some? :: ValueOf(d, c, store, k).value
  }

  function Resolve(d: Disk, c: Comp, stores: seq<SecretStore>): Comp {
    c.(metadata := ResolvedMetadata(d, c, stores))
  }

  function ResolveAll(d: Disk, comps: seq<Comp>, stores: seq<SecretStore>): (r: seq<Comp>)
    ensures |r| == |comps|
    ensures forall i :: 0 <= i < |r| ==> r[i] == Resolve(d, comps[i], stores)
  {
    if comps == [] then [] else [Resolve(d, comps[0], stores)] + ResolveAll(d, comps[1..], stores)
  }

  /** The stores found along the paths, with the secrets that the secret stores along the paths give. */
  function Resolved(d: Disk, paths: seq<string>): seq<Comp> {
    ResolveAll(d, Detect(d, paths), DetectSecretStores(d, paths))
  }

  method FindStore(stores: seq<SecretStore>, name: string) returns (store: Option<SecretStore>)
    ensures store == Chosen(stores, name)
  {
    var i := 0;
    while i < |stores|
      invariant 0 <= i <= |stores|
      invariant Chosen(stores, name) == Chosen(stores[i..], name)
    {
      if stores[i].name == name {
        return Some(stores[i]);
      }
      i := i + 1;
    }
    store := None;
  }

  /** The references are visited in any order; the keys left unresolved are reported. */
  method ResolveSecrets(d: Disk, c: Comp, stores: seq<SecretStore>)
    returns (resolved: map<string, string>, unresolved: set<string>)
    ensures resolved == ResolvedMetadata(d, c, stores)
    ensures forall k :: k in c.refs && k !in unresolved ==>
              && Chosen(stores, c.secretStore).Some? && k in resolved
              && d.secret(Chosen(stores, c.secretStore).value, c.refs[k]) == Some(resolved[k])
    ensures forall k :: !(k in c.refs && k !in unresolved) ==>
              (k in resolved <==> k in c.metadata) && (k in resolved ==> resolved[k] == c.metadata[k])
    ensures forall k :: k in unresolved <==>
              k in c.refs && ResolveOne(d, Chosen(stores, c.secretStore), c.refs[k]).None?
  {
    var store := FindStore(stores, c.secretStore);
    resolved, unresolved := c.metadata, {};
    var rest := c.refs.Keys;
    while rest != {}
      invariant rest <= c.refs.Keys
      invariant forall k :: k in unresolved <==> k in c.refs && k !in rest && ResolveOne(d, store, c.refs[k]).None?
      invariant forall k ::
                  Lookup(resolved, k) == if k in rest then Lookup(c.metadata, k) else ValueOf(d, c, store, k)
    {
      var key :| key in rest;
      var value := ResolveOne(d, store, c.refs[key]);
      if value.None? {
        unresolved := unresolved + {key};
      } else {
        resolved := resolved[key := value.value];
      }
      rest := rest - {key};
    }
    IsResolved(d, c, stores, resolved);
  }

  lemma IsResolved(d: Disk, c: Comp, stores: seq<SecretStore>, resolved: map<string, string>)
    requires forall k :: Lookup(resolved, k) == ValueOf(d, c, Chosen(stores, c.secretStore), k)
    ensures resolved == ResolvedMetadata(d, c, stores)
  {
    var store := Chosen(stores, c.secretStore);
    forall k ensures k in resolved <==> k in ResolvedMetadata(d, c, stores) {
      assert Lookup(resolved, k) == ValueOf(d, c, store, k);
    }
    forall k | k in resolved ensures resolved[k] == ResolvedMetadata(d, c, stores)[k] {
      assert Lookup(resolved, k) == ValueOf(d, c, store, k);
    }
  }
}
