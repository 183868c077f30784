/**
 * A JavaScript object used as a record, with the order in which Object.entries lists it:
 * keys that are array indices first, ascending, then the other keys in insertion order
 * (OrdinaryOwnPropertyKeys in ECMA-262).
 */
module JsRecord {
  import opened Basics

  type Rec<V> = seq<(string, V)>

  // ------------------------------------------------------- array-index keys

  predicate IsDigit(c: char) {
    '0' <= c <= '9'
  }

  function Value(k: string): nat
    requires forall i :: 0 <= i < |k| ==> IsDigit(k[i])
  {
    if k == "" then 0
    else
      assert IsDigit(k[|k| - 1]);
      10 * Value(k[..|k| - 1]) + (k[|k| - 1] as int - '0' as int)
  }

  /** A canonical decimal below 2^32 - 1. */
  predicate IsIndex(k: string) {
    && k != "" && (forall i :: 0 <= i < |k| ==> IsDigit(k[i]))
    && (k[0] != '0' || |k| == 1)
    && Value(k) < 0xFFFF_FFFF
  }

  lemma {:induction false} ValueIsPositive(k: string)
    requires k != "" && (forall i :: 0 <= i < |k| ==> IsDigit(k[i])) && k[0] != '0'
    ensures Value(k) > 0
    decreases |k|
  {
    if |k| > 1 {
      ValueIsPositive(k[..|k| - 1]);
    }
  }

  /** Different index keys have different values, so indices are totally ordered. */
  lemma {:induction false} ValueSeparates(a: string, b: string)
    requires IsIndex(a) && IsIndex(b) && Value(a) == Value(b)
    ensures a == b
    decreases |a|
  {
    var a', b' := a[..|a| - 1], b[..|b| - 1];
    assert a == a' + [a[|a| - 1]] && b == b' + [b[|b| - 1]];
    assert Value(a') == Value(b') && a[|a| - 1] == b[|b| - 1];
    if |a| > 1 && |b| > 1 {
      ValueSeparates(a', b');
    } else if |a| > 1 {
      ValueIsPositive(a');
    } else if |b| > 1 {
      ValueIsPositive(b');
    }
  }

  /** a is listed before b, whatever order they were inserted in. */
  predicate Precedes(a: string, b: string) {
    IsIndex(a) && (!IsIndex(b) || Value(a) < Value(b))
  }

  // ------------------------------------------------------- operations

  predicate Has<V>(r: Rec<V>, k: string) {
    exists i :: 0 <= i < |r| && r[i].0 == k
  }

  function Get<V>(r: Rec<V>, k: string): (v: Option<V>)
    ensures v.Some? <==> Has(r, k)
  {
    if r == [] then None
    else if r[0].0 == k then Some(r[0].1)
    else
      assert r == [r[0]] + r[1..];
      Get(r[1..], k)
  }

  /** r[k] = v */
  function Put<V>(r: Rec<V>, k: string, v: V): Rec<V> {
    if r == [] then [(k, v)]
    else if r[0].0 == k then [(k, v)] + r[1..]
    else if Precedes(k, r[0].0) && !Has(r, k) then [(k, v)] + r
    else [r[0]] + Put(r[1..], k, v)
  }

  /** delete r[k] */
  function Remove<V>(r: Rec<V>, k: string): Rec<V> {
    if r == [] then [] else (if r[0].0 == k then [] else [r[0]]) + Remove(r[1..], k)
  }

  /** Keys are unique and listed in the order the language prescribes. */
  ghost predicate Valid<V>(r: Rec<V>) {
    && (forall i, j :: 0 <= i < j < |r| ==> r[i].0 != r[j].0)
    && (forall i, j :: 0 <= i < j < |r| ==> !Precedes(r[j].0, r[i].0))
  }

  lemma {:induction false} PutGet<V>(r: Rec<V>, k: string, v: V, x: string)
    ensures Get(Put(r, k, v), x) == if x == k then Some(v) else Get(r, x)
  {
    if r != [] && r[0].0 != k && !(Precedes(k, r[0].0) && !Has(r, k)) {
      PutGet(r[1..], k, v, x);
      assert Put(r, k, v)[1..] == Put(r[1..], k, v);
    } else if r != [] {
      assert ([(k, v)] + r)[1..] == r && ([(k, v)] + r[1..])[1..] == r[1..];
    } else {
      assert [(k, v)][1..] == [];
    }
  }

  lemma {:induction false} RemoveGet<V>(r: Rec<V>, k: string, x: string)
    ensures Get(Remove(r, k), x) == if x == k then None else Get(r, x)
  {
    if r != [] {
      RemoveGet(r[1..], k, x);
      assert [] + Remove(r[1..], k) == Remove(r[1..], k);
      assert ([r[0]] + Remove(r[1..], k))[1..] == Remove(r[1..], k);
    }
  }

  lemma ValidTail<V>(r: Rec<V>)
    requires Valid(r) && r != []
    ensures Valid(r[1..])
    ensures !Has(r[1..], r[0].0)
    ensures forall x :: Has(r[1..], x) ==> !Precedes(x, r[0].0)
  {
  }

  /** An entry may stand in front of those it does not share a key with and need not follow. */
  lemma ValidCons<V>(e: (string, V), r: Rec<V>)
    requires Valid(r) && !Has(r, e.0) && forall x :: Has(r, x) ==> !Precedes(x, e.0)
    ensures Valid([e] + r)
  {
    var all := [e] + r;
    forall i, j | 0 <= i < j < |all| ensures all[i].0 != all[j].0 && !Precedes(all[j].0, all[i].0) {
      assert all[j] == r[j - 1] && Has(r, r[j - 1].0);
    }
  }

  lemma {:induction false} PutValid<V>(r: Rec<V>, k: string, v: V)
    requires Valid(r)
    ensures Valid(Put(r, k, v))
  {
    if r != [] {
      var head, tail := r[0], r[1..];
      ValidTail(r);
      assert r == [head] + tail;
      if head.0 == k {
        ValidCons((k, v), tail);
      } else if Precedes(k, head.0) && !Has(r, k) {
        forall x | Has(r, x) ensures !Precedes(x, k) {
          assert x == head.0 || Has(tail, x);
        }
        ValidCons((k, v), r);
      } else {
        var rest := Put(tail, k, v);
        PutValid(tail, k, v);
        forall x | Has(rest, x) ensures x != head.0 && !Precedes(x, head.0) {
          PutGet(tail, k, v, x);
          assert Has(rest, x) <==> Get(rest, x).Some?;
        }
        ValidCons(head, rest);
      }
    }
  }

  lemma {:induction false} RemoveValid<V>(r: Rec<V>, k: string)
    requires Valid(r)
    ensures Valid(Remove(r, k))
  {
    if r != [] {
      ValidTail(r);
      RemoveValid(r[1..], k);
      var rest := Remove(r[1..], k);
      forall j | 0 <= j < |rest| ensures rest[j].0 != r[0].0 && !Precedes(rest[j].0, r[0].0) {
        RemoveGet(r[1..], k, rest[j].0);
        assert Has(rest, rest[j].0);
      }
    }
  }

  /** The keys that keep their insertion order. */
  function Names<V>(r: Rec<V>): seq<string> {
    if r == [] then [] else (if IsIndex(r[0].0) then [] else [r[0].0]) + Names(r[1..])
  }

  /** A record is determined by its contents and the order of its non-index keys. */
  /** The keys but one, in their order. */
  function NamesBut<V>(r: Rec<V>, k: string): seq<string> {
    if r == [] then [] else (if r[0].0 == k then [] else [r[0].0]) + NamesBut(r[1..], k)
  }

  lemma NamesButCons<V>(e: (string, V), r: Rec<V>, k: string)
    ensures NamesBut([e] + r, k) == (if e.0 == k then [] else [e.0]) + NamesBut(r, k)
  {
    assert ([e] + r)[1..] == r;
  }

  lemma NothingBefore(names: seq<string>)
    ensures [] + names == names
  {
  }

  /** Setting or deleting a key leaves the order of the others. */
  lemma {:induction false} PutKeepsOthers<V>(r: Rec<V>, k: string, v: V)
    ensures NamesBut(Put(r, k, v), k) == NamesBut(r, k)
  {
    NothingBefore(NamesBut(r, k));
    if r == [] {
      NamesButCons((k, v), [], k);
      assert [(k, v)] + [] == [(k, v)];
    } else if r[0].0 == k {
      NamesButCons((k, v), r[1..], k);
    } else if Precedes(k, r[0].0) && !Has(r, k) {
      NamesButCons((k, v), r, k);
    } else {
      PutKeepsOthers(r[1..], k, v);
      NamesButCons(r[0], Put(r[1..], k, v), k);
    }
  }

  lemma {:induction false} RemoveKeepsOthers<V>(r: Rec<V>, k: string)
    ensures NamesBut(Remove(r, k), k) == NamesBut(r, k)
  {
    if r != [] {
      RemoveKeepsOthers(r[1..], k);
      NothingBefore(NamesBut(r[1..], k));
      assert r[0].0 == k ==> Remove(r, k) == Remove(r[1..], k);
      NamesButCons(r[0], Remove(r[1..], k), k);
    }
  }

  lemma {:induction false} SameRecord<V>(a: Rec<V>, b: Rec<V>)
    requires Valid(a) && Valid(b) && Names(a) == Names(b)
    requires forall k :: Get(a, k) == Get(b, k)
    ensures a == b
    decreases |a|
  {
    if a == [] {
      assert b != [] ==> Has(b, b[0].0) && Get(a, b[0].0).Some?;
    } else {
      assert Get(a, a[0].0) == Get(b, a[0].0);
      assert Has(b, a[0].0) && b != [];
      SameHead(a, b);
      ValidTail(a);
      ValidTail(b);
      forall k ensures Get(a[1..], k) == Get(b[1..], k) {
        assert Get(a, k) == Get(b, k);
      }
      assert a == [a[0]] + a[1..] && b == [b[0]] + b[1..];
      NamesTail(a);
      NamesTail(b);
      SameRecord(a[1..], b[1..]);
    }
  }

  lemma NamesTail<V>(r: Rec<V>)
    requires r != []
    ensures Names(r[1..]) == if IsIndex(r[0].0) then Names(r) else Names(r)[1..]
  {
  }

  lemma HasInTail<V>(r: Rec<V>, k: string)
    requires r != [] && Has(r, k) && r[0].0 != k
    ensures Has(r[1..], k)
  {
    assert r == [r[0]] + r[1..];
  }

  lemma SameHead<V>(a: Rec<V>, b: Rec<V>)
    requires Valid(a) && Valid(b) && Names(a) == Names(b) && a != [] && b != []
    requires forall k :: Get(a, k) == Get(b, k)
    ensures a[0] == b[0]
  {
    var x, y := a[0].0, b[0].0;
    assert Get(a, x) == Get(b, x) && Get(a, y) == Get(b, y);
    SameHeadKey(a, b);
  }

  lemma SameHeadKey<V>(a: Rec<V>, b: Rec<V>)
    requires Valid(a) && Valid(b) && Names(a) == Names(b) && a != [] && b != []
    requires Has(b, a[0].0) && Has(a, b[0].0)
    ensures a[0].0 == b[0].0
  {
    var x, y := a[0].0, b[0].0;
    ValidTail(a);
    ValidTail(b);
    assert !IsIndex(x) ==> Names(a) != [] && x == Names(a)[0];
    assert !IsIndex(y) ==> Names(b) != [] && y == Names(b)[0];
    if x != y {
      HasInTail(a, y);
      HasInTail(b, x);
      if IsIndex(x) && IsIndex(y) {
        ValueSeparates(x, y);
      }
    }
  }

  // ------------------------------------------------------- renaming a key

  function Renamed(k: string, from: string, to: string): string {
    if k == from then to else k
  }

  /** Puts the entries into `next` one by one, `from` under the name `to`. */
  function RenameInto<V>(next: Rec<V>, entries: Rec<V>, from: string, to: string): Rec<V>
    decreases |entries|
  {
    if entries == [] then next
    else RenameInto(Put(next, Renamed(entries[0].0, from, to), entries[0].1), entries[1..], from, to)
  }

  /** renamedKey(map, from, to) of the reducer. */
  function RenamedKey<V>(r: Rec<V>, from: string, to: string): Rec<V> {
    if !Has(r, from) then r else RenameInto([], r, from, to)
  }

  lemma {:induction false} RenameIntoAppend<V>(
    next: Rec<V>, entries: Rec<V>, last: (string, V), from: string, to: string)
    ensures RenameInto(next, entries + [last], from, to)
            == Put(RenameInto(next, entries, from, to), Renamed(last.0, from, to), last.1)
    decreases |entries|
  {
    if entries == [] {
      assert entries + [last] == [last];
      assert [last][1..] == [];
    } else {
      RenameIntoAppend(Put(next, Renamed(entries[0].0, from, to), entries[0].1), entries[1..], last, from, to);
      assert (entries + [last])[1..] == entries[1..] + [last];
    }
  }

  method RenameKey<V>(r: Rec<V>, from: string, to: string) returns (next: Rec<V>)
    ensures next == RenamedKey(r, from, to)
  {
    var i := 0;
    while i < |r| && r[i].0 != from
      invariant i <= |r| && forall j :: 0 <= j < i ==> r[j].0 != from
    {
      i := i + 1;
    }
    if i == |r| {
      return r;
    }
    next := [];
    for j := 0 to |r|
      invariant next == RenameInto([], r[..j], from, to)
    {
      RenameIntoAppend([], r[..j], r[j], from, to);
      assert r[..j + 1] == r[..j] + [r[j]];
      next := Put(next, if r[j].0 == from then to else r[j].0, r[j].1);
    }
    assert r[..|r|] == r;
  }

  /** The names after a rename to a fresh key, entry by entry. */
  function RenamedNames<V>(entries: Rec<V>, from: string, to: string): seq<string> {
    if entries == [] then []
    else
      var k := Renamed(entries[0].0, from, to);
      (if IsIndex(k) then [] else [k]) + RenamedNames(entries[1..], from, to)
  }

  lemma NamesCons<V>(k: string, v: V, r: Rec<V>)
    ensures Names([(k, v)] + r) == if IsIndex(k) then Names(r) else [k] + Names(r)
  {
    assert ([(k, v)] + r)[1..] == r;
  }

  lemma {:induction false} PutIndexNames<V>(r: Rec<V>, k: string, v: V)
    requires !Has(r, k) && IsIndex(k)
    ensures Names(Put(r, k, v)) == Names(r)
  {
    if r == [] {
      assert [(k, v)] == [(k, v)] + [];
      NamesCons(k, v, []);
    } else if Precedes(k, r[0].0) {
      NamesCons(k, v, r);
    } else {
      assert r == [r[0]] + r[1..];
      PutIndexNames(r[1..], k, v);
      NamesCons(r[0].0, r[0].1, Put(r[1..], k, v));
    }
  }

  lemma PutNewNames<V>(r: Rec<V>, k: string, v: V)
    requires !Has(r, k)
    ensures Names(Put(r, k, v)) == if IsIndex(k) then Names(r) else Names(r) + [k]
  {
    if IsIndex(k) {
      PutIndexNames(r, k, v);
    } else {
      PutAtEnd(r, k, v);
      NamesAppend(r, k, v);
    }
  }

  lemma {:induction false} NamesAppend<V>(r: Rec<V>, k: string, v: V)
    requires !IsIndex(k)
    ensures Names(r + [(k, v)]) == Names(r) + [k]
  {
    if r == [] {
      assert r + [(k, v)] == [(k, v)] + [];
      NamesCons(k, v, []);
    } else {
      NamesAppend(r[1..], k, v);
      Assoc(if IsIndex(r[0].0) then [] else [r[0].0], Names(r[1..]), [k]);
      assert (r + [(k, v)])[1..] == r[1..] + [(k, v)];
    }
  }

  /** Neither `next` nor the entries use the new key, and `next` uses none of the entries' keys. */
  ghost predicate Fresh<V>(next: Rec<V>, entries: Rec<V>, from: string, to: string) {
    && Valid(next) && Valid(entries) && !Has(entries, to)
    && forall i :: 0 <= i < |entries| ==> !Has(next, Renamed(entries[i].0, from, to))
  }

  lemma FreshStep<V>(next: Rec<V>, entries: Rec<V>, from: string, to: string)
    requires Fresh(next, entries, from, to) && entries != []
    ensures var k := Renamed(entries[0].0, from, to);
            !Has(next, k) && Fresh(Put(next, k, entries[0].1), entries[1..], from, to)
  {
    var k := Renamed(entries[0].0, from, to);
    var next' := Put(next, k, entries[0].1);
    PutValid(next, k, entries[0].1);
    ValidTail(entries);
    assert entries == [entries[0]] + entries[1..];
    forall i | 0 <= i < |entries[1..]| ensures !Has(next', Renamed(entries[1..][i].0, from, to)) {
      assert entries[1..][i] == entries[i + 1];
      assert Has(entries, entries[i + 1].0) && Has(entries, entries[0].0);
      PutGet(next, k, entries[0].1, Renamed(entries[i + 1].0, from, to));
      assert Get(next', Renamed(entries[i + 1].0, from, to)) == Get(next, Renamed(entries[i + 1].0, from, to));
    }
  }

  lemma {:induction false} RenameIntoNames<V>(next: Rec<V>, entries: Rec<V>, from: string, to: string)
    requires Fresh(next, entries, from, to)
    ensures Valid(RenameInto(next, entries, from, to))
    ensures Names(RenameInto(next, entries, from, to)) == Names(next) + RenamedNames(entries, from, to)
    decreases |entries|
  {
    if entries != [] {
      var k := Renamed(entries[0].0, from, to);
      FreshStep(next, entries, from, to);
      PutNewNames(next, k, entries[0].1);
      RenameIntoNames(Put(next, k, entries[0].1), entries[1..], from, to);
      Assoc(Names(next), if IsIndex(k) then [] else [k], RenamedNames(entries[1..], from, to));
      assert Names(next) + [] == Names(next);
    } else {
      assert Names(next) + [] == Names(next);
    }
  }

  lemma {:induction false} RenameIntoGet<V>(next: Rec<V>, entries: Rec<V>, from: string, to: string, x: string)
    requires Fresh(next, entries, from, to)
    ensures Get(RenameInto(next, entries, from, to), x)
            == if Has(next, x) then Get(next, x)
               else if x == to then Get(entries, from)
               else if x == from then None
               else Get(entries, x)
    decreases |entries|
  {
    if entries != [] {
      var k := Renamed(entries[0].0, from, to);
      FreshStep(next, entries, from, to);
      PutGet(next, k, entries[0].1, x);
      ValidTail(entries);
      assert Has(entries, entries[0].0);
      RenameIntoGet(Put(next, k, entries[0].1), entries[1..], from, to, x);
    }
  }

  /** What the key x gets once the value of `from` has moved to `to`. */
  function GetRenamed<V>(r: Rec<V>, from: string, to: string, x: string): Option<V> {
    if x == to then Get(r, from) else if x == from then None else Get(r, x)
  }

  /** Renaming to an unused key moves one value and touches no other. */
  lemma RenamedKeyFresh<V>(r: Rec<V>, from: string, to: string)
    requires Valid(r) && Has(r, from) && !Has(r, to)
    ensures Valid(RenamedKey(r, from, to))
    ensures Names(RenamedKey(r, from, to)) == RenamedNames(r, from, to)
    ensures forall x :: Get(RenamedKey(r, from, to), x) == GetRenamed(r, from, to, x)
  {
    assert Fresh([], r, from, to);
    RenameIntoNames([], r, from, to);
    forall x ensures Get(RenamedKey(r, from, to), x) == GetRenamed(r, from, to, x) {
      RenameIntoGet([], r, from, to, x);
    }
  }

  /** With no condition on `to`: the keys afterwards are the renamed keys. */
  lemma {:induction false} RenameIntoKeys<V>(next: Rec<V>, entries: Rec<V>, from: string, to: string, x: string)
    ensures Has(RenameInto(next, entries, from, to), x)
            <==> Has(next, x) || exists i :: 0 <= i < |entries| && Renamed(entries[i].0, from, to) == x
    decreases |entries|
  {
    if entries != [] {
      var k := Renamed(entries[0].0, from, to);
      PutGet(next, k, entries[0].1, x);
      var next' := Put(next, k, entries[0].1);
      assert Has(next', x) <==> Get(next', x).Some?;
      RenameIntoKeys(next', entries[1..], from, to, x);
      assert entries == [entries[0]] + entries[1..];
    }
  }

  lemma {:induction false} RenameIntoValid<V>(next: Rec<V>, entries: Rec<V>, from: string, to: string)
    requires Valid(next)
    ensures Valid(RenameInto(next, entries, from, to))
    decreases |entries|
  {
    if entries != [] {
      PutValid(next, Renamed(entries[0].0, from, to), entries[0].1);
      RenameIntoValid(Put(next, Renamed(entries[0].0, from, to), entries[0].1), entries[1..], from, to);
    }
  }

  /** Any rename: `to` takes over from `from`, the other keys stay. */
  lemma RenamedKeyKeys<V>(r: Rec<V>, from: string, to: string, x: string)
    requires Valid(r) && Has(r, from)
    ensures Valid(RenamedKey(r, from, to))
    ensures Has(RenamedKey(r, from, to), x) <==> x == to || (x != from && Has(r, x))
  {
    RenameIntoValid([], r, from, to);
    RenameIntoKeys([], r, from, to, x);
    if x != from && Has(r, x) {
      var i :| 0 <= i < |r| && r[i].0 == x;
      assert Renamed(r[i].0, from, to) == x;
    }
    var j :| 0 <= j < |r| && r[j].0 == from;
    assert Renamed(r[j].0, from, to) == to;
  }

  lemma {:induction false} RenameIntoMisses<V>(next: Rec<V>, entries: Rec<V>, from: string, to: string, x: string)
    requires forall i :: 0 <= i < |entries| ==> Renamed(entries[i].0, from, to) != x
    ensures Get(RenameInto(next, entries, from, to), x) == Get(next, x)
    decreases |entries|
  {
    if entries != [] {
      var k := Renamed(entries[0].0, from, to);
      PutGet(next, k, entries[0].1, x);
      RenameIntoMisses(Put(next, k, entries[0].1), entries[1..], from, to, x);
    }
  }

  lemma {:induction false} RenameIntoLast<V>(next: Rec<V>, entries: Rec<V>, from: string, to: string, n: nat)
    requires n < |entries| && Renamed(entries[n].0, from, to) == to
    requires forall i :: n < i < |entries| ==> Renamed(entries[i].0, from, to) != to
    ensures Get(RenameInto(next, entries, from, to), to) == Some(entries[n].1)
    decreases |entries|
  {
    var k := Renamed(entries[0].0, from, to);
    var next' := Put(next, k, entries[0].1);
    if n > 0 {
      RenameIntoLast(next', entries[1..], from, to, n - 1);
    } else {
      PutGet(next, k, entries[0].1, to);
      RenameIntoMisses(next', entries[1..], from, to, to);
    }
  }

  /** A rename onto a used key keeps the value of whichever of the two was listed later. */
  lemma RenamedKeyClash<V>(r: Rec<V>, i: nat, j: nat)
    requires Valid(r) && i < |r| && j < |r| && i != j
    ensures Get(RenamedKey(r, r[i].0, r[j].0), r[j].0) == Some(r[if i < j then j else i].1)
  {
    assert Has(r, r[i].0);
    RenameIntoLast([], r, r[i].0, r[j].0, if i < j then j else i);
  }

  // ------------------------------------------------------- renaming back

  /** Replaces `from` by `to` in a list of names, dropping it if `to` is an index. */
  function Substituted(names: seq<string>, from: string, to: string): seq<string> {
    if names == [] then []
    else (if names[0] != from then [names[0]] else if IsIndex(to) then [] else [to]) + Substituted(names[1..], from, to)
  }

  /** The name order after a fresh rename, from the name order before. */
  lemma {:induction false} RenamedNamesForm<V>(r: Rec<V>, from: string, to: string)
    requires Valid(r) && Has(r, from)
    ensures RenamedNames(r, from, to)
            == if !IsIndex(from) then Substituted(Names(r), from, to)
               else if IsIndex(to) then Names(r) else [to] + Names(r)
    decreases |r|
  {
    var head, tail := r[0].0, r[1..];
    ValidTail(r);
    assert r == [r[0]] + tail;
    if head == from {
      NoRename(tail, from, to);
      if !IsIndex(from) {
        NotSubstituted(tail, from, to);
        assert Names(r)[1..] == Names(tail);
      }
    } else {
      HasInTail(r, from);
      RenamedNamesForm(tail, from, to);
      if IsIndex(head) {
        assert [] + Names(tail) == Names(tail);
      } else {
        assert Names(r)[1..] == Names(tail);
        assert !Precedes(from, head);
      }
    }
  }

  lemma {:induction false} NoRename<V>(r: Rec<V>, from: string, to: string)
    requires !Has(r, from)
    ensures RenamedNames(r, from, to) == Names(r)
  {
    if r != [] {
      assert r == [r[0]] + r[1..];
      NoRename(r[1..], from, to);
    }
  }

  lemma NotSubstituted<V>(r: Rec<V>, from: string, to: string)
    requires !Has(r, from)
    ensures Substituted(Names(r), from, to) == Names(r)
  {
    NamesAreKeys(r, from);
    Unsubstituted(Names(r), from, to);
  }

  lemma {:induction false} SubstitutedBack(names: seq<string>, from: string, to: string)
    requires to !in names && !IsIndex(from) && !IsIndex(to)
    ensures Substituted(Substituted(names, from, to), to, from) == names
  {
    if names != [] {
      assert to !in names[1..];
      SubstitutedBack(names[1..], from, to);
      var first := if names[0] != from then names[0] else to;
      assert names[0] != to;
      SubstitutedCons(first, Substituted(names[1..], from, to), to, from);
      assert names == [names[0]] + names[1..];
    }
  }

  lemma SubstitutedCons(first: string, rest: seq<string>, from: string, to: string)
    requires !IsIndex(to)
    ensures Substituted([first] + rest, from, to) == [if first != from then first else to] + Substituted(rest, from, to)
  {
    assert ([first] + rest)[1..] == rest;
  }

  lemma {:induction false} NamesAreKeys<V>(r: Rec<V>, k: string)
    ensures k in Names(r) <==> Has(r, k) && !IsIndex(k)
  {
    if r != [] {
      assert r == [r[0]] + r[1..];
      NamesAreKeys(r[1..], k);
    }
  }

  /** `from` is the first of the keys listed in insertion order. */
  predicate FirstName<V>(r: Rec<V>, from: string) {
    Names(r) != [] && Names(r)[0] == from
  }

  /**
   * Renaming to an unused key and back gives the same record, key order included, except
   * when a name that is not the first moves to an array index: it comes back in front.
   */
  lemma RenameBackRestores<V>(r: Rec<V>, from: string, to: string)
    requires Valid(r) && Has(r, from) && !Has(r, to)
    ensures RenamedKey(RenamedKey(r, from, to), to, from) == r
            <==> IsIndex(from) || !IsIndex(to) || FirstName(r, from)
  {
    var r1 := RenamedKey(r, from, to);
    RenamedKeyFresh(r, from, to);
    assert Get(r1, to) == Get(r, from) && Get(r1, from) == None;
    var r2 := RenamedKey(r1, to, from);
    RenamedKeyFresh(r1, to, from);
    forall k ensures Get(r2, k) == Get(r, k) {}
    RenamedNamesForm(r, from, to);
    RenamedNamesForm(r1, to, from);
    NamesAreKeys(r, from);
    NamesAreKeys(r, to);
    if IsIndex(from) {
      if !IsIndex(to) {
        NotInNames(r, to, from);
      }
    } else if !IsIndex(to) {
      SubstitutedBack(Names(r), from, to);
    } else {
      FrontAfterIndex(r, from, to);
    }
    if Names(r2) == Names(r) {
      SameRecord(r2, r);
    }
  }

  lemma NotInNames<V>(r: Rec<V>, to: string, from: string)
    requires !Has(r, to) && IsIndex(from) && !IsIndex(to)
    ensures Substituted([to] + Names(r), to, from) == Names(r)
  {
    NotSubstituted(r, to, from);
    assert ([to] + Names(r))[1..] == Names(r);
  }

  lemma FrontAfterIndex<V>(r: Rec<V>, from: string, to: string)
    requires Valid(r) && Has(r, from) && !IsIndex(from) && IsIndex(to)
    ensures [from] + Substituted(Names(r), from, to) == Names(r) <==> FirstName(r, from)
    decreases |r|
  {
    NamesAreKeys(r, from);
    var names := Names(r);
    if FirstName(r, from) {
      NamesDistinct(r);
      WithoutFirst(names, from, to);
    }
  }

  lemma {:induction false} NamesDistinct<V>(r: Rec<V>)
    requires Valid(r)
    ensures forall i, j :: 0 <= i < j < |Names(r)| ==> Names(r)[i] != Names(r)[j]
  {
    if r != [] {
      ValidTail(r);
      NamesDistinct(r[1..]);
      NamesAreKeys(r[1..], r[0].0);
    }
  }

  lemma WithoutFirst(names: seq<string>, from: string, to: string)
    requires names != [] && names[0] == from && IsIndex(to)
    requires forall i, j :: 0 <= i < j < |names| ==> names[i] != names[j]
    ensures [from] + Substituted(names, from, to) == names
  {
    Unsubstituted(names[1..], from, to);
    assert [] + names[1..] == names[1..];
  }

  lemma {:induction false} Unsubstituted(names: seq<string>, from: string, to: string)
    requires from !in names
    ensures Substituted(names, from, to) == names
  {
    if names != [] {
      Unsubstituted(names[1..], from, to);
    }
  }

  // ------------------------------------------------------- mapping values

  function Mapped<V, W>(r: Rec<V>, f: V -> W): Rec<W> {
    if r == [] then [] else [(r[0].0, f(r[0].1))] + Mapped(r[1..], f)
  }

  lemma {:induction false} MappedAt<V, W>(r: Rec<V>, f: V -> W)
    ensures |Mapped(r, f)| == |r|
    ensures forall i :: 0 <= i < |r| ==> Mapped(r, f)[i] == (r[i].0, f(r[i].1))
  {
    if r != [] {
      MappedAt(r[1..], f);
    }
  }

  lemma {:induction false} MappedGet<V, W>(r: Rec<V>, f: V -> W, k: string)
    ensures Get(Mapped(r, f), k) == match Get(r, k) case None => None case Some(v) => Some(f(v))
  {
    if r != [] {
      MappedGet(r[1..], f, k);
      assert Mapped(r, f)[1..] == Mapped(r[1..], f);
    }
  }

  /** In listing order, each put lands at the end. */
  lemma {:induction false} PutAtEnd<V>(r: Rec<V>, k: string, v: V)
    requires !Has(r, k) && forall i :: 0 <= i < |r| ==> !Precedes(k, r[i].0)
    ensures Put(r, k, v) == r + [(k, v)]
  {
    if r != [] {
      assert r == [r[0]] + r[1..];
      PutAtEnd(r[1..], k, v);
    }
  }

  /** mapValues of the reducer: a new record with the same keys, in the same order. */
  method MapValues<V>(r: Rec<V>, f: V -> V) returns (next: Rec<V>)
    requires Valid(r)
    ensures next == Mapped(r, f)
  {
    MappedAt(r, f);
    next := [];
    for i := 0 to |r|
      invariant next == Mapped(r, f)[..i]
    {
      assert forall j :: 0 <= j < i ==> next[j].0 == r[j].0;
      PutAtEnd(next, r[i].0, f(r[i].1));
      next := Put(next, r[i].0, f(r[i].1));
    }
  }

  // ------------------------------------------------------- fresh names

  function Decimal(n: nat): string {
    if n < 10 then [('0' as int + n) as char] else Decimal(n / 10) + [('0' as int + n % 10) as char]
  }

  lemma {:induction false} DecimalSeparates(m: nat, n: nat)
    requires Decimal(m) == Decimal(n)
    ensures m == n
    decreases m
  {
    var a, b := Decimal(m), Decimal(n);
    assert a[|a| - 1] == b[|b| - 1] && a[..|a| - 1] == b[..|b| - 1];
    assert m >= 10 ==> a[..|a| - 1] == Decimal(m / 10) && |Decimal(m / 10)| >= 1;
    assert n >= 10 ==> b[..|b| - 1] == Decimal(n / 10) && |Decimal(n / 10)| >= 1;
    if m >= 10 && n >= 10 {
      DecimalSeparates(m / 10, n / 10);
    }
  }

  function KeySet<V>(r: Rec<V>): set<string> {
    set i | 0 <= i < |r| :: r[i].0
  }

  /** The candidates tried so far, all of them taken. */
  ghost function Tried(prefix: string, n: nat): set<string> {
    set i: nat | 1 <= i < n :: prefix + Decimal(i)
  }

  lemma {:induction false} TriedSize(prefix: string, n: nat)
    requires n >= 1
    ensures |Tried(prefix, n)| == n - 1
    decreases n
  {
    if n == 1 {
      assert Tried(prefix, 1) == {};
    } else {
      TriedSize(prefix, n - 1);
      var last := prefix + Decimal(n - 1);
      if last in Tried(prefix, n - 1) {
        var i: nat :| 1 <= i < n - 1 && prefix + Decimal(i) == last;
        assert Decimal(i) == (prefix + Decimal(i))[|prefix|..] && Decimal(n - 1) == last[|prefix|..];
        DecimalSeparates(i, n - 1);
      }
      assert Tried(prefix, n) == Tried(prefix, n - 1) + {last};
    }
  }

  lemma SubsetSize(a: set<string>, b: set<string>)
    requires a <= b
    ensures |a| <= |b|
  {
    assert b == a + (b - a);
  }

  /** The first free name prefix1, prefix2, ...; there always is one. */
  method NextName<V>(prefix: string, existing: Rec<V>) returns (name: string)
    ensures !Has(existing, name)
    ensures exists n: nat ::
              && n >= 1 && name == prefix + Decimal(n)
              && forall i: nat :: 1 <= i < n ==> Has(existing, prefix + Decimal(i))
  {
    var i: nat := 1;
    while Get(existing, prefix + Decimal(i)).Some?
      invariant i >= 1 && forall j: nat :: 1 <= j < i ==> Has(existing, prefix + Decimal(j))
      decreases |KeySet(existing)| + 1 - i
    {
      i := i + 1;
      TriedSize(prefix, i);
      assert Tried(prefix, i) <= KeySet(existing);
      SubsetSize(Tried(prefix, i), KeySet(existing));
    }
    name := prefix + Decimal(i);
  }
}
