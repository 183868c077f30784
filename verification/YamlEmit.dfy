/** Cleaning a value before it is written as YAML: web/src/lib/yaml-emit.ts. */
module YamlEmit {
  import opened Basics
  import opened JsRecord

  /** A structured-cloneable JavaScript value. */
  datatype Value =
    | Null
    | Undefined
    | Bool(b: bool)
    | Num(n: real)
    | Str(s: string)
    | Arr(items: seq<Value>)
    | Obj(fields: Rec<Value>)

  /** The characters String.prototype.trim removes: WhiteSpace and LineTerminator of ECMA-262. */
  predicate IsSpace(c: char) {
    var n := c as int;
    || 9 <= n <= 13 || n == 32 || n == 0xA0 || n == 0x1680 || 0x2000 <= n <= 0x200A
    || n == 0x2028 || n == 0x2029 || n == 0x202F || n == 0x205F || n == 0x3000 || n == 0xFEFF
  }

  /** v.trim() === '' */
  predicate IsBlank(s: string) {
    forall i :: 0 <= i < |s| ==> IsSpace(s[i])
  }

  predicate IsEmptyContainer(v: Value) {
    (v.Arr? && v.items == []) || (v.Obj? && v.fields == [])
  }

  /** The values whose key is deleted at once. */
  predicate Dropped(v: Value) {
    v.Null? || v.Undefined? || (v.Str? && IsBlank(v.s)) || IsEmptyContainer(v)
  }

  /** What is left of one field: nothing, or the field with its cleaned value. */
  function CleanField(k: string, v: Value): Rec<Value>
    decreases v, 1
  {
    if Dropped(v) then []
    else if v.Obj? then
      var cleaned := Obj(CleanFields(v.fields));
      if IsEmptyContainer(cleaned) then [] else [(k, cleaned)]
    else [(k, v)]
  }

  function CleanFields(fields: Rec<Value>): Rec<Value>
    decreases fields, 0
  {
    if fields == [] then []
    else
      var e := fields[0];
      assert e.1 < e;
      CleanField(e.0, e.1) + CleanFields(fields[1..])
  }

  function Clean(v: Value): Value {
    if v.Obj? then Obj(CleanFields(v.fields)) else v
  }

  /** Keys are unique in every object reachable through objects. */
  ghost predicate UniqueKeys(v: Value)
    decreases v, 1
  {
    v.Obj? ==> UniqueFields(v.fields)
  }

  ghost predicate UniqueFields(fields: Rec<Value>)
    decreases fields, 0
  {
    fields == [] ||
    (var e := fields[0];
     assert e.1 < e;
     !Has(fields[1..], e.0) && UniqueKeys(e.1) && UniqueFields(fields[1..]))
  }

  // ------------------------------------------------------- the loop

  /** rec[k] = v for a key that is there. */
  function Replace(r: Rec<Value>, k: string, v: Value): Rec<Value> {
    if r == [] then [] else if r[0].0 == k then [(k, v)] + r[1..] else [r[0]] + Replace(r[1..], k, v)
  }

  /** A field in front of some others, a field k, and some more. */
  lemma FieldInFront(head: (string, Value), tail: Rec<Value>, e: (string, Value), b: Rec<Value>)
    ensures var r := [head] + tail + [e] + b;
            r == [head] + (tail + [e] + b) && r[0] == head && r[1..] == tail + [e] + b
  {
  }

  lemma {:induction false} RemoveAfterPrefix(a: Rec<Value>, k: string, v: Value, b: Rec<Value>)
    requires !Has(a, k) && !Has(b, k)
    ensures Remove(a + [(k, v)] + b, k) == a + b
  {
    if a == [] {
      assert ([(k, v)] + b)[1..] == b && [] + [(k, v)] + b == [(k, v)] + b;
      RemoveAbsent(b, k);
    } else {
      assert a == [a[0]] + a[1..];
      RemoveAfterPrefix(a[1..], k, v, b);
      FieldInFront(a[0], a[1..], (k, v), b);
      Assoc([a[0]], a[1..], b);
    }
  }

  lemma {:induction false} ReplaceAfterPrefix(a: Rec<Value>, k: string, v: Value, w: Value, b: Rec<Value>)
    requires !Has(a, k)
    ensures Replace(a + [(k, v)] + b, k, w) == a + [(k, w)] + b
    ensures Get(a + [(k, v)] + b, k) == Some(v)
  {
    if a == [] {
      assert ([(k, v)] + b)[1..] == b && [] + [(k, v)] + b == [(k, v)] + b && [] + [(k, w)] + b == [(k, w)] + b;
    } else {
      assert a == [a[0]] + a[1..];
      ReplaceAfterPrefix(a[1..], k, v, w, b);
      FieldInFront(a[0], a[1..], (k, v), b);
      FieldInFront(a[0], a[1..], (k, w), b);
    }
  }

  lemma EditAfterPrefix(a: Rec<Value>, k: string, v: Value, w: Value, b: Rec<Value>)
    requires !Has(a, k) && !Has(b, k)
    ensures Remove(a + [(k, v)] + b, k) == a + b
    ensures Replace(a + [(k, v)] + b, k, w) == a + [(k, w)] + b
    ensures Get(a + [(k, v)] + b, k) == Some(v)
  {
    RemoveAfterPrefix(a, k, v, b);
    ReplaceAfterPrefix(a, k, v, w, b);
  }

  lemma {:induction false} RemoveAbsent(r: Rec<Value>, k: string)
    requires !Has(r, k)
    ensures Remove(r, k) == r
  {
    if r != [] {
      assert r == [r[0]] + r[1..];
      RemoveAbsent(r[1..], k);
    }
  }

  lemma {:induction false} CleanKeys(fields: Rec<Value>, k: string)
    requires Has(CleanFields(fields), k)
    ensures Has(fields, k)
  {
    if fields != [] {
      assert fields == [fields[0]] + fields[1..];
      var head: Rec<Value>, rest: Rec<Value> := CleanField(fields[0].0, fields[0].1), CleanFields(fields[1..]);
      var all: Rec<Value> := head + rest;
      var i :| 0 <= i < |all| && all[i].0 == k;
      if i >= |head| {
        assert rest[i - |head|].0 == k;
        CleanKeys(fields[1..], k);
      }
    }
  }

  lemma {:induction false} CleanAppend(a: Rec<Value>, b: Rec<Value>)
    ensures CleanFields(a + b) == CleanFields(a) + CleanFields(b)
  {
    if a == [] {
      assert a + b == b;
    } else {
      CleanAppend(a[1..], b);
      assert (a + b)[1..] == a[1..] + b;
      Assoc(CleanField(a[0].0, a[0].1), CleanFields(a[1..]), CleanFields(b));
    }
  }

  lemma {:induction false} UniqueAt(fields: Rec<Value>, n: nat)
    requires UniqueFields(fields) && n < |fields|
    ensures !Has(fields[..n], fields[n].0) && !Has(fields[n + 1..], fields[n].0) && UniqueKeys(fields[n].1)
  {
    if n > 0 {
      UniqueAt(fields[1..], n - 1);
      assert fields[1..][..n - 1] == fields[1..n] && fields[1..][n..] == fields[n + 1..];
      assert fields[..n] == [fields[0]] + fields[1..n];
      assert Has(fields[1..], fields[n].0) by {
        assert fields[1..][n - 1] == fields[n];
      }
    }
  }

  /** The loop's record before round n: the first n fields cleaned, the rest as they were. */
  function Partly(fields: Rec<Value>, n: nat): Rec<Value>
    requires n <= |fields|
  {
    CleanFields(fields[..n]) + fields[n..]
  }

  /** What editing key n does to the record in round n. */
  lemma RoundEdits(fields: Rec<Value>, n: nat, w: Value)
    requires UniqueFields(fields) && n < |fields|
    ensures var (k, v) := fields[n];
            var before, after := CleanFields(fields[..n]), fields[n + 1..];
            && Get(Partly(fields, n), k) == Some(v)
            && Remove(Partly(fields, n), k) == before + after
            && Replace(Partly(fields, n), k, w) == before + [(k, w)] + after
            && Remove(before + [(k, w)] + after, k) == before + after
  {
    var (k, v) := fields[n];
    var before, after := CleanFields(fields[..n]), fields[n + 1..];
    UniqueAt(fields, n);
    if Has(before, k) {
      CleanKeys(fields[..n], k);
    }
    assert fields[n..] == [(k, v)] + after;
    assert Partly(fields, n) == before + [(k, v)] + after;
    EditAfterPrefix(before, k, v, w, after);
    EditAfterPrefix(before, k, w, w, after);
  }

  lemma CleanOne(k: string, v: Value)
    ensures CleanFields([(k, v)]) == CleanField(k, v)
  {
    var e := [(k, v)];
    assert e[0] == (k, v) && e[1..] == [];
    assert CleanFields(e) == CleanField(k, v) + [];
  }

  lemma CleanPrefix(fields: Rec<Value>, n: nat)
    requires n < |fields|
    ensures CleanFields(fields[..n + 1]) == CleanFields(fields[..n]) + CleanField(fields[n].0, fields[n].1)
  {
    assert fields[..n + 1] == fields[..n] + [fields[n]];
    CleanAppend(fields[..n], [fields[n]]);
    CleanOne(fields[n].0, fields[n].1);
  }

  /** Round n turns the record of round n into that of round n + 1. */
  lemma RoundResult(fields: Rec<Value>, n: nat)
    requires UniqueFields(fields) && n < |fields|
    ensures var (k, v) := fields[n];
            var rec := Partly(fields, n);
            && UniqueKeys(v) && Get(rec, k) == Some(v)
            && Partly(fields, n + 1)
               == if Dropped(v) then Remove(rec, k)
                  else if !v.Obj? then rec
                  else if IsEmptyContainer(Clean(v)) then Remove(Replace(rec, k, Clean(v)), k)
                  else Replace(rec, k, Clean(v))
  {
    UniqueAt(fields, n);
    RoundEdits(fields, n, Clean(fields[n].1));
    CleanPrefix(fields, n);
    PutBack(CleanFields(fields[..n]), fields, n);
  }

  /** A field that vanishes leaves its neighbours joined, one that stays is where it was. */
  lemma PutBack(before: Rec<Value>, fields: Rec<Value>, n: nat)
    requires n < |fields|
    ensures before + [] + fields[n + 1..] == before + fields[n + 1..]
    ensures before + [fields[n]] + fields[n + 1..] == before + fields[n..]
  {
    assert fields[n..] == [fields[n]] + fields[n + 1..];
  }

  /** recursivelyRemoveEmptyValues: deletes and reassigns keys of its own copy. */
  method RemoveEmptyValues(input: Value) returns (obj: Value)
    requires UniqueKeys(input)
    ensures obj == Clean(input)
    decreases input
  {
    obj := input;
    if obj.Obj? {
      var entries := obj.fields;
      var rec := entries;
      for n := 0 to |entries|
        invariant rec == Partly(entries, n)
      {
        var e := entries[n];
        assert e.1 < e;
        var key := e.0;
        RoundResult(entries, n);
        var v := Get(rec, key).value;
        if Dropped(v) {
          rec := Remove(rec, key);
        } else if v.Obj? {
          var cleaned := RemoveEmptyValues(v);
          rec := Replace(rec, key, cleaned);
          if IsEmptyContainer(cleaned) {
            rec := Remove(rec, key);
          }
        }
      }
      assert entries[..|entries|] == entries && entries[|entries|..] == [];
      obj := Obj(rec);
    }
  }

  // ------------------------------------------------------- what the pass guarantees

  /** Nothing reachable through objects is blank or an empty container. */
  ghost predicate NoBlanks(fields: Rec<Value>)
    decreases fields
  {
    fields == [] ||
    (var e := fields[0];
     assert e.1 < e;
     !Dropped(e.1) && (e.1.Obj? ==> NoBlanks(e.1.fields)) && NoBlanks(fields[1..]))
  }

  lemma {:induction false} CleanLeavesNoBlanks(fields: Rec<Value>)
    ensures NoBlanks(CleanFields(fields))
    decreases fields
  {
    if fields != [] {
      var e := fields[0];
      assert e.1 < e;
      CleanLeavesNoBlanks(fields[1..]);
      if e.1.Obj? {
        CleanLeavesNoBlanks(e.1.fields);
      }
      var head, rest := CleanField(e.0, e.1), CleanFields(fields[1..]);
      assert head == [] ==> head + rest == rest;
      assert head != [] ==> (head + rest)[1..] == rest;
    }
  }

  lemma {:induction false} CleanKeepsNoBlanks(fields: Rec<Value>)
    requires NoBlanks(fields)
    ensures CleanFields(fields) == fields
    decreases fields
  {
    if fields != [] {
      var e := fields[0];
      assert e.1 < e;
      CleanKeepsNoBlanks(fields[1..]);
      if e.1.Obj? {
        CleanKeepsNoBlanks(e.1.fields);
      }
      assert fields == [fields[0]] + fields[1..];
    }
  }

  /** Cleaning twice is cleaning once. */
  lemma CleanIsIdempotent(v: Value)
    ensures Clean(Clean(v)) == Clean(v)
  {
    if v.Obj? {
      CleanLeavesNoBlanks(v.fields);
      CleanKeepsNoBlanks(CleanFields(v.fields));
    }
  }

  /** The value reached from v by a path of object keys. */
  function At(v: Value, path: seq<string>): Option<Value>
    decreases |path|
  {
    if path == [] then Some(v)
    else if !v.Obj? then None
    else
      match Get(v.fields, path[0])
      case None => None
      case Some(w) => At(w, path[1..])
  }

  /** The value as a field: gone after cleaning, or not. */
  predicate Vanishes(v: Value) {
    Dropped(v) || (v.Obj? && CleanFields(v.fields) == [])
  }

  lemma {:induction false} CleanGet(fields: Rec<Value>, k: string)
    requires UniqueFields(fields)
    ensures Get(CleanFields(fields), k)
            == match Get(fields, k) case None => None case Some(v) => if Vanishes(v) then None else Some(Clean(v))
  {
    if fields != [] {
      var (k0, v0) := fields[0];
      var head, rest := CleanField(k0, v0), CleanFields(fields[1..]);
      CleanGet(fields[1..], k);
      assert fields == [fields[0]] + fields[1..];
      if head == [] {
        assert head + rest == rest;
      } else {
        GetCons(k0, head[0].1, rest, k);
        assert head == [(k0, head[0].1)];
      }
    }
  }

  lemma GetCons(k0: string, v0: Value, rest: Rec<Value>, k: string)
    ensures Get([(k0, v0)] + rest, k) == if k == k0 then Some(v0) else Get(rest, k)
  {
    assert ([(k0, v0)] + rest)[1..] == rest;
  }

  lemma {:induction false} UniqueGet(fields: Rec<Value>, k: string)
    requires UniqueFields(fields) && Get(fields, k).Some?
    ensures UniqueKeys(Get(fields, k).value)
  {
    if fields[0].0 != k {
      UniqueGet(fields[1..], k);
    }
  }

  predicate IsLeaf(v: Value) {
    !v.Obj? && !Dropped(v)
  }

  /** Cleaning neither loses, changes nor invents a value that is not blank and not an object. */
  lemma {:induction false} LeavesAreKept(v: Value, path: seq<string>, leaf: Value)
    requires UniqueKeys(v) && path != [] && IsLeaf(leaf)
    ensures At(v, path) == Some(leaf) <==> At(Clean(v), path) == Some(leaf)
    decreases |path|
  {
    if v.Obj? {
      CleanGet(v.fields, path[0]);
      match Get(v.fields, path[0])
      case None =>
      case Some(w) =>
        UniqueGet(v.fields, path[0]);
        if |path| > 1 && w.Obj? {
          LeavesAreKept(w, path[1..], leaf);
          if Vanishes(w) {
            assert Clean(w) == Obj([]);
          }
        }
    }
  }

  // ------------------------------------------------------- the values that clean away

  /** Nothing in the value, at any depth of objects, is worth writing. */
  predicate Blank(v: Value)
    decreases v, 1
  {
    match v
    case Null => true
    case Undefined => true
    case Bool(_) => false
    case Num(_) => false
    case Str(s) => IsBlank(s)
    case Arr(items) => items == []
    case Obj(fields) => AllBlank(fields)
  }

  predicate AllBlank(fields: Rec<Value>)
    decreases fields, 0
  {
    fields == [] ||
    (var e := fields[0];
     assert e.1 < e;
     Blank(e.1) && AllBlank(fields[1..]))
  }

  lemma {:induction false} BlankFieldsVanish(fields: Rec<Value>)
    ensures CleanFields(fields) == [] <==> AllBlank(fields)
    decreases fields
  {
    if fields != [] {
      var e := fields[0];
      assert e.1 < e;
      BlankFieldsVanish(fields[1..]);
      if e.1.Obj? {
        BlankFieldsVanish(e.1.fields);
      }
      assert CleanField(e.0, e.1) + CleanFields(fields[1..]) == [] <==>
        CleanField(e.0, e.1) == [] && CleanFields(fields[1..]) == [];
    }
  }

  /** A field cleans away exactly when its value is blank all through. */
  lemma VanishesIffBlank(v: Value)
    ensures Vanishes(v) <==> Blank(v)
  {
    if v.Obj? {
      BlankFieldsVanish(v.fields);
    }
  }

  lemma {:induction false} BlankGet(fields: Rec<Value>, k: string)
    requires AllBlank(fields) && Get(fields, k).Some?
    ensures Blank(Get(fields, k).value)
  {
    if fields[0].0 != k {
      BlankGet(fields[1..], k);
    }
  }

  lemma {:induction false} BlankHasNoLeaf(v: Value, path: seq<string>)
    requires Blank(v) && At(v, path).Some?
    ensures !IsLeaf(At(v, path).value)
    decreases |path|
  {
    if path != [] {
      BlankGet(v.fields, path[0]);
      BlankHasNoLeaf(Get(v.fields, path[0]).value, path[1..]);
    }
  }

  lemma {:induction false} FilledHasLeaf(v: Value) returns (path: seq<string>)
    requires UniqueKeys(v) && !Blank(v)
    ensures At(v, path).Some? && IsLeaf(At(v, path).value)
    decreases v, 1
  {
    path := [];
    if v.Obj? {
      path := FilledFieldsHaveLeaf(v.fields);
    }
  }

  lemma {:induction false} FilledFieldsHaveLeaf(fields: Rec<Value>) returns (path: seq<string>)
    requires UniqueFields(fields) && !AllBlank(fields)
    ensures path != [] && At(Obj(fields), path).Some? && IsLeaf(At(Obj(fields), path).value)
    decreases fields, 0
  {
    var e := fields[0];
    assert e.1 < e;
    if Blank(e.1) {
      path := FilledFieldsHaveLeaf(fields[1..]);
      assert Has(fields[1..], path[0]);
      assert Get(fields, path[0]) == Get(fields[1..], path[0]);
    } else {
      var below := FilledHasLeaf(e.1);
      path := [e.0] + below;
      assert path[1..] == below;
    }
  }

  /** In other words: no path of keys reaches a value that is not blank and not an object. */
  lemma BlankIffNoLeaf(v: Value)
    requires UniqueKeys(v)
    ensures Blank(v) <==> forall path :: At(v, path).Some? ==> !IsLeaf(At(v, path).value)
  {
    if Blank(v) {
      forall path | At(v, path).Some? ensures !IsLeaf(At(v, path).value) {
        BlankHasNoLeaf(v, path);
      }
    } else {
      var path := FilledHasLeaf(v);
    }
  }
}
