/** Key patterns for the state browser (pkg/state/pattern.go). */
module StatePattern {
  import opened Like
  import StateKeys

  /** Each special character of s behind a backslash. */
  function Escaped(s: string): string {
    if s == "" then ""
    else if Special(s[0]) then ['\\', s[0]] + Escaped(s[1..])
    else [s[0]] + Escaped(s[1..])
  }

  lemma {:induction false} EscapedAppend(s: string, c: char)
    ensures Escaped(s + [c]) == Escaped(s) + (if Special(c) then ['\\', c] else [c])
    decreases |s|
  {
    if s == "" {
      assert s + [c] == [c] && [c][1..] == "";
    } else {
      EscapedAppend(s[1..], c);
      assert (s + [c])[1..] == s[1..] + [c];
    }
  }

  method EscapeLike(s: string) returns (b: string)
    ensures b == Escaped(s)
  {
    b := "";
    for i := 0 to |s|
      invariant b == Escaped(s[..i])
    {
      EscapedAppend(s[..i], s[i]);
      assert s[..i + 1] == s[..i] + [s[i]];
      if Special(s[i]) {
        b := b + ['\\'];
      }
      b := b + [s[i]];
    }
    assert s[..|s|] == s;
  }

  function ListPattern(appID: string, search: string): string {
    var prefix := if appID != "" then Escaped(appID) + StateKeys.DELIMITER + "%" else "%";
    if search == "" then prefix else prefix + Escaped(search) + "%"
  }

  lemma MatchesOneEscaped(c: char, p: string, s: string)
    ensures Matches((if Special(c) then ['\\', c] else [c]) + p, s) <==> s != "" && s[0] == c && Matches(p, s[1..])
  {
    var q := (if Special(c) then ['\\', c] else [c]) + p;
    assert q[|q| - |p|..] == p;
  }

  /** An escaped fragment matches itself and nothing else. */
  lemma {:induction false} MatchesEscaped(t: string, p: string, s: string)
    ensures Matches(Escaped(t) + p, s) <==> StartsWith(s, t) && Matches(p, s[|t|..])
    decreases |t|
  {
    if t == "" {
      assert Escaped(t) + p == p && s[0..] == s;
    } else {
      var rest := Escaped(t[1..]) + p;
      assert Escaped(t) + p == (if Special(t[0]) then ['\\', t[0]] else [t[0]]) + rest;
      MatchesOneEscaped(t[0], rest, s);
      if s != "" {
        MatchesEscaped(t[1..], p, s[1..]);
        assert s == [s[0]] + s[1..] && t == [t[0]] + t[1..];
        if |t| <= |s| {
          assert s[1..][|t| - 1..] == s[|t|..];
        }
      }
    }
  }

  /** The tail of a pattern that searches anywhere in the text. */
  lemma MatchesSearch(search: string, s: string)
    ensures Matches("%" + Escaped(search) + "%", s) <==> Contains(s, search)
  {
    var p := Escaped(search) + "%";
    assert "%" + Escaped(search) + "%" == "%" + p;
    MatchesPercent(p, s);
    forall i | 0 <= i <= |s| ensures Matches(p, s[i..]) <==> StartsWith(s[i..], search) {
      MatchesEscaped(search, "%", s[i..]);
      if StartsWith(s[i..], search) {
        MatchesAny(s[i..][|search|..]);
      }
    }
  }

  /**
   * The pattern selects exactly the keys of the app (all keys, for no app) whose remainder
   * contains the search text literally, whatever characters the two are made of.
   */
  lemma ListPatternSelects(appID: string, search: string, key: string)
    ensures Matches(ListPattern(appID, search), key) <==>
            (appID == "" || StartsWith(key, appID + StateKeys.DELIMITER))
            && (search == "" || Contains(if appID == "" then key else key[|appID| + 2..], search))
  {
    var tail := SearchTail(search);
    forall s ensures Matches(tail, s) <==> search == "" || Contains(s, search) {
      MatchesAny(s);
      MatchesSearch(search, s);
    }
    if appID == "" {
      assert ListPattern(appID, search) == tail;
    } else {
      assert ListPattern(appID, search) == Escaped(appID) + (StateKeys.DELIMITER + tail);
      MatchesAfterApp(appID, tail, key);
    }
  }

  function SearchTail(search: string): string {
    if search == "" then "%" else "%" + Escaped(search) + "%"
  }

  /** The app's part of the pattern takes exactly the app id and the delimiter. */
  lemma MatchesAfterApp(appID: string, tail: string, key: string)
    ensures Matches(Escaped(appID) + (StateKeys.DELIMITER + tail), key)
            <==> StartsWith(key, appID + StateKeys.DELIMITER) && Matches(tail, key[|appID| + 2..])
  {
    MatchesEscaped(appID, StateKeys.DELIMITER + tail, key);
    if StartsWith(key, appID) {
      var after := key[|appID|..];
      MatchesPlain(StateKeys.DELIMITER, tail, after);
      assert key == appID + after;
      assert StartsWith(key, appID + StateKeys.DELIMITER) <==> StartsWith(after, StateKeys.DELIMITER);
      assert StartsWith(after, StateKeys.DELIMITER) ==> after[2..] == key[|appID| + 2..];
    }
  }
}
