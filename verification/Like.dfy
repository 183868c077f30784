/** The SQL LIKE predicate with backslash escapes (section 8.5 of ISO/IEC 9075-2). */
module Like {

  /** '%' matches any text, '_' any one character, '\' makes the next character literal. */
  predicate Matches(p: string, s: string)
    decreases |p| + |s|
  {
    if p == "" then s == ""
    else if p[0] == '%' then Matches(p[1..], s) || (s != "" && Matches(p, s[1..]))
    else if s == "" then false
    else if p[0] == '\\' then |p| >= 2 && p[1] == s[0] && Matches(p[2..], s[1..])
    else (p[0] == '_' || p[0] == s[0]) && Matches(p[1..], s[1..])
  }

  predicate Special(c: char) {
    c == '\\' || c == '%' || c == '_'
  }

  /** No character of t has a meaning of its own in a pattern. */
  predicate Plain(t: string) {
    forall i :: 0 <= i < |t| ==> !Special(t[i])
  }

  predicate StartsWith(s: string, t: string) {
    t <= s
  }

  predicate Contains(s: string, t: string) {
    exists i :: 0 <= i <= |s| && StartsWith(s[i..], t)
  }

  lemma {:induction false} MatchesPercent(p: string, s: string)
    ensures Matches("%" + p, s) <==> exists i :: 0 <= i <= |s| && Matches(p, s[i..])
    decreases |s|
  {
    assert ("%" + p)[1..] == p;
    assert s[0..] == s;
    if s != "" {
      MatchesPercent(p, s[1..]);
      forall i | 0 <= i <= |s[1..]| ensures s[1..][i..] == s[i + 1..] {}
      if i :| 0 <= i <= |s| && Matches(p, s[i..]) && i > 0 {
        assert Matches(p, s[1..][i - 1..]);
      }
    }
  }

  lemma MatchesAny(s: string)
    ensures Matches("%", s)
  {
    MatchesPercent("", s);
    assert "%" + "" == "%";
    assert Matches("", s[|s|..]);
  }

  /** A plain prefix of the pattern has to be found as it is. */
  lemma {:induction false} MatchesPlain(t: string, p: string, s: string)
    requires Plain(t)
    ensures Matches(t + p, s) <==> StartsWith(s, t) && Matches(p, s[|t|..])
    decreases |t|
  {
    if t == "" {
      assert t + p == p;
      assert s[0..] == s;
    } else {
      assert (t + p)[1..] == t[1..] + p;
      if s != "" {
        MatchesPlain(t[1..], p, s[1..]);
        assert s == [s[0]] + s[1..] && t == [t[0]] + t[1..];
        if |t| <= |s| {
          assert s[1..][|t| - 1..] == s[|t|..];
        }
      }
    }
  }

  /** t followed by "%" matches exactly the texts that start with t. */
  lemma PlainPrefixPattern(t: string, s: string)
    requires Plain(t)
    ensures Matches(t + "%", s) <==> StartsWith(s, t)
  {
    MatchesPlain(t, "%", s);
    if StartsWith(s, t) {
      MatchesAny(s[|t|..]);
    }
  }

  // --------------------------------------------- when a raw prefix is exact

  /** Every backslash of p has a character to escape. */
  predicate WellEscaped(p: string) {
    if p == "" then true
    else if p[0] == '\\' then |p| >= 2 && WellEscaped(p[2..])
    else WellEscaped(p[1..])
  }

  /** A text that p matches: the shortest one, with 'x' for each '_'. */
  function Sample(p: string): string {
    if p == "" then ""
    else if p[0] == '%' then Sample(p[1..])
    else if p[0] == '\\' then if |p| >= 2 then [p[1]] + Sample(p[2..]) else ""
    else if p[0] == '_' then "x" + Sample(p[1..])
    else [p[0]] + Sample(p[1..])
  }

  lemma {:induction false} SampleMatches(p: string)
    requires WellEscaped(p)
    ensures Matches(p + "%", Sample(p))
    decreases |p|
  {
    if p == "" {
      assert p + "%" == "%";
      MatchesAny("");
    } else if p[0] == '\\' {
      SampleMatches(p[2..]);
      assert (p + "%")[2..] == p[2..] + "%";
      assert Sample(p)[1..] == Sample(p[2..]);
    } else {
      SampleMatches(p[1..]);
      assert (p + "%")[1..] == p[1..] + "%";
      assert p[0] != '%' ==> Sample(p)[1..] == Sample(p[1..]);
    }
  }

  lemma {:induction false} SampleOfPlainOnly(p: string)
    ensures |Sample(p)| <= |p|
    ensures Sample(p) == p ==> Plain(p)
    decreases |p|
  {
    if p != "" {
      SampleOfPlainOnly(p[1..]);
      if p[0] == '\\' && |p| >= 2 {
        SampleOfPlainOnly(p[2..]);
      }
      if Sample(p) == p {
        assert !Special(p[0]);
        assert Sample(p)[1..] == Sample(p[1..]) && Sample(p[1..]) == p[1..];
      }
    }
  }

  /** A raw prefix pattern matches exactly its own prefix if and only if the prefix is plain. */
  lemma RawPrefixExactIffPlain(t: string)
    requires WellEscaped(t)
    ensures (forall s :: Matches(t + "%", s) <==> StartsWith(s, t)) <==> Plain(t)
  {
    if Plain(t) {
      forall s ensures Matches(t + "%", s) <==> StartsWith(s, t) {
        PlainPrefixPattern(t, s);
      }
    } else {
      SampleMatches(t);
      SampleOfPlainOnly(t);
      assert StartsWith(Sample(t), t) ==> Sample(t) == t;
      assert Matches(t + "%", Sample(t)) && !StartsWith(Sample(t), t);
    }
  }

  lemma {:induction false} DelimiterCompletesEscape(t: string)
    ensures WellEscaped(t + "||")
    decreases |t|
  {
    var p := t + "||";
    if t == "" {
      assert WellEscaped("|") by { assert "|"[1..] == ""; }
      assert p[1..] == "|";
    } else if p[0] == '\\' {
      if |t| == 1 {
        assert p[2..] == "|" && "|"[1..] == "";
      } else {
        assert p[2..] == t[2..] + "||";
        DelimiterCompletesEscape(t[2..]);
      }
    } else {
      assert p[1..] == t[1..] + "||";
      DelimiterCompletesEscape(t[1..]);
    }
  }

  // --------------------------------------------- a raw prefix, any text, and a plain suffix

  lemma {:induction false} SampleMatchesThen(p: string, q: string, r: string)
    requires WellEscaped(p) && Matches(q, r)
    ensures Matches(p + q, Sample(p) + r)
    decreases |p|
  {
    if p == "" {
      assert p + q == q && Sample(p) + r == r;
    } else if p[0] == '\\' {
      SampleMatchesThen(p[2..], q, r);
      assert (p + q)[2..] == p[2..] + q;
      ConsAppend(p[1], Sample(p[2..]), r);
    } else {
      SampleMatchesThen(p[1..], q, r);
      assert (p + q)[1..] == p[1..] + q;
      ConsAppend(if p[0] == '_' then 'x' else p[0], Sample(p[1..]), r);
    }
  }

  lemma ConsAppend(c: char, s: string, r: string)
    ensures [c] + s + r == [c] + (s + r) && ([c] + s + r)[1..] == s + r
  {
  }

  lemma MatchesWhole(u: string, s: string)
    requires Plain(u)
    ensures Matches(u, s) <==> s == u
  {
    MatchesPlain(u, "", s);
    assert u + "" == u;
    if StartsWith(s, u) {
      assert s == u + s[|u|..];
    }
  }

  lemma MatchesSuffix(u: string, s: string)
    requires Plain(u)
    ensures Matches("%" + u, s) <==> exists x :: s == x + u
  {
    MatchesPercent(u, s);
    forall i | 0 <= i <= |s| ensures Matches(u, s[i..]) <==> s == s[..i] + u {
      MatchesWhole(u, s[i..]);
      assert s == s[..i] + s[i..];
    }
    if x :| s == x + u {
      assert s[..|x|] == x;
    }
  }

  /** s is t, some text, and u. */
  ghost predicate Around(t: string, u: string, s: string) {
    StartsWith(s, t) && exists x :: s[|t|..] == x + u
  }

  /** The pattern matches exactly the texts around its '%' if and only if the raw prefix is plain. */
  lemma RawAroundExactIffPlain(t: string, u: string)
    requires WellEscaped(t) && Plain(u)
    ensures (forall s :: Matches(t + ("%" + u), s) <==> Around(t, u, s)) <==> Plain(t)
  {
    if Plain(t) {
      forall s ensures Matches(t + ("%" + u), s) <==> Around(t, u, s) {
        MatchesPlain(t, "%" + u, s);
        if StartsWith(s, t) {
          MatchesSuffix(u, s[|t|..]);
        }
      }
    } else {
      var s := Sample(t) + u;
      MatchesSuffix(u, u);
      assert u == "" + u;
      SampleMatchesThen(t, "%" + u, u);
      SampleOfPlainOnly(t);
      ShortAround(t, u, Sample(t));
    }
  }

  lemma ShortAround(t: string, u: string, v: string)
    requires |v| <= |t|
    ensures Around(t, u, v + u) ==> v == t
  {
    if Around(t, u, v + u) {
      var x :| (v + u)[|t|..] == x + u;
      assert |v| == |t| && (v + u)[..|t|] == v;
    }
  }

  /** A '_' in a plain text lets any one character through. */
  lemma MatchesHole(p: string, c: char, rest: string, s: string)
    requires Plain(p)
    ensures Matches(p + ("_" + rest), p + ([c] + s)) <==> Matches(rest, s)
  {
    MatchesPlain(p, "_" + rest, p + ([c] + s));
    assert (p + ([c] + s))[|p|..] == [c] + s;
    assert ("_" + rest)[1..] == rest && ([c] + s)[1..] == s;
  }

  /** A raw text in front of a plain one lets its sample through; a backslash at its end costs nothing. */
  lemma {:induction false} SampleBefore(s: string, t: string, q: string, r: string)
    requires Plain(t) && t != "" && Matches(q, r)
    ensures Matches(s + (t + q), Sample(s) + (t + r))
    decreases |s|
  {
    if s == "" {
      PlainOnward(t, q, r);
      assert s + (t + q) == t + q && Sample(s) + (t + r) == t + r;
    } else if s == "\\" {
      LoneBackslash(t, q, r);
      assert Sample(s) + (t + r) == t + r;
    } else if s[0] == '\\' {
      SampleBefore(s[2..], t, q, r);
      MatchesEscape(s[1], s[2..], t + q, Sample(s[2..]) + (t + r));
      ConsAppend(s[1], Sample(s[2..]), t + r);
      assert s == ['\\', s[1]] + s[2..];
    } else {
      SampleBefore(s[1..], t, q, r);
      assert (s + (t + q))[1..] == s[1..] + (t + q);
      ConsAppend(if s[0] == '_' then 'x' else s[0], Sample(s[1..]), t + r);
    }
  }

  lemma LoneBackslash(t: string, q: string, r: string)
    requires Plain(t) && t != "" && Matches(q, r)
    ensures Matches("\\" + (t + q), t + r)
  {
    PlainOnward(t[1..], q, r);
    assert ("\\" + (t + q))[2..] == t[1..] + q;
    assert (t + r)[1..] == t[1..] + r;
  }

  lemma MatchesEscape(c: char, p: string, q: string, s: string)
    requires Matches(p + q, s)
    ensures Matches(['\\', c] + p + q, [c] + s)
  {
    assert (['\\', c] + p + q)[2..] == p + q && ([c] + s)[1..] == s;
  }

  lemma PlainOnward(t: string, q: string, r: string)
    requires Plain(t) && Matches(q, r)
    ensures Matches(t + q, t + r)
  {
    MatchesPlain(t, q, t + r);
    assert (t + r)[|t|..] == r;
  }

  /** A sample adds no character but 'x', and without backslashes it is plain. */
  lemma {:induction false} SampleChars(s: string)
    ensures forall c :: c in Sample(s) ==> c in s || c == 'x'
    ensures '\\' !in s ==> Plain(Sample(s))
    ensures Plain(s) ==> Sample(s) == s
    decreases |s|
  {
    if s != "" {
      SampleChars(s[1..]);
      if s[0] == '\\' && |s| >= 2 {
        SampleChars(s[2..]);
      }
    }
  }
}
