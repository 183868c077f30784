/** Following a log file: pkg/logs/tail.go. Bytes are modelled as chars. */
module LogTail {
  import opened Basics

  /** The read buffer of one poll. */
  const BUFFER: nat := 32 * 1024

  // ------------------------------------------------------- lines

  /** strings.Split(s, "\n") */
  function SplitLines(s: string): (ls: seq<string>)
    ensures ls != []
  {
    if s == "" then [""]
    else
      var rest := SplitLines(s[1..]);
      if s[0] == '\n' then [""] + rest else [[s[0]] + rest[0]] + rest[1..]
  }

  function JoinLines(ls: seq<string>): string
    requires ls != []
  {
    if |ls| == 1 then ls[0] else ls[0] + "\n" + JoinLines(ls[1..])
  }

  /** Split is the only way to cut a text at its newlines. */
  lemma {:induction false} SplitIsUnique(s: string, ls: seq<string>)
    requires ls != []
    ensures ls == SplitLines(s) <==> JoinLines(ls) == s && forall i :: 0 <= i < |ls| ==> '\n' !in ls[i]
    decreases |s| + |ls|
  {
    var own := SplitLines(s);
    SplitJoins(s);
    if JoinLines(ls) == s && forall i :: 0 <= i < |ls| ==> '\n' !in ls[i] {
      JoinSplits(ls);
    }
  }

  lemma {:induction false} SplitJoins(s: string)
    ensures JoinLines(SplitLines(s)) == s
    ensures forall i :: 0 <= i < |SplitLines(s)| ==> '\n' !in SplitLines(s)[i]
  {
    if s != "" {
      var rest := SplitLines(s[1..]);
      SplitJoins(s[1..]);
      if s[0] == '\n' {
        assert ([""] + rest)[1..] == rest;
        assert s == "" + "\n" + s[1..];
      } else {
        assert ([[s[0]] + rest[0]] + rest[1..])[1..] == rest[1..];
        assert s == [s[0]] + s[1..];
      }
    }
  }

  lemma {:induction false} PlainSplits(line: string)
    requires '\n' !in line
    ensures SplitLines(line) == [line]
  {
    if line != "" {
      PlainSplits(line[1..]);
      assert [line[0]] + line[1..] == line;
    }
  }

  lemma {:induction false} JoinSplits(ls: seq<string>)
    requires ls != [] && forall i :: 0 <= i < |ls| ==> '\n' !in ls[i]
    ensures SplitLines(JoinLines(ls)) == ls
  {
    PlainSplits(ls[0]);
    if |ls| > 1 {
      JoinSplits(ls[1..]);
      SplitAppend(ls[0], "\n" + JoinLines(ls[1..]));
      assert ls[0] + "\n" + JoinLines(ls[1..]) == ls[0] + ("\n" + JoinLines(ls[1..]));
      PrefixLine(ls[0], JoinLines(ls[1..]));
      assert ls == [ls[0]] + ls[1..];
    }
  }

  lemma {:induction false} PrefixLine(line: string, rest: string)
    requires '\n' !in line
    ensures SplitLines(line + ("\n" + rest)) == [line] + SplitLines(rest)
  {
    if line == "" {
      assert "" + ("\n" + rest) == "\n" + rest;
      assert ("\n" + rest)[1..] == rest;
    } else {
      PrefixLine(line[1..], rest);
      assert (line + ("\n" + rest))[1..] == line[1..] + ("\n" + rest);
      HeadedLine(line[0], line[1..], SplitLines(rest));
      assert [line[0]] + line[1..] == line;
    }
  }

  lemma HeadedLine(c: char, line: string, rest: seq<string>)
    ensures var ls := [line] + rest; [[c] + ls[0]] + ls[1..] == [[c] + line] + rest
  {
  }

  function Whole(ls: seq<string>): seq<string>
    requires ls != []
  {
    ls[..|ls| - 1]
  }

  function Last(ls: seq<string>): string
    requires ls != []
  {
    ls[|ls| - 1]
  }

  /** Splitting in two goes: the last piece of the first part is cut on with the second. */
  lemma {:induction false} SplitAppend(a: string, b: string)
    ensures SplitLines(a + b) == Whole(SplitLines(a)) + SplitLines(Last(SplitLines(a)) + b)
  {
    if a == "" {
      assert "" + b == b;
    } else {
      var rest := SplitLines(a[1..]);
      var tail := SplitLines(Last(rest) + b);
      SplitAppend(a[1..], b);
      assert (a + b)[1..] == a[1..] + b;
      if a[0] == '\n' {
        SplitNewline(rest, tail);
      } else {
        SplitHead(a[0], rest, b);
      }
    }
  }

  lemma SplitNewline(rest: seq<string>, tail: seq<string>)
    requires rest != []
    ensures [""] + (Whole(rest) + tail) == Whole([""] + rest) + tail && Last([""] + rest) == Last(rest)
  {
    assert Whole([""] + rest) == [""] + Whole(rest);
  }

  lemma SplitHead(c: char, rest: seq<string>, b: string)
    requires rest != [] && c != '\n'
    ensures var all := Whole(rest) + SplitLines(Last(rest) + b);
            var ls := [[c] + rest[0]] + rest[1..];
            [[c] + all[0]] + all[1..] == Whole(ls) + SplitLines(Last(ls) + b)
  {
    var all := Whole(rest) + SplitLines(Last(rest) + b);
    var ls := [[c] + rest[0]] + rest[1..];
    if |rest| == 1 {
      assert ([c] + rest[0] + b)[1..] == rest[0] + b;
    } else {
      assert Whole(ls) == [[c] + rest[0]] + Whole(rest)[1..];
    }
  }

  // ------------------------------------------------------- the tailer

  /** The lines of the file at the start, without the empty piece after a final newline. */
  function FileLines(data: string): seq<string> {
    var ls := SplitLines(data);
    if Last(ls) == "" then Whole(ls) else ls
  }

  function Backfill(data: string, k: nat): seq<string> {
    var ls := FileLines(data);
    if |ls| > k then ls[|ls| - k..] else ls
  }

  /** Each line with a newline after it. */
  function Terminated(ls: seq<string>): string {
    if ls == [] then "" else ls[0] + "\n" + Terminated(ls[1..])
  }

  lemma {:induction false} WholeIsTerminated(ls: seq<string>)
    requires ls != []
    ensures Terminated(Whole(ls)) + Last(ls) == JoinLines(ls)
  {
    if |ls| > 1 {
      WholeIsTerminated(ls[1..]);
      assert Whole(ls)[1..] == Whole(ls[1..]) && Whole(ls)[0] == ls[0];
      assert Terminated(Whole(ls)) + Last(ls) == ls[0] + "\n" + (Terminated(Whole(ls[1..])) + Last(ls[1..]));
    }
  }

  lemma {:induction false} TerminatedAppend(ls: seq<string>, line: string)
    ensures Terminated(ls + [line]) == Terminated(ls) + (line + "\n")
  {
    if ls == [] {
      assert [line][1..] == [] && [] + [line] == [line];
    } else {
      TerminatedAppend(ls[1..], line);
      assert (ls + [line])[1..] == ls[1..] + [line];
    }
  }

  /** The lines of a file, each ended, are the file, with a last newline if it had none; none holds a newline. */
  lemma FileLinesAre(data: string)
    ensures var ls := FileLines(data);
            && (forall i :: 0 <= i < |ls| ==> '\n' !in ls[i])
            && Terminated(ls) == if data == "" || data[|data| - 1] == '\n' then data else data + "\n"
  {
    var all := SplitLines(data);
    SplitJoins(data);
    WholeIsTerminated(all);
    LastPiece(data);
    if Last(all) == "" {
      assert Terminated(Whole(all)) + "" == Terminated(Whole(all));
    } else {
      assert all == Whole(all) + [Last(all)];
      TerminatedAppend(Whole(all), Last(all));
    }
  }

  /** The backfill is the last k lines of the file, or all if there are fewer. */
  lemma BackfillIsLast(data: string, k: nat)
    ensures |Backfill(data, k)| == if |FileLines(data)| < k then |FileLines(data)| else k
    ensures exists skipped :: FileLines(data) == skipped + Backfill(data, k)
  {
    var ls := FileLines(data);
    assert ls == ls[..|ls| - |Backfill(data, k)|] + Backfill(data, k);
  }

  datatype Tail = Tail(offset: nat, carry: string, sent: seq<string>, stopped: bool)

  function Start(data: string, k: nat): Tail {
    Tail(|data|, "", Backfill(data, k), false)
  }

  /** One tick: the size Stat reported, the bytes ReadAt gave, and whether it failed other than by end of file. */
  datatype Poll = Poll(size: Option<nat>, read: string, failed: bool)

  /** A file that shrank is read from its beginning again. */
  function Reset(t: Tail, size: Option<nat>): Tail {
    if size.Some? && size.value < t.offset then t.(offset := 0, carry := "") else t
  }

  function Take(t: Tail, read: string): Tail {
    var parts := SplitLines(t.carry + read);
    Tail(t.offset + |read|, Last(parts), t.sent + Whole(parts), false)
  }

  function Step(t: Tail, p: Poll): Tail {
    if t.stopped then t
    else if p.read == "" then Reset(t, p.size).(stopped := p.failed)
    else Take(Reset(t, p.size), p.read)
  }

  /** The object: its fields, and the channel as the list of lines sent. */
  class Tailer {
    var offset: nat
    var carry: string
    var sent: seq<string>
    var stopped: bool

    function View(): Tail
      reads this
    {
      Tail(offset, carry, sent, stopped)
    }

    constructor (data: string, k: nat)
      ensures View() == Start(data, k)
    {
      offset, carry, stopped := |data|, "", false;
      var lines := SplitLines(data);
      if |lines| > 0 && lines[|lines| - 1] == "" {
        lines := lines[..|lines| - 1];
      }
      if |lines| > k {
        lines := lines[|lines| - k..];
      }
      sent := lines;
    }

    /** One tick of the loop. */
    method Tick(p: Poll)
      modifies this
      ensures View() == Step(old(View()), p)
    {
      if stopped {
        return;
      }
      if p.size.Some? && p.size.value < offset {
        offset, carry := 0, "";
      }
      var n := |p.read|;
      if n == 0 {
        stopped := p.failed;
        return;
      }
      var chunk := carry + p.read;
      carry := "";
      offset := offset + n;
      var parts := SplitLines(chunk);
      ghost var before := sent;
      for i := 0 to |parts|
        invariant sent == before + parts[..if i < |parts| then i else |parts| - 1]
        invariant i < |parts| ==> carry == ""
        invariant i == |parts| ==> carry == Last(parts)
        invariant offset == Reset(old(View()), p.size).offset + n && !stopped
      {
        if i == |parts| - 1 {
          if parts[i] != "" {
            carry := parts[i];
          }
        } else {
          sent := sent + [parts[i]];
        }
      }
    }
  }

  // ------------------------------------------------------- what is sent

  /** Everything read since the last reset, cut at newlines: the lines sent since, then the carry. */
  ghost predicate Lossless(t: Tail, before: seq<string>, bytes: string) {
    t.sent + [t.carry] == before + SplitLines(bytes)
  }

  lemma TakeIsLossless(t: Tail, before: seq<string>, bytes: string, read: string)
    requires Lossless(t, before, bytes)
    ensures Lossless(Take(t, read), before, bytes + read)
  {
    var ls := SplitLines(bytes);
    SplitAppend(bytes, read);
    SameLast(t.sent, t.carry, before, ls);
    Assoc(before, Whole(ls), SplitLines(t.carry + read));
    WholeAndLast(t.sent, SplitLines(t.carry + read));
  }

  lemma SameLast(sent: seq<string>, carry: string, before: seq<string>, ls: seq<string>)
    requires ls != [] && sent + [carry] == before + ls
    ensures sent == before + Whole(ls) && carry == Last(ls)
  {
    assert (sent + [carry])[|sent|] == carry && (before + ls)[|sent|] == Last(ls);
    assert sent == (sent + [carry])[..|sent|] == (before + ls)[..|sent|];
  }

  lemma WholeAndLast(sent: seq<string>, parts: seq<string>)
    requires parts != []
    ensures sent + Whole(parts) + [Last(parts)] == sent + parts
  {
  }

  /** What a tick sees of a file: its contents, whether Stat worked, and how much ReadAt gave. */
  datatype Look = Look(file: string, statted: bool, n: nat)

  function Min(a: nat, b: nat): nat {
    if a <= b then a else b
  }

  function See(t: Tail, l: Look): Poll {
    var size := if l.statted then Some(|l.file|) else None;
    var from := Reset(t, size).offset;
    if from <= |l.file| then Poll(size, l.file[from..from + Min(Min(l.n, BUFFER), |l.file| - from)], false)
    else Poll(size, "", false)
  }

  function Follow(t: Tail, looks: seq<Look>): Tail
    decreases |looks|
  {
    if looks == [] then t else Follow(Step(t, See(t, looks[0])), looks[1..])
  }

  /** Each look finds what the one before found, and perhaps more. */
  ghost predicate Grows(file: string, looks: seq<Look>)
    decreases |looks|
  {
    looks == [] || (file <= looks[0].file && Grows(looks[0].file, looks[1..]))
  }

  function LastFile(file: string, looks: seq<Look>): string
    decreases |looks|
  {
    if looks == [] then file else LastFile(looks[0].file, looks[1..])
  }

  lemma {:induction false} GrowsToLast(file: string, looks: seq<Look>)
    requires Grows(file, looks)
    ensures file <= LastFile(file, looks)
    decreases |looks|
  {
    if looks != [] {
      GrowsToLast(looks[0].file, looks[1..]);
    }
  }

  lemma LookTakes(t: Tail, start: nat, before: seq<string>, file: string, l: Look)
    requires start <= t.offset <= |file| && file <= l.file && !t.stopped
    requires Lossless(t, before, file[start..t.offset])
    ensures var t' := Step(t, See(t, l));
            t.offset <= t'.offset <= |l.file| && !t'.stopped && Lossless(t', before, l.file[start..t'.offset])
            && (l.n > 0 && |l.file| > t.offset ==> t'.offset > t.offset)
  {
    SeesNext(t, l);
    var p := See(t, l);
    TakeIsLossless(t, before, file[start..t.offset], p.read);
    SliceGrows(file, l.file, start, t.offset, |p.read|);
  }

  /** A look at a file that has not shrunk: no reset, and the next bytes are read. */
  lemma SeesNext(t: Tail, l: Look)
    requires t.offset <= |l.file| && !t.stopped
    ensures var p := See(t, l);
            && Reset(t, p.size) == t && !p.failed
            && t.offset + |p.read| <= |l.file| && p.read == l.file[t.offset..t.offset + |p.read|]
            && Step(t, p) == (if p.read == "" then t else Take(t, p.read))
            && (l.n > 0 && |l.file| > t.offset ==> p.read != "")
  {
  }

  lemma SliceGrows(file: string, more: string, start: nat, from: nat, n: nat)
    requires start <= from <= |file| && file <= more && from + n <= |more|
    ensures file[start..from] == more[start..from]
    ensures file[start..from] + more[from..from + n] == more[start..from + n]
  {
  }

  lemma {:induction false} FollowIsLossless(t: Tail, start: nat, before: seq<string>, file: string, looks: seq<Look>)
    requires start <= t.offset <= |file| && !t.stopped && Grows(file, looks)
    requires Lossless(t, before, file[start..t.offset])
    ensures var t' := Follow(t, looks);
            var last := LastFile(file, looks);
            start <= t'.offset <= |last| && !t'.stopped && Lossless(t', before, last[start..t'.offset])
    decreases |looks|
  {
    if looks != [] {
      LookTakes(t, start, before, file, looks[0]);
      FollowIsLossless(Step(t, See(t, looks[0])), start, before, looks[0].file, looks[1..]);
    }
  }

  /**
   * On a file that only grows: the backfill, then the newline split of every byte read after
   * it, whatever sizes the reads had. The last piece of the split is the carry.
   */
  lemma TailSendsTheSplit(data: string, k: nat, looks: seq<Look>)
    requires Grows(data, looks)
    ensures var t := Follow(Start(data, k), looks);
            var file := LastFile(data, looks);
            && |data| <= t.offset <= |file|
            && t.sent + [t.carry] == Backfill(data, k) + SplitLines(file[|data|..t.offset])
  {
    var t := Start(data, k);
    assert data[|data|..|data|] == "";
    assert Lossless(t, Backfill(data, k), "");
    FollowIsLossless(t, |data|, Backfill(data, k), data, looks);
  }

  /** Two tailers of one file that have read equally far have sent the same and carry the same. */
  lemma ChunksDoNotMatter(data: string, k: nat, looks: seq<Look>, others: seq<Look>)
    requires Grows(data, looks) && Grows(data, others) && LastFile(data, looks) == LastFile(data, others)
    requires Follow(Start(data, k), looks).offset == Follow(Start(data, k), others).offset
    ensures Follow(Start(data, k), looks) == Follow(Start(data, k), others)
  {
    var t, u := Follow(Start(data, k), looks), Follow(Start(data, k), others);
    TailSendsTheSplit(data, k, looks);
    TailSendsTheSplit(data, k, others);
    var all, all' := t.sent + [t.carry], u.sent + [u.carry];
    assert all == all';
    assert Last(all) == t.carry && Last(all') == u.carry && Whole(all) == t.sent && Whole(all') == u.sent;
    FollowIsLossless(Start(data, k), |data|, Backfill(data, k), data, looks) by {
      assert data[|data|..|data|] == "";
    }
    FollowIsLossless(Start(data, k), |data|, Backfill(data, k), data, others) by {
      assert data[|data|..|data|] == "";
    }
  }

  /** A failed read that gave no bytes stops the tail for good; nothing else does. */
  lemma StopsOnFailure(t: Tail, p: Poll)
    requires !t.stopped
    ensures Step(t, p).stopped <==> p.failed && p.read == ""
    ensures p.read == "" ==> Step(t, p).sent == t.sent
    ensures Step(t.(stopped := true), p) == t.(stopped := true)
  {
  }

  /** A file seen shorter than the offset starts over: nothing of the old contents is carried on. */
  lemma TruncationStartsOver(t: Tail, file: string, n: nat)
    requires !t.stopped && |file| < t.offset
    ensures var t' := Step(t, See(t, Look(file, true, n)));
            && t'.offset <= |file|
            && Lossless(t', t.sent, file[..t'.offset])
  {
    var l := Look(file, true, n);
    var r := Reset(t, Some(|file|));
    assert Lossless(r, t.sent, "");
    var p := See(t, l);
    TakeIsLossless(r, t.sent, "", p.read);
    assert "" + p.read == file[..|p.read|];
  }

  // ------------------------------------------------------- against the lines of the whole file

  /** An unfinished last line, if there is one. */
  function Rest(carry: string): seq<string> {
    if carry == "" then [] else [carry]
  }

  predicate EndsLine(s: string) {
    s == "" || s[|s| - 1] == '\n'
  }

  lemma {:induction false} LastPiece(s: string)
    ensures Last(SplitLines(s)) == "" <==> EndsLine(s)
    ensures '\n' !in Last(SplitLines(s))
  {
    if s != "" {
      var rest := SplitLines(s[1..]);
      LastPiece(s[1..]);
      if |s| == 1 {
        assert rest == [""];
      } else {
        assert s[1..][|s| - 2] == s[|s| - 1];
        LastOfSplit(s[0], rest);
        assert rest == [rest[0]] ==> '\n' !in s[1..] by {
          SplitJoins(s[1..]);
          assert rest == [rest[0]] ==> JoinLines(rest) == rest[0];
        }
      }
    }
  }

  lemma LastOfSplit(c: char, rest: seq<string>)
    requires rest != []
    ensures Last([""] + rest) == Last(rest)
    ensures |rest| > 1 ==> Last([[c] + rest[0]] + rest[1..]) == Last(rest)
    ensures |rest| == 1 ==> Last([[c] + rest[0]] + rest[1..]) == [c] + Last(rest)
  {
  }

  lemma {:induction false} SplitAfterPlain(line: string, x: string)
    requires '\n' !in line
    ensures SplitLines(line + x) == [line + SplitLines(x)[0]] + SplitLines(x)[1..]
  {
    if line == "" {
      assert "" + x == x && "" + SplitLines(x)[0] == SplitLines(x)[0];
      assert [SplitLines(x)[0]] + SplitLines(x)[1..] == SplitLines(x);
    } else {
      SplitAfterPlain(line[1..], x);
      assert (line + x)[1..] == line[1..] + x;
      assert [line[0]] + (line[1..] + SplitLines(x)[0]) == line + SplitLines(x)[0];
    }
  }

  function Trimmed(ls: seq<string>): seq<string>
    requires ls != []
  {
    Whole(ls) + Rest(Last(ls))
  }

  lemma TrimmedIs(ls: seq<string>)
    requires ls != []
    ensures Trimmed(ls) == if Last(ls) == "" then Whole(ls) else ls
    ensures |Trimmed(ls)| == if Last(ls) == "" then |ls| - 1 else |ls|
  {
    assert Whole(ls) + [Last(ls)] == ls;
  }

  /** An unfinished line runs on into what follows it. */
  lemma UnfinishedRunsOn(line: string, x: string)
    requires line != "" && '\n' !in line && x != ""
    ensures Trimmed(SplitLines(line + x)) != [line] + Trimmed(SplitLines(x))
  {
    var own, joined := SplitLines(x), SplitLines(line + x);
    SplitAfterPlain(line, x);
    TrimmedIs(own);
    TrimmedIs(joined);
    if own[0] == "" {
      assert |own| >= 2;
      assert Last(joined) == Last(own);
    } else {
      assert joined[0] != line;
      assert Trimmed(joined) != [] && Trimmed(joined)[0] == joined[0];
    }
  }

  lemma TrimmedAppend(a: seq<string>, ls: seq<string>)
    requires ls != []
    ensures Trimmed(a + ls) == a + Trimmed(ls)
  {
    assert Whole(a + ls) == a + Whole(ls) && Last(a + ls) == Last(ls);
    Assoc(a, Whole(ls), Rest(Last(ls)));
  }

  /**
   * Lines taken from two parts of a file are the lines of the file exactly when the first part
   * ends a line or the second is empty.
   */
  lemma LinesInTwoGoes(data: string, x: string)
    ensures Trimmed(SplitLines(data)) + Trimmed(SplitLines(x)) == Trimmed(SplitLines(data + x)) <==>
      EndsLine(data) || x == ""
  {
    var d := SplitLines(data);
    var line := Last(d);
    LastPiece(data);
    SplitAppend(data, x);
    TrimmedAppend(Whole(d), SplitLines(line + x));
    if line == "" {
      assert "" + x == x && Whole(d) + [] == Whole(d);
    } else if x == "" {
      assert data + x == data && Trimmed([""]) == [];
    } else {
      UnfinishedRunsOn(line, x);
      Assoc(Whole(d), [line], Trimmed(SplitLines(x)));
      SamePrefix(Whole(d), Trimmed(SplitLines(line + x)), [line] + Trimmed(SplitLines(x)));
    }
  }

  lemma SamePrefix(a: seq<string>, b: seq<string>, c: seq<string>)
    ensures a + b == a + c <==> b == c
  {
    assert (a + b)[|a|..] == b && (a + c)[|a|..] == c;
  }

  /** The lines of the file that the backfill leaves out. */
  function Skipped(data: string, k: nat): seq<string> {
    FileLines(data)[..|FileLines(data)| - |Backfill(data, k)|]
  }

  lemma SentAreFileLinesIff(data: string, k: nat, x: string, sent: seq<string>, carry: string)
    requires sent + [carry] == Backfill(data, k) + SplitLines(x)
    ensures Skipped(data, k) + sent + Rest(carry) == FileLines(data + x) <==> EndsLine(data) || x == ""
  {
    var ls, back := SplitLines(x), Backfill(data, k);
    SameLast(sent, carry, back, ls);
    assert Skipped(data, k) + back == FileLines(data);
    PiecesAdd(Skipped(data, k), back, ls);
    LinesInTwoGoes(data, x);
    TrimmedIs(SplitLines(data));
    TrimmedIs(SplitLines(data + x));
  }

  /**
   * The lines before the backfill, those sent and an unfinished rest are the lines of the file
   * as far as it was read if and only if the file ended a line at the start, or nothing was read
   * after it: otherwise the backfill sends the unfinished line and its rest comes as another.
   */
  lemma TailSendsFileLinesIff(data: string, k: nat, looks: seq<Look>)
    requires Grows(data, looks)
    ensures var t, file := Follow(Start(data, k), looks), LastFile(data, looks);
            && |data| <= t.offset <= |file|
            && (Skipped(data, k) + t.sent + Rest(t.carry) == FileLines(file[..t.offset]) <==>
                 EndsLine(data) || t.offset == |data|)
  {
    var t, file := Follow(Start(data, k), looks), LastFile(data, looks);
    TailSendsTheSplit(data, k, looks);
    GrowsToLast(data, looks);
    ReadAfter(data, file, t.offset);
    SentAreFileLinesIff(data, k, file[|data|..t.offset], t.sent, t.carry);
  }

  lemma ReadAfter(data: string, file: string, n: nat)
    requires data <= file && |data| <= n <= |file|
    ensures file[..n] == data + file[|data|..n]
    ensures file[|data|..n] == "" <==> n == |data|
  {
  }

  lemma PiecesAdd(skipped: seq<string>, back: seq<string>, ls: seq<string>)
    requires ls != []
    ensures skipped + (back + Whole(ls)) + Rest(Last(ls)) == (skipped + back) + Trimmed(ls)
  {
    Assoc(skipped, back, Whole(ls));
    Assoc(skipped + back, Whole(ls), Rest(Last(ls)));
  }
}
