/**
 * The flat-file format of the two collections, as pure functions on lines.
 * A voter is saved as `id,name,age,hasVoted`, a candidate as `id,name,voteCount`;
 * loading splits each line on commas, skips a line with the wrong number of
 * fields, and lets a later line overwrite an earlier one with the same id.
 * Files are sequences of lines here: an absent file is the empty sequence.
 */
module Persistence {
  import opened Wrappers
  import opened Decimal
  import opened VoterModel
  import opened CandidateModel
  import opened Iteration

  // ----- String.split(",") -----

  /** All comma-separated fields of `s`, empty ones included. */
  function SplitFields(s: string): (fields: seq<string>)
    ensures |fields| >= 1
    ensures forall i :: 0 <= i < |fields| ==> ',' !in fields[i]
  {
    if s == [] then [""]
    else if s[0] == ',' then [""] + SplitFields(s[1..])
    else
      var rest := SplitFields(s[1..]);
      [[s[0]] + rest[0]] + rest[1..]
  }

  function DropTrailingEmpty(fields: seq<string>): (r: seq<string>)
    ensures |r| <= |fields| && r == fields[..|r|]
    ensures r != [] ==> r[|r| - 1] != ""
  {
    if fields != [] && fields[|fields| - 1] == "" then DropTrailingEmpty(fields[..|fields| - 1]) else fields
  }

  /**
   * Java's `s.split(",")`: a string without a comma is its own single field;
   * otherwise the fields between commas, with trailing empty fields dropped.
   */
  function Split(s: string): (parts: seq<string>)
    ensures forall i :: 0 <= i < |parts| ==> ',' !in parts[i]
  {
    if ',' in s then DropTrailingEmpty(SplitFields(s)) else [s]
  }

  lemma {:induction false} SplitFieldsSingle(a: string)
    requires ',' !in a
    ensures SplitFields(a) == [a]
  {
    if a != [] {
      SplitFieldsSingle(a[1..]);
      assert [a[0]] + a[1..] == a;
    }
  }

  lemma {:induction false} SplitFieldsJoin(a: string, b: string)
    requires ',' !in a
    ensures SplitFields(a + [','] + b) == [a] + SplitFields(b)
  {
    var s := a + [','] + b;
    if a == [] {
      assert s == [','] + b;
      assert s[1..] == b;
    } else {
      assert s[0] == a[0] && s[1..] == a[1..] + [','] + b;
      SplitFieldsJoin(a[1..], b);
      assert [a[0]] + a[1..] == a;
    }
  }

  /** Fields joined with commas, as the save methods concatenate them. */
  function Join(fields: seq<string>): string
    requires |fields| >= 1
  {
    if |fields| == 1 then fields[0] else fields[0] + "," + Join(fields[1..])
  }

  lemma {:induction false} SplitFieldsJoined(fields: seq<string>)
    requires |fields| >= 1
    requires forall i :: 0 <= i < |fields| ==> ',' !in fields[i]
    ensures SplitFields(Join(fields)) == fields
  {
    if |fields| == 1 {
      SplitFieldsSingle(fields[0]);
    } else {
      SplitFieldsJoined(fields[1..]);
      SplitFieldsJoin(fields[0], Join(fields[1..]));
      assert [fields[0]] + fields[1..] == fields;
    }
  }

  /** Splitting comma-free fields joined by commas, the last one not empty, gives those fields back. */
  lemma SplitJoined(fields: seq<string>)
    requires |fields| >= 2
    requires forall i :: 0 <= i < |fields| ==> ',' !in fields[i]
    requires fields[|fields| - 1] != ""
    ensures Split(Join(fields)) == fields
  {
    var s := Join(fields);
    assert s[|fields[0]|] == ',';
    SplitFieldsJoined(fields);
  }

  // ----- Boolean text -----

  function BoolToString(b: bool): string {
    if b then "true" else "false"
  }

  function LowerAscii(ch: char): char {
    if 'A' <= ch <= 'Z' then (ch as int + 32) as char else ch
  }

  /** `Boolean.parseBoolean`: true exactly for "true" in any mix of (ASCII) letter case. */
  function ParseBool(s: string): (b: bool)
    ensures b ==> |s| == 4
    ensures s == "true" ==> b
    ensures s == "false" ==> !b
  {
    |s| == 4 && LowerAscii(s[0]) == 't' && LowerAscii(s[1]) == 'r' &&
    LowerAscii(s[2]) == 'u' && LowerAscii(s[3]) == 'e'
  }

  // ----- One line -----

  /** What reading one line yields: nothing, a record, or the parse error that aborts loading. */
  datatype LineResult<T> = Skipped | Parsed(rec: T) | BadNumber

  /** `id,name,age,hasVoted`. */
  function FormatVoter(v: VoterRecord): string {
    Join([v.id, v.name, IntToString(v.age), BoolToString(v.hasVoted)])
  }

  /** `id,name,voteCount`. */
  function FormatCandidate(c: CandidateRecord): string {
    Join([c.id, c.name, IntToString(c.voteCount)])
  }

  function ParseVoterLine(line: string): (r: LineResult<VoterRecord>)
    ensures r.Skipped? <==> |Split(line)| != 4
    ensures r.Parsed? ==> r.rec.id == Split(line)[0] && r.rec.name == Split(line)[1]
    ensures r.BadNumber? <==> |Split(line)| == 4 && ParseInt(Split(line)[2]).None?
    ensures r.Parsed? ==> Some(r.rec.age) == ParseInt(Split(line)[2]) && r.rec.hasVoted == ParseBool(Split(line)[3])
    ensures r.Parsed? ==> ',' !in r.rec.id && ',' !in r.rec.name && InInt32(r.rec.age)
  {
    var parts := Split(line);
    if |parts| != 4 then Skipped
    else
      match ParseInt(parts[2])
      case None => BadNumber
      case Some(age) => Parsed(VoterRecord(parts[0], parts[1], age, ParseBool(parts[3])))
  }

  /** The stored count is returned as read; loading then replays that many increments. */
  function ParseCandidateLine(line: string): (r: LineResult<CandidateRecord>)
    ensures r.Skipped? <==> |Split(line)| != 3
    ensures r.Parsed? ==> r.rec.id == Split(line)[0] && r.rec.name == Split(line)[1]
    ensures r.BadNumber? <==> |Split(line)| == 3 && ParseInt(Split(line)[2]).None?
    ensures r.Parsed? ==> Some(r.rec.voteCount) == ParseInt(Split(line)[2])
    ensures r.Parsed? ==> ',' !in r.rec.id && ',' !in r.rec.name && InInt32(r.rec.voteCount)
  {
    var parts := Split(line);
    if |parts| != 3 then Skipped
    else
      match ParseInt(parts[2])
      case None => BadNumber
      case Some(n) => Parsed(CandidateRecord(parts[0], parts[1], n))
  }

  /** The count left by `n` calls of the increment on a new candidate (none when `n` is negative). */
  function ReplayedCount(n: int): nat {
    if n > 0 then n else 0
  }

  /** A record that can be saved and read back: comma-free text, an `int` age. */
  predicate SaveableVoter(v: VoterRecord) {
    ',' !in v.id && ',' !in v.name && InInt32(v.age)
  }

  /** A candidate that can be saved and read back: comma-free text, an `int` count that is not negative. */
  predicate SaveableCandidate(c: CandidateRecord) {
    ',' !in c.id && ',' !in c.name && 0 <= c.voteCount <= IntMax
  }

  lemma VoterLineRoundTrip(v: VoterRecord)
    requires SaveableVoter(v)
    ensures ParseVoterLine(FormatVoter(v)) == Parsed(v)
  {
    var fields := [v.id, v.name, IntToString(v.age), BoolToString(v.hasVoted)];
    SplitJoined(fields);
    ParseIntRoundTrip(v.age);
  }

  lemma CandidateLineRoundTrip(c: CandidateRecord)
    requires ',' !in c.id && ',' !in c.name && InInt32(c.voteCount)
    ensures ParseCandidateLine(FormatCandidate(c)) == Parsed(c)
  {
    var fields := [c.id, c.name, IntToString(c.voteCount)];
    SplitJoined(fields);
    ParseIntRoundTrip(c.voteCount);
  }

  /** Splitting at one comma splits the text before it and the text after it separately. */
  lemma {:induction false} SplitFieldsAt(x: string, t: string)
    ensures SplitFields(x + [','] + t) == SplitFields(x) + SplitFields(t)
    decreases |x|
  {
    if x == [] {
      assert x + [','] + t == [','] + t;
      assert ([','] + t)[1..] == t;
    } else {
      var s := x + [','] + t;
      assert s[0] == x[0] && s[1..] == x[1..] + [','] + t;
      SplitFieldsAt(x[1..], t);
    }
  }

  /** A text holding a comma splits into at least two fields. */
  lemma {:induction false} SplitFieldsOfComma(x: string)
    requires ',' in x
    ensures |SplitFields(x)| >= 2
    decreases |x|
  {
    if x[0] != ',' {
      SplitFieldsOfComma(x[1..]);
    }
  }

  /** A split whose last field is not empty drops nothing. */
  lemma SplitKeepsAll(s: string)
    requires ',' in s
    requires SplitFields(s)[|SplitFields(s)| - 1] != ""
    ensures Split(s) == SplitFields(s)
  {
  }

  /** The fields of `a,b,tail`: those of `a`, then those of `b`, then `tail`. */
  lemma SplitFieldsOfThree(a: string, b: string, tail: seq<string>)
    requires |tail| >= 1
    requires forall i :: 0 <= i < |tail| ==> ',' !in tail[i]
    ensures SplitFields(a + "," + (b + "," + Join(tail))) == SplitFields(a) + (SplitFields(b) + tail)
  {
    var rest := b + [','] + Join(tail);
    assert a + "," + (b + "," + Join(tail)) == a + [','] + rest;
    SplitFieldsAt(a, rest);
    SplitFieldsAt(b, Join(tail));
    SplitFieldsJoined(tail);
  }

  /**
   * Splitting `a,b,tail`, where the fields of `tail` are known and end in a
   * non-empty one, gives at least one field more than expected once `a` or `b`
   * holds a comma.
   */
  lemma SplitWithCommaInText(a: string, b: string, tail: seq<string>)
    requires |tail| >= 1 && tail[|tail| - 1] != ""
    requires forall i :: 0 <= i < |tail| ==> ',' !in tail[i]
    requires ',' in a || ',' in b
    ensures |Split(a + "," + (b + "," + Join(tail)))| >= |tail| + 3
  {
    var s := a + "," + (b + "," + Join(tail));
    SplitFieldsOfThree(a, b, tail);
    if ',' in a { SplitFieldsOfComma(a); } else { SplitFieldsOfComma(b); }
    assert s[|a|] == ',';
    SplitKeepsAll(s);
  }

  /**
   * Registration does not reject commas, and a voter whose id or name holds one
   * is saved as more than four fields: loading skips that line, so the voter is
   * lost on reload.
   */
  lemma CommaInVoterIsLost(v: VoterRecord)
    requires ',' in v.id || ',' in v.name
    ensures ParseVoterLine(FormatVoter(v)).Skipped?
  {
    var tail := [IntToString(v.age), BoolToString(v.hasVoted)];
    assert FormatVoter(v) == v.id + "," + (v.name + "," + Join(tail)) by {
      var saved := [v.id, v.name, tail[0], tail[1]];
      assert saved[1..] == [v.name, tail[0], tail[1]];
      assert Join(saved[1..]) == v.name + "," + Join(tail) by {
        assert saved[1..][1..] == tail;
      }
    }
    SplitWithCommaInText(v.id, v.name, tail);
  }

  /** The same for a candidate: a comma in its id or name makes its saved line skipped on reload. */
  lemma CommaInCandidateIsLost(c: CandidateRecord)
    requires ',' in c.id || ',' in c.name
    ensures ParseCandidateLine(FormatCandidate(c)).Skipped?
  {
    var tail := [IntToString(c.voteCount)];
    assert FormatCandidate(c) == c.id + "," + (c.name + "," + Join(tail)) by {
      var saved := [c.id, c.name, tail[0]];
      assert saved[1..] == [c.name, tail[0]];
      assert Join(saved[1..]) == c.name + "," + Join(tail) by {
        assert saved[1..][1..] == tail;
      }
    }
    SplitWithCommaInText(c.id, c.name, tail);
  }

  // ----- Whole files -----

  /** Loading voter lines in order: `None` is the parse error that aborts the load. */
  function LoadVoterLines(lines: seq<string>): (r: Option<map<string, VoterRecord>>)
    decreases |lines|
  {
    if lines == [] then Some(map[])
    else
      match LoadVoterLines(lines[..|lines| - 1])
      case None => None
      case Some(m) => LoadVoterLine(m, lines[|lines| - 1])
  }

  /** One more voter line: skipped, stored under its id, or the parse error. */
  function LoadVoterLine(m: map<string, VoterRecord>, line: string): (r: Option<map<string, VoterRecord>>)
    ensures r.None? <==> ParseVoterLine(line).BadNumber?
  {
    match ParseVoterLine(line)
    case Skipped => Some(m)
    case BadNumber => None
    case Parsed(v) => Some(m[v.id := v])
  }

  /** Loading candidate lines in order; each count is rebuilt by replaying increments. */
  function LoadCandidateLines(lines: seq<string>): (r: Option<map<string, CandidateRecord>>)
    decreases |lines|
  {
    if lines == [] then Some(map[])
    else
      match LoadCandidateLines(lines[..|lines| - 1])
      case None => None
      case Some(m) => LoadCandidateLine(m, lines[|lines| - 1])
  }

  /** One more candidate line: skipped, stored under its id with its count replayed, or the parse error. */
  function LoadCandidateLine(m: map<string, CandidateRecord>, line: string): (r: Option<map<string, CandidateRecord>>)
    ensures r.None? <==> ParseCandidateLine(line).BadNumber?
  {
    match ParseCandidateLine(line)
    case Skipped => Some(m)
    case BadNumber => None
    case Parsed(c) => Some(m[c.id := c.(voteCount := ReplayedCount(c.voteCount))])
  }

  /** Every loaded voter sits under its own id and can be saved and read back. */
  lemma {:induction false} LoadedVotersSaveable(lines: seq<string>)
    requires LoadVoterLines(lines).Some?
    ensures forall id :: id in LoadVoterLines(lines).value ==>
      LoadVoterLines(lines).value[id].id == id && SaveableVoter(LoadVoterLines(lines).value[id])
    decreases |lines|
  {
    if lines != [] {
      LoadedVotersSaveable(lines[..|lines| - 1]);
    }
  }

  /** Every loaded candidate sits under its own id, and its count is an `int` that is not negative. */
  lemma {:induction false} LoadedCandidatesSaveable(lines: seq<string>)
    requires LoadCandidateLines(lines).Some?
    ensures forall id :: id in LoadCandidateLines(lines).value ==>
      LoadCandidateLines(lines).value[id].id == id && SaveableCandidate(LoadCandidateLines(lines).value[id])
    decreases |lines|
  {
    if lines != [] {
      LoadedCandidatesSaveable(lines[..|lines| - 1]);
    }
  }

  /** A stored negative count comes back as zero, because the replay loop runs no times. */
  lemma NegativeCountLoadsAsZero(c: CandidateRecord)
    requires ',' !in c.id && ',' !in c.name && IntMin <= c.voteCount < 0
    ensures LoadCandidateLines([FormatCandidate(c)]) == Some(map[c.id := c.(voteCount := 0)])
  {
    CandidateLineRoundTrip(c);
    assert [FormatCandidate(c)][..0] == [];
  }

  /** A stored count of `Integer.MAX_VALUE` loads as it is: the limit is reached without any vote. */
  lemma MaxCountLoads(c: CandidateRecord)
    requires ',' !in c.id && ',' !in c.name && c.voteCount == IntMax
    ensures LoadCandidateLines([FormatCandidate(c)]) == Some(map[c.id := c])
  {
    CandidateLineRoundTrip(c);
    assert [FormatCandidate(c)][..0] == [];
  }

  /** A count one past `Integer.MAX_VALUE`, written in decimal, is a number error when read back. */
  lemma CountPastMaxIsBadNumber(c: CandidateRecord)
    requires ',' !in c.id && ',' !in c.name && c.voteCount == IntMax + 1
    ensures ParseCandidateLine(FormatCandidate(c)).BadNumber?
  {
    var count := IntToString(c.voteCount);
    SplitJoined([c.id, c.name, count]);
    DigitsRoundTrip(c.voteCount);
    assert count[0] != '-' && count[0] != '+';
  }

  /** A line with the wrong number of fields leaves the loaded voters as they were. */
  lemma WrongFieldCountSkipped(lines: seq<string>, line: string)
    requires |Split(line)| != 4
    ensures LoadVoterLines(lines + [line]) == LoadVoterLines(lines)
  {
    assert (lines + [line])[..|lines|] == lines;
  }

  /** A line with the wrong number of fields leaves the loaded candidates as they were. */
  lemma WrongCandidateFieldCountSkipped(lines: seq<string>, line: string)
    requires |Split(line)| != 3
    ensures LoadCandidateLines(lines + [line]) == LoadCandidateLines(lines)
  {
    assert (lines + [line])[..|lines|] == lines;
  }

  /** Once a load fails, no further lines rescue it. */
  lemma {:induction false} LoadVoterFailureSticks(lines: seq<string>, k: nat)
    requires k <= |lines| && LoadVoterLines(lines[..k]).None?
    ensures LoadVoterLines(lines).None?
    decreases |lines|
  {
    if k < |lines| {
      var init := lines[..|lines| - 1];
      assert init[..k] == lines[..k];
      LoadVoterFailureSticks(init, k);
    } else {
      assert lines[..k] == lines;
    }
  }

  lemma {:induction false} LoadCandidateFailureSticks(lines: seq<string>, k: nat)
    requires k <= |lines| && LoadCandidateLines(lines[..k]).None?
    ensures LoadCandidateLines(lines).None?
    decreases |lines|
  {
    if k < |lines| {
      var init := lines[..|lines| - 1];
      assert init[..k] == lines[..k];
      LoadCandidateFailureSticks(init, k);
    } else {
      assert lines[..k] == lines;
    }
  }

  /** The lines a save writes when it visits the keys in the order `keys`. */
  function FormatVoters(keys: seq<string>, m: map<string, VoterRecord>): (lines: seq<string>)
    requires forall id :: id in keys ==> id in m
    ensures |lines| == |keys|
  {
    if keys == [] then []
    else FormatVoters(keys[..|keys| - 1], m) + [FormatVoter(m[keys[|keys| - 1]])]
  }

  function FormatCandidates(keys: seq<string>, m: map<string, CandidateRecord>): (lines: seq<string>)
    requires forall id :: id in keys ==> id in m
    ensures |lines| == |keys|
  {
    if keys == [] then []
    else FormatCandidates(keys[..|keys| - 1], m) + [FormatCandidate(m[keys[|keys| - 1]])]
  }

  /** Saving writes, at each position, the line of the record under the key visited there. */
  lemma {:induction false} FormatVotersLines(keys: seq<string>, m: map<string, VoterRecord>)
    requires forall id :: id in keys ==> id in m
    ensures forall i :: 0 <= i < |keys| ==> FormatVoters(keys, m)[i] == FormatVoter(m[keys[i]])
    decreases |keys|
  {
    if keys != [] {
      FormatVotersLines(keys[..|keys| - 1], m);
    }
  }

  lemma {:induction false} FormatCandidatesLines(keys: seq<string>, m: map<string, CandidateRecord>)
    requires forall id :: id in keys ==> id in m
    ensures forall i :: 0 <= i < |keys| ==> FormatCandidates(keys, m)[i] == FormatCandidate(m[keys[i]])
    decreases |keys|
  {
    if keys != [] {
      FormatCandidatesLines(keys[..|keys| - 1], m);
    }
  }

  /** `lines` is what saving `m` writes, in some iteration order of the map. */
  ghost predicate IsVoterFile(lines: seq<string>, m: map<string, VoterRecord>) {
    exists keys :: Lists(keys, m) && lines == FormatVoters(keys, m)
  }

  ghost predicate IsCandidateFile(lines: seq<string>, m: map<string, CandidateRecord>) {
    exists keys :: Lists(keys, m) && lines == FormatCandidates(keys, m)
  }

  /** The part of `m` under the keys in `keys`. */
  function Restrict<T>(keys: seq<string>, m: map<string, T>): map<string, T>
    requires forall id :: id in keys ==> id in m
  {
    map id | id in keys :: m[id]
  }

  lemma RestrictSnoc<T>(keys: seq<string>, m: map<string, T>)
    requires keys != []
    requires forall id :: id in keys ==> id in m
    ensures Restrict(keys[..|keys| - 1], m)[keys[|keys| - 1] := m[keys[|keys| - 1]]] == Restrict(keys, m)
  {
    var init := keys[..|keys| - 1];
    assert forall id :: id in keys <==> id in init || id == keys[|keys| - 1];
  }

  /** Appending the line of a saveable voter puts exactly that voter under its id. */
  lemma LoadVoterAppend(lines: seq<string>, prev: map<string, VoterRecord>, v: VoterRecord)
    requires LoadVoterLines(lines) == Some(prev)
    requires SaveableVoter(v)
    ensures LoadVoterLines(lines + [FormatVoter(v)]) == Some(prev[v.id := v])
  {
    var all := lines + [FormatVoter(v)];
    assert all[..|all| - 1] == lines;
    VoterLineRoundTrip(v);
  }

  lemma {:induction false} VoterLinesRoundTrip(keys: seq<string>, m: map<string, VoterRecord>)
    requires forall i, j :: 0 <= i < j < |keys| ==> keys[i] != keys[j]
    requires forall id :: id in keys ==> id in m && m[id].id == id && SaveableVoter(m[id])
    ensures LoadVoterLines(FormatVoters(keys, m)) == Some(Restrict(keys, m))
    decreases |keys|
  {
    if keys != [] {
      var init := keys[..|keys| - 1];
      var last := keys[|keys| - 1];
      VoterLinesRoundTrip(init, m);
      LoadVoterAppend(FormatVoters(init, m), Restrict(init, m), m[last]);
      RestrictSnoc(keys, m);
    }
  }

  /** Appending the line of a saveable candidate puts exactly that candidate under its id. */
  lemma LoadCandidateAppend(lines: seq<string>, prev: map<string, CandidateRecord>, c: CandidateRecord)
    requires LoadCandidateLines(lines) == Some(prev)
    requires SaveableCandidate(c)
    ensures LoadCandidateLines(lines + [FormatCandidate(c)]) == Some(prev[c.id := c])
  {
    var all := lines + [FormatCandidate(c)];
    assert all[..|all| - 1] == lines;
    CandidateLineRoundTrip(c);
    assert c.(voteCount := ReplayedCount(c.voteCount)) == c;
  }

  lemma {:induction false} CandidateLinesRoundTrip(keys: seq<string>, m: map<string, CandidateRecord>)
    requires forall i, j :: 0 <= i < j < |keys| ==> keys[i] != keys[j]
    requires forall id :: id in keys ==> id in m && m[id].id == id && SaveableCandidate(m[id])
    ensures LoadCandidateLines(FormatCandidates(keys, m)) == Some(Restrict(keys, m))
    decreases |keys|
  {
    if keys != [] {
      var init := keys[..|keys| - 1];
      var last := keys[|keys| - 1];
      CandidateLinesRoundTrip(init, m);
      LoadCandidateAppend(FormatCandidates(init, m), Restrict(init, m), m[last]);
      RestrictSnoc(keys, m);
    }
  }

  /** A saved voter file, reloaded, gives back exactly the saved collection. */
  lemma VoterFileRoundTrip(lines: seq<string>, m: map<string, VoterRecord>)
    requires IsVoterFile(lines, m)
    requires forall id :: id in m ==> m[id].id == id && SaveableVoter(m[id])
    ensures LoadVoterLines(lines) == Some(m)
  {
    var keys :| Lists(keys, m) && lines == FormatVoters(keys, m);
    VoterLinesRoundTrip(keys, m);
    assert Restrict(keys, m) == m;
  }

  /** A saved candidate file, reloaded, gives back exactly the saved collection. */
  lemma CandidateFileRoundTrip(lines: seq<string>, m: map<string, CandidateRecord>)
    requires IsCandidateFile(lines, m)
    requires forall id :: id in m ==> m[id].id == id && SaveableCandidate(m[id])
    ensures LoadCandidateLines(lines) == Some(m)
  {
    var keys :| Lists(keys, m) && lines == FormatCandidates(keys, m);
    CandidateLinesRoundTrip(keys, m);
    assert Restrict(keys, m) == m;
  }
}
