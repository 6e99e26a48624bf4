/**
 * The results report: one line per candidate in the map's iteration order, a
 * running-maximum scan that picks the winner label, the verdict, and the number
 * of registered voters.  The scan and the text are specified on a sequence of
 * candidate values, because the iteration order of the map is unspecified.
 */
module Results {
  import opened Decimal
  import opened CandidateModel
  import opened Iteration
  import opened ElectionStore

  const Header: string := "--- Voting Results ---\n"
  const NoCandidatesText: string := "No candidates have been registered yet.\n"
  const Separator: string := "\n----------------------\n"
  const NoVotesText: string := "No votes have been cast yet.\n"
  /** The label the scan starts with; it survives only when no count reaches the start maximum. */
  const NoWinnerLabel: string := "No winner (tie)"
  const TieLabel: string := "Tie"

  /** The two variables the scan updates: the largest count seen and the winner label. */
  datatype Tally = Tally(maxVotes: int, winnerName: string)

  const Start: Tally := Tally(-1, NoWinnerLabel)

  /** One step of the scan: a larger count takes over, an equal one turns the label into a tie. */
  function Visit(t: Tally, c: CandidateRecord): Tally {
    if c.voteCount > t.maxVotes then Tally(c.voteCount, c.name)
    else if c.voteCount == t.maxVotes then t.(winnerName := TieLabel)
    else t
  }

  /** The scan over the candidates in order: `maxVotes` ends as the larger of -1 and every count. */
  function Scan(cs: seq<CandidateRecord>): (t: Tally)
    ensures t.maxVotes >= -1
    ensures forall i :: 0 <= i < |cs| ==> cs[i].voteCount <= t.maxVotes
    ensures t.maxVotes == -1 || exists i :: 0 <= i < |cs| && cs[i].voteCount == t.maxVotes
    decreases |cs|
  {
    if cs == [] then Start
    else Visit(Scan(cs[..|cs| - 1]), cs[|cs| - 1])
  }

  /** The largest count is reached by two different candidates. */
  ghost predicate Tied(cs: seq<CandidateRecord>, m: int) {
    exists i, j :: 0 <= i < j < |cs| && cs[i].voteCount == m && cs[j].voteCount == m
  }

  /** The label is "Tie" when the maximum is reached twice, and otherwise the name of the candidate reaching it. */
  ghost predicate LabelRule(cs: seq<CandidateRecord>) {
    var t := Scan(cs);
    (Tied(cs, t.maxVotes) ==> t.winnerName == TieLabel) &&
    (!Tied(cs, t.maxVotes) ==>
       forall i :: 0 <= i < |cs| && cs[i].voteCount == t.maxVotes ==> t.winnerName == cs[i].name)
  }

  /**
   * The winner label, for counts that are not negative: "Tie" exactly when the
   * largest count is reached twice, and otherwise the name of the one candidate
   * that reaches it.  So the label does not depend on the order of the scan.
   */
  lemma {:induction false} WinnerRule(cs: seq<CandidateRecord>)
    requires cs != []
    requires forall i :: 0 <= i < |cs| ==> cs[i].voteCount >= 0
    ensures LabelRule(cs)
    decreases |cs|
  {
    var init, c := cs[..|cs| - 1], cs[|cs| - 1];
    var t := Scan(init);
    if c.voteCount > t.maxVotes {
      LargerTakesOver(cs);
    } else {
      assert init != [] by {
        assert c.voteCount >= 0 && Scan([]).maxVotes == -1;
      }
      WinnerRule(init);
      assert init[0].voteCount >= 0;
      if c.voteCount == t.maxVotes {
        EqualTies(cs);
      } else {
        SmallerKeeps(cs);
      }
    }
  }

  /** A last count above every earlier one names the last candidate. */
  lemma LargerTakesOver(cs: seq<CandidateRecord>)
    requires cs != [] && cs[|cs| - 1].voteCount > Scan(cs[..|cs| - 1]).maxVotes
    ensures LabelRule(cs)
  {
    var init, last := cs[..|cs| - 1], |cs| - 1;
    assert forall i :: 0 <= i < last ==> cs[i] == init[i];
    assert !Tied(cs, Scan(cs).maxVotes);
  }

  /** A last count equal to the maximum so far ties. */
  lemma EqualTies(cs: seq<CandidateRecord>)
    requires cs != [] && cs[|cs| - 1].voteCount == Scan(cs[..|cs| - 1]).maxVotes >= 0
    ensures LabelRule(cs)
  {
    var init, last := cs[..|cs| - 1], |cs| - 1;
    var m := Scan(init).maxVotes;
    var k :| 0 <= k < |init| && init[k].voteCount == m;
    assert cs[k] == init[k];
    assert Tied(cs, Scan(cs).maxVotes) by {
      assert cs[k].voteCount == m && cs[last].voteCount == m;
    }
  }

  /** A last count below the maximum so far changes neither the maximum nor the label. */
  lemma SmallerKeeps(cs: seq<CandidateRecord>)
    requires cs != [] && cs[|cs| - 1].voteCount < Scan(cs[..|cs| - 1]).maxVotes
    requires LabelRule(cs[..|cs| - 1])
    ensures LabelRule(cs)
  {
    var init, last := cs[..|cs| - 1], |cs| - 1;
    var m := Scan(init).maxVotes;
    assert Scan(cs) == Scan(init);
    assert forall i :: 0 <= i < last ==> cs[i] == init[i];
    assert Tied(cs, m) <==> Tied(init, m) by {
      if Tied(cs, m) {
        var i, j :| 0 <= i < j < |cs| && cs[i].voteCount == m && cs[j].voteCount == m;
        assert init[i].voteCount == m && init[j].voteCount == m;
      }
      if Tied(init, m) {
        var i, j :| 0 <= i < j < |init| && init[i].voteCount == m && init[j].voteCount == m;
        assert cs[i].voteCount == m && cs[j].voteCount == m;
      }
    }
  }

  /** Three scans written out: an equal count ties, a smaller one does not, a larger one takes over. */
  lemma ScanExamples()
    ensures Scan([CandidateRecord("c1", "Ann", 5), CandidateRecord("c2", "Bob", 5)]).winnerName == TieLabel
    ensures Scan([CandidateRecord("c1", "Ann", 5), CandidateRecord("c2", "Bob", 3)]).winnerName == "Ann"
    ensures Scan([CandidateRecord("c1", "Ann", 5), CandidateRecord("c2", "Bob", 5),
                  CandidateRecord("c3", "Cid", 7)]).winnerName == "Cid"
  {
    var a, b, c := CandidateRecord("c1", "Ann", 5), CandidateRecord("c2", "Bob", 5), CandidateRecord("c3", "Cid", 7);
    assert [a, b][..1] == [a];
    assert [a, b.(voteCount := 3)][..1] == [a];
    assert [a, b, c][..2] == [a, b];
  }

  // ----- Independence of the iteration order -----

  /** A record met twice in a sequence sits at two different positions. */
  lemma {:induction false} TwiceAtTwoPositions(ds: seq<CandidateRecord>, x: CandidateRecord)
    requires multiset(ds)[x] >= 2
    ensures exists i, j :: 0 <= i < j < |ds| && ds[i] == x && ds[j] == x
    decreases |ds|
  {
    var init, last := ds[..|ds| - 1], ds[|ds| - 1];
    assert ds == init + [last];
    if last == x {
      assert x in multiset(init);
      var i :| 0 <= i < |init| && init[i] == x;
      assert ds[i] == x && ds[|ds| - 1] == x;
    } else {
      TwiceAtTwoPositions(init, x);
      var i, j :| 0 <= i < j < |init| && init[i] == x && init[j] == x;
      assert ds[i] == x && ds[j] == x;
    }
  }

  /** Whether a count is reached twice depends only on the records, not on their order. */
  lemma TiedTransfers(cs: seq<CandidateRecord>, ds: seq<CandidateRecord>, m: int)
    requires multiset(cs) == multiset(ds) && Tied(cs, m)
    ensures Tied(ds, m)
  {
    var i, j :| 0 <= i < j < |cs| && cs[i].voteCount == m && cs[j].voteCount == m;
    if cs[i] == cs[j] {
      var x := cs[i];
      assert multiset(cs)[x] >= 2 by {
        assert cs == cs[..j] + cs[j..];
        assert cs[..j][i] == x && cs[j..][0] == x;
        assert x in multiset(cs[..j]) && x in multiset(cs[j..]);
      }
      TwiceAtTwoPositions(ds, x);
    } else {
      assert cs[i] in multiset(ds) && cs[j] in multiset(ds);
      var k :| 0 <= k < |ds| && ds[k] == cs[i];
      var l :| 0 <= l < |ds| && ds[l] == cs[j];
      if k < l {
        assert ds[k].voteCount == m && ds[l].voteCount == m;
      } else {
        assert ds[l].voteCount == m && ds[k].voteCount == m;
      }
    }
  }

  /** The scan's maximum over `cs` is at most the one over any reordering of it. */
  lemma MaxAtMost(cs: seq<CandidateRecord>, ds: seq<CandidateRecord>)
    requires multiset(cs) == multiset(ds)
    ensures Scan(cs).maxVotes <= Scan(ds).maxVotes
  {
    var m := Scan(cs).maxVotes;
    if m != -1 {
      var i :| 0 <= i < |cs| && cs[i].voteCount == m;
      assert cs[i] in multiset(ds);
      var k :| 0 <= k < |ds| && ds[k] == cs[i];
    }
  }

  /**
   * With counts that are not negative, the verdict is the same in every order the
   * candidates are visited: the scan's running order shows only in the lines listed.
   */
  lemma VerdictOrderIndependent(cs: seq<CandidateRecord>, ds: seq<CandidateRecord>)
    requires multiset(cs) == multiset(ds)
    requires forall i :: 0 <= i < |cs| ==> cs[i].voteCount >= 0
    ensures Decide(cs) == Decide(ds)
  {
    assert |cs| == |multiset(cs)| == |multiset(ds)| == |ds|;
    if cs != [] {
      forall k | 0 <= k < |ds|
        ensures ds[k].voteCount >= 0
      {
        assert ds[k] in multiset(cs);
      }
      MaxAtMost(cs, ds);
      MaxAtMost(ds, cs);
      var m := Scan(cs).maxVotes;
      WinnerRule(cs);
      WinnerRule(ds);
      if Tied(cs, m) {
        TiedTransfers(cs, ds, m);
      } else if m > 0 {
        if Tied(ds, m) {
          TiedTransfers(ds, cs, m);
        }
        var i :| 0 <= i < |cs| && cs[i].voteCount == m;
        assert cs[i] in multiset(ds);
        var k :| 0 <= k < |ds| && ds[k] == cs[i];
        assert Scan(ds).winnerName == ds[k].name;
      }
    }
  }

  /** What the report says after the separator. */
  datatype Verdict = Winner(name: string) | NoVotes | NoCandidates

  /** A winner is named only when some candidate has a vote; with no candidates nothing is said. */
  function Decide(cs: seq<CandidateRecord>): (v: Verdict)
    ensures v.NoCandidates? <==> cs == []
    ensures v.Winner? <==> exists i :: 0 <= i < |cs| && cs[i].voteCount > 0
    ensures v.Winner? ==> v.name == Scan(cs).winnerName
  {
    var t := Scan(cs);
    if t.maxVotes > 0 then Winner(t.winnerName)
    else if cs != [] then NoVotes
    else NoCandidates
  }

  function VerdictText(v: Verdict): string {
    match v
    case Winner(name) => WinnerLine(name)
    case NoVotes => NoVotesText
    case NoCandidates => ""
  }

  /** `String.format("%s: %d votes\n", name, count)`. */
  function CandidateLine(c: CandidateRecord): string {
    c.name + ": " + IntToString(c.voteCount) + " votes\n"
  }

  /** The builder's text after appending the line of each candidate in `cs` to `prefix`. */
  function Appended(prefix: string, cs: seq<CandidateRecord>): string
    decreases |cs|
  {
    if cs == [] then prefix else Appended(prefix, cs[..|cs| - 1]) + CandidateLine(cs[|cs| - 1])
  }

  function WinnerLine(name: string): string {
    "Winner: " + name + "\n"
  }

  function TotalLine(voterCount: int): string {
    "\nTotal Registered Voters: " + IntToString(voterCount) + "\n"
  }

  /** The whole report for candidates listed in the order `cs` and `voterCount` registered voters. */
  function Report(cs: seq<CandidateRecord>, voterCount: int): string {
    (if cs == [] then Header + NoCandidatesText else Appended(Header, cs)) + Separator
      + VerdictText(Decide(cs)) + TotalLine(voterCount)
  }

  /** The text built up to any candidate is a prefix of the text built over all of them. */
  lemma {:induction false} AppendedPrefix(prefix: string, cs: seq<CandidateRecord>, k: nat)
    requires k <= |cs|
    ensures Appended(prefix, cs[..k]) <= Appended(prefix, cs)
    decreases |cs|
  {
    if k == |cs| {
      assert cs[..k] == cs;
    } else {
      var init := cs[..|cs| - 1];
      assert init[..k] == cs[..k];
      AppendedPrefix(prefix, init, k);
    }
  }

  /** The line of candidate `i` follows the lines of those before it, in the order `cs`. */
  lemma CandidateLinesInOrder(prefix: string, cs: seq<CandidateRecord>, i: int)
    requires 0 <= i < |cs|
    ensures Appended(prefix, cs[..i]) + CandidateLine(cs[i]) <= Appended(prefix, cs)
  {
    assert cs[..i + 1][..i] == cs[..i];
    AppendedPrefix(prefix, cs, i + 1);
  }

  /** With no candidates the report says so and names no winner. */
  lemma NoCandidatesReport(voterCount: int)
    ensures Report([], voterCount) == Header + NoCandidatesText + Separator + TotalLine(voterCount)
  {
  }

  /**
   * `displayResults`: builds the report over the candidates in the map's
   * iteration order, running the scan as it appends each candidate's line.
   */
  method DisplayResults(system: VotingManagementSystem) returns (text: string)
    requires system.Valid()
    ensures exists cs :: IsValuesOf(cs, system.CandidateRecords) && text == Report(cs, |system.VoterRecords|)
  {
    var sb := Header;
    var maxVotes := -1;
    var winnerName := NoWinnerLabel;
    var cs := system.CandidateValues();
    if |cs| == 0 {
      sb := sb + NoCandidatesText;
    } else {
      var i := 0;
      while i < |cs|
        invariant 0 <= i <= |cs|
        invariant sb == Appended(Header, cs[..i])
        invariant Tally(maxVotes, winnerName) == Scan(cs[..i])
      {
        var c := cs[i];
        assert cs[..i + 1][..i] == cs[..i];
        sb := sb + CandidateLine(c);
        if c.voteCount > maxVotes {
          maxVotes := c.voteCount;
          winnerName := c.name;
        } else if c.voteCount == maxVotes {
          winnerName := TieLabel;
        }
        i := i + 1;
      }
      assert cs[..i] == cs;
    }
    assert Tally(maxVotes, winnerName) == Scan(cs);
    sb := sb + Separator;
    if maxVotes > 0 {
      sb := sb + WinnerLine(winnerName);
    } else if |cs| != 0 {
      sb := sb + NoVotesText;
    }
    var n := system.VoterCount();
    sb := sb + TotalLine(n);
    text := sb;
  }
}
