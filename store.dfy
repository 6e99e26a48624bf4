/**
 * The election store: the class that owns the voter and candidate collections,
 * guards the three mutations, and rewrites the affected file after each
 * successful one.  The two files are modelled as fields holding their lines.
 */
module ElectionStore {
  import opened Wrappers
  import opened VoterModel
  import opened CandidateModel
  import opened ElectionSpec
  import opened Iteration
  import opened Persistence

  class VotingManagementSystem {
    var voters: map<string, Voter>
    var candidates: map<string, Candidate>
    /** The lines of voters.txt. */
    var votersFile: seq<string>
    /** The lines of candidates.txt. */
    var candidatesFile: seq<string>

    /** The voter collection as values: what each object holds, by id. */
    ghost var VoterRecords: map<string, VoterRecord>
    /** The candidate collection as values. */
    ghost var CandidateRecords: map<string, CandidateRecord>

    ghost function View(): Election
      reads `VoterRecords, `CandidateRecords
    {
      Election(VoterRecords, CandidateRecords)
    }

    /** The voter records mirror the voter objects, each object sitting under its own id. */
    ghost predicate VotersValid()
      reads `voters, `VoterRecords, voters.Values
    {
      voters.Keys == VoterRecords.Keys &&
      forall id :: id in voters ==>
        voters[id].voterId == id &&
        VoterRecords[id] == VoterRecord(id, voters[id].name, voters[id].age, voters[id].hasVoted)
    }

    /** The candidate records mirror the candidate objects, and no count is negative. */
    ghost predicate CandidatesValid()
      reads `candidates, `CandidateRecords, candidates.Values
    {
      candidates.Keys == CandidateRecords.Keys &&
      forall id :: id in candidates ==>
        candidates[id].candidateId == id &&
        CandidateRecords[id] == CandidateRecord(id, candidates[id].name, candidates[id].voteCount) &&
        candidates[id].voteCount >= 0
    }

    /**
     * The object invariant: the ghost records mirror the objects and every object sits
     * under its own id (so distinct keys hold distinct objects).
     */
    ghost predicate Valid()
      reads `voters, `candidates, `VoterRecords, `CandidateRecords, voters.Values, candidates.Values
    {
      VotersValid() && CandidatesValid()
    }

    /** The object invariant makes the value view well formed: records under their own ids, counts not negative. */
    lemma ViewWellFormed()
      requires Valid()
      ensures WellFormed(View())
    {
    }

    /**
     * Construction loads both files.  A malformed number in either aborts
     * construction with an exception, so well-formed files are required here.
     */
    constructor (voterLines: seq<string>, candidateLines: seq<string>)
      requires LoadVoterLines(voterLines).Some? && LoadCandidateLines(candidateLines).Some?
      ensures Valid()
      ensures View() == Election(LoadVoterLines(voterLines).value, LoadCandidateLines(candidateLines).value)
      ensures votersFile == voterLines && candidatesFile == candidateLines
    {
      voters := map[];
      candidates := map[];
      VoterRecords := map[];
      CandidateRecords := map[];
      votersFile := voterLines;
      candidatesFile := candidateLines;
      new;
      var ok := LoadVoters(voterLines);
      ok := LoadCandidates(candidateLines);
    }

    // ----- Loading -----

    /**
     * Clears the voters and reads them from `lines`.  `ok` is false exactly when
     * a line has an age that is not a number (the exception that ends loading).
     */
    method LoadVoters(lines: seq<string>) returns (ok: bool)
      requires Valid()
      modifies `voters, `VoterRecords
      ensures Valid()
      ensures ok <==> LoadVoterLines(lines).Some?
      ensures ok ==> VoterRecords == LoadVoterLines(lines).value
    {
      voters := map[];
      VoterRecords := map[];
      ok := true;
      var i := 0;
      while i < |lines|
        invariant 0 <= i <= |lines|
        invariant LoadVoterLines(lines[..i]) == Some(VoterRecords)
        invariant VotersValid()
      {
        assert lines[..i + 1][..i] == lines[..i];
        ok := ReadVoterLine(lines[i]);
        if !ok {
          LoadVoterFailureSticks(lines, i + 1);
          break;
        }
        i := i + 1;
      }
      if ok {
        assert lines[..i] == lines;
      }
    }

    /**
     * The body of the reading loop for one voter line: a line of four fields
     * becomes a new voter, stored under its id; `ok` is false when its age is not a number.
     */
    method ReadVoterLine(line: string) returns (ok: bool)
      requires VotersValid()
      modifies `voters, `VoterRecords
      ensures VotersValid()
      ensures ok <==> LoadVoterLine(old(VoterRecords), line).Some?
      ensures ok ==> Some(VoterRecords) == LoadVoterLine(old(VoterRecords), line)
    {
      var parts := Split(line);
      if |parts| == 4 {
        var age := Decimal.ParseInt(parts[2]);
        if age.None? {
          return false;
        }
        var voter := new Voter(parts[0], parts[1], age.value);
        voter.SetHasVoted(ParseBool(parts[3]));
        PutVoter(voter);
      }
      ok := true;
    }

    /**
     * Clears the candidates and reads them from `lines`, rebuilding each count by
     * replaying the increment as many times as the stored number says.
     */
    method LoadCandidates(lines: seq<string>) returns (ok: bool)
      requires Valid()
      modifies `candidates, `CandidateRecords
      ensures Valid()
      ensures ok <==> LoadCandidateLines(lines).Some?
      ensures ok ==> CandidateRecords == LoadCandidateLines(lines).value
    {
      candidates := map[];
      CandidateRecords := map[];
      ok := true;
      var i := 0;
      while i < |lines|
        invariant 0 <= i <= |lines|
        invariant LoadCandidateLines(lines[..i]) == Some(CandidateRecords)
        invariant CandidatesValid()
      {
        assert lines[..i + 1][..i] == lines[..i];
        ok := ReadCandidateLine(lines[i]);
        if !ok {
          LoadCandidateFailureSticks(lines, i + 1);
          break;
        }
        i := i + 1;
      }
      if ok {
        assert lines[..i] == lines;
      }
    }

    /**
     * The body of the reading loop for one candidate line: a line of three fields
     * becomes a new candidate whose count is rebuilt by calling the increment as
     * many times as the stored number says; `ok` is false when that is not a number.
     */
    method ReadCandidateLine(line: string) returns (ok: bool)
      requires CandidatesValid()
      modifies `candidates, `CandidateRecords
      ensures CandidatesValid()
      ensures ok <==> LoadCandidateLine(old(CandidateRecords), line).Some?
      ensures ok ==> Some(CandidateRecords) == LoadCandidateLine(old(CandidateRecords), line)
    {
      var parts := Split(line);
      if |parts| == 3 {
        var count := Decimal.ParseInt(parts[2]);
        if count.None? {
          return false;
        }
        var candidate := new Candidate(parts[0], parts[1]);
        var j := 0;
        while j < count.value
          invariant 0 <= j && (j <= count.value || j == 0)
          invariant candidate.Snapshot() == CandidateRecord(parts[0], parts[1], j)
          modifies candidate
        {
          candidate.IncrementVoteCount();
          j := j + 1;
        }
        PutCandidate(candidate);
      }
      ok := true;
    }

    /** `voters.put(voter.getVoterId(), voter)`: stores the voter under its id. */
    method PutVoter(voter: Voter)
      requires VotersValid()
      modifies `voters, `VoterRecords
      ensures VotersValid()
      ensures voters == old(voters)[voter.voterId := voter]
      ensures VoterRecords == old(VoterRecords)[voter.voterId := voter.Snapshot()]
    {
      voters := voters[voter.voterId := voter];
      VoterRecords := VoterRecords[voter.voterId := voter.Snapshot()];
    }

    /** `candidates.put(candidate.getCandidateId(), candidate)`, for a count that is not negative. */
    method PutCandidate(candidate: Candidate)
      requires CandidatesValid() && candidate.voteCount >= 0
      modifies `candidates, `CandidateRecords
      ensures CandidatesValid()
      ensures candidates == old(candidates)[candidate.candidateId := candidate]
      ensures CandidateRecords == old(CandidateRecords)[candidate.candidateId := candidate.Snapshot()]
    {
      candidates := candidates[candidate.candidateId := candidate];
      CandidateRecords := CandidateRecords[candidate.candidateId := candidate.Snapshot()];
    }

    // ----- Saving -----

    /** Rewrites voters.txt with one line per voter, in the map's iteration order. */
    method SaveVoters()
      requires Valid()
      modifies this`votersFile
      ensures Valid()
      ensures IsVoterFile(votersFile, VoterRecords)
    {
      var remaining := voters.Keys;
      var lines: seq<string> := [];
      ghost var keys: seq<string> := [];
      while remaining != {}
        invariant remaining <= voters.Keys
        invariant forall id :: id in voters <==> id in remaining || id in keys
        invariant forall id :: id in keys ==> id !in remaining
        invariant forall i, j :: 0 <= i < j < |keys| ==> keys[i] != keys[j]
        invariant lines == FormatVoters(keys, VoterRecords)
        decreases remaining
      {
        var id :| id in remaining;
        lines := lines + [FormatVoter(voters[id].Snapshot())];
        keys := keys + [id];
        remaining := remaining - {id};
      }
      votersFile := lines;
      assert Lists(keys, VoterRecords);
    }

    /** Rewrites candidates.txt with one line per candidate, in the map's iteration order. */
    method SaveCandidates()
      requires Valid()
      modifies this`candidatesFile
      ensures Valid()
      ensures IsCandidateFile(candidatesFile, CandidateRecords)
    {
      var remaining := candidates.Keys;
      var lines: seq<string> := [];
      ghost var keys: seq<string> := [];
      while remaining != {}
        invariant remaining <= candidates.Keys
        invariant forall id :: id in candidates <==> id in remaining || id in keys
        invariant forall id :: id in keys ==> id !in remaining
        invariant forall i, j :: 0 <= i < j < |keys| ==> keys[i] != keys[j]
        invariant lines == FormatCandidates(keys, CandidateRecords)
        decreases remaining
      {
        var id :| id in remaining;
        lines := lines + [FormatCandidate(candidates[id].Snapshot())];
        keys := keys + [id];
        remaining := remaining - {id};
      }
      candidatesFile := lines;
      assert Lists(keys, CandidateRecords);
    }

    method SaveAllData()
      requires Valid()
      modifies this`votersFile, this`candidatesFile
      ensures Valid()
      ensures IsVoterFile(votersFile, VoterRecords)
      ensures IsCandidateFile(candidatesFile, CandidateRecords)
    {
      SaveVoters();
      SaveCandidates();
    }

    // ----- The three operations -----

    method RegisterVoter(voterId: string, name: string, age: int) returns (ok: bool)
      requires Valid()
      modifies this
      ensures Valid()
      ensures Step(ok, View()) == ElectionSpec.RegisterVoter(old(View()), voterId, name, age)
      ensures ok ==> IsVoterFile(votersFile, VoterRecords)
      ensures !ok ==> votersFile == old(votersFile)
      ensures candidatesFile == old(candidatesFile)
    {
      if voterId in voters {
        return false;
      }
      if age < MinVotingAge {
        return false;
      }
      var voter := new Voter(voterId, name, age);
      PutVoter(voter);
      SaveVoters();
      ok := true;
    }

    method RegisterCandidate(candidateId: string, name: string) returns (ok: bool)
      requires Valid()
      modifies this
      ensures Valid()
      ensures Step(ok, View()) == ElectionSpec.RegisterCandidate(old(View()), candidateId, name)
      ensures ok ==> IsCandidateFile(candidatesFile, CandidateRecords)
      ensures !ok ==> candidatesFile == old(candidatesFile)
      ensures votersFile == old(votersFile)
    {
      if candidateId in candidates {
        return false;
      }
      var candidate := new Candidate(candidateId, name);
      PutCandidate(candidate);
      SaveCandidates();
      ok := true;
    }

    /** `candidate.incrementVoteCount()` on the candidate stored under `candidateId`. */
    method AddVote(candidateId: string, candidate: Candidate)
      requires Valid() && candidateId in candidates && candidates[candidateId] == candidate
      modifies `CandidateRecords, candidate
      ensures Valid()
      ensures CandidateRecords == WithVote(old(CandidateRecords), candidateId)
    {
      candidate.IncrementVoteCount();
      CandidateRecords := CandidateRecords[candidateId := candidate.Snapshot()];
      forall id | id in candidates && id != candidateId
        ensures candidates[id] != candidate
      {
      }
    }

    /** `voter.setHasVoted(true)` on the voter stored under `voterId`. */
    method MarkVoted(voterId: string, voter: Voter)
      requires Valid() && voterId in voters && voters[voterId] == voter
      modifies `VoterRecords, voter
      ensures Valid()
      ensures VoterRecords == WithVoted(old(VoterRecords), voterId)
    {
      voter.SetHasVoted(true);
      VoterRecords := VoterRecords[voterId := voter.Snapshot()];
      forall id | id in voters && id != voterId
        ensures voters[id] != voter
      {
      }
    }

    method CastVote(voterId: string, candidateId: string) returns (ok: bool)
      requires Valid()
      modifies `VoterRecords, `CandidateRecords, `votersFile, `candidatesFile, voters.Values, candidates.Values
      ensures Valid()
      ensures Step(ok, View()) == ElectionSpec.CastVote(old(View()), voterId, candidateId)
      ensures ok ==> IsVoterFile(votersFile, VoterRecords) && IsCandidateFile(candidatesFile, CandidateRecords)
      ensures !ok ==> votersFile == old(votersFile) && candidatesFile == old(candidatesFile)
    {
      var voter: Voter? := if voterId in voters then voters[voterId] else null;
      var candidate: Candidate? := if candidateId in candidates then candidates[candidateId] else null;
      if voter == null || candidate == null || voter.hasVoted {
        return false;
      }
      AddVote(candidateId, candidate);
      MarkVoted(voterId, voter);
      SaveAllData();
      ok := true;
    }

    // ----- Read access for reporting -----

    /** `getCandidates().values()`: the candidates as values, in the map's iteration order. */
    method CandidateValues() returns (cs: seq<CandidateRecord>)
      requires Valid()
      ensures IsValuesOf(cs, CandidateRecords)
    {
      var remaining := candidates.Keys;
      cs := [];
      ghost var keys: seq<string> := [];
      while remaining != {}
        invariant remaining <= candidates.Keys
        invariant forall id :: id in candidates <==> id in remaining || id in keys
        invariant forall id :: id in keys ==> id !in remaining
        invariant forall i, j :: 0 <= i < j < |keys| ==> keys[i] != keys[j]
        invariant cs == InOrder(keys, CandidateRecords)
        decreases remaining
      {
        var id :| id in remaining;
        cs := cs + [candidates[id].Snapshot()];
        keys := keys + [id];
        remaining := remaining - {id};
      }
      assert Lists(keys, CandidateRecords);
    }

    /** `getVoters().size()`: the number of registered voters. */
    method VoterCount() returns (n: nat)
      requires Valid()
      ensures n == |VoterRecords|
    {
      n := |voters|;
      assert VoterRecords.Keys == voters.Keys;
    }
  }
}
