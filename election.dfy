/**
 * The election store's state and its three guarded operations as values:
 * registering a voter, registering a candidate and casting a vote.  The class
 * in module ElectionStore is proved to behave exactly as these functions say;
 * the invariants of the store are proved here, once, about them.
 */
module ElectionSpec {
  import opened VoterModel
  import opened CandidateModel

  const MinVotingAge: int := 18

  /** The two keyed collections: voter id to voter, candidate id to candidate. */
  datatype Election = Election(voters: map<string, VoterRecord>, candidates: map<string, CandidateRecord>)

  const Empty: Election := Election(map[], map[])

  /** The outcome of one operation: whether it succeeded, and the state afterwards. */
  datatype Step = Step(ok: bool, after: Election)

  /** Every record sits under its own id, and no candidate has a negative count. */
  ghost predicate WellFormed(e: Election) {
    (forall id :: id in e.voters ==> e.voters[id].id == id) &&
    (forall id :: id in e.candidates ==> e.candidates[id].id == id && e.candidates[id].voteCount >= 0)
  }

  /** Rejects a taken id or an age under the voting age; otherwise adds a voter who has not voted. */
  function RegisterVoter(e: Election, voterId: string, name: string, age: int): (s: Step)
    ensures !s.ok <==> voterId in e.voters || age < MinVotingAge
    ensures !s.ok ==> s.after == e
    ensures s.ok ==> s.after.candidates == e.candidates
    ensures s.ok ==> s.after.voters.Keys == e.voters.Keys + {voterId}
    ensures s.ok ==> s.after.voters[voterId] == VoterRecord(voterId, name, age, false)
  {
    if voterId in e.voters then Step(false, e)
    else if age < MinVotingAge then Step(false, e)
    else Step(true, e.(voters := e.voters[voterId := VoterRecord(voterId, name, age, false)]))
  }

  /** Rejects a taken id; otherwise adds a candidate with no votes. */
  function RegisterCandidate(e: Election, candidateId: string, name: string): (s: Step)
    ensures !s.ok <==> candidateId in e.candidates
    ensures !s.ok ==> s.after == e
    ensures s.ok ==> s.after.voters == e.voters
    ensures s.ok ==> s.after.candidates.Keys == e.candidates.Keys + {candidateId}
    ensures s.ok ==> s.after.candidates[candidateId] == CandidateRecord(candidateId, name, 0)
  {
    if candidateId in e.candidates then Step(false, e)
    else Step(true, e.(candidates := e.candidates[candidateId := CandidateRecord(candidateId, name, 0)]))
  }

  /**
   * Rejects an unknown voter, an unknown candidate or a voter who has voted;
   * otherwise adds one vote to the candidate and marks the voter as having voted.
   */
  function CastVote(e: Election, voterId: string, candidateId: string): (s: Step)
    ensures s.ok <==> voterId in e.voters && candidateId in e.candidates && !e.voters[voterId].hasVoted
    ensures !s.ok ==> s.after == e
    ensures s.ok ==> voterId in s.after.voters && s.after.voters[voterId] == e.voters[voterId].(hasVoted := true)
    ensures s.ok ==> (candidateId in s.after.candidates &&
      s.after.candidates[candidateId] == e.candidates[candidateId].(voteCount := e.candidates[candidateId].voteCount + 1))
  {
    if voterId !in e.voters || candidateId !in e.candidates || e.voters[voterId].hasVoted then Step(false, e)
    else
      Step(true, Election(WithVoted(e.voters, voterId), WithVote(e.candidates, candidateId)))
  }

  /** The voters with the one under `id` marked as having voted. */
  function WithVoted(m: map<string, VoterRecord>, id: string): map<string, VoterRecord>
    requires id in m
  {
    m[id := m[id].(hasVoted := true)]
  }

  /** The candidates with one more vote for the one under `id`. */
  function WithVote(m: map<string, CandidateRecord>, id: string): map<string, CandidateRecord>
    requires id in m
  {
    m[id := m[id].(voteCount := m[id].voteCount + 1)]
  }

  /** Registering a voter touches no other voter and keeps every record under its own id. */
  lemma RegisterVoterFrame(e: Election, voterId: string, name: string, age: int)
    ensures forall id :: id in e.voters ==> RegisterVoter(e, voterId, name, age).after.voters[id] == e.voters[id]
    ensures WellFormed(e) ==> WellFormed(RegisterVoter(e, voterId, name, age).after)
  {
  }

  /** Registering a candidate touches no other candidate and keeps every record under its own id. */
  lemma RegisterCandidateFrame(e: Election, candidateId: string, name: string)
    ensures forall id :: id in e.candidates ==> RegisterCandidate(e, candidateId, name).after.candidates[id] == e.candidates[id]
    ensures WellFormed(e) ==> WellFormed(RegisterCandidate(e, candidateId, name).after)
  {
  }

  /**
   * A vote adds no id and removes none, touches no voter but the one voting and no
   * candidate but the one chosen, and keeps every record under its own id.
   */
  lemma CastVoteFrame(e: Election, voterId: string, candidateId: string)
    ensures CastVote(e, voterId, candidateId).after.voters.Keys == e.voters.Keys
    ensures CastVote(e, voterId, candidateId).after.candidates.Keys == e.candidates.Keys
    ensures forall id :: id in e.voters && id != voterId ==>
      CastVote(e, voterId, candidateId).after.voters[id] == e.voters[id]
    ensures forall id :: id in e.candidates && id != candidateId ==>
      CastVote(e, voterId, candidateId).after.candidates[id] == e.candidates[id]
    ensures WellFormed(e) ==> WellFormed(CastVote(e, voterId, candidateId).after)
  {
  }

  /** Every operation keeps the records under their own ids and the counts non-negative. */
  lemma ApplyKeepsWellFormed(e: Election, op: Op)
    requires WellFormed(e)
    ensures WellFormed(Apply(e, op).after)
  {
    match op
    case RegisterVoterOp(v, n, a) => RegisterVoterFrame(e, v, n, a);
    case RegisterCandidateOp(c, n) => RegisterCandidateFrame(e, c, n);
    case CastVoteOp(v, c) => CastVoteFrame(e, v, c);
  }

  // ----- The tally invariant -----

  /** The sum of all vote counts. */
  ghost function TotalVotes(m: map<string, CandidateRecord>): int
    decreases |m|
  {
    if m == map[] then 0
    else
      var id :| id in m;
      m[id].voteCount + TotalVotes(m - {id})
  }

  /** The number of voters whose flag is set. */
  ghost function VotedCount(m: map<string, VoterRecord>): nat {
    |set id | id in m && m[id].hasVoted|
  }

  /** Votes counted minus voters marked: zero exactly when the tally matches the register. */
  ghost function Surplus(e: Election): int {
    TotalVotes(e.candidates) - VotedCount(e.voters)
  }

  /** The vote counts add up to the number of voters who have voted. */
  ghost predicate Balanced(e: Election) {
    Surplus(e) == 0
  }

  /** The sum does not depend on which entry is taken out first. */
  lemma {:induction false} TotalVotesWithout(m: map<string, CandidateRecord>, id: string)
    requires id in m
    ensures TotalVotes(m) == m[id].voteCount + TotalVotes(m - {id})
    decreases |m|
  {
    var j :| j in m && TotalVotes(m) == m[j].voteCount + TotalVotes(m - {j});
    if j != id {
      var rest := m - {j} - {id};
      assert m - {id} - {j} == rest;
      TotalVotesWithout(m - {j}, id);
      TotalVotesWithout(m - {id}, j);
    }
  }

  /** Replacing or adding one entry changes the sum by the difference of that entry alone. */
  lemma TotalVotesUpdate(m: map<string, CandidateRecord>, id: string, c: CandidateRecord)
    ensures TotalVotes(m[id := c]) == TotalVotes(m) - (if id in m then m[id].voteCount else 0) + c.voteCount
  {
    var m' := m[id := c];
    TotalVotesWithout(m', id);
    if id in m {
      TotalVotesWithout(m, id);
      assert m' - {id} == m - {id};
    } else {
      assert m' - {id} == m;
    }
  }

  /** Adding a voter who has not voted leaves the number who have voted as it was. */
  lemma VotedCountAddFresh(m: map<string, VoterRecord>, id: string, v: VoterRecord)
    requires id !in m && !v.hasVoted
    ensures VotedCount(m[id := v]) == VotedCount(m)
  {
    var m' := m[id := v];
    assert (set k | k in m' && m'[k].hasVoted) == (set k | k in m && m[k].hasVoted);
  }

  /** Setting the flag of a voter who had not voted adds exactly one to the number who have voted. */
  lemma VotedCountMark(m: map<string, VoterRecord>, id: string)
    requires id in m && !m[id].hasVoted
    ensures VotedCount(m[id := m[id].(hasVoted := true)]) == VotedCount(m) + 1
  {
    var m' := m[id := m[id].(hasVoted := true)];
    var before := set k | k in m && m[k].hasVoted;
    assert (set k | k in m' && m'[k].hasVoted) == before + {id};
    assert id !in before;
  }

  // ----- Sequences of operations -----

  /** One call on the store's public interface. */
  datatype Op =
    | RegisterVoterOp(voterId: string, name: string, age: int)
    | RegisterCandidateOp(candidateId: string, name: string)
    | CastVoteOp(voterId: string, candidateId: string)

  function Apply(e: Election, op: Op): Step {
    match op
    case RegisterVoterOp(v, n, a) => RegisterVoter(e, v, n, a)
    case RegisterCandidateOp(c, n) => RegisterCandidate(e, c, n)
    case CastVoteOp(v, c) => CastVote(e, v, c)
  }

  /** The state after the operations, applied in order; a rejected one changes nothing. */
  function Run(e: Election, ops: seq<Op>): Election
    decreases |ops|
  {
    if ops == [] then e else Run(Apply(e, ops[0]).after, ops[1..])
  }

  /** No operation changes votes-counted minus voters-marked. */
  lemma ApplyKeepsSurplus(e: Election, op: Op)
    ensures Surplus(Apply(e, op).after) == Surplus(e)
  {
    var s := Apply(e, op);
    if s.ok {
      match op
      case RegisterVoterOp(v, n, a) =>
        VotedCountAddFresh(e.voters, v, VoterRecord(v, n, a, false));
      case RegisterCandidateOp(c, n) =>
        TotalVotesUpdate(e.candidates, c, CandidateRecord(c, n, 0));
      case CastVoteOp(v, c) =>
        var cand := e.candidates[c];
        TotalVotesUpdate(e.candidates, c, cand.(voteCount := cand.voteCount + 1));
        VotedCountMark(e.voters, v);
    }
  }

  lemma {:induction false} RunKeepsSurplus(e: Election, ops: seq<Op>)
    ensures Surplus(Run(e, ops)) == Surplus(e)
    decreases |ops|
  {
    if ops != [] {
      ApplyKeepsSurplus(e, ops[0]);
      RunKeepsSurplus(Apply(e, ops[0]).after, ops[1..]);
    }
  }

  /** From empty collections, every sequence of operations leaves the tally balanced and well formed. */
  lemma {:induction false} RunFromEmpty(ops: seq<Op>)
    ensures Balanced(Run(Empty, ops)) && WellFormed(Run(Empty, ops))
  {
    RunKeepsSurplus(Empty, ops);
    assert TotalVotes(map[]) == 0;
    RunKeepsWellFormed(Empty, ops);
  }

  lemma {:induction false} RunKeepsWellFormed(e: Election, ops: seq<Op>)
    requires WellFormed(e)
    ensures WellFormed(Run(e, ops))
    decreases |ops|
  {
    if ops != [] {
      ApplyKeepsWellFormed(e, ops[0]);
      RunKeepsWellFormed(Apply(e, ops[0]).after, ops[1..]);
    }
  }

  /**
   * Nothing is ever undone: no entry disappears, no identity, name or age changes,
   * a set flag stays set and no count goes down.
   */
  ghost predicate Grows(e: Election, e': Election) {
    (forall id :: id in e.voters ==>
       id in e'.voters &&
       e'.voters[id].id == e.voters[id].id && e'.voters[id].name == e.voters[id].name &&
       e'.voters[id].age == e.voters[id].age &&
       (e.voters[id].hasVoted ==> e'.voters[id].hasVoted)) &&
    (forall id :: id in e.candidates ==>
       id in e'.candidates &&
       e'.candidates[id].id == e.candidates[id].id && e'.candidates[id].name == e.candidates[id].name &&
       e.candidates[id].voteCount <= e'.candidates[id].voteCount)
  }

  /** One operation undoes nothing. */
  lemma ApplyGrows(e: Election, op: Op)
    ensures Grows(e, Apply(e, op).after)
  {
    match op
    case RegisterVoterOp(v, n, a) => RegisterVoterFrame(e, v, n, a);
    case RegisterCandidateOp(c, n) => RegisterCandidateFrame(e, c, n);
    case CastVoteOp(v, c) => CastVoteFrame(e, v, c);
  }

  lemma {:induction false} RunGrows(e: Election, ops: seq<Op>)
    ensures Grows(e, Run(e, ops))
    decreases |ops|
  {
    if ops != [] {
      var e1 := Apply(e, ops[0]).after;
      ApplyGrows(e, ops[0]);
      RunGrows(e1, ops[1..]);
    }
  }
}
