/**
 * A registered candidate.  Identity and name are fixed at construction; the
 * vote count starts at zero and its only mutator adds one.
 */
module CandidateModel {

  /** The value of a candidate at one moment. */
  datatype CandidateRecord = CandidateRecord(id: string, name: string, voteCount: int)

  class Candidate {
    const candidateId: string
    const name: string
    var voteCount: int

    /** A new candidate carries the given identity and has no votes. */
    constructor (candidateId: string, name: string)
      ensures Snapshot() == CandidateRecord(candidateId, name, 0)
    {
      this.candidateId := candidateId;
      this.name := name;
      this.voteCount := 0;
    }

    /** The record this object currently denotes. */
    function Snapshot(): CandidateRecord
      reads this
    {
      CandidateRecord(candidateId, name, voteCount)
    }

    /** Adds exactly one vote; identity and name are untouched. */
    method IncrementVoteCount()
      modifies this
      ensures Snapshot() == old(Snapshot()).(voteCount := old(voteCount) + 1)
      ensures voteCount > old(voteCount)
    {
      voteCount := voteCount + 1;
    }

    /** The text a selection list shows for this candidate: its name, never its id or count. */
    function ToString(): (s: string)
      reads this
      ensures s == Snapshot().name
    {
      name
    }
  }
}
