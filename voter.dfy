/**
 * A registered voter.  Identity, name and age are fixed at construction (the
 * class has getters for them and no setters), so they are `const` here; the
 * only mutable field is the has-voted flag.
 */
module VoterModel {

  /** The value of a voter at one moment: what a snapshot, a saved line and the store's view hold. */
  datatype VoterRecord = VoterRecord(id: string, name: string, age: int, hasVoted: bool)

  class Voter {
    const voterId: string
    const name: string
    const age: int
    var hasVoted: bool

    /** A new voter carries the given identity and has not voted. */
    constructor (voterId: string, name: string, age: int)
      ensures Snapshot() == VoterRecord(voterId, name, age, false)
    {
      this.voterId := voterId;
      this.name := name;
      this.age := age;
      this.hasVoted := false;
    }

    /** The record this object currently denotes. */
    function Snapshot(): VoterRecord
      reads this
    {
      VoterRecord(voterId, name, age, hasVoted)
    }

    /** Sets the flag to `b`; identity, name and age are untouched. */
    method SetHasVoted(b: bool)
      modifies this
      ensures Snapshot() == old(Snapshot()).(hasVoted := b)
    {
      hasVoted := b;
    }
  }
}
