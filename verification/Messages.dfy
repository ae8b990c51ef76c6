/** The values exchanged by the peers of the simulated network (multiverse/models.go). */
module Messages {

  type MessageID = int
  type PeerID = int
  type Color = int
  type Time = int // nanoseconds

  const GENESIS: MessageID := 0
  const UNDEFINED: Color := 0

  /** A message is never changed after it was issued. */
  datatype Message = Message(
    validation: bool,
    id: MessageID,
    strongParents: set<MessageID>,
    weakParents: set<MessageID>,
    sequenceNumber: nat,
    issuer: PeerID,
    payload: Color,
    issuanceTime: Time,
    manaBurnValue: real)
  {
    function Parents(): set<MessageID> {
      strongParents + weakParents
    }

    /** The offset within the second, by which the scheduling queues are ordered. */
    function Nanosecond(): int {
      issuanceTime % 1_000_000_000
    }
  }

  /** A nonempty set of identities has a member to pick. */
  lemma Inhabited(s: set<int>)
    ensures s != {} ==> exists x :: x in s
  {
    assert (forall x :: x in s <==> x in {}) ==> s == {};
  }
}
