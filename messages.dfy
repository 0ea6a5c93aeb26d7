/** The records exchanged through the Magnify canister, and the signalling calls a client makes. */
module Messages {
  import opened PeerLink
  import opened IceBuffer

  /** A principal in hex form (`principal.toHex()`), opaque to the signalling code. */
  type Id = string

  /** The value parsed from the JSON an offer or an answer carries: a description and a candidate snapshot. */
  datatype Payload = Payload(description: Description, ice: seq<Entry>)

  /** An offer on the canister; `offer` is its parsed payload. */
  datatype Offer = Offer(initiator: Id, recipient: Id, offer: Payload)

  /** An answer on the canister, referring to the offer it answers; `answer` is its parsed payload. */
  datatype Answer = Answer(offer: Offer, answer: Payload)

  /** An entry of a room's participant list. */
  datatype Participant = Participant(principal: Id, alias: string)

  /** A signalling call the client makes: `sendAnswer(offer)` or `sendOffer(recipient, alias)`. */
  datatype Call =
    | AnswerCall(answered: Offer)
    | OfferCall(recipient: Id, alias: string)
  {
    /** The peer the call engages. */
    function Peer(): Id
    {
      match this
      case AnswerCall(o) => o.initiator
      case OfferCall(p, _) => p
    }
  }

  function InitiatorOf(o: Offer): Id { o.initiator }

  function PrincipalOf(p: Participant): Id { p.principal }
}
