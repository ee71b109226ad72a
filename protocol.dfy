/**
 The slice of the game protocol that the item bag talks in: item kinds,
 the result codes of a recycle, the requests the bag sends and the replies
 it gets back. The enumerations belong to the protocol; the bag only
 compares them.
 */
module Protocol {

  /** An item kind. `Unrecognized` is the sentinel a protocol enumeration
      decodes to when the number on the wire is not one it knows; every
      other kind is identified by its protocol number. */
  datatype ItemId = Unrecognized | Id(number: int)

  // Protocol numbers of the kinds the bag singles out.
  const LuckyEgg := Id(301)
  const IncenseOrdinary := Id(401)
  const IncenseSpicy := Id(402)
  const IncenseCool := Id(403)
  const IncenseFloral := Id(404)

  /** The four incense kinds, the ones `useItem` knows how to use. */
  predicate IsIncense(k: ItemId) {
    k == IncenseOrdinary || k == IncenseSpicy || k == IncenseCool || k == IncenseFloral
  }

  /** Result code of a recycle-inventory-item reply. `UnrecognizedResult`
      is what the decoder yields for a code number it does not know; the
      bag passes it back like any other code. */
  datatype RecycleResult =
    | Unset | Success | ErrorNotEnoughCopies | ErrorCannotRecycleIncubators
    | UnrecognizedResult

  /** The decoded part of a recycle reply that the bag reads. */
  datatype RecycleResponse = RecycleResponse(result: RecycleResult, newCount: int)

  /** What came back from the server once the request was sent: either
      bytes that did not decode, or the decoded response. */
  datatype Reply<R> = Undecodable | Decoded(response: R)

  /** The requests the bag hands to the transport, with their payloads. */
  datatype Request =
    | RecycleInventoryItem(item: ItemId, count: int)
    | LightIncense(incense: ItemId)
    | UseItemXpBoost(item: ItemId)

  /** The exceptions the bag raises: an argument it refuses before any
      request goes out, and a reply it cannot decode. */
  datatype Error = IllegalArgument | RemoteServer

  /** What a call returns: its value, or the exception it raised. */
  datatype Result<+T> = Ok(value: T) | Fail(error: Error)

  /** A Java reference that may be null. */
  datatype Option<+T> = None | Some(value: T)
}
