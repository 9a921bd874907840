/** The shopping-cart events that the item-popularity projection consumes,
    and the envelope in which the event log delivers them. */
module ShoppingCartEvents {

  /** A shopping-cart event. The three popularity events carry the item they
      concern; every other kind of cart event (a checkout, say) is `Other`. */
  datatype Event =
    | ItemAdded(itemId: string, quantity: int)
    | ItemQuantityAdjusted(itemId: string, oldQuantity: int, newQuantity: int)
    | ItemRemoved(itemId: string, oldQuantity: int)
    | Other(kind: string)
  {
    /** True for the events that change an item's popularity. */
    predicate IsPopularityEvent() {
      !Other?
    }
  }

  /** An event as the log delivers it: the event plus its routing and
      position metadata. The handler looks only at `event`. */
  datatype EventEnvelope = EventEnvelope(event: Event, persistenceId: string, tag: string, offset: nat)

  /** The events carried by a sequence of envelopes, in delivery order. */
  function Events(envelopes: seq<EventEnvelope>): seq<Event> {
    seq(|envelopes|, i requires 0 <= i < |envelopes| => envelopes[i].event)
  }
}
