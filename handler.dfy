/** The projection handler: the object the projection runtime calls once per
    envelope of its tag, updating the popularity repository in place. */
module ProjectionHandler {
  import opened ShoppingCartEvents
  import opened ItemPopularityStore
  import opened PopularityReducer

  class ItemPopularityProjectionHandler {
    const tag: string
    const repo: ItemPopularityRepository

    constructor (tag: string, repo: ItemPopularityRepository)
      ensures this.tag == tag && this.repo == repo
    {
      this.tag := tag;
      this.repo := repo;
    }

    /** Processes one envelope: for a popularity event, reads the item's record
        (the default record when there is none), changes its count by the
        event's amount and saves it; skips every other event. */
    method Process(envelope: EventEnvelope)
      modifies repo
      ensures repo.counts == Apply(old(repo.counts), envelope.event)
      ensures !envelope.event.IsPopularityEvent() ==> repo.counts == old(repo.counts)
      ensures envelope.event.IsPopularityEvent() ==>
                && repo.counts.Keys == old(repo.counts).Keys + {envelope.event.itemId}
                && repo.counts[envelope.event.itemId]
                   == CountOf(old(repo.counts), envelope.event.itemId) + Delta(envelope.event)
    {
      match envelope.event
      case ItemAdded(itemId, quantity) =>
        var found := repo.FindById(itemId);
        var existing := found.GetOr(DefaultRecord(itemId));
        var updated := existing.ChangeCount(quantity);
        repo.Save(updated);
      case ItemQuantityAdjusted(itemId, oldQuantity, newQuantity) =>
        var found := repo.FindById(itemId);
        var existing := found.GetOr(DefaultRecord(itemId));
        var updated := existing.ChangeCount(newQuantity - oldQuantity);
        repo.Save(updated);
      case ItemRemoved(itemId, oldQuantity) =>
        var found := repo.FindById(itemId);
        var existing := found.GetOr(DefaultRecord(itemId));
        var updated := existing.ChangeCount(-oldQuantity);
        repo.Save(updated);
      case Other(_) =>
        // every other event, such as a checkout, is skipped
    }

    /** The projection runtime's use of the handler: the envelopes of one tag
        are handed to `Process` one at a time, in order. The repository ends
        up holding the fold of their events over what it held before. */
    method ProcessAll(envelopes: seq<EventEnvelope>)
      modifies repo
      ensures repo.counts == Fold(old(repo.counts), Events(envelopes))
    {
      var i := 0;
      while i < |envelopes|
        invariant 0 <= i <= |envelopes|
        invariant repo.counts == Fold(old(repo.counts), Events(envelopes[..i]))
      {
        Process(envelopes[i]);
        assert Events(envelopes[..i + 1])[..i] == Events(envelopes[..i]);
        i := i + 1;
      }
      assert envelopes[..i] == envelopes;
    }
  }
}
