# Item popularity projection handler

A model of the read-side event reducer of the shopping-cart service's item
popularity projection. The handler is called once per event envelope of its
tag. For each of the three popularity events it reads the item's record from
the popularity repository (or starts from a fresh record with count 0), changes
the record's count, and saves the record back:

- `ItemAdded` adds `quantity`;
- `ItemQuantityAdjusted` adds `newQuantity - oldQuantity`;
- `ItemRemoved` subtracts `oldQuantity`;
- every other cart event (a checkout, for example) is skipped.

Files and modules:

- `events.dfy`, module `ShoppingCartEvents`: the cart events as one datatype,
  with an `Other` variant standing for every non-popularity event, and the
  envelope in which the log delivers them.
- `store.dfy`, module `ItemPopularityStore`: the popularity record and the
  repository. The repository is a class whose one field, a
  `map<string, int>` from item id to count, is updated in place by `Save`.
- `reducer.dfy`, module `PopularityReducer`: the pure specification. `Apply`
  is the effect of one event on the store's contents. `Fold` is the effect of
  a sequence of events. The lemmas relate `Fold` to independent per-item sums.
- `handler.dfy`, module `ProjectionHandler`: the handler class. `Process` does
  what the source's `process` does, step by step, against the repository
  object, and is proved equal to `Apply`. `ProcessAll` hands a sequence of
  envelopes to `Process` one at a time and is proved equal to `Fold`.

Assumptions, because the code behind them is not part of this model:

- `ItemPopularity.changeCount(d)` returns a record with the same item id and
  the count plus `d` (`ItemPopularity.ChangeCount`).
- Of the two zeros in `new ItemPopularity(itemId, 0, 0)`, one is the count and
  one is a version. The version is not modelled, so the default record is
  `ItemPopularity(itemId, 0)`.
- The repository's `findById` returns the record stored under the id, if any,
  and `save` inserts or replaces the record under its own item id.
- No other writer changes the repository while a handler runs. The source
  gives every tag's handler the same repository, so this is an assumption about
  the deployment (see "## Left out").

The handler does no deduplication of its own. Delivering the same popularity
event twice applies its change twice (`RedeliveryAppliesTwice`). Effective
exactly-once processing comes from the projection runtime, which commits the
handler's writes and the stream offset in one transaction. That runtime is not
part of this model.

## Model

| member | source | states |
|---|---|---|
| `PopularityReducer.Apply` | docs-source/docs/modules/microservices-tutorial/examples/shopping-cart-service-java/src/main/java/shopping/cart/ItemPopularityProjectionHandler.java:25-56 | A non-popularity event leaves the store unchanged. A popularity event leaves a record for its item, so the keys become the old keys plus that item. The new count is the old count (0 if absent) plus `quantity`, plus `newQuantity - oldQuantity`, or minus `oldQuantity`, by event kind. Every other key keeps its value. |
| `ProjectionHandler.ItemPopularityProjectionHandler.Process` | docs-source/docs/modules/microservices-tutorial/examples/shopping-cart-service-java/src/main/java/shopping/cart/ItemPopularityProjectionHandler.java:21-57 | After processing an envelope, the repository holds `Apply` of the old contents and the envelope's event. Non-popularity events leave it unchanged. A popularity event adds its item's key, and the count becomes the old count (default 0) plus the event's change. |
| `ProjectionHandler.ItemPopularityProjectionHandler.ProcessAll` | docs-source/docs/modules/microservices-tutorial/examples/shopping-cart-service-java/src/main/java/shopping/cart/ItemPopularityProjection.java:59-64 | Calling `process` on a tag's envelopes one at a time, in order, leaves the repository holding `Fold` of their events over its old contents. |
| `ProjectionHandler.ItemPopularityProjectionHandler.constructor` | docs-source/docs/modules/microservices-tutorial/examples/shopping-cart-service-java/src/main/java/shopping/cart/ItemPopularityProjectionHandler.java:15-18 | The handler keeps the tag and the repository it is given. |
| `ItemPopularityStore.ItemPopularityRepository.FindById` | docs-source/docs/modules/microservices-tutorial/examples/shopping-cart-service-java/src/main/java/shopping/cart/ItemPopularityProjectionHandler.java:28-29 | Returns a record exactly when the item has one stored. That record carries the item's id and stored count. |
| `ItemPopularityStore.ItemPopularityRepository.Save` | docs-source/docs/modules/microservices-tutorial/examples/shopping-cart-service-java/src/main/java/shopping/cart/ItemPopularityProjectionHandler.java:31 | The saved record's item is in the store with the saved count. No other key is added, removed or changed. |
| `PopularityReducer.FoldCount` | docs-source/docs/modules/microservices-tutorial/examples/shopping-cart-service-java/src/main/java/shopping/cart/ItemPopularityProjectionHandler.java:21-57 | For any event sequence, an item's final count is its starting count (0 if absent) plus the sum of its `ItemAdded` quantities, plus the sum of `newQuantity - oldQuantity` over its adjustments, minus the sum of `oldQuantity` over its removals. |
| `PopularityReducer.FoldKeys` | docs-source/docs/modules/microservices-tutorial/examples/shopping-cart-service-java/src/main/java/shopping/cart/ItemPopularityProjectionHandler.java:21-57 | Records are created lazily and never deleted. After any event sequence, the stored items are exactly the items stored before plus the items named by its popularity events. |
| `PopularityReducer.FoldFrame` | docs-source/docs/modules/microservices-tutorial/examples/shopping-cart-service-java/src/main/java/shopping/cart/ItemPopularityProjectionHandler.java:21-57 | An item that no popularity event in the sequence names keeps its presence and its stored count. |
| `PopularityReducer.FoldAppend` | docs-source/docs/modules/microservices-tutorial/examples/shopping-cart-service-java/src/main/java/shopping/cart/ItemPopularityProjectionHandler.java:21-57 | Processing a log in two pieces, the second starting from the store the first left, gives the same store as processing it in one go. |
| `PopularityReducer.ApplyCount` | docs-source/docs/modules/microservices-tutorial/examples/shopping-cart-service-java/src/main/java/shopping/cart/ItemPopularityProjectionHandler.java:25-52 | One event changes only the count of the item it names, and changes it by the added quantity, by `newQuantity - oldQuantity`, or by minus `oldQuantity`. Every other item's count, with 0 for a missing record, stays the same. |
| `PopularityReducer.SwapAdjacent` | docs-source/docs/modules/microservices-tutorial/examples/shopping-cart-service-java/src/main/java/shopping/cart/ItemPopularityProjectionHandler.java:25-56 | Any two events processed in either order leave the same store: same keys and same counts. |
| `PopularityReducer.FoldSwap` | docs-source/docs/modules/microservices-tutorial/examples/shopping-cart-service-java/src/main/java/shopping/cart/ItemPopularityProjectionHandler.java:21-57 | Swapping two adjacent events anywhere in a log does not change the store the log leads to. |
| `PopularityReducer.AddAdjustRemoveExample` | docs-source/docs/modules/microservices-tutorial/examples/shopping-cart-service-java/src/main/java/shopping/cart/ItemPopularityProjectionHandler.java:25-52 | Adding 3 of an item, adjusting it from 3 to 5, then removing 5 leaves its count where it started. A record for the item stays in the store. |
| `PopularityReducer.AddAdjustRemoveFromEmpty` | docs-source/docs/modules/microservices-tutorial/examples/shopping-cart-service-java/src/main/java/shopping/cart/ItemPopularityProjectionHandler.java:25-52 | From an empty store, those three events leave exactly one record, for that item, with count 0. |
| `PopularityReducer.RedeliveryAppliesTwice` | docs-source/docs/modules/microservices-tutorial/examples/shopping-cart-service-java/src/main/java/shopping/cart/ItemPopularityProjectionHandler.java:25-52 | Applying a popularity event twice changes its item's count by twice the event's change. If that change is nonzero, the store differs from applying the event once. |

## Left out

- The projection wiring in `ItemPopularityProjection.java`: the sharded daemon process that gives each tag one worker, the events-by-tag source, the exactly-once projection that commits the handler's writes and the offset in one transaction, and the offset table. This is distributed runtime behaviour of the library. Of it, only the one-at-a-time, in-order delivery of a tag's envelopes is modelled, by `ProcessAll`.
- `AsyncItemPopularityRepository`: it only runs the repository's `findById` on a blocking executor and has no logic of its own.
- The logging call after an `ItemAdded` event: an observability side effect.
- The JDBC session parameter of `process`: the handler never uses it. Transactions and their rollback are not modelled either.
- The version field of `ItemPopularity` and all persistence mapping details.
- How the tag names are chosen: that code is not part of this model.
- The cart id carried by the source's events: the handler never reads it.
- ItemPopularity.ChangeCount: the source of `changeCount` is not part of this model. It is assumed to keep the item id and add the delta, with no overflow.
- 32-bit `int` overflow: counts and quantities are unbounded integers. The model does not capture wrap-around in `changeCount`, in the handler's own `newQuantity - oldQuantity` (ItemPopularityProjectionHandler.java:44), or in its `-oldQuantity` (ItemPopularityProjectionHandler.java:51).
- Concurrent writers to the repository: every tag's handler is given the same repository (ItemPopularityProjection.java:39 and :63), and tags run in parallel. `findById` followed by `save` (ItemPopularityProjectionHandler.java:28-31) is not atomic by itself. `Process` and `ProcessAll` are proved only for a repository that no other handler writes between a `FindById` and the following `Save`. A lost update from such an interleaving is not modelled, and neither is the record's optimistic-locking version, which would turn that lost update into a failed save. `SwapAdjacent` and `FoldSwap` show that the order of events across handlers does not matter once each event is applied whole.
- Idempotence under retry is not claimed for the handler. The handler alone is not idempotent (`RedeliveryAppliesTwice`). The retry guarantee depends on the runtime's transaction rollback, which is not modelled.
