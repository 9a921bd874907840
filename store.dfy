/** The popularity records and the key-value repository that holds them. */
module ItemPopularityStore {

  datatype Option<T> = None | Some(value: T) {
    function GetOr(default: T): T {
      match this
      case Some(v) => v
      case None => default
    }
  }

  /** One popularity record. The source record also carries an optimistic-locking
      version, which guards against another writer saving the same record
      between a read and a save. This model assumes no such writer, so the
      version is not modelled. */
  datatype ItemPopularity = ItemPopularity(itemId: string, count: int) {
    /** The record with `delta` added to its count. The source of this method is
        not part of this model; it is taken to keep the item id and add `delta`
        to the count, with no overflow. */
    function ChangeCount(delta: int): ItemPopularity {
      ItemPopularity(itemId, count + delta)
    }
  }

  /** The record a handler starts from when an item has none stored yet. */
  function DefaultRecord(itemId: string): ItemPopularity {
    ItemPopularity(itemId, 0)
  }

  /** The record stored under `itemId`, if any: the pure form of
      `ItemPopularityRepository.FindById`, used by the reducer. */
  function Find(counts: map<string, int>, itemId: string): Option<ItemPopularity> {
    if itemId in counts then Some(ItemPopularity(itemId, counts[itemId])) else None
  }

  /** The store after inserting or replacing the record of `p.itemId`. */
  function WithRecord(counts: map<string, int>, p: ItemPopularity): map<string, int> {
    counts[p.itemId := p.count]
  }

  /** The count an item has in a store, 0 for an item without a record. */
  function CountOf(counts: map<string, int>, itemId: string): int {
    if itemId in counts then counts[itemId] else 0
  }

  /** The repository of popularity records, keyed by item id. The store is a
      map from item id to count; a record's id is its key. */
  class ItemPopularityRepository {
    var counts: map<string, int>

    constructor ()
      ensures counts == map[]
    {
      counts := map[];
    }

    /** The stored record of `itemId`, or None when there is none. */
    method FindById(itemId: string) returns (r: Option<ItemPopularity>)
      ensures r.Some? <==> itemId in counts
      ensures r.Some? ==> r.value.itemId == itemId && r.value.count == counts[itemId]
    {
      if itemId in counts {
        r := Some(ItemPopularity(itemId, counts[itemId]));
      } else {
        r := None;
      }
    }

    /** Inserts or replaces the record stored under `p.itemId`. */
    method Save(p: ItemPopularity)
      modifies this
      ensures counts == WithRecord(old(counts), p)
      ensures counts.Keys == old(counts).Keys + {p.itemId} && counts[p.itemId] == p.count
    {
      counts := counts[p.itemId := p.count];
    }
  }
}
