/** The item-popularity reducer as pure functions over the store's contents:
    the effect of one event, the effect of a sequence of events, and what
    these amount to for each item's count. */
module PopularityReducer {
  import opened ShoppingCartEvents
  import opened ItemPopularityStore

  /** The store after the handler has processed `e`: a popularity event reads
      the item's record (or the default record with count 0), changes its count
      and saves it back; any other event is skipped. */
  function Apply(counts: map<string, int>, e: Event): (r: map<string, int>)
    ensures !e.IsPopularityEvent() ==> r == counts
    ensures e.IsPopularityEvent() ==> r.Keys == counts.Keys + {e.itemId}
    ensures e.ItemAdded? ==> r[e.itemId] == CountOf(counts, e.itemId) + e.quantity
    ensures e.ItemQuantityAdjusted? ==>
              r[e.itemId] == CountOf(counts, e.itemId) + (e.newQuantity - e.oldQuantity)
    ensures e.ItemRemoved? ==> r[e.itemId] == CountOf(counts, e.itemId) - e.oldQuantity
    ensures forall k :: k in counts && !(e.IsPopularityEvent() && k == e.itemId) ==> r[k] == counts[k]
  {
    match e
    case ItemAdded(itemId, quantity) =>
      var existing := Find(counts, itemId).GetOr(DefaultRecord(itemId));
      WithRecord(counts, existing.ChangeCount(quantity))
    case ItemQuantityAdjusted(itemId, oldQuantity, newQuantity) =>
      var existing := Find(counts, itemId).GetOr(DefaultRecord(itemId));
      WithRecord(counts, existing.ChangeCount(newQuantity - oldQuantity))
    case ItemRemoved(itemId, oldQuantity) =>
      var existing := Find(counts, itemId).GetOr(DefaultRecord(itemId));
      WithRecord(counts, existing.ChangeCount(-oldQuantity))
    case Other(_) =>
      counts
  }

  /** The store after the handler has processed `es` in order, one at a time. */
  function Fold(counts: map<string, int>, es: seq<Event>): map<string, int>
    decreases |es|
  {
    if es == [] then counts else Apply(Fold(counts, es[..|es| - 1]), es[|es| - 1])
  }

  /** Sum of the quantities of the ItemAdded events for `itemId`. */
  function AddedTotal(es: seq<Event>, itemId: string): int
    decreases |es|
  {
    if es == [] then 0
    else
      var e := es[|es| - 1];
      AddedTotal(es[..|es| - 1], itemId) + (if e.ItemAdded? && e.itemId == itemId then e.quantity else 0)
  }

  /** Sum of `newQuantity - oldQuantity` over the ItemQuantityAdjusted events for `itemId`. */
  function AdjustedTotal(es: seq<Event>, itemId: string): int
    decreases |es|
  {
    if es == [] then 0
    else
      var e := es[|es| - 1];
      AdjustedTotal(es[..|es| - 1], itemId)
        + (if e.ItemQuantityAdjusted? && e.itemId == itemId then e.newQuantity - e.oldQuantity else 0)
  }

  /** Sum of `oldQuantity` over the ItemRemoved events for `itemId`. */
  function RemovedTotal(es: seq<Event>, itemId: string): int
    decreases |es|
  {
    if es == [] then 0
    else
      var e := es[|es| - 1];
      RemovedTotal(es[..|es| - 1], itemId) + (if e.ItemRemoved? && e.itemId == itemId then e.oldQuantity else 0)
  }

  /** The item ids named by the popularity events of `es`. */
  function Touched(es: seq<Event>): set<string>
    decreases |es|
  {
    if es == [] then {}
    else
      var e := es[|es| - 1];
      Touched(es[..|es| - 1]) + (if e.IsPopularityEvent() then {e.itemId} else {})
  }

  /** The change one event makes to the count of the item it names. */
  function Delta(e: Event): int {
    match e
    case ItemAdded(_, quantity) => quantity
    case ItemQuantityAdjusted(_, oldQuantity, newQuantity) => newQuantity - oldQuantity
    case ItemRemoved(_, oldQuantity) => -oldQuantity
    case Other(_) => 0
  }

  /** After any sequence of events, an item's count is its starting count plus
      its added quantities, plus its net adjustments, minus its removed quantities. */
  lemma {:induction false} FoldCount(counts: map<string, int>, es: seq<Event>, itemId: string)
    ensures CountOf(Fold(counts, es), itemId)
            == CountOf(counts, itemId) + AddedTotal(es, itemId) + AdjustedTotal(es, itemId)
               - RemovedTotal(es, itemId)
    decreases |es|
  {
    if es != [] {
      FoldCount(counts, es[..|es| - 1], itemId);
    }
  }

  /** Records are created lazily and never deleted: after a sequence of events
      the store holds exactly the items it held before plus those the
      popularity events named. */
  lemma {:induction false} FoldKeys(counts: map<string, int>, es: seq<Event>)
    ensures Fold(counts, es).Keys == counts.Keys + Touched(es)
    decreases |es|
  {
    if es != [] {
      FoldKeys(counts, es[..|es| - 1]);
    }
  }

  /** An item that no popularity event names keeps its record unchanged. */
  lemma {:induction false} FoldFrame(counts: map<string, int>, es: seq<Event>, itemId: string)
    requires itemId !in Touched(es)
    ensures itemId in Fold(counts, es) <==> itemId in counts
    ensures itemId in counts ==> Fold(counts, es)[itemId] == counts[itemId]
    decreases |es|
  {
    if es != [] {
      FoldFrame(counts, es[..|es| - 1], itemId);
    }
  }

  /** Processing a log in two pieces, the second starting from the store the
      first left behind, gives the same store as processing it in one go. */
  lemma {:induction false} FoldAppend(counts: map<string, int>, first: seq<Event>, second: seq<Event>)
    ensures Fold(counts, first + second) == Fold(Fold(counts, first), second)
    decreases |second|
  {
    if second == [] {
      assert first + second == first;
    } else {
      var whole := first + second;
      assert whole[..|whole| - 1] == first + second[..|second| - 1];
      assert whole[|whole| - 1] == second[|second| - 1];
      FoldAppend(counts, first, second[..|second| - 1]);
    }
  }

  /** An event changes only the count of the item it names, by its `Delta`. */
  lemma ApplyCount(counts: map<string, int>, e: Event, itemId: string)
    ensures CountOf(Apply(counts, e), itemId)
            == CountOf(counts, itemId) + (if e.IsPopularityEvent() && e.itemId == itemId then Delta(e) else 0)
  {
  }

  /** Folding two events applies the first, then the second. */
  lemma FoldPair(counts: map<string, int>, x: Event, y: Event)
    ensures Fold(counts, [x, y]) == Apply(Apply(counts, x), y)
  {
    assert [x, y][..1] == [x];
    assert [x][..0] == [];
    assert Fold(counts, [x]) == Apply(counts, x);
  }

  /** Two adjacent events processed in either order leave the same store. */
  lemma SwapAdjacent(counts: map<string, int>, x: Event, y: Event)
    ensures Fold(counts, [x, y]) == Fold(counts, [y, x])
  {
    var xy, yx := Apply(Apply(counts, x), y), Apply(Apply(counts, y), x);
    FoldPair(counts, x, y);
    FoldPair(counts, y, x);
    assert xy.Keys == yx.Keys;
    forall k | k in xy
      ensures xy[k] == yx[k]
    {
      ApplyCount(counts, x, k);
      ApplyCount(Apply(counts, x), y, k);
      ApplyCount(counts, y, k);
      ApplyCount(Apply(counts, y), x, k);
    }
  }

  /** The store a log leads to does not depend on the order of any two
      adjacent events in it, so it does not depend on their order at all. */
  lemma {:induction false} FoldSwap(counts: map<string, int>, before: seq<Event>, x: Event, y: Event, after: seq<Event>)
    ensures Fold(counts, before + [x, y] + after) == Fold(counts, before + [y, x] + after)
  {
    FoldAppend(counts, before + [x, y], after);
    FoldAppend(counts, before + [y, x], after);
    FoldAppend(counts, before, [x, y]);
    FoldAppend(counts, before, [y, x]);
    SwapAdjacent(Fold(counts, before), x, y);
  }

  /** Adding 3 of an item, adjusting it from 3 to 5 and removing the 5 leaves
      its count where it started; the record stays in the store. */
  lemma AddAdjustRemoveExample(counts: map<string, int>)
    ensures var es := [ItemAdded("ItemA", 3), ItemQuantityAdjusted("ItemA", 3, 5), ItemRemoved("ItemA", 5)];
            Fold(counts, es) == counts["ItemA" := CountOf(counts, "ItemA")]
  {
    var es := [ItemAdded("ItemA", 3), ItemQuantityAdjusted("ItemA", 3, 5), ItemRemoved("ItemA", 5)];
    var added := Apply(counts, es[0]);
    var adjusted := Apply(added, es[1]);
    var removed := Apply(adjusted, es[2]);
    assert Fold(counts, es[..1]) == added by {
      assert es[..1][..0] == [];
    }
    assert Fold(counts, es[..2]) == adjusted by {
      assert es[..2][..1] == es[..1];
    }
    assert Fold(counts, es) == removed;
    assert removed["ItemA"] == CountOf(counts, "ItemA");
    assert removed.Keys == counts.Keys + {"ItemA"};
  }

  /** From an empty store, the same three events leave a record for the item
      with count 0. */
  lemma AddAdjustRemoveFromEmpty()
    ensures var es := [ItemAdded("ItemA", 3), ItemQuantityAdjusted("ItemA", 3, 5), ItemRemoved("ItemA", 5)];
            Fold(map[], es) == map["ItemA" := 0]
  {
    AddAdjustRemoveExample(map[]);
  }

  /** The handler does no deduplication: delivering the same popularity event a
      second time applies its change a second time. */
  lemma RedeliveryAppliesTwice(counts: map<string, int>, e: Event)
    requires e.IsPopularityEvent()
    ensures CountOf(Apply(Apply(counts, e), e), e.itemId) == CountOf(counts, e.itemId) + 2 * Delta(e)
    ensures Delta(e) != 0 ==> Apply(Apply(counts, e), e) != Apply(counts, e)
  {
  }
}
