# Resting-order structures of an in-memory limit order book

This project models the data structures that hold resting orders in the
`nodejs-order-book` library, and proves properties of that model in Dafny:

- **Orders** (`order.dfy`, module `Orders`). There are three variants:
  limit, stop-limit and stop-market.
  - `CreateOrder` is the factory. It dispatches on the type tag and fails
    with `InvalidOrderType` on any other tag.
  - `ToObject` is the plain-object projection of each variant.
  - The module also defines the size and notional sums over sequences of
    orders.
- **Order queues** (`orderqueue.dfy`, module `OrderQueues`). An order queue
  is the FIFO of limit orders at one price. It keeps a running volume and an
  index from order id to position.
  - The `Queue` datatype gives each operation as a value transition.
  - The `OrderQueue` class holds the same fields and updates them in place.
  - Removal renumbers the index with the source's shifting loop, `ShiftDown`.
- **Order sides** (`pricetree.dfy`, `sidelevels.dfy`, `orderside.dfy`). An
  order side is one side of the live book.
  - The price tree is modelled by its keys in tree order: descending on BUY,
    ascending on SELL.
  - The tree sits beside the price-to-queue map and four running aggregates:
    the order count, the level count, the volume, and the total (the sum of
    price times size).
  - `SideLevels.SideInv` is the invariant that ties the tree, the map and the
    aggregates together. Every operation keeps it.
- **Stop queues, stop sides and the stop book** (`stopqueue.dfy`,
  `stopside.dfy`, `stopbook.dfy`). These hold conditional orders grouped by
  stop price.
  - `Between` is the range query for the band a price move sweeps.
  - `ValidConditionalOrder` is the trigger rule.
  - `Snapshot` lists both sides of the stop book.

Prices and sizes are exact decimals, modelled as `real`. Order ids are
strings and timestamps are integers. The generated id and the current time
are parameters (`freshId`, `now`).

## Model

| member | source | states |
|---|---|---|
| Orders.CreateOrder | src/order.ts:275-297 | The LIMIT, STOP_LIMIT and STOP_MARKET tags, and only these, build an order of that variant. Any other tag fails with InvalidOrderType. id and time default to the supplied fresh id and clock. Every field is taken from the options. postOnly and isOCO default to false, and ocoStopPrice is absent unless given. |
| Orders.WithSize | src/order.ts:47-49 | The size setter gives an order with the new size; putting the old size back gives the original order, so no other field changes. |
| Orders.WithTime | src/order.ts:57-59 | The time setter gives an order with the new time; putting the old time back gives the original order. |
| Orders.WithPrice | src/order.ts:103-105 | The price setter of a limit or stop-limit order gives an order of the same kind with the new price; putting the old price back gives the original order. |
| Orders.Resized | src/orderqueue.ts:82-86 | A resized order keeps its id, side, price and origSize, and carries the new size and time. It is the size setter followed by the time setter, so nothing else changes. |
| Orders.SettersKeepIdentity | src/order.ts:20-59 | The size, time and price setters keep id, side and variant. Each changes only its own field, and origSize is never touched. |
| Orders.RoundTrip | src/order.ts:78-90 | Rebuilding any order from its object form succeeds and yields the same object form. A limit order comes back with postOnly false and no OCO stop price. The stop variants come back unchanged. |
| Orders.ToObject | src/order.ts:150-161 | The object form carries the order's type tag, id, side, size and time. It is a limit, stop-limit or stop-market object exactly when the order is of that variant, with that variant's fields (limit: price, origSize, timeInForce, makerQty, takerQty; stop-limit: price, stopPrice, timeInForce, isOCO; stop-market: stopPrice). |
| Orders.ObjectOptions | src/orderside.ts:94-99 | Spreading an object form into creation options keeps its type tag, side, size and the fields of its variant, and passes its id and time (and a stop-limit's isOCO) as given values. postOnly and ocoStopPrice are left unset. |
| Orders.LimitObjectForgets | src/order.ts:150-161 | A limit order's object form does not depend on postOnly or on the OCO stop price. |
| PriceTrees.OrderedMeansSorted | src/orderside.ts:19-23 | Under the side's comparator, keys in tree order strictly ascend on SELL and strictly descend on BUY, and no price occurs twice. |
| PriceTrees.Insert | src/orderside.ts:59 | Inserting a price yields one more key, and the keys are the old ones plus that price. |
| PriceTrees.Delete | src/orderside.ts:78 | Removing a price yields one key fewer when it was present and as many otherwise. No key is added, and every other key stays. |
| PriceTrees.Below | src/orderside.ts:146-152 | The position found, if any, holds a key strictly below the price. |
| PriceTrees.Above | src/orderside.ts:155-161 | The position found, if any, holds a key strictly above the price. |
| PriceTrees.MaxAt | src/orderside.ts:124-132 | The position of the highest key, which is missing exactly when the tree is empty. |
| PriceTrees.MinAt | src/orderside.ts:135-143 | The position of the lowest key, which is missing exactly when the tree is empty. |
| PriceTrees.Rank | src/orderside.ts:59 | The insertion point of a price is after the keys that come before it and before those that do not. |
| PriceTrees.InsertOrdered | src/orderside.ts:59 | Inserting a new price keeps the keys ordered and adds exactly that price. |
| PriceTrees.IndexOf | src/orderside.ts:78 | Gives the position of a price in the keys, or the length of the keys when the price is absent. |
| PriceTrees.DeleteOrdered | src/orderside.ts:78 | Removing a price keeps the keys ordered and takes out exactly that price. An absent price changes nothing. |
| PriceTrees.Lt | src/orderside.ts:149 | The tree's `lt` finds the last key strictly before the price in tree order. No later key comes before the price. |
| PriceTrees.Gt | src/orderside.ts:150 | The tree's `gt` finds the first key strictly after the price in tree order. No earlier key comes after the price. |
| PriceTrees.BelowNearest | src/orderside.ts:146-152 | On both sides, `lt` on SELL and `gt` on BUY give the greatest key strictly below the price, or nothing exactly when no key is below it. |
| PriceTrees.AboveNearest | src/orderside.ts:155-161 | On both sides, `gt` on SELL and `lt` on BUY give the least key strictly above the price, or nothing exactly when no key is above it. |
| PriceTrees.MaxMinExtreme | src/orderside.ts:124-143 | The tree's end (SELL) or begin (BUY) is the highest key. Its begin (SELL) or end (BUY) is the lowest key. Both are missing exactly when the tree is empty. |
| OrderQueues.IndexedUnique | src/orderqueue.ts:11 | An exact id-to-position index implies that the queued ids are distinct. Its keys are exactly the queued ids. |
| OrderQueues.Reindexed | src/orderqueue.ts:73-79 | After a removal, the index covers every id except the removed one. |
| OrderQueues.IndexedRemove | src/orderqueue.ts:69-80 | Dropping the removed id and moving every later position up one keeps the index exact for the shortened queue. |
| OrderQueues.IndexedReplace | src/orderqueue.ts:82-86 | Replacing an order in place by one with the same id keeps the index exact. |
| OrderQueues.ShiftDown | src/orderqueue.ts:75-79 | The loop lowers by one every index greater than the removed position and leaves the others. It keeps the same keys. |
| OrderQueues.Unindex | src/orderqueue.ts:71-79 | Deleting the id and then running the loop yields the reindexed map. |
| OrderQueues.HeadReindexed | src/orderqueue.ts:62-65 | The old head id leaves the index and the new head id maps to 0. |
| OrderQueues.IndexedHead | src/orderqueue.ts:57-66 | Replacing the head keeps the index exact. |
| OrderQueues.Queue.Append | src/orderqueue.ts:49-54 | The order joins at the tail and the volume grows by its size. The volume and the index stay exact. |
| OrderQueues.Queue.Update | src/orderqueue.ts:57-66 | The head is replaced by the new order and the rest is unchanged. The length is the same, and the volume changes by the new size minus the old. The volume and the index stay exact. |
| OrderQueues.Queue.Remove | src/orderqueue.ts:69-80 | Exactly the given order leaves, and the others keep their relative order. The volume drops by its size, its id leaves the index, and the volume and the index stay exact. |
| OrderQueues.Queue.Resize | src/orderqueue.ts:82-86 | The order keeps its position with the new size and time. The volume changes by the new size minus the old, the index is unchanged, and the volume and the index stay exact. |
| OrderQueues.EmptyQueue | src/orderqueue.ts:13-17 | A new queue is empty, has zero volume and is valid. |
| OrderQueues.OrderQueue.constructor | src/orderqueue.ts:13-17 | A new queue object is the empty queue at its price. |
| OrderQueues.OrderQueue.Len | src/orderqueue.ts:20-22 | Gives the number of queued orders. |
| OrderQueues.OrderQueue.ToArray | src/orderqueue.ts:24-26 | Gives the queued orders, head first. |
| OrderQueues.OrderQueue.Volume | src/orderqueue.ts:34-36 | The running volume equals the sum of the queued sizes. |
| OrderQueues.OrderQueue.Head | src/orderqueue.ts:39-41 | Gives the oldest order, or nothing exactly when the queue is empty. |
| OrderQueues.OrderQueue.Tail | src/orderqueue.ts:44-46 | Gives the newest order, or nothing exactly when the queue is empty. |
| OrderQueues.OrderQueue.Append | src/orderqueue.ts:49-54 | Returns the same order. The new state is the queue with the order appended, and it stays valid. |
| OrderQueues.OrderQueue.Update | src/orderqueue.ts:57-66 | The new state is the queue with the head replaced, and it stays valid. |
| OrderQueues.OrderQueue.Remove | src/orderqueue.ts:69-80 | Removal renumbers the index with the source's loop. The new state is the queue with the order removed, and it stays valid. |
| OrderQueues.OrderQueue.UpdateOrderSize | src/orderqueue.ts:82-86 | The new state is the queue with the order resized in place, and it stays valid. |
| SideLevels.AppendShaped | src/orderside.ts:53-66 | Append keeps the side well formed. It adds a level exactly when the price had none. |
| SideLevels.AppendStep | src/orderside.ts:53-66 | Append adds exactly the order to the side's contents: one more order, volume up by its size, total up by its price times size. |
| SideLevels.AppendKeeps | src/orderside.ts:53-66 | Append keeps the side invariant. The depth grows exactly when the price was new, and the count, volume and total follow. |
| SideLevels.RemoveShaped | src/orderside.ts:69-80 | Remove keeps the side well formed. It drops the level, from map and tree alike, exactly when the order was its last. |
| SideLevels.RemoveStep | src/orderside.ts:69-86 | Remove takes exactly the order out of the side's contents, with the count, volume and total shrinking by it. |
| SideLevels.RemoveKeeps | src/orderside.ts:69-86 | Remove keeps the side invariant. The depth drops exactly when the level empties. |
| SideLevels.LevelResize | src/orderside.ts:116-119 | A resized order stays in a well-formed level of its own price. |
| SideLevels.ResizeStep | src/orderside.ts:116-119 | updateOrderSize replaces the order by its resized value at its own position in the side's contents. |
| SideLevels.ResizeSums | src/orderside.ts:110-119 | After updateOrderSize, the count is unchanged, the volume changes by the size difference, and the total swaps the order's old amount for its new one. |
| SideLevels.SizeUpdateTotal | src/orderside.ts:112-114 | Corrected total: it changes by the order's own price times the size difference. |
| SideLevels.SizeUpdateTotalAsWritten | src/orderside.ts:109-114 | The source's total update, with the price term taken from the update when one is given. |
| SideLevels.AsWrittenAgreesIff | src/orderside.ts:109-114 | The source's total update agrees with the corrected one exactly when the update carries no other price or the new size is zero. |
| SideLevels.AsWrittenTotalDrifts | src/orderside.ts:109-114 | A concrete input on which the source's total moves away from the sum of price times size. |
| SideLevels.ResizeKeeps | src/orderside.ts:105-121 | updateOrderSize with the corrected total keeps the side invariant, including total = sum of price times size. |
| SideLevels.ResizedTotal | src/orderside.ts:112-114 | The corrected total is the old total with the order's old amount swapped for its resized amount. |
| SideLevels.LevelReplaced | src/orderside.ts:116-119 | Replacing a level by a level at the same price keeps the side well formed. |
| SideLevels.PickedEvery | src/orderside.ts:164-171 | Collecting the orders of every level gives the side's contents. |
| SideLevels.EmptyTree | src/orderside.ts:125-131 | A side with no levels has an empty price map. |
| SideLevels.RemoveLevels | src/orderside.ts:75-80 | After removal, the order's level is gone exactly when the order was its last. Its id is no longer at that price, and every other level is untouched. |
| OrderSides.AppendTo | src/orderside.ts:53-66 | Append keeps the side invariant: count, depth, volume and total equal what the levels add up to, and a level exists exactly when it is non-empty. The side gains exactly that order. |
| OrderSides.AppendToLevels | src/orderside.ts:53-66 | After append, the order is the newest of its price level, and every other level is as before. |
| OrderSides.RemoveFrom | src/orderside.ts:69-86 | Remove keeps the side invariant, and the side loses exactly that order. |
| OrderSides.RemoveFromLevels | src/orderside.ts:69-86 | After remove, the level is gone exactly when the order was its last, the id is gone from it, and the other levels are as before. |
| OrderSides.ResizeIn | src/orderside.ts:105-121 | updateOrderSize with the corrected total keeps the side invariant, including total = sum of price times size. The tree and the set of level prices are unchanged. |
| OrderSides.ResizeInPlace | src/orderside.ts:105-121 | updateOrderSize leaves the order at its position in the contents with the new size and time, and every other order where it was. |
| OrderSides.Repriced | src/orderside.ts:94-99 | The rebuilt order has the old one's id, side, origSize, timeInForce, makerQty and takerQty. It has the new price, the given size or else the old size, and the current time. postOnly is false and there is no OCO stop price. |
| OrderSides.RepriceIn | src/orderside.ts:89-102 | updateOrderPrice keeps the invariant and puts the rebuilt order at the tail of the new price's level. The side's orders are the old ones minus the old order plus the new. |
| OrderSides.CollectLevels | src/orderside.ts:164-171 | The loop concatenates every level's orders, whatever order it takes the levels in. |
| OrderSides.OrderSide.constructor | src/orderside.ts:18-25 | A new side is empty and valid, with zero aggregates. |
| OrderSides.OrderSide.Len | src/orderside.ts:28-30 | The order count equals the number of resting orders. |
| OrderSides.OrderSide.Depth | src/orderside.ts:33-35 | The depth equals the number of price levels, and it is zero exactly when there are none. |
| OrderSides.OrderSide.Volume | src/orderside.ts:38-40 | The volume equals the sum of the resting sizes. |
| OrderSides.OrderSide.Total | src/orderside.ts:43-45 | The total equals the sum of price times size over the resting orders. |
| OrderSides.OrderSide.PriceTree | src/orderside.ts:48-50 | The level prices strictly ascend on SELL and strictly descend on BUY, and they are exactly the map's keys. |
| OrderSides.OrderSide.Append | src/orderside.ts:53-66 | Returns the order. The new state is the append transition, and the side stays valid. |
| OrderSides.OrderSide.Remove | src/orderside.ts:69-86 | With no level at the order's price, fails with InvalidPriceLevel and changes nothing. Otherwise returns the order, and the new state is the remove transition. |
| OrderSides.OrderSide.UpdateOrderPrice | src/orderside.ts:89-102 | Fails like remove when there is no level at the old price. Otherwise returns the rebuilt order, and the new state is remove followed by append. |
| OrderSides.OrderSide.UpdateOrderSize | src/orderside.ts:105-121 | Returns the resized order, and the new state is the resize transition with the corrected total. |
| OrderSides.OrderSide.MaxPriceQueue | src/orderside.ts:124-132 | Gives the level with the highest price, or nothing exactly when the side has no levels. |
| OrderSides.OrderSide.MinPriceQueue | src/orderside.ts:135-143 | Gives the level with the lowest price, or nothing exactly when the side has no levels. |
| OrderSides.OrderSide.LowerThan | src/orderside.ts:146-152 | Gives the level with the nearest price strictly below the given one, or nothing exactly when no level is below it. |
| OrderSides.OrderSide.GreaterThan | src/orderside.ts:155-161 | Gives the level with the nearest price strictly above the given one, or nothing exactly when no level is above it. |
| OrderSides.OrderSide.Orders | src/orderside.ts:164-171 | Gives every resting order, as the same multiset as the side's contents. |
| StopQueues.FirstWith | test/stopqueue.test.ts:77 | Gives the position of the first order with the id, with no earlier order carrying it, or the length when none does. |
| StopQueues.StopLevel.Remove | test/stopqueue.test.ts:75-87 | Removing by id gives nothing, and leaves the queue as it is, exactly when no order has the id. Otherwise it gives the first such order and the remaining orders in their relative order. |
| StopQueues.StopLevel.RemoveFromHead | test/stopqueue.test.ts:13 | Gives nothing, with no change, exactly when the queue is empty. Otherwise it gives the head, and the head followed by the rest is the old contents. |
| StopQueues.StopLevel.Append | test/stopqueue.test.ts:35-41 | The order joins at the tail, behind every order already queued, and the price is kept. |
| StopQueues.EmptyLevel | test/stopqueue.test.ts:11 | A new queue is empty at its price. |
| StopQueues.AppendAllContents | test/stopqueue.test.ts:35-66 | Appending orders one by one puts them at the tail in the order given. |
| StopQueues.DrainContents | test/stopqueue.test.ts:76-80 | Taking from the head until the queue is empty yields its orders in order. |
| StopQueues.FifoOrder | test/stopqueue.test.ts:68-80 | First in, first out: draining a queue gives back exactly the appended orders, in order. |
| StopQueues.RemoveById | test/stopqueue.test.ts:77-87 | With distinct ids, removing an id gives its order wherever it stands, and a second removal of that id finds nothing. |
| StopQueues.IdGone | test/stopqueue.test.ts:83-84 | With distinct ids, no order remaining after a removal carries the removed id. |
| StopQueues.StopQueue.constructor | test/stopqueue.test.ts:11-13 | A new queue object is the empty queue at its price. |
| StopQueues.StopQueue.Len | test/stopqueue.test.ts:42 | Gives the number of queued orders. |
| StopQueues.StopQueue.ToArray | test/stopqueue.test.ts:69-73 | Gives the queued orders, oldest first. |
| StopQueues.StopQueue.Append | test/stopqueue.test.ts:35-41 | Returns the order, and the new state is the queue with the order appended. |
| StopQueues.StopQueue.Remove | test/stopqueue.test.ts:77-87 | The result and the new state are those of removal by id. |
| StopQueues.StopQueue.RemoveFromHead | test/stopqueue.test.ts:76-80 | The result and the new state are those of removal from the head. |
| StopSides.OneLevelPerStopPrice | src/stopside.ts:23-32 | Orders are grouped by stop price: the levels are exactly the distinct stop prices of the queued orders, and there are as many levels as distinct stop prices. |
| StopSides.Within | src/stopside.ts:54-80 | The filtered prices are exactly the tree's prices in the closed interval. |
| StopSides.WithinOrdered | src/stopside.ts:67-78 | Filtering keeps the tree order. |
| StopSides.LevelsAt | src/stopside.ts:73 | Gives the queues at the given prices, in that order. |
| StopSides.Compare | src/stopside.ts:14-17 | The comparator is negative exactly when the first price comes before the second in the side's order, and zero exactly on equal prices. |
| StopSides.PricesAfterAppend | src/stopside.ts:23-32 | After an append the map has the order's stop price as a key besides the old ones. That queue is the old one (or an empty one) with the order at its tail, and every other queue is unchanged. |
| StopSides.TreeAfterAppend | src/stopside.ts:23-32 | After an append the tree holds the old prices, plus the stop price exactly when it had no queue, in which case it grows by one. A price that had a queue leaves the tree as it was. |
| StopSides.PricesAfterRemove | src/stopside.ts:35-46 | After a removal by id the map has no new keys. The stop price keeps a queue exactly when the removal left it non-empty, holding the remaining orders, and every other queue is unchanged. |
| StopSides.TreeAfterRemove | src/stopside.ts:35-46 | After a removal by id the tree gains no price and keeps every other price. It is unchanged when the queue did not empty. |
| StopSides.AppendGrouped | src/stopside.ts:23-32 | Append keeps the grouping invariant: tree keys and map keys are the same, and each queue is non-empty and holds only orders of its stop price. |
| StopSides.RemoveGrouped | src/stopside.ts:35-46 | Removal by id keeps the grouping invariant. An emptied queue leaves the map and the tree together. |
| StopSides.RemoveLevelGrouped | src/stopside.ts:48-51 | Dropping a price level keeps the grouping invariant and removes exactly that price from the tree. |
| StopSides.SweptIsClosed | src/stopside.ts:56-78 | The walk's inclusive and exclusive bounds, shifted by one, plus its trimming test on each price, accept exactly the prices in the closed interval [lowest, highest]. |
| StopSides.StopSide.constructor | src/stopside.ts:13-20 | A new stop side is empty and valid. |
| StopSides.StopSide.Append | src/stopside.ts:23-32 | Returns the order. The order joins the tail of the queue at its stop price, which is created and inserted into the tree when new. |
| StopSides.StopSide.Remove | src/stopside.ts:35-46 | With no queue at the stop price, fails with InvalidPriceLevel and changes nothing. An unknown id gives nothing and changes nothing. Otherwise gives the order with that id, and an emptied queue leaves the map and the tree. |
| StopSides.StopSide.RemovePriceLevel | src/stopside.ts:48-51 | Drops the price from the map and from the tree, unconditionally. |
| StopSides.StopSide.Between | src/stopside.ts:54-80 | The loop returns exactly the queues whose stop price lies in [min(a,b), max(a,b)], so the result is the same whichever argument is larger. The queues come in tree order. |
| StopSides.StopSide.PriceTree | src/stopside.ts:82-84 | The tree's prices strictly ascend on SELL and strictly descend on BUY. |
| StopSides.BetweenMeaning | src/stopside.ts:54-80 | Each queue returned lies in the closed interval, every queue in the interval is returned, and they come in tree order. |
| StopSides.BetweenInside | src/stopside.ts:69-73 | Every queue returned is a queue of the side whose price lies in the interval. |
| StopSides.BetweenComplete | src/stopside.ts:67-78 | Every queue of the side whose price lies in the interval is returned. |
| StopSides.BetweenInOrder | src/stopside.ts:67 | The returned queues come in the side's tree order. |
| StopBooks.ValidConditionalOrder | src/stopbook.ts:52-84 | A valid order never has the market price equal to its stop price. BUY needs the market below the stop, and SELL needs it above. A stop-limit BUY also needs stop ≤ price, and a stop-limit SELL stop ≥ price. |
| StopBooks.TriggerRules | src/stopbook.ts:44-84 | Each of the four trigger rules holds as an if-and-only-if: stop-limit BUY/SELL and stop-market BUY/SELL. |
| StopBooks.StopBook.constructor | src/stopbook.ts:11-14 | A new book has an empty BUY side (bids) and an empty SELL side (asks). |
| StopBooks.StopBook.Add | src/stopbook.ts:16-19 | The order is appended to the side of its direction, and the other side is unchanged. |
| StopBooks.StopBook.Remove | src/stopbook.ts:21-28 | Removes from the side of the given direction with that side's error and result, and the other side is unchanged. |
| StopBooks.StopBook.RemovePriceLevel | src/stopbook.ts:30-33 | Drops the level on the side of the given direction, and the other side is unchanged. |
| StopBooks.StopBook.GetConditionalOrders | src/stopbook.ts:35-42 | Gives exactly the queues that `between` gives on the side of the given direction. |
| StopBooks.StopBook.Snapshot | src/stopbook.ts:86-96 | Lists bid levels in strictly descending price and ask levels in strictly ascending price. Each level holds its queue's orders oldest first, as object forms. |
| StopBooks.StopBook.Listing | src/stopbook.ts:89-94 | The walk over one side yields every level in tree order, each with its price and its orders' object forms. |

## Left out

- `OrderSides.OrderSide` keeps its six fields as one record, `state`. The
  fields are the price tree, the price map, the depth, the order count, the
  volume and the total. Each method assigns the whole record, as one step.
- Queues are values inside the side's price map. The source hands out its
  queue objects (`maxPriceQueue` and the like), and a caller could mutate
  them through that alias. The model does not capture this aliasing.
- An order is a value, not an object. `updateOrderSize` mutates the order
  object in place. The model captures this by replacing the order at its
  position in its queue.
- `BigNumber` is modelled as exact `real`. The tree comparators go through
  `toNumber()`, that is through floating point; the model compares exactly.
- The red-black tree and the double-ended queue are modelled by their
  contents: the keys in tree order, and a sequence. Balancing and node
  structure are not modelled.
- `randomUUID()` and `Date.now()` are parameters: `freshId` and `now`.
- `toString`, `toJSON` and the text formatting they use are not modelled.
  Neither is the `price()` getter of the queues, which the model reads as a
  field.
- `OrderSides.OrderSide.Orders`: the source concatenates the levels in the
  key order of a JavaScript object. The model states only the multiset of
  the result.
- `OrderSides.OrderSide.Remove` requires a level at the order's price to
  hold the order. For an order missing from its level, the source still
  decrements the volume and calls `removeOne` with an undefined index. That
  path is not modelled.
- `OrderSides.OrderSide.Append` requires that the order's level does not
  already hold its id. The book above the side guarantees unique ids, and a
  duplicate id would break the queue's index.
- `OrderSides.OrderSide.UpdateOrderSize`: the model drops the update's
  optional price, and the total uses the order's own price. See Findings.
  The model also requires a level at the order's price that holds the
  order. The source checks neither. With no level, `orderside.ts:110` and
  `:114` have already moved the volume and the total when `:116` throws a
  TypeError, so both aggregates are left wrong. With a level that lacks the
  order, the source still moves the side's volume and total, and the
  queue's `updateOrderSize` shifts the queue's volume and mutates the
  passed order. These paths are not modelled.
- `src/stopqueue.ts` is not part of this model. The stop queue is modelled
  as the FIFO its tests describe.
- The matching engine, journaling and replay, snapshot restore and OCO
  wiring are not part of the core modelled here.
- Error messages and codes are reduced to the two error kinds the core
  raises: `InvalidOrderType` and `InvalidPriceLevel`.

## Findings

| source | as written | input that shows it | evidently intended | confidence | as-written member | corrected member |
|---|---|---|---|---|---|---|
| src/orderside.ts:109-114 | `updateOrderSize` moves the total by `newSize × (update.price ?? oldPrice) − oldSize × oldPrice`. The order stays in the level of its old price, so the total stops being the sum of price times size whenever the update carries a different price. | A BUY order of size 5 at price 10, resized to 5 with an update carrying price 20: the resting notional stays 50, but the total becomes 100. | The total moves by `oldPrice × (newSize − oldSize)`, so that total = Σ price × size still holds. | not executed | SideLevels.AsWrittenTotalDrifts | SideLevels.ResizeKeeps |
