# Limit order book — a Dafny model

This project models the in-memory limit order book of `com.cfbenchmarks.interview` and proves properties of the model:

- `Order`: an immutable order value, with its validation, its book key and its `Builder`.
- `OrderBook`: one book per (instrument, side) pair. A book groups the pair's orders into price levels. Each level is a first-in-first-out queue with running quantity and volume totals. The book also keeps the best price incrementally: the lowest for SELL, the highest for BUY.
- `OrderBookManagerImpl`: routes each call to the book of its pair. All books share one index of live orders by id.

Every Java operation becomes a pure function over immutable datatypes.

- Java's `null` is `None` of an `Option`.
- A thrown `IllegalArgumentException` is `InvalidArgument(reason)` of a `Result`. The reason labels the exception's message.
- A Java `long` field is the subset type `Long`.
- A mutating method returns the updated book, index or manager together with its Java return value.

Modules and the source they follow:

- `Wrappers`: `Option`, the failure reasons and `Result`.
- `Validation`: `Validation.java` and `String.trim()`.
- `Orders`: `Order.java`, `Order.Builder` and the book key. The five Builder setters stay five functions, one per Java setter, so that each follows its source method.
- `Prices`: `Math.min`/`Math.max` and the min/max rescan over a HashMap key set.
- `Levels`: `OrderBook.Orders` and `OrderBook.OrdersStats`.
- `OrderBook`: the `OrderBook` methods.
- `BookInvariants`: the book invariant and its preservation by add, delete and modify.
- `BookManager`: `OrderBookManagerImpl`.
- `ManagerInvariants`: the manager invariant, its preservation, and what the queries answer.
- `ManagerProperties`: queue order, isolation between pairs, and add-then-delete.
- `ManagerRuns`: runs of add, modify and delete calls from a new manager, and the lifecycle round of `ConcurrencyLifecycleTest`.

The manager invariant `BookManager.Valid` says that:

- every stored book keeps the book invariant;
- every stored book lists only orders of its own pair, each equal to its index entry;
- every index entry is filed under its own id and listed by the book of its pair.

The book invariant `OrderBook.Valid` says that:

- no level is empty;
- a level's running totals equal the sums over its list;
- ids within a level are distinct;
- the side-relevant extreme price is the sentinel when there are no levels, and the best key otherwise.

Two decisions shape the model.

- **EMPTY books.** `getOrderBook` without `create` answers a shared empty book. That book was built over an immutable empty map. `BookManager.View` models this as `EmptyBook(side)`. `BookManager.BookIndex` hands such a book an empty index, and `BookManager.Store` drops whatever was done to it.
- **`LevelsCover`.** `OrderBook.delete` and `OrderBook.modify` dereference the level of the indexed order. In Java a missing level would be a `NullPointerException`. `ModifyOrder` and `DeleteOrder` therefore require `LevelsCover`: every live order's level exists in its stored book. `ManagerInvariants.ValidCovers` shows that every valid manager meets this, and `ManagerRuns.Reach` that every manager a run of public calls reaches from a new one is valid.

Where the documentation and the implementation disagree, the model follows the implementation:

- The documentation says a quantity of 0 behaves like `deleteOrder`. The implementation rejects it as non-positive, and so does the model.
- `removeAndResetMinMax` rescans the best price after every delete, not only when the best level was removed. The model does the same.

## Model

| member | source | states |
|---|---|---|
| Validation.TrimLeading | main/java/com/cfbenchmarks/interview/Validation.java:6 | the result is a suffix of the input; everything dropped is white space (at or below U+0020); what is kept does not start with white space |
| Validation.TrimTrailing | main/java/com/cfbenchmarks/interview/Validation.java:6 | the result is a prefix of the input; everything dropped is white space; what is kept does not end with white space |
| Validation.Trim | main/java/com/cfbenchmarks/interview/Validation.java:6 | `String.trim()`: the trailing scan after the leading one, so `TrimLeading` and `TrimTrailing` bound what is dropped; `TrimEmptyIffBlank` shows the result is empty exactly for a blank string |
| Validation.TrimEmptyIffBlank | main/java/com/cfbenchmarks/interview/Validation.java:6 | `trim().isEmpty()` holds exactly when every character is white space, the empty string included |
| Validation.ValidateString | main/java/com/cfbenchmarks/interview/Validation.java:4-10 | fails exactly for null (NullArgument) or blank (BlankArgument); otherwise returns the argument unchanged |
| Validation.ValidateObject | main/java/com/cfbenchmarks/interview/Validation.java:12-18 | fails exactly for null; otherwise returns the argument unchanged |
| Validation.VisibleCharacterPasses | main/java/com/cfbenchmarks/interview/Validation.java:6 | a string with at least one character above U+0020 passes, whatever white space surrounds it |
| Orders.Side.Name | main/java/com/cfbenchmarks/interview/Order.java:136 | a side's name has at least three letters, contains no colon, and ends in 'Y' for BUY and 'L' for SELL |
| Orders.IndexOf | main/java/com/cfbenchmarks/interview/Order.java:131 | `String.indexOf` answers -1 exactly when the pattern occurs nowhere from the start position; otherwise it answers the first position where it occurs |
| Orders.SeparatorAt | main/java/com/cfbenchmarks/interview/Order.java:131 | "::" occurs at a position exactly when the characters there and one after are both colons |
| Orders.SeparatorSearch | main/java/com/cfbenchmarks/interview/Order.java:131 | the `indexOf("::") == -1` test passes exactly for an instrument without two consecutive colons |
| Orders.New | main/java/com/cfbenchmarks/interview/Order.java:47-54 | the validating constructor succeeds exactly when id, instrument and side are present and the order is valid (positive price and quantity, non-blank id and instrument, no "::" in the instrument); price is checked first, then quantity; on success it holds the five given fields |
| Orders.KeyParses | main/java/com/cfbenchmarks/interview/Order.java:135-137 | the instrument and side can be read back from a book key |
| Orders.KeyNamesSide | main/java/com/cfbenchmarks/interview/Order.java:135-137 | the last letter of a book key names its side |
| Orders.KeyInjective | main/java/com/cfbenchmarks/interview/Order.java:76-78 | two (instrument, side) pairs have the same book key exactly when they are the same pair |
| Orders.SideInstrumentKey | main/java/com/cfbenchmarks/interview/Order.java:135-137 | the instrument, "::" and the side's name; `KeyParses` reads both back from it and `KeyInjective` gives distinct pairs distinct keys |
| Orders.BookKey | main/java/com/cfbenchmarks/interview/Order.java:76-78 | the key of the order's own (instrument, side) pair, so the properties of `KeyParses` and `KeyInjective` apply to it |
| Orders.FreshBuilder | main/java/com/cfbenchmarks/interview/Order.java:139 | `new Order.Builder()` over `new Order()`: no id, instrument or side, and zero price and quantity; `Clone` overwrites every field of it and `Revise` builds the modify revision from it |
| Orders.Builder.Clone | main/java/com/cfbenchmarks/interview/Order.java:142-147 | fails for null or an invalid order; otherwise the draft's `get()` gives back the cloned order |
| Orders.Builder.SetOrderId | main/java/com/cfbenchmarks/interview/Order.java:149-152 | the draft's id becomes the argument and no other field changes |
| Orders.Builder.SetInstrument | main/java/com/cfbenchmarks/interview/Order.java:154-157 | the draft's instrument becomes the argument and no other field changes |
| Orders.Builder.SetSide | main/java/com/cfbenchmarks/interview/Order.java:159-162 | the draft's side becomes the argument and no other field changes |
| Orders.Builder.SetPrice | main/java/com/cfbenchmarks/interview/Order.java:164-167 | the draft's price becomes the argument and no other field changes |
| Orders.Builder.SetQuantity | main/java/com/cfbenchmarks/interview/Order.java:169-172 | the draft's quantity becomes the argument and no other field changes |
| Orders.Builder.Get | main/java/com/cfbenchmarks/interview/Order.java:178-181 | succeeds exactly when the draft is complete and valid, and then returns an order with the draft's fields |
| Orders.SettersAgreeWithBuild | main/java/com/cfbenchmarks/interview/Order.java:149-181 | filling every field through the setters and calling `get()` yields what `build(...)` yields for the same values |
| Orders.Builder.Build | main/java/com/cfbenchmarks/interview/Order.java:174-176 | the validating constructor on the given values, ignoring the draft; `SettersAgreeWithBuild` shows the setters followed by `get()` give the same result |
| Orders.Revise | main/java/com/cfbenchmarks/interview/OrderBook.java:134 | `clone(order).setQuantity(q).get()` fails for a null order; for a valid order it succeeds exactly when q > 0 and yields the order with only its quantity changed |
| Prices.Min | main/java/com/cfbenchmarks/interview/OrderBook.java:47 | `Math.min`; `BookInvariants.InsertBestValid` shows the widening keeps the SELL extreme at the least key |
| Prices.Max | main/java/com/cfbenchmarks/interview/OrderBook.java:48 | `Math.max`; `BookInvariants.InsertBestValid` shows the widening keeps the BUY extreme at the greatest key |
| Prices.MinExists | main/java/com/cfbenchmarks/interview/OrderBook.java:107-113 | a non-empty set of prices has a least element |
| Prices.MaxExists | main/java/com/cfbenchmarks/interview/OrderBook.java:107-113 | a non-empty set of prices has a greatest element |
| Prices.MinOf | main/java/com/cfbenchmarks/interview/OrderBook.java:107-113 | the result is the least element of the set |
| Prices.MaxOf | main/java/com/cfbenchmarks/interview/OrderBook.java:107-113 | the result is the greatest element of the set |
| Prices.FoldMin | main/java/com/cfbenchmarks/interview/OrderBook.java:107-113 | the `Math.min` pass over one enumeration of the keys; `FoldMinBounds` bounds it by the start value and every key, and `ForEachOrderIrrelevant` shows every enumeration gives the rescan value |
| Prices.FoldMax | main/java/com/cfbenchmarks/interview/OrderBook.java:107-113 | the `Math.max` pass over one enumeration of the keys; `FoldMaxBounds` bounds it by the start value and every key, and `ForEachOrderIrrelevant` shows every enumeration gives the rescan value |
| Prices.FoldMinBounds | main/java/com/cfbenchmarks/interview/OrderBook.java:107-113 | the `Math.min` fold is at most the start value and every key, and equals the start value or one of the keys |
| Prices.FoldMaxBounds | main/java/com/cfbenchmarks/interview/OrderBook.java:107-113 | the `Math.max` fold is at least the start value and every key, and equals the start value or one of the keys |
| Prices.RescanMin | main/java/com/cfbenchmarks/interview/OrderBook.java:102-113 | the SELL rescan gives Long.MAX_VALUE for no keys, and the least key otherwise |
| Prices.RescanMax | main/java/com/cfbenchmarks/interview/OrderBook.java:102-113 | the BUY rescan gives 0 for no keys, and the greatest non-negative key otherwise |
| Prices.ForEachOrderIrrelevant | main/java/com/cfbenchmarks/interview/OrderBook.java:107-113 | however the HashMap enumerates its key set, the `forEach` fold reaches the rescan value |
| Levels.TallyConcat | main/java/com/cfbenchmarks/interview/OrderBook.java:192-205 | the quantity and volume sums of a concatenation are the sums of the parts |
| Levels.TallySingle | main/java/com/cfbenchmarks/interview/OrderBook.java:196-199 | a one-order list sums to that order's quantity and its quantity times price |
| Levels.TallySplit | main/java/com/cfbenchmarks/interview/OrderBook.java:192-205 | a list's sums are the sums before and after any position plus the order at that position |
| Levels.VolumeIsPriceTimesQuantity | main/java/com/cfbenchmarks/interview/OrderBook.java:198 | when all orders share one price, the volume sum is that price times the quantity sum |
| Levels.AddStats | main/java/com/cfbenchmarks/interview/OrderBook.java:196-199 | adds the order's quantity and price times quantity to the totals; `AppendConsistent` and `NewLevelConsistent` show the totals then match the list |
| Levels.RemoveStats | main/java/com/cfbenchmarks/interview/OrderBook.java:201-204 | subtracts the order's quantity and price times quantity from the totals; `RemoveConsistent` and `TallyWithoutId` show the totals then match the list |
| Levels.NewLevel | main/java/com/cfbenchmarks/interview/OrderBook.java:177-179 | a level holding just the order; `NewLevelConsistent` shows its totals are that order's |
| Levels.NewLevelConsistent | main/java/com/cfbenchmarks/interview/OrderBook.java:177-179 | a new level lists exactly the one order, and its totals are that order's |
| Levels.Append | main/java/com/cfbenchmarks/interview/OrderBook.java:181-184 | `Orders.add`: the order at the tail with its totals added; `AppendConsistent` shows the totals keep matching the list |
| Levels.AppendConsistent | main/java/com/cfbenchmarks/interview/OrderBook.java:181-184 | `Orders.add` appends at the tail and keeps the running totals equal to the list's sums |
| Levels.WithoutId | main/java/com/cfbenchmarks/interview/OrderBook.java:187 | `removeIf` keeps exactly the listed orders whose id differs, and never lengthens the list |
| Levels.WithoutAbsentId | main/java/com/cfbenchmarks/interview/OrderBook.java:187 | dropping an id that no listed order carries leaves the list unchanged |
| Levels.DistinctTail | main/java/com/cfbenchmarks/interview/OrderBook.java:175 | with distinct ids, the tail has distinct ids and none of them is the head's |
| Levels.DistinctCons | main/java/com/cfbenchmarks/interview/OrderBook.java:175 | putting an order with a new id in front of a list with distinct ids keeps them distinct |
| Levels.DistinctUnique | main/java/com/cfbenchmarks/interview/OrderBook.java:175 | with distinct ids, no other position carries a position's id |
| Levels.WithoutIdAt | main/java/com/cfbenchmarks/interview/OrderBook.java:187 | with distinct ids, dropping the id at position i removes exactly position i and keeps the rest in order |
| Levels.TallyDropped | main/java/com/cfbenchmarks/interview/OrderBook.java:201-204 | removing position i from a list subtracts exactly that order's quantity and volume from the sums |
| Levels.TallyWithoutId | main/java/com/cfbenchmarks/interview/OrderBook.java:186-189 | with distinct ids, dropping a listed order's id subtracts exactly that order's totals |
| Levels.Remove | main/java/com/cfbenchmarks/interview/OrderBook.java:186-189 | `Orders.remove`: every order with the passed id dropped and the passed order's totals subtracted; `TallyWithoutId` and `RemoveConsistent` show the totals keep matching the list when the passed order is the one listed |
| Levels.RemoveConsistent | main/java/com/cfbenchmarks/interview/OrderBook.java:186-189 | `Orders.remove` of a listed order keeps the running totals equal to the list's sums |
| Levels.IndexOfOrder | main/java/com/cfbenchmarks/interview/OrderBook.java:162 | `List.indexOf` answers -1 exactly when no order is equal in all five fields; otherwise it answers the first equal position |
| Levels.ReplaceAt | main/java/com/cfbenchmarks/interview/OrderBook.java:165-167 | modifyDown's `set(index, newOrder)` with the old order's totals subtracted and the new one's added; `ReplaceAtConsistent` shows the totals keep matching the list and `ReplaceMembers` what the list then holds |
| Levels.ReplaceAtConsistent | main/java/com/cfbenchmarks/interview/OrderBook.java:165-167 | `set(index, new)` followed by removing the old totals and adding the new ones keeps the totals equal to the list's sums |
| Levels.DistinctAppend | main/java/com/cfbenchmarks/interview/OrderBook.java:182 | appending an order with a new id keeps ids distinct |
| Levels.DistinctWithoutId | main/java/com/cfbenchmarks/interview/OrderBook.java:187 | `removeIf` keeps ids distinct |
| Levels.DistinctReplace | main/java/com/cfbenchmarks/interview/OrderBook.java:165 | replacing an order by one with the same id keeps ids distinct |
| Levels.WithoutAppended | main/java/com/cfbenchmarks/interview/OrderBook.java:181-189 | dropping the id of an order just appended gives back the list before the append |
| Levels.ReplaceMembers | main/java/com/cfbenchmarks/interview/OrderBook.java:165 | with distinct ids, an in-place revision lists the revision and exactly the orders of other ids |
| OrderBook.EmptyBook | main/java/com/cfbenchmarks/interview/OrderBook.java:21-29 | a book of the side with no levels and the sentinels Long.MAX_VALUE and 0, also used for EMPTY_BUY_BOOK and EMPTY_SELL_BOOK; `EmptyBookValid` shows it is valid and holds nothing |
| OrderBook.Add | main/java/com/cfbenchmarks/interview/OrderBook.java:31-50 | fails exactly for a wrong side (WrongSide) or a known id (DuplicateId); on success it indexes the order, adds its price's level if new, appends the order at that level's tail, and leaves every other price's list unchanged |
| OrderBook.Insert | main/java/com/cfbenchmarks/interview/OrderBook.java:38-48 | the levels become the old ones plus the order's price; the order is appended at its price; every other level is unchanged |
| OrderBook.BestPrice | main/java/com/cfbenchmarks/interview/OrderBook.java:52-61 | empty exactly when there are no levels; in a valid book the answer is a level's price |
| OrderBook.OrderNumAtLevel | main/java/com/cfbenchmarks/interview/OrderBook.java:63-67 | fails exactly for a non-positive level; otherwise answers the length of that price's list, 0 without a level |
| OrderBook.TotalQuantityAtLevel | main/java/com/cfbenchmarks/interview/OrderBook.java:69-73 | fails exactly for a non-positive level; answers 0 without a level; in a valid book answers the quantity sum of the price's list |
| OrderBook.TotalVolumeAtLevel | main/java/com/cfbenchmarks/interview/OrderBook.java:75-79 | fails exactly for a non-positive level; answers 0 without a level; in a valid book answers the volume sum, which is the price times the quantity sum |
| OrderBook.OrdersAtLevel | main/java/com/cfbenchmarks/interview/OrderBook.java:81-88 | fails exactly for a non-positive level; otherwise answers the price's list, empty without a level; in a valid book every listed order is held at that price on the book's side |
| OrderBook.RemoveAndResetMinMax | main/java/com/cfbenchmarks/interview/OrderBook.java:93-114 | drops the order's id from its price's list, drops that level if it became empty, and leaves every other list unchanged |
| OrderBook.Delete | main/java/com/cfbenchmarks/interview/OrderBook.java:116-129 | fails exactly for a blank or unknown id; on success it answers the indexed order, unindexes it, and removes it from its level |
| OrderBook.ModifyUp | main/java/com/cfbenchmarks/interview/OrderBook.java:150-155 | answers true; the old id leaves its list and the revision joins the tail; levels, extremes and other prices are unchanged |
| OrderBook.ModifyDown | main/java/com/cfbenchmarks/interview/OrderBook.java:160-171 | answers true exactly when the old order is listed, and then the revision replaces its first occurrence in place; otherwise the book is unchanged |
| OrderBook.Modify | main/java/com/cfbenchmarks/interview/OrderBook.java:131-144 | for an indexed valid order it succeeds exactly for a positive quantity; it re-indexes the revision; an increase requeues the revision at the tail; otherwise the revision replaces the order in place, and true is answered exactly when the order is listed |
| BookInvariants.KeysArePrices | main/java/com/cfbenchmarks/interview/OrderBook.java:18 | in a valid book every level key is a positive long |
| BookInvariants.BestPriceIsExtreme | main/java/com/cfbenchmarks/interview/OrderBook.java:52-61 | in a valid book the best price is the least key for SELL and the greatest key for BUY |
| BookInvariants.BestPriceOfHeld | main/java/com/cfbenchmarks/interview/OrderBook.java:52-61 | in a valid book the best price is absent exactly when no order is held; otherwise it is the price of a held order and bounds every held order's price on the side's side |
| BookInvariants.EmptyBookValid | main/java/com/cfbenchmarks/interview/OrderBook.java:21-29 | a new book is valid, agrees with any index and holds nothing |
| BookInvariants.InsertLevelValid | main/java/com/cfbenchmarks/interview/OrderBook.java:38-44 | the level add writes is non-empty, consistent and of distinct ids |
| BookInvariants.InsertBestValid | main/java/com/cfbenchmarks/interview/OrderBook.java:47-48 | widening min/max with the new price keeps the side-relevant extreme equal to the best key |
| BookInvariants.InsertHolds | main/java/com/cfbenchmarks/interview/OrderBook.java:38-44 | after add the book holds exactly its old orders and the new one |
| BookInvariants.InsertValid | main/java/com/cfbenchmarks/interview/OrderBook.java:31-50 | add keeps the book invariant |
| BookInvariants.InsertAgrees | main/java/com/cfbenchmarks/interview/OrderBook.java:45 | add keeps every listed order equal to its index entry |
| BookInvariants.AddPreserves | main/java/com/cfbenchmarks/interview/OrderBook.java:31-50 | a successful add keeps the invariant and index agreement and holds exactly the old orders plus the new one |
| BookInvariants.RemoveLevelValid | main/java/com/cfbenchmarks/interview/OrderBook.java:95-100 | the level left after a removal, when not empty, is consistent and of distinct ids |
| BookInvariants.RemoveBestValid | main/java/com/cfbenchmarks/interview/OrderBook.java:102-113 | after the rescan the side-relevant extreme is the best remaining key, or the sentinel when no level remains |
| BookInvariants.RemoveHolds | main/java/com/cfbenchmarks/interview/OrderBook.java:93-100 | the book then holds its old orders except those at the removed price with the removed id |
| BookInvariants.RemoveValid | main/java/com/cfbenchmarks/interview/OrderBook.java:93-114 | removeAndResetMinMax keeps the book invariant |
| BookInvariants.RemoveById | main/java/com/cfbenchmarks/interview/OrderBook.java:93-114 | with index agreement, removing an indexed order drops exactly its id from the book |
| BookInvariants.RemoveAgrees | main/java/com/cfbenchmarks/interview/OrderBook.java:120-126 | after removal the book agrees with the index without the id |
| BookInvariants.DeletePreserves | main/java/com/cfbenchmarks/interview/OrderBook.java:116-129 | delete keeps the invariant and index agreement and holds every old order but the deleted id |
| BookInvariants.ModifyUpValid | main/java/com/cfbenchmarks/interview/OrderBook.java:150-155 | modifyUp keeps the book invariant |
| BookInvariants.ModifyUpHolds | main/java/com/cfbenchmarks/interview/OrderBook.java:150-155 | modifyUp holds the revision in place of the old order |
| BookInvariants.ModifyDownFinds | main/java/com/cfbenchmarks/interview/OrderBook.java:162-164 | for a held order modifyDown's `indexOf` always finds it, so it answers true |
| BookInvariants.ModifyDownValid | main/java/com/cfbenchmarks/interview/OrderBook.java:160-171 | modifyDown keeps the book invariant |
| BookInvariants.ModifyDownHolds | main/java/com/cfbenchmarks/interview/OrderBook.java:160-171 | modifyDown holds the revision in place of the old order |
| BookInvariants.ModifyUnfolds | main/java/com/cfbenchmarks/interview/OrderBook.java:131-144 | modify is modifyUp for an increase and modifyDown otherwise, applied to the indexed order and its revision |
| BookInvariants.RevisedAgrees | main/java/com/cfbenchmarks/interview/OrderBook.java:136 | replacing the old order by its revision in both book and index keeps them in agreement |
| BookInvariants.ModifyPreserves | main/java/com/cfbenchmarks/interview/OrderBook.java:131-171 | modify of a held order to a positive quantity succeeds, answers true, keeps the invariant and index agreement, and holds the revision in place of the old order |
| BookInvariants.ListsDetermineBook | main/java/com/cfbenchmarks/interview/OrderBook.java:16-22 | two valid books of one side with the same list at every price have the same levels and the same best price |
| BookManager.Empty | main/java/com/cfbenchmarks/interview/OrderBookManagerImpl.java:20-22 | a manager with no live orders and no books; `ManagerInvariants.EmptyValid` shows it is valid |
| BookManager.View | main/java/com/cfbenchmarks/interview/OrderBookManagerImpl.java:96-118 | the stored book of the pair, or the side's empty book; `ManagerInvariants.ViewValid` and `ManagerInvariants.ViewIsIndex` show it is valid and agrees with the index handed to it |
| BookManager.Store | main/java/com/cfbenchmarks/interview/OrderBookManagerImpl.java:96-118 | writes back a changed book and index when the pair's book is stored, and drops changes made to an unstored empty book; the preservation lemmas of `ManagerInvariants` show the result stays valid |
| BookManager.GetOrderBook | main/java/com/cfbenchmarks/interview/OrderBookManagerImpl.java:96-118 | checks the side before the instrument; succeeds exactly for a present side and a non-blank instrument, answering the stored book or the side's empty book |
| BookManager.AddOrder | main/java/com/cfbenchmarks/interview/OrderBookManagerImpl.java:24-28 | fails for a null order or a blank instrument; otherwise it is the add to the order's pair |
| BookManager.AddToPair | main/java/com/cfbenchmarks/interview/OrderBookManagerImpl.java:80-82 | succeeds exactly for an unknown id whose pair's book (if stored) has the order's side; a known id fails with DuplicateId; on success it indexes the order and changes only the pair's book |
| BookManager.ModifyOrder | main/java/com/cfbenchmarks/interview/OrderBookManagerImpl.java:30-43 | null id, blank id, non-positive quantity and unknown id fail in that order; an unchanged quantity answers false and leaves the manager alone; a reported change re-indexes the revision and changes only the pair's book |
| BookManager.DeleteOrder | main/java/com/cfbenchmarks/interview/OrderBookManagerImpl.java:45-54 | null, blank and unknown ids fail; success answers true, unindexes the id and changes only the pair's book |
| BookManager.GetBestPrice | main/java/com/cfbenchmarks/interview/OrderBookManagerImpl.java:56-58 | succeeds exactly for a present side and a non-blank instrument, and is empty exactly when the pair's book has no levels |
| BookManager.GetOrderNumAtLevel | main/java/com/cfbenchmarks/interview/OrderBookManagerImpl.java:60-62 | succeeds exactly for valid arguments and a positive level, and answers the length of the pair's list there |
| BookManager.GetTotalQuantityAtLevel | main/java/com/cfbenchmarks/interview/OrderBookManagerImpl.java:64-66 | succeeds exactly for valid arguments and a positive level, and answers 0 without a level; in a valid book it answers the sum of the quantities of the orders listed at that price |
| BookManager.GetTotalVolumeAtLevel | main/java/com/cfbenchmarks/interview/OrderBookManagerImpl.java:68-70 | succeeds exactly for valid arguments and a positive level, and answers 0 without a level; in a valid book it answers the sum of price times quantity over the orders listed at that price |
| BookManager.GetOrdersAtLevel | main/java/com/cfbenchmarks/interview/OrderBookManagerImpl.java:72-74 | succeeds exactly for valid arguments and a positive level, and answers the pair's list at that price |
| ManagerInvariants.EmptyValid | main/java/com/cfbenchmarks/interview/OrderBookManagerImpl.java:20-22 | a new manager satisfies the invariant |
| ManagerInvariants.ValidCovers | main/java/com/cfbenchmarks/interview/OrderBook.java:95 | in a valid manager every live order's level exists, so delete and modify never dereference a missing level |
| ManagerInvariants.HeldRests | main/java/com/cfbenchmarks/interview/OrderBook.java:19-20 | an order listed by a stored book is live, belongs to that book's pair and is valid |
| ManagerInvariants.RestsHeld | main/java/com/cfbenchmarks/interview/OrderBook.java:19-20 | a live order is listed by the book of its pair and is valid |
| ManagerInvariants.ViewIsIndex | main/java/com/cfbenchmarks/interview/OrderBookManagerImpl.java:84-118 | the book a query sees holds exactly the live orders of its pair |
| ManagerInvariants.ViewValid | main/java/com/cfbenchmarks/interview/OrderBookManagerImpl.java:84-118 | the book a query sees keeps the book invariant |
| ManagerInvariants.AddOrderUnfolds | main/java/com/cfbenchmarks/interview/OrderBookManagerImpl.java:24-28 | a successful addOrder is the add to the order's pair |
| ManagerInvariants.AddToPairUnfolds | main/java/com/cfbenchmarks/interview/OrderBookManagerImpl.java:80-82 | a successful add to the pair stores the book `OrderBook.add` made from the pair's current book, with its index |
| ManagerInvariants.AddOtherBook | main/java/com/cfbenchmarks/interview/OrderBook.java:45 | books of other pairs agree with the extended index |
| ManagerInvariants.AddOwnBook | main/java/com/cfbenchmarks/interview/OrderBookManagerImpl.java:80-82 | the pair's book after the add lists only orders of that pair |
| ManagerInvariants.AddBooksValid | main/java/com/cfbenchmarks/interview/OrderBookManagerImpl.java:24-28 | after an add every stored book keeps its invariant, agrees with the index and lists only its pair |
| ManagerInvariants.AddIndexListed | main/java/com/cfbenchmarks/interview/OrderBookManagerImpl.java:24-28 | after an add every index entry is listed by the book of its pair |
| ManagerInvariants.AddKeepsEntry | main/java/com/cfbenchmarks/interview/OrderBookManagerImpl.java:24-28 | an entry that was live before the add is still listed by the book of its pair |
| ManagerInvariants.AddSidesMatch | main/java/com/cfbenchmarks/interview/OrderBookManagerImpl.java:106-114 | after an add every stored book has the side its key names |
| ManagerInvariants.AddToPairAddsTo | main/java/com/cfbenchmarks/interview/OrderBookManagerImpl.java:80-82 | a successful add to the pair stores a valid book that agrees with the extended index and holds the old orders plus the new one |
| ManagerInvariants.AddOrderAddsTo | main/java/com/cfbenchmarks/interview/OrderBookManagerImpl.java:24-28 | the same for addOrder |
| ManagerInvariants.AddToPairPreserves | main/java/com/cfbenchmarks/interview/OrderBookManagerImpl.java:80-82 | a successful add to the pair keeps the invariant, and the live orders become the old ones plus the new one |
| ManagerInvariants.AddToPairRests | main/java/com/cfbenchmarks/interview/OrderBook.java:45 | filing a new id makes exactly that order live in addition |
| ManagerInvariants.AddOrderPreserves | main/java/com/cfbenchmarks/interview/OrderBookManagerImpl.java:24-28 | addOrder keeps the invariant, and the live orders become the old ones plus the new one |
| ManagerInvariants.DeleteOrderUnfolds | main/java/com/cfbenchmarks/interview/OrderBookManagerImpl.java:45-54 | deleteOrder of a live id runs `OrderBook.delete` on the stored book of its pair over the shared index |
| ManagerInvariants.DeleteOtherBook | main/java/com/cfbenchmarks/interview/OrderBook.java:120 | books of other pairs agree with the reduced index |
| ManagerInvariants.DeleteBooksValid | main/java/com/cfbenchmarks/interview/OrderBookManagerImpl.java:45-54 | after a delete every stored book keeps its invariant, agrees with the index and lists only its pair |
| ManagerInvariants.DeleteIndexListed | main/java/com/cfbenchmarks/interview/OrderBookManagerImpl.java:45-54 | after a delete every remaining entry is listed by the book of its pair |
| ManagerInvariants.DeleteFromBook | main/java/com/cfbenchmarks/interview/OrderBook.java:116-129 | `OrderBook.delete` on the stored book of a live id succeeds and holds every old order but that id |
| ManagerInvariants.DeleteValid | main/java/com/cfbenchmarks/interview/OrderBookManagerImpl.java:45-54 | the manager assembled after a delete is valid |
| ManagerInvariants.DeleteOrderPreserves | main/java/com/cfbenchmarks/interview/OrderBookManagerImpl.java:45-54 | deleteOrder keeps the invariant and answers true |
| ManagerInvariants.DeleteOrderRetires | main/java/com/cfbenchmarks/interview/OrderBookManagerImpl.java:45-54 | deleteOrder retires exactly the deleted id; every other live order stays live |
| ManagerInvariants.ModifyInBook | main/java/com/cfbenchmarks/interview/OrderBook.java:131-144 | `OrderBook.modify` on the stored book of a live id reports a change, stays valid, and holds the revision in place of the order |
| ManagerInvariants.ModifyOrderUnfolds | main/java/com/cfbenchmarks/interview/OrderBookManagerImpl.java:30-43 | modifyOrder with a changed quantity runs `OrderBook.modify` on the stored book of the pair over the shared index |
| ManagerInvariants.ModifyOtherBook | main/java/com/cfbenchmarks/interview/OrderBook.java:136 | books of other pairs agree with the revised index |
| ManagerInvariants.ModifyBooksValid | main/java/com/cfbenchmarks/interview/OrderBookManagerImpl.java:30-43 | after a modify every stored book keeps its invariant, agrees with the index and lists only its pair |
| ManagerInvariants.ModifyIndexListed | main/java/com/cfbenchmarks/interview/OrderBookManagerImpl.java:30-43 | after a modify every entry is listed by the book of its pair |
| ManagerInvariants.ModifyValid | main/java/com/cfbenchmarks/interview/OrderBookManagerImpl.java:30-43 | the manager assembled after a modify is valid |
| ManagerInvariants.ModifyOrderPreserves | main/java/com/cfbenchmarks/interview/OrderBookManagerImpl.java:30-43 | modifyOrder keeps the invariant |
| ManagerInvariants.PutRevision | main/java/com/cfbenchmarks/interview/OrderBook.java:136 | filing a revision under its own id replaces exactly that id's entry |
| ManagerInvariants.ModifyOrderRevises | main/java/com/cfbenchmarks/interview/OrderBookManagerImpl.java:30-43 | a modify that reports a change swaps the live order for its revision and keeps every other live order live |
| ManagerInvariants.AddOrderOutcome | main/java/com/cfbenchmarks/interview/OrderBookManagerImpl.java:24-28 | in a valid manager, adding a present valid order fails exactly for a blank instrument or a live id, whichever pair holds that id |
| ManagerInvariants.DeleteOrderOutcome | main/java/com/cfbenchmarks/interview/OrderBookManagerImpl.java:45-54 | in a valid manager, deleteOrder succeeds exactly for a live id |
| ManagerInvariants.ModifyOrderOutcome | main/java/com/cfbenchmarks/interview/OrderBookManagerImpl.java:30-43 | in a valid manager, modifyOrder succeeds exactly for a live id and a positive quantity, and reports a change exactly when the quantity differs |
| ManagerInvariants.ModifyChangedOk | main/java/com/cfbenchmarks/interview/OrderBookManagerImpl.java:39-42 | a different positive quantity for a live id succeeds and reports a change |
| ManagerInvariants.ModifySameQuantity | main/java/com/cfbenchmarks/interview/OrderBookManagerImpl.java:39-41 | the quantity the order already has answers false and leaves the manager unchanged |
| ManagerInvariants.BestPriceOfResting | main/java/com/cfbenchmarks/interview/OrderBookManager.java:43-53 | the best price is absent exactly when no order of the pair is live; otherwise it is the price of one live order of the pair, and no live order of the pair has a better price (lowest for SELL, highest for BUY) |
| ManagerInvariants.LevelQueriesAgree | main/java/com/cfbenchmarks/interview/OrderBookManager.java:55-101 | the list at a level holds exactly the pair's live orders at that price, once each; the count is its length; the quantity and volume are its sums; the volume is price times quantity |
| ManagerProperties.QueuePosition | main/java/com/cfbenchmarks/interview/OrderBook.java:162 | a live order sits in its level's list once, at the position `indexOf` finds |
| ManagerProperties.OtherPairsUnchanged | main/java/com/cfbenchmarks/interview/OrderBookManagerImpl.java:96-118 | when only the book at one key changes, every other pair reads the same |
| ManagerProperties.AddOrderIsolated | main/java/com/cfbenchmarks/interview/OrderBookManagerImpl.java:24-28 | addOrder leaves every other pair as it was |
| ManagerProperties.ModifyOrderIsolated | main/java/com/cfbenchmarks/interview/OrderBookManagerImpl.java:30-43 | modifyOrder leaves every other pair as it was |
| ManagerProperties.DeleteOrderIsolated | main/java/com/cfbenchmarks/interview/OrderBookManagerImpl.java:45-54 | deleteOrder leaves every other pair as it was |
| ManagerProperties.DropAt | main/java/com/cfbenchmarks/interview/OrderBook.java:187 | with distinct ids, dropping the id at position j takes out exactly position j and keeps every other order's relative place |
| ManagerProperties.ModifyOrderLists | main/java/com/cfbenchmarks/interview/OrderBook.java:131-171 | for a live order and a changed positive quantity, an increase drops the id and appends the revision at the tail; a decrease replaces the order in place; other prices are unchanged |
| ManagerProperties.RequeueAt | main/java/com/cfbenchmarks/interview/OrderBook.java:150-155 | with distinct ids, dropping the id at j and appending the revision moves position j to the tail |
| ManagerProperties.ModifyUpRequeues | main/java/com/cfbenchmarks/interview/OrderBookManager.java:23-24 | raising the quantity sends the revision to the end of the queue, and every other order keeps its relative place |
| ManagerProperties.ModifyDownKeepsPlace | main/java/com/cfbenchmarks/interview/OrderBookManager.java:24-25 | lowering the quantity keeps the order's position in the queue |
| ManagerProperties.DeleteOrderList | main/java/com/cfbenchmarks/interview/OrderBookManagerImpl.java:45-54 | deleteOrder drops the id from its list and leaves the pair's other prices alone |
| ManagerProperties.DeleteOrderDequeues | main/java/com/cfbenchmarks/interview/OrderBook.java:186-189 | deleteOrder takes the order out of its position, and every other order keeps its arrival order |
| ManagerProperties.AddOrderList | main/java/com/cfbenchmarks/interview/OrderBookManager.java:12-13 | addOrder appends the order at the tail of its price's list, so orders of one price keep their arrival order; other prices are unchanged |
| ManagerProperties.AddThenDeleteOk | main/java/com/cfbenchmarks/interview/OrderBookManagerImpl.java:24-54 | after a successful add the manager is valid, the order is live, and deleting its id succeeds |
| ManagerProperties.AddedIdFresh | main/java/com/cfbenchmarks/interview/OrderBook.java:36 | the list an added order joins did not carry its id and has distinct ids |
| ManagerProperties.AddThenDeleteLists | main/java/com/cfbenchmarks/interview/OrderBook.java:31-129 | deleting an order just added gives back every list of its pair |
| ManagerProperties.AddThenDeleteIndex | main/java/com/cfbenchmarks/interview/OrderBook.java:45 | deleting the id an add just indexed gives back the index the add started from |
| ManagerProperties.RestoredViews | main/java/com/cfbenchmarks/interview/OrderBookManagerImpl.java:56-74 | valid managers with the same lists at one key and the same other pairs answer every query alike |
| ManagerProperties.AddThenDeleteValid | main/java/com/cfbenchmarks/interview/OrderBookManagerImpl.java:24-54 | after add then delete the manager is valid, with the index the add started from |
| ManagerProperties.AddThenDeletePair | main/java/com/cfbenchmarks/interview/OrderBookManagerImpl.java:24-54 | after add then delete the order's pair lists what it listed before |
| ManagerProperties.AddThenDeleteOthers | main/java/com/cfbenchmarks/interview/OrderBookManagerImpl.java:24-54 | after add then delete every other pair reads as before |
| ManagerProperties.DeleteUndoesAdd | main/java/com/cfbenchmarks/interview/OrderBookManagerImpl.java:24-54 | addOrder followed by deleteOrder of the same id restores the index and every pair's levels and best price, so every query answers as before |
| ManagerRuns.Step | main/java/com/cfbenchmarks/interview/OrderBookManagerImpl.java:24-54 | a call that fails leaves the manager as it was; every call keeps the invariant, and the index changes only as the call names: an add files a new id, a modify revises a live id's quantity, a delete retires its id |
| ManagerRuns.RunPrefix | main/java/com/cfbenchmarks/interview/OrderBookManagerImpl.java:24-54 | every prefix of a run of well-formed calls from a valid manager keeps the invariant |
| ManagerRuns.Run | main/java/com/cfbenchmarks/interview/OrderBookManagerImpl.java:24-54 | a whole run of well-formed calls from a valid manager keeps the invariant |
| ManagerRuns.Reach | main/java/com/cfbenchmarks/interview/OrderBookManagerImpl.java:20-54 | every manager reachable from a new one by add, modify and delete calls keeps the invariant, and every live order's level exists |
| ManagerRuns.NeverAddedNotLive | main/java/com/cfbenchmarks/interview/OrderBookManagerImpl.java:24-54 | along a run, an id that was not live for a pair at the start and that no call adds for that pair is not live for it at the end |
| ManagerRuns.DeletedStaysAbsent | main/java/com/cfbenchmarks/interview/OrderBookManagerImpl.java:45-54 | along a run, an id deleted by some call and not added again afterwards is not live at the end |
| ManagerRuns.RunLinked | main/java/com/cfbenchmarks/interview/OrderBookManagerImpl.java:24-54 | consecutive indexes of a run are related as each call names |
| ManagerRuns.DrainedPairReadsEmpty | main/java/com/cfbenchmarks/interview/OrderBookManagerImpl.java:56-74 | after a run from a new manager in which every order added for a pair is deleted later and not added again, that pair has no best price, an empty list and count, quantity and volume 0 at every positive level |
| ManagerRuns.LifecycleCalls | test/java/com/cfbenchmarks/interview/ConcurrencyLifecycleTest.java:36-59 | the 18 calls of one lifecycle round in source order: three SELL and three BUY adds of "microscope", each side's three modifies, then the six deletes; `LifecycleWellFormed`, `LifecycleDeletesAdds` and `LifecycleReadsEmpty` state what the round does |
| ManagerRuns.LifecycleWellFormed | test/java/com/cfbenchmarks/interview/ConcurrencyLifecycleTest.java:62-73 | the six orders one lifecycle round builds pass the order validation |
| ManagerRuns.LifecycleDeletesAdds | test/java/com/cfbenchmarks/interview/ConcurrencyLifecycleTest.java:33-60 | every order one lifecycle round adds is deleted later in the round and not added again |
| ManagerRuns.LifecycleReadsEmpty | test/java/com/cfbenchmarks/interview/ConcurrencyLifecycleTest.java:76-108 | after one lifecycle round from a new manager, either side of "microscope" has no best price and count, quantity and volume 0 at every positive level |

## Left out

- Concurrency: the `synchronized` blocks, the synchronized maps and the double-checked creation of a book in `getOrderBook`. Every call is modelled as one atomic step.
- Long overflow of the level totals. `OrdersStats` adds and subtracts in 64-bit `long`; the model sums in unbounded integers. Prices and quantities are still bounded to `long` by the `Long` type.
- OrderBook.TotalQuantityAtLevel and OrderBook.TotalVolumeAtLevel: answer the unbounded sums. Java's `long` totals would wrap around past 2^63 - 1. The model states the sums the totals are meant to carry.
- The empty book a failing `addOrder` leaves behind. When `getOrCreateOrderBook` creates a book and `add` then throws (wrong side or duplicate id), Java keeps the new empty book. The model answers the error and keeps the old state. No query can tell the two apart, because an empty stored book reads like the shared empty book.
- Live-list aliasing: `getOrdersAtLevel` returns an unmodifiable view that later updates show through. The model returns the list's value at the time of the call.
- `hashCode` and `toString` of `Order`, and the getters, which only read fields.
- The messages of the exceptions. They are reduced to a `Reason` label.
- `Side.java` is not part of this model; `Side` is a two-constant datatype whose name is the constant's name.
- The `NullPointerException` that `OrderBook.delete` and `OrderBook.modify` would raise for a live order without a level. `ModifyOrder` and `DeleteOrder` require `LevelsCover`, which every reachable manager meets (`ManagerInvariants.ValidCovers`, `ManagerRuns.Reach`).
- `OrderBook.modify` on an unknown id. Java passes `null` to `clone`, which throws; `OrderBook.Modify` answers `InvalidArgument(NullArgument)`. The manager never reaches this, because it checks the id first.
- The test classes and `OrderValidater` are not modelled as code. `ManagerRuns.LifecycleReadsEmpty` states what `ConcurrencyLifecycleTest` checks after one round. `ManagerRuns.DrainedPairReadsEmpty` states it for any run that deletes every order it adds, which covers any interleaving of rounds as a sequence of atomic calls. The `StatsTest` checks follow from `ManagerInvariants.LevelQueriesAgree` and `ManagerInvariants.BestPriceOfResting`. The order-queue checks of `OrderOrderTest` are `ManagerProperties.AddOrderList`, `ModifyUpRequeues`, `ModifyDownKeepsPlace` and `DeleteOrderDequeues`. The concrete totals of `ConcurrencyAddTest` and `ConcurrencyUsageTest` are not stated.
- ManagerRuns.LifecycleCalls: takes the six order ids as a parameter in place of `UUID.randomUUID()`. `LifecycleReadsEmpty` requires them non-blank, but not distinct.
- ManagerRuns.Call: has only the state-changing calls. The queries leave the manager as it is, so a run need not include them.
- ManagerInvariants.AddOrderPreserves: requires `o.Valid()`, as do the other lemmas about adding an order. The datatype `Order` admits invalid field values, but every Java constructor validates, so no Java `Order` fails this.
