# Raffle sellers and their number ranges — a Dafny model

The application manages raffle ("rifa") sellers. Each seller owns a
contiguous range of raffle numbers, and each number can be marked sold to a
buyer. The data lives in two tables of a remote store:

- `sellers`: `{id, name, contact}`;
- `numbers`: `{id, number, seller_id, is_sold, buyer_name, buyer_contact}`.

The only real logic is how the application keeps `numbers` consistent with
each seller's declared range. This project models that logic and proves what
it guarantees, including the partial states it leaves behind when a store
call fails halfway.

- `Tables` (`tables.dfy`) holds the row datatypes and one pure function per
  store operation: delete-where-eq, update-where-eq, select-range, and the
  rows a bulk insert creates. It also holds the inclusive range `Range(lo, hi)`
  and the lemmas about ownership. `OwnedRows(rows, sid)` is the rows owned by
  `sid`. `OwnedValues` is their `number` values.
- `DataStore` (`store.dfy`) is the store as a class. It has the two tables
  as `seq` fields and two id counters. Every call takes a `fails` flag. A
  failed call changes nothing and reports the error, as the client's
  `{ error }` result does.
- `SellerForm` (`seller_form.dfy`) is the form's submit handler. `Create`
  runs the overlap query, inserts the seller, then inserts its numbers.
  `Update` writes name and contact. When both bounds are given, it also
  deletes the seller's numbers and inserts the new range. `BuildInsertList`
  is the `for` loop that builds the insert batch.
- `NumbersList` (`numbers_list.dfy`) is the ledger. It holds the sold/unsold
  filter, the edit form's initial values, mark-sold (`HandleSave`),
  edit-sale (`HandleEditSale`), and the dispatch between the two (`Save`).
- `App` (`app.dfy`) is the top-level component. It holds the cascading
  seller delete, the seller fetch, and the re-resolution of the selected
  seller by id.

Each component's state is a class, and its handlers are methods on that
class: `NumbersView` for the ledger and `AppState` for the top level. Their
postconditions give the new state of the component and of the store as
functions from `Tables`. The lemmas in `Tables` then say what those
functions guarantee.

Points where the model follows the code's actual behaviour:

- Create ignores an error from the overlap query. Its data is then null, so
  the range counts as free and creation proceeds.
- Filter values other than `"sold"` and `"unsold"` keep every row, not only
  `"all"`.
- `onUpdate` re-resolves the selection against the seller list held when the
  callback runs. The refetch it starts has not arrived yet.
- A seller update with a range does no overlap check against other sellers.
  `Tables.ReplaceCanBreakExclusive` proves that this can leave one number
  value held by two sellers.

## Model

| member | source | states |
|---|---|---|
| `Tables.Range` | src/components/SellerForm.tsx:63 | the loop bounds: `hi - lo + 1` values when `lo <= hi`, none otherwise, the k-th being `lo + k` |
| `Tables.RangeMembership` | src/components/SellerForm.tsx:63 | a value is in the range exactly when `lo <= x <= hi` (both bounds inclusive) |
| `Tables.RangeStrictlyAscending` | src/components/SellerForm.tsx:63 | the range is strictly ascending, so each value occurs once |
| `Tables.Tag` | src/components/SellerForm.tsx:64-67 | every pushed entry carries the value and the one target seller id |
| `Tables.Materialize` | src/components/SellerForm.tsx:112-114 | inserted rows get fresh consecutive ids, their given `number` and `seller_id`, `is_sold = false` and null buyer fields |
| `Tables.Apply` | src/components/NumbersList.tsx:38-42 | a patch keeps id, number and owner; it sets both buyer fields; it sets `is_sold` only for mark-sold and otherwise keeps it |
| `Tables.OwnedRows` | src/components/NumbersList.tsx:21-25 | exactly the rows whose `seller_id` is the given seller |
| `Tables.ValuesInRange` | src/components/SellerForm.tsx:80-86 | the range query returns only values in `[lo, hi]` and every row value in `[lo, hi]`; it is non-empty iff some row of any seller has a value in `[lo, hi]` |
| `Tables.DeleteNumbersOf` | src/App.tsx:39-42 | the rows kept are exactly those with a different `seller_id` |
| `Tables.DeleteSellerRow` | src/App.tsx:50-53 | the sellers kept are exactly those with a different id |
| `Tables.UpdateSellerRow` | src/components/SellerForm.tsx:41-47 | rows with the id get the new name and contact; every other row is unchanged; the length is kept |
| `Tables.UpdateWhereId` | src/components/NumbersList.tsx:36-43 | rows with the id get the patch; every other row is unchanged |
| `Tables.OwnedRowsOfBatch` | src/components/SellerForm.tsx:104-114 | the batch built for a seller is owned by it value for value, and by no other seller |
| `Tables.DeleteKeepsOthers` | src/App.tsx:39-42 | deleting one seller's numbers leaves every other seller's rows identical and in order |
| `Tables.ReplaceOwnsExactlyRange` | src/components/SellerForm.tsx:52-75 | after delete-then-insert the seller owns exactly `lo..hi`, once each, ascending; every other seller's rows are unchanged |
| `Tables.CreateOwnsExactlyRange` | src/components/SellerForm.tsx:91-116 | for a new id, appending its batch gives it exactly `lo..hi`; every other seller's rows are unchanged |
| `Tables.CreateKeepsExclusive` | src/components/SellerForm.tsx:79-116 | a create that passed the overlap check keeps every number value with at most one seller |
| `Tables.ReplaceCanBreakExclusive` | src/components/SellerForm.tsx:52-75 | if another seller holds a value of the new range, the replaced table has one value with two sellers |
| `Tables.CreateCanBreakExclusive` | src/components/SellerForm.tsx:80-116 | when the overlap query fails its null data lets the create proceed, and if another seller already holds a value of the range the table ends with one value held by two sellers |
| `Tables.WritesKeepSoldRowsNamed` | src/components/NumbersList.tsx:36-43 | inserted rows are unsold, deletes keep rows as they were, and both patches set both buyer fields, so every sold row keeps a buyer name and contact |
| `Tables.UpdateWhereIdIdempotent` | src/components/NumbersList.tsx:35-43 | repeating mark-sold, or edit-sale, with the same arguments changes nothing more |
| `DataStore.Store.SelectSellers` | src/App.tsx:20-23 | a failed read gives null; otherwise the sellers table |
| `DataStore.Store.SelectNumbersOf` | src/components/NumbersList.tsx:21-25 | a failed read gives null; otherwise exactly the rows of that seller |
| `DataStore.Store.SelectNumbersInRange` | src/components/SellerForm.tsx:80-84 | a failed read gives null; otherwise values that are non-empty iff the range overlaps any row |
| `DataStore.Store.InsertSeller` | src/components/SellerForm.tsx:92-99 | on success, appends and returns a seller with a fresh id; on failure, no change |
| `DataStore.Store.UpdateSeller` | src/components/SellerForm.tsx:41-47 | on success, name and contact are rewritten; on failure, no change |
| `DataStore.Store.DeleteSeller` | src/App.tsx:50-53 | on success, the seller row is removed; on failure, no change |
| `DataStore.Store.DeleteNumbersOfSeller` | src/components/SellerForm.tsx:54-57 | on success, every number of the seller is removed; on failure, no change |
| `DataStore.Store.InsertNumbers` | src/components/SellerForm.tsx:70-72 | the whole batch is appended with fresh ids, or on failure nothing is |
| `DataStore.Store.UpdateNumber` | src/components/NumbersList.tsx:36-43 | on success, the patch is applied to rows with that id; on failure, no change |
| `SellerForm.BuildInsertList` | src/components/SellerForm.tsx:62-68 | the loop (also at lines 104-110) yields `lo..hi` in order, each tagged with the seller id; it is empty when `lo > hi` |
| `SellerForm.Create` | src/components/SellerForm.tsx:78-119 | rejected iff the query succeeded and found any seller's number in range, with nothing written; a failed seller insert writes nothing; otherwise a new seller row, and the seller owns exactly `lo..hi`, or nothing if the number insert failed; older rows are kept; when the overlap query succeeded and no value had two sellers before, that stays so; the id counters advance by exactly the rows written |
| `SellerForm.Update` | src/components/SellerForm.tsx:39-77 | a failed name/contact write touches nothing; an empty bound keeps the numbers; a failed delete keeps them; otherwise the seller owns exactly `lo..hi`, or nothing if the insert failed; other sellers' rows are unchanged; the number id counter advances by exactly the rows inserted |
| `NumbersList.FilterNumbers` | src/components/NumbersList.tsx:75-79 | exactly the shown rows, each with its multiplicity, in original order |
| `NumbersList.FilterOtherIsIdentity` | src/components/NumbersList.tsx:78 | any filter value other than `"sold"`/`"unsold"`, `"all"` included, returns the list unchanged |
| `NumbersList.FilterPartition` | src/components/NumbersList.tsx:75-77 | `"sold"` and `"unsold"` are disjoint and together give back the whole list |
| `NumbersList.PatchFor` | src/components/NumbersList.tsx:135 | a sold row gets edit-sale and an unsold row gets mark-sold, both with the form's values |
| `NumbersList.SaveLeavesRowSold` | src/components/NumbersList.tsx:132-137 | whichever handler runs, the row ends sold with the form's buyer, and nothing else in it changes |
| `NumbersList.EditFormFor` | src/components/NumbersList.tsx:146-150 | the form opens with the row's buyer name and contact, each `""` when the column is null |
| `NumbersList.SaveUnchangedFormIsNoop` | src/components/NumbersList.tsx:146-150 | saving the unedited form on a sold row with both buyer fields set writes back the same row; `Tables.WritesKeepSoldRowsNamed` shows every sold row this application writes has both set |
| `NumbersList.SaveUnchangedFormFillsNulls` | src/components/NumbersList.tsx:146-150 | saving the unedited form on any row leaves it sold with each null buyer field turned into `""`, so a sold row with a null name is rewritten |
| `NumbersList.NumbersView.constructor` | src/components/NumbersList.tsx:12-14 | starts with no rows, no open editor and filter `"all"` |
| `NumbersList.NumbersView.FetchNumbers` | src/components/NumbersList.tsx:20-33 | on error the list is kept; otherwise it becomes the seller's rows |
| `NumbersList.NumbersView.HandleSave` | src/components/NumbersList.tsx:35-54 | on error, nothing changes and `onUpdate` is not called; otherwise the row is marked sold, the list is refetched, the editor is closed and `onUpdate` is called; the id counters do not move |
| `NumbersList.NumbersView.HandleEditSale` | src/components/NumbersList.tsx:56-73 | on error, nothing changes; otherwise the buyer fields are written with `is_sold` kept, the list is refetched and the editor is closed; the id counters do not move |
| `NumbersList.NumbersView.Save` | src/components/NumbersList.tsx:132-137 | the store receives `PatchFor(number, form)`; `onUpdate` is called only after a successful mark-sold; on error the view is unchanged; otherwise the editor is closed and the list refetched (kept on a failed fetch); the filter is kept |
| `App.Find` | src/App.tsx:138 | the first entry with the id, or null iff no entry has it |
| `App.Resolve` | src/App.tsx:136-140 | null stays null; otherwise an entry of the list with the same id, present iff the list has that id |
| `App.ResolveIdempotent` | src/App.tsx:136-140 | re-resolving a resolved selection against the same list changes nothing |
| `App.ResolveAfterDelete` | src/App.tsx:50-63 | a seller whose row was deleted resolves to null |
| `App.AppState.constructor` | src/App.tsx:10-11 | no sellers and no selection |
| `App.AppState.FetchSellers` | src/App.tsx:19-31 | on error the previous list is kept; otherwise it becomes the sellers table |
| `App.AppState.DeleteSeller` | src/App.tsx:33-65 | declined, or a failed numbers delete: no table changes; a failed seller delete leaves the seller with zero numbers; on success neither the seller row nor any of its numbers remains, and the selection is cleared only when it was this seller; other sellers' rows are unchanged; the id counters do not move |
| `App.AppState.OnUpdate` | src/App.tsx:134-141 | the list is refetched (kept on error), and the selection is re-resolved by id against the list held before the refetch |

## Left out

- Rendering, toasts, `console.error`, and the `useState`/`useEffect` plumbing are not modelled. This includes the form's re-initialisation from the edited seller and the fetches on mount. These are presentation only.
- The store client, its network behaviour and its query builder are not modelled. The store is two in-memory tables, and each call has a failure flag.
- Ids are modelled as counters. The store's own id generation and foreign keys are not modelled. `SellerForm.Update` requires that the edited seller's id was issued by the store, since the seller it edits comes from the fetched list.
- The `.order('name')` and `.order('number')` of the fetches are not modelled. That ordering is done by the store, so fetched rows come back in table order.
- `parseInt` and the `min`/`max`/`required` input attributes are not modelled. Bounds are integers, or absent for the update path. `SellerForm.Create` takes both bounds, because the form requires them when creating.
- Concurrency is not modelled: the `async` interleaving, the `fetchNumbers()` and `fetchSellers()` calls that are not awaited (`App.AppState.DeleteSeller` and `App.AppState.OnUpdate` run the fetch to completion, in order), and races between browser sessions. Each handler runs its store calls in order.
- The `confirm` dialog is a boolean input of `App.AppState.DeleteSeller`.
- The calls across components are not modelled as calls. `onSave()` appears as the `Saved` outcome of the seller form. The ledger's `onUpdate()` appears as the `notified` result of `HandleSave`, and `App.AppState.OnUpdate` is that callback.
