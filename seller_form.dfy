/** The seller form's submit handler: creating a seller with its number range,
    or updating a seller and, when both bounds are filled in, replacing its
    numbers. The `if (seller)` choice at the head of the handler is the choice
    between `Update` (a seller is being edited) and `Create`. */
module SellerForm {
  import opened Tables
  import opened DataStore

  /** How the handler ends: `onSave()` called, the overlap toast, or the catch block. */
  datatype Outcome = Saved | Rejected | Failed

  /** The `for` loop that fills `numbersToInsert`: one row per integer of
      [lo, hi], ascending, all tagged with `sid`; empty when lo > hi. */
  method BuildInsertList(lo: int, hi: int, sid: nat) returns (batch: seq<NewNumber>)
    ensures |batch| == if lo <= hi then hi - lo + 1 else 0
    ensures forall k :: 0 <= k < |batch| ==> batch[k] == NewNumber(lo + k, sid)
    ensures batch == Tag(Range(lo, hi), sid)
  {
    batch := [];
    var i := lo;
    while i <= hi
      invariant lo <= i <= if lo <= hi then hi + 1 else lo
      invariant |batch| == i - lo
      invariant forall k :: 0 <= k < |batch| ==> batch[k] == NewNumber(lo + k, sid)
      decreases hi - i
    {
      batch := batch + [NewNumber(i, sid)];
      i := i + 1;
    }
    assert |batch| == |Tag(Range(lo, hi), sid)|;
    assert forall k :: 0 <= k < |batch| ==> batch[k] == Tag(Range(lo, hi), sid)[k];
  }

  /** The create path. The range query's error is ignored: its null data
      counts as "no overlap". */
  method Create(store: Store, name: string, contact: string, lo: int, hi: int,
                queryFails: bool, sellerFails: bool, numbersFails: bool) returns (outcome: Outcome)
    requires store.Valid()
    modifies store
    ensures store.Valid()
    ensures outcome == Rejected <==> !queryFails && Overlaps(old(store.numbers), lo, hi)
    ensures outcome == Rejected ==> unchanged(store)
    ensures outcome != Rejected && sellerFails ==> outcome == Failed && unchanged(store)
    ensures outcome != Rejected && !sellerFails ==>
      var sid := old(store.nextSellerId);
      && store.sellers == old(store.sellers) + [Seller(sid, name, contact)]
      && outcome == (if numbersFails then Failed else Saved)
      && store.numbers == old(store.numbers) +
           (if numbersFails then [] else Materialize(Tag(Range(lo, hi), sid), old(store.nextNumberId)))
      && OwnedValues(store.numbers, sid) == (if numbersFails then [] else Range(lo, hi))
      && (forall other :: other != sid ==> OwnedRows(store.numbers, other) == OwnedRows(old(store.numbers), other))
    ensures outcome == Saved && !queryFails && Exclusive(old(store.numbers)) ==> Exclusive(store.numbers)
    ensures store.nextSellerId == old(store.nextSellerId) + (if outcome == Rejected || sellerFails then 0 else 1)
    ensures store.nextNumberId == old(store.nextNumberId) + (if outcome == Saved then |Range(lo, hi)| else 0)
  {
    var existing := store.SelectNumbersInRange(lo, hi, queryFails);
    if existing.Some? && |existing.value| > 0 {
      return Rejected;
    }
    var created := store.InsertSeller(name, contact, sellerFails);
    if created.None? {
      return Failed;
    }
    var sid := created.value.id;
    var batch := BuildInsertList(lo, hi, sid);
    ghost var before := store.numbers;
    var ok := store.InsertNumbers(batch, numbersFails);
    forall other | other != sid
      ensures OwnedRows(store.numbers, other) == OwnedRows(before, other)
    {
      CreateOwnsExactlyRange(before, sid, lo, hi, old(store.nextNumberId), other);
    }
    if ok {
      CreateOwnsExactlyRange(before, sid, lo, hi, old(store.nextNumberId), sid);
      if !queryFails && Exclusive(before) {
        CreateKeepsExclusive(before, sid, lo, hi, old(store.nextNumberId));
      }
      outcome := Saved;
    } else {
      OwnedRowsUnused(before, sid);
      outcome := Failed;
    }
  }

  /** The update path: name and contact first; then, when both bounds are
      given, delete every number of the seller and insert the new range, with
      no overlap check against other sellers. */
  method Update(store: Store, seller: Seller, name: string, contact: string,
                lo: Option<int>, hi: Option<int>,
                updateFails: bool, deleteFails: bool, insertFails: bool) returns (outcome: Outcome)
    requires store.Valid()
    requires seller.id < store.nextSellerId   // the edited seller was read from the store
    modifies store
    ensures store.Valid()
    ensures outcome != Rejected
    ensures store.nextSellerId == old(store.nextSellerId)
    ensures store.nextNumberId == old(store.nextNumberId) +
      (if outcome == Saved && lo.Some? && hi.Some? then |Range(lo.value, hi.value)| else 0)
    ensures updateFails ==> outcome == Failed && unchanged(store)
    ensures !updateFails ==> store.sellers == UpdateSellerRow(old(store.sellers), seller.id, name, contact)
    ensures !updateFails && (lo.None? || hi.None?) ==>
      outcome == Saved && store.numbers == old(store.numbers)
    ensures !updateFails && lo.Some? && hi.Some? && deleteFails ==>
      outcome == Failed && store.numbers == old(store.numbers)
    ensures !updateFails && lo.Some? && hi.Some? && !deleteFails ==>
      && outcome == (if insertFails then Failed else Saved)
      && store.numbers == DeleteNumbersOf(old(store.numbers), seller.id) +
           (if insertFails then [] else Materialize(Tag(Range(lo.value, hi.value), seller.id), old(store.nextNumberId)))
      && OwnedValues(store.numbers, seller.id) == (if insertFails then [] else Range(lo.value, hi.value))
      && (forall other :: other != seller.id ==> OwnedRows(store.numbers, other) == OwnedRows(old(store.numbers), other))
  {
    var ok := store.UpdateSeller(seller.id, name, contact, updateFails);
    if !ok {
      return Failed;
    }
    if lo.None? || hi.None? {
      return Saved;
    }
    ok := store.DeleteNumbersOfSeller(seller.id, deleteFails);
    if !ok {
      return Failed;
    }
    var batch := BuildInsertList(lo.value, hi.value, seller.id);
    ghost var kept := store.numbers;
    ok := store.InsertNumbers(batch, insertFails);
    forall other | other != seller.id
      ensures OwnedRows(store.numbers, other) == OwnedRows(old(store.numbers), other)
    {
      ReplaceOwnsExactlyRange(old(store.numbers), seller.id, lo.value, hi.value, old(store.nextNumberId), other);
      if !ok {
        DeleteKeepsOthers(old(store.numbers), seller.id, other);
      }
    }
    if ok {
      ReplaceOwnsExactlyRange(old(store.numbers), seller.id, lo.value, hi.value, old(store.nextNumberId), seller.id);
      outcome := Saved;
    } else {
      OwnedRowsUnused(kept, seller.id);
      outcome := Failed;
    }
  }
}
