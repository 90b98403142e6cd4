/** The number ledger of one seller: the sold/unsold/all filter, the edit
    form's initial values, and the two save handlers with the dispatch
    between them. */
module NumbersList {
  import opened Tables
  import opened DataStore

  /** The edit form's two text fields. */
  datatype BuyerForm = BuyerForm(buyerName: string, buyerContact: string)

  /** The filter callback: "sold" keeps sold rows, "unsold" keeps unsold
      rows, and any other value (the default "all" among them) keeps every row. */
  predicate Shown(filter: string, row: NumberRow) {
    if filter == "sold" then row.isSold
    else if filter == "unsold" then !row.isSold
    else true
  }

  /** `a` is `b` with some entries dropped, the rest in their original order. */
  predicate IsSubsequence(a: seq<NumberRow>, b: seq<NumberRow>)
    decreases |b|
  {
    a == [] || (b != [] && ((a[0] == b[0] && IsSubsequence(a[1..], b[1..])) || IsSubsequence(a, b[1..])))
  }

  /** `numbers.filter(...)`: exactly the shown rows, each as often as in
      the input, in their original order. */
  function FilterNumbers(rows: seq<NumberRow>, filter: string): (r: seq<NumberRow>)
    ensures IsSubsequence(r, rows)
    ensures forall x :: x in r <==> x in rows && Shown(filter, x)
    ensures forall x :: multiset(r)[x] == if Shown(filter, x) then multiset(rows)[x] else 0
  {
    if rows == [] then []
    else
      var rest := FilterNumbers(rows[1..], filter);
      assert rows == [rows[0]] + rows[1..];
      if Shown(filter, rows[0]) then [rows[0]] + rest else rest
  }

  /** Any filter value other than "sold" and "unsold" returns the list unchanged. */
  lemma {:induction false} FilterOtherIsIdentity(rows: seq<NumberRow>, filter: string)
    requires filter != "sold" && filter != "unsold"
    ensures FilterNumbers(rows, filter) == rows
  {
    if rows != [] {
      FilterOtherIsIdentity(rows[1..], filter);
      assert rows == [rows[0]] + rows[1..];
    }
  }

  /** "sold" and "unsold" split the list between them. */
  lemma {:induction false} FilterPartition(rows: seq<NumberRow>)
    ensures multiset(FilterNumbers(rows, "sold")) + multiset(FilterNumbers(rows, "unsold")) == multiset(rows)
    ensures |FilterNumbers(rows, "sold")| + |FilterNumbers(rows, "unsold")| == |rows|
    ensures forall x :: !(x in FilterNumbers(rows, "sold") && x in FilterNumbers(rows, "unsold"))
  {
    if rows != [] {
      FilterPartition(rows[1..]);
      assert rows == [rows[0]] + rows[1..];
    }
  }

  /** The edit form starts from the row's buyer fields, or "" where they are null. */
  function EditFormFor(row: NumberRow): (f: BuyerForm)
    ensures row.buyerName.Some? ==> f.buyerName == row.buyerName.value
    ensures row.buyerName.None? ==> f.buyerName == ""
    ensures row.buyerContact.Some? ==> f.buyerContact == row.buyerContact.value
    ensures row.buyerContact.None? ==> f.buyerContact == ""
  {
    BuyerForm(row.buyerName.GetOr(""), row.buyerContact.GetOr(""))
  }

  /** The handler the save button gets: edit-sale for a sold row, mark-sold otherwise. */
  function PatchFor(row: NumberRow, form: BuyerForm): (p: Patch)
    ensures p.name == form.buyerName && p.contact == form.buyerContact
    ensures p.MarkSold? <==> !row.isSold
  {
    if row.isSold then EditSale(form.buyerName, form.buyerContact)
    else MarkSold(form.buyerName, form.buyerContact)
  }

  /** Whichever handler runs, the saved row is sold and carries the form's buyer. */
  lemma SaveLeavesRowSold(row: NumberRow, form: BuyerForm)
    ensures var saved := Apply(PatchFor(row, form), row);
      && saved.isSold
      && saved.buyerName == Some(form.buyerName) && saved.buyerContact == Some(form.buyerContact)
      && saved.(isSold := row.isSold, buyerName := row.buyerName, buyerContact := row.buyerContact) == row
  {
  }

  /** Saving the form as it was opened on a sold row with both buyer fields
      present writes back what was there. */
  lemma SaveUnchangedFormIsNoop(row: NumberRow)
    requires row.isSold && row.buyerName.Some? && row.buyerContact.Some?
    ensures Apply(PatchFor(row, EditFormFor(row)), row) == row
  {
  }

  /** Saving the form as it was opened, on any row: the row ends sold, and a
      null buyer field comes back as the empty string. */
  lemma SaveUnchangedFormFillsNulls(row: NumberRow)
    ensures Apply(PatchFor(row, EditFormFor(row)), row) ==
      row.(isSold := true,
           buyerName := Some(if row.buyerName.Some? then row.buyerName.value else ""),
           buyerContact := Some(if row.buyerContact.Some? then row.buyerContact.value else ""))
    ensures row.isSold && row.buyerName.None? ==> Apply(PatchFor(row, EditFormFor(row)), row) != row
  {
  }

  /** The ledger component's state: the seller it shows, the fetched rows,
      the row whose edit form is open, and the filter. */
  class NumbersView {
    const seller: Seller
    var numbers: seq<NumberRow>
    var editing: Option<NumberRow>
    var filter: string

    constructor (seller: Seller)
      ensures this.seller == seller
      ensures numbers == [] && editing == None && filter == "all"
    {
      this.seller := seller;
      numbers, editing, filter := [], None, "all";
    }

    /** `fetchNumbers`: on error the list is kept. The `.order('number')` of
        the query is the store's and is not modelled. */
    method FetchNumbers(store: Store, fails: bool)
      modifies this
      ensures editing == old(editing) && filter == old(filter)
      ensures numbers == if fails then old(numbers) else OwnedRows(store.numbers, seller.id)
    {
      var data := store.SelectNumbersOf(seller.id, fails);
      if data.Some? {
        numbers := data.value;
      }
    }

    /** `handleSave` (mark sold). Returns whether `onUpdate()` was called. */
    method HandleSave(store: Store, number: NumberRow, form: BuyerForm, updateFails: bool, fetchFails: bool)
      returns (notified: bool)
      requires store.Valid()
      modifies this, store
      ensures store.Valid() && store.sellers == old(store.sellers)
      ensures store.nextSellerId == old(store.nextSellerId) && store.nextNumberId == old(store.nextNumberId)
      ensures store.numbers == if updateFails then old(store.numbers)
        else UpdateWhereId(old(store.numbers), number.id, MarkSold(form.buyerName, form.buyerContact))
      ensures filter == old(filter)
      ensures updateFails ==> !notified && numbers == old(numbers) && editing == old(editing)
      ensures !updateFails ==>
        && notified && editing == None
        && numbers == if fetchFails then old(numbers) else OwnedRows(store.numbers, seller.id)
    {
      var ok := store.UpdateNumber(number.id, MarkSold(form.buyerName, form.buyerContact), updateFails);
      if !ok {
        return false;
      }
      FetchNumbers(store, fetchFails);
      editing := None;
      notified := true;
    }

    /** `handleEditSale`: buyer fields only; `onUpdate()` is not called. */
    method HandleEditSale(store: Store, number: NumberRow, form: BuyerForm, updateFails: bool, fetchFails: bool)
      requires store.Valid()
      modifies this, store
      ensures store.Valid() && store.sellers == old(store.sellers)
      ensures store.nextSellerId == old(store.nextSellerId) && store.nextNumberId == old(store.nextNumberId)
      ensures store.numbers == if updateFails then old(store.numbers)
        else UpdateWhereId(old(store.numbers), number.id, EditSale(form.buyerName, form.buyerContact))
      ensures filter == old(filter)
      ensures updateFails ==> numbers == old(numbers) && editing == old(editing)
      ensures !updateFails ==>
        && editing == None
        && numbers == if fetchFails then old(numbers) else OwnedRows(store.numbers, seller.id)
    {
      var ok := store.UpdateNumber(number.id, EditSale(form.buyerName, form.buyerContact), updateFails);
      if !ok {
        return;
      }
      FetchNumbers(store, fetchFails);
      editing := None;
    }

    /** The edit form's save button: `number.is_sold ? handleEditSale : handleSave`. */
    method Save(store: Store, number: NumberRow, form: BuyerForm, updateFails: bool, fetchFails: bool)
      returns (notified: bool)
      requires store.Valid()
      modifies this, store
      ensures store.Valid() && store.sellers == old(store.sellers)
      ensures store.nextSellerId == old(store.nextSellerId) && store.nextNumberId == old(store.nextNumberId)
      ensures store.numbers == if updateFails then old(store.numbers)
        else UpdateWhereId(old(store.numbers), number.id, PatchFor(number, form))
      ensures notified <==> !updateFails && !number.isSold
      ensures filter == old(filter)
      ensures updateFails ==> numbers == old(numbers) && editing == old(editing)
      ensures !updateFails ==>
        && editing == None
        && numbers == if fetchFails then old(numbers) else OwnedRows(store.numbers, seller.id)
    {
      if number.isSold {
        HandleEditSale(store, number, form, updateFails, fetchFails);
        notified := false;
      } else {
        notified := HandleSave(store, number, form, updateFails, fetchFails);
      }
    }
  }
}
