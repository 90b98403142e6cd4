/** The top-level component: the fetched seller list, the selected seller,
    the cascading seller delete, and the re-resolution of the selection
    after the ledger reports a change. */
module App {
  import opened Tables
  import opened DataStore

  /** `sellers.find(s => s.id === id)`: the first entry with that id. */
  function Find(list: seq<Seller>, id: nat): (r: Option<Seller>)
    ensures r.None? <==> forall k :: 0 <= k < |list| ==> list[k].id != id
    ensures r.Some? ==> exists k :: 0 <= k < |list| && list[k] == r.value && r.value.id == id &&
                                    forall j :: 0 <= j < k ==> list[j].id != id
  {
    if list == [] then None
    else if list[0].id == id then Some(list[0])
    else
      var rest := Find(list[1..], id);
      assert forall k :: 1 <= k < |list| ==> list[k] == list[1..][k - 1];
      rest
  }

  /** The `setSelectedSeller(prev => ...)` updater: null stays null; otherwise
      the list entry with the selected id, or null when there is none. */
  function Resolve(selected: Option<Seller>, list: seq<Seller>): (r: Option<Seller>)
    ensures selected.None? ==> r.None?
    ensures selected.Some? ==> (r.Some? <==> exists k :: 0 <= k < |list| && list[k].id == selected.value.id)
    ensures r.Some? ==> r.value in list && r.value.id == selected.value.id
  {
    if selected.None? then None else Find(list, selected.value.id)
  }

  /** Resolving an already resolved selection against the same list changes nothing. */
  lemma ResolveIdempotent(selected: Option<Seller>, list: seq<Seller>)
    ensures Resolve(Resolve(selected, list), list) == Resolve(selected, list)
  {
  }

  /** Once the seller's row is deleted, resolving it against the table gives null. */
  lemma ResolveAfterDelete(s: Seller, list: seq<Seller>)
    ensures Resolve(Some(s), DeleteSellerRow(list, s.id)) == None
  {
    var rest := DeleteSellerRow(list, s.id);
    forall k | 0 <= k < |rest| ensures rest[k].id != s.id {
      assert rest[k] in rest;
    }
  }

  /** The application state: the fetched seller list and the selection. */
  class AppState {
    var sellers: seq<Seller>
    var selected: Option<Seller>

    constructor ()
      ensures sellers == [] && selected == None
    {
      sellers, selected := [], None;
    }

    /** `fetchSellers`: on error the previous list is kept. The `.order('name')`
        of the query is the store's and is not modelled. */
    method FetchSellers(store: Store, fails: bool)
      modifies this
      ensures selected == old(selected)
      ensures sellers == if fails then old(sellers) else store.sellers
    {
      var data := store.SelectSellers(fails);
      if data.Some? {
        sellers := data.value;
      }
    }

    /** `handleDeleteSeller`: numbers first, then the seller row; any failure
        stops the sequence. Returns whether the seller was deleted. */
    method DeleteSeller(store: Store, seller: Seller, confirmed: bool,
                        numbersFail: bool, sellerFails: bool, fetchFails: bool) returns (deleted: bool)
      requires store.Valid()
      modifies this, store
      ensures store.Valid()
      ensures store.nextSellerId == old(store.nextSellerId) && store.nextNumberId == old(store.nextNumberId)
      ensures deleted <==> confirmed && !numbersFail && !sellerFails
      ensures !confirmed || numbersFail ==> unchanged(store) && unchanged(this)
      ensures confirmed && !numbersFail ==>
        && store.numbers == DeleteNumbersOf(old(store.numbers), seller.id)
        && OwnedRows(store.numbers, seller.id) == []
      ensures confirmed && !numbersFail && sellerFails ==>
        store.sellers == old(store.sellers) && unchanged(this)
      ensures deleted ==>
        && store.sellers == DeleteSellerRow(old(store.sellers), seller.id)
        && (forall s :: s in store.sellers ==> s.id != seller.id)
        && selected == (if old(selected).Some? && old(selected).value.id == seller.id then None else old(selected))
        && sellers == (if fetchFails then old(sellers) else store.sellers)
      ensures forall other :: other != seller.id ==> OwnedRows(store.numbers, other) == OwnedRows(old(store.numbers), other)
    {
      if !confirmed {
        return false;
      }
      var ok := store.DeleteNumbersOfSeller(seller.id, numbersFail);
      if !ok {
        return false;
      }
      forall other | other != seller.id
        ensures OwnedRows(store.numbers, other) == OwnedRows(old(store.numbers), other)
      {
        DeleteKeepsOthers(old(store.numbers), seller.id, other);
      }
      OwnedRowsUnused(store.numbers, seller.id);
      ok := store.DeleteSeller(seller.id, sellerFails);
      if !ok {
        return false;
      }
      if selected.Some? && selected.value.id == seller.id {
        selected := None;
      }
      FetchSellers(store, fetchFails);
      deleted := true;
    }

    /** The `onUpdate` callback the ledger calls after a sale: refetch the
        list, and re-resolve the selection against the list held when the
        callback runs (the refetched list has not arrived yet). */
    method OnUpdate(store: Store, fetchFails: bool)
      modifies this
      ensures sellers == if fetchFails then old(sellers) else store.sellers
      ensures selected == Resolve(old(selected), old(sellers))
    {
      var held := sellers;
      FetchSellers(store, fetchFails);
      selected := Resolve(selected, held);
    }
  }
}
