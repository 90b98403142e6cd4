/** The remote store as two in-memory tables. Every call takes a `fails`
    flag standing for a network or store error; a failed call changes
    nothing and reports the error to its caller. */
module DataStore {
  import opened Tables

  class Store {
    var sellers: seq<Seller>
    var numbers: seq<NumberRow>
    var nextSellerId: nat   // the id the next inserted seller receives
    var nextNumberId: nat   // the id the next inserted number row receives

    /** Every id in the tables was issued by the store. */
    ghost predicate Valid()
      reads this
    {
      && (forall s :: s in sellers ==> s.id < nextSellerId)
      && (forall x :: x in numbers ==> x.sellerId < nextSellerId && x.id < nextNumberId)
    }

    constructor ()
      ensures Valid()
      ensures sellers == [] && numbers == [] && nextSellerId == 0 && nextNumberId == 0
    {
      sellers, numbers := [], [];
      nextSellerId, nextNumberId := 0, 0;
    }

    /** `from('sellers').select('*')`: `None` is the null data of a failed read. */
    method SelectSellers(fails: bool) returns (data: Option<seq<Seller>>)
      ensures fails <==> data.None?
      ensures data.Some? ==> data.value == sellers
    {
      data := if fails then None else Some(sellers);
    }

    /** `from('numbers').select('*').eq('seller_id', sid)`. */
    method SelectNumbersOf(sid: nat, fails: bool) returns (data: Option<seq<NumberRow>>)
      ensures fails <==> data.None?
      ensures data.Some? ==> data.value == OwnedRows(numbers, sid)
    {
      data := if fails then None else Some(OwnedRows(numbers, sid));
    }

    /** `from('numbers').select('number').gte('number', lo).lte('number', hi)`. */
    method SelectNumbersInRange(lo: int, hi: int, fails: bool) returns (data: Option<seq<int>>)
      ensures fails <==> data.None?
      ensures data.Some? ==> data.value == ValuesInRange(numbers, lo, hi)
    {
      data := if fails then None else Some(ValuesInRange(numbers, lo, hi));
    }

    /** `from('sellers').insert([{name, contact}]).select().single()`. */
    method InsertSeller(name: string, contact: string, fails: bool) returns (created: Option<Seller>)
      requires Valid()
      modifies this
      ensures Valid()
      ensures fails ==> unchanged(this)
      ensures numbers == old(numbers) && nextNumberId == old(nextNumberId)
      ensures fails <==> created.None?
      ensures fails ==> sellers == old(sellers) && nextSellerId == old(nextSellerId)
      ensures !fails ==>
        && created.value == Seller(old(nextSellerId), name, contact)
        && sellers == old(sellers) + [created.value]
        && nextSellerId == old(nextSellerId) + 1
    {
      if fails {
        created := None;
      } else {
        var s := Seller(nextSellerId, name, contact);
        sellers := sellers + [s];
        nextSellerId := nextSellerId + 1;
        created := Some(s);
      }
    }

    /** `from('sellers').update({name, contact}).eq('id', id)`. */
    method UpdateSeller(id: nat, name: string, contact: string, fails: bool) returns (ok: bool)
      requires Valid()
      modifies this
      ensures Valid()
      ensures fails ==> unchanged(this)
      ensures ok == !fails
      ensures numbers == old(numbers)
      ensures nextSellerId == old(nextSellerId) && nextNumberId == old(nextNumberId)
      ensures sellers == if fails then old(sellers) else UpdateSellerRow(old(sellers), id, name, contact)
    {
      ok := !fails;
      if ok {
        sellers := UpdateSellerRow(sellers, id, name, contact);
        forall s | s in sellers ensures s.id < nextSellerId {
          var k :| 0 <= k < |sellers| && sellers[k] == s;
        }
      }
    }

    /** `from('sellers').delete().eq('id', id)`. */
    method DeleteSeller(id: nat, fails: bool) returns (ok: bool)
      requires Valid()
      modifies this
      ensures Valid()
      ensures fails ==> unchanged(this)
      ensures ok == !fails
      ensures numbers == old(numbers)
      ensures nextSellerId == old(nextSellerId) && nextNumberId == old(nextNumberId)
      ensures sellers == if fails then old(sellers) else DeleteSellerRow(old(sellers), id)
    {
      ok := !fails;
      if ok {
        sellers := DeleteSellerRow(sellers, id);
      }
    }

    /** `from('numbers').delete().eq('seller_id', sid)`. */
    method DeleteNumbersOfSeller(sid: nat, fails: bool) returns (ok: bool)
      requires Valid()
      modifies this
      ensures Valid()
      ensures fails ==> unchanged(this)
      ensures ok == !fails
      ensures sellers == old(sellers)
      ensures nextSellerId == old(nextSellerId) && nextNumberId == old(nextNumberId)
      ensures numbers == if fails then old(numbers) else DeleteNumbersOf(old(numbers), sid)
    {
      ok := !fails;
      if ok {
        numbers := DeleteNumbersOf(numbers, sid);
      }
    }

    /** `from('numbers').insert(batch)`: one statement, so all rows or none. */
    method InsertNumbers(batch: seq<NewNumber>, fails: bool) returns (ok: bool)
      requires Valid()
      requires forall b :: b in batch ==> b.sellerId < nextSellerId
      modifies this
      ensures Valid()
      ensures fails ==> unchanged(this)
      ensures ok == !fails
      ensures sellers == old(sellers) && nextSellerId == old(nextSellerId)
      ensures fails ==> numbers == old(numbers) && nextNumberId == old(nextNumberId)
      ensures !fails ==>
        && numbers == old(numbers) + Materialize(batch, old(nextNumberId))
        && nextNumberId == old(nextNumberId) + |batch|
    {
      ok := !fails;
      if ok {
        var rows := Materialize(batch, nextNumberId);
        forall x | x in rows ensures x.sellerId < nextSellerId && x.id < nextNumberId + |batch| {
          var k :| 0 <= k < |rows| && rows[k] == x;
          assert batch[k] in batch;
        }
        numbers := numbers + rows;
        nextNumberId := nextNumberId + |batch|;
      }
    }

    /** `from('numbers').update(patch).eq('id', id)`. */
    method UpdateNumber(id: nat, p: Patch, fails: bool) returns (ok: bool)
      requires Valid()
      modifies this
      ensures Valid()
      ensures fails ==> unchanged(this)
      ensures ok == !fails
      ensures sellers == old(sellers)
      ensures nextSellerId == old(nextSellerId) && nextNumberId == old(nextNumberId)
      ensures numbers == if fails then old(numbers) else UpdateWhereId(old(numbers), id, p)
    {
      ok := !fails;
      if ok {
        numbers := UpdateWhereId(numbers, id, p);
        forall x | x in numbers ensures x.sellerId < nextSellerId && x.id < nextNumberId {
          var k :| 0 <= k < |numbers| && numbers[k] == x;
          assert old(numbers)[k] in old(numbers);
        }
      }
    }
  }
}
