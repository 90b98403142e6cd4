/** Rows of the two store tables, `sellers` and `numbers`, and the pure
    functions that say what each store call does to them. */
module Tables {

  datatype Option<T> = None | Some(value: T) {
    function GetOr(default: T): T {
      match this
      case Some(v) => v
      case None => default
    }
  }

  /** A row of `sellers`; `id` is assigned by the store. */
  datatype Seller = Seller(id: nat, name: string, contact: string)

  /** A row of `numbers`; `buyerName`/`buyerContact` are nullable columns. */
  datatype NumberRow = NumberRow(
    id: nat,
    number: int,
    sellerId: nat,
    isSold: bool,
    buyerName: Option<string>,
    buyerContact: Option<string>)

  /** What the application hands to a bulk insert: only `number` and `seller_id`. */
  datatype NewNumber = NewNumber(number: int, sellerId: nat)

  /** The two field sets the number ledger writes with update-where-id. */
  datatype Patch =
    | MarkSold(name: string, contact: string)   // is_sold, buyer_name, buyer_contact
    | EditSale(name: string, contact: string)   // buyer_name, buyer_contact

  function Apply(p: Patch, row: NumberRow): (r: NumberRow)
    ensures r.id == row.id && r.number == row.number && r.sellerId == row.sellerId
    ensures r.buyerName == Some(p.name) && r.buyerContact == Some(p.contact)
    ensures r.isSold == (p.MarkSold? || row.isSold)
  {
    match p
    case MarkSold(n, c) => row.(isSold := true, buyerName := Some(n), buyerContact := Some(c))
    case EditSale(n, c) => row.(buyerName := Some(n), buyerContact := Some(c))
  }

  // ---------------------------------------------------------------------------
  // Ranges and insert batches

  /** The inclusive list lo, lo+1, ..., hi; empty when lo > hi. */
  function Range(lo: int, hi: int): (r: seq<int>)
    ensures |r| == if lo <= hi then hi - lo + 1 else 0
    ensures forall k :: 0 <= k < |r| ==> r[k] == lo + k
    decreases hi - lo
  {
    if lo > hi then [] else [lo] + Range(lo + 1, hi)
  }

  lemma RangeMembership(lo: int, hi: int, x: int)
    ensures x in Range(lo, hi) <==> lo <= x <= hi
  {
    if lo <= x <= hi {
      assert Range(lo, hi)[x - lo] == x;
    }
  }

  lemma RangeStrictlyAscending(lo: int, hi: int)
    ensures forall i, j :: 0 <= i < j < |Range(lo, hi)| ==> Range(lo, hi)[i] < Range(lo, hi)[j]
  {
  }

  /** Tags every value with one owning seller. */
  function Tag(values: seq<int>, sid: nat): (r: seq<NewNumber>)
    ensures |r| == |values|
    ensures forall k :: 0 <= k < |r| ==> r[k] == NewNumber(values[k], sid)
  {
    if values == [] then [] else [NewNumber(values[0], sid)] + Tag(values[1..], sid)
  }

  /** The rows the store creates for a batch: fresh consecutive ids from
      `firstId`, the column defaults `is_sold = false` and null buyer fields. */
  function Materialize(batch: seq<NewNumber>, firstId: nat): (r: seq<NumberRow>)
    ensures |r| == |batch|
    ensures forall k :: 0 <= k < |r| ==>
      r[k] == NumberRow(firstId + k, batch[k].number, batch[k].sellerId, false, None, None)
  {
    if batch == [] then []
    else [NumberRow(firstId, batch[0].number, batch[0].sellerId, false, None, None)]
         + Materialize(batch[1..], firstId + 1)
  }

  // ---------------------------------------------------------------------------
  // Queries

  /** The rows owned by `sid`, in table order. */
  function OwnedRows(rows: seq<NumberRow>, sid: nat): (r: seq<NumberRow>)
    ensures forall x :: x in r <==> x in rows && x.sellerId == sid
    ensures |r| <= |rows|
  {
    if rows == [] then []
    else if rows[0].sellerId == sid then [rows[0]] + OwnedRows(rows[1..], sid)
    else OwnedRows(rows[1..], sid)
  }

  /** The `number` column of a list of rows. */
  function Values(rows: seq<NumberRow>): (r: seq<int>)
    ensures |r| == |rows|
    ensures forall k :: 0 <= k < |r| ==> r[k] == rows[k].number
  {
    if rows == [] then [] else [rows[0].number] + Values(rows[1..])
  }

  /** The `number` values the seller owns, in table order. */
  function OwnedValues(rows: seq<NumberRow>, sid: nat): seq<int> {
    Values(OwnedRows(rows, sid))
  }

  /** Some row, of any seller, holds a value in [lo, hi]. */
  predicate Overlaps(rows: seq<NumberRow>, lo: int, hi: int) {
    exists i :: 0 <= i < |rows| && lo <= rows[i].number <= hi
  }

  /** `select('number').gte('number', lo).lte('number', hi)`: the values in [lo, hi]. */
  function ValuesInRange(rows: seq<NumberRow>, lo: int, hi: int): (r: seq<int>)
    ensures forall x :: x in r ==> lo <= x <= hi
    ensures forall i :: 0 <= i < |rows| && lo <= rows[i].number <= hi ==> rows[i].number in r
    ensures |r| > 0 <==> Overlaps(rows, lo, hi)
  {
    if rows == [] then []
    else
      var rest := ValuesInRange(rows[1..], lo, hi);
      assert forall i :: 1 <= i < |rows| ==> rows[i] == rows[1..][i - 1];
      assert Overlaps(rows, lo, hi) <==> lo <= rows[0].number <= hi || Overlaps(rows[1..], lo, hi) by {
        if Overlaps(rows[1..], lo, hi) {
          var i :| 0 <= i < |rows[1..]| && lo <= rows[1..][i].number <= hi;
          assert rows[i + 1] == rows[1..][i];
        }
        if Overlaps(rows, lo, hi) && !(lo <= rows[0].number <= hi) {
          var i :| 0 <= i < |rows| && lo <= rows[i].number <= hi;
          assert rows[1..][i - 1] == rows[i];
        }
      }
      if lo <= rows[0].number <= hi then [rows[0].number] + rest else rest
  }

  /** No number value is held by two different sellers. */
  predicate Exclusive(rows: seq<NumberRow>) {
    forall i, j :: 0 <= i < |rows| && 0 <= j < |rows| && rows[i].number == rows[j].number ==>
      rows[i].sellerId == rows[j].sellerId
  }

  // ---------------------------------------------------------------------------
  // Writes

  /** `delete().eq('seller_id', sid)` on `numbers`: the other rows, in order. */
  function DeleteNumbersOf(rows: seq<NumberRow>, sid: nat): (r: seq<NumberRow>)
    ensures forall x :: x in r <==> x in rows && x.sellerId != sid
  {
    if rows == [] then []
    else if rows[0].sellerId == sid then DeleteNumbersOf(rows[1..], sid)
    else [rows[0]] + DeleteNumbersOf(rows[1..], sid)
  }

  /** `delete().eq('id', id)` on `sellers`. */
  function DeleteSellerRow(rows: seq<Seller>, id: nat): (r: seq<Seller>)
    ensures forall s :: s in r <==> s in rows && s.id != id
  {
    if rows == [] then []
    else if rows[0].id == id then DeleteSellerRow(rows[1..], id)
    else [rows[0]] + DeleteSellerRow(rows[1..], id)
  }

  /** `update({name, contact}).eq('id', id)` on `sellers`. */
  function UpdateSellerRow(rows: seq<Seller>, id: nat, name: string, contact: string): (r: seq<Seller>)
    ensures |r| == |rows|
    ensures forall k :: 0 <= k < |r| ==>
      r[k] == if rows[k].id == id then Seller(id, name, contact) else rows[k]
  {
    if rows == [] then []
    else [if rows[0].id == id then Seller(id, name, contact) else rows[0]]
         + UpdateSellerRow(rows[1..], id, name, contact)
  }

  /** `update(patch).eq('id', id)` on `numbers`. */
  function UpdateWhereId(rows: seq<NumberRow>, id: nat, p: Patch): (r: seq<NumberRow>)
    ensures |r| == |rows|
    ensures forall k :: 0 <= k < |r| ==>
      r[k] == if rows[k].id == id then Apply(p, rows[k]) else rows[k]
  {
    if rows == [] then []
    else [if rows[0].id == id then Apply(p, rows[0]) else rows[0]]
         + UpdateWhereId(rows[1..], id, p)
  }

  // ---------------------------------------------------------------------------
  // Lemmas about ownership across the writes

  lemma {:induction false} OwnedRowsAppend(a: seq<NumberRow>, b: seq<NumberRow>, sid: nat)
    ensures OwnedRows(a + b, sid) == OwnedRows(a, sid) + OwnedRows(b, sid)
  {
    if a != [] {
      assert (a + b)[0] == a[0] && (a + b)[1..] == a[1..] + b;
      OwnedRowsAppend(a[1..], b, sid);
      if a[0].sellerId == sid {
        calc {
          OwnedRows(a + b, sid);
          [a[0]] + OwnedRows(a[1..] + b, sid);
          [a[0]] + (OwnedRows(a[1..], sid) + OwnedRows(b, sid));
          ([a[0]] + OwnedRows(a[1..], sid)) + OwnedRows(b, sid);
        }
      }
    } else {
      assert a + b == b;
    }
  }

  lemma ValuesAppend(a: seq<NumberRow>, b: seq<NumberRow>)
    ensures Values(a + b) == Values(a) + Values(b)
  {
  }

  /** A seller id no row carries owns nothing. */
  lemma {:induction false} OwnedRowsUnused(rows: seq<NumberRow>, sid: nat)
    requires forall x :: x in rows ==> x.sellerId != sid
    ensures OwnedRows(rows, sid) == []
  {
    if OwnedRows(rows, sid) != [] {
      assert OwnedRows(rows, sid)[0] in OwnedRows(rows, sid);
    }
  }

  /** The batch built for `sid` is owned by `sid`, value for value, and by nobody else. */
  lemma {:induction false} OwnedRowsOfBatch(values: seq<int>, sid: nat, firstId: nat, other: nat)
    ensures OwnedValues(Materialize(Tag(values, sid), firstId), sid) == values
    ensures other != sid ==> OwnedRows(Materialize(Tag(values, sid), firstId), other) == []
  {
    var rows := Materialize(Tag(values, sid), firstId);
    if values != [] {
      assert Tag(values, sid)[1..] == Tag(values[1..], sid);
      assert rows == [rows[0]] + Materialize(Tag(values[1..], sid), firstId + 1);
      OwnedRowsOfBatch(values[1..], sid, firstId + 1, other);
      OwnedRowsAppend([rows[0]], Materialize(Tag(values[1..], sid), firstId + 1), sid);
      OwnedRowsAppend([rows[0]], Materialize(Tag(values[1..], sid), firstId + 1), other);
      assert OwnedRows([rows[0]], sid) == [rows[0]];
      ValuesAppend([rows[0]], OwnedRows(Materialize(Tag(values[1..], sid), firstId + 1), sid));
    }
  }

  /** Deleting `sid`'s numbers leaves every other seller's rows as they were. */
  lemma {:induction false} DeleteKeepsOthers(rows: seq<NumberRow>, sid: nat, other: nat)
    requires other != sid
    ensures OwnedRows(DeleteNumbersOf(rows, sid), other) == OwnedRows(rows, other)
  {
    if rows != [] {
      DeleteKeepsOthers(rows[1..], sid, other);
    }
  }

  /** The range replacement: after deleting `sid`'s rows and inserting the batch
      for [lo, hi], `sid` owns exactly lo..hi, once each, ascending, and every
      other seller owns what it owned before. */
  lemma ReplaceOwnsExactlyRange(rows: seq<NumberRow>, sid: nat, lo: int, hi: int, firstId: nat, other: nat)
    ensures OwnedValues(DeleteNumbersOf(rows, sid) + Materialize(Tag(Range(lo, hi), sid), firstId), sid)
            == Range(lo, hi)
    ensures other != sid ==>
      OwnedRows(DeleteNumbersOf(rows, sid) + Materialize(Tag(Range(lo, hi), sid), firstId), other)
      == OwnedRows(rows, other)
  {
    var kept := DeleteNumbersOf(rows, sid);
    var batch := Materialize(Tag(Range(lo, hi), sid), firstId);
    OwnedRowsAppend(kept, batch, sid);
    OwnedRowsAppend(kept, batch, other);
    OwnedRowsUnused(kept, sid);
    OwnedRowsOfBatch(Range(lo, hi), sid, firstId, other);
    if other != sid {
      DeleteKeepsOthers(rows, sid, other);
    }
  }

  /** Creating: when no row carries the new id yet, appending its batch gives it
      exactly lo..hi and leaves every other seller's rows as they were. */
  lemma CreateOwnsExactlyRange(rows: seq<NumberRow>, sid: nat, lo: int, hi: int, firstId: nat, other: nat)
    requires forall x :: x in rows ==> x.sellerId != sid
    ensures OwnedValues(rows + Materialize(Tag(Range(lo, hi), sid), firstId), sid) == Range(lo, hi)
    ensures other != sid ==>
      OwnedRows(rows + Materialize(Tag(Range(lo, hi), sid), firstId), other) == OwnedRows(rows, other)
  {
    var batch := Materialize(Tag(Range(lo, hi), sid), firstId);
    OwnedRowsAppend(rows, batch, sid);
    OwnedRowsAppend(rows, batch, other);
    OwnedRowsUnused(rows, sid);
    OwnedRowsOfBatch(Range(lo, hi), sid, firstId, other);
  }

  /** A create that passed the overlap check keeps numbers exclusive. */
  lemma CreateKeepsExclusive(rows: seq<NumberRow>, sid: nat, lo: int, hi: int, firstId: nat)
    requires Exclusive(rows)
    requires !Overlaps(rows, lo, hi)
    ensures Exclusive(rows + Materialize(Tag(Range(lo, hi), sid), firstId))
  {
  }

  /** A range replacement makes no overlap check: when another seller already
      holds a value of the new range, the table stops being exclusive. */
  lemma ReplaceCanBreakExclusive(rows: seq<NumberRow>, sid: nat, lo: int, hi: int, firstId: nat, i: nat)
    requires i < |rows| && rows[i].sellerId != sid && lo <= rows[i].number <= hi
    ensures !Exclusive(DeleteNumbersOf(rows, sid) + Materialize(Tag(Range(lo, hi), sid), firstId))
  {
    var kept := DeleteNumbersOf(rows, sid);
    var batch := Materialize(Tag(Range(lo, hi), sid), firstId);
    var all := kept + batch;
    assert rows[i] in kept;
    var a :| 0 <= a < |kept| && kept[a] == rows[i];
    var b := rows[i].number - lo;
    assert batch[b].number == rows[i].number && batch[b].sellerId == sid;
    assert all[a] == kept[a] && all[|kept| + b] == batch[b];
  }

  /** A create whose overlap query failed is not stopped: when another seller
      already holds a value of the range, the table stops being exclusive. */
  lemma CreateCanBreakExclusive(rows: seq<NumberRow>, sid: nat, lo: int, hi: int, firstId: nat, i: nat)
    requires i < |rows| && rows[i].sellerId != sid && lo <= rows[i].number <= hi
    ensures !Exclusive(rows + Materialize(Tag(Range(lo, hi), sid), firstId))
  {
    var batch := Materialize(Tag(Range(lo, hi), sid), firstId);
    var all := rows + batch;
    var b := rows[i].number - lo;
    assert batch[b].number == rows[i].number && batch[b].sellerId == sid;
    assert all[i] == rows[i] && all[|rows| + b] == batch[b];
  }

  /** Mark-sold and edit-sale are idempotent on the table. */
  lemma UpdateWhereIdIdempotent(rows: seq<NumberRow>, id: nat, p: Patch)
    ensures UpdateWhereId(UpdateWhereId(rows, id, p), id, p) == UpdateWhereId(rows, id, p)
  {
  }

  /** Every sold row carries a buyer name and contact (possibly empty strings). */
  predicate SoldRowsNamed(rows: seq<NumberRow>) {
    forall k :: 0 <= k < |rows| && rows[k].isSold ==> rows[k].buyerName.Some? && rows[k].buyerContact.Some?
  }

  /** The writes this application makes keep every sold row named: inserted
      rows are unsold, deletes keep rows as they were, and both patches set
      both buyer fields. */
  lemma WritesKeepSoldRowsNamed(rows: seq<NumberRow>, batch: seq<NewNumber>, firstId: nat, sid: nat, id: nat, p: Patch)
    requires SoldRowsNamed(rows)
    ensures SoldRowsNamed(rows + Materialize(batch, firstId))
    ensures SoldRowsNamed(DeleteNumbersOf(rows, sid))
    ensures SoldRowsNamed(UpdateWhereId(rows, id, p))
  {
    var kept := DeleteNumbersOf(rows, sid);
    forall k | 0 <= k < |kept| && kept[k].isSold
      ensures kept[k].buyerName.Some? && kept[k].buyerContact.Some?
    {
      assert kept[k] in rows;
    }
  }
}
