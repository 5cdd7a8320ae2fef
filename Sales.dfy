/** Recording a sale (`create_sale`): which cart lines are charged, what the
    sale totals, which rows it writes, and the agreement between a sale
    header and its lines that every recorded sale keeps. */
module Sales {
  import opened Schema
  import opened Tables

  /** One `{item_id, qty}` entry of the submitted cart. The client sends no price. */
  datatype CartLine = CartLine(itemId: int, qty: int)

  /** One `(iid, qty, price)` entry of the normalised cart, priced from the items table. */
  datatype PricedLine = PricedLine(itemId: int, qty: int, price: Cents)

  /** A cart line the sale keeps: a positive quantity of an item the store knows. */
  predicate Kept(items: map<int, Item>, ln: CartLine) {
    ln.qty > 0 && ln.itemId in items
  }

  /** A kept line with the price the items table holds for its item. */
  function Priced(items: map<int, Item>, ln: CartLine): PricedLine
    requires ln.itemId in items
  {
    PricedLine(ln.itemId, ln.qty, items[ln.itemId].price)
  }

  /** The normalised cart: the kept lines of `cart`, in cart order, each priced
      from the items table; every other line is dropped. */
  function Normalize(items: map<int, Item>, cart: seq<CartLine>): (norm: seq<PricedLine>)
    ensures |norm| <= |cart|
    ensures forall k :: 0 <= k < |norm| ==>
      norm[k].qty > 0 && norm[k].itemId in items && norm[k].price == items[norm[k].itemId].price
    decreases |cart|
  {
    if cart == [] then []
    else
      var last := cart[|cart| - 1];
      Normalize(items, cart[..|cart| - 1]) + (if Kept(items, last) then [Priced(items, last)] else [])
  }

  /** What the normalised lines come to: price × qty, added up in order. */
  function Total(lines: seq<PricedLine>): Cents
    decreases |lines|
  {
    if lines == [] then 0
    else Total(lines[..|lines| - 1]) + lines[|lines| - 1].price * lines[|lines| - 1].qty
  }

  /** What one cart line costs: the stored price times the quantity, or nothing
      for a line the sale drops. */
  function Charge(items: map<int, Item>, ln: CartLine): Cents {
    if Kept(items, ln) then items[ln.itemId].price * ln.qty else 0
  }

  /** A reference definition of what a cart costs, line by line from the front. */
  function CartTotal(items: map<int, Item>, cart: seq<CartLine>): Cents
    decreases |cart|
  {
    if cart == [] then 0 else Charge(items, cart[0]) + CartTotal(items, cart[1..])
  }

  /** Normalising a cart in two parts gives the two parts' lines one after the other. */
  lemma {:induction false} NormalizeAppend(items: map<int, Item>, a: seq<CartLine>, b: seq<CartLine>)
    ensures Normalize(items, a + b) == Normalize(items, a) + Normalize(items, b)
    decreases |b|
  {
    if b == [] {
      assert a + b == a;
    } else {
      var ab := a + b;
      assert ab[..|ab| - 1] == a + b[..|b| - 1];
      assert ab[|ab| - 1] == b[|b| - 1];
      NormalizeAppend(items, a, b[..|b| - 1]);
    }
  }

  /** A one-line cart: kept and priced from the table, or dropped. */
  lemma NormalizeOne(items: map<int, Item>, ln: CartLine)
    ensures Normalize(items, [ln]) == if Kept(items, ln) then [Priced(items, ln)] else []
  {
    assert [ln][..0] == [];
  }

  /** A line is in the normalised cart exactly when some kept cart line, priced
      from the table, is that line. */
  lemma {:induction false} NormalizeMembers(items: map<int, Item>, cart: seq<CartLine>, pl: PricedLine)
    ensures pl in Normalize(items, cart) <==>
      exists k :: 0 <= k < |cart| && Kept(items, cart[k]) && Priced(items, cart[k]) == pl
    decreases |cart|
  {
    if cart != [] {
      var init := cart[..|cart| - 1];
      NormalizeMembers(items, init, pl);
      if exists k :: 0 <= k < |init| && Kept(items, init[k]) && Priced(items, init[k]) == pl {
        var k :| 0 <= k < |init| && Kept(items, init[k]) && Priced(items, init[k]) == pl;
        assert cart[k] == init[k];
      }
      if exists k :: 0 <= k < |cart| && Kept(items, cart[k]) && Priced(items, cart[k]) == pl {
        var k :| 0 <= k < |cart| && Kept(items, cart[k]) && Priced(items, cart[k]) == pl;
        if k < |init| {
          assert init[k] == cart[k];
        }
      }
    }
  }

  /** Adding up two runs of lines one after the other. */
  lemma {:induction false} TotalAppend(a: seq<PricedLine>, b: seq<PricedLine>)
    ensures Total(a + b) == Total(a) + Total(b)
    decreases |b|
  {
    if b == [] {
      assert a + b == a;
    } else {
      var ab := a + b;
      assert ab[..|ab| - 1] == a + b[..|b| - 1];
      TotalAppend(a, b[..|b| - 1]);
    }
  }

  /** The cart's reference cost, with one more line at the back. */
  lemma {:induction false} CartTotalSnoc(items: map<int, Item>, cart: seq<CartLine>, ln: CartLine)
    ensures CartTotal(items, cart + [ln]) == CartTotal(items, cart) + Charge(items, ln)
    decreases |cart|
  {
    if cart == [] {
      assert [ln][1..] == [];
    } else {
      assert (cart + [ln])[1..] == cart[1..] + [ln];
      CartTotalSnoc(items, cart[1..], ln);
    }
  }

  /** The total `create_sale` computes is what the kept lines cost at the
      stored prices; dropped lines add nothing. */
  lemma {:induction false} NormalizedTotal(items: map<int, Item>, cart: seq<CartLine>)
    ensures Total(Normalize(items, cart)) == CartTotal(items, cart)
    decreases |cart|
  {
    if cart != [] {
      var init, last := cart[..|cart| - 1], cart[|cart| - 1];
      NormalizedTotal(items, init);
      var tail := if Kept(items, last) then [Priced(items, last)] else [];
      TotalAppend(Normalize(items, init), tail);
      assert Total(tail) == Charge(items, last) by {
        if Kept(items, last) { assert tail[..0] == []; }
      }
      assert init + [last] == cart;
      CartTotalSnoc(items, init, last);
    }
  }

  /** When every line has a positive price and quantity, there is something to pay
      exactly when there is a line. */
  lemma {:induction false} TotalPositive(lines: seq<PricedLine>)
    requires forall k :: 0 <= k < |lines| ==> lines[k].price > 0 && lines[k].qty > 0
    ensures Total(lines) > 0 <==> lines != []
    decreases |lines|
  {
    if lines != [] {
      var last := lines[|lines| - 1];
      assert last.price * last.qty > 0;
      var init := lines[..|lines| - 1];
      assert forall k :: 0 <= k < |init| ==> init[k] == lines[k];
      TotalPositive(init);
    }
  }

  /** A cart none of whose lines survives the filter leaves nothing to pay, and
      the sale is refused, whatever the stored prices are. */
  lemma NothingKeptRefused(items: map<int, Item>, cart: seq<CartLine>)
    requires forall k :: 0 <= k < |cart| ==> !Kept(items, cart[k])
    ensures Normalize(items, cart) == [] && Total(Normalize(items, cart)) <= 0
  {
    var norm := Normalize(items, cart);
    if norm != [] {
      NormalizeMembers(items, cart, norm[0]);
    }
  }

  /** While every stored price is positive (as `items_create` demands), a sale is
      refused for its total exactly when no cart line survives the filter. */
  lemma PositivePricesRefuseOnlyEmptyCarts(items: map<int, Item>, cart: seq<CartLine>)
    requires forall id :: id in items ==> items[id].price > 0
    ensures Total(Normalize(items, cart)) <= 0 <==> forall k :: 0 <= k < |cart| ==> !Kept(items, cart[k])
  {
    var norm := Normalize(items, cart);
    TotalPositive(norm);
    if norm != [] {
      NormalizeMembers(items, cart, norm[0]);
    } else {
      forall k | 0 <= k < |cart| ensures !Kept(items, cart[k]) {
        if Kept(items, cart[k]) {
          NormalizeMembers(items, cart, Priced(items, cart[k]));
        }
      }
    }
  }

  /** The `sale_lines` row written for one normalised line of sale `saleId`. */
  function LineRow(saleId: int, pl: PricedLine): SaleLine {
    SaleLine(saleId, pl.itemId, pl.qty, pl.price)
  }

  /** The ids `start`, `start + 1`, …, `start + n - 1`. */
  function Ids(start: int, n: nat): seq<int> {
    seq(n, k => start + k)
  }

  predicate Increasing(ids: seq<int>) {
    forall i, j :: 0 <= i < j < |ids| ==> ids[i] < ids[j]
  }

  /** What the sale lines with the given ids come to: price × qty, added up in order. */
  function LinesTotal(rows: map<int, SaleLine>, ids: seq<int>): Cents
    decreases |ids|
  {
    if ids == [] then 0
    else
      var id := ids[|ids| - 1];
      LinesTotal(rows, ids[..|ids| - 1]) + (if id in rows then rows[id].price * rows[id].qty else 0)
  }

  /** Rows that stay as they were keep their total. */
  lemma {:induction false} LinesTotalFrame(rows: map<int, SaleLine>, rows': map<int, SaleLine>, ids: seq<int>)
    requires forall id :: id in ids ==> id in rows && id in rows' && rows'[id] == rows[id]
    ensures LinesTotal(rows', ids) == LinesTotal(rows, ids)
    decreases |ids|
  {
    if ids != [] {
      var init := ids[..|ids| - 1];
      assert forall id :: id in init ==> id in ids;
      LinesTotalFrame(rows, rows', init);
    }
  }

  /** Row `id` of `sale_lines` carries the quantity and unit price of `pl`. */
  predicate RowMatches(rows: map<int, SaleLine>, id: int, pl: PricedLine) {
    id in rows && rows[id].price == pl.price && rows[id].qty == pl.qty
  }

  /** The rows written for a sale add up to the total of its normalised lines. */
  lemma {:induction false} LinesTotalOfWritten(rows: map<int, SaleLine>, start: int, norm: seq<PricedLine>)
    requires forall k :: 0 <= k < |norm| ==> RowMatches(rows, start + k, norm[k])
    ensures LinesTotal(rows, Ids(start, |norm|)) == Total(norm)
    decreases |norm|
  {
    if norm != [] {
      var n := |norm|;
      var init := norm[..n - 1];
      assert forall k :: 0 <= k < |init| ==> init[k] == norm[k];
      LinesTotalOfWritten(rows, start, init);
      assert Ids(start, n)[..n - 1] == Ids(start, n - 1);
      assert Ids(start, n)[n - 1] == start + (n - 1);
      assert RowMatches(rows, start + (n - 1), norm[n - 1]);
    }
  }

  /** Every line belongs to a recorded sale, has a positive quantity and is
      listed among that sale's lines. */
  ghost predicate LinesBelong(sales: map<int, Sale>, lines: map<int, SaleLine>, lineIds: map<int, seq<int>>)
    requires lineIds.Keys == sales.Keys
  {
    forall id :: id in lines ==>
      && lines[id].saleId in sales
      && lines[id].qty > 0
      && id in lineIds[lines[id].saleId]
  }

  /** Every sale's listed lines are distinct rows of that sale, and its header
      total is positive and equals what those lines come to. */
  ghost predicate SalesAgree(sales: map<int, Sale>, lines: map<int, SaleLine>, lineIds: map<int, seq<int>>)
    requires lineIds.Keys == sales.Keys
  {
    forall s :: s in sales ==>
      && sales[s].total > 0
      && Increasing(lineIds[s])
      && (forall id :: id in lineIds[s] ==> id in lines && lines[id].saleId == s)
      && sales[s].total == LinesTotal(lines, lineIds[s])
  }

  /** How the sale headers and the sale lines agree, given for each sale the ids
      of its lines in the order they were written. */
  ghost predicate Consistent(sales: map<int, Sale>, lines: map<int, SaleLine>, lineIds: map<int, seq<int>>) {
    && lineIds.Keys == sales.Keys
    && LinesBelong(sales, lines, lineIds)
    && SalesAgree(sales, lines, lineIds)
  }

  /** The lines table after the lines of sale `sid` were written at ids `start`,
      `start + 1`, …: the rows before are kept, and row `start + k` is the line
      written for the `k`-th normalised line. */
  ghost predicate Written(lines: map<int, SaleLine>, lines': map<int, SaleLine>, start: int, sid: int, norm: seq<PricedLine>) {
    && (forall id :: id in lines' <==> id in lines || start <= id < start + |norm|)
    && (forall id :: id in lines ==> id < start && lines'[id] == lines[id])
    && (forall k :: 0 <= k < |norm| ==> lines'[start + k] == LineRow(sid, norm[k]))
  }

  /** Writing one more line at the next id extends what was written. */
  lemma WrittenSnoc(
    lines: map<int, SaleLine>, lines': map<int, SaleLine>, start: int, sid: int,
    norm: seq<PricedLine>, j: nat)
    requires j < |norm|
    requires Written(lines, lines', start, sid, norm[..j])
    requires start + j !in lines'
    ensures Written(lines, lines'[start + j := LineRow(sid, norm[j])], start, sid, norm[..j + 1])
  {
    var prefix := norm[..j + 1];
    assert forall k :: 0 <= k < j ==> prefix[k] == norm[..j][k];
  }

  lemma LinesBelongAfterRecord(
    sales: map<int, Sale>, lines: map<int, SaleLine>, lines': map<int, SaleLine>,
    lineIds: map<int, seq<int>>, sid: int, header: Sale, start: int, norm: seq<PricedLine>)
    requires lineIds.Keys == sales.Keys && LinesBelong(sales, lines, lineIds)
    requires sid !in sales
    requires Written(lines, lines', start, sid, norm)
    requires forall k :: 0 <= k < |norm| ==> norm[k].qty > 0
    ensures LinesBelong(sales[sid := header], lines', lineIds[sid := Ids(start, |norm|)])
  {
    var sales' := sales[sid := header];
    var lineIds' := lineIds[sid := Ids(start, |norm|)];
    forall id | id in lines'
      ensures lines'[id].saleId in sales' && lines'[id].qty > 0 && id in lineIds'[lines'[id].saleId]
    {
      if id !in lines {
        var k := id - start;
        assert lines'[start + k] == LineRow(sid, norm[k]);
        assert Ids(start, |norm|)[k] == id;
      }
    }
  }

  lemma SalesAgreeAfterRecord(
    sales: map<int, Sale>, lines: map<int, SaleLine>, lines': map<int, SaleLine>,
    lineIds: map<int, seq<int>>, sid: int, header: Sale, start: int, norm: seq<PricedLine>)
    requires lineIds.Keys == sales.Keys && SalesAgree(sales, lines, lineIds)
    requires Written(lines, lines', start, sid, norm)
    requires header.total == Total(norm) > 0
    ensures SalesAgree(sales[sid := header], lines', lineIds[sid := Ids(start, |norm|)])
  {
    var sales' := sales[sid := header];
    var lineIds' := lineIds[sid := Ids(start, |norm|)];
    var newIds := Ids(start, |norm|);
    forall s | s in sales'
      ensures && sales'[s].total > 0
              && Increasing(lineIds'[s])
              && (forall id :: id in lineIds'[s] ==> id in lines' && lines'[id].saleId == s)
              && sales'[s].total == LinesTotal(lines', lineIds'[s])
    {
      if s == sid {
        forall id | id in newIds ensures id in lines' && lines'[id].saleId == s {
          var k :| 0 <= k < |newIds| && newIds[k] == id;
          assert lines'[start + k] == LineRow(sid, norm[k]);
        }
        forall k | 0 <= k < |norm| ensures RowMatches(lines', start + k, norm[k]) {
          assert lines'[start + k] == LineRow(sid, norm[k]);
        }
        LinesTotalOfWritten(lines', start, norm);
      } else {
        LinesTotalFrame(lines, lines', lineIds[s]);
      }
    }
  }

  /** Writing one header under a fresh id and its lines under fresh ids, as
      `create_sale` does for a sale whose total is positive, keeps headers and
      lines in agreement. */
  lemma RecordKeepsConsistent(
    sales: map<int, Sale>, lines: map<int, SaleLine>, lines': map<int, SaleLine>,
    lineIds: map<int, seq<int>>, sid: int, header: Sale, start: int, norm: seq<PricedLine>)
    requires Consistent(sales, lines, lineIds)
    requires sid !in sales
    requires Written(lines, lines', start, sid, norm)
    requires header.total == Total(norm) > 0
    requires forall k :: 0 <= k < |norm| ==> norm[k].qty > 0
    ensures Consistent(sales[sid := header], lines', lineIds[sid := Ids(start, |norm|)])
  {
    LinesBelongAfterRecord(sales, lines, lines', lineIds, sid, header, start, norm);
    SalesAgreeAfterRecord(sales, lines, lines', lineIds, sid, header, start, norm);
  }

  /** The sales and sale-lines tables: ids below their counters, and every
      header in agreement with its lines. */
  ghost predicate SalesInv(sales: Table<Sale>, lines: Table<SaleLine>, lineIds: map<int, seq<int>>) {
    sales.Valid() && lines.Valid() && Consistent(sales.rows, lines.rows, lineIds)
  }

  /** Writing a header with a positive total under the next sale id and its
      lines under the next line ids, as `create_sale` does, keeps the sales
      tables' invariant. */
  lemma WriteKeepsSalesInv(
    sales: Table<Sale>, lines: Table<SaleLine>, lines': Table<SaleLine>, lineIds: map<int, seq<int>>,
    header: Sale, norm: seq<PricedLine>)
    requires SalesInv(sales, lines, lineIds)
    requires Written(lines.rows, lines'.rows, lines.next, sales.next, norm)
    requires lines'.next == lines.next + |norm|
    requires header.total == Total(norm) > 0
    requires forall k :: 0 <= k < |norm| ==> norm[k].qty > 0
    ensures SalesInv(sales.Insert(header), lines', lineIds[sales.next := Ids(lines.next, |norm|)])
  {
    RecordKeepsConsistent(sales.rows, lines.rows, lines'.rows, lineIds, sales.next, header, lines.next, norm);
  }
}
