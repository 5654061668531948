/** The records of the cash register and the money arithmetic on them
    (public/shared/js/models.js).

    Money is kept in integer cents. The source works on binary floats and calls
    `Math.round(x * 100) / 100` after each sum to undo drift; on whole cents that
    rounding is the identity, so it does not appear here. */
module Models {
  import opened Wrappers
  import Text

  /** An amount of money in cents; may be negative (deposit returns). */
  type Cents = int

  /** A sellable catalogue entry. */
  datatype Item = Item(id: string, name: string, price: Cents, color: string)

  /** One `{itemId, quantity}` pair: a cart entry or a transaction line. */
  datatype LineItem = LineItem(itemId: string, quantity: int)

  /** A finished sale. `tip` is `None` where the source stores `undefined`. */
  datatype Transaction = Transaction(
    timestamp: string,
    items: seq<LineItem>,
    total: Cents,
    received: Cents,
    change: Cents,
    tip: Option<Cents>)

  datatype Event = Event(
    id: string,
    name: string,
    createdAt: string,
    items: seq<Item>,
    transactions: seq<Transaction>,
    closed: bool)

  datatype EventTotals = EventTotals(revenue: Cents, tip: Cents, transactionCount: nat)

  /** One row of the per-item sales statistics. */
  datatype Sold = Sold(name: string, quantity: int, revenue: Cents)

  /** A text input as the handlers read it: empty, or holding text whose lenient
      numeric parse is `parsed` (`None` when `parseFloat` gives `NaN`). */
  datatype Field = Blank | Filled(parsed: Option<Cents>)

  // ─── Factories ──────────────────────────────────────────────────────────────
  // Ids and timestamps are generated by the source (random UUIDs, the clock);
  // here the caller passes them in.

  function CreateEvent(id: string, name: string, createdAt: string): (e: Event)
    ensures e.id == id && e.createdAt == createdAt
    ensures e.name == Text.Trim(name)
    ensures e.items == [] && e.transactions == [] && !e.closed
  {
    Event(id, Text.Trim(name), createdAt, [], [], false)
  }

  /** The price goes through the lenient parse: unparsable text becomes 0. */
  function CreateItem(id: string, name: string, price: Option<Cents>, color: string): (item: Item)
    ensures item.id == id && item.name == Text.Trim(name) && item.color == Text.Trim(color)
    ensures item.price == SafeParseFloat(price)
  {
    Item(id, Text.Trim(name), SafeParseFloat(price), Text.Trim(color))
  }

  function CreateTransaction(timestamp: string, items: seq<LineItem>, total: Cents,
                             received: Cents, change: Cents, tip: Option<Cents>): (tx: Transaction)
    ensures tx.timestamp == timestamp && tx.items == items && tx.total == total
    ensures tx.received == received && tx.change == change && tx.tip == tip
  {
    Transaction(timestamp, items, total, received, change, tip)
  }

  // ─── Money ──────────────────────────────────────────────────────────────────

  /** `parseFloat` with `NaN` replaced by 0; negative values pass through. */
  function SafeParseFloat(parsed: Option<Cents>): (r: Cents)
    ensures parsed.None? ==> r == 0
    ensures parsed.Some? ==> r == parsed.value
  {
    match parsed
    case Some(v) => v
    case None => 0
  }

  /** The value a handler reads from a text input: `safeParseFloat(input.value)`. */
  function FieldValue(f: Field): (r: Cents)
    ensures f.Blank? ==> r == 0
    ensures f.Filled? ==> r == SafeParseFloat(f.parsed)
  {
    match f
    case Blank => 0
    case Filled(p) => SafeParseFloat(p)
  }

  /** Change to hand back: never negative; an underpayment or a negative amount
      received gives 0, otherwise the whole excess over the total. */
  function CalculateChange(total: Cents, received: Cents): (change: Cents)
    ensures change >= 0
    ensures change == 0 <== received < 0 || received < total
    ensures 0 <= received && total <= received ==> change == received - total
  {
    if received < 0 then 0
    else
      var c := received - total;
      if c < 0 then 0 else c
  }

  /** The part of the amount received that is neither total nor change; never negative. */
  function CalculateTip(total: Cents, received: Cents, change: Cents): (tip: Cents)
    ensures tip >= 0
    ensures received < 0 ==> tip == 0
    ensures 0 <= received && total + change <= received ==> tip == received - total - change
    ensures 0 <= received && received < total + change ==> tip == 0
  {
    if received < 0 then 0
    else
      var t := received - total - change;
      if t < 0 then 0 else t
  }

  /** Composed with the change it was designed for, the automatic tip is always 0,
      and when the customer paid at least the total the three amounts add up. */
  lemma AutoTipIsZero(total: Cents, received: Cents)
    ensures CalculateTip(total, received, CalculateChange(total, received)) == 0
    ensures 0 <= received && total <= received ==>
      total + CalculateChange(total, received) + CalculateTip(total, received, CalculateChange(total, received)) == received
  {
  }

  // ─── Item lookup ────────────────────────────────────────────────────────────

  /** The set of ids carried by `items`. */
  function IdsOf(items: seq<Item>): set<string>
  {
    set x | x in items :: x.id
  }

  /** The id-to-item dictionary that `buildItemsMap` fills: a later item with the
      same id overwrites an earlier one. */
  function ItemsById(items: seq<Item>): (m: map<string, Item>)
    ensures m.Keys == IdsOf(items)
    ensures forall k :: k in m ==> m[k].id == k && m[k] in items
  {
    if items == [] then map[]
    else
      var init := items[..|items| - 1];
      var last := items[|items| - 1];
      assert items == init + [last];
      assert IdsOf(items) == IdsOf(init) + {last.id};
      ItemsById(init)[last.id := last]
  }

  /** Each item is found under its id unless a later item has the same id: the last
      occurrence wins. */
  lemma {:induction false} ItemsByIdLastWins(items: seq<Item>, i: nat)
    requires i < |items|
    requires forall j :: i < j < |items| ==> items[j].id != items[i].id
    ensures items[i].id in ItemsById(items) && ItemsById(items)[items[i].id] == items[i]
  {
    if i < |items| - 1 {
      ItemsByIdLastWins(items[..|items| - 1], i);
    }
  }

  method BuildItemsMap(items: seq<Item>) returns (m: map<string, Item>)
    ensures m == ItemsById(items)
  {
    m := map[];
    for i := 0 to |items|
      invariant m == ItemsById(items[..i])
    {
      assert items[..i + 1][..i] == items[..i];
      m := m[items[i].id := items[i]];
    }
    assert items[..|items|] == items;
  }

  // ─── Cart total ─────────────────────────────────────────────────────────────

  /** What one cart entry adds to the total: price times quantity when the id is
      a known item and the quantity is positive, nothing otherwise. */
  function LineAmount(line: LineItem, itemsMap: map<string, Item>): Cents
  {
    if line.itemId in itemsMap && line.quantity > 0 then itemsMap[line.itemId].price * line.quantity else 0
  }

  function CartTotal(cart: seq<LineItem>, itemsMap: map<string, Item>): (r: Cents)
    ensures (forall i :: 0 <= i < |cart| ==> LineAmount(cart[i], itemsMap) >= 0) ==> r >= 0
  {
    if cart == [] then 0
    else CartTotal(cart[..|cart| - 1], itemsMap) + LineAmount(cart[|cart| - 1], itemsMap)
  }

  /** The total of a cart split in two is the sum of the parts' totals. */
  lemma {:induction false} CartTotalConcat(a: seq<LineItem>, b: seq<LineItem>, itemsMap: map<string, Item>)
    ensures CartTotal(a + b, itemsMap) == CartTotal(a, itemsMap) + CartTotal(b, itemsMap)
    decreases |b|
  {
    if b == [] {
      assert a + b == a;
    } else {
      var init := b[..|b| - 1];
      assert (a + b)[..|a + b| - 1] == a + init;
      CartTotalConcat(a, init, itemsMap);
    }
  }

  /** Taking one entry out of a cart takes its amount off the total. */
  lemma CartTotalPick(cart: seq<LineItem>, k: nat, itemsMap: map<string, Item>)
    requires k < |cart|
    ensures CartTotal(cart, itemsMap) == CartTotal(cart[..k] + cart[k + 1..], itemsMap) + LineAmount(cart[k], itemsMap)
  {
    var before, after := cart[..k], cart[k + 1..];
    assert cart == before + [cart[k]] + after;
    assert [cart[k]][..0] == [];
    CartTotalConcat(before + [cart[k]], after, itemsMap);
    CartTotalConcat(before, [cart[k]], itemsMap);
    CartTotalConcat(before, after, itemsMap);
  }

  lemma PickMultiset<T>(s: seq<T>, k: nat)
    requires k < |s|
    ensures multiset(s[..k] + s[k + 1..]) == multiset(s) - multiset{s[k]}
  {
    assert s == s[..k] + [s[k]] + s[k + 1..];
  }

  /** The total does not depend on the order of the entries: two carts holding the
      same entries, in any order, have the same total. */
  lemma {:induction false} CartTotalOrderFree(a: seq<LineItem>, b: seq<LineItem>, itemsMap: map<string, Item>)
    requires multiset(a) == multiset(b)
    ensures CartTotal(a, itemsMap) == CartTotal(b, itemsMap)
    decreases |a|
  {
    if a == [] {
      assert |b| == |multiset(b)| == 0;
    } else {
      var last := |a| - 1;
      var x := a[last];
      assert a[..last] + a[last + 1..] == a[..last];
      PickMultiset(a, last);
      assert x in multiset(a);
      assert x in b;
      var k :| 0 <= k < |b| && b[k] == x;
      var rest := b[..k] + b[k + 1..];
      PickMultiset(b, k);
      assert multiset(a[..last]) == multiset(rest);
      CartTotalOrderFree(a[..last], rest, itemsMap);
      CartTotalPick(b, k, itemsMap);
      assert CartTotal(a, itemsMap) == CartTotal(a[..last], itemsMap) + LineAmount(x, itemsMap);
    }
  }

  /** Entries for unknown ids or with a quantity of 0 or less add nothing, so an
      empty cart, or one holding only such entries, totals 0. */
  lemma {:induction false} CartTotalOfUncounted(cart: seq<LineItem>, itemsMap: map<string, Item>)
    requires forall i :: 0 <= i < |cart| ==> cart[i].itemId !in itemsMap || cart[i].quantity <= 0
    ensures CartTotal(cart, itemsMap) == 0
  {
    if cart != [] {
      CartTotalOfUncounted(cart[..|cart| - 1], itemsMap);
    }
  }

  /** A deposit-return line (negative price, positive quantity) lowers the total. */
  lemma DepositLowersTotal(cart: seq<LineItem>, deposit: LineItem, itemsMap: map<string, Item>)
    requires deposit.itemId in itemsMap && itemsMap[deposit.itemId].price < 0 && deposit.quantity > 0
    ensures CartTotal(cart + [deposit], itemsMap) < CartTotal(cart, itemsMap)
  {
    CartTotalConcat(cart, [deposit], itemsMap);
    assert CartTotal([deposit], itemsMap) == CartTotal([], itemsMap) + LineAmount(deposit, itemsMap);
  }

  method CalculateTotal(cart: seq<LineItem>, itemsMap: map<string, Item>) returns (total: Cents)
    ensures total == CartTotal(cart, itemsMap)
  {
    total := 0;
    for i := 0 to |cart|
      invariant total == CartTotal(cart[..i], itemsMap)
    {
      assert cart[..i + 1][..i] == cart[..i];
      var line := cart[i];
      if line.itemId in itemsMap && line.quantity > 0 {
        total := total + itemsMap[line.itemId].price * line.quantity;
      }
    }
    assert cart[..|cart|] == cart;
  }

  // ─── Event totals ───────────────────────────────────────────────────────────

  function Revenue(txs: seq<Transaction>): Cents
  {
    if txs == [] then 0 else Revenue(txs[..|txs| - 1]) + txs[|txs| - 1].total
  }

  /** A transaction's tip, a missing one counting as 0. */
  function TipOf(tx: Transaction): Cents
  {
    match tx.tip
    case Some(t) => t
    case None => 0
  }

  function Tips(txs: seq<Transaction>): Cents
  {
    if txs == [] then 0 else Tips(txs[..|txs| - 1]) + TipOf(txs[|txs| - 1])
  }

  /** The tip sum as the source computes it: `totalTip += tx.tip` with an
      `undefined` tip makes the sum `NaN` (here `None`) for good. */
  function TipsAsWritten(txs: seq<Transaction>): (r: Option<Cents>)
    ensures r.Some? ==> r.value == Tips(txs)
  {
    if txs == [] then Some(0)
    else
      match (TipsAsWritten(txs[..|txs| - 1]), txs[|txs| - 1].tip)
      case (Some(s), Some(t)) => Some(s + t)
      case _ => None
  }

  /** One transaction without a tip, as the public cashier records them, turns the
      event's tip sum into `NaN`. */
  lemma {:induction false} MissingTipPoisonsTipSum(txs: seq<Transaction>, i: nat)
    requires i < |txs| && txs[i].tip.None?
    ensures TipsAsWritten(txs).None?
  {
    if i < |txs| - 1 {
      MissingTipPoisonsTipSum(txs[..|txs| - 1], i);
    }
  }

  /** Where every transaction has a tip, the corrected sum is the source's sum. */
  lemma {:induction false} TipsAgreeWhenAllPresent(txs: seq<Transaction>)
    requires forall i :: 0 <= i < |txs| ==> txs[i].tip.Some?
    ensures TipsAsWritten(txs) == Some(Tips(txs))
  {
    if txs != [] {
      TipsAgreeWhenAllPresent(txs[..|txs| - 1]);
    }
  }

  /** Revenue over a split history is the sum of the parts' revenues. */
  lemma {:induction false} RevenueConcat(a: seq<Transaction>, b: seq<Transaction>)
    ensures Revenue(a + b) == Revenue(a) + Revenue(b)
    ensures Tips(a + b) == Tips(a) + Tips(b)
    decreases |b|
  {
    if b == [] {
      assert a + b == a;
    } else {
      assert (a + b)[..|a + b| - 1] == a + b[..|b| - 1];
      RevenueConcat(a, b[..|b| - 1]);
    }
  }

  /** Revenue, tip and count of an event's transactions (the tip sum with a
      missing tip counted as 0, see `TipsAsWritten`). */
  method CalculateEventTotals(e: Event) returns (totals: EventTotals)
    ensures totals == EventTotals(Revenue(e.transactions), Tips(e.transactions), |e.transactions|)
  {
    var totalRevenue, totalTip := 0, 0;
    var txs := e.transactions;
    for i := 0 to |txs|
      invariant totalRevenue == Revenue(txs[..i]) && totalTip == Tips(txs[..i])
    {
      assert txs[..i + 1][..i] == txs[..i];
      totalRevenue := totalRevenue + txs[i].total;
      totalTip := totalTip + TipOf(txs[i]);
    }
    assert txs[..|txs|] == txs;
    totals := EventTotals(totalRevenue, totalTip, |txs|);
  }

  // ─── Items sold ─────────────────────────────────────────────────────────────

  /** All transaction lines of a history, in order. */
  function AllLines(txs: seq<Transaction>): seq<LineItem>
  {
    if txs == [] then [] else AllLines(txs[..|txs| - 1]) + txs[|txs| - 1].items
  }

  /** Sum of the quantities of the lines for `id`. */
  function QuantityOf(lines: seq<LineItem>, id: string): int
  {
    if lines == [] then 0
    else QuantityOf(lines[..|lines| - 1], id)
         + (if lines[|lines| - 1].itemId == id then lines[|lines| - 1].quantity else 0)
  }

  /** Whether some line refers to `id`. */
  predicate Mentions(lines: seq<LineItem>, id: string)
  {
    exists i :: 0 <= i < |lines| && lines[i].itemId == id
  }

  /** One step of the `sold` accumulation: a line for an unknown (stale) item is
      skipped; otherwise its quantity and its value at the item's current price are
      added to the item's row, which is created on first use. */
  function SoldStep(sold: map<string, Sold>, line: LineItem, itemsMap: map<string, Item>): map<string, Sold>
  {
    if line.itemId !in itemsMap then sold
    else
      var item := itemsMap[line.itemId];
      var row := if line.itemId in sold then sold[line.itemId] else Sold(item.name, 0, 0);
      sold[line.itemId := Sold(row.name, row.quantity + line.quantity, row.revenue + item.price * line.quantity)]
  }

  function SoldOf(lines: seq<LineItem>, itemsMap: map<string, Item>): map<string, Sold>
  {
    if lines == [] then map[] else SoldStep(SoldOf(lines[..|lines| - 1], itemsMap), lines[|lines| - 1], itemsMap)
  }

  /** The per-item statistics: a row exactly for the known items that some line
      mentions (stale ids are dropped), holding the item's current name, the summed
      quantity, and that quantity valued at the item's current price. */
  lemma {:induction false} SoldOfSpec(lines: seq<LineItem>, itemsMap: map<string, Item>, id: string)
    ensures id in SoldOf(lines, itemsMap) <==> id in itemsMap && Mentions(lines, id)
    ensures id in SoldOf(lines, itemsMap) ==>
      SoldOf(lines, itemsMap)[id] == Sold(itemsMap[id].name, QuantityOf(lines, id), itemsMap[id].price * QuantityOf(lines, id))
  {
    if lines != [] {
      var init := lines[..|lines| - 1];
      var last := lines[|lines| - 1];
      SoldOfSpec(init, itemsMap, id);
      assert Mentions(lines, id) <==> Mentions(init, id) || last.itemId == id by {
        if Mentions(init, id) {
          var i :| 0 <= i < |init| && init[i].itemId == id;
          assert lines[i] == init[i];
        }
        if Mentions(lines, id) && last.itemId != id {
          var i :| 0 <= i < |lines| && lines[i].itemId == id;
          assert init[i] == lines[i];
        }
      }
      if id in itemsMap && last.itemId == id {
        var p := itemsMap[id].price;
        var q := QuantityOf(init, id);
        assert p * q + p * last.quantity == p * (q + last.quantity);
        if !Mentions(init, id) {
          QuantityOfUnmentioned(init, id);
        }
      }
    }
  }

  lemma {:induction false} QuantityOfUnmentioned(lines: seq<LineItem>, id: string)
    requires !Mentions(lines, id)
    ensures QuantityOf(lines, id) == 0
  {
    if lines != [] {
      var init := lines[..|lines| - 1];
      QuantityOfUnmentioned(init, id);
    }
  }

  /** The inner loop of `calculateItemsSold`: folds one transaction's lines into
      the rows built so far. */
  method AccumulateSold(sold0: map<string, Sold>, ghost done: seq<LineItem>, lines: seq<LineItem>,
                        itemsMap: map<string, Item>) returns (sold: map<string, Sold>)
    requires sold0 == SoldOf(done, itemsMap)
    ensures sold == SoldOf(done + lines, itemsMap)
  {
    sold := sold0;
    assert done + lines[..0] == done;
    for j := 0 to |lines|
      invariant sold == SoldOf(done + lines[..j], itemsMap)
    {
      assert (done + lines[..j + 1])[..|done| + j] == done + lines[..j];
      ghost var before := sold;
      var line := lines[j];
      if line.itemId in itemsMap {
        var item := itemsMap[line.itemId];
        if line.itemId !in sold {
          sold := sold[line.itemId := Sold(item.name, 0, 0)];
        }
        var row := sold[line.itemId];
        sold := sold[line.itemId := Sold(row.name, row.quantity + line.quantity, row.revenue + item.price * line.quantity)];
      }
      assert sold == SoldStep(before, line, itemsMap);
    }
    assert lines[..|lines|] == lines;
  }

  /** `calculateItemsSold`: walks every line of every transaction in order. */
  method CalculateItemsSold(e: Event) returns (sold: map<string, Sold>)
    ensures sold == SoldOf(AllLines(e.transactions), ItemsById(e.items))
  {
    sold := map[];
    var itemsMap := BuildItemsMap(e.items);
    var txs := e.transactions;
    for i := 0 to |txs|
      invariant sold == SoldOf(AllLines(txs[..i]), itemsMap)
    {
      assert txs[..i + 1][..i] == txs[..i];
      sold := AccumulateSold(sold, AllLines(txs[..i]), txs[i].items, itemsMap);
    }
    assert txs[..|txs|] == txs;
  }
}
