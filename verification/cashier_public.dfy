/** The cashier screen of public/js/app.js: the same cart and received input as
    app.js, but no tip input; the bar shows a signed change, and "next
    transaction" records a sale without a tip. */
module CashierPublic {
  import opened Wrappers
  import opened Models
  import Store
  import Cart

  /** Minimum gap, in ms, between two accepted clicks on the same tile. */
  const DebounceMs := 150

  /** What the transaction bar shows; `change` may be negative. */
  datatype Bar = Bar(total: Cents, received: Cents, change: Cents)

  /** What pressing "next transaction" did. */
  datatype Outcome = NoActiveEvent | EmptyCart | Recorded(tx: Transaction)

  /** `safeReceived > 0 ? safeReceived - total : 0`. */
  function DisplayChange(total: Cents, received: Cents): (c: Cents)
    ensures c < 0 <==> 0 < received < total
    ensures received <= 0 ==> c == 0
    ensures c != 0 ==> total + c == received
  {
    if received > 0 then received - total else 0
  }

  /** For a non-negative amount received: the bar shows a negative change exactly
      when something, but not enough, has been received; nothing received shows 0
      (even where a negative total would give change back); a sufficient, non-zero
      payment shows the change that is then recorded. */
  lemma DisplayChangeSpec(total: Cents, received: Cents)
    requires received >= 0
    ensures DisplayChange(total, received) < 0 <==> 0 < received < total
    ensures received == 0 ==> DisplayChange(total, received) == 0
    ensures received > 0 && received >= total ==> DisplayChange(total, received) == CalculateChange(total, received)
  {
  }

  /** The bar for a cart on an event. */
  function BarFor(e: Event, cart: seq<LineItem>, receivedInput: Field): (b: Bar)
    ensures b.total == CartTotal(cart, ItemsById(e.items))
    ensures b.received == Cart.SafeReceived(receivedInput)
    ensures b.change == DisplayChange(b.total, b.received)
  {
    var total := CartTotal(cart, ItemsById(e.items));
    var received := Cart.SafeReceived(receivedInput);
    Bar(total, received, DisplayChange(total, received))
  }

  /** The transaction "next transaction" records for a cart on an event: the cart's
      entries, its total, the received amount, the change, and no tip. */
  function SaleFor(e: Event, cart: seq<LineItem>, receivedInput: Field, timestamp: string): (tx: Transaction)
    ensures tx.timestamp == timestamp && tx.items == cart
    ensures tx.total == CartTotal(cart, ItemsById(e.items))
    ensures tx.received == Cart.SafeReceived(receivedInput)
    ensures tx.change >= 0
    ensures tx.received >= tx.total ==> tx.total + tx.change == tx.received
    ensures tx.received < tx.total ==> tx.change == 0
    ensures tx.tip.None?
  {
    var total := CartTotal(cart, ItemsById(e.items));
    var received := Cart.SafeReceived(receivedInput);
    Transaction(timestamp, cart, total, received, CalculateChange(total, received), None)
  }

  /** Once this screen has recorded a sale on an event, the tip sum of that event,
      as calculateEventTotals adds it up, is no longer a number. */
  lemma SaleSpoilsTipSum(e: Event, cart: seq<LineItem>, receivedInput: Field, timestamp: string,
                         before: seq<Transaction>, after: seq<Transaction>)
    ensures TipsAsWritten(before + [SaleFor(e, cart, receivedInput, timestamp)] + after).None?
  {
    var txs := before + [SaleFor(e, cart, receivedInput, timestamp)] + after;
    assert txs[|before|] == SaleFor(e, cart, receivedInput, timestamp);
    MissingTipPoisonsTipSum(txs, |before|);
  }

  /** The computation of "next transaction" once the guards have passed. */
  method RecordSale(e: Event, cart: seq<LineItem>, receivedInput: Field, timestamp: string)
    returns (tx: Transaction)
    requires Cart.Valid(cart)
    ensures tx == SaleFor(e, cart, receivedInput, timestamp)
  {
    var itemsMap := BuildItemsMap(e.items);
    var total := CalculateTotal(cart, itemsMap);
    var safeReceived := Cart.SafeReceived(receivedInput);
    var change := CalculateChange(total, safeReceived);
    var txItems := Cart.CollectLineItems(cart);
    Cart.ValidCartLines(cart);
    tx := CreateTransaction(timestamp, txItems, total, safeReceived, change, None);
  }

  /** The cashier screen's state. */
  class Register {
    var state: Store.State
    var cart: seq<LineItem>
    var tileLastClick: map<string, int>
    var receivedInput: Field

    /** The cart keeps distinct keys and positive quantities. */
    ghost predicate Valid()
      reads this
    {
      Cart.Valid(cart)
    }

    /** `init` with the loaded state: an empty cart, no clicks yet, an empty input. */
    constructor (loaded: Store.State)
      ensures Valid()
      ensures state == loaded && cart == [] && tileLastClick == map[] && receivedInput == Blank
    {
      state := loaded;
      cart := [];
      tileLastClick := map[];
      receivedInput := Blank;
    }

    /** `updateTransactionBar`: nothing without an active event. */
    method TransactionBar() returns (bar: Option<Bar>)
      ensures Store.GetActiveEvent(state).None? ==> bar.None?
      ensures Store.GetActiveEvent(state).Some? ==>
        bar == Some(BarFor(Store.GetActiveEvent(state).value, cart, receivedInput))
    {
      var active := Store.GetActiveEvent(state);
      if active.None? {
        return None;
      }
      var itemsMap := BuildItemsMap(active.value.items);
      var total := CalculateTotal(cart, itemsMap);
      var safeReceived := Cart.SafeReceived(receivedInput);
      var displayChange := if safeReceived > 0 then safeReceived - total else 0;
      bar := Some(Bar(total, safeReceived, displayChange));
    }

    /** A click on a tile (or on its quantity badge, `onBadge`) at time `now`: ignored
        within the debounce window, otherwise recorded and applied to the cart. */
    method TileClick(id: string, now: int, onBadge: bool) returns (accepted: bool)
      requires Valid()
      modifies this
      ensures Valid()
      ensures accepted == !Cart.Bounced(old(tileLastClick), id, now, DebounceMs)
      ensures !accepted ==> cart == old(cart) && tileLastClick == old(tileLastClick)
      ensures accepted ==> tileLastClick == old(tileLastClick)[id := now]
      ensures accepted && onBadge ==> cart == Cart.DecrementedOrRemoved(old(cart), id)
      ensures accepted && !onBadge ==> cart == Cart.Incremented(old(cart), id)
      ensures state == old(state) && receivedInput == old(receivedInput)
    {
      if Cart.Bounced(tileLastClick, id, now, DebounceMs) {
        return false;
      }
      accepted := true;
      tileLastClick := tileLastClick[id := now];
      if onBadge {
        cart := Cart.DecrementedOrRemoved(cart, id);
      } else {
        cart := Cart.Incremented(cart, id);
      }
    }

    /** "Cancel": empties the cart and the received input. */
    method Cancel()
      modifies this
      ensures Valid()
      ensures cart == [] && receivedInput == Blank
      ensures state == old(state) && tileLastClick == old(tileLastClick)
    {
      cart := [];
      receivedInput := Blank;
    }

    /** Typing into the received input; the bar then shows the new amounts. */
    method EnterReceived(value: Field) returns (bar: Option<Bar>)
      modifies this
      ensures receivedInput == value
      ensures state == old(state) && cart == old(cart) && tileLastClick == old(tileLastClick)
      ensures Store.GetActiveEvent(state).None? ==> bar.None?
      ensures Store.GetActiveEvent(state).Some? ==>
        bar == Some(BarFor(Store.GetActiveEvent(state).value, cart, value))
    {
      receivedInput := value;
      bar := TransactionBar();
    }

    /** "Next transaction" at `timestamp`: without an active event or with an empty
        cart nothing happens; otherwise the sale is recorded on the active event
        and the cart and the received input are emptied. */
    method NextTransaction(timestamp: string) returns (outcome: Outcome)
      requires Valid()
      modifies this
      ensures Valid()
      ensures Store.GetActiveEvent(old(state)).None? ==>
        outcome == NoActiveEvent && unchanged(this)
      ensures Store.GetActiveEvent(old(state)).Some? && old(cart) == [] ==>
        outcome == EmptyCart && unchanged(this)
      ensures Store.GetActiveEvent(old(state)).Some? && old(cart) != [] ==>
        var e := Store.GetActiveEvent(old(state)).value;
        && outcome == Recorded(SaleFor(e, old(cart), old(receivedInput), timestamp))
        && state == Store.AddTransaction(old(state), e.id, outcome.tx)
        && cart == [] && receivedInput == Blank
        && tileLastClick == old(tileLastClick)
    {
      var active := Store.GetActiveEvent(state);
      if active.None? {
        return NoActiveEvent;
      }
      Cart.ValidCartLines(cart);
      if !Cart.HasItems(cart) {
        return EmptyCart;
      }
      var tx := Record(active.value, timestamp);
      outcome := Recorded(tx);
    }

    /** Records the sale on event `e` and empties the cart and the received input. */
    method Record(e: Event, timestamp: string) returns (tx: Transaction)
      requires Valid()
      modifies this
      ensures Valid()
      ensures tx == SaleFor(e, old(cart), old(receivedInput), timestamp)
      ensures state == Store.AddTransaction(old(state), e.id, tx)
      ensures cart == [] && receivedInput == Blank && tileLastClick == old(tileLastClick)
    {
      tx := RecordSale(e, cart, receivedInput, timestamp);
      state := Store.AddTransaction(state, e.id, tx);
      cart := [];
      receivedInput := Blank;
    }
  }
}
