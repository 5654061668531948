/** The cashier screen of app.js: a cart of tapped items, the received and tip
    inputs, the transaction bar, and "next transaction", which records the sale on
    the active event. The page's DOM inputs are fields of the register; the
    clock is a parameter. */
module CashierRoot {
  import opened Wrappers
  import opened Models
  import Store
  import Cart

  /** Minimum gap, in ms, between two accepted clicks on the same tile. */
  const DebounceMs := 300

  /** What the transaction bar shows. */
  datatype Bar = Bar(total: Cents, received: Cents, change: Cents, tip: Cents)

  /** Change and tip of a sale. */
  datatype Settlement = Settlement(change: Cents, tip: Cents)

  /** What pressing "next transaction" did. */
  datatype Outcome = NoActiveEvent | EmptyCart | Recorded(tx: Transaction)

  /** The bar for a cart on an event: the automatic change and tip. */
  function BarFor(e: Event, cart: seq<LineItem>, receivedInput: Field): (b: Bar)
    ensures b.total == CartTotal(cart, ItemsById(e.items))
    ensures b.received == Cart.SafeReceived(receivedInput)
    ensures b.tip == 0
    ensures b.received >= b.total ==> b.total + b.change == b.received
    ensures b.received < b.total ==> b.change == 0
  {
    var total := CartTotal(cart, ItemsById(e.items));
    var received := Cart.SafeReceived(receivedInput);
    var change := CalculateChange(total, received);
    AutoTipIsZero(total, received);
    Bar(total, received, change, CalculateTip(total, received, change))
  }

  /** The change the tip input shows while a tip is typed: what is left of the
      payment after total and tip, never negative; a negative or unreadable tip
      counts as 0. */
  function TypedTipChange(total: Cents, received: Cents, tipInput: Field): (change: Cents)
    ensures change >= 0
    ensures change > 0 ==> total + Cart.Max0(FieldValue(tipInput)) + change == received
  {
    Cart.Max0(received - total - Cart.Max0(FieldValue(tipInput)))
  }

  /** Change and tip recorded for a sale: any non-empty tip input is taken as the
      tip, floored at 0, and the change is what remains; an empty tip input leaves
      both to calculateChange and calculateTip. */
  function Settle(total: Cents, received: Cents, tipInput: Field): (r: Settlement)
    ensures r.change >= 0 && r.tip >= 0
    ensures tipInput.Blank? ==> r.tip == 0
    ensures r.change > 0 ==> total + r.change + r.tip == received
  {
    if tipInput.Filled? then
      Settlement(TypedTipChange(total, received, tipInput), Cart.Max0(FieldValue(tipInput)))
    else
      var change := CalculateChange(total, received);
      AutoTipIsZero(total, received);
      Settlement(change, CalculateTip(total, received, change))
  }

  /** For a non-negative payment: change and tip are never negative, an empty tip
      input means no tip, and the change is the payment less total and tip, so the
      money balances exactly when the payment covers both. */
  lemma SettleSpec(total: Cents, received: Cents, tipInput: Field)
    requires received >= 0
    ensures var s := Settle(total, received, tipInput);
      && s.change >= 0 && s.tip >= 0
      && (tipInput.Blank? ==> s.tip == 0)
      && (tipInput.Filled? ==> s.tip == Cart.Max0(FieldValue(tipInput)))
      && s.change == Cart.Max0(received - total - s.tip)
      && (total + s.change + s.tip == received <==> received >= total + s.tip)
  {
    AutoTipIsZero(total, received);
  }

  /** Typing a tip of 0, a negative tip or something unreadable records what an
      empty tip input would. */
  lemma NoTipIsAutomatic(total: Cents, received: Cents, tipInput: Field)
    requires received >= 0 && tipInput.Filled? && FieldValue(tipInput) <= 0
    ensures Settle(total, received, tipInput) == Settle(total, received, Blank)
  {
    AutoTipIsZero(total, received);
  }

  /** The change shown while typing a tip is the change then recorded, whether the
      tip input is empty or not. */
  lemma ShownChangeIsRecorded(total: Cents, received: Cents, tipInput: Field)
    requires received >= 0
    ensures TypedTipChange(total, received, tipInput) == Settle(total, received, tipInput).change
  {
  }

  /** The transaction "next transaction" records for a cart on an event: the cart's
      entries, its total, the received amount and the settled change and tip. */
  function SaleFor(e: Event, cart: seq<LineItem>, receivedInput: Field, tipInput: Field,
                   timestamp: string): (tx: Transaction)
    ensures tx.timestamp == timestamp && tx.items == cart
    ensures tx.total == CartTotal(cart, ItemsById(e.items))
    ensures tx.received == Cart.SafeReceived(receivedInput)
    ensures tx.tip.Some?
    ensures Settlement(tx.change, tx.tip.value) == Settle(tx.total, tx.received, tipInput)
  {
    var total := CartTotal(cart, ItemsById(e.items));
    var received := Cart.SafeReceived(receivedInput);
    var settled := Settle(total, received, tipInput);
    Transaction(timestamp, cart, total, received, settled.change, Some(settled.tip))
  }

  /** The computation of "next transaction" once the guards have passed. */
  method RecordSale(e: Event, cart: seq<LineItem>, receivedInput: Field, tipInput: Field,
                    timestamp: string) returns (tx: Transaction)
    requires Cart.Valid(cart)
    ensures tx == SaleFor(e, cart, receivedInput, tipInput, timestamp)
  {
    var itemsMap := BuildItemsMap(e.items);
    var total := CalculateTotal(cart, itemsMap);
    var safeReceived := Cart.SafeReceived(receivedInput);
    var settled;
    if tipInput.Filled? {
      var tip := Cart.Max0(FieldValue(tipInput));
      settled := Settlement(Cart.Max0(safeReceived - total - tip), tip);
    } else {
      var change := CalculateChange(total, safeReceived);
      settled := Settlement(change, CalculateTip(total, safeReceived, change));
    }
    assert settled == Settle(total, safeReceived, tipInput);
    var txItems := Cart.CollectLineItems(cart);
    Cart.ValidCartLines(cart);
    tx := CreateTransaction(timestamp, txItems, total, safeReceived, settled.change, Some(settled.tip));
  }

  /** The cashier screen's state. */
  class Register {
    var state: Store.State
    var cart: seq<LineItem>
    var tileLastClick: map<string, int>
    var receivedInput: Field
    var tipInput: Field

    /** The cart keeps distinct keys and positive quantities. */
    ghost predicate Valid()
      reads this
    {
      Cart.Valid(cart)
    }

    /** `init` with the loaded state: an empty cart, no clicks yet, empty inputs. */
    constructor (loaded: Store.State)
      ensures Valid()
      ensures state == loaded && cart == [] && tileLastClick == map[]
      ensures receivedInput == Blank && tipInput == Blank
    {
      state := loaded;
      cart := [];
      tileLastClick := map[];
      receivedInput := Blank;
      tipInput := Blank;
    }

    /** `updateTransactionBar`: nothing without an active event. */
    method TransactionBar() returns (bar: Option<Bar>)
      ensures Store.GetActiveEvent(state).None? ==> bar.None?
      ensures Store.GetActiveEvent(state).Some? ==>
        bar == Some(BarFor(Store.GetActiveEvent(state).value, cart, receivedInput))
    {
      var active := Store.GetActiveEvent(state);
      if active.None? {
        return None;
      }
      var itemsMap := BuildItemsMap(active.value.items);
      var total := CalculateTotal(cart, itemsMap);
      var safeReceived := Cart.SafeReceived(receivedInput);
      var change := CalculateChange(total, safeReceived);
      var tip := CalculateTip(total, safeReceived, change);
      bar := Some(Bar(total, safeReceived, change, tip));
    }

    /** A click on a tile (or on its quantity badge, `onBadge`) at time `now`: ignored
        within the debounce window, otherwise recorded and applied to the cart. */
    method TileClick(id: string, now: int, onBadge: bool) returns (accepted: bool)
      requires Valid()
      modifies this
      ensures Valid()
      ensures accepted == !Cart.Bounced(old(tileLastClick), id, now, DebounceMs)
      ensures !accepted ==> cart == old(cart) && tileLastClick == old(tileLastClick)
      ensures accepted ==> tileLastClick == old(tileLastClick)[id := now]
      ensures accepted && onBadge ==> cart == Cart.DecrementedOrRemoved(old(cart), id)
      ensures accepted && !onBadge ==> cart == Cart.Incremented(old(cart), id)
      ensures state == old(state) && receivedInput == old(receivedInput) && tipInput == old(tipInput)
    {
      if Cart.Bounced(tileLastClick, id, now, DebounceMs) {
        return false;
      }
      accepted := true;
      tileLastClick := tileLastClick[id := now];
      if onBadge {
        cart := Cart.DecrementedOrRemoved(cart, id);
      } else {
        cart := Cart.Incremented(cart, id);
      }
    }

    /** "Cancel": empties the cart and both inputs. */
    method Cancel()
      modifies this
      ensures Valid()
      ensures cart == [] && receivedInput == Blank && tipInput == Blank
      ensures state == old(state) && tileLastClick == old(tileLastClick)
    {
      cart := [];
      receivedInput := Blank;
      tipInput := Blank;
    }

    /** Typing into the received input; the bar then shows the new amounts. */
    method EnterReceived(value: Field) returns (bar: Option<Bar>)
      modifies this
      ensures receivedInput == value
      ensures state == old(state) && cart == old(cart) && tipInput == old(tipInput)
      ensures tileLastClick == old(tileLastClick)
      ensures Store.GetActiveEvent(state).None? ==> bar.None?
      ensures Store.GetActiveEvent(state).Some? ==>
        bar == Some(BarFor(Store.GetActiveEvent(state).value, cart, value))
    {
      receivedInput := value;
      bar := TransactionBar();
    }

    /** Typing into the tip input; the change field then shows what is left after
        total and typed tip (nothing without an active event). */
    method EnterTip(value: Field) returns (shown: Option<Cents>)
      modifies this
      ensures tipInput == value
      ensures state == old(state) && cart == old(cart) && receivedInput == old(receivedInput)
      ensures tileLastClick == old(tileLastClick)
      ensures Store.GetActiveEvent(state).None? ==> shown.None?
      ensures Store.GetActiveEvent(state).Some? ==>
        var e := Store.GetActiveEvent(state).value;
        shown == Some(TypedTipChange(CartTotal(cart, ItemsById(e.items)), Cart.SafeReceived(receivedInput), value))
    {
      tipInput := value;
      var active := Store.GetActiveEvent(state);
      if active.None? {
        return None;
      }
      var itemsMap := BuildItemsMap(active.value.items);
      var total := CalculateTotal(cart, itemsMap);
      var safeReceived := Cart.SafeReceived(receivedInput);
      var safeTip := Cart.Max0(FieldValue(tipInput));
      shown := Some(Cart.Max0(safeReceived - total - safeTip));
    }

    /** "Next transaction" at `timestamp`: without an active event or with an empty
        cart nothing happens; otherwise the cart's entries, its total, the received
        amount and the settled change and tip are recorded on the active event, and
        the cart and both inputs are emptied. */
    method NextTransaction(timestamp: string) returns (outcome: Outcome)
      requires Valid()
      modifies this
      ensures Valid()
      ensures Store.GetActiveEvent(old(state)).None? ==>
        outcome == NoActiveEvent && unchanged(this)
      ensures Store.GetActiveEvent(old(state)).Some? && old(cart) == [] ==>
        outcome == EmptyCart && unchanged(this)
      ensures Store.GetActiveEvent(old(state)).Some? && old(cart) != [] ==>
        var e := Store.GetActiveEvent(old(state)).value;
        && outcome == Recorded(SaleFor(e, old(cart), old(receivedInput), old(tipInput), timestamp))
        && state == Store.AddTransaction(old(state), e.id, outcome.tx)
        && cart == [] && receivedInput == Blank && tipInput == Blank
        && tileLastClick == old(tileLastClick)
    {
      var active := Store.GetActiveEvent(state);
      if active.None? {
        return NoActiveEvent;
      }
      Cart.ValidCartLines(cart);
      if !Cart.HasItems(cart) {
        return EmptyCart;
      }
      var tx := Record(active.value, timestamp);
      outcome := Recorded(tx);
    }

    /** Records the sale on event `e` and empties the cart and both inputs. */
    method Record(e: Event, timestamp: string) returns (tx: Transaction)
      requires Valid()
      modifies this
      ensures Valid()
      ensures tx == SaleFor(e, old(cart), old(receivedInput), old(tipInput), timestamp)
      ensures state == Store.AddTransaction(old(state), e.id, tx)
      ensures cart == [] && receivedInput == Blank && tipInput == Blank
      ensures tileLastClick == old(tileLastClick)
    {
      tx := RecordSale(e, cart, receivedInput, tipInput, timestamp);
      state := Store.AddTransaction(state, e.id, tx);
      cart := [];
      receivedInput := Blank;
      tipInput := Blank;
    }
  }
}
