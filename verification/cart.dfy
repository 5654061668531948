/** The cart both cashier screens keep (app.js, public/js/app.js): a JavaScript
    object `{itemId: quantity}`, here the list of its entries in the order the
    object enumerates them (insertion order; a deleted key that comes back goes
    to the end). Both screens also share the per-tile click debounce and the
    loop that turns the cart into transaction lines. */
module Cart {
  import opened Models

  /** No key occurs twice, as in any object. */
  predicate DistinctKeys(cart: seq<LineItem>)
  {
    forall i, j :: 0 <= i < j < |cart| ==> cart[i].itemId != cart[j].itemId
  }

  /** A cart as the screens keep it: distinct keys, every quantity positive. */
  predicate Valid(cart: seq<LineItem>)
  {
    DistinctKeys(cart) && forall i :: 0 <= i < |cart| ==> cart[i].quantity > 0
  }

  /** Position of the entry for `id`, or -1. */
  function KeyIndex(cart: seq<LineItem>, id: string): (k: int)
    ensures -1 <= k < |cart|
    ensures k >= 0 ==> cart[k].itemId == id && forall j :: 0 <= j < k ==> cart[j].itemId != id
    ensures k < 0 ==> forall j :: 0 <= j < |cart| ==> cart[j].itemId != id
  {
    if cart == [] then -1
    else if cart[0].itemId == id then 0
    else
      var k := KeyIndex(cart[1..], id);
      if k < 0 then -1 else k + 1
  }

  /** `cart[id] || 0`. */
  function Quantity(cart: seq<LineItem>, id: string): int
  {
    var k := KeyIndex(cart, id);
    if k >= 0 then cart[k].quantity else 0
  }

  /** Two carts with the same keys in the same places find every key in the same place. */
  lemma {:induction false} SameKeysSameIndex(a: seq<LineItem>, b: seq<LineItem>, id: string)
    requires |a| == |b| && forall i :: 0 <= i < |a| ==> a[i].itemId == b[i].itemId
    ensures KeyIndex(a, id) == KeyIndex(b, id)
  {
    if a != [] && a[0].itemId != id {
      SameKeysSameIndex(a[1..], b[1..], id);
    }
  }

  /** Appending an entry leaves every earlier key where it was. */
  lemma {:induction false} KeyIndexAppend(cart: seq<LineItem>, x: LineItem, id: string)
    ensures KeyIndex(cart + [x], id) ==
      if KeyIndex(cart, id) >= 0 then KeyIndex(cart, id)
      else if x.itemId == id then |cart| else -1
  {
    if cart != [] {
      assert (cart + [x])[1..] == cart[1..] + [x];
      KeyIndexAppend(cart[1..], x, id);
    }
  }

  /** In a cart with distinct keys, each entry's quantity is what lookup gives. */
  lemma QuantityAt(cart: seq<LineItem>, i: nat)
    requires DistinctKeys(cart) && i < |cart|
    ensures Quantity(cart, cart[i].itemId) == cart[i].quantity
  {
    assert KeyIndex(cart, cart[i].itemId) == i;
  }

  /** Removing the entry at `k` keeps every other key's lookup. */
  lemma RemoveKeepsOthers(cart: seq<LineItem>, k: nat, other: string)
    requires DistinctKeys(cart) && k < |cart| && cart[k].itemId != other
    ensures Quantity(cart[..k] + cart[k + 1..], other) == Quantity(cart, other)
  {
    var r := cart[..k] + cart[k + 1..];
    var i := KeyIndex(cart, other);
    if i >= 0 {
      var j := if i < k then i else i - 1;
      assert r[j] == cart[i];
      assert DistinctKeys(r) by {
        forall a, b | 0 <= a < b < |r| ensures r[a].itemId != r[b].itemId {
          var a' := if a < k then a else a + 1;
          var b' := if b < k then b else b + 1;
          assert r[a] == cart[a'] && r[b] == cart[b'];
        }
      }
      QuantityAt(r, j);
    } else {
      assert forall j :: 0 <= j < |r| ==> r[j].itemId != other by {
        forall j | 0 <= j < |r| ensures r[j].itemId != other {
          if j < k { assert r[j] == cart[j]; } else { assert r[j] == cart[j + 1]; }
        }
      }
    }
  }

  /** Tapping a tile: `cart[id] = (cart[id] || 0) + 1`. An existing entry keeps its
      place; a new one is appended. */
  function Incremented(cart: seq<LineItem>, id: string): (r: seq<LineItem>)
    requires DistinctKeys(cart)
    ensures Valid(cart) ==> Valid(r)
    ensures DistinctKeys(r)
    ensures Quantity(r, id) == Quantity(cart, id) + 1
    ensures forall other :: other != id ==> Quantity(r, other) == Quantity(cart, other)
    ensures KeyIndex(cart, id) >= 0 ==>
      && |r| == |cart| && r[KeyIndex(cart, id)].itemId == id
      && forall j :: 0 <= j < |cart| && j != KeyIndex(cart, id) ==> r[j] == cart[j]
    ensures KeyIndex(cart, id) < 0 ==> r == cart + [LineItem(id, 1)]
  {
    var k := KeyIndex(cart, id);
    if k >= 0 then
      var r := cart[k := LineItem(id, cart[k].quantity + 1)];
      assert forall other :: KeyIndex(r, other) == KeyIndex(cart, other) by {
        forall other { SameKeysSameIndex(r, cart, other); }
      }
      r
    else
      var r := cart + [LineItem(id, 1)];
      assert forall other :: KeyIndex(r, other) == if other == id then |cart| else KeyIndex(cart, other) by {
        forall other { KeyIndexAppend(cart, LineItem(id, 1), other); }
      }
      r
  }

  /** Tapping the quantity badge: `cart[id] > 1 ? cart[id]-- : delete cart[id]`.
      A quantity of 1 (or an absent key) leaves no entry, so no quantity ever
      drops to 0 or below. */
  function DecrementedOrRemoved(cart: seq<LineItem>, id: string): (r: seq<LineItem>)
    requires DistinctKeys(cart)
    ensures Valid(cart) ==> Valid(r)
    ensures DistinctKeys(r)
    ensures Quantity(cart, id) > 1 ==> Quantity(r, id) == Quantity(cart, id) - 1
    ensures Quantity(cart, id) <= 1 ==> KeyIndex(r, id) < 0
    ensures forall other :: other != id ==> Quantity(r, other) == Quantity(cart, other)
  {
    var k := KeyIndex(cart, id);
    if k >= 0 && cart[k].quantity > 1 then
      var r := cart[k := LineItem(id, cart[k].quantity - 1)];
      assert forall other :: KeyIndex(r, other) == KeyIndex(cart, other) by {
        forall other { SameKeysSameIndex(r, cart, other); }
      }
      r
    else if k >= 0 then
      var r := cart[..k] + cart[k + 1..];
      assert forall j :: 0 <= j < |r| ==> r[j] == if j < k then cart[j] else cart[j + 1];
      assert forall j :: 0 <= j < |r| ==> r[j].itemId != id;
      assert forall other :: other != id ==> Quantity(r, other) == Quantity(cart, other) by {
        forall other | other != id { RemoveKeepsOthers(cart, k, other); }
      }
      r
    else
      cart
  }

  /** `Object.values(cart).some(q => q > 0)`. */
  predicate HasItems(cart: seq<LineItem>)
  {
    exists i :: 0 <= i < |cart| && cart[i].quantity > 0
  }

  /** The entries with a positive quantity, in cart order. */
  function PositiveLines(cart: seq<LineItem>): (r: seq<LineItem>)
    ensures forall x :: x in r <==> x in cart && x.quantity > 0
    ensures |r| <= |cart|
  {
    if cart == [] then []
    else
      var init := cart[..|cart| - 1];
      var last := cart[|cart| - 1];
      assert cart == init + [last];
      PositiveLines(init) + (if last.quantity > 0 then [last] else [])
  }

  /** A cart as the screens keep it turns into its own entries, unchanged, and it
      has items exactly when it is not empty. */
  lemma {:induction false} ValidCartLines(cart: seq<LineItem>)
    requires Valid(cart)
    ensures PositiveLines(cart) == cart
    ensures HasItems(cart) <==> cart != []
  {
    if cart != [] {
      var init := cart[..|cart| - 1];
      assert Valid(init);
      ValidCartLines(init);
      assert cart == init + [cart[|cart| - 1]];
      assert cart[0].quantity > 0;
    }
  }

  /** The loop pushing `{itemId, quantity}` for each entry with a positive quantity. */
  method CollectLineItems(cart: seq<LineItem>) returns (txItems: seq<LineItem>)
    ensures txItems == PositiveLines(cart)
  {
    txItems := [];
    for i := 0 to |cart|
      invariant txItems == PositiveLines(cart[..i])
    {
      assert cart[..i + 1][..i] == cart[..i];
      if cart[i].quantity > 0 {
        txItems := txItems + [LineItem(cart[i].itemId, cart[i].quantity)];
      }
    }
    assert cart[..|cart|] == cart;
  }

  /** `tileLastClick[id] && now - tileLastClick[id] < window`: a click on a tile
      less than `window` ms after its last accepted click is ignored. A recorded
      time of 0 is falsy and blocks nothing. */
  predicate Bounced(tileLastClick: map<string, int>, id: string, now: int, window: int)
  {
    id in tileLastClick && tileLastClick[id] != 0 && now - tileLastClick[id] < window
  }

  /** Once a click at a non-zero time `t` is accepted on a tile, a later click on it
      is ignored exactly when it comes less than `window` ms after `t`; the other
      tiles keep their own debounce state. */
  lemma BounceAfterAccept(tileLastClick: map<string, int>, id: string, t: int, now: int, window: int)
    requires t != 0
    ensures Bounced(tileLastClick[id := t], id, now, window) <==> now < t + window
    ensures forall other :: other != id ==>
      Bounced(tileLastClick[id := t], other, now, window) == Bounced(tileLastClick, other, now, window)
  {
  }

  /** `Math.max(0, x)`. */
  function Max0(x: int): (r: int)
    ensures r >= 0 && r >= x && (r == x || r == 0)
  {
    if x < 0 then 0 else x
  }

  /** `received < 0 ? 0 : received` on the parsed received input. */
  function SafeReceived(receivedInput: Field): (r: Cents)
    ensures r >= 0
    ensures FieldValue(receivedInput) >= 0 ==> r == FieldValue(receivedInput)
    ensures FieldValue(receivedInput) < 0 ==> r == 0
  {
    Max0(FieldValue(receivedInput))
  }
}
