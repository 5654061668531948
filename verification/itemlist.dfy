/** Operations on an ordered item list, shared by the store
    (public/shared/js/storage.js) and the two item editors
    (public/create/js/create-app.js, public/edit/js/edit-app.js). */
module ItemList {
  import opened Models

  /** `items.findIndex(i => i.id === id)`: the first position holding `id`, or -1. */
  function ItemIndex(items: seq<Item>, id: string): (i: int)
    ensures -1 <= i < |items|
    ensures i >= 0 ==> items[i].id == id && forall j :: 0 <= j < i ==> items[j].id != id
    ensures i < 0 ==> forall j :: 0 <= j < |items| ==> items[j].id != id
  {
    if items == [] then -1
    else if items[0].id == id then 0
    else
      var k := ItemIndex(items[1..], id);
      if k < 0 then -1 else k + 1
  }

  /** `items.filter(i => i.id !== id)`. */
  function WithoutItem(items: seq<Item>, id: string): (r: seq<Item>)
    ensures |r| <= |items|
  {
    if items == [] then []
    else (if items[0].id == id then [] else [items[0]]) + WithoutItem(items[1..], id)
  }

  /** Every copy of an item with that id is dropped and every other item is kept
      as often as it occurred. */
  lemma {:induction false} WithoutItemCounts(items: seq<Item>, id: string)
    ensures forall x :: multiset(WithoutItem(items, id))[x] == if x.id == id then 0 else multiset(items)[x]
  {
    if items != [] {
      var h := if items[0].id == id then [] else [items[0]];
      var rest := WithoutItem(items[1..], id);
      WithoutItemCounts(items[1..], id);
      assert items == [items[0]] + items[1..];
      assert multiset(WithoutItem(items, id)) == multiset(h) + multiset(rest);
      assert multiset(items) == multiset{items[0]} + multiset(items[1..]);
    }
  }

  /** The items left are exactly those with another id. */
  lemma WithoutItemMembers(items: seq<Item>, id: string)
    ensures forall x :: x in WithoutItem(items, id) <==> x in items && x.id != id
  {
    WithoutItemCounts(items, id);
    var r := WithoutItem(items, id);
    forall x
      ensures x in r <==> x in items && x.id != id
    {
      assert x in r <==> x in multiset(r);
      assert x in items <==> x in multiset(items);
    }
  }

  /** Without an item with that id the list is unchanged. */
  lemma {:induction false} WithoutItemAbsent(items: seq<Item>, id: string)
    requires forall j :: 0 <= j < |items| ==> items[j].id != id
    ensures WithoutItem(items, id) == items
  {
    if items != [] {
      WithoutItemAbsent(items[1..], id);
      assert items == [items[0]] + items[1..];
    }
  }

  /** Filtering keeps the order of what remains: it works piece by piece. */
  lemma {:induction false} WithoutItemConcat(a: seq<Item>, b: seq<Item>, id: string)
    ensures WithoutItem(a + b, id) == WithoutItem(a, id) + WithoutItem(b, id)
  {
    if a == [] {
      assert a + b == b;
    } else {
      assert (a + b)[0] == a[0];
      assert (a + b)[1..] == a[1..] + b;
      WithoutItemConcat(a[1..], b, id);
    }
  }

  /** `items.map(i => i.id === updated.id ? updated : i)`. */
  function ReplaceItem(items: seq<Item>, updated: Item): (r: seq<Item>)
    ensures |r| == |items|
    ensures forall j :: 0 <= j < |items| ==> r[j] == if items[j].id == updated.id then updated else items[j]
    ensures (forall j :: 0 <= j < |items| ==> items[j].id != updated.id) ==> r == items
  {
    seq(|items|, j requires 0 <= j < |items| => if items[j].id == updated.id then updated else items[j])
  }

  /** `s` without its element at position `i`. */
  function RemoveAt<T>(s: seq<T>, i: nat): (r: seq<T>)
    requires i < |s|
    ensures |r| == |s| - 1
  {
    s[..i] + s[i + 1..]
  }

  /** `moved = list.splice(from, 1)[0]; list.splice(to, 0, moved)`: the element at
      `from` is taken out and inserted at `to` of what remains, so it ends up at
      position `to`; nothing is lost or added, and the other elements keep their
      relative order. */
  function Move<T>(s: seq<T>, from: nat, to: nat): (r: seq<T>)
    requires from < |s| && to < |s|
    ensures |r| == |s| && r[to] == s[from]
    ensures multiset(r) == multiset(s)
    ensures RemoveAt(r, to) == RemoveAt(s, from)
  {
    var rest := s[..from] + s[from + 1..];
    var r := rest[..to] + [s[from]] + rest[to..];
    assert s == s[..from] + [s[from]] + s[from + 1..];
    assert multiset(rest) == multiset(s[..from]) + multiset(s[from + 1..]);
    assert rest == rest[..to] + rest[to..];
    assert r[..to] == rest[..to];
    assert r[to + 1..] == rest[to..];
    calc {
      multiset(r);
      multiset(rest[..to]) + multiset{s[from]} + multiset(rest[to..]);
      multiset(rest[..to]) + multiset(rest[to..]) + multiset{s[from]};
      { assert rest == rest[..to] + rest[to..]; }
      multiset(rest) + multiset{s[from]};
      multiset(s[..from]) + multiset(s[from + 1..]) + multiset{s[from]};
      multiset(s[..from]) + multiset{s[from]} + multiset(s[from + 1..]);
      { assert s == s[..from] + [s[from]] + s[from + 1..]; }
      multiset(s);
    }
    r
  }
}
