/** The root-state store (public/shared/js/storage.js): copy-on-write transitions
    over `{events, activeEventId}`. Each transition returns a new state; the
    source also writes it to local storage, which has no effect on the returned
    state and is modelled only as `SaveState`. */
module Store {
  import opened Wrappers
  import opened Models
  import ItemList

  datatype State = State(events: seq<Event>, activeEventId: Option<string>)

  function DefaultState(): (s: State)
    ensures s.events == [] && s.activeEventId.None?
  {
    State([], None)
  }

  // ─── Load / save ────────────────────────────────────────────────────────────

  /** What the storage key holds, as far as `loadState` can tell. */
  datatype Stored =
    | Missing      // no value, or the empty string
    | Unparsable   // `JSON.parse` throws
    | NotAState    // parses to a falsy value, or to one whose `events` is not an array
    | Saved(state: State)

  /** Anything but a well-shaped record yields the default state; a record is
      returned as it is, without further checks. */
  function LoadState(stored: Stored): (s: State)
    ensures !stored.Saved? ==> s == DefaultState()
    ensures stored.Saved? ==> s == stored.state
  {
    match stored
    case Saved(st) => st
    case _ => DefaultState()
  }

  /** `localStorage.setItem(KEY, JSON.stringify(state))`: what the next load finds. */
  function SaveState(s: State): (stored: Stored)
    ensures LoadState(stored) == s
  {
    Saved(s)
  }

  // ─── Lookup ─────────────────────────────────────────────────────────────────

  /** `events.find(e => e.id === id)`, as a position: the first event with that id, or -1. */
  function EventIndex(events: seq<Event>, id: string): (i: int)
    ensures -1 <= i < |events|
    ensures i >= 0 ==> events[i].id == id && forall j :: 0 <= j < i ==> events[j].id != id
    ensures i < 0 ==> forall j :: 0 <= j < |events| ==> events[j].id != id
  {
    if events == [] then -1
    else if events[0].id == id then 0
    else
      var k := EventIndex(events[1..], id);
      if k < 0 then -1 else k + 1
  }

  /** The active event: none when the active id is null (or the empty string, which
      is falsy) or names no event, otherwise the first event carrying it. */
  function GetActiveEvent(s: State): (r: Option<Event>)
    ensures r.Some? <==>
      s.activeEventId.Some? && s.activeEventId.value != "" && EventIndex(s.events, s.activeEventId.value) >= 0
    ensures r.Some? ==> r.value == s.events[EventIndex(s.events, s.activeEventId.value)]
  {
    match s.activeEventId
    case None => None
    case Some(id) =>
      if id == "" then None
      else
        var k := EventIndex(s.events, id);
        if k < 0 then None else Some(s.events[k])
  }

  // ─── Event operations ───────────────────────────────────────────────────────

  /** Appends the event and makes it the active one. */
  function AddEvent(s: State, e: Event): (r: State)
    ensures r.events == s.events + [e]
    ensures r.activeEventId == Some(e.id)
  {
    State(s.events + [e], Some(e.id))
  }

  /** Sets the active id, whatever it names. */
  function SetActiveEvent(s: State, id: string): (r: State)
    ensures r.events == s.events && r.activeEventId == Some(id)
  {
    s.(activeEventId := Some(id))
  }

  /** Replaces every event whose id is `updated.id`; order, length and the active
      id are kept. */
  function UpdateEvent(s: State, updated: Event): (r: State)
    ensures |r.events| == |s.events| && r.activeEventId == s.activeEventId
    ensures forall j :: 0 <= j < |s.events| ==>
      r.events[j] == if s.events[j].id == updated.id then updated else s.events[j]
  {
    var events := seq(|s.events|, j requires 0 <= j < |s.events| =>
      if s.events[j].id == updated.id then updated else s.events[j]);
    s.(events := events)
  }

  /** After replacing an event that exists, looking its id up again finds the
      replacement, at the same position. */
  lemma UpdateEventFinds(s: State, edited: Event)
    requires EventIndex(s.events, edited.id) >= 0
    ensures EventIndex(UpdateEvent(s, edited).events, edited.id) == EventIndex(s.events, edited.id)
    ensures UpdateEvent(s, edited).events[EventIndex(s.events, edited.id)] == edited
  {
    var k := EventIndex(s.events, edited.id);
    var r := UpdateEvent(s, edited);
    assert forall j :: 0 <= j < |s.events| ==> r.events[j].id == s.events[j].id;
  }

  // ─── Item and transaction operations ────────────────────────────────────────
  // Each looks the event up by id; an unknown id returns the state unchanged.
  // Otherwise every event with that id becomes the first one, edited, and all
  // other events and the active id stay as they were.

  function AddItemToEvent(s: State, eventId: string, item: Item): (r: State)
    ensures EventIndex(s.events, eventId) < 0 ==> r == s
    ensures EventIndex(s.events, eventId) >= 0 ==>
      var e := s.events[EventIndex(s.events, eventId)];
      && |r.events| == |s.events| && r.activeEventId == s.activeEventId
      && forall j :: 0 <= j < |s.events| ==>
           r.events[j] == if s.events[j].id == eventId then e.(items := e.items + [item]) else s.events[j]
  {
    var k := EventIndex(s.events, eventId);
    if k < 0 then s
    else
      var e := s.events[k];
      UpdateEvent(s, e.(items := e.items + [item]))
  }

  function RemoveItemFromEvent(s: State, eventId: string, itemId: string): (r: State)
    ensures EventIndex(s.events, eventId) < 0 ==> r == s
    ensures EventIndex(s.events, eventId) >= 0 ==>
      var e := s.events[EventIndex(s.events, eventId)];
      && |r.events| == |s.events| && r.activeEventId == s.activeEventId
      && forall j :: 0 <= j < |s.events| ==>
           r.events[j] == if s.events[j].id == eventId then e.(items := ItemList.WithoutItem(e.items, itemId)) else s.events[j]
  {
    var k := EventIndex(s.events, eventId);
    if k < 0 then s
    else
      var e := s.events[k];
      UpdateEvent(s, e.(items := ItemList.WithoutItem(e.items, itemId)))
  }

  function UpdateItemInEvent(s: State, eventId: string, updatedItem: Item): (r: State)
    ensures EventIndex(s.events, eventId) < 0 ==> r == s
    ensures EventIndex(s.events, eventId) >= 0 ==>
      var e := s.events[EventIndex(s.events, eventId)];
      && |r.events| == |s.events| && r.activeEventId == s.activeEventId
      && forall j :: 0 <= j < |s.events| ==>
           r.events[j] == if s.events[j].id == eventId then e.(items := ItemList.ReplaceItem(e.items, updatedItem)) else s.events[j]
  {
    var k := EventIndex(s.events, eventId);
    if k < 0 then s
    else
      var e := s.events[k];
      UpdateEvent(s, e.(items := ItemList.ReplaceItem(e.items, updatedItem)))
  }

  /** The new order is taken as given; it is not checked to be a permutation. */
  function ReorderItemsInEvent(s: State, eventId: string, reordered: seq<Item>): (r: State)
    ensures EventIndex(s.events, eventId) < 0 ==> r == s
    ensures EventIndex(s.events, eventId) >= 0 ==>
      var e := s.events[EventIndex(s.events, eventId)];
      && |r.events| == |s.events| && r.activeEventId == s.activeEventId
      && forall j :: 0 <= j < |s.events| ==>
           r.events[j] == if s.events[j].id == eventId then e.(items := reordered) else s.events[j]
  {
    var k := EventIndex(s.events, eventId);
    if k < 0 then s
    else
      var e := s.events[k];
      UpdateEvent(s, e.(items := reordered))
  }

  function AddTransaction(s: State, eventId: string, tx: Transaction): (r: State)
    ensures EventIndex(s.events, eventId) < 0 ==> r == s
    ensures EventIndex(s.events, eventId) >= 0 ==>
      var e := s.events[EventIndex(s.events, eventId)];
      && |r.events| == |s.events| && r.activeEventId == s.activeEventId
      && forall j :: 0 <= j < |s.events| ==>
           r.events[j] == if s.events[j].id == eventId then e.(transactions := e.transactions + [tx]) else s.events[j]
  {
    var k := EventIndex(s.events, eventId);
    if k < 0 then s
    else
      var e := s.events[k];
      UpdateEvent(s, e.(transactions := e.transactions + [tx]))
  }

  // ─── Close / delete ─────────────────────────────────────────────────────────

  /** Marks the event closed; if it was the active one, no event is active any more. */
  function CloseEvent(s: State, eventId: string): (r: State)
    ensures EventIndex(s.events, eventId) < 0 ==> r == s
    ensures EventIndex(s.events, eventId) >= 0 ==>
      var e := s.events[EventIndex(s.events, eventId)];
      && |r.events| == |s.events|
      && (forall j :: 0 <= j < |s.events| ==>
            r.events[j] == if s.events[j].id == eventId then e.(closed := true) else s.events[j])
      && r.activeEventId == if s.activeEventId == Some(eventId) then None else s.activeEventId
  {
    var k := EventIndex(s.events, eventId);
    if k < 0 then s
    else
      var e := s.events[k];
      var r := UpdateEvent(s, e.(closed := true));
      if r.activeEventId == Some(eventId) then r.(activeEventId := None) else r
  }

  /** `events.filter(e => e.id !== id)`. */
  function WithoutEvent(events: seq<Event>, id: string): (r: seq<Event>)
    ensures forall x :: x in r <==> x in events && x.id != id
    ensures |r| <= |events|
  {
    if events == [] then []
    else
      assert events == [events[0]] + events[1..];
      (if events[0].id == id then [] else [events[0]]) + WithoutEvent(events[1..], id)
  }

  /** Filtering keeps the order of what remains: it works piece by piece. */
  lemma {:induction false} WithoutEventConcat(a: seq<Event>, b: seq<Event>, id: string)
    ensures WithoutEvent(a + b, id) == WithoutEvent(a, id) + WithoutEvent(b, id)
  {
    if a == [] {
      assert a + b == b;
    } else {
      assert (a + b)[0] == a[0];
      assert (a + b)[1..] == a[1..] + b;
      WithoutEventConcat(a[1..], b, id);
    }
  }

  /** Every event with another id keeps all its copies, one with that id none. */
  lemma {:induction false} WithoutEventCounts(events: seq<Event>, id: string)
    ensures forall x :: multiset(WithoutEvent(events, id))[x] == if x.id == id then 0 else multiset(events)[x]
  {
    if events != [] {
      var h := if events[0].id == id then [] else [events[0]];
      var rest := WithoutEvent(events[1..], id);
      WithoutEventCounts(events[1..], id);
      assert events == [events[0]] + events[1..];
      assert multiset(WithoutEvent(events, id)) == multiset(h) + multiset(rest);
      assert multiset(events) == multiset{events[0]} + multiset(events[1..]);
    }
  }

  /** Removes every event with that id (an unknown id removes nothing); if it was
      the active one, no event is active any more. */
  function DeleteEvent(s: State, eventId: string): (r: State)
    ensures r.events == WithoutEvent(s.events, eventId)
    ensures r.activeEventId == if s.activeEventId == Some(eventId) then None else s.activeEventId
  {
    State(WithoutEvent(s.events, eventId),
          if s.activeEventId == Some(eventId) then None else s.activeEventId)
  }

  // ─── The root-state invariant ───────────────────────────────────────────────

  predicate UniqueIds(events: seq<Event>)
  {
    forall i, j :: 0 <= i < j < |events| ==> events[i].id != events[j].id
  }

  /** Some event carries `id` and is still open. */
  predicate HasOpenEvent(events: seq<Event>, id: string)
  {
    exists j :: 0 <= j < |events| && events[j].id == id && !events[j].closed
  }

  /** Event ids are unique, and the active id is null or names an open event. */
  predicate Valid(s: State)
  {
    && UniqueIds(s.events)
    && (s.activeEventId.Some? ==> HasOpenEvent(s.events, s.activeEventId.value))
  }

  lemma DefaultStateValid()
    ensures Valid(DefaultState())
  {
  }

  /** Under the invariant, a non-empty active id always finds its event, and that
      event is open. */
  lemma ActiveEventIsOpen(s: State)
    requires Valid(s) && s.activeEventId.Some? && s.activeEventId.value != ""
    ensures GetActiveEvent(s).Some?
    ensures GetActiveEvent(s).value.id == s.activeEventId.value && !GetActiveEvent(s).value.closed
  {
    var id := s.activeEventId.value;
    var j :| 0 <= j < |s.events| && s.events[j].id == id && !s.events[j].closed;
    var k := EventIndex(s.events, id);
    assert k >= 0;
    assert k == j;
  }

  /** Adding a freshly created event keeps the invariant. */
  lemma AddEventPreservesValid(s: State, e: Event)
    requires Valid(s) && !e.closed
    requires forall j :: 0 <= j < |s.events| ==> s.events[j].id != e.id
    ensures Valid(AddEvent(s, e))
  {
    var r := AddEvent(s, e);
    assert r.events[|s.events|] == e;
  }

  /** An added event whose id is not empty and not yet taken becomes the active
      event. */
  lemma AddEventActivates(s: State, e: Event)
    requires e.id != ""
    requires forall j :: 0 <= j < |s.events| ==> s.events[j].id != e.id
    ensures GetActiveEvent(AddEvent(s, e)) == Some(e)
  {
    var r := AddEvent(s, e);
    assert r.events[|s.events|] == e;
  }

  /** Activating an id keeps the invariant exactly when an open event carries it. */
  lemma SetActiveEventValid(s: State, id: string)
    requires UniqueIds(s.events)
    ensures Valid(SetActiveEvent(s, id)) <==> HasOpenEvent(s.events, id)
  {
  }

  /** Replacing an event by one with the same id and the same closed flag keeps
      the invariant. */
  lemma {:induction false} UpdateEventPreservesValid(s: State, updated: Event)
    requires Valid(s)
    requires forall j :: 0 <= j < |s.events| && s.events[j].id == updated.id ==> s.events[j].closed == updated.closed
    ensures Valid(UpdateEvent(s, updated))
  {
    var r := UpdateEvent(s, updated);
    assert forall j :: 0 <= j < |s.events| ==> r.events[j].id == s.events[j].id;
    if s.activeEventId.Some? {
      var j :| 0 <= j < |s.events| && s.events[j].id == s.activeEventId.value && !s.events[j].closed;
      assert r.events[j].id == s.activeEventId.value && !r.events[j].closed;
    }
  }

  /** The item operations never touch ids or closed flags, so they keep the
      invariant. */
  lemma ItemEditsPreserveValid(s: State, eventId: string, item: Item, itemId: string,
                               reordered: seq<Item>)
    requires Valid(s)
    ensures Valid(AddItemToEvent(s, eventId, item))
    ensures Valid(RemoveItemFromEvent(s, eventId, itemId))
    ensures Valid(UpdateItemInEvent(s, eventId, item))
    ensures Valid(ReorderItemsInEvent(s, eventId, reordered))
  {
    var k := EventIndex(s.events, eventId);
    if k >= 0 {
      var e := s.events[k];
      assert forall j :: 0 <= j < |s.events| && s.events[j].id == eventId ==> j == k;
      UpdateEventPreservesValid(s, e.(items := e.items + [item]));
      UpdateEventPreservesValid(s, e.(items := ItemList.WithoutItem(e.items, itemId)));
      UpdateEventPreservesValid(s, e.(items := ItemList.ReplaceItem(e.items, item)));
      UpdateEventPreservesValid(s, e.(items := reordered));
    }
  }

  /** Recording a transaction keeps the invariant. */
  lemma AddTransactionPreservesValid(s: State, eventId: string, tx: Transaction)
    requires Valid(s)
    ensures Valid(AddTransaction(s, eventId, tx))
  {
    var k := EventIndex(s.events, eventId);
    if k >= 0 {
      var e := s.events[k];
      assert forall j :: 0 <= j < |s.events| && s.events[j].id == eventId ==> j == k;
      UpdateEventPreservesValid(s, e.(transactions := e.transactions + [tx]));
    }
  }

  /** Closing keeps the invariant: the closed event cannot stay active. */
  lemma CloseEventPreservesValid(s: State, eventId: string)
    requires Valid(s)
    ensures Valid(CloseEvent(s, eventId))
  {
    var r := CloseEvent(s, eventId);
    var k := EventIndex(s.events, eventId);
    if k >= 0 {
      assert forall j :: 0 <= j < |s.events| ==> r.events[j].id == s.events[j].id;
      if r.activeEventId.Some? {
        var id := r.activeEventId.value;
        assert id != eventId;
        var j :| 0 <= j < |s.events| && s.events[j].id == id && !s.events[j].closed;
        assert r.events[j] == s.events[j];
      }
    }
  }

  /** Filtering events keeps their relative order, so unique ids stay unique. */
  lemma {:induction false} WithoutEventUnique(events: seq<Event>, id: string)
    requires UniqueIds(events)
    ensures UniqueIds(WithoutEvent(events, id))
  {
    if events != [] {
      var tail := events[1..];
      UniqueIdsTail(events);
      WithoutEventUnique(tail, id);
      var rest := WithoutEvent(tail, id);
      if events[0].id != id {
        var r := [events[0]] + rest;
        forall i, j | 0 <= i < j < |r| ensures r[i].id != r[j].id {
          if i == 0 {
            HeadIdNotInFiltered(events, id, r[j]);
          } else {
            assert r[i] == rest[i - 1] && r[j] == rest[j - 1];
          }
        }
      }
    }
  }

  /** Dropping the first event keeps ids unique. */
  lemma UniqueIdsTail(events: seq<Event>)
    requires events != [] && UniqueIds(events)
    ensures UniqueIds(events[1..])
  {
    var tail := events[1..];
    forall i, j | 0 <= i < j < |tail| ensures tail[i].id != tail[j].id {
      assert tail[i] == events[i + 1] && tail[j] == events[j + 1];
    }
  }

  /** No event left after filtering the later events carries the first one's id. */
  lemma HeadIdNotInFiltered(events: seq<Event>, id: string, x: Event)
    requires events != [] && UniqueIds(events)
    requires x in WithoutEvent(events[1..], id)
    ensures x.id != events[0].id
  {
    var tail := events[1..];
    assert x in tail;
    var m :| 0 <= m < |tail| && tail[m] == x;
    assert events[m + 1] == x;
  }

  /** Deleting keeps the invariant: the deleted event cannot stay active. */
  lemma DeleteEventPreservesValid(s: State, eventId: string)
    requires Valid(s)
    ensures Valid(DeleteEvent(s, eventId))
  {
    var r := DeleteEvent(s, eventId);
    WithoutEventUnique(s.events, eventId);
    if r.activeEventId.Some? {
      var id := r.activeEventId.value;
      var j :| 0 <= j < |s.events| && s.events[j].id == id && !s.events[j].closed;
      assert s.events[j] in r.events;
      var m :| 0 <= m < |r.events| && r.events[m] == s.events[j];
    }
  }

  /** Recording a transaction on an event adds its total to the event's revenue,
      its tip to the event's tips and one to its transaction count. */
  lemma AddTransactionRevenue(s: State, eventId: string, tx: Transaction)
    requires EventIndex(s.events, eventId) >= 0
    ensures var k := EventIndex(s.events, eventId);
      && Revenue(AddTransaction(s, eventId, tx).events[k].transactions) == Revenue(s.events[k].transactions) + tx.total
      && Tips(AddTransaction(s, eventId, tx).events[k].transactions) == Tips(s.events[k].transactions) + TipOf(tx)
      && |AddTransaction(s, eventId, tx).events[k].transactions| == |s.events[k].transactions| + 1
  {
    var k := EventIndex(s.events, eventId);
    RevenueConcat(s.events[k].transactions, [tx]);
  }
}
