/** The create page (public/create/js/create-app.js): a pending item list that is
    edited in place (add, remove, inline edit, drag-and-drop reorder, the example
    configuration, import from a file), an event-name input, and "start event",
    which stores a new active event holding the pending items. Generated ids and
    the clock are parameters. */
module CreatePage {
  import opened Wrappers
  import opened Models
  import Text
  import ItemList
  import ItemForm
  import Store
  import Transfer

  /** Event name the example configuration fills into an empty name input. */
  const ExampleEventName := "Vereinsfest"

  /** An entry of the example configuration. */
  datatype Example = Example(name: string, price: Cents, color: string)

  /** The example configuration, prices in cents. */
  const ExampleItems: seq<Example> := [
    Example("Softdrinks", 200, "#3498db"),
    Example("Bier", 250, "#e67e22"),
    Example("Wasser", 150, "#85c1e9"),
    Example("Wein", 300, "#9b59b6"),
    Example("Schorle", 200, "#27ae60"),
    Example("Pfand+", 200, "#95a5a6"),
    Example("Pfand-", -200, "#95a5a6"),
    Example("Grillwurst", 350, "#e67e22"),
    Example("Bratwurst", 300, "#d35400"),
    Example("Pommes", 300, "#f1c40f"),
    Example("Steak", 600, "#795548"),
    Example("Kaffee", 200, "#4e342e"),
    Example("Kuchen", 250, "#d7ccc8"),
    Example("Torte", 300, "#f48fb1")
  ]

  /** Why "start event" refused. */
  datatype StartError = MissingEventName | NoItems

  /** The create page's state. */
  class CreatePage {
    var pendingItems: seq<Item>
    var editingItemId: Option<string>
    var eventName: string

    /** An empty page: no items, nothing in edit mode, an empty name input. */
    constructor ()
      ensures pendingItems == [] && editingItemId == None && eventName == ""
    {
      pendingItems := [];
      editingItemId := None;
      eventName := "";
    }

    /** `onDropReorder(srcId, dstId)`: a missing or empty source, a drop on the
        source itself, or an id that is not in the list changes nothing; otherwise
        the source item moves to the drop target's position. Either way the list
        keeps the same items. */
    method OnDropReorder(srcId: Option<string>, dstId: string)
      modifies this
      ensures editingItemId == old(editingItemId) && eventName == old(eventName)
      ensures multiset(pendingItems) == multiset(old(pendingItems))
      ensures srcId.None? || srcId.value == "" || srcId.value == dstId ==> pendingItems == old(pendingItems)
      ensures srcId.Some? && srcId.value != "" && srcId.value != dstId ==>
        var from := ItemList.ItemIndex(old(pendingItems), srcId.value);
        var to := ItemList.ItemIndex(old(pendingItems), dstId);
        && (from < 0 || to < 0 ==> pendingItems == old(pendingItems))
        && (from >= 0 && to >= 0 ==> pendingItems == ItemList.Move(old(pendingItems), from, to))
    {
      if srcId.None? || srcId.value == "" || srcId.value == dstId {
        return;
      }
      var srcIdx := ItemList.ItemIndex(pendingItems, srcId.value);
      var dstIdx := ItemList.ItemIndex(pendingItems, dstId);
      if srcIdx < 0 || dstIdx < 0 {
        return;
      }
      pendingItems := ItemList.Move(pendingItems, srcIdx, dstIdx);
    }

    /** "Add item" with the three inputs and the id the new item gets: refused when
        the name is blank or the price empty; otherwise the item is appended and
        edit mode ends. */
    method AddItem(nameRaw: string, price: Field, colorRaw: string, newId: string)
      returns (check: ItemForm.FormCheck)
      modifies this
      ensures check == ItemForm.CheckAddForm(nameRaw, price)
      ensures check != ItemForm.Accepted ==> unchanged(this)
      ensures check == ItemForm.Accepted ==>
        && pendingItems == old(pendingItems) + [ItemForm.FormItem(newId, nameRaw, price, colorRaw)]
        && editingItemId == None && eventName == old(eventName)
    {
      check := ItemForm.CheckAddForm(nameRaw, price);
      if check != ItemForm.Accepted {
        return;
      }
      var item := ItemForm.FormItem(newId, nameRaw, price, colorRaw);
      pendingItems := pendingItems + [item];
      editingItemId := None;
    }

    /** A remove button: every item with that id goes, edit mode ends. */
    method RemoveItem(id: string)
      modifies this
      ensures pendingItems == ItemList.WithoutItem(old(pendingItems), id)
      ensures editingItemId == None && eventName == old(eventName)
    {
      pendingItems := ItemList.WithoutItem(pendingItems, id);
      editingItemId := None;
    }

    /** "Save" on the edit row of item `id`: a blank name is refused and changes
        nothing; otherwise the first item with that id (if any) takes the edited
        values and edit mode ends. */
    method SaveEdit(id: string, nameRaw: string, price: Option<Cents>, color: string)
      returns (saved: bool)
      modifies this
      ensures saved <==> !Text.AllSpace(nameRaw)
      ensures !saved ==> unchanged(this)
      ensures saved ==>
        var k := ItemList.ItemIndex(old(pendingItems), id);
        && (k < 0 ==> pendingItems == old(pendingItems))
        && (k >= 0 ==> pendingItems == old(pendingItems)[k := ItemForm.EditedItem(old(pendingItems)[k], nameRaw, price, color)])
        && editingItemId == None && eventName == old(eventName)
    {
      Text.TrimEmpty(nameRaw);
      if Text.Trim(nameRaw) == [] {
        return false;
      }
      saved := true;
      var idx := ItemList.ItemIndex(pendingItems, id);
      if idx >= 0 {
        pendingItems := pendingItems[idx := ItemForm.EditedItem(pendingItems[idx], nameRaw, price, color)];
      }
      editingItemId := None;
    }

    /** "Cancel" on the edit row. */
    method CancelEdit()
      modifies this
      ensures editingItemId == None
      ensures pendingItems == old(pendingItems) && eventName == old(eventName)
    {
      editingItemId := None;
    }

    /** A click on a row: it becomes the row in edit mode (a click on the row
        already in edit mode leaves it so). */
    method BeginEdit(rowId: string)
      modifies this
      ensures editingItemId == Some(rowId)
      ensures pendingItems == old(pendingItems) && eventName == old(eventName)
    {
      if editingItemId == Some(rowId) {
        return;
      }
      editingItemId := Some(rowId);
    }

    /** "Example configuration" with the ids the fourteen items get: a blank name
        input receives the example name, and the pending list becomes the example
        items, in order. */
    method LoadExample(ids: seq<string>)
      requires |ids| == |ExampleItems|
      modifies this
      ensures Text.AllSpace(old(eventName)) ==> eventName == ExampleEventName
      ensures !Text.AllSpace(old(eventName)) ==> eventName == old(eventName)
      ensures |pendingItems| == |ExampleItems|
      ensures forall i :: 0 <= i < |ExampleItems| ==>
        pendingItems[i] == CreateItem(ids[i], ExampleItems[i].name, Some(ExampleItems[i].price), ExampleItems[i].color)
      ensures editingItemId == None
    {
      Text.TrimEmpty(eventName);
      if Text.Trim(eventName) == [] {
        eventName := ExampleEventName;
      }
      pendingItems := seq(|ExampleItems|, i requires 0 <= i < |ExampleItems| =>
        CreateItem(ids[i], ExampleItems[i].name, Some(ExampleItems[i].price), ExampleItems[i].color));
      editingItemId := None;
    }

    /** Importing a parsed file with the ids its items get: a file failing the format
        check changes nothing; past it the name input takes the file's name at once,
        and the pending list is replaced only when no item entry is `null` (a `null`
        entry makes the `map` throw, leaving list and edit mode as they were). */
    method Import(parsed: Option<Transfer.FileData>, ids: seq<string>) returns (accepted: bool)
      requires parsed.Some? && parsed.value.items.Some? ==> |ids| == |parsed.value.items.value|
      modifies this
      ensures accepted <==> Transfer.ImportFile(parsed, ids).Some?
      ensures !Transfer.FileShaped(parsed) ==> unchanged(this)
      ensures Transfer.FileShaped(parsed) ==> eventName == parsed.value.name.value
      ensures Transfer.FileShaped(parsed) && !accepted ==>
        pendingItems == old(pendingItems) && editingItemId == old(editingItemId)
      ensures accepted ==>
        && eventName == Transfer.ImportFile(parsed, ids).value.name
        && pendingItems == Transfer.ImportFile(parsed, ids).value.items
        && editingItemId == None
    {
      if !Transfer.FileShaped(parsed) {
        return false;
      }
      eventName := parsed.value.name.value;
      var r := Transfer.ImportFile(parsed, ids);
      if r.None? {
        return false;
      }
      accepted := true;
      pendingItems := r.value.items;
      editingItemId := None;
    }

    /** "Start event" on the stored state, with the new event's id and creation
        time: refused without a name or without items; otherwise the stored state
        gains an open event with the trimmed name, a copy of the pending items and
        no transactions, and that event becomes the active one. */
    method StartEvent(stored: Store.State, newId: string, createdAt: string)
      returns (r: Result<Store.State, StartError>)
      ensures Text.AllSpace(eventName) ==> r == Err(MissingEventName)
      ensures !Text.AllSpace(eventName) && pendingItems == [] ==> r == Err(NoItems)
      ensures !Text.AllSpace(eventName) && pendingItems != [] ==>
        r == Ok(Store.AddEvent(stored, Event(newId, Text.Trim(eventName), createdAt, pendingItems, [], false)))
    {
      var name := Text.Trim(eventName);
      Text.TrimEmpty(eventName);
      if name == [] {
        return Err(MissingEventName);
      }
      if |pendingItems| == 0 {
        return Err(NoItems);
      }
      Text.TrimIdempotent(eventName);
      var event := CreateEvent(newId, name, createdAt);
      event := event.(items := pendingItems);
      r := Ok(Store.AddEvent(stored, event));
    }
  }

  /** A started event, given an id that is not empty and not yet taken, is the
      active event afterwards, and a store that kept its invariant keeps it. */
  lemma StartedEventIsActive(stored: Store.State, e: Event)
    requires e.id != "" && !e.closed
    requires forall j :: 0 <= j < |stored.events| ==> stored.events[j].id != e.id
    ensures Store.GetActiveEvent(Store.AddEvent(stored, e)) == Some(e)
    ensures Store.Valid(stored) ==> Store.Valid(Store.AddEvent(stored, e))
  {
    Store.AddEventActivates(stored, e);
    if Store.Valid(stored) {
      Store.AddEventPreservesValid(stored, e);
    }
  }
}
