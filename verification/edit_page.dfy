/** The edit page (public/edit/js/edit-app.js): the item list of one stored event,
    chosen by the `id` query parameter, edited through the store (add, remove,
    inline edit, drag-and-drop reorder), and exported as a file. Generated ids are
    parameters; the DOM is not modelled. */
module EditPage {
  import opened Wrappers
  import opened Models
  import Text
  import ItemList
  import ItemForm
  import Store
  import Transfer

  /** The edit page's state: the loaded store, the event id from the query string
      (`None` when the parameter is absent) and the row in edit mode. */
  class EditPage {
    var state: Store.State
    var eventId: Option<string>
    var editingItemId: Option<string>

    /** `init`: the state is loaded, nothing is in edit mode. */
    constructor (loaded: Store.State, eventId: Option<string>)
      ensures state == loaded && this.eventId == eventId && editingItemId == None
    {
      state := loaded;
      this.eventId := eventId;
      editingItemId := None;
    }

    /** `currentEvent()`: the first stored event whose id is the page's id. */
    function CurrentEvent(): (r: Option<Event>)
      reads this
      ensures r.Some? <==> eventId.Some? && Store.EventIndex(state.events, eventId.value) >= 0
      ensures r.Some? ==> r.value.id == eventId.value && r.value in state.events
    {
      if eventId.None? then None
      else
        var k := Store.EventIndex(state.events, eventId.value);
        if k < 0 then None else Some(state.events[k])
    }

    /** `onDropReorder(srcId, dstId)`: without a current event, with a missing or
        empty source, a drop on the source itself, or an id not in the event's
        list nothing changes; otherwise the source item moves to the drop target's
        position in the stored event. */
    method OnDropReorder(srcId: Option<string>, dstId: string)
      modifies this
      ensures eventId == old(eventId) && editingItemId == old(editingItemId)
      ensures old(CurrentEvent()).None? || srcId.None? || srcId.value == "" || srcId.value == dstId ==>
        state == old(state)
      ensures old(CurrentEvent()).Some? && srcId.Some? && srcId.value != "" && srcId.value != dstId ==>
        var items := old(CurrentEvent()).value.items;
        var from := ItemList.ItemIndex(items, srcId.value);
        var to := ItemList.ItemIndex(items, dstId);
        && (from < 0 || to < 0 ==> state == old(state))
        && (from >= 0 && to >= 0 ==>
              && state == Store.ReorderItemsInEvent(old(state), eventId.value, ItemList.Move(items, from, to))
              && CurrentEvent() == Some(old(CurrentEvent()).value.(items := ItemList.Move(items, from, to)))
              && multiset(CurrentEvent().value.items) == multiset(items))
    {
      var event := CurrentEvent();
      if event.None? || srcId.None? || srcId.value == "" || srcId.value == dstId {
        return;
      }
      var items := event.value.items;
      var srcIdx := ItemList.ItemIndex(items, srcId.value);
      var dstIdx := ItemList.ItemIndex(items, dstId);
      if srcIdx < 0 || dstIdx < 0 {
        return;
      }
      var moved := ItemList.Move(items, srcIdx, dstIdx);
      Store.UpdateEventFinds(state, event.value.(items := moved));
      state := Store.ReorderItemsInEvent(state, eventId.value, moved);
    }

    /** "Add item" with the three inputs and the new item's id: refused when the
        name is blank or the price empty; otherwise the item is appended to the
        event's list in the store (a page whose event does not exist stores
        nothing) and edit mode ends. */
    method AddItem(nameRaw: string, price: Field, colorRaw: string, newId: string)
      returns (check: ItemForm.FormCheck)
      modifies this
      ensures check == ItemForm.CheckAddForm(nameRaw, price)
      ensures check != ItemForm.Accepted ==> unchanged(this)
      ensures check == ItemForm.Accepted ==>
        var item := ItemForm.FormItem(newId, nameRaw, price, colorRaw);
        && editingItemId == None && eventId == old(eventId)
        && (old(CurrentEvent()).None? ==> state == old(state))
        && (old(CurrentEvent()).Some? ==>
              && state == Store.AddItemToEvent(old(state), eventId.value, item)
              && CurrentEvent() == Some(old(CurrentEvent()).value.(items := old(CurrentEvent()).value.items + [item])))
    {
      check := ItemForm.CheckAddForm(nameRaw, price);
      if check != ItemForm.Accepted {
        return;
      }
      var item := ItemForm.FormItem(newId, nameRaw, price, colorRaw);
      var event := CurrentEvent();
      if eventId.Some? {
        if event.Some? {
          Store.UpdateEventFinds(state, event.value.(items := event.value.items + [item]));
        }
        state := Store.AddItemToEvent(state, eventId.value, item);
      }
      editingItemId := None;
    }

    /** "Export": nothing without a current event; otherwise the file holds the
        event's name and items, under the sanitized event name. */
    method Export() returns (r: Option<(Transfer.FileData, string)>)
      ensures CurrentEvent().None? ==> r.None?
      ensures CurrentEvent().Some? ==>
        var e := CurrentEvent().value;
        && r.Some? && r.value.0 == Transfer.ExportData(e)
        && r.value.1 == Transfer.ExportFileName(e.name)
    {
      var event := CurrentEvent();
      if event.None? {
        return None;
      }
      var data := Transfer.ExportData(event.value);
      r := Some((data, Transfer.ExportFileName(event.value.name)));
    }

    /** A remove button, with a current event: every item with that id leaves the
        event's list in the store, edit mode ends. */
    method RemoveItem(itemId: string)
      modifies this
      ensures eventId == old(eventId)
      ensures old(CurrentEvent()).None? ==> unchanged(this)
      ensures old(CurrentEvent()).Some? ==>
        var e := old(CurrentEvent()).value;
        && state == Store.RemoveItemFromEvent(old(state), eventId.value, itemId)
        && CurrentEvent() == Some(e.(items := ItemList.WithoutItem(e.items, itemId)))
        && editingItemId == None
    {
      var event := CurrentEvent();
      if event.None? {
        return;
      }
      Store.UpdateEventFinds(state, event.value.(items := ItemList.WithoutItem(event.value.items, itemId)));
      state := Store.RemoveItemFromEvent(state, eventId.value, itemId);
      editingItemId := None;
    }

    /** "Save" on the edit row of item `id`, with a current event: a blank name is
        refused and changes nothing; otherwise, when the event has an item with
        that id, every item with that id becomes the first one with the edited
        values, and edit mode ends. */
    method SaveEdit(id: string, nameRaw: string, price: Option<Cents>, color: string)
      returns (saved: bool)
      modifies this
      ensures eventId == old(eventId)
      ensures saved <==> old(CurrentEvent()).Some? && !Text.AllSpace(nameRaw)
      ensures !saved ==> unchanged(this)
      ensures saved ==>
        var e := old(CurrentEvent()).value;
        var k := ItemList.ItemIndex(e.items, id);
        && editingItemId == None
        && (k < 0 ==> state == old(state))
        && (k >= 0 ==>
              var updated := ItemForm.EditedItem(e.items[k], nameRaw, price, color);
              && state == Store.UpdateItemInEvent(old(state), eventId.value, updated)
              && CurrentEvent() == Some(e.(items := ItemList.ReplaceItem(e.items, updated))))
    {
      var event := CurrentEvent();
      if event.None? {
        return false;
      }
      Text.TrimEmpty(nameRaw);
      if Text.Trim(nameRaw) == [] {
        return false;
      }
      saved := true;
      var items := event.value.items;
      var idx := ItemList.ItemIndex(items, id);
      if idx >= 0 {
        var updated := ItemForm.EditedItem(items[idx], nameRaw, price, color);
        Store.UpdateEventFinds(state, event.value.(items := ItemList.ReplaceItem(items, updated)));
        state := Store.UpdateItemInEvent(state, eventId.value, updated);
      }
      editingItemId := None;
    }

    /** "Cancel" on the edit row, with a current event. */
    method CancelEdit()
      modifies this
      ensures state == old(state) && eventId == old(eventId)
      ensures old(CurrentEvent()).None? ==> editingItemId == old(editingItemId)
      ensures old(CurrentEvent()).Some? ==> editingItemId == None
    {
      if CurrentEvent().None? {
        return;
      }
      editingItemId := None;
    }

    /** A click on a row, with a current event: it becomes the row in edit mode (a
        click on the row already in edit mode leaves it so). */
    method BeginEdit(rowId: string)
      modifies this
      ensures state == old(state) && eventId == old(eventId)
      ensures old(CurrentEvent()).None? ==> editingItemId == old(editingItemId)
      ensures old(CurrentEvent()).Some? ==> editingItemId == Some(rowId)
    {
      if CurrentEvent().None? || editingItemId == Some(rowId) {
        return;
      }
      editingItemId := Some(rowId);
    }
  }
}
