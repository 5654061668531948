/** The item form both item editors share (public/create/js/create-app.js and
    public/edit/js/edit-app.js): the "add item" inputs with their two guards, and
    the inline edit row's "save". */
module ItemForm {
  import opened Wrappers
  import opened Models
  import Text

  /** What the "add item" guards decide. */
  datatype FormCheck = Accepted | MissingName | MissingPrice

  /** `if (!name) …; if (price === '') …` on the trimmed name and the raw price
      text: a name of white space only is refused first, then an empty price. */
  function CheckAddForm(nameRaw: string, price: Field): (c: FormCheck)
    ensures c == MissingName <==> Text.AllSpace(nameRaw)
    ensures c == MissingPrice <==> !Text.AllSpace(nameRaw) && price.Blank?
    ensures c == Accepted <==> !Text.AllSpace(nameRaw) && price.Filled?
  {
    Text.TrimEmpty(nameRaw);
    if Text.Trim(nameRaw) == [] then MissingName
    else if price.Blank? then MissingPrice
    else Accepted
  }

  /** `createItem(name.trim(), price, color.trim())` for an accepted form: trimming
      again inside `createItem` changes nothing, so the item carries the trimmed
      inputs, a name that is not empty, and the parsed price (0 when unreadable). */
  function FormItem(id: string, nameRaw: string, price: Field, colorRaw: string): (item: Item)
    requires CheckAddForm(nameRaw, price) == Accepted
    ensures item.id == id && item.name == Text.Trim(nameRaw) && item.name != []
    ensures item.color == Text.Trim(colorRaw)
    ensures item.price == FieldValue(price)
  {
    Text.TrimIdempotent(nameRaw);
    Text.TrimIdempotent(colorRaw);
    CreateItem(id, Text.Trim(nameRaw), price.parsed, Text.Trim(colorRaw))
  }

  /** `Object.assign({}, item, {name, price: safeParseFloat(...), color})` for the
      edit row: the id stays, the name is the trimmed input, the price the parsed
      input (0 when unreadable) and the color the input as it is, untrimmed. */
  function EditedItem(item: Item, nameRaw: string, price: Option<Cents>, color: string): (r: Item)
    ensures r.id == item.id && r.name == Text.Trim(nameRaw)
    ensures r.price == SafeParseFloat(price) && r.color == color
  {
    item.(name := Text.Trim(nameRaw), price := SafeParseFloat(price), color := color)
  }
}
