/** The item-list exchange file: the edit page exports an event's name and items
    (public/edit/js/edit-app.js), the create page imports such a file as the
    pending item list (public/create/js/create-app.js). The JSON text itself is
    not modelled: a file is the value `JSON.parse` gives. */
module Transfer {
  import opened Wrappers
  import opened Models
  import Text

  /** Color an imported item gets when its file entry has none. */
  const DefaultColor := "#cccccc"

  /** One entry of the file's `items` array. A `name` or `color` that is missing
      or empty is "" (JavaScript's `it.name || ''` treats both alike); `price` is
      what `parseFloat` makes of the entry's price, `None` for a missing or
      unreadable one. */
  datatype FileItem = FileItem(name: string, price: Option<Cents>, color: string)

  /** The parsed file: `name` is `None` when it is not a string, `items` is `None`
      when it is not an array, and an entry is `None` when it is `null`. */
  datatype FileData = FileData(name: Option<string>, items: Option<seq<Option<FileItem>>>)

  /** The name and item list an accepted import yields. */
  datatype Imported = Imported(name: string, items: seq<Item>)

  // ─── Export ─────────────────────────────────────────────────────────────────

  /** `{name, items: items.map(it => ({name, price, color}))}`: everything but the ids. */
  function ExportData(e: Event): (d: FileData)
    ensures d.name == Some(e.name) && d.items.Some? && |d.items.value| == |e.items|
    ensures forall i :: 0 <= i < |e.items| ==>
      d.items.value[i] == Some(FileItem(e.items[i].name, Some(e.items[i].price), e.items[i].color))
  {
    FileData(Some(e.name),
      Some(seq(|e.items|, i requires 0 <= i < |e.items| =>
        Some(FileItem(e.items[i].name, Some(e.items[i].price), e.items[i].color)))))
  }

  /** The characters `/[^a-z0-9äöüß]/gi` does not match. */
  predicate FileNameChar(c: char)
  {
    ('a' <= c <= 'z') || ('A' <= c <= 'Z') || ('0' <= c <= '9')
    || c == '\U{E4}' || c == '\U{F6}' || c == '\U{FC}' || c == '\U{DF}'
    || c == '\U{C4}' || c == '\U{D6}' || c == '\U{DC}'
  }

  /** Every character outside the allowed set becomes '_'. */
  function Sanitize(s: string): (r: string)
    ensures |r| == |s|
    ensures forall i :: 0 <= i < |s| ==> r[i] == if FileNameChar(s[i]) then s[i] else '_'
  {
    if s == [] then [] else [if FileNameChar(s[0]) then s[0] else '_'] + Sanitize(s[1..])
  }

  /** The download name `name.replace(/[^a-z0-9äöüß]/gi, '_') + '.json'`. */
  function ExportFileName(name: string): (f: string)
    ensures |f| == |name| + 5 && f[|name|..] == ".json"
  {
    Sanitize(name) + ".json"
  }

  /** The download name keeps the event name's length and its letters and digits,
      holds nothing else but '_' before the ".json" suffix, and is left alone by a
      second sanitizing. */
  lemma ExportFileNameSpec(name: string)
    ensures var f := ExportFileName(name);
      && |f| == |name| + 5 && f[|name|..] == ".json"
      && (forall i :: 0 <= i < |name| ==> FileNameChar(f[i]) || f[i] == '_')
      && (forall i :: 0 <= i < |name| && FileNameChar(name[i]) ==> f[i] == name[i])
      && Sanitize(f[..|name|]) == f[..|name|]
  {
    var f := ExportFileName(name);
    assert f[..|name|] == Sanitize(name);
  }

  // ─── Import ─────────────────────────────────────────────────────────────────

  /** `createItem(it.name || '', it.price || 0, it.color || '#cccccc')`. */
  function ImportItem(it: FileItem, id: string): (item: Item)
    ensures item.id == id && item.name == Text.Trim(it.name)
    ensures item.price == SafeParseFloat(it.price)
    ensures item.color == Text.Trim(if it.color == "" then DefaultColor else it.color)
  {
    CreateItem(id, it.name, it.price, if it.color == "" then DefaultColor else it.color)
  }

  /** The default color survives the trimming `createItem` applies. */
  lemma DefaultColorKept()
    ensures Text.Trim(DefaultColor) == DefaultColor
  {
    Text.TrimKeepsUnpadded(DefaultColor);
  }

  /** `items.map(...)` with `ids[i]` as the i-th generated id; a `null` entry throws,
      which leaves no list at all. */
  function ImportItems(entries: seq<Option<FileItem>>, ids: seq<string>): (r: Option<seq<Item>>)
    requires |ids| == |entries|
    ensures r.None? <==> None in entries
    ensures r.Some? ==> |r.value| == |entries|
    ensures r.Some? ==> forall i :: 0 <= i < |entries| ==> r.value[i] == ImportItem(entries[i].value, ids[i])
  {
    if None in entries then None
    else Some(seq(|entries|, i requires 0 <= i < |entries| && None !in entries => ImportItem(entries[i].value, ids[i])))
  }

  /** An exported item, imported under a new id, is the item itself with that id,
      provided its name and color have no surrounding white space and its color is
      not empty. */
  lemma ImportExportedItem(item: Item, id: string)
    requires Text.Unpadded(item.name) && Text.Unpadded(item.color) && item.color != ""
    ensures ImportItem(FileItem(item.name, Some(item.price), item.color), id) == item.(id := id)
  {
    Text.TrimKeepsUnpadded(item.name);
    Text.TrimKeepsUnpadded(item.color);
  }

  /** The format check of the import handler: the file parsed to an object whose
      name is a string and whose items are an array. */
  predicate FileShaped(parsed: Option<FileData>)
  {
    parsed.Some? && parsed.value.name.Some? && parsed.value.items.Some?
  }

  /** The import handler on a parsed file (`None`: unparsable, `null` or not an
      object): the file is accepted exactly when its name is a string, its items an
      array and no entry `null`; the name is taken as it is, the items as created. */
  function ImportFile(parsed: Option<FileData>, ids: seq<string>): (r: Option<Imported>)
    requires parsed.Some? && parsed.value.items.Some? ==> |ids| == |parsed.value.items.value|
    ensures r.Some? <==>
      && parsed.Some? && parsed.value.name.Some? && parsed.value.items.Some?
      && None !in parsed.value.items.value
    ensures r.Some? ==>
      && r.value.name == parsed.value.name.value
      && r.value.items == ImportItems(parsed.value.items.value, ids).value
  {
    match parsed
    case None => None
    case Some(data) =>
      if data.name.None? || data.items.None? then None
      else
        var items := ImportItems(data.items.value, ids);
        if items.None? then None else Some(Imported(data.name.value, items.value))
  }

  /** Exporting an event and importing the file gives back its name and its items,
      under the new ids, as long as names and colors carry no surrounding white
      space and no color is empty. Without that condition there is no round trip: an
      empty color comes back as the default, and padding is trimmed away. Both can
      occur, for instance through an edited color or an imported all-space color. */
  lemma ExportImportRoundTrip(e: Event, ids: seq<string>)
    requires |ids| == |e.items|
    requires forall i :: 0 <= i < |e.items| ==>
      Text.Unpadded(e.items[i].name) && Text.Unpadded(e.items[i].color) && e.items[i].color != ""
    ensures ImportFile(Some(ExportData(e)), ids) ==
      Some(Imported(e.name, seq(|e.items|, i requires 0 <= i < |e.items| => e.items[i].(id := ids[i]))))
  {
    var d := ExportData(e);
    assert forall i :: 0 <= i < |d.items.value| ==> d.items.value[i].Some?;
    assert None !in d.items.value;
    var r := ImportFile(Some(d), ids);
    var expected := seq(|e.items|, i requires 0 <= i < |e.items| => e.items[i].(id := ids[i]));
    forall i | 0 <= i < |e.items|
      ensures r.value.items[i] == expected[i]
    {
      ImportExportedItem(e.items[i], ids[i]);
    }
    assert r.value.items == expected;
  }
}
