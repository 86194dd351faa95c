/**
 * The asset detail page wired into the router (frontend/src/pages/AssetDetail.tsx):
 * how each of its five tabs turns its section of the asset document into
 * label/value trees, tables and notes.
 */
module AssetDetail {
  import opened Common
  import opened Text
  import opened JsValue
  import opened ViewModel

  /** A `LabelValue` leaf: Yes/No for a boolean, the placeholder for any other falsy value, else the value. */
  function LeafCell(v: Value): (c: Cell)
    ensures v.Bool? ==> c == YesNo(v.b)
    ensures !v.Bool? && !Truthy(v) ==> c == Text(Placeholder)
    ensures Truthy(v) && !v.Bool? ==> c == Raw(v)
  {
    if v.Bool? then YesNo(v.b) else if !Truthy(v) then Text(Placeholder) else Raw(v)
  }

  function LabelValue(name: string, v: Value): Block {
    LabelTree(name, v, LeafCell)
  }

  /** A Hardware grid cell: Yes/No, the placeholder for null, pretty-printed JSON for objects and arrays, else `String(v)`. */
  function HardwareCell(v: Value): (c: Cell)
    ensures c.Text?
    ensures v.Bool? ==> c == YesNo(v.b)
    ensures v.Null? ==> c.text == Placeholder
    ensures (v.Obj? || v.Arr?) ==> c.text == Stringify(v, "")
    ensures (v.Num? || v.Str?) ==> c.text == JsString(v)
  {
    match v
    case Bool(b) => YesNo(b)
    case Null => Text(Placeholder)
    case Obj(_) => Text(Stringify(v, ""))
    case Arr(_) => Text(Stringify(v, ""))
    case _ => Text(JsString(v))
  }

  /** A Users or Security cell once the value is known to be present: Yes/No for booleans, else the value. */
  function YesNoOrAsIs(v: Value): (c: Cell)
    ensures c.Text? <==> v.Bool?
    ensures v.Bool? ==> c == YesNo(v.b)
    ensures c.Raw? ==> c.value == v
  {
    if v.Bool? then YesNo(v.b) else Raw(v)
  }

  /** A Security grid cell: `typeof val === "boolean" ? Yes/No : val ?? "—"`. */
  function SecurityCell(v: Value): (c: Cell)
    ensures c == Text(Placeholder) <==> v.Null?
    ensures v.Bool? ==> c == YesNo(v.b)
    ensures !v.Null? && !v.Bool? ==> c == Raw(v)
  {
    CellFor(Some(v), YesNoOrAsIs)
  }

  // ---------------------------------------------------------------------------
  // Tabs

  /**
   * Asset Details: one `LabelValue` per own key (`Reflect.ownKeys`). An
   * array's own keys are its indices followed by "length"; values that are
   * not objects show nothing.
   */
  function AssetDetailsTab(details: Value): (r: seq<Block>)
    ensures details.Obj? ==> r == LabelTrees(details.fields, LeafCell)
    ensures details.Arr? ==> |r| == |details.items| + 1
                             && r[|details.items|] == Field("length", LeafCell(Num(|details.items|)))
                             && forall i :: 0 <= i < |details.items| ==> r[i] == LabelValue(NatToString(i), details.items[i])
    ensures !details.Obj? && !details.Arr? ==> r == []
  {
    match details
    case Obj(fields) => LabelTrees(fields, LeafCell)
    case Arr(items) =>
      seq(|items|, i requires 0 <= i < |items| => LabelValue(NatToString(i), items[i]))
      + [LabelValue("length", Num(|items|))]
    case _ => []
  }

  /**
   * One entry of a Hardware item under its own heading: an array becomes a
   * first-row table of `HardwareCell`s, anything else the label/value list
   * of its entries (which throws for null).
   */
  function HardwareSection(title: string, content: Value): (r: Rendered<Block>)
    ensures r.Shown? ==> r.view.Heading? && r.view.title == title
    ensures content.Arr? ==> r == Titled(title, FirstRowTable(content.items, HardwareCell))
    ensures content.Null? ==> r.Throws?
    ensures !content.Arr? && !content.Null? ==> r == Shown(Heading(title, LabelTrees(Entries(content).value, LeafCell)))
  {
    if content.Arr? then Titled(title, FirstRowTable(content.items, HardwareCell))
    else
      match Entries(content)
      case None => Throws
      case Some(kvs) => Shown(Heading(title, LabelTrees(kvs, LeafCell)))
  }

  /** The entries of one Hardware item, each under its heading. */
  function HardwareEntries(kvs: seq<(string, Value)>): (rs: seq<Rendered<Block>>)
    ensures |rs| == |kvs| && forall j :: 0 <= j < |kvs| ==> rs[j] == HardwareSection(kvs[j].0, kvs[j].1)
  {
    seq(|kvs|, j requires 0 <= j < |kvs| => HardwareSection(kvs[j].0, kvs[j].1))
  }

  /** Every entry of one Hardware item, each under its own heading, in entry order. */
  function HardwareItem(item: Value): (r: Rendered<seq<Block>>)
    ensures item.Null? ==> r.Throws?
    ensures !item.Null? ==> var kvs := Entries(item).value;
              r.Shown? <==> forall j :: 0 <= j < |kvs| ==> HardwareSection(kvs[j].0, kvs[j].1).Shown?
    ensures r.Shown? ==> var kvs := Entries(item).value;
              |r.view| == |kvs| && forall j :: 0 <= j < |kvs| ==> HardwareSection(kvs[j].0, kvs[j].1) == Shown(r.view[j])
  {
    match Entries(item)
    case None => Throws
    case Some(kvs) => Collect(HardwareEntries(kvs))
  }

  /** The Hardware items one by one. */
  function HardwareItems(items: seq<Value>): (rs: seq<Rendered<seq<Block>>>)
    ensures |rs| == |items| && forall i :: 0 <= i < |items| ==> rs[i] == HardwareItem(items[i])
  {
    seq(|items|, i requires 0 <= i < |items| => HardwareItem(items[i]))
  }

  /** Hardware: every entry of every item, item after item; anything but an array has no `map` and throws. */
  function HardwareTab(hardware: Value): (r: Rendered<seq<Block>>)
    ensures !hardware.Arr? ==> r.Throws?
    ensures hardware.Arr? ==> (r.Shown? <==> forall i :: 0 <= i < |hardware.items| ==> HardwareItem(hardware.items[i]).Shown?)
    ensures hardware.Arr? && r.Shown? ==> r.view == Concat(Views(HardwareItems(hardware.items)))
  {
    if !hardware.Arr? then Throws
    else CollectAll(HardwareItems(hardware.items))
  }

  /**
   * Software and Users: a note when the list has length 0, otherwise one
   * union table over all rows. A value without `flatMap` (anything but an
   * array) throws.
   */
  function ListTab(list: Value, empty: string, present: Value -> Cell): (r: Rendered<seq<Block>>)
    ensures list == Arr([]) ==> r == Shown([Note(empty)])
    ensures list.Arr? && list.items != [] ==>
              r == (match UnionTable(list.items, present)
                    case Shown(t) => Shown([t])
                    case Throws => Throws)
    ensures !list.Arr? && Get(list, "length") != Some(Num(0)) ==> r.Throws?
  {
    if Get(list, "length") == Some(Num(0)) then Shown([Note(empty)])
    else if !list.Arr? then Throws
    else
      match UnionTable(list.items, present)
      case Shown(t) => Shown([t])
      case Throws => Throws
  }

  function SoftwareTab(software: Value): Rendered<seq<Block>> {
    ListTab(software, "No software found.", AsIs)
  }

  function UsersTab(users: Value): Rendered<seq<Block>> {
    ListTab(users, "No users found.", YesNoOrAsIs)
  }

  /**
   * One entry of a Security item under its heading: an array is a first-row
   * table, an object (or null, which throws) a label/value list, and any
   * other value a line of `String(data)`.
   */
  function SecurityEntry(title: string, data: Value): (r: Rendered<Block>)
    ensures r.Shown? ==> r.view.Heading? && r.view.title == title
    ensures data.Null? ==> r.Throws?
    ensures data.Arr? ==> r == Titled(title, FirstRowTable(data.items, SecurityCell))
    ensures data.Obj? ==> r == Shown(Heading(title, LabelTrees(data.fields, LeafCell)))
    ensures (data.Bool? || data.Num? || data.Str?) ==> r == Shown(Heading(title, [Note(JsString(data))]))
  {
    match data
    case Arr(items) => Titled(title, FirstRowTable(items, SecurityCell))
    case Obj(fields) => Shown(Heading(title, LabelTrees(fields, LeafCell)))
    case Null => Throws
    case _ => Shown(Heading(title, [Note(JsString(data))]))
  }

  /** Security: a note for a list of length 0, otherwise every entry of every item, item after item. */
  function SecurityTab(security: Value): Rendered<seq<Block>> {
    ItemsTab(security, "No security data found.", SecurityEntry)
  }

  // ---------------------------------------------------------------------------
  // Properties of the page

  /** A leaf shows the placeholder exactly for the falsy values other than `false`. */
  lemma LeafPlaceholder(v: Value)
    ensures LeafCell(v) == Text(Placeholder) <==> (v.Null? || v == Num(0) || v == Str(""))
  {
  }

  /**
   * In a Software or Users row every column has a cell, and a cell is the
   * placeholder exactly when the row lacks the key or holds null there; `0`
   * and `""` are kept.
   */
  lemma SoftwareCells(items: seq<Value>, i: nat, j: nat)
    requires items != [] && forall k :: 0 <= k < |items| ==> !items[k].Null?
    requires i < |items|
    ensures SoftwareTab(Arr(items)).Shown?
    ensures var t := SoftwareTab(Arr(items)).view[0];
            j < |t.headers| ==>
              |t.rows[i]| == |t.headers|
              && (t.rows[i][j] == Text(Placeholder) <==> Nullish(Get(items[i], t.headers[j])))
              && (Get(items[i], t.headers[j]) == Some(Num(0)) ==> t.rows[i][j] == Raw(Num(0)))
  {
  }

  /**
   * The Software columns are exactly the keys present in some row, each
   * once: a key that only a later row has still gets a column.
   */
  lemma SoftwareColumns(items: seq<Value>, i: nat, k: string)
    requires items != [] && forall n :: 0 <= n < |items| ==> !items[n].Null?
    requires i < |items| && k in Keys(items[i]).value
    ensures SoftwareTab(Arr(items)).Shown?
    ensures k in SoftwareTab(Arr(items)).view[0].headers
  {
  }

  /**
   * A Users cell holding a boolean shows Yes or No; the Software tab shows
   * the same boolean as the raw value.
   */
  lemma UsersBooleans(items: seq<Value>, i: nat, j: nat)
    requires items != [] && forall k :: 0 <= k < |items| ==> !items[k].Null?
    requires i < |items|
    ensures UsersTab(Arr(items)).Shown? && SoftwareTab(Arr(items)).Shown?
    ensures var u := UsersTab(Arr(items)).view[0];
            var s := SoftwareTab(Arr(items)).view[0];
            u.headers == s.headers
            && (j < |u.headers| && Get(items[i], u.headers[j]).Some? && Get(items[i], u.headers[j]).value.Bool? ==>
                  u.rows[i][j] == YesNo(Get(items[i], u.headers[j]).value.b)
                  && s.rows[i][j] == Raw(Get(items[i], u.headers[j]).value))
  {
  }

  /** The empty lists show their notes rather than a table. */
  lemma EmptyListNotes()
    ensures SoftwareTab(Arr([])) == Shown([Note("No software found.")])
    ensures UsersTab(Arr([])) == Shown([Note("No users found.")])
    ensures SecurityTab(Arr([])) == Shown([Note("No security data found.")])
  {
  }

  /**
   * A Hardware array takes its headers from its first row alone, and each
   * row has one cell per value of its own, so a later row with more keys
   * has more cells than there are headers.
   */
  lemma HardwareFirstRowColumns()
    ensures var content := Arr([Obj([("Name", Str("A"))]), Obj([("Name", Str("B")), ("Size", Num(8))])]);
            var r := HardwareSection("Disk", content);
            r.Shown? && r.view.body[0].headers == ["Name"]
            && |r.view.body[0].rows[1]| == 2
  {
    var content := Arr([Obj([("Name", Str("A"))]), Obj([("Name", Str("B")), ("Size", Num(8))])]);
    assert Keys(content.items[0]).value == ["Name"];
    assert |Values(content.items[1]).value| == 2;
  }

  /**
   * The Hardware tab shows exactly the sections of the items' entries: a
   * block is on the tab when and only when it is the section of some entry
   * of some item, so every block is a heading titled by an entry's key.
   */
  lemma HardwareTabShowsEntries(hardware: Value, b: Block)
    requires HardwareTab(hardware).Shown?
    ensures hardware.Arr?
    ensures b in HardwareTab(hardware).view <==>
              exists i, j :: 0 <= i < |hardware.items| && !hardware.items[i].Null?
                             && 0 <= j < |Entries(hardware.items[i]).value|
                             && HardwareSection(Entries(hardware.items[i]).value[j].0, Entries(hardware.items[i]).value[j].1) == Shown(b)
    ensures b in HardwareTab(hardware).view ==> b.Heading?
  {
    var items := hardware.items;
    var parts := HardwareItems(items);
    ConcatMembers(Views(parts), b);
    if b in HardwareTab(hardware).view {
      var i :| 0 <= i < |parts| && b in Views(parts)[i];
      var kvs := Entries(items[i]).value;
      var j :| 0 <= j < |parts[i].view| && parts[i].view[j] == b;
      assert HardwareSection(kvs[j].0, kvs[j].1) == Shown(b);
    }
  }

  /**
   * A Security array entry: the columns are the keys of the first row (none
   * when it is missing or falsy), each row lists its own values, and a cell
   * is the placeholder exactly for null, Yes/No for a boolean and otherwise
   * the value; it throws exactly when some row is null.
   */
  lemma SecurityArrayTable(title: string, items: seq<Value>)
    ensures SecurityEntry(title, Arr(items)).Shown? <==> forall i :: 0 <= i < |items| ==> !items[i].Null?
    ensures SecurityEntry(title, Arr(items)).Shown? ==>
              var h := SecurityEntry(title, Arr(items)).view;
              h.title == title && |h.body| == 1 && h.body[0].Table?
              && h.body[0].headers == (if items != [] && Truthy(items[0]) then Keys(items[0]).value else [])
              && |h.body[0].rows| == |items|
              && forall i, j :: 0 <= i < |items| && 0 <= j < |Values(items[i]).value| ==>
                   var v := Values(items[i]).value[j];
                   var c := h.body[0].rows[i][j];
                   (c == Text(Placeholder) <==> v.Null?)
                   && (v.Bool? ==> c == YesNo(v.b))
                   && (!v.Null? && !v.Bool? ==> c == Raw(v))
  {
  }

  /** A null Security entry passes `typeof data === "object"` and then makes `Object.entries` throw. */
  lemma SecurityNullThrows(title: string)
    ensures SecurityTab(Arr([Obj([(title, Null)])])).Throws?
  {
    var section := Obj([(title, Null)]);
    assert EntriesItem(section, SecurityEntry).Throws? by {
      assert Entries(section) == Some([(title, Null)]);
      assert SecurityEntry(title, Null).Throws?;
    }
  }
}
