/**
 * The older asset detail page (Frontend/src/pages/AssetDetail.tsx): the same
 * five tabs, with a leaf formatter that has no boolean case, special cases
 * for the ComputerSystem and OperatingSystem hardware sections and for
 * antivirus security types, and union or single-row tables.
 */
module LegacyAssetDetail {
  import opened Common
  import opened Text
  import opened JsValue
  import opened ViewModel
  import AssetDetail

  /** A `LabelValue` leaf: `value || "—"`. */
  function LeafCell(v: Value): (c: Cell)
    ensures Truthy(v) ==> c == Raw(v)
    ensures !Truthy(v) ==> c == Text(Placeholder)
  {
    if Truthy(v) then Raw(v) else Text(Placeholder)
  }

  function LabelValue(name: string, v: Value): Block {
    LabelTree(name, v, LeafCell)
  }

  /** Asset Details: one `LabelValue` per entry of `Object.entries`, which throws for null. */
  function AssetDetailsTab(details: Value): (r: Rendered<seq<Block>>)
    ensures r.Throws? <==> details.Null?
    ensures details.Obj? ==> r == Shown(LabelTrees(details.fields, LeafCell))
    ensures details.Arr? ==> r.Shown? && |r.view| == |details.items|
  {
    match Entries(details)
    case None => Throws
    case Some(kvs) => Shown(LabelTrees(kvs, LeafCell))
  }

  /** JavaScript's `key in v`: throws (None) unless `v` is an object or an array. */
  function HasProperty(v: Value, key: string): (r: Option<bool>)
    ensures r.Some? <==> (v.Obj? || v.Arr?)
    ensures v.Obj? ==> r == Some(key in Keys(v).value)
  {
    match v
    case Obj(fields) => Some(key in KeysOf(fields))
    case Arr(items) => Some(Get(v, key).Some?)
    case _ => None
  }

  /** A named section shown as the label/value list of its value. */
  function NamedSection(title: string, data: Value): (r: Rendered<Block>)
    ensures r.Throws? <==> data.Null?
    ensures r.Shown? ==> r.view == Heading(title, LabelTrees(Entries(data).value, LeafCell))
  {
    match Entries(data)
    case None => Throws
    case Some(kvs) => Shown(Heading(title, LabelTrees(kvs, LeafCell)))
  }

  /** A `val ?? "—"` cell of a value read with `Object.values`. */
  function PresentCell(v: Value): (c: Cell)
    ensures c == Text(Placeholder) <==> v.Null?
    ensures !v.Null? ==> c == Raw(v)
  {
    CellFor(Some(v), AsIs)
  }

  /**
   * One Hardware item. A ComputerSystem entry wins, then an OperatingSystem
   * entry; otherwise only the first entry is shown, as a union table when it
   * holds an array and as a single-row table otherwise. An item with no
   * entries throws when its first entry is destructured.
   */
  function HardwareItem(section: Value): (r: Rendered<Block>)
    ensures !section.Obj? && !section.Arr? ==> r.Throws?
    ensures section.Obj? && "ComputerSystem" in KeysOf(section.fields) ==>
              r == NamedSection("ComputerSystem", Get(section, "ComputerSystem").value)
    ensures section.Obj? && "ComputerSystem" !in KeysOf(section.fields) && "OperatingSystem" in KeysOf(section.fields) ==>
              r == NamedSection("OperatingSystem", Get(section, "OperatingSystem").value)
    ensures section.Obj? && "ComputerSystem" !in KeysOf(section.fields) && "OperatingSystem" !in KeysOf(section.fields) ==>
              if section.fields == [] then r.Throws?
              else
                var (name, data) := section.fields[0];
                r == Titled(name, if data.Arr? then UnionTable(data.items, AsIs) else SingleRowTable(data))
  {
    match HasProperty(section, "ComputerSystem")
    case None => Throws
    case Some(hasCs) =>
      if hasCs then NamedSection("ComputerSystem", Get(section, "ComputerSystem").value)
      else if HasProperty(section, "OperatingSystem") == Some(true) then
        NamedSection("OperatingSystem", Get(section, "OperatingSystem").value)
      else
        var kvs := Entries(section).value;
        if kvs == [] then Throws
        else
          var (hardwareType, data) := kvs[0];
          Titled(hardwareType, if data.Arr? then UnionTable(data.items, AsIs) else SingleRowTable(data))
  }

  /** The Hardware items one by one. */
  function HardwareItems(items: seq<Value>): (rs: seq<Rendered<Block>>)
    ensures |rs| == |items| && forall i :: 0 <= i < |items| ==> rs[i] == HardwareItem(items[i])
  {
    seq(|items|, i requires 0 <= i < |items| => HardwareItem(items[i]))
  }

  /** Hardware: one block per item, in item order; anything but an array throws. */
  function HardwareTab(hardware: Value): (r: Rendered<seq<Block>>)
    ensures !hardware.Arr? ==> r.Throws?
    ensures hardware.Arr? ==> (r.Shown? <==> forall i :: 0 <= i < |hardware.items| ==> HardwareItem(hardware.items[i]).Shown?)
    ensures hardware.Arr? && r.Shown? ==>
              |r.view| == |hardware.items|
              && forall i :: 0 <= i < |hardware.items| ==> HardwareItem(hardware.items[i]) == Shown(r.view[i])
  {
    if !hardware.Arr? then Throws
    else Collect(HardwareItems(hardware.items))
  }

  /** Software and Users: the note for length 0, otherwise a union table with `?? "—"` cells. */
  function ListTab(list: Value, empty: string): Rendered<seq<Block>> {
    AssetDetail.ListTab(list, empty, AsIs)
  }

  function SoftwareTab(software: Value): Rendered<seq<Block>> {
    ListTab(software, "No software found.")
  }

  function UsersTab(users: Value): Rendered<seq<Block>> {
    ListTab(users, "No users found.")
  }

  /** `securityType.toLowerCase().includes("antivirus")`, for ASCII letters. */
  predicate IsAntivirus(securityType: string) {
    Occurs("antivirus", AsciiLower(securityType))
  }

  /**
   * One Security entry: antivirus types as label/value lists, arrays as
   * first-row tables, anything else as a single-row table; every table cell
   * is `val ?? "—"`.
   */
  function SecurityEntry(title: string, data: Value): (r: Rendered<Block>)
    ensures data.Null? ==> r.Throws?
    ensures r.Shown? ==> r.view.Heading? && r.view.title == title
    ensures IsAntivirus(title) ==> r == NamedSection(title, data)
    ensures !IsAntivirus(title) && data.Arr? ==> r == Titled(title, FirstRowTable(data.items, PresentCell))
    ensures !IsAntivirus(title) && !data.Arr? ==> r == Titled(title, SingleRowTable(data))
  {
    if IsAntivirus(title) then NamedSection(title, data)
    else Titled(title, if data.Arr? then FirstRowTable(data.items, PresentCell) else SingleRowTable(data))
  }

  /** Security: a note for a list of length 0, otherwise every entry of every item, item after item. */
  function SecurityTab(security: Value): Rendered<seq<Block>> {
    ItemsTab(security, "No security data found.", SecurityEntry)
  }

  // ---------------------------------------------------------------------------
  // Properties of the page, and how it differs from the current one

  /** The legacy leaf shows the placeholder for every falsy value, `false` included. */
  lemma LeafPlaceholder(v: Value)
    ensures LeafCell(v) == Text(Placeholder) <==> !Truthy(v)
  {
  }

  /** The two pages' leaves differ exactly on booleans: Yes/No now, the raw value or "—" before. */
  lemma LeavesDifferOnlyOnBooleans(v: Value)
    ensures LeafCell(v) == AssetDetail.LeafCell(v) <==> !v.Bool?
  {
  }

  /** A falsy value other than null is "—" in a leaf but kept in a `??` cell. */
  lemma FalsyInLeafAndCell(v: Value)
    requires !Truthy(v) && !v.Null?
    ensures LeafCell(v) == Text(Placeholder)
    ensures PresentCell(v) == Raw(v) && CellFor(Some(v), AsIs) == Raw(v)
  {
  }

  /**
   * A hardware item with a ComputerSystem key shows that section alone,
   * whatever else the item holds.
   */
  lemma ComputerSystemWins(cs: Value, rest: seq<(string, Value)>)
    ensures HardwareItem(Obj([("ComputerSystem", cs)] + rest)) == NamedSection("ComputerSystem", cs)
  {
    var kvs := [("ComputerSystem", cs)] + rest;
    assert KeysOf(kvs)[0] == "ComputerSystem";
  }

  /** Without the two special keys only the first entry is shown; an empty item throws. */
  lemma FirstEntryOnly(name: string, data: Value, rest: seq<(string, Value)>)
    requires name != "ComputerSystem" && name != "OperatingSystem"
    requires "ComputerSystem" !in KeysOf(rest) && "OperatingSystem" !in KeysOf(rest)
    requires data.Obj?
    ensures HardwareItem(Obj([(name, data)] + rest)) == Shown(Heading(name, [SingleRowTable(data).view]))
    ensures HardwareItem(Obj([])).Throws?
  {
    var kvs := [(name, data)] + rest;
    assert KeysOf(kvs) == [name] + KeysOf(rest);
  }

  /**
   * The antivirus test ignores case and position: a title holding
   * "antivirus" in any mix of cases shows its data as a label/value list,
   * even when the data is an array.
   */
  lemma AntivirusAnyCase(pre: string, word: string, post: string, data: Value)
    requires AsciiLower(word) == "antivirus"
    ensures IsAntivirus(pre + word + post)
    ensures SecurityEntry(pre + word + post, data) == NamedSection(pre + word + post, data)
  {
    LowerConcat(pre + word, post);
    LowerConcat(pre, word);
    OccursIn(AsciiLower(pre), "antivirus", AsciiLower(post));
  }

  /**
   * Column policies side by side: with a first row that is an object with
   * distinct keys, the first-row table's columns (Security arrays) are the
   * leading columns of the union table (hardware arrays and Software), and
   * a key that only a later row has is a union column but not a first-row one.
   */
  lemma FirstRowColumnsLeadUnion(items: seq<Value>, f: Value -> Cell, g: Value -> Cell, i: nat, k: string)
    requires items != [] && items[0].Obj?
    requires forall n :: 0 <= n < |items| ==> !items[n].Null?
    requires forall m, n :: 0 <= m < n < |items[0].fields| ==> items[0].fields[m].0 != items[0].fields[n].0
    ensures UnionTable(items, g).Shown? && FirstRowTable(items, f).Shown?
    ensures var u := UnionTable(items, g).view.headers;
            var h := FirstRowTable(items, f).view.headers;
            |h| <= |u| && u[..|h|] == h
    ensures i < |items| && k in Keys(items[i]).value && k !in Keys(items[0]).value ==>
              k in UnionTable(items, g).view.headers && k !in FirstRowTable(items, f).view.headers
  {
    var ks := RowKeys(items);
    var first := Keys(items[0]).value;
    assert first == KeysOf(items[0].fields);
    assert forall m :: 0 <= m < |first| ==> first[m] == items[0].fields[m].0;
    UnionStartsWithFirstRow(ks);
  }

  /**
   * A hardware item whose first entry (with neither special key present)
   * holds an array of rows shows a union table: every key of every row
   * becomes a column, and each row's cell in that column is what the row
   * holds under the key, or "—".
   */
  lemma HardwareArrayUnion(name: string, rows: seq<Value>, rest: seq<(string, Value)>, i: nat, k: string)
    requires name != "ComputerSystem" && name != "OperatingSystem"
    requires "ComputerSystem" !in KeysOf(rest) && "OperatingSystem" !in KeysOf(rest)
    requires forall n :: 0 <= n < |rows| ==> !rows[n].Null?
    requires i < |rows| && k in Keys(rows[i]).value
    ensures HardwareItem(Obj([(name, Arr(rows))] + rest)).Shown?
    ensures var h := HardwareItem(Obj([(name, Arr(rows))] + rest)).view;
            h.title == name && h.body[0].Table?
            && exists j :: 0 <= j < |h.body[0].headers| && h.body[0].headers[j] == k
                           && h.body[0].rows[i][j] == CellFor(Get(rows[i], k), AsIs)
  {
    var kvs := [(name, Arr(rows))] + rest;
    assert KeysOf(kvs) == [name] + KeysOf(rest);
    assert kvs[0] == (name, Arr(rows));
    assert HardwareItem(Obj(kvs)) == Titled(name, UnionTable(rows, AsIs));
    var t := UnionTable(rows, AsIs).view;
    assert k in t.headers;
    var j :| 0 <= j < |t.headers| && t.headers[j] == k;
    assert t.rows[i][j] == CellFor(Get(rows[i], k), AsIs);
  }

  /**
   * The two pages lay out a Security array the same way (first-row columns,
   * each row's own values) and their cells differ exactly on booleans: Yes/No
   * now, the raw value before.
   */
  lemma SecurityArraysDifferOnBooleans(title: string, items: seq<Value>, i: nat, j: nat)
    requires !IsAntivirus(title)
    requires forall n :: 0 <= n < |items| ==> !items[n].Null?
    requires i < |items| && j < |Values(items[i]).value|
    ensures SecurityEntry(title, Arr(items)).Shown? && AssetDetail.SecurityEntry(title, Arr(items)).Shown?
    ensures var old_ := SecurityEntry(title, Arr(items)).view.body[0];
            var new_ := AssetDetail.SecurityEntry(title, Arr(items)).view.body[0];
            old_.headers == new_.headers && |old_.rows[i]| == |new_.rows[i]|
            && (old_.rows[i][j] == new_.rows[i][j] <==> !Values(items[i]).value[j].Bool?)
  {
  }
}
