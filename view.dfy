/**
 * What an asset page shows, independent of React: label/value trees, tables
 * with a header row and cell rows, headings and notes, and whether rendering
 * a tab throws. Both versions of the asset page build their tabs from the
 * pieces defined here; they differ in the leaf and cell formatters they pass
 * and in where a table takes its columns from.
 */
module ViewModel {
  import opened Common
  import opened Text
  import opened JsValue

  /** The placeholder shown for a missing value: an em dash. */
  const Placeholder: string := "\U{2014}"

  /** A table cell or leaf: text the page formats itself, or a JSON value handed to React as is. */
  datatype Cell = Text(text: string) | Raw(value: Value)

  datatype Block =
    | Field(name: string, cell: Cell)              // "label:" followed by one leaf
    | Group(name: string, children: seq<Block>)    // "label:" in bold over an indented list
    | Heading(title: string, body: seq<Block>)      // an <h3> title followed by its content
    | Table(headers: seq<string>, rows: seq<seq<Cell>>)
    | Note(text: string)                            // a line of plain text

  /** The outcome of rendering: a view, or a TypeError thrown while building it. */
  datatype Rendered<+T> = Shown(view: T) | Throws

  function YesNo(b: bool): Cell {
    Text(if b then "Yes" else "No")
  }

  /** `v ?? "—"` applied to a property read; `present` formats a value that is there. */
  function CellFor(o: Option<Value>, present: Value -> Cell): (c: Cell)
    ensures Nullish(o) ==> c == Text(Placeholder)
    ensures !Nullish(o) ==> c == present(o.value)
  {
    if Nullish(o) then Text(Placeholder) else present(o.value)
  }

  /** A cell holding the value itself. */
  function AsIs(v: Value): Cell {
    Raw(v)
  }

  /** `xss.flat()`. */
  function Concat<U>(xss: seq<seq<U>>): seq<U> {
    if xss == [] then [] else xss[0] + Concat(xss[1..])
  }

  lemma {:induction false} ConcatElements<U>(xss: seq<seq<U>>)
    ensures forall x :: x in Concat(xss) ==> exists i :: 0 <= i < |xss| && x in xss[i]
  {
    if xss != [] {
      ConcatElements(xss[1..]);
      forall x | x in Concat(xss[1..]) ensures exists i :: 0 <= i < |xss| && x in xss[i] {
        var i :| 0 <= i < |xss[1..]| && x in xss[1..][i];
        assert x in xss[i + 1];
      }
    }
  }

  // ---------------------------------------------------------------------------
  // Label/value trees

  /**
   * The `LabelValue` component: a plain object (not null, not an array)
   * becomes a group of its entries, in entry order; every other value is a
   * leaf formatted by `leaf`.
   */
  function LabelTree(name: string, v: Value, leaf: Value -> Cell): (b: Block)
    ensures (b.Field? || b.Group?) && b.name == name
    ensures b.Group? <==> v.Obj?
    ensures !v.Obj? ==> b == Field(name, leaf(v))
    ensures v.Obj? ==> |b.children| == |v.fields|
                       && forall i :: 0 <= i < |v.fields| ==>
                            (b.children[i].Field? || b.children[i].Group?) && b.children[i].name == v.fields[i].0
    decreases v
  {
    match v
    case Obj(fields) =>
      Group(name, seq(|fields|, i requires 0 <= i < |fields| =>
                        assert fields[i] in fields;
                        LabelTree(fields[i].0, fields[i].1, leaf)))
    case _ => Field(name, leaf(v))
  }

  /** `Object.entries(x).map(([k, v]) => <LabelValue label={k} value={v} />)`. */
  function LabelTrees(kvs: seq<(string, Value)>, leaf: Value -> Cell): (bs: seq<Block>)
    ensures |bs| == |kvs|
    ensures forall i :: 0 <= i < |kvs| ==> bs[i] == LabelTree(kvs[i].0, kvs[i].1, leaf)
  {
    seq(|kvs|, i requires 0 <= i < |kvs| => LabelTree(kvs[i].0, kvs[i].1, leaf))
  }

  /** The leaves of a value, depth first: the reference a label tree is checked against. */
  function Leaves(name: string, v: Value): seq<(string, Value)>
    decreases v
  {
    match v
    case Obj(fields) =>
      Concat(seq(|fields|, i requires 0 <= i < |fields| =>
                   assert fields[i] in fields;
                   Leaves(fields[i].0, fields[i].1)))
    case _ => [(name, v)]
  }

  /** Every leaf is a leaf indeed: never a plain object. */
  lemma {:induction false} LeavesAreNotObjects(name: string, v: Value)
    ensures forall kv :: kv in Leaves(name, v) ==> !kv.1.Obj?
    decreases v
  {
    if v.Obj? {
      var parts: seq<seq<(string, Value)>> := seq(|v.fields|, i requires 0 <= i < |v.fields| => Leaves(v.fields[i].0, v.fields[i].1));
      forall i | 0 <= i < |v.fields|
        ensures forall kv :: kv in parts[i] ==> !kv.1.Obj?
      {
        assert v.fields[i] in v.fields;
        LeavesAreNotObjects(v.fields[i].0, v.fields[i].1);
      }
      ConcatElements(parts);
    }
  }

  /** The name/leaf pairs a block shows, in reading order. */
  function FieldsOf(b: Block): seq<(string, Cell)>
    decreases b
  {
    match b
    case Field(n, c) => [(n, c)]
    case Group(_, children) => FieldsOfAll(children)
    case Heading(_, body) => FieldsOfAll(body)
    case _ => []
  }

  function FieldsOfAll(bs: seq<Block>): seq<(string, Cell)>
    decreases bs
  {
    Concat(seq(|bs|, i requires 0 <= i < |bs| => assert bs[i] in bs; FieldsOf(bs[i])))
  }

  function FormatLeaves(ls: seq<(string, Value)>, leaf: Value -> Cell): (r: seq<(string, Cell)>)
    ensures |r| == |ls| && forall i :: 0 <= i < |ls| ==> r[i] == (ls[i].0, leaf(ls[i].1))
  {
    seq(|ls|, i requires 0 <= i < |ls| => (ls[i].0, leaf(ls[i].1)))
  }

  lemma {:induction false} FormatConcat(lss: seq<seq<(string, Value)>>, leaf: Value -> Cell)
    ensures FormatLeaves(Concat(lss), leaf)
         == Concat(seq(|lss|, i requires 0 <= i < |lss| => FormatLeaves(lss[i], leaf)))
  {
    if lss != [] {
      FormatConcat(lss[1..], leaf);
      var m := seq(|lss|, i requires 0 <= i < |lss| => FormatLeaves(lss[i], leaf));
      assert m[1..] == seq(|lss| - 1, i requires 0 <= i < |lss| - 1 => FormatLeaves(lss[1..][i], leaf));
      assert FormatLeaves(lss[0] + Concat(lss[1..]), leaf)
          == FormatLeaves(lss[0], leaf) + FormatLeaves(Concat(lss[1..]), leaf);
    }
  }

  /**
   * A label tree shows exactly the leaves of its value, depth first, each
   * through the leaf formatter: nothing is dropped, repeated or reordered.
   */
  lemma {:induction false} LabelTreeShowsLeaves(name: string, v: Value, leaf: Value -> Cell)
    ensures FieldsOf(LabelTree(name, v, leaf)) == FormatLeaves(Leaves(name, v), leaf)
    decreases v
  {
    if v.Obj? {
      var fs := v.fields;
      var trees := LabelTree(name, v, leaf).children;
      var parts := seq(|fs|, i requires 0 <= i < |fs| => Leaves(fs[i].0, fs[i].1));
      var shown := seq(|trees|, i requires 0 <= i < |trees| => FieldsOf(trees[i]));
      var formatted := seq(|parts|, i requires 0 <= i < |parts| => FormatLeaves(parts[i], leaf));
      forall i | 0 <= i < |fs|
        ensures shown[i] == formatted[i]
      {
        assert fs[i] in fs;
        LabelTreeShowsLeaves(fs[i].0, fs[i].1, leaf);
      }
      assert shown == formatted;
      FormatConcat(parts, leaf);
    }
  }

  // ---------------------------------------------------------------------------
  // Tables

  /** `Object.keys(item)` of every row; only defined when no row is null. */
  function RowKeys(items: seq<Value>): (ks: seq<seq<string>>)
    requires forall i :: 0 <= i < |items| ==> !items[i].Null?
    ensures |ks| == |items| && forall i :: 0 <= i < |items| ==> ks[i] == Keys(items[i]).value
  {
    seq(|items|, i requires 0 <= i < |items| => Keys(items[i]).value)
  }

  /**
   * A table whose columns are every key of every row, in first-seen order
   * (`Array.from(new Set(items.flatMap(Object.keys)))`), and whose cells read
   * each column from each row with `?? "—"`. It throws when a row is null.
   */
  function UnionTable(items: seq<Value>, present: Value -> Cell): (r: Rendered<Block>)
    ensures r.Shown? <==> forall i :: 0 <= i < |items| ==> !items[i].Null?
    ensures r.Shown? ==> r.view.Table?
    ensures r.Shown? ==> forall i, j :: 0 <= i < j < |r.view.headers| ==> r.view.headers[i] != r.view.headers[j]
    ensures r.Shown? ==> forall i, k :: 0 <= i < |items| && k in Keys(items[i]).value ==> k in r.view.headers
    ensures r.Shown? ==> forall h :: h in r.view.headers ==>
                           exists i :: 0 <= i < |items| && h in Keys(items[i]).value
    ensures r.Shown? ==> |r.view.rows| == |items|
    ensures r.Shown? ==> forall i :: 0 <= i < |items| ==> |r.view.rows[i]| == |r.view.headers|
    ensures r.Shown? ==> forall i, j :: 0 <= i < |items| && 0 <= j < |r.view.headers| ==>
                           r.view.rows[i][j] == CellFor(Get(items[i], r.view.headers[j]), present)
  {
    if exists i :: 0 <= i < |items| && items[i].Null? then Throws
    else
      var ks := RowKeys(items);
      var cols := KeyUnion(ks);
      var r := Shown(Table(cols, seq(|items|, i requires 0 <= i < |items| =>
                                   seq(|cols|, j requires 0 <= j < |cols| => CellFor(Get(items[i], cols[j]), present)))));
      assert forall i, k :: 0 <= i < |items| && k in Keys(items[i]).value ==> k in ks[i];
      r
  }

  /**
   * A table whose columns are the keys of the first row only
   * (`Object.keys(data[0] || {})`) and whose rows are each row's own
   * `Object.values`, formatted by `cellOf`. It throws when a row is null.
   */
  function FirstRowTable(items: seq<Value>, cellOf: Value -> Cell): (r: Rendered<Block>)
    ensures r.Shown? <==> forall i :: 0 <= i < |items| ==> !items[i].Null?
    ensures r.Shown? ==> r.view.Table?
    ensures r.Shown? && items != [] && Truthy(items[0]) ==> r.view.headers == Keys(items[0]).value
    ensures r.Shown? && (items == [] || !Truthy(items[0])) ==> r.view.headers == []
    ensures r.Shown? ==> |r.view.rows| == |items|
    ensures r.Shown? ==> forall i :: 0 <= i < |items| ==>
                           |r.view.rows[i]| == |Values(items[i]).value|
                           && forall j :: 0 <= j < |r.view.rows[i]| ==> r.view.rows[i][j] == cellOf(Values(items[i]).value[j])
  {
    if exists i :: 0 <= i < |items| && items[i].Null? then Throws
    else
      var first := if items == [] then Obj([]) else Or(items[0], Obj([]));
      Shown(Table(Keys(first).value, seq(|items|, i requires 0 <= i < |items| =>
                                           var vs := Values(items[i]).value;
                                           seq(|vs|, j requires 0 <= j < |vs| => cellOf(vs[j])))))
  }

  /** A single-row table of an object's keys and values (`Object.keys`/`Object.values`), with `?? "—"` cells. */
  function SingleRowTable(data: Value): (r: Rendered<Block>)
    ensures r.Shown? <==> !data.Null?
    ensures r.Shown? ==> r.view.Table? && r.view.headers == Keys(data).value && |r.view.rows| == 1
    ensures r.Shown? ==> |r.view.rows[0]| == |r.view.headers|
                         && forall j :: 0 <= j < |r.view.headers| ==>
                              r.view.rows[0][j] == CellFor(Some(Values(data).value[j]), AsIs)
  {
    match Entries(data)
    case None => Throws
    case Some(kvs) =>
      Shown(Table(KeysOf(kvs), [seq(|kvs|, j requires 0 <= j < |kvs| => CellFor(Some(kvs[j].1), AsIs))]))
  }

  // ---------------------------------------------------------------------------
  // Combining the parts of a tab

  /** All parts rendered, or the first throw. */
  function Collect<U>(rs: seq<Rendered<U>>): (r: Rendered<seq<U>>)
    ensures r.Shown? <==> forall i :: 0 <= i < |rs| ==> rs[i].Shown?
    ensures r.Shown? ==> |r.view| == |rs| && forall i :: 0 <= i < |rs| ==> r.view[i] == rs[i].view
  {
    if rs == [] then Shown([])
    else match (rs[0], Collect(rs[1..]))
      case (Shown(x), Shown(xs)) => Shown([x] + xs)
      case _ => Throws
  }

  /** Every part rendered. */
  predicate AllShown<U>(rs: seq<Rendered<U>>) {
    forall i :: 0 <= i < |rs| ==> rs[i].Shown?
  }

  /** The views of parts that all rendered, in order. */
  function Views<U>(rs: seq<Rendered<U>>): (vs: seq<U>)
    requires AllShown(rs)
    ensures |vs| == |rs| && forall i :: 0 <= i < |rs| ==> vs[i] == rs[i].view
  {
    seq(|rs|, i requires 0 <= i < |rs| => rs[i].view)
  }

  /** All parts rendered and laid out one after another, or the first throw. */
  function CollectAll<U>(rs: seq<Rendered<seq<U>>>): (r: Rendered<seq<U>>)
    ensures r.Shown? <==> forall i :: 0 <= i < |rs| ==> rs[i].Shown?
    ensures r.Shown? ==> r.view == Concat(Views(rs))
  {
    match Collect(rs)
    case Shown(parts) =>
      assert parts == Views(rs);
      Shown(Concat(parts))
    case Throws => Throws
  }

  /** A part's view under a heading of its own, or the part's throw. */
  function Titled(title: string, t: Rendered<Block>): (r: Rendered<Block>)
    ensures r.Shown? <==> t.Shown?
    ensures r.Shown? ==> r.view.Heading? && r.view.title == title && r.view.body == [t.view]
  {
    match t
    case Shown(b) => Shown(Heading(title, [b]))
    case Throws => Throws
  }

  /** What a concatenation holds is exactly what its parts hold. */
  lemma {:induction false} ConcatMembers<U>(xss: seq<seq<U>>, x: U)
    ensures x in Concat(xss) <==> exists i :: 0 <= i < |xss| && x in xss[i]
  {
    ConcatElements(xss);
    if xss != [] {
      ConcatMembers(xss[1..], x);
      if exists i :: 0 <= i < |xss| && x in xss[i] {
        var i :| 0 <= i < |xss| && x in xss[i];
        if i > 0 {
          assert x in xss[1..][i - 1];
        }
      }
    }
  }

  // ---------------------------------------------------------------------------
  // Tabs that list the entries of every item

  /**
   * `Object.entries(item).map(([k, v]) => entry(k, v))`: every entry of one
   * item, each rendered by `entry`, in entry order; a null item throws.
   */
  function EntriesItem(item: Value, entry: (string, Value) -> Rendered<Block>): (r: Rendered<seq<Block>>)
    ensures item.Null? ==> r.Throws?
    ensures !item.Null? ==> var kvs := Entries(item).value;
              r.Shown? <==> forall j :: 0 <= j < |kvs| ==> entry(kvs[j].0, kvs[j].1).Shown?
    ensures r.Shown? ==> var kvs := Entries(item).value;
              |r.view| == |kvs| && forall j :: 0 <= j < |kvs| ==> entry(kvs[j].0, kvs[j].1) == Shown(r.view[j])
  {
    match Entries(item)
    case None => Throws
    case Some(kvs) => Collect(RenderEntries(kvs, entry))
  }

  /** The entries of one item, each rendered by `entry`. */
  function RenderEntries(kvs: seq<(string, Value)>, entry: (string, Value) -> Rendered<Block>): (rs: seq<Rendered<Block>>)
    ensures |rs| == |kvs| && forall j :: 0 <= j < |kvs| ==> rs[j] == entry(kvs[j].0, kvs[j].1)
  {
    seq(|kvs|, j requires 0 <= j < |kvs| => entry(kvs[j].0, kvs[j].1))
  }

  /** The items one by one. */
  function EntriesItems(items: seq<Value>, entry: (string, Value) -> Rendered<Block>): (rs: seq<Rendered<seq<Block>>>)
    ensures |rs| == |items| && forall i :: 0 <= i < |items| ==> rs[i] == EntriesItem(items[i], entry)
  {
    seq(|items|, i requires 0 <= i < |items| => EntriesItem(items[i], entry))
  }

  /**
   * `list.length === 0 ? <div>{empty}</div> : list.map(...)`: the note for a
   * length of 0, a throw for anything else that is not a list, and otherwise
   * every entry of every item, item after item.
   */
  function ItemsTab(list: Value, empty: string, entry: (string, Value) -> Rendered<Block>): (r: Rendered<seq<Block>>)
    ensures list == Arr([]) ==> r == Shown([Note(empty)])
    ensures !list.Arr? && Get(list, "length") != Some(Num(0)) ==> r.Throws?
    ensures list.Arr? && list.items != [] ==>
              (r.Shown? <==> forall i :: 0 <= i < |list.items| ==> EntriesItem(list.items[i], entry).Shown?)
    ensures list.Arr? && list.items != [] && r.Shown? ==> r.view == Concat(Views(EntriesItems(list.items, entry)))
  {
    if Get(list, "length") == Some(Num(0)) then Shown([Note(empty)])
    else if !list.Arr? then Throws
    else CollectAll(EntriesItems(list.items, entry))
  }

  /**
   * Such a tab over a non-empty list shows exactly the entries of its items:
   * a block is on the tab when and only when it is the rendering of some
   * entry of some item; when every entry renders as a heading, so does every
   * block.
   */
  lemma ItemsTabShowsEntries(list: Value, empty: string, entry: (string, Value) -> Rendered<Block>, b: Block)
    requires list.Arr? && list.items != [] && ItemsTab(list, empty, entry).Shown?
    ensures b in ItemsTab(list, empty, entry).view <==>
              exists i, j :: 0 <= i < |list.items| && !list.items[i].Null?
                             && 0 <= j < |Entries(list.items[i]).value|
                             && entry(Entries(list.items[i]).value[j].0, Entries(list.items[i]).value[j].1) == Shown(b)
    ensures (forall t, v :: entry(t, v).Shown? ==> entry(t, v).view.Heading?) && b in ItemsTab(list, empty, entry).view
            ==> b.Heading?
  {
    var items := list.items;
    var parts := EntriesItems(items, entry);
    ConcatMembers(Views(parts), b);
    if b in ItemsTab(list, empty, entry).view {
      var i :| 0 <= i < |parts| && b in Views(parts)[i];
      var kvs := Entries(items[i]).value;
      var j :| 0 <= j < |parts[i].view| && parts[i].view[j] == b;
      assert entry(kvs[j].0, kvs[j].1) == Shown(b);
    }
  }
}
