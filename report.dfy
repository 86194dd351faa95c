/**
 * The one-asset PDF report: a title, then the sections AssetDetails,
 * Hardware, Software, Users and Security that the stored document has, one
 * text line per key (per key of each object in a list, per other list
 * item, or one line for a scalar).  A cursor `y` walks down the page and a
 * new page starts when a body line leaves it below the 40-point margin.
 * A new page comes back in the canvas's initial font, Helvetica 12, and the
 * loops do not set the body font again, so lines after a break are drawn in it.
 * The canvas records what is drawn where; the PDF back end is not modelled.
 */
module AssetReport {
  import opened Common
  import opened Text
  import opened JsValue
  import opened PyText

  /** reportlab's `letter` is 612 by 792 points. */
  const PageHeight: int := 792
  const Top: int := PageHeight - 40
  const Margin: int := 40
  const LineLimit: nat := 100

  datatype Font = Font(name: string, size: nat)

  const TitleFont := Font("Helvetica-Bold", 14)
  const SectionFont := Font("Helvetica-Bold", 12)
  const BodyFont := Font("Helvetica", 10)
  /** The font a new canvas, and every new page, starts in. */
  const DefaultFont := Font("Helvetica", 12)

  const SectionNames: seq<string> := ["AssetDetails", "Hardware", "Software", "Users", "Security"]

  /** A string drawn on a page at (x, y) in a font. */
  datatype Placed = Placed(page: nat, x: int, y: int, font: Font, text: string)

  /** The page being drawn, the cursor on it, and the canvas's current font. */
  datatype Cursor = Cursor(page: nat, y: int, font: Font)

  /** The reportlab canvas as far as the report uses it: the current page, the font, and what has been drawn. */
  class Canvas {
    var page: nat
    var font: Font
    var drawn: seq<Placed>

    constructor ()
      ensures page == 0 && drawn == [] && font == DefaultFont
    {
      page := 0;
      font := DefaultFont;
      drawn := [];
    }

    method SetFont(name: string, size: nat)
      modifies this`font
      ensures font == Font(name, size)
    {
      font := Font(name, size);
    }

    method DrawString(x: int, y: int, text: string)
      modifies this`drawn
      ensures drawn == old(drawn) + [Placed(page, x, y, font, text)]
    {
      drawn := drawn + [Placed(page, x, y, font, text)];
    }

    /** `showPage` starts the next page, whose graphics state is the initial one. */
    method ShowPage()
      modifies this`page, this`font
      ensures page == old(page) + 1 && font == DefaultFont
    {
      page := page + 1;
      font := DefaultFont;
    }
  }

  // ---------------------------------------------------------------------------
  // The lines of a section body

  /** `line[:100]`. */
  function Truncate(s: string): (r: string)
    ensures |r| == if |s| <= LineLimit then |s| else LineLimit
    ensures r == s[..|r|]
  {
    if |s| <= LineLimit then s else s[..LineLimit]
  }

  /** `f"{key}: {value}"[:100]`. */
  function FieldText(kv: (string, Value)): string {
    Truncate(kv.0 + ": " + PyStr(kv.1))
  }

  function FieldTexts(fields: seq<(string, Value)>): (ts: seq<string>)
    ensures |ts| == |fields| && forall i :: 0 <= i < |fields| ==> ts[i] == FieldText(fields[i])
  {
    seq(|fields|, i requires 0 <= i < |fields| => FieldText(fields[i]))
  }

  /** The lines of one list item: one per key of an object, otherwise `str(item)[:100]`. */
  function ItemTexts(item: Value): seq<string> {
    if item.Obj? then FieldTexts(item.fields) else [Truncate(PyStr(item))]
  }

  function ListTexts(items: seq<Value>): seq<string>
    decreases |items|
  {
    if items == [] then [] else ListTexts(items[..|items| - 1]) + ItemTexts(items[|items| - 1])
  }

  // ---------------------------------------------------------------------------
  // Layout

  /** `y -= 15; if y < 40: showPage(); y = height - 40`. */
  function Break(c: Cursor): (d: Cursor)
    ensures d.y >= Margin
    ensures d.page == c.page ==> d.y == c.y - 15 && d.font == c.font && Margin <= c.y - 15
    ensures d.page != c.page ==> d.page == c.page + 1 && d.y == Top && d.font == DefaultFont && c.y - 15 < Margin
  {
    if c.y - 15 < Margin then Cursor(c.page + 1, Top, DefaultFont) else Cursor(c.page, c.y - 15, c.font)
  }

  /** Body lines drawn at x = 50 in the current font, each followed by a checked step down. */
  function Checked(c: Cursor, texts: seq<string>): (seq<Placed>, Cursor)
    decreases |texts|
  {
    if texts == [] then ([], c)
    else
      var (ps, d) := Checked(c, texts[..|texts| - 1]);
      (ps + [Placed(d.page, 50, d.y, d.font, texts[|texts| - 1])], Break(d))
  }

  /** `draw_section(title, data, y)`: the title at x = 40 in the section font, then the body 20 points lower in the body font. */
  function Section(c: Cursor, title: string, data: Value): (seq<Placed>, Cursor) {
    var head := Placed(c.page, 40, c.y, SectionFont, title);
    var d := Cursor(c.page, c.y - 20, BodyFont);
    if data.Obj? then
      var (ps, e) := Checked(d, FieldTexts(data.fields));
      ([head] + ps, e)
    else if data.Arr? then
      var (ps, e) := Checked(d, ListTexts(data.items));
      ([head] + ps, e)
    else
      ([head, Placed(d.page, 50, d.y, BodyFont, Truncate(PyStr(data)))], Cursor(d.page, d.y - 15, BodyFont))
  }

  /** The section `name` of the document, when it is an object that has it. */
  function Present(doc: Value, name: string): Option<Value> {
    if doc.Obj? then Lookup(doc.fields, name) else None
  }

  /** One listed name: its section and the checked 15-point gap after it, or nothing when the document lacks it. */
  function SectionStep(c: Cursor, doc: Value, name: string): (seq<Placed>, Cursor) {
    match Present(doc, name)
    case None => ([], c)
    case Some(data) =>
      var (qs, e) := Section(c, name, data);
      (qs, Break(e))
  }

  /** The listed sections the document has, in order. */
  function Sections(c: Cursor, doc: Value, names: seq<string>): (seq<Placed>, Cursor)
    decreases |names|
  {
    if names == [] then ([], c)
    else
      var (ps, d) := Sections(c, doc, names[..|names| - 1]);
      var (qs, e) := SectionStep(d, doc, names[|names| - 1]);
      (ps + qs, e)
  }

  /** Where the first section starts: below the 30 points of the report title. */
  const Start := Cursor(0, Top - 30, BodyFont)

  function TitleLine(assetName: string): Placed {
    Placed(0, 40, Top, TitleFont, "Asset Report: " + assetName)
  }

  /** Everything drawn for the asset, in drawing order. */
  function Report(assetName: string, doc: Value): seq<Placed> {
    [TitleLine(assetName)] + Sections(Start, doc, SectionNames).0
  }

  /** How many pages the saved PDF has. */
  function PageCount(doc: Value): nat {
    Sections(Start, doc, SectionNames).1.page + 1
  }

  // ---------------------------------------------------------------------------
  // Documents that are not objects

  /** `name in doc`, or the TypeError it raises. */
  function Contains(doc: Value, name: string): Result<bool, string> {
    match doc
    case Obj(fields) => Ok(name in KeysOf(fields))
    case Arr(items) => Ok(Str(name) in items)
    case Str(s) => Ok(Occurs(name, s))
    case _ => Err("argument of type '" + TypeName(doc) + "' is not iterable")
  }

  /** `doc[name]`, or the error it raises. */
  function Index(doc: Value, name: string): Result<Value, string> {
    match doc
    case Obj(fields) => if Lookup(fields, name).Some? then Ok(Lookup(fields, name).value) else Err(PyRepr(name))
    case Arr(_) => Err("list indices must be integers or slices, not str")
    case Str(_) => Err("string indices must be integers, not 'str'")
    case _ => Err("'" + TypeName(doc) + "' object is not subscriptable")
  }

  /** The error one section name raises, if it raises. */
  function StepError(doc: Value, name: string): Option<string> {
    match Contains(doc, name)
    case Err(e) => Some(e)
    case Ok(false) => None
    case Ok(true) => if Index(doc, name).Err? then Some(Index(doc, name).error) else None
  }

  /** The first error along the names, in order. */
  function FirstError(doc: Value, names: seq<string>): Option<string>
    decreases |names|
  {
    if names == [] then None
    else if FirstError(doc, names[..|names| - 1]).Some? then FirstError(doc, names[..|names| - 1])
    else StepError(doc, names[|names| - 1])
  }

  /** The message of the 500 response, when drawing raises. */
  function ReportError(doc: Value): Option<string> {
    FirstError(doc, SectionNames)
  }

  // ---------------------------------------------------------------------------
  // The drawing code

  /** One checked body line: drawn at x = 50, then `y -= 15` and a new page when `y < 40`. */
  method DrawBodyLine(p: Canvas, y: int, text: string) returns (y': int)
    modifies p
    ensures p.drawn == old(p.drawn) + [Placed(old(p.page), 50, y, old(p.font), text)]
    ensures Cursor(p.page, y', p.font) == Break(Cursor(old(p.page), y, old(p.font)))
  {
    p.DrawString(50, y, text);
    y' := y - 15;
    if y' < Margin {
      p.ShowPage();
      y' := Top;
    }
  }

  lemma CheckedSnoc(c: Cursor, texts: seq<string>, t: string)
    ensures Checked(c, texts + [t]) ==
              (Checked(c, texts).0 + [Placed(Checked(c, texts).1.page, 50, Checked(c, texts).1.y, Checked(c, texts).1.font, t)],
               Break(Checked(c, texts).1))
  {
    assert (texts + [t])[..|texts|] == texts;
  }

  lemma FieldTextsSnoc(fields: seq<(string, Value)>, i: nat)
    requires i < |fields|
    ensures FieldTexts(fields[..i + 1]) == FieldTexts(fields[..i]) + [FieldText(fields[i])]
  {
  }

  lemma ListTextsSnoc(items: seq<Value>, i: nat)
    requires i < |items|
    ensures ListTexts(items[..i + 1]) == ListTexts(items[..i]) + ItemTexts(items[i])
  {
    assert items[..i + 1][..i] == items[..i];
  }

  /** A list item that is not a dict is one checked line. */
  lemma ScalarItem(c: Cursor, item: Value)
    requires !item.Obj?
    ensures Checked(c, ItemTexts(item)) == ([Placed(c.page, 50, c.y, c.font, Truncate(PyStr(item)))], Break(c))
  {
    var t := Truncate(PyStr(item));
    CheckedSnoc(c, [], t);
    assert [] + [t] == ItemTexts(item);
    var none: seq<Placed> := [];
    assert none + [Placed(c.page, 50, c.y, c.font, t)] == [Placed(c.page, 50, c.y, c.font, t)];
  }

  lemma Assoc(a: seq<Placed>, b: seq<Placed>, c: seq<Placed>)
    ensures a + b + c == a + (b + c)
  {
  }

  /** Placing two runs of lines one after the other is placing them together. */
  lemma {:induction false} CheckedAppend(c: Cursor, xs: seq<string>, ys: seq<string>)
    ensures Checked(c, xs + ys) ==
              (Checked(c, xs).0 + Checked(Checked(c, xs).1, ys).0, Checked(Checked(c, xs).1, ys).1)
    decreases |ys|
  {
    if ys == [] {
      assert xs + ys == xs;
      assert Checked(c, xs).0 + [] == Checked(c, xs).0;
    } else {
      var init := ys[..|ys| - 1];
      var t := ys[|ys| - 1];
      CheckedAppend(c, xs, init);
      assert xs + ys == (xs + init) + [t];
      CheckedSnoc(c, xs + init, t);
      CheckedSnoc(Checked(c, xs).1, init, t);
      assert init + [t] == ys;
      var a, b := Checked(c, xs), Checked(Checked(c, xs).1, init);
      var last := Placed(b.1.page, 50, b.1.y, b.1.font, t);
      assert a.0 + b.0 + [last] == a.0 + (b.0 + [last]);
    }
  }

  /** The lines of a dict body: `for key, value in data.items()`. */
  method DrawFields(p: Canvas, fields: seq<(string, Value)>, y: int) returns (y': int)
    modifies p
    ensures p.drawn == old(p.drawn) + Checked(Cursor(old(p.page), y, old(p.font)), FieldTexts(fields)).0
    ensures Cursor(p.page, y', p.font) == Checked(Cursor(old(p.page), y, old(p.font)), FieldTexts(fields)).1
  {
    ghost var c := Cursor(p.page, y, p.font);
    y' := y;
    var i := 0;
    while i < |fields|
      invariant 0 <= i <= |fields|
      invariant p.drawn == old(p.drawn) + Checked(c, FieldTexts(fields[..i])).0
      invariant Cursor(p.page, y', p.font) == Checked(c, FieldTexts(fields[..i])).1
    {
      var (key, value) := fields[i];
      var line := key + ": " + PyStr(value);
      FieldTextsSnoc(fields, i);
      CheckedSnoc(c, FieldTexts(fields[..i]), FieldText(fields[i]));
      y' := DrawBodyLine(p, y', Truncate(line));
      i := i + 1;
    }
    assert fields[..i] == fields;
  }

  /** The lines of one list item: the keys of a dict, otherwise one line. */
  method DrawItem(p: Canvas, item: Value, y: int) returns (y': int)
    modifies p
    ensures p.drawn == old(p.drawn) + Checked(Cursor(old(p.page), y, old(p.font)), ItemTexts(item)).0
    ensures Cursor(p.page, y', p.font) == Checked(Cursor(old(p.page), y, old(p.font)), ItemTexts(item)).1
  {
    if item.Obj? {
      y' := DrawFields(p, item.fields, y);
    } else {
      ScalarItem(Cursor(p.page, y, p.font), item);
      y' := DrawBodyLine(p, y, Truncate(PyStr(item)));
    }
  }

  /** The lines of a list body, item after item. */
  method DrawItems(p: Canvas, items: seq<Value>, y: int) returns (y': int)
    modifies p
    ensures p.drawn == old(p.drawn) + Checked(Cursor(old(p.page), y, old(p.font)), ListTexts(items)).0
    ensures Cursor(p.page, y', p.font) == Checked(Cursor(old(p.page), y, old(p.font)), ListTexts(items)).1
  {
    ghost var c := Cursor(p.page, y, p.font);
    ghost var start := p.drawn;
    y' := y;
    var i := 0;
    while i < |items|
      invariant 0 <= i <= |items|
      invariant p.drawn == start + Checked(c, ListTexts(items[..i])).0
      invariant Cursor(p.page, y', p.font) == Checked(c, ListTexts(items[..i])).1
    {
      ghost var mid := Checked(c, ListTexts(items[..i]));
      ghost var step := Checked(mid.1, ItemTexts(items[i]));
      y' := DrawItem(p, items[i], y');
      assert Checked(c, ListTexts(items[..i + 1])) == (mid.0 + step.0, step.1) by {
        ListTextsSnoc(items, i);
        CheckedAppend(c, ListTexts(items[..i]), ItemTexts(items[i]));
      }
      assert p.drawn == start + (mid.0 + step.0) by {
        Assoc(start, mid.0, step.0);
      }
      i := i + 1;
    }
    assert items[..i] == items;
  }

  /** `draw_section(title, data, y)`: returns the new `y`. */
  method DrawSection(p: Canvas, title: string, data: Value, y: int) returns (y': int)
    modifies p
    ensures p.drawn == old(p.drawn) + Section(Cursor(old(p.page), y, old(p.font)), title, data).0
    ensures Cursor(p.page, y', p.font) == Section(Cursor(old(p.page), y, old(p.font)), title, data).1
  {
    ghost var c := Cursor(p.page, y, p.font);
    ghost var d := Cursor(p.page, y - 20, BodyFont);
    ghost var head := Placed(c.page, 40, c.y, SectionFont, title);
    p.SetFont("Helvetica-Bold", 12);
    p.DrawString(40, y, title);
    y' := y - 20;
    p.SetFont("Helvetica", 10);
    ghost var base := p.drawn;
    assert base == old(p.drawn) + [head];
    if data.Obj? {
      ghost var body := Checked(d, FieldTexts(data.fields));
      y' := DrawFields(p, data.fields, y');
      assert Section(c, title, data) == ([head] + body.0, body.1);
      assert p.drawn == old(p.drawn) + ([head] + body.0) by {
        Assoc(old(p.drawn), [head], body.0);
      }
    } else if data.Arr? {
      ghost var body := Checked(d, ListTexts(data.items));
      y' := DrawItems(p, data.items, y');
      assert Section(c, title, data) == ([head] + body.0, body.1);
      assert p.drawn == old(p.drawn) + ([head] + body.0) by {
        Assoc(old(p.drawn), [head], body.0);
      }
    } else {
      p.DrawString(50, y', Truncate(PyStr(data)));
      y' := y' - 15;
    }
  }
  // ---------------------------------------------------------------------------
  // The whole report

  /** A raised error, once seen, is the first error of any longer run of names. */
  lemma {:induction false} ErrorPersists(doc: Value, names: seq<string>, k: nat)
    requires k <= |names| && FirstError(doc, names[..k]).Some?
    ensures FirstError(doc, names) == FirstError(doc, names[..k])
    decreases |names| - k
  {
    if k < |names| {
      assert names[..k + 1][..k] == names[..k];
      ErrorPersists(doc, names, k + 1);
    } else {
      assert names[..k] == names;
    }
  }

  /** One pass of the section loop: `if section in asset_data`, draw it and step down, or the error raised. */
  method DrawStep(p: Canvas, doc: Value, name: string, y: int) returns (y': int, err: Option<string>)
    modifies p
    ensures err == StepError(doc, name)
    ensures err.None? ==> p.drawn == old(p.drawn) + SectionStep(Cursor(old(p.page), y, old(p.font)), doc, name).0
    ensures err.None? ==> Cursor(p.page, y', p.font) == SectionStep(Cursor(old(p.page), y, old(p.font)), doc, name).1
  {
    y' := y;
    var has := Contains(doc, name);
    if has.Err? {
      return y', Some(has.error);
    }
    if has.value {
      var section := Index(doc, name);
      if section.Err? {
        return y', Some(section.error);
      }
      assert Present(doc, name) == Some(section.value);
      y' := DrawSection(p, name, section.value, y);
      y' := y' - 15;
      if y' < Margin {
        p.ShowPage();
        y' := Top;
      }
    } else {
      assert Present(doc, name).None?;
      assert old(p.drawn) + [] == p.drawn;
    }
    err := None;
  }

  /** One more name extends the drawing by its step, and the first error by its error. */
  lemma SectionsStep(c: Cursor, doc: Value, names: seq<string>, k: nat)
    requires k < |names|
    ensures var done := Sections(c, doc, names[..k]);
            var step := SectionStep(done.1, doc, names[k]);
            Sections(c, doc, names[..k + 1]) == (done.0 + step.0, step.1)
    ensures FirstError(doc, names[..k]).None? ==> FirstError(doc, names[..k + 1]) == StepError(doc, names[k])
  {
    assert names[..k + 1][..k] == names[..k];
  }

  /** The section loop over `names`: every section drawn in turn, or the first error raised. */
  method DrawSections(p: Canvas, doc: Value, names: seq<string>, y: int) returns (y': int, err: Option<string>)
    modifies p
    ensures err == FirstError(doc, names)
    ensures err.None? ==> p.drawn == old(p.drawn) + Sections(Cursor(old(p.page), y, old(p.font)), doc, names).0
    ensures err.None? ==> Cursor(p.page, y', p.font) == Sections(Cursor(old(p.page), y, old(p.font)), doc, names).1
  {
    ghost var c := Cursor(p.page, y, p.font);
    ghost var start := p.drawn;
    y' := y;
    var k := 0;
    assert names[..0] == [];
    while k < |names|
      invariant 0 <= k <= |names|
      invariant FirstError(doc, names[..k]).None?
      invariant p.drawn == start + Sections(c, doc, names[..k]).0
      invariant Cursor(p.page, y', p.font) == Sections(c, doc, names[..k]).1
    {
      ghost var done := Sections(c, doc, names[..k]);
      ghost var step := SectionStep(done.1, doc, names[k]);
      ghost var before := p.drawn;
      SectionsStep(c, doc, names, k);
      assert Cursor(p.page, y', p.font) == done.1;
      var stepErr;
      y', stepErr := DrawStep(p, doc, names[k], y');
      if stepErr.Some? {
        ErrorPersists(doc, names, k + 1);
        return y', stepErr;
      }
      assert p.drawn == before + step.0 && Cursor(p.page, y', p.font) == step.1;
      assert p.drawn == start + (done.0 + step.0) by {
        Assoc(start, done.0, step.0);
      }
      assert FirstError(doc, names[..k + 1]).None?;
      k := k + 1;
    }
    assert names[..k] == names;
    err := None;
  }

  /** `download_asset_pdf` once the document is loaded: the canvas it saves, or the message of the 500 response. */
  method AssetPdf(assetName: string, doc: Value) returns (p: Canvas, err: Option<string>)
    ensures fresh(p)
    ensures err == ReportError(doc)
    ensures err.None? ==> p.drawn == Report(assetName, doc) && p.page + 1 == PageCount(doc)
  {
    p := new Canvas();
    var y := Top;
    p.SetFont("Helvetica-Bold", 14);
    p.DrawString(40, y, "Asset Report: " + assetName);
    y := y - 30;
    p.SetFont("Helvetica", 10);
    assert p.drawn == [TitleLine(assetName)] && Cursor(p.page, y, p.font) == Start;
    y, err := DrawSections(p, doc, SectionNames, y);
  }
}
