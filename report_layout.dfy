/**
 * What the report layout guarantees: body lines carry exactly their texts,
 * everything is drawn in reading order, and where on the page lines can land.
 */
module ReportLayout {
  import opened Common
  import opened Text
  import opened JsValue
  import opened PyText
  import opened AssetReport

  /**
   * Body lines are placed at x = 50 with exactly the given texts, in order:
   * in the starting font while they stay on the starting page, and in the
   * default font once a break has started a new page.
   */
  lemma {:induction false} CheckedTexts(c: Cursor, texts: seq<string>)
    ensures |Checked(c, texts).0| == |texts|
    ensures forall i :: 0 <= i < |texts| ==>
              Checked(c, texts).0[i].text == texts[i] && Checked(c, texts).0[i].x == 50
              && Checked(c, texts).0[i].font == if Checked(c, texts).0[i].page == c.page then c.font else DefaultFont
    ensures c.page <= Checked(c, texts).1.page
    ensures Checked(c, texts).1.font == if Checked(c, texts).1.page == c.page then c.font else DefaultFont
    decreases |texts|
  {
    if texts != [] {
      CheckedTexts(c, texts[..|texts| - 1]);
    }
  }

  /** Starting at least 20 points up, body lines stay between 20 and the top line, and the cursor ends there too. */
  lemma {:induction false} CheckedBounds(c: Cursor, texts: seq<string>)
    requires 20 <= c.y <= Top
    ensures forall q :: q in Checked(c, texts).0 ==> 20 <= q.y <= Top
    ensures 20 <= Checked(c, texts).1.y <= Top
    ensures texts != [] ==> Margin <= Checked(c, texts).1.y
    decreases |texts|
  {
    if texts != [] {
      CheckedBounds(c, texts[..|texts| - 1]);
    }
  }

  /** `a` is drawn before `b` in reading order: on an earlier page, or higher on the same page. */
  predicate Before(a: Placed, b: Placed) {
    a.page < b.page || (a.page == b.page && a.y > b.y)
  }

  /** `a` is above the cursor: anything drawn at the cursor comes after it. */
  predicate AboveCursor(a: Placed, c: Cursor) {
    a.page < c.page || (a.page == c.page && a.y > c.y)
  }

  /** `a` is at the cursor or after it. */
  predicate FromCursor(c: Cursor, a: Placed) {
    c.page < a.page || (c.page == a.page && a.y <= c.y)
  }

  /** The cursor `d` is at `c` or after it. */
  predicate NotBefore(c: Cursor, d: Cursor) {
    c.page < d.page || (c.page == d.page && d.y <= c.y)
  }

  /** No two lines share a position, and they come in reading order: page by page, top to bottom. */
  predicate InOrder(ps: seq<Placed>) {
    forall i, j :: 0 <= i < j < |ps| ==> Before(ps[i], ps[j])
  }

  /** Everything `ps` drew lies between the cursors `c` (inclusive) and `e` (exclusive), in order. */
  predicate Between(c: Cursor, ps: seq<Placed>, e: Cursor) {
    InOrder(ps) && NotBefore(c, e)
    && (forall q :: q in ps ==> FromCursor(c, q) && AboveCursor(q, e))
  }

  lemma BetweenAppend(c: Cursor, ps: seq<Placed>, d: Cursor, qs: seq<Placed>, e: Cursor)
    requires Between(c, ps, d) && Between(d, qs, e)
    ensures Between(c, ps + qs, e)
  {
    var r := ps + qs;
    forall i, j | 0 <= i < j < |r| ensures Before(r[i], r[j]) {
      if j < |ps| {
      } else if i >= |ps| {
        assert r[i] == qs[i - |ps|] && r[j] == qs[j - |ps|];
      } else {
        assert r[i] in ps && r[j] in qs;
      }
    }
  }

  /** Each step moves the cursor strictly down the page or onto the next page. */
  lemma BreakAfter(ps: seq<Placed>, c: Cursor, d: Cursor)
    requires Between(c, ps, d)
    ensures Between(c, ps, Break(d))
  {
  }

  lemma {:induction false} CheckedOrder(c: Cursor, texts: seq<string>)
    ensures Between(c, Checked(c, texts).0, Checked(c, texts).1)
    decreases |texts|
  {
    if texts != [] {
      var (ps, d) := Checked(c, texts[..|texts| - 1]);
      CheckedOrder(c, texts[..|texts| - 1]);
      var q := Placed(d.page, 50, d.y, d.font, texts[|texts| - 1]);
      assert Between(d, [q], Break(d));
      BetweenAppend(c, ps, d, [q], Break(d));
    }
  }

  /** A section lies below its starting cursor and above where it leaves the cursor, in reading order. */
  lemma SectionOrder(c: Cursor, title: string, data: Value)
    ensures Between(c, Section(c, title, data).0, Section(c, title, data).1)
  {
    var head := Placed(c.page, 40, c.y, SectionFont, title);
    var d := Cursor(c.page, c.y - 20, BodyFont);
    assert Between(c, [head], d);
    if data.Obj? {
      CheckedOrder(d, FieldTexts(data.fields));
      BetweenAppend(c, [head], d, Checked(d, FieldTexts(data.fields)).0, Checked(d, FieldTexts(data.fields)).1);
    } else if data.Arr? {
      CheckedOrder(d, ListTexts(data.items));
      BetweenAppend(c, [head], d, Checked(d, ListTexts(data.items)).0, Checked(d, ListTexts(data.items)).1);
    } else {
      var line := Placed(d.page, 50, d.y, BodyFont, Truncate(PyStr(data)));
      assert Between(d, [line], Cursor(d.page, d.y - 15, BodyFont));
      BetweenAppend(c, [head], d, [line], Cursor(d.page, d.y - 15, BodyFont));
    }
  }

  /** The font of a body line: the body font on the section's first page, the default font on the pages after a break. */
  function BodyLineFont(start: nat, page: nat): Font {
    if page == start then BodyFont else DefaultFont
  }

  /**
   * Titles are drawn at x = 40 in the section font; every other line is a body
   * line of at most 100 characters, in the body font until a break and in the
   * default font after one.
   */
  lemma SectionLines(c: Cursor, title: string, data: Value)
    ensures var ps := Section(c, title, data).0;
            |ps| >= 1 && ps[0] == Placed(c.page, 40, c.y, SectionFont, title)
            && forall i :: 1 <= i < |ps| ==>
                 ps[i].x == 50 && ps[i].font == BodyLineFont(c.page, ps[i].page) && |ps[i].text| <= LineLimit
  {
    var head := Placed(c.page, 40, c.y, SectionFont, title);
    var d := Cursor(c.page, c.y - 20, BodyFont);
    if data.Obj? {
      assert Section(c, title, data).0 == [head] + Checked(d, FieldTexts(data.fields)).0;
      BodyLines(head, d, FieldTexts(data.fields));
    } else if data.Arr? {
      assert Section(c, title, data).0 == [head] + Checked(d, ListTexts(data.items)).0;
      ListTextsShort(data.items);
      BodyLines(head, d, ListTexts(data.items));
    }
  }

  /** A heading followed by checked lines of at most 100 characters, started in the body font. */
  lemma BodyLines(head: Placed, d: Cursor, ts: seq<string>)
    requires d.font == BodyFont
    requires forall j :: 0 <= j < |ts| ==> |ts[j]| <= LineLimit
    ensures var ps := [head] + Checked(d, ts).0;
            forall i :: 1 <= i < |ps| ==>
              ps[i].x == 50 && ps[i].font == BodyLineFont(d.page, ps[i].page) && |ps[i].text| <= LineLimit
  {
    var ps := Checked(d, ts).0;
    CheckedTexts(d, ts);
    forall i | 1 <= i < |[head] + ps|
      ensures ([head] + ps)[i].x == 50 && ([head] + ps)[i].font == BodyLineFont(d.page, ([head] + ps)[i].page)
              && |([head] + ps)[i].text| <= LineLimit
    {
      assert ([head] + ps)[i] == ps[i - 1];
    }
  }

  lemma {:induction false} ListTextsShort(items: seq<Value>)
    ensures forall i :: 0 <= i < |ListTexts(items)| ==> |ListTexts(items)[i]| <= LineLimit
    decreases |items|
  {
    if items != [] {
      ListTextsShort(items[..|items| - 1]);
    }
  }

  /** A section started between the margin and the top line draws between 20 points and the top line. */
  lemma HeadedBounds(c: Cursor, title: string, ts: seq<string>)
    requires Margin <= c.y <= Top
    ensures var body := Checked(Cursor(c.page, c.y - 20, BodyFont), ts);
            (forall q :: q in [Placed(c.page, 40, c.y, SectionFont, title)] + body.0 ==> 20 <= q.y <= Top)
            && body.1.y <= Top
  {
    CheckedBounds(Cursor(c.page, c.y - 20, BodyFont), ts);
  }

  lemma SectionBounds(c: Cursor, title: string, data: Value)
    requires Margin <= c.y <= Top
    ensures forall q :: q in Section(c, title, data).0 ==> 20 <= q.y <= Top
    ensures Section(c, title, data).1.y <= Top
  {
    var head := Placed(c.page, 40, c.y, SectionFont, title);
    var d := Cursor(c.page, c.y - 20, BodyFont);
    if data.Obj? {
      assert Section(c, title, data) == ([head] + Checked(d, FieldTexts(data.fields)).0, Checked(d, FieldTexts(data.fields)).1);
      HeadedBounds(c, title, FieldTexts(data.fields));
    } else if data.Arr? {
      assert Section(c, title, data) == ([head] + Checked(d, ListTexts(data.items)).0, Checked(d, ListTexts(data.items)).1);
      HeadedBounds(c, title, ListTexts(data.items));
    }
  }

  /** The title line of a scalar section and its one body line skip the page check: both stay on the starting page. */
  lemma ScalarSection(c: Cursor, title: string, data: Value)
    requires !data.Obj? && !data.Arr?
    ensures Section(c, title, data).1 == Cursor(c.page, c.y - 35, BodyFont)
    ensures |Section(c, title, data).0| == 2 && Section(c, title, data).0[1].y == c.y - 20
  {
  }

  /** A section started 45 points up draws its first body line at 25, inside the 40-point bottom margin. */
  lemma BelowMargin()
    ensures Section(Cursor(0, 45, BodyFont), "Users", Arr([Str("admin")])).0[1].y == 25
    ensures Section(Cursor(0, 45, BodyFont), "Users", Arr([Str("admin")])).1 == Cursor(1, Top, DefaultFont)
  {
    ScalarItem(Cursor(0, 25, BodyFont), Str("admin"));
    assert ListTexts([Str("admin")]) == ItemTexts(Str("admin")) by {
      assert [Str("admin")][..0] == [];
    }
  }

  /**
   * A list of two plain items whose first line lands less than 15 points
   * above the margin: the step after it starts a new page, and the second
   * item is drawn at the top of that page in the default font, because
   * `showPage` resets the font and the loop does not set it again.
   */
  lemma FontAfterBreak(c: Cursor, title: string, x: Value, y: Value)
    requires !x.Obj? && !y.Obj?
    requires c.y - 35 < Margin
    ensures var ps := Section(c, title, Arr([x, y])).0;
            |ps| == 3
            && ps[1] == Placed(c.page, 50, c.y - 20, BodyFont, Truncate(PyStr(x)))
            && ps[2] == Placed(c.page + 1, 50, Top, DefaultFont, Truncate(PyStr(y)))
  {
    var d := Cursor(c.page, c.y - 20, BodyFont);
    var items := [x, y];
    assert ListTexts(items) == ItemTexts(x) + ItemTexts(y) by {
      assert items[..1] == [x];
      ListTextsSnoc(items, 0);
      ListTextsSnoc(items, 1);
      assert items[..0] == [] && items[..2] == items;
    }
    ScalarItem(d, x);
    ScalarItem(Break(d), y);
    CheckedAppend(d, ItemTexts(x), ItemTexts(y));
    assert Section(c, title, Arr(items)).0 == [Placed(c.page, 40, c.y, SectionFont, title)] + Checked(d, ListTexts(items)).0;
  }

  // ---------------------------------------------------------------------------
  // The whole report

  /** One step of the section loop stays in reading order, and its cursor moves on. */
  lemma StepOrder(c: Cursor, doc: Value, name: string)
    ensures Between(c, SectionStep(c, doc, name).0, SectionStep(c, doc, name).1)
  {
    match Present(doc, name)
    case None =>
    case Some(data) =>
      SectionOrder(c, name, data);
      BreakAfter(Section(c, name, data).0, c, Section(c, name, data).1);
  }

  lemma {:induction false} SectionsOrder(c: Cursor, doc: Value, names: seq<string>)
    ensures Between(c, Sections(c, doc, names).0, Sections(c, doc, names).1)
    decreases |names|
  {
    if names != [] {
      var (ps, d) := Sections(c, doc, names[..|names| - 1]);
      SectionsOrder(c, doc, names[..|names| - 1]);
      StepOrder(d, doc, names[|names| - 1]);
      BetweenAppend(c, ps, d, SectionStep(d, doc, names[|names| - 1]).0, SectionStep(d, doc, names[|names| - 1]).1);
    }
  }

  /** One step started between the margin and the top line draws between 20 and the top line and leaves the cursor there. */
  lemma StepBounds(c: Cursor, doc: Value, name: string)
    requires Margin <= c.y <= Top
    ensures forall q :: q in SectionStep(c, doc, name).0 ==> 20 <= q.y <= Top
    ensures Margin <= SectionStep(c, doc, name).1.y <= Top
  {
    match Present(doc, name)
    case None =>
    case Some(data) =>
      SectionBounds(c, name, data);
  }

  lemma {:induction false} SectionsBounds(c: Cursor, doc: Value, names: seq<string>)
    requires Margin <= c.y <= Top
    ensures forall q :: q in Sections(c, doc, names).0 ==> 20 <= q.y <= Top
    ensures Margin <= Sections(c, doc, names).1.y <= Top
    decreases |names|
  {
    if names != [] {
      var (ps, d) := Sections(c, doc, names[..|names| - 1]);
      SectionsBounds(c, doc, names[..|names| - 1]);
      StepBounds(d, doc, names[|names| - 1]);
    }
  }

  /** The texts of the section headings among `ps`, in order. */
  function Headings(ps: seq<Placed>): (hs: seq<string>)
    ensures |hs| <= |ps|
    decreases |ps|
  {
    if ps == [] then []
    else Headings(ps[..|ps| - 1]) + (if ps[|ps| - 1].font == SectionFont then [ps[|ps| - 1].text] else [])
  }

  lemma {:induction false} HeadingsAppend(ps: seq<Placed>, qs: seq<Placed>)
    ensures Headings(ps + qs) == Headings(ps) + Headings(qs)
    decreases |qs|
  {
    if qs == [] {
      assert ps + qs == ps;
    } else {
      var init := qs[..|qs| - 1];
      HeadingsAppend(ps, init);
      assert (ps + qs)[..|ps + qs| - 1] == ps + init;
    }
  }

  /** Lines that start with one heading followed only by lines in other fonts have that one heading. */
  lemma {:induction false} OneHeading(ps: seq<Placed>)
    requires |ps| >= 1 && ps[0].font == SectionFont
    requires forall i :: 1 <= i < |ps| ==> ps[i].font != SectionFont
    ensures Headings(ps) == [ps[0].text]
    decreases |ps|
  {
    if |ps| == 1 {
      assert ps[..0] == [];
    } else {
      OneHeading(ps[..|ps| - 1]);
    }
  }

  /** A section has exactly one heading: its title. */
  lemma SectionHeading(c: Cursor, title: string, data: Value)
    ensures Headings(Section(c, title, data).0) == [title]
  {
    SectionLines(c, title, data);
    OneHeading(Section(c, title, data).0);
  }

  /** The listed names the document has, in order. */
  function PresentNames(doc: Value, names: seq<string>): (r: seq<string>)
    ensures forall n :: n in r <==> n in names && Present(doc, n).Some?
    decreases |names|
  {
    if names == [] then []
    else PresentNames(doc, names[..|names| - 1])
         + (if Present(doc, names[|names| - 1]).Some? then [names[|names| - 1]] else [])
  }

  /** The headings drawn are the names of the sections the document has, in the listed order. */
  lemma {:induction false} SectionsHeadings(c: Cursor, doc: Value, names: seq<string>)
    ensures Headings(Sections(c, doc, names).0) == PresentNames(doc, names)
    decreases |names|
  {
    if names != [] {
      var init := names[..|names| - 1];
      var name := names[|names| - 1];
      var (ps, d) := Sections(c, doc, init);
      SectionsHeadings(c, doc, init);
      HeadingsAppend(ps, SectionStep(d, doc, name).0);
      match Present(doc, name)
      case None =>
        assert Headings(SectionStep(d, doc, name).0) == [];
      case Some(data) =>
        SectionHeading(d, name, data);
    }
  }

  /**
   * The drawn report: the title first, then the section headings the document
   * has in the listed order, everything in reading order, every line between
   * 20 points and the top line, on as many pages as the page count says.
   */
  lemma ReportLayout(assetName: string, doc: Value)
    ensures Report(assetName, doc)[0] == Placed(0, 40, Top, TitleFont, "Asset Report: " + assetName)
    ensures InOrder(Report(assetName, doc))
    ensures Headings(Report(assetName, doc)) == PresentNames(doc, SectionNames)
    ensures forall q :: q in Report(assetName, doc) ==> 20 <= q.y <= Top && q.page < PageCount(doc)
  {
    var (ps, e) := Sections(Start, doc, SectionNames);
    var title := TitleLine(assetName);
    SectionsOrder(Start, doc, SectionNames);
    SectionsBounds(Start, doc, SectionNames);
    SectionsHeadings(Start, doc, SectionNames);
    assert Between(Cursor(0, Top, TitleFont), [title], Start);
    BetweenAppend(Cursor(0, Top, TitleFont), [title], Start, ps, e);
    HeadingsAppend([title], ps);
    assert [title][..0] == [];
    assert Headings([title]) == [];
  }

  // ---------------------------------------------------------------------------
  // When drawing raises

  /** When every name either passes or raises the same message, the first error is that message exactly when some name raises. */
  lemma {:induction false} FirstErrorUniform(doc: Value, names: seq<string>, msg: string)
    requires forall n :: n in names ==> StepError(doc, n) == None || StepError(doc, n) == Some(msg)
    ensures FirstError(doc, names) == if exists n :: n in names && StepError(doc, n).Some? then Some(msg) else None
    decreases |names|
  {
    if names != [] {
      var init := names[..|names| - 1];
      assert forall n :: n in init ==> n in names;
      FirstErrorUniform(doc, init, msg);
      assert names == init + [names[|names| - 1]];
    }
  }

  /** A document that is an object never makes the report raise. */
  lemma ObjectReportSucceeds(doc: Value)
    requires doc.Obj?
    ensures ReportError(doc) == None
  {
    forall n | n in SectionNames ensures StepError(doc, n) == None {
      assert Contains(doc, n) == Ok(n in KeysOf(doc.fields));
    }
    FirstErrorUniform(doc, SectionNames, "");
  }

  /** `null`, a boolean or a number raises at the first `in`. */
  lemma ScalarReportRaises(doc: Value)
    requires doc.Null? || doc.Bool? || doc.Num?
    ensures ReportError(doc) == Some("argument of type '" + TypeName(doc) + "' is not iterable")
  {
    var msg := "argument of type '" + TypeName(doc) + "' is not iterable";
    assert StepError(doc, SectionNames[0]) == Some(msg);
    FirstErrorUniform(doc, SectionNames, msg);
  }

  /** A list raises at the subscript exactly when it holds a section name as a string. */
  lemma ListReportRaises(doc: Value)
    requires doc.Arr?
    ensures ReportError(doc) == if exists n :: n in SectionNames && Str(n) in doc.items
                                then Some("list indices must be integers or slices, not str") else None
  {
    FirstErrorUniform(doc, SectionNames, "list indices must be integers or slices, not str");
  }

  /** A string raises at the subscript exactly when a section name occurs in it. */
  lemma StringReportRaises(doc: Value)
    requires doc.Str?
    ensures ReportError(doc) == if exists n :: n in SectionNames && Occurs(n, doc.s)
                                then Some("string indices must be integers, not 'str'") else None
  {
    FirstErrorUniform(doc, SectionNames, "string indices must be integers, not 'str'");
  }
}
