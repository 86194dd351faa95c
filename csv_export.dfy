/**
 * The CSV export of a project database: each stored JSON document is
 * projected onto five values (address, host name, activation, antivirus and
 * firewall status) read with Python's `dict.get` and defaults, rows that do
 * not decode are skipped, and any other error ends the export.  Decoding is
 * a parameter (each stored text either decodes to a value or raises
 * `JSONDecodeError`); the SQLite query and the CSV writer's quoting are not
 * modelled.
 */
module CsvExport {
  import opened Common
  import opened JsValue
  import opened PyText
  import WmiExec

  /** The header row: eight column names, although each data row has five values. */
  const Headers: seq<string> := ["IP", "Hostname", "OS Name", "License Status", "Disk Space", "Ram", "AV Status", "Firewall Status"]

  /** The exceptions the projection can raise (none of them is caught). */
  datatype PyError =
    | AttributeError(msg: string)
    | IndexError(msg: string)
    | KeyError(msg: string)
    | TypeError(msg: string)

  /** The message of the AttributeError raised by `get` on a value of another type. */
  function NoGet(typeName: string): string {
    "'" + typeName + "' object has no attribute 'get'"
  }

  /** `v.get(key, default)`: only a dictionary has `get`. */
  function DictGet(v: Value, key: string, default: Value): (r: Result<Value, PyError>)
    ensures r.Err? <==> !v.Obj?
  {
    match v
    case Obj(fields) => if Lookup(fields, key).Some? then Ok(Lookup(fields, key).value) else Ok(default)
    case _ => Err(AttributeError(NoGet(TypeName(v))))
  }

  /** `v[0]` on a decoded JSON value. */
  function First(v: Value): (r: Result<Value, PyError>)
    ensures r.Ok? <==> (v.Arr? && v.items != []) || (v.Str? && v.s != [])
  {
    match v
    case Arr(items) => if items == [] then Err(IndexError("list index out of range")) else Ok(items[0])
    case Str(s) => if s == [] then Err(IndexError("string index out of range")) else Ok(Str([s[0]]))
    case Obj(_) => Err(KeyError("0"))
    case _ => Err(TypeError("'" + TypeName(v) + "' object is not subscriptable"))
  }

  /** `data.get(outer, {}).get(inner, "")`. */
  function Nested(data: Value, outer: string, inner: string): Result<Value, PyError> {
    match DictGet(data, outer, Obj([]))
    case Err(e) => Err(e)
    case Ok(v) => DictGet(v, inner, Str(""))
  }

  /** `data.get("Security", [{}])[0].get(outer, {}).get(inner, "")`. */
  function SecurityField(data: Value, outer: string, inner: string): Result<Value, PyError> {
    match DictGet(data, "Security", Arr([Obj([])]))
    case Err(e) => Err(e)
    case Ok(security) =>
      match First(security)
      case Err(e) => Err(e)
      case Ok(head) => Nested(head, outer, inner)
  }

  /** The five values of one decoded document, read in the order the statements run. */
  function RowOf(data: Value): (r: Result<seq<Value>, PyError>)
    ensures r.Ok? ==> |r.value| == 5
  {
    match Nested(data, "System", "IPAddress")
    case Err(e) => Err(e)
    case Ok(ip) =>
      match Nested(data, "System", "Hostname")
      case Err(e) => Err(e)
      case Ok(hostname) =>
        match Nested(data, "OS", "Activated")
        case Err(e) => Err(e)
        case Ok(activated) =>
          match SecurityField(data, "Antivirus", "SignatureStatus")
          case Err(e) => Err(e)
          case Ok(av) =>
            match SecurityField(data, "Firewall", "Status")
            case Err(e) => Err(e)
            case Ok(firewall) => Ok([ip, hostname, activated, av, firewall])
  }

  // ---------------------------------------------------------------------------
  // A reference reading of the five fields

  /** One step of a path into a document: a key of an object, or the first item of a list. */
  datatype Step = Key(name: string) | Head

  /** Follows a path, giving "" as soon as a key is missing. */
  function Walk(v: Value, path: seq<Step>): Value
    decreases |path|
  {
    if path == [] then v
    else match path[0]
      case Key(k) => if v.Obj? && Lookup(v.fields, k).Some? then Walk(Lookup(v.fields, k).value, path[1..]) else Str("")
      case Head => if v.Arr? && v.items != [] then Walk(v.items[0], path[1..]) else Str("")
  }

  /** Every value met along the path has the kind the next step needs: an object for a key, a non-empty list for the head. */
  predicate Readable(v: Value, path: seq<Step>)
    decreases |path|
  {
    path == []
    || match path[0]
       case Key(k) => v.Obj? && (Lookup(v.fields, k).Some? ==> Readable(Lookup(v.fields, k).value, path[1..]))
       case Head => v.Arr? && v.items != [] && Readable(v.items[0], path[1..])
  }

  const IpPath: seq<Step> := [Key("System"), Key("IPAddress")]
  const HostnamePath: seq<Step> := [Key("System"), Key("Hostname")]
  const ActivatedPath: seq<Step> := [Key("OS"), Key("Activated")]
  const AvPath: seq<Step> := [Key("Security"), Head, Key("Antivirus"), Key("SignatureStatus")]
  const FirewallPath: seq<Step> := [Key("Security"), Head, Key("Firewall"), Key("Status")]

  /** A walk that starts with a key: one lookup, then the rest of the path. */
  lemma WalkKey(v: Value, k: string, rest: seq<Step>)
    ensures Walk(v, [Key(k)] + rest) ==
              if v.Obj? && Lookup(v.fields, k).Some? then Walk(Lookup(v.fields, k).value, rest) else Str("")
    ensures Readable(v, [Key(k)] + rest) <==>
              v.Obj? && (Lookup(v.fields, k).Some? ==> Readable(Lookup(v.fields, k).value, rest))
  {
    assert ([Key(k)] + rest)[0] == Key(k) && ([Key(k)] + rest)[1..] == rest;
  }

  /** Two object lookups with defaults read the same as walking the two keys, and fail exactly when the walk is not readable. */
  lemma NestedWalks(data: Value, outer: string, inner: string)
    ensures Nested(data, outer, inner).Ok? <==> Readable(data, [Key(outer), Key(inner)])
    ensures Nested(data, outer, inner).Ok? ==> Nested(data, outer, inner).value == Walk(data, [Key(outer), Key(inner)])
  {
    WalkKey(data, outer, [Key(inner)]);
    assert [Key(outer)] + [Key(inner)] == [Key(outer), Key(inner)];
    var v := if data.Obj? && Lookup(data.fields, outer).Some? then Lookup(data.fields, outer).value else Obj([]);
    WalkKey(v, inner, []);
    assert [Key(inner)] + [] == [Key(inner)];
  }

  /** A missing "Security" reads as `[{}]`, whose head has no keys: the same as a walk that stops at once. */
  lemma SecurityWalks(data: Value, outer: string, inner: string)
    ensures SecurityField(data, outer, inner).Ok? <==>
              data.Obj? && (Lookup(data.fields, "Security").Some? ==>
                              Readable(Lookup(data.fields, "Security").value, [Head, Key(outer), Key(inner)]))
    ensures SecurityField(data, outer, inner).Ok? ==>
              SecurityField(data, outer, inner).value == Walk(data, [Key("Security"), Head, Key(outer), Key(inner)])
  {
    var tail := [Key(outer), Key(inner)];
    var path := [Key("Security"), Head] + tail;
    assert path[1..] == [Head] + tail && path[1..][1..] == tail;
    NestedWalks(Obj([]), outer, inner);
    if data.Obj? && Lookup(data.fields, "Security").Some? {
      var security := Lookup(data.fields, "Security").value;
      if security.Arr? && security.items != [] {
        NestedWalks(security.items[0], outer, inner);
      } else if security.Str? && security.s != [] {
        NestedWalks(Str([security.s[0]]), outer, inner);
      }
    }
  }

  /**
   * A document gives a row exactly when all five paths are readable, and the
   * row is then the five walks: the value where the path leads, "" where a
   * key is missing.
   */
  lemma RowOfWalks(data: Value)
    ensures RowOf(data).Ok? <==>
              Readable(data, IpPath) && Readable(data, ActivatedPath)
              && Readable(data, AvPath) && Readable(data, FirewallPath)
    ensures RowOf(data).Ok? ==>
              RowOf(data).value == [Walk(data, IpPath), Walk(data, HostnamePath), Walk(data, ActivatedPath),
                                    Walk(data, AvPath), Walk(data, FirewallPath)]
  {
    NestedWalks(data, "System", "IPAddress");
    NestedWalks(data, "System", "Hostname");
    NestedWalks(data, "OS", "Activated");
    SecurityWalks(data, "Antivirus", "SignatureStatus");
    SecurityWalks(data, "Firewall", "Status");
    assert AvPath == [Key("Security"), Head, Key("Antivirus"), Key("SignatureStatus")];
    assert FirewallPath == [Key("Security"), Head, Key("Firewall"), Key("Status")];
    assert Readable(data, IpPath) <==> Readable(data, HostnamePath);
    assert Readable(data, AvPath) <==>
             data.Obj? && (Lookup(data.fields, "Security").Some? ==>
                             Readable(Lookup(data.fields, "Security").value, AvPath[1..]));
    assert Readable(data, FirewallPath) <==>
             data.Obj? && (Lookup(data.fields, "Security").Some? ==>
                             Readable(Lookup(data.fields, "Security").value, FirewallPath[1..]));
  }

  /** A document with none of the keys gives five empty strings. */
  lemma RowOfEmpty()
    ensures RowOf(Obj([])) == Ok([Str(""), Str(""), Str(""), Str(""), Str("")])
  {
  }

  /** A document that is not an object raises at the first `get`. */
  lemma RowOfNonObject(data: Value)
    requires !data.Obj?
    ensures RowOf(data) == Err(AttributeError(NoGet(TypeName(data))))
  {
  }

  /** An empty Security list raises IndexError once the System and OS reads have passed. */
  lemma RowOfEmptySecurity(fields: seq<(string, Value)>)
    requires Lookup(fields, "Security") == Some(Arr([]))
    requires Readable(Obj(fields), IpPath) && Readable(Obj(fields), ActivatedPath)
    ensures RowOf(Obj(fields)) == Err(IndexError("list index out of range"))
  {
    NestedWalks(Obj(fields), "System", "IPAddress");
    NestedWalks(Obj(fields), "System", "Hostname");
    NestedWalks(Obj(fields), "OS", "Activated");
  }

  /** A document that is a bare string raises at the first `get`. */
  lemma RowOfString(s: string)
    ensures RowOf(Str(s)) == Err(AttributeError(NoGet("str")))
  {
    RowOfNonObject(Str(s));
  }

  /**
   * A failed login stores its data, the bare string "Error during login", as
   * JSON; it decodes to a string, and the export raises on it.
   */
  lemma FailedLoginRowRaises(projectName: string, ip: string, code: int)
    requires code != 0
    ensures var stored := WmiExec.Finish(projectName, ip, WmiExec.Exited(code)).stored;
            stored.Some?
            && RowOf(Str(stored.value.data)) == Err(AttributeError(NoGet("str")))
  {
    RowOfString(WmiExec.Finish(projectName, ip, WmiExec.Exited(code)).stored.value.data);
  }

  // ---------------------------------------------------------------------------
  // The loop over the stored rows

  /** The decoded documents in database order; `None` stands for a row whose text raised `JSONDecodeError`. */
  function Decoded(docs: seq<Option<Value>>): (ds: seq<Value>)
    ensures |ds| <= |docs|
    decreases |docs|
  {
    if docs == [] then []
    else
      var ds := Decoded(docs[..|docs| - 1]);
      if docs[|docs| - 1].Some? then ds + [docs[|docs| - 1].value] else ds
  }

  /** The projections of decoded documents, in order, up to the first that raises. */
  function ProjectAll(ds: seq<Value>, project: Value -> Result<seq<Value>, PyError>): Result<seq<seq<Value>>, PyError>
    decreases |ds|
  {
    if ds == [] then Ok([])
    else
      match ProjectAll(ds[..|ds| - 1], project)
      case Err(e) => Err(e)
      case Ok(rows) =>
        match project(ds[|ds| - 1])
        case Err(e) => Err(e)
        case Ok(row) => Ok(rows + [row])
  }

  /** The data rows: undecodable rows skipped, the first projection error raised. */
  function Rows(docs: seq<Option<Value>>): Result<seq<seq<Value>>, PyError> {
    ProjectAll(Decoded(docs), RowOf)
  }

  /** No document before position `k` raises when projected. */
  predicate NoneRaisesBefore(ds: seq<Value>, project: Value -> Result<seq<Value>, PyError>, k: int) {
    forall j :: 0 <= j < k && j < |ds| ==> project(ds[j]).Ok?
  }

  /** The projection succeeds exactly when no document raises, and then gives one row per document, in order. */
  lemma {:induction false} ProjectAllOk(ds: seq<Value>, project: Value -> Result<seq<Value>, PyError>)
    ensures ProjectAll(ds, project).Ok? <==> NoneRaisesBefore(ds, project, |ds|)
    ensures ProjectAll(ds, project).Ok? ==>
              |ProjectAll(ds, project).value| == |ds|
              && forall j :: 0 <= j < |ds| ==> ProjectAll(ds, project).value[j] == project(ds[j]).value
    decreases |ds|
  {
    if ds != [] {
      var init := ds[..|ds| - 1];
      ProjectAllOk(init, project);
      assert forall j :: 0 <= j < |init| ==> init[j] == ds[j];
    }
  }

  /** When the projection raises, it raises the error of the first document that does. */
  lemma {:induction false} ProjectAllErr(ds: seq<Value>, project: Value -> Result<seq<Value>, PyError>)
    ensures ProjectAll(ds, project).Err? ==>
              exists k :: 0 <= k < |ds| && NoneRaisesBefore(ds, project, k)
                          && project(ds[k]) == Err(ProjectAll(ds, project).error)
    decreases |ds|
  {
    if ds != [] {
      var init := ds[..|ds| - 1];
      ProjectAllErr(init, project);
      assert forall j :: 0 <= j < |init| ==> init[j] == ds[j];
      if ProjectAll(init, project).Ok? {
        ProjectAllOk(init, project);
        assert ProjectAll(ds, project).Err? ==> NoneRaisesBefore(ds, project, |ds| - 1);
      }
    }
  }

  /**
   * The rows are the projections of the decoded documents, in order, when
   * none raises; otherwise the export raises the first document's error.
   */
  lemma RowsOfDecoded(docs: seq<Option<Value>>)
    ensures Rows(docs).Ok? <==> NoneRaisesBefore(Decoded(docs), RowOf, |Decoded(docs)|)
    ensures Rows(docs).Ok? ==>
              |Rows(docs).value| == |Decoded(docs)|
              && forall j :: 0 <= j < |Decoded(docs)| ==> Rows(docs).value[j] == RowOf(Decoded(docs)[j]).value
    ensures Rows(docs).Err? ==>
              exists k :: 0 <= k < |Decoded(docs)| && NoneRaisesBefore(Decoded(docs), RowOf, k)
                          && RowOf(Decoded(docs)[k]) == Err(Rows(docs).error)
  {
    ProjectAllOk(Decoded(docs), RowOf);
    ProjectAllErr(Decoded(docs), RowOf);
  }

  /**
   * One more stored row: a row that does not decode leaves the result as it
   * was, an earlier error stays, and otherwise the row's projection is
   * appended or its error raised.
   */
  lemma RowsStep(prefix: seq<Option<Value>>, doc: Option<Value>)
    ensures doc.None? ==> Rows(prefix + [doc]) == Rows(prefix)
    ensures doc.Some? && Rows(prefix).Err? ==> Rows(prefix + [doc]) == Rows(prefix)
    ensures doc.Some? && Rows(prefix).Ok? && RowOf(doc.value).Err? ==>
              Rows(prefix + [doc]) == Err(RowOf(doc.value).error)
    ensures doc.Some? && Rows(prefix).Ok? && RowOf(doc.value).Ok? ==>
              Rows(prefix + [doc]) == Ok(Rows(prefix).value + [RowOf(doc.value).value])
  {
    assert (prefix + [doc])[..|prefix|] == prefix;
    if doc.Some? {
      var ds := Decoded(prefix);
      assert Decoded(prefix + [doc]) == ds + [doc.value];
      assert (ds + [doc.value])[..|ds|] == ds;
    }
  }

  /** `str(v)` as the CSV writer puts a value in a cell: `None` is the empty cell. */
  function Cell(v: Value): (s: string)
    ensures v.Str? ==> s == v.s
    ensures v.Null? ==> s == ""
  {
    if v.Null? then "" else PyStr(v)
  }

  function Cells(row: seq<Value>): (cs: seq<string>)
    ensures |cs| == |row| && forall j :: 0 <= j < |row| ==> cs[j] == Cell(row[j])
  {
    seq(|row|, j requires 0 <= j < |row| => Cell(row[j]))
  }

  /**
   * `extract_json_to_csv` up to the writer: the loop that builds
   * `output_data`, which raises out of the export on the first projection
   * error, then the header row followed by the data rows.
   */
  method ExtractJsonToCsv(docs: seq<Option<Value>>) returns (r: Result<seq<seq<string>>, PyError>)
    ensures r.Err? <==> Rows(docs).Err?
    ensures r.Err? ==> r.error == Rows(docs).error
    ensures r.Ok? ==> |r.value| == |Rows(docs).value| + 1 && r.value[0] == Headers
    ensures r.Ok? ==> forall i :: 0 <= i < |Rows(docs).value| ==> r.value[i + 1] == Cells(Rows(docs).value[i])
  {
    var output: seq<seq<Value>> := [];
    var i := 0;
    while i < |docs|
      invariant 0 <= i <= |docs|
      invariant Rows(docs[..i]) == Ok(output)
    {
      var doc := docs[i];
      assert docs[..i + 1] == docs[..i] + [doc];
      RowsStep(docs[..i], doc);
      if doc.Some? {
        var row := RowOf(doc.value);
        if row.Err? {
          RowsPersist(docs, i + 1);
          return Err(row.error);
        }
        output := output + [row.value];
      }
      i := i + 1;
    }
    assert docs[..i] == docs;
    var lines := [Headers];
    var k := 0;
    while k < |output|
      invariant 0 <= k <= |output|
      invariant |lines| == k + 1 && lines[0] == Headers
      invariant forall j :: 0 <= j < k ==> lines[j + 1] == Cells(output[j])
    {
      lines := lines + [Cells(output[k])];
      k := k + 1;
    }
    return Ok(lines);
  }

  /** Once a prefix raises, the whole export raises the same error. */
  lemma {:induction false} RowsPersist(docs: seq<Option<Value>>, n: nat)
    requires n <= |docs| && Rows(docs[..n]).Err?
    ensures Rows(docs) == Rows(docs[..n])
    decreases |docs| - n
  {
    if n < |docs| {
      assert docs[..n + 1] == docs[..n] + [docs[n]];
      RowsStep(docs[..n], docs[n]);
      RowsPersist(docs, n + 1);
    } else {
      assert docs[..n] == docs;
    }
  }

  /** Every data row is three values shorter than the header row. */
  lemma RowsShorterThanHeaders(docs: seq<Option<Value>>, i: nat)
    requires Rows(docs).Ok? && i < |Rows(docs).value|
    ensures |Rows(docs).value[i]| == 5 && |Headers| == 8
  {
    RowsOfDecoded(docs);
  }
}
