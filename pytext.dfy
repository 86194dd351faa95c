/**
 * Python's text rendering of values: `repr` of a string (as `%r` puts it
 * into error messages) and `str` of a decoded JSON value (as f-strings put
 * it into report lines).
 */
module PyText {
  import opened Text
  import opened JsValue

  /** Characters `repr` escapes because `str.isprintable` rejects them (ASCII and Latin-1 controls, and the Unicode spaces). */
  predicate NonPrintable(c: char) {
    c < ' ' || ('\U{7f}' <= c <= '\U{a0}') || c == '\U{ad}' || (c > '\U{ff}' && IsPySpace(c))
  }

  /** One character inside a quoted `repr`, with `quote` the chosen quote character. */
  function ReprChar(c: char, quote: char): (r: string)
    ensures |r| >= 1
    ensures r == [c] <==> (c != quote && c != '\\' && !NonPrintable(c))
  {
    if c == quote || c == '\\' then ['\\', c]
    else if c == '\t' then "\\t"
    else if c == '\n' then "\\n"
    else if c == '\r' then "\\r"
    else if NonPrintable(c) then
      if c <= '\U{ff}' then "\\x" + Hex(c as int, 2)
      else if c <= '\U{ffff}' then "\\u" + Hex(c as int, 4)
      else "\\U" + Hex(c as int, 8)
    else [c]
  }

  function ReprBody(s: string, quote: char): (r: string)
    ensures |r| >= |s|
  {
    if s == [] then [] else ReprChar(s[0], quote) + ReprBody(s[1..], quote)
  }

  /** `repr(s)`: double quotes when `s` has a single quote and no double quote, single quotes otherwise. */
  function PyRepr(s: string): (r: string)
    ensures |r| >= |s| + 2
    ensures r[0] == r[|r| - 1]
    ensures r[0] == '"' <==> ('\'' in s && '"' !in s)
    ensures r[0] == '\'' <==> !('\'' in s && '"' !in s)
  {
    var quote := if '\'' in s && '"' !in s then '"' else '\'';
    [quote] + ReprBody(s, quote) + [quote]
  }

  /** A string of plain printable characters is its own body. */
  lemma {:induction false} PlainBody(s: string, quote: char)
    requires forall i :: 0 <= i < |s| ==> s[i] != quote && s[i] != '\\' && !NonPrintable(s[i])
    ensures ReprBody(s, quote) == s
  {
    if s != [] {
      PlainBody(s[1..], quote);
      assert s == [s[0]] + s[1..];
    }
  }

  /** The `repr` of a string without quotes, backslashes or unprintable characters is the string in single quotes. */
  lemma ReprOfPlain(s: string)
    requires forall i :: 0 <= i < |s| ==> s[i] != '\'' && s[i] != '"' && s[i] != '\\' && !NonPrintable(s[i])
    ensures PyRepr(s) == "'" + s + "'"
  {
    assert '\'' !in s;
    PlainBody(s, '\'');
  }

  /** `type(v).__name__` of a value decoded by `json.loads`. */
  function TypeName(v: Value): string {
    match v
    case Null => "NoneType"
    case Bool(_) => "bool"
    case Num(_) => "int"
    case Str(_) => "str"
    case Arr(_) => "list"
    case Obj(_) => "dict"
  }

  /** `str(v)` of a value decoded by `json.loads`: strings as they are, containers by `repr` of their parts. */
  function PyStr(v: Value): (r: string)
    ensures v.Str? ==> r == v.s
    ensures v.Null? ==> r == "None"
    ensures !v.Str? ==> r != []
    ensures v.Obj? ==> r[0] == '{' && r[|r| - 1] == '}'
    ensures v.Arr? ==> r[0] == '[' && r[|r| - 1] == ']'
  {
    if v.Str? then v.s else PyReprValue(v)
  }

  /** `repr(v)` of a decoded JSON value. */
  function PyReprValue(v: Value): (r: string)
    ensures r != []
    ensures v.Obj? ==> r[0] == '{' && r[|r| - 1] == '}'
    ensures v.Arr? ==> r[0] == '[' && r[|r| - 1] == ']'
    decreases v
  {
    match v
    case Null => "None"
    case Bool(b) => if b then "True" else "False"
    case Num(n) => IntToString(n)
    case Str(s) => PyRepr(s)
    case Arr(items) =>
      "[" + JoinWith(seq(|items|, i requires 0 <= i < |items| => PyReprValue(items[i])), ", ") + "]"
    case Obj(fields) =>
      "{" + JoinWith(seq(|fields|, i requires 0 <= i < |fields| =>
                           assert fields[i] in fields;
                           PyRepr(fields[i].0) + ": " + PyReprValue(fields[i].1)), ", ") + "}"
  }
}
