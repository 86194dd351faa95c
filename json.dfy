/**
 * A JSON document as both the browser (JavaScript) and the back end
 * (Python's `json.loads`) see it, and the JavaScript operations the asset
 * pages apply to it: truthiness, `Object.entries`/`keys`/`values`, property
 * access, `String(v)`, `JSON.stringify(v, null, 2)`, and the first-seen key
 * union `Array.from(new Set(xs.flatMap(Object.keys)))`.
 */
module JsValue {
  import opened Common
  import opened Text

  /**
   * A parsed JSON value. Numbers are integers; an object keeps its key
   * sequence as parsed (keys are taken to be distinct, as `JSON.parse`
   * leaves them).
   */
  datatype Value =
    | Null
    | Bool(b: bool)
    | Num(n: int)
    | Str(s: string)
    | Obj(fields: seq<(string, Value)>)
    | Arr(items: seq<Value>)

  /** JavaScript truthiness: `null`, `false`, `0` and `""` are falsy, every object and array is truthy. */
  predicate Truthy(v: Value) {
    match v
    case Null => false
    case Bool(b) => b
    case Num(n) => n != 0
    case Str(s) => s != []
    case Obj(_) => true
    case Arr(_) => true
  }

  /** `a || b`: the left operand when it is truthy, otherwise the right. */
  function Or(a: Value, b: Value): Value {
    if Truthy(a) then a else b
  }

  /** `||` is truthy when either operand is, and groups either way. */
  lemma OrLaws(a: Value, b: Value, c: Value)
    ensures Truthy(Or(a, b)) <==> Truthy(a) || Truthy(b)
    ensures Or(Or(a, b), c) == Or(a, Or(b, c))
    ensures Or(a, a) == a
  {
  }

  /** A missing property (`undefined`) or `null`: what `??` replaces. */
  predicate Nullish(o: Option<Value>) {
    o.None? || o.value.Null?
  }

  /**
   * `Object.entries(v)`; `None` when it throws (a TypeError on `null`).
   * Arrays and strings list their indices, other primitives have no entries.
   */
  function Entries(v: Value): (r: Option<seq<(string, Value)>>)
    ensures r.None? <==> v.Null?
    ensures v.Obj? ==> r == Some(v.fields)
    ensures v.Arr? ==> r.Some? && |r.value| == |v.items|
    ensures v.Arr? ==> forall i :: 0 <= i < |v.items| ==> r.value[i].1 == v.items[i]
    ensures (v.Bool? || v.Num?) ==> r == Some([])
  {
    match v
    case Null => None
    case Bool(_) => Some([])
    case Num(_) => Some([])
    case Str(s) => Some(seq(|s|, i requires 0 <= i < |s| => (NatToString(i), Str([s[i]]))))
    case Obj(fields) => Some(fields)
    case Arr(items) => Some(seq(|items|, i requires 0 <= i < |items| => (NatToString(i), items[i])))
  }

  function KeysOf(kvs: seq<(string, Value)>): seq<string> {
    seq(|kvs|, i requires 0 <= i < |kvs| => kvs[i].0)
  }

  function ValuesOf(kvs: seq<(string, Value)>): seq<Value> {
    seq(|kvs|, i requires 0 <= i < |kvs| => kvs[i].1)
  }

  /** `Object.keys(v)`; `None` when it throws. */
  function Keys(v: Value): Option<seq<string>> {
    match Entries(v)
    case None => None
    case Some(kvs) => Some(KeysOf(kvs))
  }

  /** `Object.values(v)`; `None` when it throws. */
  function Values(v: Value): Option<seq<Value>> {
    match Entries(v)
    case None => None
    case Some(kvs) => Some(ValuesOf(kvs))
  }

  /** The value of the first entry named `k`. */
  function Lookup(kvs: seq<(string, Value)>, k: string): (r: Option<Value>)
    ensures r.None? <==> k !in KeysOf(kvs)
    ensures r.Some? ==> exists i :: 0 <= i < |kvs| && kvs[i] == (k, r.value)
  {
    if kvs == [] then
      assert KeysOf(kvs) == [];
      None
    else if kvs[0].0 == k then
      assert KeysOf(kvs)[0] == k;
      Some(kvs[0].1)
    else
      var r := Lookup(kvs[1..], k);
      assert KeysOf(kvs) == [kvs[0].0] + KeysOf(kvs[1..]);
      r
  }

  /**
   * Property access `v[k]` on a non-null value; `None` stands for
   * `undefined`. Arrays and strings also have their own `length`.
   */
  function Get(v: Value, k: string): Option<Value> {
    match v
    case Obj(fields) => Lookup(fields, k)
    case Arr(items) => if k == "length" then Some(Num(|items|)) else Lookup(Entries(v).value, k)
    case Str(s) => if k == "length" then Some(Num(|s|)) else Lookup(Entries(v).value, k)
    case _ => None
  }

  /** The keys and the values of joined entry lists are the joined keys and values. */
  lemma KeysValuesAppend(a: seq<(string, Value)>, b: seq<(string, Value)>)
    ensures KeysOf(a + b) == KeysOf(a) + KeysOf(b)
    ensures ValuesOf(a + b) == ValuesOf(a) + ValuesOf(b)
  {
  }

  /**
   * With distinct keys, `Object.keys` and `Object.values` line up: reading
   * the i-th key gives back the i-th value.
   */
  lemma {:induction false} KeysValuesAgree(kvs: seq<(string, Value)>, i: nat)
    requires forall m, n :: 0 <= m < n < |kvs| ==> kvs[m].0 != kvs[n].0
    requires i < |kvs|
    ensures Lookup(kvs, KeysOf(kvs)[i]) == Some(ValuesOf(kvs)[i])
  {
    if i > 0 {
      assert kvs[0].0 != kvs[i].0;
      KeysValuesAgree(kvs[1..], i - 1);
    }
  }

  /** Every key `Object.keys` reports can be read back with property access. */
  lemma KeysReadable(v: Value, k: string)
    requires Keys(v).Some? && k in Keys(v).value
    ensures Get(v, k).Some?
  {
  }

  // ---------------------------------------------------------------------------
  // First-seen key union

  /** The elements of `xs`, each kept at its first occurrence only (`Array.from(new Set(xs))`). */
  function Dedupe(xs: seq<string>): (r: seq<string>)
    ensures forall x :: x in r <==> x in xs
    ensures forall i, j :: 0 <= i < j < |r| ==> r[i] != r[j]
  {
    if xs == [] then []
    else
      var p := Dedupe(xs[..|xs| - 1]);
      var x := xs[|xs| - 1];
      assert xs == xs[..|xs| - 1] + [x];
      if x in p then p else p + [x]
  }

  /** `lists.flat()`. */
  function Flatten(lists: seq<seq<string>>): (r: seq<string>)
    ensures forall x :: x in r <==> exists i :: 0 <= i < |lists| && x in lists[i]
  {
    if lists == [] then []
    else
      var r := Flatten(lists[..|lists| - 1]) + lists[|lists| - 1];
      assert forall i :: 0 <= i < |lists| - 1 ==> lists[..|lists| - 1][i] == lists[i];
      r
  }

  /** The column set of a union table: every key of every row, in first-seen order. */
  function KeyUnion(lists: seq<seq<string>>): seq<string> {
    Dedupe(Flatten(lists))
  }

  /** Position of the first occurrence of `x` in `xs`. */
  function FirstIndex(xs: seq<string>, x: string): (i: nat)
    requires x in xs
    ensures i < |xs| && xs[i] == x && x !in xs[..i]
  {
    if xs[0] == x then 0
    else
      var i := 1 + FirstIndex(xs[1..], x);
      assert xs[..i] == [xs[0]] + xs[1..][..i - 1];
      i
  }

  /** Dedupe only ever appends: deduplicating a longer list extends the shorter one's result. */
  lemma {:induction false} DedupePrefix(xs: seq<string>, ys: seq<string>)
    ensures |Dedupe(xs)| <= |Dedupe(xs + ys)|
    ensures Dedupe(xs + ys)[..|Dedupe(xs)|] == Dedupe(xs)
    decreases |ys|
  {
    if ys == [] {
      assert xs + ys == xs;
    } else {
      var zs := xs + ys[..|ys| - 1];
      DedupePrefix(xs, ys[..|ys| - 1]);
      assert (xs + ys)[..|xs + ys| - 1] == zs;
    }
  }

  /** Dedupe keeps first occurrences in order: earlier columns were first seen earlier. */
  lemma {:induction false} DedupeFirstSeen(xs: seq<string>, i: nat, j: nat)
    requires i < j < |Dedupe(xs)|
    ensures FirstIndex(xs, Dedupe(xs)[i]) < FirstIndex(xs, Dedupe(xs)[j])
    decreases |xs|
  {
    var r := Dedupe(xs);
    var p := xs[..|xs| - 1];
    var x := xs[|xs| - 1];
    assert xs == p + [x];
    var dp := Dedupe(p);
    FirstIndexPrefix(p, x, r[i]);
    if j < |dp| {
      DedupeFirstSeen(p, i, j);
      FirstIndexPrefix(p, x, r[j]);
    } else {
      // r[j] is the new last element x, seen for the first time at the end
      assert r[j] == x && x !in p;
      assert r[i] in p;
      FirstIndexPrefix(p, x, r[j]);
    }
  }

  lemma FirstIndexPrefix(p: seq<string>, x: string, y: string)
    requires y in p + [x]
    ensures y in p ==> FirstIndex(p + [x], y) == FirstIndex(p, y)
    ensures y !in p ==> FirstIndex(p + [x], y) == |p|
  {
    var k := FirstIndex(p + [x], y);
    if y in p {
      var m := FirstIndex(p, y);
      assert (p + [x])[m] == y;
    }
  }

  lemma FlattenAppend(lists: seq<seq<string>>, last: seq<string>)
    ensures Flatten(lists + [last]) == Flatten(lists) + last
  {
    assert (lists + [last])[..|lists|] == lists;
  }

  /**
   * The union columns begin with the first row's keys, in that row's order:
   * a union table only ever adds columns after those a first-row table shows.
   */
  lemma {:induction false} UnionStartsWithFirstRow(lists: seq<seq<string>>)
    requires |lists| >= 1
    requires forall i, j :: 0 <= i < j < |lists[0]| ==> lists[0][i] != lists[0][j]
    ensures |lists[0]| <= |KeyUnion(lists)|
    ensures KeyUnion(lists)[..|lists[0]|] == lists[0]
    decreases |lists|
  {
    if |lists| == 1 {
      FlattenAppend([], lists[0]);
      assert [] + [lists[0]] == lists;
      assert Flatten([]) == [];
      assert Flatten(lists) == lists[0];
      DedupeOfDistinct(lists[0]);
      assert KeyUnion(lists) == lists[0];
    } else {
      var init := lists[..|lists| - 1];
      UnionStartsWithFirstRow(init);
      FlattenAppend(init, lists[|lists| - 1]);
      assert init + [lists[|lists| - 1]] == lists;
      DedupePrefix(Flatten(init), lists[|lists| - 1]);
      assert KeyUnion(lists)[..|KeyUnion(init)|] == KeyUnion(init);
      assert init[0] == lists[0];
    }
  }

  /** A list without repetitions is its own deduplication. */
  lemma {:induction false} DedupeOfDistinct(xs: seq<string>)
    requires forall i, j :: 0 <= i < j < |xs| ==> xs[i] != xs[j]
    ensures Dedupe(xs) == xs
    decreases |xs|
  {
    if xs != [] {
      var p := xs[..|xs| - 1];
      DedupeOfDistinct(p);
      assert forall k :: 0 <= k < |p| ==> p[k] == xs[k];
      assert p + [xs[|xs| - 1]] == xs;
    }
  }

  // ---------------------------------------------------------------------------
  // Rendering values as text

  /** `String(v)`. */
  function JsString(v: Value): string
    decreases v
  {
    match v
    case Null => "null"
    case Bool(b) => if b then "true" else "false"
    case Num(n) => IntToString(n)
    case Str(s) => s
    case Obj(_) => "[object Object]"
    case Arr(items) =>
      // Array.prototype.join renders null elements as empty strings
      JoinWith(seq(|items|, i requires 0 <= i < |items| => if items[i].Null? then "" else JsString(items[i])), ",")
  }

  /** One character inside a JSON string literal, escaped as `JSON.stringify` does. */
  function QuoteChar(c: char): string {
    if c == '"' then "\\\""
    else if c == '\\' then "\\\\"
    else if c == '\U{8}' then "\\b"
    else if c == '\U{c}' then "\\f"
    else if c == '\n' then "\\n"
    else if c == '\r' then "\\r"
    else if c == '\t' then "\\t"
    else if c < ' ' then "\\u" + Hex(c as int, 4)
    else [c]
  }

  /** A JSON string literal for `s`. */
  function Quote(s: string): (r: string)
    ensures |r| >= 2 && r[0] == '"' && r[|r| - 1] == '"'
  {
    "\"" + QuoteBody(s) + "\""
  }

  function QuoteBody(s: string): string {
    if s == [] then [] else QuoteChar(s[0]) + QuoteBody(s[1..])
  }

  /** `JSON.stringify(v, null, 2)` for a value nested at indentation `ind`. */
  function Stringify(v: Value, ind: string): (r: string)
    ensures r != []
    ensures v.Obj? ==> r[0] == '{'
    ensures v.Arr? ==> r[0] == '['
    ensures v.Str? ==> r[0] == '"'
    decreases v
  {
    match v
    case Null => "null"
    case Bool(b) => if b then "true" else "false"
    case Num(n) => IntToString(n)
    case Str(s) => Quote(s)
    case Arr(items) =>
      if items == [] then "[]"
      else
        var inner := ind + "  ";
        var parts := seq(|items|, i requires 0 <= i < |items| => Stringify(items[i], inner));
        "[\n" + inner + JoinWith(parts, ",\n" + inner) + "\n" + ind + "]"
    case Obj(fields) =>
      if fields == [] then "{}"
      else
        var inner := ind + "  ";
        var parts := seq(|fields|, i requires 0 <= i < |fields| =>
                           assert fields[i] in fields;
                           Quote(fields[i].0) + ": " + Stringify(fields[i].1, inner));
        "{\n" + inner + JoinWith(parts, ",\n" + inner) + "\n" + ind + "}"
  }
}
