/**
 * String primitives shared by the front end (JavaScript) and the back end
 * (Python) models: whitespace trimming, splitting on a separator, substring
 * search and first-occurrence replacement, code-point string order, and
 * decimal rendering of integers.
 */
module Text {
  import opened Common

  // ---------------------------------------------------------------------------
  // Whitespace

  /** The characters Python's `str.isspace` accepts (and `str.strip` removes). */
  predicate IsPySpace(c: char) {
    c == ' ' || ('\U{9}' <= c <= '\U{d}') || ('\U{1c}' <= c <= '\U{1f}')
    || c == '\U{85}' || c == '\U{a0}' || c == '\U{1680}'
    || ('\U{2000}' <= c <= '\U{200a}') || c == '\U{2028}' || c == '\U{2029}'
    || c == '\U{202f}' || c == '\U{205f}' || c == '\U{3000}'
  }

  /** The characters JavaScript's `String.prototype.trim` removes: WhiteSpace and LineTerminator. */
  predicate IsJsSpace(c: char) {
    c == ' ' || ('\U{9}' <= c <= '\U{d}') || c == '\U{a0}' || c == '\U{1680}'
    || ('\U{2000}' <= c <= '\U{200a}') || c == '\U{2028}' || c == '\U{2029}'
    || c == '\U{202f}' || c == '\U{205f}' || c == '\U{3000}' || c == '\U{feff}'
  }

  /** Number of leading characters of `s` satisfying `sp`. */
  function Lead(s: string, sp: char -> bool): (n: nat)
    ensures n <= |s|
    ensures forall k :: 0 <= k < n ==> sp(s[k])
    ensures n < |s| ==> !sp(s[n])
  {
    if |s| > 0 && sp(s[0]) then 1 + Lead(s[1..], sp) else 0
  }

  /** Number of trailing characters of `s` satisfying `sp`. */
  function Trail(s: string, sp: char -> bool): (n: nat)
    ensures n <= |s|
    ensures forall k :: |s| - n <= k < |s| ==> sp(s[k])
    ensures n < |s| ==> !sp(s[|s| - 1 - n])
  {
    if |s| > 0 && sp(s[|s| - 1]) then 1 + Trail(s[..|s| - 1], sp) else 0
  }

  /**
   * `s` with every leading and trailing `sp` character removed: the longest
   * inner slice that neither starts nor ends with such a character.
   */
  function Strip(s: string, sp: char -> bool): (r: string)
    ensures r == [] <==> forall k :: 0 <= k < |s| ==> sp(s[k])
    ensures r != [] ==> !sp(r[0]) && !sp(r[|r| - 1])
    ensures Lead(s, sp) + |r| <= |s| && r == s[Lead(s, sp)..Lead(s, sp) + |r|]
    ensures forall k :: Lead(s, sp) + |r| <= k < |s| ==> sp(s[k])
  {
    var a := Lead(s, sp);
    if a == |s| then
      var r: string := [];
      assert r == s[a..a + |r|];
      r
    else
      var b := Trail(s, sp);
      assert a < |s| - b;
      var r := s[a..|s| - b];
      assert r == s[a..a + |r|];
      r
  }

  // ---------------------------------------------------------------------------
  // Splitting on a one-character separator (Python `str.split(sep)`)

  /** Index of the first `c` in `s`. */
  function Find(s: string, c: char): (r: Option<nat>)
    ensures r.None? ==> c !in s
    ensures r.Some? ==> r.value < |s| && s[r.value] == c && c !in s[..r.value]
  {
    if |s| == 0 then None
    else if s[0] == c then Some(0)
    else
      match Find(s[1..], c)
      case None => None
      case Some(i) =>
        assert s[..i + 1] == [s[0]] + s[1..][..i];
        Some(i + 1)
  }

  /** The pieces of `s` between occurrences of `sep`, as Python's `s.split(sep)`. */
  function Split(s: string, sep: char): (parts: seq<string>)
    ensures |parts| >= 1
    ensures forall i :: 0 <= i < |parts| ==> sep !in parts[i]
    decreases |s|
  {
    match Find(s, sep)
    case None => [s]
    case Some(i) => [s[..i]] + Split(s[i + 1..], sep)
  }

  /** Python's `sep.join(parts)`. */
  function Join(parts: seq<string>, sep: char): string
    requires |parts| >= 1
  {
    if |parts| == 1 then parts[0] else parts[0] + [sep] + Join(parts[1..], sep)
  }

  /** `parts` joined with the separator string `sep` (JavaScript `parts.join(sep)`); empty for no parts. */
  function JoinWith(parts: seq<string>, sep: string): string {
    if parts == [] then []
    else if |parts| == 1 then parts[0]
    else parts[0] + sep + JoinWith(parts[1..], sep)
  }

  /** Splitting and joining again gives back the original text. */
  lemma {:induction false} SplitJoin(s: string, sep: char)
    ensures Join(Split(s, sep), sep) == s
    decreases |s|
  {
    match Find(s, sep)
    case None =>
    case Some(i) =>
      var rest := s[i + 1..];
      var parts := Split(s, sep);
      assert parts == [s[..i]] + Split(rest, sep);
      assert parts[1..] == Split(rest, sep);
      SplitJoin(rest, sep);
      calc {
        Join(parts, sep);
        parts[0] + [sep] + Join(parts[1..], sep);
        s[..i] + [sep] + rest;
        { assert s == s[..i] + [sep] + rest; }
        s;
      }
  }

  /** A piece free of the separator splits off first. */
  lemma SplitCons(x: string, sep: char, y: string)
    requires sep !in x
    ensures Split(x + [sep] + y, sep) == [x] + Split(y, sep)
  {
    var s := x + [sep] + y;
    assert s[|x|] == sep;
    assert s[..|x|] == x;
    var f := Find(s, sep);
    assert f == Some(|x|);
    assert s[|x| + 1..] == y;
  }

  /** A separator at the very end leaves an empty last piece. */
  lemma {:induction false} SplitTrailing(x: string, sep: char)
    ensures Split(x + [sep], sep) == Split(x, sep) + [[]]
    decreases |x|
  {
    var s := x + [sep];
    match Find(x, sep)
    case None =>
      assert s[..|x|] == x;
      assert Find(s, sep) == Some(|x|) by { FindFirst(s, sep, |x|); }
      assert s[|x| + 1..] == [];
    case Some(i) =>
      assert Find(s, sep) == Some(i) by {
        assert s[..i] == x[..i];
        FindFirst(s, sep, i);
      }
      assert s[i + 1..] == x[i + 1..] + [sep];
      assert s[..i] == x[..i];
      SplitTrailing(x[i + 1..], sep);
  }

  /** The first occurrence of `c` is what `Find` reports. */
  lemma {:induction false} FindFirst(s: string, c: char, i: nat)
    requires i < |s| && s[i] == c && c !in s[..i]
    ensures Find(s, c) == Some(i)
    decreases i
  {
    if i > 0 {
      assert s[0] in s[..i];
      assert s[1..][..i - 1] == s[1..i];
      FindFirst(s[1..], c, i - 1);
    }
  }

  /** Text without any character to strip is its own stripped form. */
  lemma StripNone(s: string, sp: char -> bool)
    requires forall k :: 0 <= k < |s| ==> !sp(s[k])
    ensures Strip(s, sp) == s
  {
  }

  /** A character that is neither the separator nor in any piece is not in the joined text. */
  lemma {:induction false} JoinAvoids(parts: seq<string>, sep: char, c: char)
    requires |parts| >= 1 && c != sep
    requires forall i :: 0 <= i < |parts| ==> c !in parts[i]
    ensures c !in Join(parts, sep)
    ensures parts[0] != [] ==> Join(parts, sep) != []
  {
    if |parts| > 1 {
      JoinAvoids(parts[1..], sep, c);
    }
  }

  /** Joining separator-free pieces and splitting again gives back the pieces. */
  lemma {:induction false} JoinSplit(parts: seq<string>, sep: char)
    requires |parts| >= 1
    requires forall i :: 0 <= i < |parts| ==> sep !in parts[i]
    ensures Split(Join(parts, sep), sep) == parts
  {
    if |parts| == 1 {
      assert Find(parts[0], sep).None?;
    } else {
      JoinSplit(parts[1..], sep);
      SplitCons(parts[0], sep, Join(parts[1..], sep));
    }
  }

  /** Every piece followed by `sep`: `a/b/` for pieces a and b. */
  function Terminated(pieces: seq<string>, sep: char): string {
    if pieces == [] then [] else pieces[0] + [sep] + Terminated(pieces[1..], sep)
  }

  lemma TerminatedCons(x: string, rest: seq<string>, sep: char)
    ensures Terminated([x] + rest, sep) == x + [sep] + Terminated(rest, sep)
  {
    assert ([x] + rest)[1..] == rest;
  }

  lemma ConsAppend<T>(s: seq<T>, y: seq<T>)
    requires s != []
    ensures [s[0]] + (s[1..] + y) == s + y
  {
    assert s == [s[0]] + s[1..];
  }

  /** Separator-free pieces, each terminated by the separator, split apart again in front of any tail. */
  lemma {:induction false} SplitTerminated(pieces: seq<string>, sep: char, tail: string)
    requires forall i :: 0 <= i < |pieces| ==> sep !in pieces[i]
    ensures Split(Terminated(pieces, sep) + tail, sep) == pieces + Split(tail, sep)
  {
    if pieces == [] {
      assert Terminated(pieces, sep) + tail == tail;
    } else {
      var rest, x := Terminated(pieces[1..], sep), Split(tail, sep);
      assert Split(Terminated(pieces, sep) + tail, sep) == [pieces[0]] + Split(rest + tail, sep) by {
        assert Terminated(pieces, sep) + tail == pieces[0] + [sep] + (rest + tail);
        SplitCons(pieces[0], sep, rest + tail);
      }
      assert Split(rest + tail, sep) == pieces[1..] + x by {
        SplitTerminated(pieces[1..], sep, tail);
      }
      ConsAppend(pieces, x);
    }
  }

  // ---------------------------------------------------------------------------
  // Substrings

  predicate MatchAt(s: string, pat: string, k: int) {
    0 <= k && k + |pat| <= |s| && s[k..k + |pat|] == pat
  }

  /** `pat` occurs somewhere in `s` (Python `pat in s`, JavaScript `s.includes(pat)`). */
  predicate Occurs(pat: string, s: string) {
    exists k :: 0 <= k <= |s| && MatchAt(s, pat, k)
  }

  function IndexFrom(s: string, pat: string, i: nat): (r: Option<nat>)
    requires i <= |s|
    ensures r.Some? ==> i <= r.value && MatchAt(s, pat, r.value)
    ensures r.Some? ==> forall k :: i <= k < r.value ==> !MatchAt(s, pat, k)
    ensures r.None? ==> forall k :: i <= k ==> !MatchAt(s, pat, k)
    decreases |s| - i
  {
    if i + |pat| > |s| then None
    else if s[i..i + |pat|] == pat then Some(i)
    else IndexFrom(s, pat, i + 1)
  }

  /** Index of the first occurrence of `pat` in `s`. */
  function IndexOf(s: string, pat: string): (r: Option<nat>)
    ensures r.None? <==> !Occurs(pat, s)
    ensures r.Some? ==> MatchAt(s, pat, r.value)
    ensures r.Some? ==> forall k :: 0 <= k < r.value ==> !MatchAt(s, pat, k)
  {
    IndexFrom(s, pat, 0)
  }

  /** JavaScript `s.replace(pat, rep)` with a string pattern: only the first occurrence is replaced. */
  function ReplaceFirst(s: string, pat: string, rep: string): string {
    match IndexOf(s, pat)
    case None => s
    case Some(i) => s[..i] + rep + s[i + |pat|..]
  }

  predicate EndsWith(s: string, suffix: string) {
    |suffix| <= |s| && s[|s| - |suffix|..] == suffix
  }

  /** A piece of a concatenation occurs in it. */
  lemma OccursIn(a: string, b: string, c: string)
    ensures Occurs(b, a + b + c)
  {
    assert MatchAt(a + b + c, b, |a|) by { assert (a + b + c)[|a|..|a| + |b|] == b; }
  }

  /** What occurs in a string occurs in any extension of it. */
  lemma OccursExtended(pat: string, s: string, t: string)
    requires Occurs(pat, s)
    ensures Occurs(pat, s + t)
  {
    var k :| 0 <= k <= |s| && MatchAt(s, pat, k);
    assert (s + t)[k..k + |pat|] == s[k..k + |pat|];
    assert MatchAt(s + t, pat, k);
  }

  // ---------------------------------------------------------------------------
  // Code-point order (Python's `<` on `str`)

  /** Lexicographic order by code point; a proper prefix comes first. */
  predicate Less(a: string, b: string)
    decreases |a|
  {
    if a == [] then b != []
    else if b == [] then false
    else if a[0] != b[0] then a[0] < b[0]
    else Less(a[1..], b[1..])
  }

  lemma {:induction false} LessIrreflexive(a: string)
    ensures !Less(a, a)
    decreases |a|
  {
    if a != [] { LessIrreflexive(a[1..]); }
  }

  lemma {:induction false} LessAsymmetric(a: string, b: string)
    requires Less(a, b)
    ensures !Less(b, a)
    decreases |a|
  {
    if a != [] && b != [] && a[0] == b[0] { LessAsymmetric(a[1..], b[1..]); }
  }

  lemma {:induction false} LessTransitive(a: string, b: string, c: string)
    requires Less(a, b) && Less(b, c)
    ensures Less(a, c)
    decreases |a|
  {
    if a != [] && b != [] && c != [] && a[0] == b[0] && b[0] == c[0] {
      LessTransitive(a[1..], b[1..], c[1..]);
    }
  }

  lemma {:induction false} LessTotal(a: string, b: string)
    requires a != b
    ensures Less(a, b) || Less(b, a)
    decreases |a|
  {
    if a != [] && b != [] && a[0] == b[0] {
      assert a == [a[0]] + a[1..] && b == [b[0]] + b[1..];
      LessTotal(a[1..], b[1..]);
    }
  }

  /** Strictly increasing in code-point order, hence free of duplicates. */
  predicate StrictlySorted(xs: seq<string>) {
    forall i, j :: 0 <= i < j < |xs| ==> Less(xs[i], xs[j])
  }

  // ---------------------------------------------------------------------------
  // Decimal digits

  predicate IsDigit(c: char) { '0' <= c <= '9' }

  predicate AllDigits(s: string) { forall i :: 0 <= i < |s| ==> IsDigit(s[i]) }

  /** A decimal numeral without superfluous leading zeros. */
  predicate Canonical(s: string) {
    |s| >= 1 && AllDigits(s) && (s[0] == '0' ==> |s| == 1)
  }

  function DigitValue(c: char): (d: nat)
    requires IsDigit(c)
    ensures d < 10
  {
    (c as int) - ('0' as int)
  }

  function DigitChar(d: nat): (c: char)
    requires d < 10
    ensures IsDigit(c) && DigitValue(c) == d
  {
    (('0' as int) + d) as char
  }

  /** The value of a string of ASCII digits (Python `int(s)`, JavaScript `Number(s)`). */
  function ParseDigits(s: string): nat
    requires AllDigits(s)
    decreases |s|
  {
    if s == [] then 0 else ParseDigits(s[..|s| - 1]) * 10 + DigitValue(s[|s| - 1])
  }

  /** Decimal rendering of a natural number, as every language involved prints it. */
  function NatToString(n: nat): (s: string)
    ensures Canonical(s)
    ensures s[0] == '0' <==> n == 0
    ensures |s| == 1 <==> n < 10
    decreases n
  {
    if n < 10 then [DigitChar(n)] else NatToString(n / 10) + [DigitChar(n % 10)]
  }

  /** Decimal rendering of an integer with a leading '-' when negative. */
  function IntToString(i: int): string {
    if i < 0 then "-" + NatToString(-i) else NatToString(i)
  }

  /** Reading back a rendered number gives the number. */
  lemma {:induction false} ParseNatToString(n: nat)
    ensures ParseDigits(NatToString(n)) == n
    decreases n
  {
    if n >= 10 {
      ParseNatToString(n / 10);
      var s := NatToString(n);
      assert s[..|s| - 1] == NatToString(n / 10);
    }
  }

  lemma {:induction false} ParsePositive(s: string)
    requires AllDigits(s) && |s| >= 1 && s[0] != '0'
    ensures ParseDigits(s) >= 1
    ensures |s| >= 2 ==> ParseDigits(s) >= 10
    decreases |s|
  {
    if |s| >= 2 {
      ParsePositive(s[..|s| - 1]);
    }
  }

  /** Rendering the value of a canonical numeral gives back the numeral. */
  lemma {:induction false} NatToStringOfCanonical(s: string)
    requires Canonical(s)
    ensures NatToString(ParseDigits(s)) == s
    decreases |s|
  {
    var n := ParseDigits(s);
    if |s| == 1 {
      assert s[..0] == [];
      assert [DigitChar(DigitValue(s[0]))] == s;
    } else {
      var p := s[..|s| - 1];
      ParsePositive(s);
      ParsePositive(p);
      NatToStringOfCanonical(p);
      assert n / 10 == ParseDigits(p) && n % 10 == DigitValue(s[|s| - 1]);
      assert DigitChar(DigitValue(s[|s| - 1])) == s[|s| - 1];
      assert p + [s[|s| - 1]] == s;
    }
  }

  /** A numeral of at most three digits is below 1000, and conversely. */
  lemma ShortNumeral(n: nat)
    requires n < 1000
    ensures |NatToString(n)| <= 3
  {
    if n >= 10 {
      assert NatToString(n) == NatToString(n / 10) + [DigitChar(n % 10)];
      if n / 10 >= 10 {
        assert NatToString(n / 10) == NatToString(n / 100) + [DigitChar(n / 10 % 10)];
      }
    }
  }

  /** A lower-case hexadecimal digit. */
  function HexChar(d: nat): char
    requires d < 16
  {
    "0123456789abcdef"[d]
  }

  /** The last `width` hexadecimal digits of `n`, most significant first, zero-padded. */
  function Hex(n: nat, width: nat): (s: string)
    ensures |s| == width
  {
    if width == 0 then [] else Hex(n / 16, width - 1) + [HexChar(n % 16)]
  }

  /** One character lower-cased, A-Z only. */
  function LowerChar(c: char): char {
    if 'A' <= c <= 'Z' then (c as int + 32) as char else c
  }

  /** ASCII lower-casing (JavaScript `toLowerCase` restricted to A-Z). */
  function AsciiLower(s: string): (r: string)
    ensures |r| == |s|
    ensures forall i :: 0 <= i < |s| ==> r[i] == (if 'A' <= s[i] <= 'Z' then (s[i] as int + 32) as char else s[i])
  {
    seq(|s|, i requires 0 <= i < |s| => LowerChar(s[i]))
  }

  /** Lower-casing works letter by letter, so it distributes over concatenation. */
  lemma LowerConcat(a: string, b: string)
    ensures AsciiLower(a + b) == AsciiLower(a) + AsciiLower(b)
  {
    var l, r := AsciiLower(a + b), AsciiLower(a) + AsciiLower(b);
    forall i | 0 <= i < |l| ensures l[i] == r[i] {
      if i < |a| {
        assert (a + b)[i] == a[i];
      } else {
        assert (a + b)[i] == b[i - |a|];
      }
    }
  }

}
