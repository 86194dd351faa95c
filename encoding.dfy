/**
 * The PowerShell `-EncodedCommand` encoding used by both remote-execution
 * back ends: the script text is encoded as UTF-16LE (RFC 2781, without a
 * byte-order mark) and the bytes are written in Base64 (section 4 of
 * RFC 4648, with '=' padding). The decoders are the inverses against which
 * the encoders are proved.
 */
module PsEncoding {
  import opened Common

  type Byte = n: nat | n < 256

  // ---------------------------------------------------------------------------
  // UTF-16

  predicate IsHighSurrogate(u: nat) { 0xD800 <= u <= 0xDBFF }
  predicate IsLowSurrogate(u: nat) { 0xDC00 <= u <= 0xDFFF }

  /** The UTF-16 code units of one character: itself below U+10000, else a surrogate pair. */
  function Units(c: char): (us: seq<nat>)
    ensures 1 <= |us| <= 2
    ensures forall i :: 0 <= i < |us| ==> us[i] < 0x10000
    ensures |us| == 1 <==> (c as int) < 0x10000
    ensures |us| == 1 ==> us[0] == c as int && !IsHighSurrogate(us[0]) && !IsLowSurrogate(us[0])
    ensures |us| == 2 ==> IsHighSurrogate(us[0]) && IsLowSurrogate(us[1])
  {
    var n := c as int;
    if n < 0x10000 then [n]
    else [0xD800 + (n - 0x10000) / 0x400, 0xDC00 + (n - 0x10000) % 0x400]
  }

  /** The UTF-16 code units of a text. */
  function CodeUnits(s: string): seq<nat>
    decreases |s|
  {
    if s == [] then [] else Units(s[0]) + CodeUnits(s[1..])
  }

  /** Each code unit as two bytes, low byte first. */
  function UnitBytes(us: seq<nat>): (bs: seq<Byte>)
    requires forall i :: 0 <= i < |us| ==> us[i] < 0x10000
    ensures |bs| == 2 * |us|
    decreases |us|
  {
    if us == [] then [] else [us[0] % 256, us[0] / 256] + UnitBytes(us[1..])
  }

  /** `s.encode("utf-16le")`. */
  function Utf16Le(s: string): (bs: seq<Byte>)
    ensures |bs| == 2 * |CodeUnits(s)|
  {
    UnitsBelow(s);
    UnitBytes(CodeUnits(s))
  }

  lemma {:induction false} UnitsBelow(s: string)
    ensures forall i :: 0 <= i < |CodeUnits(s)| ==> CodeUnits(s)[i] < 0x10000
    decreases |s|
  {
    if s != [] { UnitsBelow(s[1..]); }
  }

  /** Code units from byte pairs, low byte first; None for an odd number of bytes. */
  function BytesToUnits(bs: seq<Byte>): (r: Option<seq<nat>>)
    decreases |bs|
  {
    if bs == [] then Some([])
    else if |bs| == 1 then None
    else match BytesToUnits(bs[2..])
      case None => None
      case Some(us) => Some([bs[0] as nat + 256 * (bs[1] as nat)] + us)
  }

  /** Characters from code units: surrogates must come as high-low pairs. */
  function UnitsToText(us: seq<nat>): Option<string>
    decreases |us|
  {
    if us == [] then Some([])
    else if us[0] >= 0x10000 || IsLowSurrogate(us[0]) then None
    else if !IsHighSurrogate(us[0]) then
      match UnitsToText(us[1..])
      case None => None
      case Some(rest) => Some([us[0] as char] + rest)
    else if |us| < 2 || !IsLowSurrogate(us[1]) then None
    else
      match UnitsToText(us[2..])
      case None => None
      case Some(rest) => Some([(0x10000 + (us[0] - 0xD800) * 0x400 + (us[1] - 0xDC00)) as char] + rest)
  }

  /** `bs.decode("utf-16le")`, None where Python raises `UnicodeDecodeError`. */
  function DecodeUtf16Le(bs: seq<Byte>): Option<string> {
    match BytesToUnits(bs)
    case None => None
    case Some(us) => UnitsToText(us)
  }

  lemma {:induction false} UnitBytesRoundTrip(us: seq<nat>)
    requires forall i :: 0 <= i < |us| ==> us[i] < 0x10000
    ensures BytesToUnits(UnitBytes(us)) == Some(us)
    decreases |us|
  {
    if us != [] {
      UnitBytesRoundTrip(us[1..]);
      var bs := UnitBytes(us);
      assert bs[2..] == UnitBytes(us[1..]);
      assert bs[0] as nat + 256 * (bs[1] as nat) == us[0];
      assert [us[0]] + us[1..] == us;
    }
  }

  lemma CharRoundTrip(c: char, rest: seq<nat>)
    ensures UnitsToText(Units(c) + rest) ==
              match UnitsToText(rest)
              case None => None
              case Some(t) => Some([c] + t)
  {
    var us := Units(c) + rest;
    if (c as int) < 0x10000 {
      assert us[1..] == rest;
    } else {
      assert us[2..] == rest;
      var n := c as int;
      assert (0x10000 + ((n - 0x10000) / 0x400) * 0x400 + (n - 0x10000) % 0x400) == n;
    }
  }

  lemma {:induction false} TextRoundTrip(s: string)
    ensures UnitsToText(CodeUnits(s)) == Some(s)
    decreases |s|
  {
    if s != [] {
      TextRoundTrip(s[1..]);
      CharRoundTrip(s[0], CodeUnits(s[1..]));
      assert [s[0]] + s[1..] == s;
    }
  }

  /** Decoding the UTF-16LE bytes of a text gives the text back. */
  lemma Utf16LeRoundTrip(s: string)
    ensures DecodeUtf16Le(Utf16Le(s)) == Some(s)
  {
    UnitsBelow(s);
    UnitBytesRoundTrip(CodeUnits(s));
    TextRoundTrip(s);
  }

  /** A text of characters below U+10000 has one code unit per character. */
  lemma {:induction false} BmpUnits(s: string)
    requires forall i :: 0 <= i < |s| ==> (s[i] as int) < 0x10000
    ensures |CodeUnits(s)| == |s|
    decreases |s|
  {
    if s != [] { BmpUnits(s[1..]); }
  }

  // ---------------------------------------------------------------------------
  // Base64

  /** The character of a 6-bit value: A-Z, a-z, 0-9, '+', '/'. */
  function Base64Char(d: nat): (c: char)
    requires d < 64
    ensures c != '='
  {
    if d < 26 then ('A' as int + d) as char
    else if d < 52 then ('a' as int + (d - 26)) as char
    else if d < 62 then ('0' as int + (d - 52)) as char
    else if d == 62 then '+'
    else '/'
  }

  /** The 6-bit value of a Base64 character. */
  function Base64Value(c: char): (r: Option<nat>)
    ensures r.Some? ==> r.value < 64
  {
    if 'A' <= c <= 'Z' then Some(c as int - 'A' as int)
    else if 'a' <= c <= 'z' then Some(c as int - 'a' as int + 26)
    else if '0' <= c <= '9' then Some(c as int - '0' as int + 52)
    else if c == '+' then Some(62)
    else if c == '/' then Some(63)
    else None
  }

  lemma ValueOfChar(d: nat)
    requires d < 64
    ensures Base64Value(Base64Char(d)) == Some(d)
  {
  }

  /** The four 6-bit values of three bytes, most significant bits first. */
  function Sextets(b0: Byte, b1: Byte, b2: Byte): (ds: seq<nat>)
    ensures |ds| == 4 && forall i :: 0 <= i < 4 ==> ds[i] < 64
  {
    [b0 / 4, b0 % 4 * 16 + b1 / 16, b1 % 16 * 4 + b2 / 64, b2 % 64]
  }

  /** Four characters for three bytes. */
  function Quad(b0: Byte, b1: Byte, b2: Byte): (q: string)
    ensures |q| == 4
  {
    var ds := Sextets(b0, b1, b2);
    [Base64Char(ds[0]), Base64Char(ds[1]), Base64Char(ds[2]), Base64Char(ds[3])]
  }

  /** `base64.b64encode`: groups of three bytes become four characters; a short last group is padded with '='. */
  function Base64Encode(bs: seq<Byte>): (s: string)
    ensures |s| == 4 * ((|bs| + 2) / 3)
    decreases |bs|
  {
    if |bs| == 0 then []
    else if |bs| == 1 then Quad(bs[0], 0, 0)[..2] + "=="
    else if |bs| == 2 then Quad(bs[0], bs[1], 0)[..3] + "="
    else Quad(bs[0], bs[1], bs[2]) + Base64Encode(bs[3..])
  }

  /** The three bytes of four 6-bit values. */
  function Triple(d0: nat, d1: nat, d2: nat, d3: nat): (bs: seq<Byte>)
    requires d0 < 64 && d1 < 64 && d2 < 64 && d3 < 64
    ensures |bs| == 3
  {
    [d0 * 4 + d1 / 16, d1 % 16 * 16 + d2 / 4, d2 % 4 * 64 + d3]
  }

  /** The bytes of one group of four characters, the last one or two of which may be '='. */
  function Group(g: string): (r: Option<seq<Byte>>)
    requires |g| == 4
    ensures r.Some? ==> 1 <= |r.value| <= 3 && (|r.value| == 3 <==> g[3] != '=')
  {
    var v0, v1 := Base64Value(g[0]), Base64Value(g[1]);
    if v0.None? || v1.None? then None
    else if g[3] != '=' then
      var v2, v3 := Base64Value(g[2]), Base64Value(g[3]);
      if v2.None? || v3.None? then None else Some(Triple(v0.value, v1.value, v2.value, v3.value))
    else if g[2] != '=' then
      var v2 := Base64Value(g[2]);
      if v2.None? then None else Some(Triple(v0.value, v1.value, v2.value, 0)[..2])
    else Some(Triple(v0.value, v1.value, 0, 0)[..1])
  }

  /** Strict Base64 decoding: whole groups of four, '=' only to pad the last group. */
  function Base64Decode(s: string): Option<seq<Byte>>
    decreases |s|
  {
    if s == [] then Some([])
    else if |s| < 4 then None
    else
      match Group(s[..4])
      case None => None
      case Some(head) =>
        if |head| < 3 then (if |s| == 4 then Some(head) else None)
        else
          match Base64Decode(s[4..])
          case None => None
          case Some(tail) => Some(head + tail)
  }

  lemma FirstByte(b0: Byte, b1: Byte)
    ensures b0 / 4 * 4 + (b0 % 4 * 16 + b1 / 16) / 16 == b0
  {
    assert (b0 % 4 * 16 + b1 / 16) / 16 == b0 % 4;
  }

  lemma SecondByte(b0: Byte, b1: Byte, b2: Byte)
    ensures (b0 % 4 * 16 + b1 / 16) % 16 * 16 + (b1 % 16 * 4 + b2 / 64) / 4 == b1
  {
    assert (b0 % 4 * 16 + b1 / 16) % 16 == b1 / 16;
    assert (b1 % 16 * 4 + b2 / 64) / 4 == b1 % 16;
  }

  lemma ThirdByte(b1: Byte, b2: Byte)
    ensures (b1 % 16 * 4 + b2 / 64) % 4 * 64 + b2 % 64 == b2
  {
    assert (b1 % 16 * 4 + b2 / 64) % 4 == b2 / 64;
  }

  /** The 6-bit values of three bytes put back together are the three bytes. */
  lemma TripleOfSextets(b0: Byte, b1: Byte, b2: Byte)
    ensures var ds := Sextets(b0, b1, b2); Triple(ds[0], ds[1], ds[2], ds[3]) == [b0, b1, b2]
  {
    FirstByte(b0, b1);
    SecondByte(b0, b1, b2);
    ThirdByte(b1, b2);
  }

  /** The four characters of three bytes read back as their 6-bit values. */
  lemma QuadValues(b0: Byte, b1: Byte, b2: Byte)
    ensures var q, ds := Quad(b0, b1, b2), Sextets(b0, b1, b2);
            forall i :: 0 <= i < 4 ==> Base64Value(q[i]) == Some(ds[i])
  {
    var ds := Sextets(b0, b1, b2);
    ValueOfChar(ds[0]);
    ValueOfChar(ds[1]);
    ValueOfChar(ds[2]);
    ValueOfChar(ds[3]);
  }

  lemma FullGroup(b0: Byte, b1: Byte, b2: Byte)
    ensures Group(Quad(b0, b1, b2)) == Some([b0, b1, b2])
  {
    QuadValues(b0, b1, b2);
    TripleOfSextets(b0, b1, b2);
  }

  lemma TwoByteGroup(b0: Byte, b1: Byte)
    ensures Group(Quad(b0, b1, 0)[..3] + "=") == Some([b0, b1])
  {
    var q, ds := Quad(b0, b1, 0), Sextets(b0, b1, 0);
    QuadValues(b0, b1, 0);
    TripleOfSextets(b0, b1, 0);
    var g := q[..3] + "=";
    assert g[0] == q[0] && g[1] == q[1] && g[2] == q[2] && g[3] == '=';
    assert ds[3] == 0;
    assert Group(g) == Some(Triple(ds[0], ds[1], ds[2], 0)[..2]);
    assert Triple(ds[0], ds[1], ds[2], 0) == [b0, b1, 0];
    assert Triple(ds[0], ds[1], ds[2], 0)[..2] == [b0, b1];
  }

  lemma OneByteGroup(b0: Byte)
    ensures Group(Quad(b0, 0, 0)[..2] + "==") == Some([b0])
  {
    var q, ds := Quad(b0, 0, 0), Sextets(b0, 0, 0);
    QuadValues(b0, 0, 0);
    TripleOfSextets(b0, 0, 0);
    var g := q[..2] + "==";
    assert g[0] == q[0] && g[1] == q[1] && g[2] == '=' && g[3] == '=';
    assert ds[2] == 0 && ds[3] == 0;
    assert Group(g) == Some(Triple(ds[0], ds[1], 0, 0)[..1]);
    assert Triple(ds[0], ds[1], 0, 0) == [b0, 0, 0];
    assert Triple(ds[0], ds[1], 0, 0)[..1] == [b0];
  }

  /** A full group in front of the rest decodes to its bytes followed by the rest's. */
  lemma DecodeFull(g: string, rest: string, head: seq<Byte>)
    requires |g| == 4 && Group(g) == Some(head) && |head| == 3
    ensures Base64Decode(g + rest) == (match Base64Decode(rest) case None => None case Some(tail) => Some(head + tail))
  {
    assert (g + rest)[..4] == g && (g + rest)[4..] == rest;
  }

  /** A padded group alone decodes to its bytes. */
  lemma DecodePadded(g: string, head: seq<Byte>)
    requires |g| == 4 && Group(g) == Some(head) && |head| < 3
    ensures Base64Decode(g) == Some(head)
  {
    assert g[..4] == g;
  }

  /** One trailing byte makes a group padded with "==" that decodes back to it. */
  lemma OneByteRoundTrip(b0: Byte)
    ensures Base64Decode(Base64Encode([b0])) == Some([b0])
  {
    var g := Quad(b0, 0, 0)[..2] + "==";
    OneByteGroup(b0);
    assert Base64Encode([b0]) == g;
    DecodePadded(g, [b0]);
  }

  /** Two trailing bytes make a group padded with "=" that decodes back to them. */
  lemma TwoByteRoundTrip(b0: Byte, b1: Byte)
    ensures Base64Decode(Base64Encode([b0, b1])) == Some([b0, b1])
  {
    var g := Quad(b0, b1, 0)[..3] + "=";
    TwoByteGroup(b0, b1);
    assert Base64Encode([b0, b1]) == g;
    DecodePadded(g, [b0, b1]);
  }

  /** Decoding the Base64 text of some bytes gives the bytes back. */
  lemma {:induction false} Base64RoundTrip(bs: seq<Byte>)
    ensures Base64Decode(Base64Encode(bs)) == Some(bs)
    decreases |bs|
  {
    if |bs| == 1 {
      OneByteRoundTrip(bs[0]);
      assert [bs[0]] == bs;
    } else if |bs| == 2 {
      TwoByteRoundTrip(bs[0], bs[1]);
      assert [bs[0], bs[1]] == bs;
    } else if |bs| >= 3 {
      var rest := bs[3..];
      var q, tail := Quad(bs[0], bs[1], bs[2]), Base64Encode(rest);
      assert Base64Encode(bs) == q + tail;
      assert Base64Decode(q + tail) == Some([bs[0], bs[1], bs[2]] + rest) by {
        Base64RoundTrip(rest);
        FullGroup(bs[0], bs[1], bs[2]);
        DecodeFull(q, tail, [bs[0], bs[1], bs[2]]);
      }
      assert [bs[0], bs[1], bs[2]] + rest == bs;
    }
  }

  /** Each character of a group is a Base64 digit. */
  lemma QuadAlphabet(b0: Byte, b1: Byte, b2: Byte)
    ensures forall i :: 0 <= i < 4 ==> Base64Value(Quad(b0, b1, b2)[i]).Some?
  {
    QuadValues(b0, b1, b2);
  }

  // ---------------------------------------------------------------------------
  // The command encoder

  /** `encode_powershell_command(command)`: Base64 of the UTF-16LE bytes. */
  function EncodeCommand(command: string): (e: string)
    ensures |e| == 4 * ((2 * |CodeUnits(command)| + 2) / 3)
  {
    Base64Encode(Utf16Le(command))
  }

  /** The encoded command decodes back to the script. */
  lemma EncodeCommandRoundTrip(command: string)
    ensures Base64Decode(EncodeCommand(command)).Some?
    ensures DecodeUtf16Le(Base64Decode(EncodeCommand(command)).value) == Some(command)
  {
    Base64RoundTrip(Utf16Le(command));
    Utf16LeRoundTrip(command);
  }

  /** The encoding is made of Base64 characters and padding only. */
  lemma {:induction false} EncodedAlphabet(bs: seq<Byte>)
    ensures forall i :: 0 <= i < |Base64Encode(bs)| ==>
              Base64Encode(bs)[i] == '=' || Base64Value(Base64Encode(bs)[i]).Some?
    decreases |bs|
  {
    if |bs| >= 1 {
      QuadAlphabet(bs[0], if |bs| >= 2 then bs[1] else 0, if |bs| >= 3 then bs[2] else 0);
    }
    if |bs| >= 3 {
      EncodedAlphabet(bs[3..]);
      var s := Base64Encode(bs);
      assert forall i :: 4 <= i < |s| ==> s[i] == Base64Encode(bs[3..])[i - 4];
    }
  }
}
