/**
 * IPv4 addresses as Python's `ipaddress.IPv4Address` reads and prints them:
 * a 32-bit number written as four decimal octets separated by dots, each
 * octet without leading zeros (the dec-octet rule of section 3.2.2 of
 * RFC 3986), and the errors it raises for anything else.
 */
module IPv4 {
  import opened Common
  import opened Text
  import opened PyText

  const AddressCount: nat := 0x1_0000_0000

  /** A 32-bit address as an integer. */
  type Address = n: int | 0 <= n < 0x1_0000_0000

  /** Why one octet was refused (the `ValueError` of `_parse_octet`). */
  datatype OctetError =
    | EmptyOctet
    | NonDigit(octet: string)
    | TooLong(octet: string)
    | LeadingZero(octet: string)
    | TooLarge(value: nat)

  /** Why an address string was refused (the `AddressValueError`). */
  datatype AddressError =
    | EmptyAddress
    | OctetCount(text: string)
    | SlashIn(text: string)
    | BadOctet(reason: OctetError, text: string)

  function OctetMessage(e: OctetError): string {
    match e
    case EmptyOctet => "Empty octet not permitted"
    case NonDigit(o) => "Only decimal digits permitted in " + PyRepr(o)
    case TooLong(o) => "At most 3 characters permitted in " + PyRepr(o)
    case LeadingZero(o) => "Leading zeros are not permitted in " + PyRepr(o)
    case TooLarge(n) => "Octet " + NatToString(n) + " (> 255) not permitted"
  }

  /** The text of the raised `AddressValueError`. */
  function AddressMessage(e: AddressError): string {
    match e
    case EmptyAddress => "Address cannot be empty"
    case OctetCount(s) => "Expected 4 octets in " + PyRepr(s)
    case SlashIn(s) => "Unexpected '/' in " + PyRepr(s)
    case BadOctet(reason, s) => OctetMessage(reason) + " in " + PyRepr(s)
  }

  // ---------------------------------------------------------------------------
  // Octets

  predicate IsOctets(os: seq<nat>) {
    |os| == 4 && forall i :: 0 <= i < 4 ==> os[i] < 256
  }

  /** The four bytes of an address, most significant first. */
  function Octets(a: Address): (os: seq<nat>)
    ensures IsOctets(os)
  {
    var r1 := a / 256;
    var r2 := r1 / 256;
    [r2 / 256, r2 % 256, r1 % 256, a % 256]
  }

  /** The address whose bytes, most significant first, are `os`. */
  function FromOctets(os: seq<nat>): Address
    requires IsOctets(os)
  {
    ((os[0] * 256 + os[1]) * 256 + os[2]) * 256 + os[3]
  }

  lemma FromOctetsOctets(a: Address)
    ensures FromOctets(Octets(a)) == a
  {
  }

  lemma OctetsFromOctets(os: seq<nat>)
    requires IsOctets(os)
    ensures Octets(FromOctets(os)) == os
  {
    var a := FromOctets(os);
    var x := (os[0] * 256 + os[1]) * 256 + os[2];
    assert a / 256 == x && a % 256 == os[3];
    var y := os[0] * 256 + os[1];
    assert x / 256 == y && x % 256 == os[2];
    assert y / 256 == os[0] && y % 256 == os[1];
  }

  // ---------------------------------------------------------------------------
  // Printing and parsing

  function OctetStrings(os: seq<nat>): (ss: seq<string>)
    ensures |ss| == |os| && forall i :: 0 <= i < |os| ==> ss[i] == NatToString(os[i])
  {
    seq(|os|, i requires 0 <= i < |os| => NatToString(os[i]))
  }

  /** `str(IPv4Address(a))`: the dotted quad. */
  function Format(a: Address): string {
    Join(OctetStrings(Octets(a)), '.')
  }

  /** `_parse_octet`: one to three ASCII digits, no leading zero, at most 255. */
  function ParseOctet(o: string): (r: Result<nat, OctetError>)
    ensures r.Ok? <==> Canonical(o) && |o| <= 3 && ParseDigits(o) < 256
    ensures r.Ok? ==> r.value < 256 && r.value == ParseDigits(o) && NatToString(r.value) == o
  {
    if o == [] then Err(EmptyOctet)
    else if !AllDigits(o) then Err(NonDigit(o))
    else if |o| > 3 then Err(TooLong(o))
    else if o != "0" && o[0] == '0' then Err(LeadingZero(o))
    else if ParseDigits(o) > 255 then Err(TooLarge(ParseDigits(o)))
    else
      NatToStringOfCanonical(o);
      Ok(ParseDigits(o))
  }

  /** The octets in order, or the error of the first one refused. */
  function ParseOctets(ps: seq<string>): (r: Result<seq<nat>, OctetError>)
    ensures r.Ok? <==> forall i :: 0 <= i < |ps| ==> ParseOctet(ps[i]).Ok?
    ensures r.Ok? ==> |r.value| == |ps| && forall i :: 0 <= i < |ps| ==> ParseOctet(ps[i]) == Ok(r.value[i])
  {
    if ps == [] then Ok([])
    else match (ParseOctet(ps[0]), ParseOctets(ps[1..]))
      case (Err(e), _) => Err(e)
      case (Ok(_), Err(e)) => Err(e)
      case (Ok(o), Ok(os)) => Ok([o] + os)
  }

  /** `_ip_int_from_string`: not empty, exactly four dot-separated octets. */
  function IntFromString(s: string): (r: Result<Address, AddressError>)
    ensures r.Ok? ==> s != [] && |Split(s, '.')| == 4
  {
    if s == [] then Err(EmptyAddress)
    else
      var parts := Split(s, '.');
      if |parts| != 4 then Err(OctetCount(s))
      else match ParseOctets(parts)
        case Err(e) => Err(BadOctet(e, s))
        case Ok(os) => Ok(FromOctets(os))
  }

  /** `IPv4Address(s)` for a string `s`: a '/' is refused before anything else. */
  function ParseAddress(s: string): Result<Address, AddressError> {
    if '/' in s then Err(SlashIn(s)) else IntFromString(s)
  }

  lemma ParseOctetOfNat(n: nat)
    requires n < 256
    ensures ParseOctet(NatToString(n)) == Ok(n)
  {
    ShortNumeral(n);
    ParseNatToString(n);
  }

  lemma NumeralHasNoDot(n: nat)
    ensures '.' !in NatToString(n) && '/' !in NatToString(n)
  {
    var s := NatToString(n);
    assert forall i :: 0 <= i < |s| ==> IsDigit(s[i]);
  }

  /** A dotted quad is made of digits and dots only, and is never empty. */
  lemma FormatChars(a: Address)
    ensures forall k :: 0 <= k < |Format(a)| ==> IsDigit(Format(a)[k]) || Format(a)[k] == '.'
    ensures '/' !in Format(a)
    ensures Format(a) != []
  {
    var ss := OctetStrings(Octets(a));
    forall k | 0 <= k < |Format(a)| ensures IsDigit(Format(a)[k]) || Format(a)[k] == '.' {
      var c := Format(a)[k];
      if !IsDigit(c) && c != '.' {
        forall i | 0 <= i < 4 ensures c !in ss[i] {
          var t := NatToString(Octets(a)[i]);
          assert forall j :: 0 <= j < |t| ==> IsDigit(t[j]);
        }
        JoinAvoids(ss, '.', c);
      }
    }
    JoinAvoids(ss, '.', '/');
  }

  /** Every address reads back from its dotted quad. */
  lemma {:induction false} FormatParses(a: Address)
    ensures ParseAddress(Format(a)) == Ok(a)
  {
    var os := Octets(a);
    var ss := OctetStrings(os);
    assert Split(Format(a), '.') == ss by {
      forall i | 0 <= i < 4 ensures '.' !in ss[i] { NumeralHasNoDot(os[i]); }
      JoinSplit(ss, '.');
    }
    assert ParseOctets(ss) == Ok(os) by {
      forall i | 0 <= i < 4 ensures ParseOctet(ss[i]) == Ok(os[i]) { ParseOctetOfNat(os[i]); }
      var r := ParseOctets(ss);
      assert r.Ok?;
      assert r.value == os;
    }
    assert '/' !in Format(a) by { FormatChars(a); }
    FromOctetsOctets(a);
  }

  /** A string that reads as an address is that address's dotted quad: no other spelling is accepted. */
  lemma {:induction false} ParsedIsFormat(s: string)
    requires ParseAddress(s).Ok?
    ensures Format(ParseAddress(s).value) == s
  {
    var parts := Split(s, '.');
    var os := ParseOctets(parts).value;
    var a := FromOctets(os);
    assert ParseAddress(s).value == a;
    OctetsFromOctets(os);
    assert OctetStrings(Octets(a)) == parts;
    SplitJoin(s, '.');
  }

  /** An address string is accepted exactly when it is the dotted quad of some address. */
  lemma ParsesIffFormat(s: string, a: Address)
    ensures ParseAddress(s) == Ok(a) <==> Format(a) == s
  {
    if Format(a) == s { FormatParses(a); }
    if ParseAddress(s) == Ok(a) { ParsedIsFormat(s); }
  }

  /** Distinct addresses print differently. */
  lemma FormatInjective(a: Address, b: Address)
    requires Format(a) == Format(b)
    ensures a == b
  {
    FormatParses(a);
    FormatParses(b);
  }

  /** An address with an octet written with a leading zero, such as "10.0.0.01", is refused. */
  lemma LeadingZeroRefused(s: string, i: nat)
    requires i < |Split(s, '.')| && |Split(s, '.')[i]| >= 2 && Split(s, '.')[i][0] == '0'
    ensures ParseAddress(s).Err?
  {
  }
}
