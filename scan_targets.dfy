/**
 * The scan-target parser of the back end (Backend/utils/get_inputs.py): a
 * comma-separated list of IPv4 addresses, dash ranges and CIDR blocks
 * becomes a duplicate-free list of dotted quads sorted as strings, or the
 * message of the first error.
 */
module ScanTargets {
  import opened Common
  import opened Text
  import opened IPv4
  import opened IPv4Net

  /** The `ValueError`s the parser raises. */
  datatype InputError =
    | TooManyValues
    | NotEnoughValues
    | BadAddress(e: AddressError)
    | ReversedRange
    | InvalidCidr(part: string)
    | InvalidAddress(part: string)

  /** `str(e)` of the raised error. */
  function Message(e: InputError): string {
    match e
    case TooManyValues => "too many values to unpack (expected 2)"
    case NotEnoughValues => "not enough values to unpack (expected 2, got 1)"
    case BadAddress(a) => AddressMessage(a)
    case ReversedRange => "Invalid IP range: end IP is before start IP."
    case InvalidCidr(part) => "Invalid CIDR: " + part
    case InvalidAddress(part) => "Invalid IP address: " + part
  }

  // ---------------------------------------------------------------------------
  // Ranges

  /** The two ends of "start-end", each stripped and read as an address, the end not below the start. */
  function RangeEnds(range: string): (r: Result<(Address, Address), InputError>)
    ensures r.Ok? ==> r.value.0 <= r.value.1
  {
    var parts := Split(range, '-');
    if |parts| > 2 then Err(TooManyValues)
    else if |parts| < 2 then Err(NotEnoughValues)
    else
      match ParseAddress(Strip(parts[0], IsPySpace))
      case Err(e) => Err(BadAddress(e))
      case Ok(start) =>
        match ParseAddress(Strip(parts[1], IsPySpace))
        case Err(e) => Err(BadAddress(e))
        case Ok(end) => if end < start then Err(ReversedRange) else Ok((start, end))
  }

  /**
   * A range needs exactly one dash, and then both stripped ends must read as
   * addresses; it is refused as reversed exactly when the end is below the
   * start.
   */
  lemma RangeEndsCases(range: string)
    ensures var parts := Split(range, '-');
            (|parts| > 2 ==> RangeEnds(range) == Err(TooManyValues))
            && (|parts| < 2 ==> RangeEnds(range) == Err(NotEnoughValues))
            && (RangeEnds(range).Ok? ==>
                  |parts| == 2
                  && ParseAddress(Strip(parts[0], IsPySpace)) == Ok(RangeEnds(range).value.0)
                  && ParseAddress(Strip(parts[1], IsPySpace)) == Ok(RangeEnds(range).value.1))
            && (RangeEnds(range) == Err(ReversedRange) <==>
                  |parts| == 2
                  && ParseAddress(Strip(parts[0], IsPySpace)).Ok?
                  && ParseAddress(Strip(parts[1], IsPySpace)).Ok?
                  && ParseAddress(Strip(parts[1], IsPySpace)).value < ParseAddress(Strip(parts[0], IsPySpace)).value)
  {
    var parts := Split(range, '-');
    if |parts| == 2 {
      var first := ParseAddress(Strip(parts[0], IsPySpace));
      var second := ParseAddress(Strip(parts[1], IsPySpace));
      assert first.Ok? && second.Ok? ==> RangeEnds(range) == if second.value < first.value then Err(ReversedRange) else Ok((first.value, second.value));
    }
  }

  /** Every address from `start` to `end`, as dotted quads. */
  function RangeList(start: Address, end: Address): (xs: seq<string>)
    requires start <= end
    ensures |xs| == end - start + 1
    ensures forall i :: 0 <= i < |xs| ==> xs[i] == Format(start + i)
  {
    seq(end - start + 1, i requires 0 <= i < end - start + 1 => Format(start + i))
  }

  /**
   * `parse_ip_range` as written: `str` is applied to the integers of
   * `range(int(start), int(end) + 1)`, so each element is a decimal number
   * such as "3232235777", not a dotted quad.
   */
  function ParseIpRangeAsWritten(range: string): (r: Result<seq<string>, InputError>)
    ensures r.Ok? <==> RangeEnds(range).Ok?
    ensures r.Err? ==> r.error == RangeEnds(range).error
    ensures r.Ok? ==> r.value == NumberList(RangeEnds(range).value.0, RangeEnds(range).value.1)
  {
    match RangeEnds(range)
    case Err(e) => Err(e)
    case Ok(ends) => Ok(NumberList(ends.0, ends.1))
  }

  /** `str(n)` for every integer `n` from `start` to `end`. */
  function NumberList(start: Address, end: Address): (xs: seq<string>)
    requires start <= end
    ensures |xs| == end - start + 1
    ensures forall i :: 0 <= i < |xs| ==> xs[i] == NatToString(start + i)
  {
    seq(end - start + 1, i requires 0 <= i < end - start + 1 => NatToString(start + i))
  }

  /** `parse_ip_range` as its documentation describes it: every address from start to end, as dotted quads. */
  function ParseIpRange(range: string): (r: Result<seq<string>, InputError>)
    ensures r.Ok? <==> RangeEnds(range).Ok?
    ensures r.Err? ==> r.error == RangeEnds(range).error
    ensures r.Ok? ==> r.value == RangeList(RangeEnds(range).value.0, RangeEnds(range).value.1)
  {
    match RangeEnds(range)
    case Err(e) => Err(e)
    case Ok(ends) => Ok(RangeList(ends.0, ends.1))
  }

  lemma RangeListHas(start: Address, end: Address, a: Address)
    requires start <= a <= end
    ensures Format(a) in RangeList(start, end)
  {
    assert RangeList(start, end)[a - start] == Format(a);
  }

  /** The text `s` is in the range exactly when it is the dotted quad of an address between the two ends. */
  lemma RangeListMembers(start: Address, end: Address, s: string)
    requires start <= end
    ensures s in RangeList(start, end) <==> ParseAddress(s).Ok? && start <= ParseAddress(s).value <= end
  {
    if s in RangeList(start, end) {
      RangeListAscending(start, end);
    }
    if ParseAddress(s).Ok? && start <= ParseAddress(s).value <= end {
      ParsedIsFormat(s);
      RangeListHas(start, end, ParseAddress(s).value);
    }
  }

  /** The range is listed in ascending numeric order, one address after the other. */
  lemma RangeListAscending(start: Address, end: Address)
    requires start <= end
    ensures var xs := RangeList(start, end);
            forall i :: 0 <= i < |xs| ==> ParseAddress(xs[i]) == Ok(start + i)
  {
    var xs := RangeList(start, end);
    forall i | 0 <= i < |xs| ensures ParseAddress(xs[i]) == Ok(start + i) {
      var a: Address := start + i;
      assert xs[i] == Format(a);
      FormatParses(a);
    }
  }

  lemma SplitRange(a: Address, b: Address)
    ensures Split(Format(a) + "-" + Format(b), '-') == [Format(a), Format(b)]
  {
    FormatChars(a);
    FormatChars(b);
    assert Format(a) + "-" + Format(b) == Format(a) + ['-'] + Format(b);
    assert '-' !in Format(a) && '-' !in Format(b);
    SplitCons(Format(a), '-', Format(b));
    assert Find(Format(b), '-').None?;
  }

  /** A dotted quad has no surrounding space to strip, and reads back as its address. */
  lemma FormatStripped(a: Address)
    ensures Strip(Format(a), IsPySpace) == Format(a) && ParseAddress(Format(a)) == Ok(a)
  {
    FormatChars(a);
    StripNone(Format(a), IsPySpace);
    FormatParses(a);
  }

  /** "{a}-{b}" is the range from `a` to `b`, or the reversed-range error when `b < a`. */
  lemma RangeSpelled(a: Address, b: Address)
    ensures RangeEnds(Format(a) + "-" + Format(b)) == if b < a then Err(ReversedRange) else Ok((a, b))
  {
    SplitRange(a, b);
    FormatStripped(a);
    FormatStripped(b);
  }

  /** A decimal numeral is never an IPv4 address: it has no dots. */
  lemma NumeralIsNoAddress(n: nat)
    ensures ParseAddress(NatToString(n)).Err?
  {
    NumeralHasNoDot(n);
    assert Find(NatToString(n), '.').None?;
  }

  /**
   * The defect in `parse_ip_range`: no element of the list it returns is an
   * IPv4 address, so a range such as "192.168.1.1-192.168.1.2" yields
   * "3232235777" and "3232235778".
   */
  lemma RangeAsWrittenIsNotAddresses(range: string)
    requires ParseIpRangeAsWritten(range).Ok?
    ensures forall s :: s in ParseIpRangeAsWritten(range).value ==> ParseAddress(s).Err?
  {
    var (start, end) := RangeEnds(range).value;
    var xs := ParseIpRangeAsWritten(range).value;
    assert xs == NumberList(start, end);
    forall i | 0 <= i < |xs| ensures ParseAddress(xs[i]).Err? {
      NumeralIsNoAddress(start + i);
    }
  }

  lemma SingletonLists(a: Address)
    ensures RangeList(a, a) == [Format(a)] && NumberList(a, a) == [NatToString(a)]
  {
    assert RangeList(a, a) == [Format(a)] by {
      var xs := RangeList(a, a);
      assert |xs| == 1 && xs[0] == Format(a + 0);
    }
    assert NumberList(a, a) == [NatToString(a)] by {
      var ns := NumberList(a, a);
      assert |ns| == 1 && ns[0] == NatToString(a + 0);
    }
  }

  /** A one-address range as written gives the address's number; as intended, its dotted quad. */
  lemma SingleAddressRange(a: Address)
    ensures ParseIpRangeAsWritten(Format(a) + "-" + Format(a)) == Ok([NatToString(a)])
    ensures ParseIpRange(Format(a) + "-" + Format(a)) == Ok([Format(a)])
  {
    RangeSpelled(a, a);
    SingletonLists(a);
  }

  // ---------------------------------------------------------------------------
  // One comma-separated part

  /** The dotted quads of the hosts of a network. */
  function HostStrings(net: Network): (hs: seq<string>)
    requires net.prefix <= 32
    ensures |hs| == |Hosts(net)|
  {
    seq(|Hosts(net)|, i requires 0 <= i < |Hosts(net)| => Format(Hosts(net)[i]))
  }

  /**
   * The addresses one stripped part stands for: a part with a '-' is a
   * range, else a part with a '/' is a CIDR block, else a single address,
   * kept as written.
   */
  function ExpandPart(part: string): (r: Result<seq<string>, InputError>)
    ensures '-' in part ==> r == ParseIpRange(part)
  {
    if '-' in part then ParseIpRange(part)
    else if '/' in part then
      match ParseNetwork(part)
      case None => Err(InvalidCidr(part))
      case Some(net) => Ok(HostStrings(net))
    else
      match ParseAddress(part)
      case Err(_) => Err(InvalidAddress(part))
      case Ok(_) => Ok([part])
  }

  /**
   * Without a '-', a part with a '/' fails exactly when it is no network,
   * as "Invalid CIDR: {part}"; a part with neither is kept as written when
   * it is an address and fails as "Invalid IP address: {part}" otherwise.
   */
  lemma ExpandPartCases(part: string)
    requires '-' !in part
    ensures '/' in part ==>
              (ExpandPart(part).Err? <==> ParseNetwork(part).None?)
              && (ExpandPart(part).Err? ==> ExpandPart(part).error == InvalidCidr(part))
    ensures '/' !in part ==>
              (ExpandPart(part).Ok? <==> ParseAddress(part).Ok?)
              && (ExpandPart(part).Ok? ==> ExpandPart(part).value == [part])
              && (ExpandPart(part).Err? ==> ExpandPart(part).error == InvalidAddress(part))
  {
  }

  /** Every text a part expands to is a canonical dotted quad. */
  lemma ExpandedAreAddresses(part: string)
    requires ExpandPart(part).Ok?
    ensures forall s :: s in ExpandPart(part).value ==> ParseAddress(s).Ok? && Format(ParseAddress(s).value) == s
  {
    var xs := ExpandPart(part).value;
    if '-' in part {
      var ends := RangeEnds(part).value;
      forall s | s in xs ensures ParseAddress(s).Ok? && Format(ParseAddress(s).value) == s {
        RangeListMembers(ends.0, ends.1, s);
        ParsedIsFormat(s);
      }
    } else if '/' in part {
      var net := ParseNetwork(part).value;
      forall i | 0 <= i < |xs| ensures ParseAddress(xs[i]) == Ok(Hosts(net)[i]) {
        FormatParses(Hosts(net)[i]);
      }
    } else {
      ParsedIsFormat(part);
    }
  }

  /**
   * A CIDR part expands to hosts of the block of its address: for prefixes
   * up to /30 neither the block's first nor its last address is among them.
   */
  lemma CidrHosts(part: string)
    requires '-' !in part && '/' in part && ParseNetwork(part).Some?
    ensures var net := ParseNetwork(part).value;
            var b := BlockStart(net.address, net.prefix);
            ExpandPart(part).Ok?
            && forall s :: s in ExpandPart(part).value ==>
                 ParseAddress(s).Ok? && BlockStart(ParseAddress(s).value, net.prefix) == b
                 && (net.prefix <= 30 ==> b < ParseAddress(s).value < b + BlockSize(net.prefix) - 1)
  {
    var net := ParseNetwork(part).value;
    var xs := ExpandPart(part).value;
    assert xs == HostStrings(net);
    HostsInBlock(net);
    forall i | 0 <= i < |xs| ensures ParseAddress(xs[i]) == Ok(Hosts(net)[i]) {
      FormatParses(Hosts(net)[i]);
    }
  }

  // ---------------------------------------------------------------------------
  // The whole list

  /** One comma-separated piece, stripped and expanded. */
  function Expanded(piece: string): Result<seq<string>, InputError> {
    ExpandPart(Strip(piece, IsPySpace))
  }

  /** The expansions of the pieces, in order. */
  function ExpandAll(pieces: seq<string>): (rs: seq<Result<seq<string>, InputError>>)
    ensures |rs| == |pieces| && forall i :: 0 <= i < |pieces| ==> rs[i] == Expanded(pieces[i])
  {
    seq(|pieces|, i requires 0 <= i < |pieces| => Expanded(pieces[i]))
  }

  /** The addresses of one expansion, as a set. */
  function Members(xs: seq<string>): (m: set<string>)
    ensures forall x :: x in m <==> x in xs
  {
    set x | x in xs
  }

  /** The expansions in order: the set of all their addresses, or the first error. */
  function Combine(rs: seq<Result<seq<string>, InputError>>): (r: Result<set<string>, InputError>)
    decreases |rs|
  {
    if rs == [] then Ok({})
    else
      match Combine(rs[..|rs| - 1])
      case Err(e) => Err(e)
      case Ok(acc) =>
        match rs[|rs| - 1]
        case Err(e) => Err(e)
        case Ok(xs) => Ok(acc + Members(xs))
  }

  /** Every address the list of pieces stands for, or the error of the first piece refused. */
  function Targets(pieces: seq<string>): Result<set<string>, InputError> {
    Combine(ExpandAll(pieces))
  }

  /**
   * The combined set holds exactly the addresses of the expansions; it fails
   * exactly when some expansion fails, with the error of the first that does.
   */
  lemma {:induction false} CombineUnion(rs: seq<Result<seq<string>, InputError>>)
    ensures Combine(rs).Ok? <==> forall i :: 0 <= i < |rs| ==> rs[i].Ok?
    ensures Combine(rs).Ok? ==>
              forall s :: s in Combine(rs).value <==> exists i :: 0 <= i < |rs| && rs[i].Ok? && s in rs[i].value
    ensures Combine(rs).Err? ==>
              exists i :: 0 <= i < |rs| && rs[i] == Err(Combine(rs).error) && forall j :: 0 <= j < i ==> rs[j].Ok?
    decreases |rs|
  {
    if rs != [] {
      var init := rs[..|rs| - 1];
      var last := |rs| - 1;
      CombineUnion(init);
      assert forall i :: 0 <= i < |init| ==> init[i] == rs[i];
      if Combine(rs).Ok? {
        forall s | s in Combine(rs).value ensures exists i :: 0 <= i < |rs| && rs[i].Ok? && s in rs[i].value {
          if s !in Combine(init).value {
            assert rs[last].Ok? && s in rs[last].value;
          }
        }
      }
    }
  }

  /**
   * The parser's result holds exactly the addresses of the pieces; it fails
   * exactly when some piece fails, with the error of the first that does.
   */
  lemma TargetsUnion(pieces: seq<string>)
    ensures Targets(pieces).Ok? <==> forall i :: 0 <= i < |pieces| ==> Expanded(pieces[i]).Ok?
    ensures Targets(pieces).Ok? ==>
              forall s :: s in Targets(pieces).value <==>
                exists i :: 0 <= i < |pieces| && Expanded(pieces[i]).Ok? && s in Expanded(pieces[i]).value
    ensures Targets(pieces).Err? ==>
              exists i :: 0 <= i < |pieces| && Expanded(pieces[i]) == Err(Targets(pieces).error)
                          && forall j :: 0 <= j < i ==> Expanded(pieces[j]).Ok?
  {
    CombineUnion(ExpandAll(pieces));
  }

  /** An empty piece is refused as an address. */
  lemma EmptyPiece()
    ensures Expanded("") == Err(InvalidAddress(""))
  {
    assert Strip([], IsPySpace) == [];
  }

  /** A refused last expansion after accepted ones is the error of the whole. */
  lemma CombineLastRefused(rs: seq<Result<seq<string>, InputError>>)
    requires rs != [] && Combine(rs[..|rs| - 1]).Ok? && rs[|rs| - 1].Err?
    ensures Combine(rs) == Err(rs[|rs| - 1].error)
  {
  }

  lemma ExpandAllSnoc(pieces: seq<string>, piece: string)
    ensures ExpandAll(pieces + [piece]) == ExpandAll(pieces) + [Expanded(piece)]
  {
  }

  /** One piece as the program expands it: `parse_ip_range` as written in the range branch. */
  function ExpandedAsWritten(piece: string): Result<seq<string>, InputError> {
    var part := Strip(piece, IsPySpace);
    if '-' in part then ParseIpRangeAsWritten(part) else ExpandPart(part)
  }

  /** `normalize_ip_list` as written, before sorting: the set of its strings, or the first error. */
  function TargetsAsWritten(pieces: seq<string>): Result<set<string>, InputError> {
    Combine(seq(|pieces|, i requires 0 <= i < |pieces| => ExpandedAsWritten(pieces[i])))
  }

  /** The input "a-b" is a single piece that strips to itself. */
  lemma RangeInput(a: Address, b: Address)
    ensures Split(Format(a) + "-" + Format(b), ',') == [Format(a) + "-" + Format(b)]
    ensures Strip(Format(a) + "-" + Format(b), IsPySpace) == Format(a) + "-" + Format(b)
    ensures '-' in Format(a) + "-" + Format(b)
  {
    var s := Format(a) + "-" + Format(b);
    FormatChars(a);
    FormatChars(b);
    forall k | 0 <= k < |s| ensures s[k] != ',' && !IsPySpace(s[k]) {
      if k < |Format(a)| {
        assert s[k] == Format(a)[k];
      } else if k > |Format(a)| {
        assert s[k] == Format(b)[k - |Format(a)| - 1];
      }
    }
    assert Find(s, ',').None?;
    StripNone(s, IsPySpace);
    assert s[|Format(a)|] == '-';
  }

  /**
   * The input "a-b" with a <= b: as written, the targets are the decimal
   * numerals of a..b, none of them an address; corrected, they are the
   * dotted quads of a..b.
   */
  lemma RangeTargetsAsWritten(a: Address, b: Address)
    requires a <= b
    ensures TargetsAsWritten(Split(Format(a) + "-" + Format(b), ',')) == Ok(Members(NumberList(a, b)))
    ensures forall s :: s in TargetsAsWritten(Split(Format(a) + "-" + Format(b), ',')).value ==> ParseAddress(s).Err?
    ensures Targets(Split(Format(a) + "-" + Format(b), ',')) == Ok(Members(RangeList(a, b)))
  {
    var s := Format(a) + "-" + Format(b);
    assert Split(s, ',') == [s] by {
      RangeInput(a, b);
    }
    RangePiece(a, b);
    OnePiece(s);
    CombineOne(NumberList(a, b));
    CombineOne(RangeList(a, b));
    RangeAsWrittenIsNotAddresses(s);
  }

  /** The piece "a-b" expands to the numerals as written and to the dotted quads once corrected. */
  lemma RangePiece(a: Address, b: Address)
    requires a <= b
    ensures ParseIpRangeAsWritten(Format(a) + "-" + Format(b)) == Ok(NumberList(a, b))
    ensures ExpandedAsWritten(Format(a) + "-" + Format(b)) == Ok(NumberList(a, b))
    ensures Expanded(Format(a) + "-" + Format(b)) == Ok(RangeList(a, b))
  {
    RangeInput(a, b);
    RangeSpelled(a, b);
  }

  lemma OnePiece(s: string)
    ensures TargetsAsWritten([s]) == Combine([ExpandedAsWritten(s)])
    ensures Targets([s]) == Combine([Expanded(s)])
  {
    assert seq(1, i requires 0 <= i < 1 => ExpandedAsWritten([s][i])) == [ExpandedAsWritten(s)];
    assert ExpandAll([s]) == [Expanded(s)];
  }

  lemma CombineOne(xs: seq<string>)
    ensures Combine([Ok(xs)]) == Ok(Members(xs))
  {
    var rs: seq<Result<seq<string>, InputError>> := [Ok(xs)];
    assert rs[..0] == [];
    assert Combine(rs[..0]) == Ok({});
    assert {} + Members(xs) == Members(xs);
  }

  /** A trailing comma leaves an empty last piece, which is refused as an address. */
  lemma TrailingComma(input: string)
    requires Targets(Split(input, ',')).Ok?
    ensures Targets(Split(input + ",", ',')) == Err(InvalidAddress(""))
  {
    var init := ExpandAll(Split(input, ','));
    var rs := init + [Err(InvalidAddress(""))];
    assert ExpandAll(Split(input + ",", ',')) == rs by {
      SplitTrailing(input, ',');
      EmptyPiece();
      ExpandAllSnoc(Split(input, ','), "");
    }
    assert rs[..|rs| - 1] == init;
    CombineLastRefused(rs);
  }

  /** A piece with two dashes is refused with Python's unpacking message. */
  lemma TwoDashes(piece: string)
    requires |Split(Strip(piece, IsPySpace), '-')| > 2
    ensures Expanded(piece) == Err(TooManyValues)
    ensures Message(Expanded(piece).error) == "too many values to unpack (expected 2)"
  {
    var part := Strip(piece, IsPySpace);
    var ps := Split(part, '-');
    assert '-' !in ps[0];
    assert '-' in part;
  }

  /** Strings sort by code point, so "10.0.0.10" comes before "10.0.0.2". */
  lemma StringOrderIsNotNumeric()
    ensures Less("10.0.0.10", "10.0.0.2")
  {
    var a := "10.0.0.10";
    var b := "10.0.0.2";
    assert a[7..] == "10" && b[7..] == "2";
    assert a[1..][1..][1..][1..][1..][1..][1..] == a[7..];
    assert b[1..][1..][1..][1..][1..][1..][1..] == b[7..];
  }

  // ---------------------------------------------------------------------------
  // The parser's loop and its result

  /** Some element of a non-empty set comes before all the others. */
  lemma {:induction false} MinExists(s: set<string>)
    requires s != {}
    ensures exists m :: m in s && forall y :: y in s && y != m ==> Less(m, y)
    decreases |s|
  {
    var x :| x in s;
    if s == {x} {
      assert forall y :: y in s && y != x ==> Less(x, y);
    } else {
      var t := s - {x};
      MinExists(t);
      var m :| m in t && forall y :: y in t && y != m ==> Less(m, y);
      if Less(x, m) {
        forall y | y in s && y != x ensures Less(x, y) {
          assert y in t;
          if y != m { LessTransitive(x, m, y); }
        }
      } else {
        forall y | y in s && y != m ensures Less(m, y) {
          if y == x {
            LessTotal(x, m);
          } else {
            assert y in t;
          }
        }
      }
    }
  }

  /** Python's `sorted` on a set of strings: ascending code-point order, no duplicates. */
  method SortedList(s: set<string>) returns (xs: seq<string>)
    ensures StrictlySorted(xs)
    ensures forall x :: x in xs <==> x in s
  {
    xs := [];
    var rest := s;
    while rest != {}
      invariant StrictlySorted(xs)
      invariant forall x :: x in s <==> x in xs || x in rest
      invariant forall i, y :: 0 <= i < |xs| && y in rest ==> Less(xs[i], y)
      decreases |rest|
    {
      MinExists(rest);
      var m :| m in rest && forall y :: y in rest && y != m ==> Less(m, y);
      forall i, y | 0 <= i < |xs| && y in rest - {m} ensures Less(xs[i], y) { }
      xs := xs + [m];
      rest := rest - {m};
    }
  }

  /** Once a prefix of the expansions has failed, the whole fails with the same error. */
  lemma {:induction false} ErrorPersists(rs: seq<Result<seq<string>, InputError>>, k: nat)
    requires k <= |rs| && Combine(rs[..k]).Err?
    ensures Combine(rs) == Combine(rs[..k])
    decreases |rs| - k
  {
    if k < |rs| {
      var next := rs[..k + 1];
      assert next[..k] == rs[..k];
      assert Combine(next) == Combine(rs[..k]);
      ErrorPersists(rs, k + 1);
    } else {
      assert rs[..k] == rs;
    }
  }

  /** One more expansion either joins the set or, refused, is the error of the whole list. */
  lemma CombineStep(rs: seq<Result<seq<string>, InputError>>, i: nat, found: set<string>)
    requires i < |rs| && Combine(rs[..i]) == Ok(found)
    ensures rs[i].Ok? ==> Combine(rs[..i + 1]) == Ok(found + Members(rs[i].value))
    ensures rs[i].Err? ==> Combine(rs) == Err(rs[i].error)
  {
    assert rs[..i + 1][..i] == rs[..i];
    if rs[i].Err? {
      ErrorPersists(rs, i + 1);
    }
  }

  /**
   * `normalize_ip_list`: the pieces are stripped and expanded one by one
   * into a growing set, which is then sorted.
   */
  method NormalizeIpList(input: string) returns (r: Result<seq<string>, InputError>)
    ensures r.Err? <==> Targets(Split(input, ',')).Err?
    ensures r.Err? ==> r.error == Targets(Split(input, ',')).error
    ensures r.Ok? ==> StrictlySorted(r.value)
                      && forall s :: s in r.value <==> s in Targets(Split(input, ',')).value
  {
    var pieces := Split(input, ',');
    ghost var rs := ExpandAll(pieces);
    var found: set<string> := {};
    var i := 0;
    assert rs[..0] == [];
    while i < |pieces|
      invariant 0 <= i <= |pieces|
      invariant Combine(rs[..i]) == Ok(found)
    {
      var part := Strip(pieces[i], IsPySpace);
      var expanded := ExpandPart(part);
      CombineStep(rs, i, found);
      if expanded.Err? {
        return Err(expanded.error);
      }
      found := found + Members(expanded.value);
      i := i + 1;
    }
    assert rs[..i] == rs;
    var sorted := SortedList(found);
    r := Ok(sorted);
  }

  /** What `get_input_data` returns: `{"ips": [...]}` or `{"error": message}`. */
  datatype InputData = Ips(ips: seq<string>) | Failure(error: string)

  method GetInputData(input: string) returns (d: InputData)
    ensures d.Failure? <==> Targets(Split(input, ',')).Err?
    ensures d.Failure? ==> d.error == Message(Targets(Split(input, ',')).error)
    ensures d.Ips? ==> StrictlySorted(d.ips) && forall s :: s in d.ips <==> s in Targets(Split(input, ',')).value
  {
    var r := NormalizeIpList(input);
    match r
    case Err(e) => d := Failure(Message(e));
    case Ok(ips) => d := Ips(ips);
  }

  /** A sorted list has no duplicates. */
  lemma SortedDistinct(xs: seq<string>)
    requires StrictlySorted(xs)
    ensures forall i, j :: 0 <= i < j < |xs| ==> xs[i] != xs[j]
  {
    forall i, j | 0 <= i < j < |xs| ensures xs[i] != xs[j] {
      if xs[i] == xs[j] { LessIrreflexive(xs[i]); }
    }
  }

  /** Every address the parser returns is a canonical dotted quad. */
  lemma {:induction false} TargetsAreAddresses(pieces: seq<string>)
    requires Targets(pieces).Ok?
    ensures forall s :: s in Targets(pieces).value ==> ParseAddress(s).Ok? && Format(ParseAddress(s).value) == s
  {
    TargetsUnion(pieces);
    forall s | s in Targets(pieces).value ensures ParseAddress(s).Ok? && Format(ParseAddress(s).value) == s {
      var i :| 0 <= i < |pieces| && Expanded(pieces[i]).Ok? && s in Expanded(pieces[i]).value;
      ExpandedAreAddresses(Strip(pieces[i], IsPySpace));
    }
  }
}
