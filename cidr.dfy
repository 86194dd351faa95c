/**
 * IPv4 networks as `ipaddress.IPv4Network(text, strict=False)` reads them
 * (CIDR notation, section 3.1 of RFC 4632, with the prefix also accepted as
 * a dotted netmask or hostmask) and the addresses its `hosts()` lists.
 */
module IPv4Net {
  import opened Common
  import opened Text
  import opened IPv4

  function Pow2(k: nat): (r: nat)
    ensures r >= 1
  {
    if k == 0 then 1 else 2 * Pow2(k - 1)
  }

  lemma {:induction false} Pow2Add(a: nat, b: nat)
    ensures Pow2(a + b) == Pow2(a) * Pow2(b)
    decreases a
  {
    if a > 0 {
      Pow2Add(a - 1, b);
      assert Pow2(a + b) == 2 * Pow2(a - 1 + b);
    }
  }

  lemma Pow2Of32()
    ensures Pow2(32) == AddressCount
  {
    assert Pow2(2) == 4;
    assert Pow2(4) == 16;
    Pow2Add(4, 4);
    assert Pow2(8) == 256;
    Pow2Add(8, 8);
    assert Pow2(16) == 65536;
    Pow2Add(16, 16);
  }

  lemma Pow2Split(p: nat)
    requires p <= 32
    ensures Pow2(32 - p) * Pow2(p) == AddressCount
    ensures Pow2(32 - p) <= AddressCount
  {
    Pow2Add(32 - p, p);
    Pow2Of32();
    if p > 0 { Pow2Increasing(32 - p, 32); }
  }

  /** The number of addresses in a block with prefix length `p`. */
  function BlockSize(p: nat): (n: nat)
    requires p <= 32
    ensures 1 <= n <= AddressCount
    ensures n * Pow2(p) == AddressCount
  {
    Pow2Split(p);
    Pow2(32 - p)
  }

  /** The netmask of prefix length `p`: `p` one bits followed by zero bits. */
  function Mask(p: nat): (m: Address)
    requires p <= 32
  {
    AddressCount - BlockSize(p)
  }

  lemma {:induction false} Pow2Increasing(a: nat, b: nat)
    requires a < b
    ensures Pow2(a) < Pow2(b)
    decreases b
  {
    if a < b - 1 { Pow2Increasing(a, b - 1); }
  }

  /** A longer prefix has a larger netmask. */
  lemma MaskIncreasing(p: nat, q: nat)
    requires p < q <= 32
    ensures Mask(p) < Mask(q)
  {
    Pow2Increasing(32 - q, 32 - p);
  }

  /**
   * The prefix length whose netmask is `n`, searching from `p` up; `block`
   * is the block size of `p`, halved at each step, so that the netmask of
   * `p` is `AddressCount - block`.
   */
  function FindPrefix(n: int, p: nat, block: nat): (r: Option<nat>)
    requires p <= 33 && (p <= 32 ==> block == BlockSize(p))
    ensures r.Some? ==> p <= r.value <= 32 && Mask(r.value) == n
    ensures r.None? ==> forall q :: p <= q <= 32 ==> Mask(q) != n
    decreases 33 - p
  {
    if p > 32 then None
    else if AddressCount - block == n then Some(p)
    else FindPrefix(n, p + 1, block / 2)
  }

  /** The prefix length whose netmask is `n`, if `n` is a netmask. */
  function PrefixOf(n: int): (r: Option<nat>)
    ensures r.Some? ==> r.value <= 32 && Mask(r.value) == n
    ensures r.None? ==> forall q :: q <= 32 ==> Mask(q) != n
  {
    Pow2Of32();
    FindPrefix(n, 0, AddressCount)
  }

  /** The prefix length of a netmask is found again from the netmask. */
  lemma MaskPrefix(p: nat)
    requires p <= 32
    ensures PrefixOf(Mask(p)) == Some(p)
  {
    var r := PrefixOf(Mask(p));
    if r.value < p { MaskIncreasing(r.value, p); }
    if r.value > p { MaskIncreasing(p, r.value); }
  }

  /**
   * The prefix after the '/': a decimal prefix length from 0 to 32 (leading
   * zeros allowed), else a dotted netmask, else a dotted hostmask.
   */
  function ParseMask(m: string): (r: Option<nat>)
    ensures r.Some? ==> r.value <= 32
    ensures m != [] && AllDigits(m) && ParseDigits(m) <= 32 ==> r == Some(ParseDigits(m))
  {
    if m != [] && AllDigits(m) && ParseDigits(m) <= 32 then Some(ParseDigits(m))
    else
      match IntFromString(m)
      case Err(_) => None
      case Ok(n) =>
        match PrefixOf(n)
        case Some(p) => Some(p)
        case None => PrefixOf(AddressCount - 1 - n)
  }

  /** A parsed network: the address as written and the prefix length. */
  datatype Network = Network(address: Address, prefix: nat)

  /** `IPv4Network(s, strict=False)`, or None for the `ValueError` it raises. */
  function ParseNetwork(s: string): (r: Option<Network>)
    ensures r.Some? ==> r.value.prefix <= 32
    ensures r.Some? ==> ParseAddress(Split(s, '/')[0]) == Ok(r.value.address)
    ensures |Split(s, '/')| > 2 ==> r.None?
  {
    var parts := Split(s, '/');
    if |parts| > 2 then None
    else
      match ParseAddress(parts[0])
      case Err(_) => None
      case Ok(a) =>
        if |parts| == 1 then Some(Network(a, 32))
        else
          match ParseMask(parts[1])
          case None => None
          case Some(p) => Some(Network(a, p))
  }

  lemma MulMono(x: nat, y: nat, k: nat)
    requires x <= y
    ensures x * k <= y * k
  {
    assert y * k == x * k + (y - x) * k;
  }

  lemma DivMod(x: nat, k: nat)
    requires k >= 1
    ensures x == (x / k) * k + x % k
  {
  }

  /** Quotient and remainder are the only ones: `x == q * k + r` with `r < k` fixes both. */
  lemma DivUnique(x: nat, k: nat, q: nat, r: nat)
    requires r < k && x == q * k + r
    ensures x / k == q && x % k == r
  {
    var q' := x / k;
    assert x == q' * k + x % k;
    if q' < q {
      MulMono(q' + 1, q, k);
    } else if q' > q {
      MulMono(q + 1, q', k);
    }
  }

  /** Rounding `a < m * k` down to a multiple of `k` leaves a whole block of `k` below `m * k`. */
  lemma RoundDown(a: nat, k: nat, m: nat)
    requires k >= 1 && a < m * k
    ensures (a / k) * k <= a < (a / k) * k + k <= m * k
    ensures ((a / k) * k) % k == 0
  {
    var q := a / k;
    assert a == q * k + a % k;
    if q >= m { MulMono(m, q, k); }
    MulMono(q + 1, m, k);
    assert (q + 1) * k == q * k + k;
    DivUnique(q * k, k, q, 0);
  }

  /** Clearing the remainder of `a < m * k` leaves a multiple of `k` with a whole block of `k` below `m * k`. */
  lemma AlignDown(a: nat, k: nat, m: nat)
    requires k >= 1 && a < m * k
    ensures a % k <= a && a - a % k + k <= m * k && (a - a % k) % k == 0
  {
    RoundDown(a, k, m);
    DivMod(a, k);
  }

  lemma BlockOf(a: Address, p: nat)
    requires p <= 32
    ensures var k := BlockSize(p); a % k <= a && a - a % k + k <= AddressCount && (a - a % k) % k == 0
  {
    var k, m := BlockSize(p), Pow2(p);
    assert m * k == AddressCount;
    AlignDown(a, k, m);
  }

  /** The first address of the block holding `a` (`a & netmask`: host bits cleared). */
  function BlockStart(a: Address, p: nat): (b: Address)
    requires p <= 32
    ensures b <= a < b + BlockSize(p) <= AddressCount
    ensures b % BlockSize(p) == 0
  {
    BlockOf(a, p);
    a - a % BlockSize(p)
  }

  lemma SameBlock(b: Address, p: nat, j: nat)
    requires p <= 32 && b % BlockSize(p) == 0 && j < BlockSize(p) && b + j < AddressCount
    ensures BlockStart(b + j, p) == b
  {
    var k := BlockSize(p);
    var q := b / k;
    DivMod(b, k);
    DivUnique(b + j, k, q, j);
    assert BlockStart(b + j, p) == q * k;
  }

  /**
   * `hosts()`: a /32 lists its one address, a /31 both of its addresses, and
   * a larger block every address but the first (network) and the last
   * (broadcast).
   */
  function Hosts(net: Network): (hs: seq<Address>)
    requires net.prefix <= 32
  {
    var p := net.prefix;
    var b := BlockStart(net.address, p);
    if p == 32 then [net.address]
    else if p == 31 then [b, b + 1]
    else seq(BlockSize(p) - 2, i requires 0 <= i < BlockSize(p) - 2 => b + 1 + i)
  }

  /**
   * Every host lies in the block of the network's address, in increasing
   * order; up to /30 the network and broadcast addresses are left out, and
   * the count is the block size less two.
   */
  lemma HostsInBlock(net: Network)
    requires net.prefix <= 32
    ensures var hs := Hosts(net);
            var b := BlockStart(net.address, net.prefix);
            (forall i :: 0 <= i < |hs| ==> BlockStart(hs[i], net.prefix) == b)
            && (forall i, j :: 0 <= i < j < |hs| ==> hs[i] < hs[j])
            && (net.prefix == 32 ==> hs == [net.address])
            && (net.prefix == 31 ==> |hs| == 2)
            && (net.prefix <= 30 ==> |hs| == BlockSize(net.prefix) - 2
                                     && forall i :: 0 <= i < |hs| ==> b < hs[i] < b + BlockSize(net.prefix) - 1)
  {
    var p := net.prefix;
    var hs := Hosts(net);
    var b := BlockStart(net.address, p);
    forall i | 0 <= i < |hs| ensures BlockStart(hs[i], p) == b {
      SameBlock(b, p, hs[i] - b);
    }
    if p <= 30 {
      Pow2Add(1, 31 - p);
      assert BlockSize(p) >= 4 by { Pow2Add(1, 1); Pow2Add(2, 30 - p); }
    }
  }

  // ---------------------------------------------------------------------------
  // Reading networks back

  lemma SplitWithout(s: string, sep: char)
    requires sep !in s
    ensures Split(s, sep) == [s]
  {
  }

  /** Splitting "{address}/{t}" at '/' gives the address and `t`. */
  lemma SplitNetwork(a: Address, t: string)
    requires '/' !in t
    ensures Split(Format(a) + "/" + t, '/') == [Format(a), t]
  {
    FormatChars(a);
    assert Format(a) + "/" + t == Format(a) + ['/'] + t;
    SplitCons(Format(a), '/', t);
    SplitWithout(t, '/');
  }

  /** A dotted quad is never read as a prefix length. */
  lemma FormatNotDigits(m: Address)
    ensures !AllDigits(Format(m))
    ensures '/' !in Format(m) && IntFromString(Format(m)) == Ok(m)
  {
    FormatParses(m);
    FormatChars(m);
    if AllDigits(Format(m)) {
      assert '.' !in Format(m);
      SplitWithout(Format(m), '.');
    }
  }

  lemma Pow2Of31()
    ensures Pow2(31) == AddressCount / 2
  {
    Pow2Of32();
  }

  /** A netmask is 0 or has its top bit set. */
  lemma MaskZeroOrHigh(q: nat)
    requires q <= 32
    ensures Mask(q) == 0 || Mask(q) >= AddressCount / 2
  {
    Pow2Of31();
    if q == 0 {
      Pow2Of32();
    } else if q > 1 {
      Pow2Increasing(32 - q, 31);
    }
  }

  /** The hostmask of a prefix from 1 to 31 is not 0 and has its top bit clear. */
  lemma HostmaskBelowHalf(p: nat)
    requires 1 <= p <= 31
    ensures 1 <= BlockSize(p) - 1 < AddressCount / 2
  {
    Pow2Of31();
    Pow2Increasing(0, 32 - p);
    if p > 1 {
      Pow2Increasing(32 - p, 31);
    }
  }

  /** The hostmask of a prefix from 1 to 31 is no netmask, so the hostmask reading applies. */
  lemma HostmaskIsNoMask(p: nat)
    requires 1 <= p <= 31
    ensures PrefixOf(BlockSize(p) - 1).None?
  {
    var h := BlockSize(p) - 1;
    HostmaskBelowHalf(p);
    forall q | 0 <= q <= 32 ensures Mask(q) != h {
      MaskZeroOrHigh(q);
    }
  }

  lemma BareAddress(a: Address)
    ensures ParseNetwork(Format(a)) == Some(Network(a, 32))
  {
    FormatParses(a);
    FormatChars(a);
    SplitWithout(Format(a), '/');
  }

  /** "{address}/{t}" is the network of that address with the prefix `t` stands for. */
  lemma MaskSpelling(a: Address, t: string, p: nat)
    requires '/' !in t && ParseMask(t) == Some(p)
    ensures ParseNetwork(Format(a) + "/" + t) == Some(Network(a, p))
  {
    FormatParses(a);
    SplitNetwork(a, t);
  }

  lemma PrefixMask(p: nat)
    requires p <= 32
    ensures '/' !in NatToString(p) && ParseMask(NatToString(p)) == Some(p)
  {
    NumeralHasNoDot(p);
    ParseNatToString(p);
  }

  lemma NetmaskMask(p: nat)
    requires p <= 32
    ensures '/' !in Format(Mask(p)) && ParseMask(Format(Mask(p))) == Some(p)
  {
    FormatNotDigits(Mask(p));
    MaskPrefix(p);
  }

  /** A dotted mask that is no netmask but the complement of one is read as a hostmask. */
  lemma QuadHostmask(n: Address, p: nat)
    requires PrefixOf(n).None? && PrefixOf(AddressCount - 1 - n) == Some(p)
    ensures '/' !in Format(n) && ParseMask(Format(n)) == Some(p)
  {
    var m := Format(n);
    FormatNotDigits(n);
    assert !AllDigits(m) && IntFromString(m) == Ok(n);
  }

  lemma HostmaskMask(p: nat)
    requires 1 <= p <= 31
    ensures '/' !in Format(BlockSize(p) - 1) && ParseMask(Format(BlockSize(p) - 1)) == Some(p)
  {
    var h: Address := BlockSize(p) - 1;
    HostmaskIsNoMask(p);
    MaskPrefix(p);
    assert AddressCount - 1 - h == Mask(p);
    QuadHostmask(h, p);
  }

  /**
   * A network reads back from each of its spellings: the bare address (a
   * /32), "{address}/{prefix length}", "{address}/{netmask}", and for
   * prefixes 1 to 31 "{address}/{hostmask}".
   */
  lemma NetworkSpellings(a: Address, p: nat)
    requires p <= 32
    ensures ParseNetwork(Format(a)) == Some(Network(a, 32))
    ensures ParseNetwork(Format(a) + "/" + NatToString(p)) == Some(Network(a, p))
    ensures ParseNetwork(Format(a) + "/" + Format(Mask(p))) == Some(Network(a, p))
    ensures 1 <= p <= 31 ==> ParseNetwork(Format(a) + "/" + Format(BlockSize(p) - 1)) == Some(Network(a, p))
  {
    BareAddress(a);
    PrefixMask(p);
    MaskSpelling(a, NatToString(p), p);
    NetmaskMask(p);
    MaskSpelling(a, Format(Mask(p)), p);
    if 1 <= p <= 31 {
      HostmaskMask(p);
      MaskSpelling(a, Format(BlockSize(p) - 1), p);
    }
  }
}
