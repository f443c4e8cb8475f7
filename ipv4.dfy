/** IPv4 addresses and CIDR blocks as Go's `net` package handles them for the
    dotted-quad notation: parsing, printing, masks, containment and the
    host-bit-preserving remap. Bits are numbered from the most significant bit
    of the first octet, as in the prefix notation of section 3.1 of RFC 4632. */
module Ipv4 {
  import opened Base
  import opened Text
  import opened Bytes

  /** The four bytes of an IPv4 address (Go's `ip.To4()`). */
  type Octets = s: seq<bv8> | |s| == 4 witness [0, 0, 0, 0]

  type PrefixLen = n: nat | n <= 32

  /** `net.IPNet` for an IPv4 block: the network address, whose bits past the
      prefix are zero, and the prefix length of its mask. */
  datatype Cidr = Cidr(network: Octets, prefixLen: PrefixLen)

  // ---------------------------------------------------------------------------
  // Bits and masks
  // ---------------------------------------------------------------------------

  /** The octet whose `j` leading bits are set. */
  function LeadingOnes(j: nat): bv8
    requires j <= 8
  {
    if j == 0 then 0x00 else if j == 1 then 0x80 else if j == 2 then 0xC0
    else if j == 3 then 0xE0 else if j == 4 then 0xF0 else if j == 5 then 0xF8
    else if j == 6 then 0xFC else if j == 7 then 0xFE else 0xFF
  }

  /** The octet with only bit `t` set (bit 0 is the most significant). */
  function SingleBit(t: nat): bv8
    requires t < 8
  {
    if t == 0 then 0x80 else if t == 1 then 0x40 else if t == 2 then 0x20
    else if t == 3 then 0x10 else if t == 4 then 0x08 else if t == 5 then 0x04
    else if t == 6 then 0x02 else 0x01
  }

  predicate OctetBit(x: bv8, t: nat)
    requires t < 8
  {
    x & SingleBit(t) != 0
  }

  /** Bit `k` of an address: bit `k mod 8` of octet `k div 8`. */
  predicate Bit(a: Octets, k: nat)
    requires k < 32
  {
    if k < 8 then OctetBit(a[0], k)
    else if k < 16 then OctetBit(a[1], k - 8)
    else if k < 24 then OctetBit(a[2], k - 16)
    else OctetBit(a[3], k - 24)
  }

  /** How many of the `n` prefix bits fall into octet `q`. */
  function OnesIn(n: PrefixLen, q: nat): (j: nat)
    requires q < 4
    ensures j <= 8
  {
    if n <= 8 * q then 0 else if n - 8 * q >= 8 then 8 else n - 8 * q
  }

  /** One octet under a mask. */
  function Masked(x: bv8, m: bv8): bv8
  {
    x & m
  }

  /** `net.CIDRMask(n, 32)`. */
  function Mask(n: PrefixLen): Octets
  {
    [LeadingOnes(OnesIn(n, 0)), LeadingOnes(OnesIn(n, 1)),
     LeadingOnes(OnesIn(n, 2)), LeadingOnes(OnesIn(n, 3))]
  }

  /** `ip.Mask(mask)`: the address with its host bits cleared. */
  function MaskAddress(a: Octets, n: PrefixLen): Octets
  {
    var m := Mask(n);
    [Masked(a[0], m[0]), Masked(a[1], m[1]), Masked(a[2], m[2]), Masked(a[3], m[3])]
  }

  /** The prefix match of section 3.1 of RFC 4632: the first `n` bits agree. */
  predicate PrefixMatch(a: Octets, b: Octets, n: PrefixLen)
  {
    forall k :: 0 <= k < n ==> Bit(a, k) == Bit(b, k)
  }

  /** `IPNet.Contains`: each octet agrees with the network under the mask. */
  predicate Contains(c: Cidr, ip: Octets)
  {
    var m := Mask(c.prefixLen);
    && Masked(c.network[0], m[0]) == Masked(ip[0], m[0])
    && Masked(c.network[1], m[1]) == Masked(ip[1], m[1])
    && Masked(c.network[2], m[2]) == Masked(ip[2], m[2])
    && Masked(c.network[3], m[3]) == Masked(ip[3], m[3])
  }

  /** `(network[i] & mask[i]) | (ip[i] & ^mask[i])` for every octet: the
      network part of the block with the host part of the address. */
  function RemapOctet(x: bv8, network: bv8, m: bv8): bv8
  {
    (network & m) | (x & !m)
  }

  function Remapped(ip: Octets, c: Cidr): Octets
  {
    var m := Mask(c.prefixLen);
    seq(4, i requires 0 <= i < 4 => RemapOctet(ip[i], c.network[i], m[i]))
  }

  // ---------------------------------------------------------------------------
  // Bit-level facts
  // ---------------------------------------------------------------------------

  /** Bit `8q + t` of an address is bit `t` of its octet `q`. */
  lemma BitOfOctet(a: Octets, q: nat, t: nat)
    requires q < 4 && t < 8
    ensures Bit(a, 8 * q + t) == OctetBit(a[q], t)
  {
  }

  /** Bit `8q + t` lies in an `n`-bit prefix exactly when `t` lies in the
      part of the prefix that falls into octet `q`. */
  lemma PrefixOfOctet(n: PrefixLen, q: nat, t: nat)
    requires q < 4 && t < 8
    ensures (8 * q + t < n) <==> t < OnesIn(n, q)
  {
  }

  lemma Decompose(k: nat) returns (q: nat, t: nat)
    requires k < 32
    ensures q < 4 && t < 8 && k == 8 * q + t
  {
    q, t := k / 8, k % 8;
  }

  lemma LeadingOnesStep(j: nat)
    requires j < 8
    ensures LeadingOnes(j + 1) == LeadingOnes(j) | SingleBit(j)
  {
  }

  lemma LeadingOnesBit(j: nat, t: nat)
    requires j <= 8 && t < 8
    ensures OctetBit(LeadingOnes(j), t) <==> t < j
  {
  }

  lemma XorUnderMask(x: bv8, y: bv8, m: bv8)
    ensures (Masked(x, m) == Masked(y, m)) <==> ((x ^ y) & m == 0)
  {
  }

  lemma ZeroUnderUnion(d: bv8, m: bv8, b: bv8)
    ensures (d & (m | b) == 0) <==> (d & m == 0 && d & b == 0)
  {
  }

  /** An octet with exactly one bit set. */
  predicate IsSingle(s: bv8)
  {
    s == 0x80 || s == 0x40 || s == 0x20 || s == 0x10 || s == 0x08 || s == 0x04 || s == 0x02 || s == 0x01
  }

  lemma SingleBitIsSingle(t: nat)
    requires t < 8
    ensures IsSingle(SingleBit(t))
  {
  }

  lemma XorSingle(x: bv8, y: bv8, s: bv8)
    requires IsSingle(s)
    ensures ((x ^ y) & s != 0) <==> ((x & s != 0) != (y & s != 0))
  {
  }

  lemma AndSingle(x: bv8, m: bv8, s: bv8)
    requires IsSingle(s)
    ensures (Masked(x, m) & s != 0) <==> (m & s != 0 && x & s != 0)
  {
  }

  lemma RemapSingle(x: bv8, y: bv8, m: bv8, s: bv8)
    requires IsSingle(s)
    ensures (RemapOctet(x, y, m) & s != 0) == if m & s != 0 then y & s != 0 else x & s != 0
  {
  }

  lemma XorBit(x: bv8, y: bv8, t: nat)
    requires t < 8
    ensures OctetBit(x ^ y, t) <==> OctetBit(x, t) != OctetBit(y, t)
  {
    SingleBitIsSingle(t);
    XorSingle(x, y, SingleBit(t));
  }

  lemma MaskedBit(x: bv8, m: bv8, t: nat)
    requires t < 8
    ensures OctetBit(Masked(x, m), t) <==> OctetBit(m, t) && OctetBit(x, t)
  {
    SingleBitIsSingle(t);
    AndSingle(x, m, SingleBit(t));
  }

  lemma RemapOctetBit(x: bv8, y: bv8, m: bv8, t: nat)
    requires t < 8
    ensures OctetBit(RemapOctet(x, y, m), t) == if OctetBit(m, t) then OctetBit(y, t) else OctetBit(x, t)
  {
    SingleBitIsSingle(t);
    RemapSingle(x, y, m, SingleBit(t));
  }

  /** The first `j` bits of an octet are clear. */
  predicate LeadingClear(d: bv8, j: nat)
    requires j <= 8
  {
    j == 0 || (LeadingClear(d, j - 1) && !OctetBit(d, j - 1))
  }

  lemma {:induction false} ZeroLeading(d: bv8, j: nat)
    requires j <= 8
    ensures (d & LeadingOnes(j) == 0) <==> LeadingClear(d, j)
  {
    if j > 0 {
      ZeroLeading(d, j - 1);
      LeadingOnesStep(j - 1);
      ZeroUnderUnion(d, LeadingOnes(j - 1), SingleBit(j - 1));
    }
  }

  lemma {:induction false} LeadingClearAll(d: bv8, j: nat)
    requires j <= 8
    ensures LeadingClear(d, j) <==> forall t :: 0 <= t < j ==> !OctetBit(d, t)
  {
    if j > 0 {
      LeadingClearAll(d, j - 1);
    }
  }

  /** The first `j` bits of two octets agree. */
  predicate LeadingAgree(x: bv8, y: bv8, j: nat)
    requires j <= 8
  {
    forall t :: 0 <= t < j ==> OctetBit(x, t) == OctetBit(y, t)
  }

  /** Two octets agree under a leading-ones mask iff their leading bits agree. */
  lemma OctetPrefix(x: bv8, y: bv8, j: nat)
    requires j <= 8
    ensures (Masked(x, LeadingOnes(j)) == Masked(y, LeadingOnes(j))) <==> LeadingAgree(x, y, j)
  {
    var m := LeadingOnes(j);
    var d := x ^ y;
    XorUnderMask(x, y, m);
    ZeroLeading(d, j);
    LeadingClearAll(d, j);
    forall t | 0 <= t < j ensures !OctetBit(d, t) <==> OctetBit(x, t) == OctetBit(y, t) {
      XorBit(x, y, t);
    }
  }

  lemma MaskBit(x: bv8, j: nat, t: nat)
    requires j <= 8 && t < 8
    ensures OctetBit(Masked(x, LeadingOnes(j)), t) <==> t < j && OctetBit(x, t)
  {
    MaskedBit(x, LeadingOnes(j), t);
    LeadingOnesBit(j, t);
  }

  lemma RemapBit(x: bv8, y: bv8, j: nat, t: nat)
    requires j <= 8 && t < 8
    ensures OctetBit(RemapOctet(x, y, LeadingOnes(j)), t) == if t < j then OctetBit(y, t) else OctetBit(x, t)
  {
    RemapOctetBit(x, y, LeadingOnes(j), t);
    LeadingOnesBit(j, t);
  }

  /** The leading bits that fall into each octet agree. */
  predicate OctetsAgree(a: Octets, b: Octets, n: PrefixLen)
  {
    && LeadingAgree(a[0], b[0], OnesIn(n, 0))
    && LeadingAgree(a[1], b[1], OnesIn(n, 1))
    && LeadingAgree(a[2], b[2], OnesIn(n, 2))
    && LeadingAgree(a[3], b[3], OnesIn(n, 3))
  }

  /** The prefix match, octet by octet. */
  lemma PrefixMatchByOctets(a: Octets, b: Octets, n: PrefixLen)
    ensures PrefixMatch(a, b, n) <==> OctetsAgree(a, b, n)
  {
    if PrefixMatch(a, b, n) {
      forall q | 0 <= q < 4 ensures LeadingAgree(a[q], b[q], OnesIn(n, q)) {
        forall t | 0 <= t < OnesIn(n, q) ensures OctetBit(a[q], t) == OctetBit(b[q], t) {
          PrefixOfOctet(n, q, t);
          BitOfOctet(a, q, t);
          BitOfOctet(b, q, t);
        }
      }
    }
    if OctetsAgree(a, b, n) {
      forall k | 0 <= k < n ensures Bit(a, k) == Bit(b, k) {
        var q, t := Decompose(k);
        PrefixOfOctet(n, q, t);
        BitOfOctet(a, q, t);
        BitOfOctet(b, q, t);
        assert LeadingAgree(a[q], b[q], OnesIn(n, q));
      }
    }
  }

  /** Go's octet-wise containment is the RFC 4632 prefix match. */
  lemma ContainsIsPrefixMatch(c: Cidr, ip: Octets)
    ensures Contains(c, ip) <==> PrefixMatch(ip, c.network, c.prefixLen)
  {
    var n := c.prefixLen;
    PrefixMatchByOctets(ip, c.network, n);
    OctetPrefix(ip[0], c.network[0], OnesIn(n, 0));
    OctetPrefix(ip[1], c.network[1], OnesIn(n, 1));
    OctetPrefix(ip[2], c.network[2], OnesIn(n, 2));
    OctetPrefix(ip[3], c.network[3], OnesIn(n, 3));
  }

  /** Masking keeps the prefix bits and clears the others. */
  lemma MaskAddressBits(a: Octets, n: PrefixLen)
    ensures forall k :: 0 <= k < 32 ==> (Bit(MaskAddress(a, n), k) <==> k < n && Bit(a, k))
  {
    var r := MaskAddress(a, n);
    forall k | 0 <= k < 32 ensures Bit(r, k) <==> k < n && Bit(a, k) {
      var q, t := Decompose(k);
      PrefixOfOctet(n, q, t);
      BitOfOctet(a, q, t);
      BitOfOctet(r, q, t);
      assert r[q] == Masked(a[q], LeadingOnes(OnesIn(n, q)));
      MaskBit(a[q], OnesIn(n, q), t);
    }
  }

  /** The remapped address carries the block's bits in the prefix and the
      address's own bits after it. */
  lemma RemappedBits(ip: Octets, c: Cidr)
    ensures forall k :: 0 <= k < 32 ==>
      Bit(Remapped(ip, c), k) == if k < c.prefixLen then Bit(c.network, k) else Bit(ip, k)
  {
    var r := Remapped(ip, c);
    var n := c.prefixLen;
    forall k | 0 <= k < 32 ensures Bit(r, k) == if k < n then Bit(c.network, k) else Bit(ip, k) {
      var q, t := Decompose(k);
      PrefixOfOctet(n, q, t);
      BitOfOctet(r, q, t);
      BitOfOctet(ip, q, t);
      BitOfOctet(c.network, q, t);
      assert r[q] == RemapOctet(ip[q], c.network[q], LeadingOnes(OnesIn(n, q)));
      RemapBit(ip[q], c.network[q], OnesIn(n, q), t);
    }
  }

  /** The remapped address lies in the block. */
  lemma RemappedInBlock(ip: Octets, c: Cidr)
    ensures Contains(c, Remapped(ip, c))
  {
    var r := Remapped(ip, c);
    RemappedBits(ip, c);
    assert PrefixMatch(r, c.network, c.prefixLen);
    ContainsIsPrefixMatch(c, r);
  }

  lemma FixOctet(x: bv8, y: bv8, m: bv8)
    requires Masked(y, m) == Masked(x, m)
    ensures RemapOctet(x, y, m) == x
  {
  }

  /** An address already in the block is its own remap. */
  lemma RemapFixesMembers(ip: Octets, c: Cidr)
    requires Contains(c, ip)
    ensures Remapped(ip, c) == ip
  {
    var m := Mask(c.prefixLen);
    FixOctet(ip[0], c.network[0], m[0]);
    FixOctet(ip[1], c.network[1], m[1]);
    FixOctet(ip[2], c.network[2], m[2]);
    FixOctet(ip[3], c.network[3], m[3]);
    var r := Remapped(ip, c);
    assert r[0] == ip[0] && r[1] == ip[1] && r[2] == ip[2] && r[3] == ip[3];
  }
  // ---------------------------------------------------------------------------
  // Text
  // ---------------------------------------------------------------------------

  /** One dotted-quad field: canonical decimal (no leading zero) up to 255. */
  function ParseOctet(s: string): (r: Option<bv8>)
    ensures r.Some? <==> Canonical(s) && DecimalValue(s) < 256
  {
    if Canonical(s) && DecimalValue(s) < 256 then Some(DecimalValue(s) as bv8) else None
  }

  function FormatOctet(b: bv8): string
  {
    NatToDecimal(b as nat)
  }

  /** `net.ParseIP` restricted to the dotted-quad notation. */
  function ParseIPv4(s: string): Option<Octets>
  {
    var f := Split(s, '.');
    if |f| != 4 then None
    else match (ParseOctet(f[0]), ParseOctet(f[1]), ParseOctet(f[2]), ParseOctet(f[3]))
      case (Some(a), Some(b), Some(c), Some(d)) => Some([a, b, c, d])
      case _ => None
  }

  function Fields(o: Octets): seq<string>
  {
    [FormatOctet(o[0]), FormatOctet(o[1]), FormatOctet(o[2]), FormatOctet(o[3])]
  }

  /** `net.IP.String()` of a four-byte address. */
  function FormatIPv4(o: Octets): string
  {
    Join(Fields(o), '.')
  }

  lemma OctetRoundTrip(b: bv8)
    ensures ParseOctet(FormatOctet(b)) == Some(b)
  {
    DecimalRoundTrip(b as nat);
  }

  lemma ParsedOctetRoundTrip(s: string)
    requires ParseOctet(s).Some?
    ensures FormatOctet(ParseOctet(s).value) == s
  {
    var v := DecimalValue(s);
    ByteValue(v);
    CanonicalRoundTrip(s);
  }

  /** The four fields of a parsable address. */
  lemma ParsedFields(s: string)
    requires ParseIPv4(s).Some?
    ensures var f := Split(s, '.');
      |f| == 4 && forall i :: 0 <= i < 4 ==> ParseOctet(f[i]) == Some(ParseIPv4(s).value[i])
  {
  }

  /** Printing an address and parsing it again gives the address back. */
  lemma FormatParse(o: Octets)
    ensures ParseIPv4(FormatIPv4(o)) == Some(o)
  {
    var f := Fields(o);
    forall i | 0 <= i < 4 ensures '.' !in f[i] && ParseOctet(f[i]) == Some(o[i]) {
      NotationHasNo(o[i] as nat, '.');
      OctetRoundTrip(o[i]);
    }
    SplitJoin(f, '.');
    ParseByFields(FormatIPv4(o), o);
  }

  /** An address whose four fields parse to the octets of `o` is `o`. */
  lemma ParseByFields(s: string, o: Octets)
    requires |Split(s, '.')| == 4
    requires forall i :: 0 <= i < 4 ==> ParseOctet(Split(s, '.')[i]) == Some(o[i])
    ensures ParseIPv4(s) == Some(o)
  {
    assert [o[0], o[1], o[2], o[3]] == o;
  }

  /** Every parsable address is printed exactly as it was written. */
  lemma ParseFormat(s: string)
    requires ParseIPv4(s).Some?
    ensures FormatIPv4(ParseIPv4(s).value) == s
  {
    var f := Split(s, '.');
    var o := ParseIPv4(s).value;
    ParsedFields(s);
    forall i | 0 <= i < 4 ensures FormatOctet(o[i]) == f[i] {
      ParsedOctetRoundTrip(f[i]);
    }
    assert Fields(o) == f;
    JoinSplit(s, '.');
  }

  /** A printed address contains no character other than digits and dots. */
  lemma FormatHasNo(o: Octets, c: char)
    requires c != '.' && !IsDigit(c)
    ensures c !in FormatIPv4(o)
  {
    var f := Fields(o);
    forall i | 0 <= i < 4 ensures c !in f[i] {
      NotationHasNo(o[i] as nat, c);
    }
    JoinChars(f, '.', c);
  }

  /** The prefix length after the slash: decimal digits (leading zeros
      accepted, as Go's `dtoi`) with a value of at most 32. */
  function ParsePrefixLen(s: string): (r: Option<PrefixLen>)
    ensures r.Some? <==> |s| > 0 && AllDigits(s) && DecimalValue(s) <= 32
    ensures r.Some? ==> r.value == DecimalValue(s)
  {
    if |s| > 0 && AllDigits(s) && DecimalValue(s) <= 32 then Some(DecimalValue(s)) else None
  }

  /** Every prefix length written in shortest decimal notation parses back. */
  lemma PrefixLenRoundTrip(n: nat)
    requires n <= 32
    ensures ParsePrefixLen(NatToDecimal(n)) == Some(n)
  {
    DecimalRoundTrip(n);
  }

  /** Unlike an octet, a prefix length may carry leading zeros: "024" reads as "24". */
  lemma PrefixLenLeadingZero(s: string)
    requires |s| > 0
    ensures ParsePrefixLen(['0'] + s) == ParsePrefixLen(s)
  {
    if AllDigits(s) {
      LeadingZeroValue(s);
    } else {
      var i :| 0 <= i < |s| && !IsDigit(s[i]);
      assert (['0'] + s)[i + 1] == s[i];
    }
  }

  /** `net.ParseCIDR` for "a.b.c.d/n": the address and prefix length on both
      sides of the one slash, and the network with its host bits cleared. */
  function ParseCIDR(s: string): (r: Option<Cidr>)
    ensures r.Some? ==> forall k :: r.value.prefixLen <= k < 32 ==> !Bit(r.value.network, k)
    ensures r.Some? ==>
      var parts := Split(s, '/');
      |parts| == 2 && ParseIPv4(parts[0]).Some? && Some(r.value.prefixLen) == ParsePrefixLen(parts[1]) &&
      forall k :: 0 <= k < r.value.prefixLen ==> Bit(r.value.network, k) == Bit(ParseIPv4(parts[0]).value, k)
    ensures r.Some? <==>
      var parts := Split(s, '/');
      |parts| == 2 && ParseIPv4(parts[0]).Some? && ParsePrefixLen(parts[1]).Some?
  {
    var parts := Split(s, '/');
    if |parts| != 2 then None
    else match (ParseIPv4(parts[0]), ParsePrefixLen(parts[1]))
      case (Some(ip), Some(n)) => MaskAddressBits(ip, n); Some(Cidr(MaskAddress(ip, n), n))
      case _ => None
  }
}
