/** IP addresses, CIDR prefixes, and the byte-wise prefix match of the Go VM.
    Addresses and prefixes are bytes; their text form is a parameter (`Text`). */
module Addresses {
  import opened Bits

  datatype Option<+T> = None | Some(value: T)

  type Bytes4 = b: seq<u8> | |b| == 4 witness [0, 0, 0, 0]
  type Bytes16 = b: seq<u8> | |b| == 16
    witness [0, 0, 0, 0, 0, 0, 0, 0, 0, 0, 0, 0, 0, 0, 0, 0]

  const ZEROS12: seq<u8> := [0, 0, 0, 0, 0, 0, 0, 0, 0, 0, 0, 0]

  /** `net.IP`: nil, 4 bytes or 16 bytes. */
  datatype IP = NoIP | V4(b4: Bytes4) | V6(b16: Bytes16)

  /** IPv4-mapped IPv6 address, section 2.5.5.2 of RFC 4291. */
  predicate Mapped(b: Bytes16) {
    (forall i | 0 <= i < 10 :: b[i] == 0) && b[10] == 0xff && b[11] == 0xff
  }

  function Unmap(ip: IP): IP {
    if ip.V6? && Mapped(ip.b16) then V4(ip.b16[12..]) else ip
  }

  datatype RawPrefix = Prefix(ip: IP, bits: nat) {
    predicate Valid() {
      match ip
      case NoIP => false
      case V4(_) => bits <= 32
      case V6(_) => bits <= 128
    }
  }

  /** What `netip.ParsePrefix` returns on success. */
  type CidrPrefix = p: RawPrefix | p.Valid() witness Prefix(V4([0, 0, 0, 0]), 0)

  /** The text functions of the network library, which are outside this model:
      `cidr` parses a prefix, `show` prints address and port as one endpoint
      string, and `host` is the address of an endpoint string (or none). */
  datatype Text = Text(cidr: string -> Option<CidrPrefix>,
                       show: (IP, u16) -> string,
                       host: string -> IP)

  /** Parsing a printed endpoint gives the address back; a mapped address may
      come back as the IPv4 address that it carries. */
  ghost predicate TextOk(tx: Text) {
    forall ip: IP, port: u16 :: Unmap(tx.host(tx.show(ip, port))) == Unmap(ip)
  }

  // Bit order of prefixes (sections 3.1 of RFC 4632 and 2.3 of RFC 4291)

  /** Bit `j` of an address in network order. */
  predicate NetBit(b: seq<u8>, j: nat)
    requires j < 8 * |b|
  {
    Bit(b[j / 8], 7 - j % 8)
  }

  /** The first `n` bits agree. */
  predicate SamePrefix(a: seq<u8>, b: seq<u8>, n: nat)
    requires n <= 8 * |a| && n <= 8 * |b|
  {
    forall j: nat | j < n :: NetBit(a, j) == NetBit(b, j)
  }

  /** `netip.Prefix.Contains`: an invalid prefix contains nothing. */
  predicate Contains(p: RawPrefix, ip: IP) {
    p.Valid() &&
    match (p.ip, ip)
    case (V4(a), V4(b)) => SamePrefix(a, b, p.bits)
    case (V6(a), V6(b)) => SamePrefix(a, b, p.bits)
    case _ => false
  }

  /** The prefix after `Unmap` of its address with the length kept: for a
      mapped prefix longer than 32 bits this is not a valid prefix. */
  function UnmapPrefix(p: RawPrefix): RawPrefix {
    if p.ip.V6? && Mapped(p.ip.b16) then Prefix(Unmap(p.ip), p.bits) else p
  }

  /** Meaning of `ip_in` over prefix texts; texts that do not parse match nothing. */
  predicate InCidrs(tx: Text, ip: IP, cidrs: seq<string>) {
    exists i :: 0 <= i < |cidrs| && CidrHas(tx, cidrs[i], ip)
  }

  predicate CidrHas(tx: Text, cidr: string, ip: IP) {
    var p := tx.cidr(cidr);
    p.Some? && Contains(UnmapPrefix(p.value), Unmap(ip))
  }

  // Slots of a compiled IP set

  datatype Slot = Slot(plen: u16, fam: u8, addr: Bytes16)

  function PrefixSlot(p: CidrPrefix): Slot {
    match p.ip
    case V4(a) => Slot(p.bits, 4, a + ZEROS12)
    case V6(a) => Slot(p.bits, 6, a)
  }

  function To4(ip: IP): Option<Bytes4> {
    match Unmap(ip)
    case V4(b) => Some(b)
    case _ => None
  }

  /** One round of the Go set loop, for an address that is present. */
  predicate GoSlotMatch(s: Slot, ip: IP)
    requires ip != NoIP
  {
    if s.fam == 4 then
      To4(ip).Some? && s.plen <= 32 && SamePrefix(s.addr, To4(ip).value, s.plen)
    else
      To4(ip).None? && s.plen <= 128 && SamePrefix(s.addr, ip.b16, s.plen)
  }

  // Byte-wise prefix match

  lemma ByteBits(x: u8, y: u8)
    ensures x == y <==> SameBelow(x, y, 8)
  {
    WordSizes();
    SameBits(x, y, 8);
  }

  /** The first `rem` bits, in network order, of two bytes agree. */
  predicate HighBitsAgree(x: u8, y: u8, rem: nat) {
    forall k: nat | 8 - rem <= k < 8 :: Bit(x, k) == Bit(y, k)
  }

  lemma HighMask(rem: nat, k: nat)
    requires 0 < rem < 8
    ensures Bit(Low(Shl(0xff, 8 - rem), 8), k) <==> 8 - rem <= k < 8
  {
    HalfWordSizes();
    LowBit(Shl(0xff, 8 - rem), 8, k);
    ShlBit(0xff, 8 - rem, k);
    if 8 - rem <= k < 8 { AllOnes(8, k - (8 - rem)); }
  }

  /** The mask `0xff << (8 - rem)` keeps the high `rem` bits of a byte. */
  lemma MaskedByte(x: u8, y: u8, rem: nat)
    requires 0 < rem < 8
    ensures var m := Low(Shl(0xff, 8 - rem), 8);
            And(x, m) == And(y, m) <==> HighBitsAgree(x, y, rem)
  {
    var m := Low(Shl(0xff, 8 - rem), 8);
    if And(x, m) != And(y, m) {
      var k := DifferentBit(And(x, m), And(y, m));
      MaskedBits(x, y, m, k);
      HighMask(rem, k);
    } else {
      forall k: nat | 8 - rem <= k < 8 ensures Bit(x, k) == Bit(y, k) {
        MaskedBits(x, y, m, k);
        HighMask(rem, k);
      }
    }
  }

  lemma MaskedBits(x: u8, y: u8, m: nat, k: nat)
    ensures Bit(And(x, m), k) == (Bit(x, k) && Bit(m, k)) && Bit(And(y, m), k) == (Bit(y, k) && Bit(m, k))
  {
    AndBit(x, m, k);
    AndBit(y, m, k);
  }

  lemma {:induction false} AllOnes(w: nat, k: nat)
    requires k < w
    ensures Bit(Pow2(w) - 1, k)
  {
    assert (Pow2(w) - 1) / 2 == Pow2(w - 1) - 1;
    if k > 0 { AllOnes(w - 1, k - 1); }
  }

  /** Bits of a prefix, byte by byte. */
  lemma SamePrefixByBytes(a: seq<u8>, b: seq<u8>, n: nat)
    requires n <= 8 * |a| && n <= 8 * |b|
    ensures SamePrefix(a, b, n) <==>
            (forall i: nat | i < n / 8 :: a[i] == b[i]) &&
            (n % 8 > 0 ==> HighBitsAgree(a[n / 8], b[n / 8], n % 8))
  {
    var full, rem := n / 8, n % 8;
    if SamePrefix(a, b, n) {
      forall i: nat | i < full ensures a[i] == b[i] {
        forall k: nat | k < 8 ensures Bit(a[i], k) == Bit(b[i], k) {
          var j := 8 * i + (7 - k);
          assert NetBit(a, j) == NetBit(b, j);
          assert j / 8 == i && 7 - j % 8 == k;
        }
        ByteBits(a[i], b[i]);
      }
      forall k: nat | rem > 0 && 8 - rem <= k < 8 ensures Bit(a[full], k) == Bit(b[full], k) {
        var j := 8 * full + (7 - k);
        assert NetBit(a, j) == NetBit(b, j);
        assert j / 8 == full && 7 - j % 8 == k;
      }
    } else {
      var j: nat :| j < n && NetBit(a, j) != NetBit(b, j);
      var i: nat, k: nat := j / 8, 7 - j % 8;
      assert Bit(a[i], k) != Bit(b[i], k);
      if i == full {
        assert rem > 0 && !HighBitsAgree(a[full], b[full], rem);
      }
    }
  }

  /** `prefixMatch4` (limit 32) and `prefixMatch` (limit 128): compare whole
      bytes, then the masked rest. */
  method PrefixMatch(a: Bytes16, b: seq<u8>, plen: nat, limit: nat) returns (r: bool)
    requires limit == 8 * |b| && |b| <= 16
    ensures r <==> plen <= limit && SamePrefix(a, b, plen)
  {
    if plen > limit {
      return false;
    }
    SamePrefixByBytes(a, b, plen);
    var full, rem := plen / 8, plen % 8;
    for i := 0 to full
      invariant forall k: nat | k < i :: a[k] == b[k]
    {
      if a[i] != b[i] {
        return false;
      }
    }
    if rem > 0 {
      MaskedByte(a[full], b[full], rem);
      var m := Low(Shl(0xff, 8 - rem), 8);
      if And(a[full], m) != And(b[full], m) {
        return false;
      }
    }
    return true;
  }

  /** `AddrInCIDRs`, the reference meaning of `ip_in`. */
  method AddrInCidrs(tx: Text, addr: string, cidrs: seq<string>) returns (r: bool)
    ensures r <==> InCidrs(tx, tx.host(addr), cidrs)
  {
    var ip := Unmap(tx.host(addr));
    if ip == NoIP {
      return false;
    }
    for i := 0 to |cidrs|
      invariant forall k | 0 <= k < i :: !CidrHas(tx, cidrs[k], tx.host(addr))
    {
      var p := tx.cidr(cidrs[i]);
      if p.Some? {
        var found := PrefixContains(UnmapPrefix(p.value), ip);
        if found {
          return true;
        }
      }
    }
    return false;
  }

  method PrefixContains(p: RawPrefix, ip: IP) returns (r: bool)
    ensures r <==> Contains(p, ip)
  {
    match (p.ip, ip)
    case (V4(a), V4(b)) => r := PrefixMatch(a + ZEROS12, b, p.bits, 32); Widened(a, b, p.bits);
    case (V6(a), V6(b)) => r := PrefixMatch(a, b, p.bits, 128);
    case _ => r := false;
  }

  /** The zero bytes behind an IPv4 prefix are never compared. */
  lemma Widened(a: Bytes4, b: Bytes4, n: nat)
    ensures n <= 32 ==> (SamePrefix(a + ZEROS12, b, n) <==> SamePrefix(a, b, n))
  {
    if n <= 32 {
      forall j: nat | j < n ensures NetBit(a + ZEROS12, j) == NetBit(a, j) {
      }
    }
  }

  // Compiled slots against the reference meaning

  /** A mapped prefix that the compiled set treats like userspace: length 96 or
      more, where neither matches any address. */
  predicate PrefixOk(p: CidrPrefix) {
    p.ip.V6? && Mapped(p.ip.b16) ==> p.bits >= 96
  }

  /** Two addresses that agree on their first 96 bits are mapped alike. */
  lemma MappedByPrefix(a: Bytes16, b: Bytes16, n: nat)
    requires 96 <= n <= 128 && SamePrefix(a, b, n)
    ensures Mapped(a) <==> Mapped(b)
  {
    SamePrefixByBytes(a, b, n);
    assert forall i: nat | i < 12 :: a[i] == b[i];
  }

  lemma SlotMeaning(p: CidrPrefix, ip: IP)
    requires ip != NoIP && PrefixOk(p)
    ensures GoSlotMatch(PrefixSlot(p), ip) <==> Contains(UnmapPrefix(p), Unmap(ip))
  {
    match p.ip
    case V4(a) =>
      if To4(ip).Some? { Widened(a, To4(ip).value, p.bits); }
    case V6(a) =>
      if Mapped(a) && ip.V6? && SamePrefix(a, ip.b16, p.bits) {
        MappedByPrefix(a, ip.b16, p.bits);
      }
  }

  /** An address that tells the two tiers apart for a mapped prefix shorter than 96 bits:
      for 32 bits or fewer the prefix's own IPv4 address, otherwise an unmapped
      address that shares the prefix bits. */
  function MappedWitness(a: Bytes16, bits: nat): IP
  {
    if bits <= 32 then V4(a[12..]) else V6(a[11 := 0xfe])
  }

  /** A mapped prefix is decided alike by both tiers for every address iff its
      length is at least 96. */
  lemma MappedPrefixExact(p: CidrPrefix)
    requires p.ip.V6? && Mapped(p.ip.b16)
    ensures (forall ip: IP | ip != NoIP :: GoSlotMatch(PrefixSlot(p), ip) == Contains(UnmapPrefix(p), Unmap(ip)))
       <==> p.bits >= 96
  {
    var a := p.ip.b16;
    if p.bits >= 96 {
      forall ip: IP | ip != NoIP
        ensures GoSlotMatch(PrefixSlot(p), ip) == Contains(UnmapPrefix(p), Unmap(ip))
      {
        SlotMeaning(p, ip);
      }
    } else {
      var w := MappedWitness(a, p.bits);
      if p.bits > 32 {
        var b := a[11 := 0xfe];
        SamePrefixByBytes(a, b, p.bits);
        forall k: nat | 1 <= k < 8 ensures Bit(0xff, k) == Bit(0xfe, k) {
        }
        assert SamePrefix(a, b, p.bits);
        assert !Mapped(b);
      }
      assert GoSlotMatch(PrefixSlot(p), w) != Contains(UnmapPrefix(p), Unmap(w));
    }
  }
}
