/** The kernel's CIDR match: prefixes compared as shifted little-endian words,
    which addresses a set matches, and when that is the prefix match. */
module WordCidr {
  import opened Bits
  import opened Addresses
  import opened Events
  import opened Program

  /** Bit `j` of an address in the order of its little-endian words. */
  predicate HostBit(b: seq<u8>, j: nat)
    requires j < 8 * |b|
  {
    Bit(b[j / 8], j % 8)
  }

  /** The first `n` bits agree in the order of the little-endian words. */
  ghost predicate SameLow(a: seq<u8>, b: seq<u8>, n: nat)
    requires n <= 8 * |a| && n <= 8 * |b|
  {
    forall j: nat | j < n :: HostBit(a, j) == HostBit(b, j)
  }

  ghost predicate LowBitsAgree(x: u8, y: u8, rem: nat) {
    forall k: nat | k < rem :: Bit(x, k) == Bit(y, k)
  }

  // The test on words

  /** `(u32) x << (32 - plen) == 0` for the xor of two words. */
  predicate Word32Equal(p: nat, a: nat, plen: nat)
    requires 1 <= plen <= 32
  {
    Low(Shl(Xor(Low(p, 32), Low(a, 32)), 32 - plen), 32) == 0
  }

  /** `(x << (64 - plen)) == 0` for the xor of two 64-bit words. */
  predicate Word64Equal(p: nat, a: nat, plen: nat)
    requires 1 <= plen <= 64
  {
    Low(Shl(Xor(p, a), 64 - plen), 64) == 0
  }

  /** One round of the kernel's set loop. */
  predicate KoSlotMatch(s: Slot, is4: bool, aw0: nat, aw1: nat) {
    var pw0, pw1 := LoadLE(s.addr[..8]), LoadLE(s.addr[8..]);
    if s.fam == 4 then
      is4 && s.plen <= 32 && (s.plen == 0 || Word32Equal(pw0, aw0, s.plen))
    else if s.fam == 6 then
      !is4 && s.plen <= 128 &&
      (s.plen == 0 ||
       (if s.plen <= 64 then Word64Equal(pw0, aw0, s.plen)
        else pw0 == aw0 && Word64Equal(pw1, aw1, s.plen - 64)))
    else false
  }

  /** The normalised words of an endpoint: whether it acts as IPv4, and its two words. */
  datatype Words = Words(is4: bool, w0: nat, w1: nat)

  function AddressWords(family: u16, ip: Bytes16): Option<Words> {
    var aw0, aw1 := LoadLE(ip[..8]), LoadLE(ip[8..]);
    if family == AF_INET then Some(Words(true, aw0, aw1))
    else if family == AF_INET6 then
      if aw0 == 0 && And(aw1, 0xffff) == 0 && And(Shr(aw1, 16), 0xffff) == 0xffff
      then Some(Words(true, Shr(aw1, 32), aw1))
      else Some(Words(false, aw0, aw1))
    else None
  }

  predicate KoInSet(family: u16, ip: Bytes16, slots: Slots, n: SlotCount) {
    var w := AddressWords(family, ip);
    w.Some? && exists i :: 0 <= i < n && KoSlotMatch(slots[i], w.value.is4, w.value.w0, w.value.w1)
  }

  // The set by bits

  /** A slot as the compiler writes it. */
  predicate SlotOk(s: Slot) {
    (s.fam == 4 && s.plen <= 32) || (s.fam == 6 && s.plen <= 128)
  }

  /** Whole bytes, or a mapped prefix longer than 96 bits, which is compiled as
      IPv6 and matches no address. */
  predicate WordSafe(s: Slot) {
    s.plen % 8 == 0 || (s.fam == 6 && s.plen > 96 && Mapped(s.addr))
  }

  /** The slot's family fits the address, its length is within the limit, and the
      first bits agree in word order. */
  ghost predicate LowMatch(s: Slot, ip: IP) {
    match ip
    case NoIP => false
    case V4(b) => s.fam == 4 && s.plen <= 32 && SameLow(s.addr, b, s.plen)
    case V6(b) => s.fam == 6 && s.plen <= 128 && SameLow(s.addr, b, s.plen)
  }

  /** One of the first `n` slots matches the address, mapped addresses acting as IPv4. */
  ghost predicate LowInSet(family: u16, ip: Bytes16, slots: Slots, n: SlotCount) {
    (family == AF_INET || family == AF_INET6) &&
    exists i :: 0 <= i < n && LowMatch(slots[i], Unmap(DecodeIp(family, ip)))
  }

  function OneSlot(s: Slot): Slots {
    [s, NO_SLOT, NO_SLOT, NO_SLOT]
  }

  // Addresses as words

  lemma {:induction false} LoadZero(b: seq<u8>)
    ensures LoadLE(b) == 0 <==> forall i | 0 <= i < |b| :: b[i] == 0
  {
    if b != [] {
      LoadZero(b[1..]);
      assert forall i | 0 < i < |b| :: b[i] == b[1..][i - 1];
    }
  }

  /** Masking a word with 0xffff leaves the load of its first two bytes. */
  lemma LowHalfWord(b: seq<u8>)
    requires |b| >= 2
    ensures Bits.And(LoadLE(b), 0xffff) == b[0] as int + 256 * b[1] as int
    ensures Shr(LoadLE(b), 16) == LoadLE(b[2..])
  {
    assert b == b[..2] + b[2..];
    WordSizes();
    AndOnes(LoadLE(b), 16);
    LoadCut(b[..2], b[2..]);
    assert LoadLE(b[..2]) == b[0] as int + 256 * LoadLE(b[..2][1..]);
    assert LoadLE(b[..2][1..]) == b[1] as int + 256 * LoadLE(b[..2][1..][1..]);
    assert b[..2][1..][1..] == [];
  }

  lemma MappedBytes(ip: Bytes16)
    ensures Mapped(ip) <==> (forall i | 0 <= i < 8 :: ip[..8][i] == 0) &&
                            ip[8] == 0 && ip[9] == 0 && ip[10] == 0xff && ip[11] == 0xff
  {
    assert forall i | 0 <= i < 8 :: ip[..8][i] == ip[i];
  }

  /** The kernel recognises exactly the mapped addresses, and takes their last four bytes. */
  lemma MappedWords(ip: Bytes16)
    ensures AddressWords(AF_INET6, ip) ==
            if Mapped(ip) then Some(Words(true, LoadLE(ip[12..]), LoadLE(ip[8..])))
            else Some(Words(false, LoadLE(ip[..8]), LoadLE(ip[8..])))
  {
    LoadZero(ip[..8]);
    LowHalfWord(ip[8..]);
    LowHalfWord(ip[10..]);
    assert ip[8..][2..] == ip[10..];
    assert ip[8..] == ip[8..12] + ip[12..];
    LoadCut(ip[8..12], ip[12..]);
    MappedBytes(ip);
  }

  // What the word test decides

  lemma Word32Meaning(p: nat, a: nat, plen: nat)
    requires 1 <= plen <= 32
    ensures Word32Equal(p, a, plen) <==> SameBelow(p, a, plen)
  {
    var x := Xor(Low(p, 32), Low(a, 32));
    ShiftedOut(x, 32, plen);
    forall k: nat | k < 32 ensures Bit(x, k) == (Bit(p, k) != Bit(a, k)) {
      XorBit(Low(p, 32), Low(a, 32), k);
      LowBit(p, 32, k);
      LowBit(a, 32, k);
    }
    XorClear(p, a, x, plen);
  }

  lemma Word64Meaning(p: nat, a: nat, plen: nat)
    requires 1 <= plen <= 64
    ensures Word64Equal(p, a, plen) <==> SameBelow(p, a, plen)
  {
    var x := Xor(p, a);
    ShiftedOut(x, 64, plen);
    forall k: nat | k < 64 ensures Bit(x, k) == (Bit(p, k) != Bit(a, k)) {
      XorBit(p, a, k);
    }
    XorClear(p, a, x, plen);
  }

  lemma XorClear(p: nat, a: nat, x: nat, n: nat)
    requires forall k: nat | k < n :: Bit(x, k) == (Bit(p, k) != Bit(a, k))
    ensures ClearBelow(x, n) <==> SameBelow(p, a, n)
  {
    if !ClearBelow(x, n) {
      var k: nat :| k < n && Bit(x, k);
      assert Bit(p, k) != Bit(a, k);
    } else {
      forall k: nat | k < n ensures Bit(p, k) == Bit(a, k) {
        assert !Bit(x, k);
      }
    }
  }

  /** The IPv4 test on bytes: the first `plen` bits in word order. */
  lemma Word4IsLow(p: Bytes16, a: seq<u8>, plen: nat)
    requires 1 <= plen <= 32 && |a| >= 4
    ensures Word32Equal(LoadLE(p[..8]), LoadLE(a), plen) <==> SameLow(p, a, plen)
  {
    Word32Meaning(LoadLE(p[..8]), LoadLE(a), plen);
    LowIsBelow(p[..8], a, plen);
    LowTake(p, 8, a, plen);
  }

  /** Bits in word order are the bits of the loaded word. */
  lemma LowIsBelow(a: seq<u8>, b: seq<u8>, n: nat)
    requires n <= 8 * |a| && n <= 8 * |b|
    ensures SameLow(a, b, n) <==> SameBelow(LoadLE(a), LoadLE(b), n)
  {
    forall k: nat | k < n
      ensures Bit(LoadLE(a), k) == HostBit(a, k) && Bit(LoadLE(b), k) == HostBit(b, k)
    {
      LoadBit(a, k);
      LoadBit(b, k);
    }
    if SameLow(a, b, n) {
      forall k: nat | k < n ensures Bit(LoadLE(a), k) == Bit(LoadLE(b), k) {
        assert HostBit(a, k) == HostBit(b, k);
      }
    } else {
      var k: nat :| k < n && HostBit(a, k) != HostBit(b, k);
      assert Bit(LoadLE(a), k) != Bit(LoadLE(b), k);
    }
  }

  lemma LowTake(a: seq<u8>, m: nat, b: seq<u8>, n: nat)
    requires m <= |a| && n <= 8 * m && n <= 8 * |b|
    ensures SameLow(a[..m], b, n) <==> SameLow(a, b, n)
  {
    forall j: nat | j < n ensures HostBit(a[..m], j) == HostBit(a, j) {
    }
  }

  /** The IPv6 test on bytes. */
  predicate Words6Equal(p: Bytes16, a: Bytes16, plen: nat)
    requires 1 <= plen <= 128
  {
    if plen <= 64 then Word64Equal(LoadLE(p[..8]), LoadLE(a[..8]), plen)
    else LoadLE(p[..8]) == LoadLE(a[..8]) && Word64Equal(LoadLE(p[8..]), LoadLE(a[8..]), plen - 64)
  }

  /** Word order over sixteen bytes is word order over the halves in turn. */
  lemma LowHalves(a: Bytes16, b: Bytes16, n: nat)
    requires 64 <= n <= 128
    ensures SameLow(a, b, n) <==> SameLow(a[..8], b[..8], 64) && SameLow(a[8..], b[8..], n - 64)
  {
    forall j: nat | j < 64
      ensures HostBit(a[..8], j) == HostBit(a, j) && HostBit(b[..8], j) == HostBit(b, j)
      ensures HostBit(a[8..], j) == HostBit(a, 64 + j) && HostBit(b[8..], j) == HostBit(b, 64 + j)
    {
      assert (64 + j) / 8 == 8 + j / 8 && (64 + j) % 8 == j % 8;
    }
    if SameLow(a[..8], b[..8], 64) && SameLow(a[8..], b[8..], n - 64) {
      forall j: nat | j < n ensures HostBit(a, j) == HostBit(b, j) {
        if j >= 64 {
          assert HostBit(a[8..], j - 64) == HostBit(b[8..], j - 64) && j == 64 + (j - 64);
        } else {
          assert HostBit(a[..8], j) == HostBit(b[..8], j);
        }
      }
    } else if SameLow(a, b, n) {
      forall j: nat | j < n - 64 ensures HostBit(a[8..], j) == HostBit(b[8..], j) {
        assert HostBit(a, 64 + j) == HostBit(b, 64 + j);
      }
      assert false;
    }
  }

  lemma Word6IsLow(p: Bytes16, a: Bytes16, plen: nat)
    requires 1 <= plen <= 128
    ensures Words6Equal(p, a, plen) <==> SameLow(p, a, plen)
  {
    if plen <= 64 {
      Word64Meaning(LoadLE(p[..8]), LoadLE(a[..8]), plen);
      LowIsBelow(p[..8], a[..8], plen);
      LowTake(p, 8, a[..8], plen);
      LowTake(a, 8, p, plen);
    } else {
      LoadBound(p[..8]);
      LoadBound(a[..8]);
      SameBits(LoadLE(p[..8]), LoadLE(a[..8]), 64);
      Word64Meaning(LoadLE(p[8..]), LoadLE(a[8..]), plen - 64);
      LowIsBelow(p[..8], a[..8], 64);
      LowIsBelow(p[8..], a[8..], plen - 64);
      LowHalves(p, a, plen);
    }
  }

  /** A round of the kernel's loop, for every slot, family and length. */
  lemma SlotIsLow(s: Slot, family: u16, ip: Bytes16)
    requires family == AF_INET || family == AF_INET6
    ensures var w := AddressWords(family, ip).value;
            KoSlotMatch(s, w.is4, w.w0, w.w1) <==> LowMatch(s, Unmap(DecodeIp(family, ip)))
  {
    if family == AF_INET6 { MappedWords(ip); }
    match Unmap(DecodeIp(family, ip))
    case V4(b) =>
      if s.fam == 4 && 1 <= s.plen <= 32 {
        var bytes := if family == AF_INET then ip[..8] else ip[12..];
        Word4IsLow(s.addr, bytes, s.plen);
        assert bytes[..4] == b;
        LowTake(bytes, 4, s.addr, s.plen);
      }
    case V6(b) =>
      if s.fam == 6 && 1 <= s.plen <= 128 { Word6IsLow(s.addr, b, s.plen); }
  }

  /** What the kernel's set decides, for all slots, aligned or not. */
  lemma SetIsLow(family: u16, ip: Bytes16, slots: Slots, n: SlotCount)
    ensures KoInSet(family, ip, slots, n) <==> LowInSet(family, ip, slots, n)
  {
    if family == AF_INET || family == AF_INET6 {
      forall i | 0 <= i < n
        ensures var w := AddressWords(family, ip).value;
                KoSlotMatch(slots[i], w.is4, w.w0, w.w1) <==> LowMatch(slots[i], Unmap(DecodeIp(family, ip)))
      {
        SlotIsLow(slots[i], family, ip);
      }
    }
  }

  /** `ko_ip_in_set`. */
  method KoIpInSet(family: u16, ip: Bytes16, p: Pred) returns (r: bool)
    ensures r <==> KoInSet(family, ip, p.slots, p.n)
    ensures r <==> LowInSet(family, ip, p.slots, p.n)
  {
    SetIsLow(family, ip, p.slots, p.n);
    var aw0, aw1 := LoadLE(ip[..8]), LoadLE(ip[8..]);
    var is4: bool;
    if family == AF_INET {
      is4 := true;
    } else if family == AF_INET6 {
      is4 := aw0 == 0 && And(aw1, 0xffff) == 0 && And(Shr(aw1, 16), 0xffff) == 0xffff;
      if is4 {
        aw0 := Shr(aw1, 32);
      }
    } else {
      return false;
    }
    assert AddressWords(family, ip) == Some(Words(is4, aw0, aw1));
    for i := 0 to 4
      invariant forall j | 0 <= j < i && j < p.n :: !KoSlotMatch(p.slots[j], is4, aw0, aw1)
    {
      if i >= p.n {
        break;
      }
      var s := p.slots[i];
      var plen := s.plen;
      if s.fam == 4 {
        if !is4 {
          continue;
        }
        if plen == 0 {
          return true;
        }
        if plen > 32 {
          continue;
        }
        var pw := LoadLE(s.addr[..8]);
        var x := Xor(Low(pw, 32), Low(aw0, 32));
        if Low(Shl(x, 32 - plen), 32) == 0 {
          return true;
        }
      } else if s.fam == 6 {
        if is4 {
          continue;
        }
        if plen == 0 {
          return true;
        }
        if plen > 128 {
          continue;
        }
        var pw0, pw1 := LoadLE(s.addr[..8]), LoadLE(s.addr[8..]);
        if plen <= 64 {
          if Low(Shl(Xor(pw0, aw0), 64 - plen), 64) == 0 {
            return true;
          }
        } else if pw0 == aw0 && Low(Shl(Xor(pw1, aw1), 128 - plen), 64) == 0 {
          return true;
        }
      }
    }
    return false;
  }

  /** Word order, byte by byte: whole bytes agree, and the LOW bits of the next one. */
  lemma SameLowByBytes(a: seq<u8>, b: seq<u8>, n: nat)
    requires n <= 8 * |a| && n <= 8 * |b|
    ensures SameLow(a, b, n) <==>
            (forall i: nat | i < n / 8 :: a[i] == b[i]) &&
            (n % 8 > 0 ==> LowBitsAgree(a[n / 8], b[n / 8], n % 8))
  {
    var full, rem := n / 8, n % 8;
    if SameLow(a, b, n) {
      forall i: nat | i < full ensures a[i] == b[i] {
        forall k: nat | k < 8 ensures Bit(a[i], k) == Bit(b[i], k) {
          assert HostBit(a, 8 * i + k) == HostBit(b, 8 * i + k);
          assert (8 * i + k) / 8 == i && (8 * i + k) % 8 == k;
        }
        ByteBits(a[i], b[i]);
      }
      forall k: nat | k < rem ensures Bit(a[full], k) == Bit(b[full], k) {
        assert HostBit(a, 8 * full + k) == HostBit(b, 8 * full + k);
        assert (8 * full + k) / 8 == full && (8 * full + k) % 8 == k;
      }
    } else {
      var j: nat :| j < n && HostBit(a, j) != HostBit(b, j);
      var i: nat, k: nat := j / 8, j % 8;
      assert Bit(a[i], k) != Bit(b[i], k);
      if i == full {
        assert rem > 0 && !LowBitsAgree(a[full], b[full], rem);
      }
    }
  }

  /** On whole bytes the two orders agree. */
  lemma AlignedAgrees(a: seq<u8>, b: seq<u8>, n: nat)
    requires n <= 8 * |a| && n <= 8 * |b| && n % 8 == 0
    ensures SameLow(a, b, n) <==> SamePrefix(a, b, n)
  {
    SameLowByBytes(a, b, n);
    SamePrefixByBytes(a, b, n);
  }

  /** On a safe slot the kernel matches as the Go VM does. */
  lemma SafeSlot(s: Slot, family: u16, ip: Bytes16)
    requires SlotOk(s) && WordSafe(s) && (family == AF_INET || family == AF_INET6)
    ensures LowMatch(s, Unmap(DecodeIp(family, ip))) <==> GoSlotMatch(s, DecodeIp(family, ip))
  {
    match Unmap(DecodeIp(family, ip))
    case V4(b) => if s.fam == 4 { AlignedAgrees(s.addr, b, s.plen); }
    case V6(b) =>
      if s.fam == 6 {
        if s.plen % 8 == 0 { AlignedAgrees(s.addr, b, s.plen); } else { MappedApart(s.addr, b, s.plen); }
      }
  }

  /** An address that is not mapped differs from a mapped prefix in its first 96 bits, in either order. */
  lemma MappedApart(a: Bytes16, b: Bytes16, n: nat)
    requires 96 < n <= 128 && Mapped(a) && !Mapped(b)
    ensures !SameLow(a, b, n) && !SamePrefix(a, b, n)
  {
    var i: nat :| i < 12 && a[i] != b[i];
    SameLowByBytes(a, b, n);
    SamePrefixByBytes(a, b, n);
    assert i < n / 8;
  }

  function Flip0(x: u8): u8 {
    if x % 2 == 1 then x - 1 else x + 1
  }

  function Flip7(x: u8): u8 {
    if x >= 128 then x - 128 else x + 128
  }

  lemma Flip0Bits(x: u8, k: nat)
    ensures Bit(Flip0(x), k) == (Bit(x, k) != (k == 0))
  {
    assert Flip0(x) / 2 == x / 2;
  }

  lemma Flip7Bits(x: u8, k: nat)
    requires k < 8
    ensures Bit(Flip7(x), k) == (Bit(x, k) != (k == 7))
  {
    assert Pow2(7) == 128;
    var lo := x % 128;
    JoinBit(lo, 0, 7, k);
    JoinBit(lo, 1, 7, k);
    assert (x == lo && Flip7(x) == lo + 128) || (x == lo + 128 && Flip7(x) == lo);
    if k == 7 {
      assert Bit(1, 0) && !Bit(0, 0);
    }
  }

  /** For a length that is not whole bytes, every prefix has an address that it
      contains and the word test rejects, and one the other way round. */
  lemma UnalignedWrong(a: seq<u8>, n: nat) returns (rejected: seq<u8>, accepted: seq<u8>)
    requires n <= 8 * |a| && n % 8 != 0
    ensures rejected == a[n / 8 := Flip0(a[n / 8])] && accepted == a[n / 8 := Flip7(a[n / 8])]
    ensures |rejected| == |a| && SamePrefix(a, rejected, n) && !SameLow(a, rejected, n)
    ensures |accepted| == |a| && !SamePrefix(a, accepted, n) && SameLow(a, accepted, n)
  {
    var f, rem := n / 8, n % 8;
    rejected := a[f := Flip0(a[f])];
    accepted := a[f := Flip7(a[f])];
    forall k: nat | k < 8
      ensures Bit(rejected[f], k) == (Bit(a[f], k) != (k == 0))
      ensures Bit(accepted[f], k) == (Bit(a[f], k) != (k == 7))
    {
      Flip0Bits(a[f], k);
      Flip7Bits(a[f], k);
    }
    SamePrefixByBytes(a, rejected, n);
    SameLowByBytes(a, rejected, n);
    SamePrefixByBytes(a, accepted, n);
    SameLowByBytes(a, accepted, n);
    assert Bit(rejected[f], 0) != Bit(a[f], 0);
    assert !LowBitsAgree(a[f], rejected[f], rem);
    assert Bit(accepted[f], 7) != Bit(a[f], 7);
    assert !HighBitsAgree(a[f], accepted[f], rem);
  }

  /** An address that a slot's prefix is for, and that the kernel and the prefix
      match decide differently. */
  lemma UnsafeSlot(s: Slot) returns (family: u16, ip: Bytes16)
    requires SlotOk(s) && !WordSafe(s)
    ensures (family == AF_INET || family == AF_INET6) &&
            LowMatch(s, Unmap(DecodeIp(family, ip))) != GoSlotMatch(s, DecodeIp(family, ip))
  {
    if s.fam == 4 {
      var rejected, _ := UnalignedWrong(s.addr[..4], s.plen);
      LowTake(s.addr, 4, rejected, s.plen);
      Prefix4(s.addr, rejected, s.plen);
      family, ip := AF_INET, rejected + ZEROS12;
      assert ip[..4] == rejected;
    } else {
      var rejected, accepted := UnalignedWrong(s.addr, s.plen);
      family, ip := AF_INET6, if Mapped(rejected) then accepted else rejected;
      NotBothMapped(s.addr, s.plen, rejected, accepted);
    }
  }

  /** Of two addresses that share the first bytes of an unaligned prefix and
      differ in the next one, one is not mapped, unless the prefix itself has the
      mapped form in the bytes before. */
  lemma NotBothMapped(a: Bytes16, n: nat, b: Bytes16, c: Bytes16)
    requires n < 128 && n % 8 != 0 && !(n > 96 && Mapped(a))
    requires b == a[n / 8 := Flip0(a[n / 8])] && c == a[n / 8 := Flip7(a[n / 8])]
    ensures !Mapped(b) || !Mapped(c)
  {
    var f := n / 8;
    assert b[f] == Flip0(a[f]) && c[f] == Flip7(a[f]);
    if f >= 12 {
      assert forall i | 0 <= i < 12 :: b[i] == a[i];
    }
  }

  lemma OneSlotIsLow(s: Slot, family: u16, ip: Bytes16)
    requires family == AF_INET || family == AF_INET6
    ensures KoInSet(family, ip, OneSlot(s), 1) <==> LowMatch(s, Unmap(DecodeIp(family, ip)))
  {
    SetIsLow(family, ip, OneSlot(s), 1);
    assert OneSlot(s)[0] == s;
  }

  /** The exact boundary: for a slot as the compiler writes it, the kernel matches
      the same addresses as the prefix match iff the length is whole bytes or the
      slot is one that neither ever matches. */
  lemma SlotExact(s: Slot)
    requires SlotOk(s)
    ensures (forall family: u16, ip: Bytes16 | family == AF_INET || family == AF_INET6 ::
              KoInSet(family, ip, OneSlot(s), 1) == GoSlotMatch(s, DecodeIp(family, ip)))
       <==> WordSafe(s)
  {
    forall family: u16, ip: Bytes16 | family == AF_INET || family == AF_INET6
      ensures KoInSet(family, ip, OneSlot(s), 1) == LowMatch(s, Unmap(DecodeIp(family, ip)))
    {
      OneSlotIsLow(s, family, ip);
    }
    if WordSafe(s) {
      forall family: u16, ip: Bytes16 | family == AF_INET || family == AF_INET6
        ensures LowMatch(s, Unmap(DecodeIp(family, ip))) == GoSlotMatch(s, DecodeIp(family, ip))
      {
        SafeSlot(s, family, ip);
      }
    } else {
      var family, ip := UnsafeSlot(s);
    }
  }

  lemma Prefix4(p: Bytes16, b: Bytes4, n: nat)
    requires n <= 32
    ensures SamePrefix(p[..4], b, n) <==> SamePrefix(p, b, n)
  {
    forall j: nat | j < n ensures NetBit(p[..4], j) == NetBit(p, j) {
    }
  }

  lemma Nibbles()
    ensures !LowBitsAgree(16, 17, 4) && HighBitsAgree(16, 17, 4)
    ensures LowBitsAgree(16, 32, 4) && !HighBitsAgree(16, 32, 4)
  {
    forall k: nat ensures Bit(17, k) == (Bit(16, k) != (k == 0)) {
      Flip0Bits(16, k);
    }
    assert Bit(16, 0) != Bit(17, 0);
    assert Pow2(4) == 16;
    forall k: nat | k < 5 ensures Bit(16, k) == (k == 4) && !Bit(32, k) {
      JoinBit(0, 1, 4, k);
      JoinBit(0, 2, 4, k);
      if k < 4 { ZeroBit(k); }
      assert Bit(1, 0) && !Bit(2, 0);
    }
    assert Bit(16, 4) != Bit(32, 4);
  }

  /** 172.16.0.0/12 of the built-in private list: the kernel misses 172.17.0.2,
      which the list contains, and takes 172.32.0.2, which it does not. */
  lemma PrivateListDiffers()
    ensures var s := PrefixSlot(Prefix(V4([172, 16, 0, 0]), 12));
            var inside, outside := [172, 17, 0, 2], [172, 32, 0, 2];
            GoSlotMatch(s, V4(inside)) && !KoInSet(AF_INET, inside + ZEROS12, OneSlot(s), 1) &&
            !GoSlotMatch(s, V4(outside)) && KoInSet(AF_INET, outside + ZEROS12, OneSlot(s), 1)
  {
    Nibbles();
    var s := PrefixSlot(Prefix(V4([172, 16, 0, 0]), 12));
    SecondByteDecides(s, [172, 17, 0, 2]);
    SecondByteDecides(s, [172, 32, 0, 2]);
  }

  lemma SecondByteDecides(s: Slot, b: Bytes4)
    requires s.fam == 4 && s.plen == 12 && s.addr[0] == b[0]
    ensures GoSlotMatch(s, V4(b)) <==> HighBitsAgree(s.addr[1], b[1], 4)
    ensures KoInSet(AF_INET, b + ZEROS12, OneSlot(s), 1) <==> LowBitsAgree(s.addr[1], b[1], 4)
  {
    OneSlotIsLow(s, AF_INET, b + ZEROS12);
    assert (b + ZEROS12)[..4] == b;
    SameLowByBytes(s.addr, b, 12);
    SamePrefixByBytes(s.addr, b, 12);
  }
}
