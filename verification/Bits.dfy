/** Machine words and the bit operations that the filter programs use on them.
    A word is a natural number together with an explicit width; `Low` is what
    a store into a `w`-bit word keeps. */
module Bits {
  type u8 = x: int | 0 <= x < 0x100
  type u16 = x: int | 0 <= x < 0x1_0000
  type u32 = x: int | 0 <= x < 0x1_0000_0000
  type u64 = x: int | 0 <= x < 0x1_0000_0000_0000_0000
  type i64 = x: int | -0x8000_0000_0000_0000 <= x < 0x8000_0000_0000_0000

  const TWO63 := 0x8000_0000_0000_0000
  const TWO64 := 0x1_0000_0000_0000_0000

  function Pow2(n: nat): (p: nat)
    ensures p >= 1
  {
    if n == 0 then 1 else 2 * Pow2(n - 1)
  }

  lemma Pow2Add8(n: nat)
    ensures Pow2(n + 8) == 256 * Pow2(n)
  {
    assert Pow2(n + 8) == 2 * Pow2(n + 7) == 4 * Pow2(n + 6) == 8 * Pow2(n + 5);
    assert Pow2(n + 5) == 2 * Pow2(n + 4) == 4 * Pow2(n + 3) == 8 * Pow2(n + 2);
    assert Pow2(n + 2) == 2 * Pow2(n + 1) == 4 * Pow2(n);
  }

  lemma HalfWordSizes()
    ensures Pow2(8) == 0x100 && Pow2(16) == 0x1_0000 && Pow2(32) == 0x1_0000_0000
  {
    Pow2Add8(0);
    Pow2Add8(8);
    Pow2Add8(16);
    Pow2Add8(24);
  }

  lemma WordSizes()
    ensures Pow2(8) == 0x100 && Pow2(16) == 0x1_0000
    ensures Pow2(32) == 0x1_0000_0000 && Pow2(64) == TWO64
  {
    HalfWordSizes();
    Pow2Add8(32);
    Pow2Add8(40);
    Pow2Add8(48);
    Pow2Add8(56);
  }

  predicate Bit(x: nat, k: nat) {
    if k == 0 then x % 2 == 1 else Bit(x / 2, k - 1)
  }

  function Shr(x: nat, s: nat): nat {
    if s == 0 then x else Shr(x / 2, s - 1)
  }

  function Shl(x: nat, s: nat): nat {
    if s == 0 then x else 2 * Shl(x, s - 1)
  }

  /** The low `w` bits of `x`. */
  function Low(x: nat, w: nat): nat {
    if w == 0 then 0 else x % 2 + 2 * Low(x / 2, w - 1)
  }

  function And(x: nat, y: nat): nat {
    if x == 0 then 0
    else (if x % 2 == 1 && y % 2 == 1 then 1 else 0) + 2 * And(x / 2, y / 2)
  }

  function Or(x: nat, y: nat): nat
    decreases x + y
  {
    if x == 0 && y == 0 then 0
    else (if x % 2 == 1 || y % 2 == 1 then 1 else 0) + 2 * Or(x / 2, y / 2)
  }

  function Xor(x: nat, y: nat): nat
    decreases x + y
  {
    if x == 0 && y == 0 then 0
    else (if x % 2 != y % 2 then 1 else 0) + 2 * Xor(x / 2, y / 2)
  }

  /** `1 << s` in a 64-bit word: zero once the bit is shifted out. */
  function One64(s: nat): u64 {
    WordSizes();
    LowBound(Shl(1, s), 64);
    Low(Shl(1, s), 64)
  }

  function LoadLE(bs: seq<u8>): nat {
    if bs == [] then 0 else bs[0] + 256 * LoadLE(bs[1..])
  }

  // Bit k of every operation

  lemma {:induction false} ZeroBit(k: nat)
    ensures !Bit(0, k)
  {
    if k > 0 { ZeroBit(k - 1); }
  }

  lemma {:induction false} AndBit(x: nat, y: nat, k: nat)
    ensures Bit(And(x, y), k) <==> Bit(x, k) && Bit(y, k)
  {
    if x == 0 {
      ZeroBit(k);
    } else if k > 0 {
      AndBit(x / 2, y / 2, k - 1);
    }
  }

  lemma {:induction false} OrBit(x: nat, y: nat, k: nat)
    ensures Bit(Or(x, y), k) <==> Bit(x, k) || Bit(y, k)
    decreases k
  {
    if x == 0 && y == 0 {
      ZeroBit(k);
    } else if k > 0 {
      OrBit(x / 2, y / 2, k - 1);
    }
  }

  lemma {:induction false} XorBit(x: nat, y: nat, k: nat)
    ensures Bit(Xor(x, y), k) <==> Bit(x, k) != Bit(y, k)
    decreases k
  {
    if x == 0 && y == 0 {
      ZeroBit(k);
    } else if k > 0 {
      XorBit(x / 2, y / 2, k - 1);
    }
  }

  lemma {:induction false} LowBit(x: nat, w: nat, k: nat)
    ensures Bit(Low(x, w), k) <==> k < w && Bit(x, k)
  {
    if w == 0 {
      ZeroBit(k);
    } else if k > 0 {
      LowBit(x / 2, w - 1, k - 1);
    }
  }

  lemma {:induction false} ShlBit(x: nat, s: nat, k: nat)
    ensures Bit(Shl(x, s), k) <==> k >= s && Bit(x, k - s)
  {
    if s > 0 && k > 0 {
      ShlBit(x, s - 1, k - 1);
    }
  }

  lemma {:induction false} ShrBit(x: nat, s: nat)
    ensures Bit(x, s) <==> Shr(x, s) % 2 == 1
  {
    if s > 0 { ShrBit(x / 2, s - 1); }
  }

  lemma OneBit(k: nat)
    ensures Bit(1, k) <==> k == 0
  {
    if k > 0 { ZeroBit(k - 1); }
  }

  /** `1 << s` has bit `s` alone, and nothing when `s` is past the word. */
  lemma One64Bit(s: nat, k: nat)
    ensures Bit(One64(s), k) <==> k == s && s < 64
  {
    LowBit(Shl(1, s), 64, k);
    ShlBit(1, s, k);
    if k >= s { OneBit(k - s); }
  }

  /** The kernel's and Go's bit test `(x >> s) & 1`. */
  lemma TestBit(x: nat, s: nat)
    ensures And(Shr(x, s), 1) == 1 <==> Bit(x, s)
  {
    ShrBit(x, s);
    var y := Shr(x, s);
    assert And(y / 2, 0) == 0 by { AndZero(y / 2); }
  }

  lemma {:induction false} AndZero(x: nat)
    ensures And(x, 0) == 0
  {
    if x > 0 { AndZero(x / 2); }
  }

  // A number is determined by its bits

  lemma {:induction false} SetBit(x: nat) returns (k: nat)
    requires x > 0
    ensures Bit(x, k)
  {
    if x % 2 == 1 {
      k := 0;
    } else {
      var j := SetBit(x / 2);
      k := j + 1;
    }
  }

  lemma {:induction false} DifferentBit(x: nat, y: nat) returns (k: nat)
    requires x != y
    ensures Bit(x, k) != Bit(y, k)
    decreases x + y
  {
    if x % 2 != y % 2 {
      k := 0;
    } else {
      var j := DifferentBit(x / 2, y / 2);
      k := j + 1;
    }
  }

  lemma {:induction false} NoHighBit(x: nat, w: nat, k: nat)
    requires x < Pow2(w) && k >= w
    ensures !Bit(x, k)
  {
    if w == 0 {
      ZeroBit(k);
    } else {
      NoHighBit(x / 2, w - 1, k - 1);
    }
  }

  lemma SameNumber(x: nat, y: nat)
    requires forall k: nat :: Bit(x, k) == Bit(y, k)
    ensures x == y
  {
    if x != y { var k := DifferentBit(x, y); }
  }

  /** Words below 2^w agree iff their low `w` bits do. */
  lemma SameBits(x: nat, y: nat, w: nat)
    requires x < Pow2(w) && y < Pow2(w)
    ensures x == y <==> SameBelow(x, y, w)
  {
    if x != y {
      var k := DifferentBit(x, y);
      if k >= w {
        NoHighBit(x, w, k);
        NoHighBit(y, w, k);
      }
    }
  }

  /** `a & b != 0` says that some bit is set in both words. */
  lemma AndNonZero(x: nat, y: nat)
    ensures And(x, y) != 0 <==> exists k: nat :: Bit(x, k) && Bit(y, k)
  {
    if And(x, y) != 0 {
      var k := SetBit(And(x, y));
      AndBit(x, y, k);
    }
    if k: nat :| Bit(x, k) && Bit(y, k) {
      AndBit(x, y, k);
      ZeroBit(k);
    }
  }

  /** The low `n` bits are clear. */
  ghost predicate ClearBelow(x: nat, n: nat) {
    forall k: nat | k < n :: !Bit(x, k)
  }

  /** The low `n` bits agree. */
  ghost predicate SameBelow(x: nat, y: nat, n: nat) {
    forall k: nat | k < n :: Bit(x, k) == Bit(y, k)
  }

  /** Shifting a w-bit word left by `w - p` leaves zero iff its LOW `p` bits are zero. */
  lemma ShiftedOut(x: nat, w: nat, p: nat)
    requires p <= w
    ensures Low(Shl(x, w - p), w) == 0 <==> ClearBelow(x, p)
  {
    var y := Low(Shl(x, w - p), w);
    if y == 0 {
      forall k: nat | k < p ensures !Bit(x, k) {
        ZeroBit(k + (w - p));
        LowBit(Shl(x, w - p), w, k + (w - p));
        ShlBit(x, w - p, k + (w - p));
      }
    } else {
      var k := SetBit(y);
      LowBit(Shl(x, w - p), w, k);
      ShlBit(x, w - p, k);
      assert Bit(x, k - (w - p)) && !ClearBelow(x, p);
    }
  }

  // Results stay inside the word

  lemma {:induction false} LowBound(x: nat, w: nat)
    ensures Low(x, w) < Pow2(w)
  {
    if w > 0 { LowBound(x / 2, w - 1); }
  }

  lemma {:induction false} OrBound(x: nat, y: nat, w: nat)
    requires x < Pow2(w) && y < Pow2(w)
    ensures Or(x, y) < Pow2(w)
    decreases w
  {
    if w > 0 && (x > 0 || y > 0) { OrBound(x / 2, y / 2, w - 1); }
  }

  function Or64(x: u64, y: u64): u64 {
    WordSizes();
    OrBound(x, y, 64);
    Or(x, y)
  }

  // Little-endian loads

  lemma {:induction false} JoinBit(lo: nat, hi: nat, w: nat, k: nat)
    requires lo < Pow2(w)
    ensures Bit(lo + Pow2(w) * hi, k) <==> if k < w then Bit(lo, k) else Bit(hi, k - w)
  {
    if w > 0 {
      var p := Pow2(w - 1) * hi;
      assert Pow2(w) * hi == 2 * p;
      assert (lo + 2 * p) / 2 == lo / 2 + p && (lo + 2 * p) % 2 == lo % 2;
      if k > 0 { JoinBit(lo / 2, hi, w - 1, k - 1); }
    } else {
      assert lo == 0;
    }
  }

  /** Bit j of a little-endian word is bit j%8 of its byte j/8. */
  lemma {:induction false} LoadBit(bs: seq<u8>, j: nat)
    ensures Bit(LoadLE(bs), j) <==> j < 8 * |bs| && Bit(bs[j / 8], j % 8)
  {
    if bs == [] {
      ZeroBit(j);
    } else {
      assert Pow2(8) == 256;
      JoinBit(bs[0], LoadLE(bs[1..]), 8, j);
      if j >= 8 {
        LoadBit(bs[1..], j - 8);
        if j - 8 < 8 * |bs[1..]| {
          assert bs[1..][(j - 8) / 8] == bs[j / 8];
        }
      }
    }
  }

  lemma {:induction false} LoadBound(bs: seq<u8>)
    ensures LoadLE(bs) < Pow2(8 * |bs|)
  {
    if bs != [] {
      LoadBound(bs[1..]);
      Pow2Add8(8 * |bs[1..]|);
    }
  }

  /** Masking with `w` ones keeps the low `w` bits. */
  lemma {:induction false} AndOnes(x: nat, w: nat)
    ensures And(x, Pow2(w) - 1) == Low(x, w)
  {
    if w == 0 {
      AndZero(x);
    } else {
      assert (Pow2(w) - 1) / 2 == Pow2(w - 1) - 1 && (Pow2(w) - 1) % 2 == 1;
      AndOnes(x / 2, w - 1);
    }
  }

  lemma {:induction false} ShrBits(x: nat, s: nat, k: nat)
    ensures Bit(Shr(x, s), k) == Bit(x, s + k)
  {
    if s > 0 { ShrBits(x / 2, s - 1, k); }
  }

  /** A little-endian word splits at a byte boundary into its two parts. */
  lemma LoadCut(a: seq<u8>, b: seq<u8>)
    ensures Low(LoadLE(a + b), 8 * |a|) == LoadLE(a)
    ensures Shr(LoadLE(a + b), 8 * |a|) == LoadLE(b)
  {
    var w := LoadLE(a + b);
    forall k: nat ensures Bit(Low(w, 8 * |a|), k) == Bit(LoadLE(a), k) {
      LowBit(w, 8 * |a|, k);
      LoadBit(a + b, k);
      LoadBit(a, k);
    }
    SameNumber(Low(w, 8 * |a|), LoadLE(a));
    forall k: nat ensures Bit(Shr(w, 8 * |a|), k) == Bit(LoadLE(b), k) {
      ShrBits(w, 8 * |a|, k);
      LoadBit(a + b, 8 * |a| + k);
      LoadBit(b, k);
    }
    SameNumber(Shr(w, 8 * |a|), LoadLE(b));
  }
}
