// Fixed-width words as natural numbers, and the bitwise operators of C on them.
// Every operator is defined one bit at a time, so that proofs about packing and
// unpacking reduce to statements about single bits.
module Bits {

  type byte = x: nat | x < 0x100
  type word = x: nat | x < 0x1_0000_0000  // uint32_t

  const WORD_MODULUS: nat := 0x1_0000_0000

  function Pow2(n: nat): (p: nat)
    ensures p >= 1
  {
    if n == 0 then 1 else 2 * Pow2(n - 1)
  }

  // Bit i of x, bit 0 being the least significant one.
  predicate Bit(x: nat, i: nat) {
    if i == 0 then x % 2 == 1 else Bit(x / 2, i - 1)
  }

  // x << k without truncation; see Low.
  function Shl(x: nat, k: nat): nat {
    if k == 0 then x else 2 * Shl(x, k - 1)
  }

  // x >> k
  function Shr(x: nat, k: nat): nat {
    if k == 0 then x else Shr(x / 2, k - 1)
  }

  // The n least significant bits of x: a conversion to an n-bit unsigned type.
  function Low(x: nat, n: nat): (r: nat)
    ensures r < Pow2(n)
  {
    if n == 0 then 0 else x % 2 + 2 * Low(x / 2, n - 1)
  }

  // x | y
  function Or(x: nat, y: nat): nat {
    if x == 0 then y
    else if y == 0 then x
    else (if x % 2 == 1 || y % 2 == 1 then 1 else 0) + 2 * Or(x / 2, y / 2)
  }

  // x & y
  function And(x: nat, y: nat): nat {
    if x == 0 || y == 0 then 0
    else (if x % 2 == 1 && y % 2 == 1 then 1 else 0) + 2 * And(x / 2, y / 2)
  }

  // The number whose bits, least significant first, are s.
  function FromBits(s: seq<bool>): (r: nat)
    ensures r < Pow2(|s|)
  {
    if s == [] then 0 else (if s[0] then 1 else 0) + 2 * FromBits(s[1..])
  }

  function ToBits(x: nat, n: nat): (s: seq<bool>)
    ensures |s| == n && forall i :: 0 <= i < n ==> s[i] == Bit(x, i)
  {
    seq(n, i requires 0 <= i => Bit(x, i))
  }

  lemma PowersOfTwo()
    ensures Pow2(3) == 8 && Pow2(4) == 0x10 && Pow2(8) == 0x100 && Pow2(11) == 0x800
    ensures Pow2(16) == 0x1_0000 && Pow2(20) == 0x10_0000 && Pow2(32) == 0x1_0000_0000
  {
    assert Pow2(4) == 16 * Pow2(0);
    assert Pow2(8) == 16 * Pow2(4);
    assert Pow2(12) == 16 * Pow2(8);
    assert Pow2(16) == 16 * Pow2(12);
    assert Pow2(20) == 16 * Pow2(16);
    assert Pow2(24) == 16 * Pow2(20);
    assert Pow2(28) == 16 * Pow2(24);
    assert Pow2(32) == 16 * Pow2(28);
  }

  lemma {:induction false} ZeroBit(i: nat)
    ensures !Bit(0, i)
  {
    if i > 0 { ZeroBit(i - 1); }
  }

  lemma {:induction false} HighBit(x: nat, n: nat, i: nat)
    requires x < Pow2(n) && n <= i
    ensures !Bit(x, i)
  {
    if n == 0 { ZeroBit(i); } else { HighBit(x / 2, n - 1, i - 1); }
  }

  lemma {:induction false} ComplementBit(x: nat, n: nat, i: nat)
    requires x < Pow2(n)
    ensures Bit(Pow2(n) - 1 - x, i) == (i < n && !Bit(x, i))
  {
    if n == 0 {
      ZeroBit(i);
    } else if i > 0 {
      assert (Pow2(n) - 1 - x) / 2 == Pow2(n - 1) - 1 - x / 2;
      ComplementBit(x / 2, n - 1, i - 1);
    }
  }

  // Setting a bit above all others.
  lemma {:induction false} TopBit(x: nat, n: nat, i: nat)
    requires x < Pow2(n) && i <= n
    ensures !Bit(x, n) && Bit(x + Pow2(n), i) == (i == n || Bit(x, i))
  {
    if n > 0 {
      assert (x + Pow2(n)) / 2 == x / 2 + Pow2(n - 1);
      TopBit(x / 2, n - 1, if i > 0 then i - 1 else 0);
    }
  }

  // Numbers of n bits are equal when their bits are.
  lemma {:induction false} BitsDetermine(x: nat, y: nat, n: nat)
    requires x < Pow2(n) && y < Pow2(n)
    requires forall i :: 0 <= i < n ==> Bit(x, i) == Bit(y, i)
    ensures x == y
  {
    if n > 0 {
      assert Bit(x, 0) == Bit(y, 0);
      forall i | 0 <= i < n - 1
        ensures Bit(x / 2, i) == Bit(y / 2, i)
      {
        assert Bit(x, i + 1) == Bit(y, i + 1);
      }
      BitsDetermine(x / 2, y / 2, n - 1);
    }
  }

  lemma {:induction false} ShrBit(x: nat, k: nat, i: nat)
    ensures Bit(Shr(x, k), i) == Bit(x, i + k)
  {
    if k > 0 { ShrBit(x / 2, k - 1, i); }
  }

  lemma {:induction false} ShlBit(x: nat, k: nat, i: nat)
    ensures Bit(Shl(x, k), i) == (i >= k && Bit(x, i - k))
  {
    if k > 0 {
      assert Shl(x, k) / 2 == Shl(x, k - 1);
      if i > 0 { ShlBit(x, k - 1, i - 1); }
    }
  }

  lemma {:induction false} ShlLessThan(x: nat, k: nat, n: nat)
    requires x < Pow2(n)
    ensures Shl(x, k) < Pow2(n + k)
  {
    if k > 0 { ShlLessThan(x, k - 1, n); }
  }

  lemma {:induction false} LowBit(x: nat, n: nat, i: nat)
    ensures Bit(Low(x, n), i) == (i < n && Bit(x, i))
  {
    if n == 0 {
      ZeroBit(i);
    } else if i > 0 {
      assert Low(x, n) / 2 == Low(x / 2, n - 1);
      LowBit(x / 2, n - 1, i - 1);
    }
  }

  lemma {:induction false} LowId(x: nat, n: nat)
    requires x < Pow2(n)
    ensures Low(x, n) == x
  {
    if n > 0 { LowId(x / 2, n - 1); }
  }

  lemma {:induction false} OrBit(x: nat, y: nat, i: nat)
    ensures Bit(Or(x, y), i) == (Bit(x, i) || Bit(y, i))
    decreases i
  {
    if x == 0 || y == 0 {
      ZeroBit(i);
    } else {
      assert Or(x, y) / 2 == Or(x / 2, y / 2) && Or(x, y) % 2 == if x % 2 == 1 || y % 2 == 1 then 1 else 0;
      if i > 0 {
        OrBit(x / 2, y / 2, i - 1);
      }
    }
  }

  lemma {:induction false} AndBit(x: nat, y: nat, i: nat)
    ensures Bit(And(x, y), i) == (Bit(x, i) && Bit(y, i))
    decreases i
  {
    if x == 0 || y == 0 {
      ZeroBit(i);
    } else if i > 0 {
      assert And(x, y) / 2 == And(x / 2, y / 2);
      AndBit(x / 2, y / 2, i - 1);
    }
  }

  lemma {:induction false} OrBound(x: nat, y: nat, n: nat)
    requires x < Pow2(n) && y < Pow2(n)
    ensures Or(x, y) < Pow2(n)
  {
    if x != 0 && y != 0 { OrBound(x / 2, y / 2, n - 1); }
  }

  lemma {:induction false} AndBound(x: nat, y: nat)
    ensures And(x, y) <= x
  {
    if x != 0 && y != 0 { AndBound(x / 2, y / 2); }
  }

  lemma {:induction false} FromBitsBit(s: seq<bool>, i: nat)
    ensures Bit(FromBits(s), i) == (i < |s| && s[i])
  {
    if s == [] {
      ZeroBit(i);
    } else if i > 0 {
      assert FromBits(s) / 2 == FromBits(s[1..]);
      FromBitsBit(s[1..], i - 1);
    }
  }

  lemma FromBitsIs(s: seq<bool>, x: nat)
    requires x < Pow2(|s|) && forall i :: 0 <= i < |s| ==> s[i] == Bit(x, i)
    ensures FromBits(s) == x
  {
    forall i | 0 <= i < |s| ensures Bit(FromBits(s), i) == Bit(x, i) { FromBitsBit(s, i); }
    BitsDetermine(FromBits(s), x, |s|);
  }

  function OrWord(x: word, y: word): word {
    PowersOfTwo();
    OrBound(x, y, 32);
    Or(x, y)
  }

  function ShrWord(x: word, k: nat): word {
    ShrBound(x, k);
    Shr(x, k)
  }

  lemma {:induction false} ShrBound(x: nat, k: nat)
    ensures Shr(x, k) <= x
  {
    if k > 0 { ShrBound(x / 2, k - 1); }
  }

  // The low part and the rest make up the number.
  lemma {:induction false} Parted(x: nat, n: nat)
    ensures x == Low(x, n) + Shl(Shr(x, n), n)
  {
    if n > 0 {
      Parted(x / 2, n - 1);
    }
  }

  // x | (1 << i)
  function SetBit(x: nat, i: nat): nat {
    Or(x, Shl(1, i))
  }

  lemma SetBitBit(x: nat, i: nat, j: nat)
    ensures Bit(SetBit(x, i), j) == (j == i || Bit(x, j))
  {
    OrBit(x, Shl(1, i), j);
    ShlBit(1, i, j);
    if j > i { ZeroBit(j - i - 1); }
  }

  lemma {:induction false} SetBitBound(x: nat, i: nat, n: nat)
    requires x < Pow2(n) && i < n
    ensures SetBit(x, i) < Pow2(n)
  {
    OneShifted(i, n);
    OrBound(x, Shl(1, i), n);
  }

  lemma {:induction false} OneShifted(i: nat, n: nat)
    requires i < n
    ensures Shl(1, i) < Pow2(n)
  {
    if i > 0 { OneShifted(i - 1, n - 1); }
    else { assert Pow2(n) == 2 * Pow2(n - 1); }
  }

  // The word that four bytes in memory are, on a little-endian host.
  function LittleEndian(bytes: seq<byte>): word
    requires |bytes| == 4
  {
    PowersOfTwo();
    FromBits(ToBits(bytes[0], 8) + ToBits(bytes[1], 8) + ToBits(bytes[2], 8) + ToBits(bytes[3], 8))
  }

  lemma LittleEndianBit(bytes: seq<byte>, m: nat)
    requires |bytes| == 4 && m < 32
    ensures Bit(LittleEndian(bytes), m) == Bit(bytes[m / 8], m % 8)
  {
    FromBitsBit(ToBits(bytes[0], 8) + ToBits(bytes[1], 8) + ToBits(bytes[2], 8) + ToBits(bytes[3], 8), m);
  }
}
