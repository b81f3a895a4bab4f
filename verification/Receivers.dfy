// Variables that data from the chain is read into. Some cables assign them, others only replace the
// bits received, so that what a variable held before can show through.
module Receivers {
  import opened Bits
  import opened Clocks

  // What a variable that has never been assigned holds: the byte for the i-th acknowledge bit and for
  // a flag, and the word for a register's value, after n commands, the words for the two parts of the
  // n-th code of an enumeration, and the one for the IDCODE read back.
  datatype Stack = Stack(
    acks: (nat, nat) -> byte,
    flags: nat -> byte,
    values: nat -> word,
    manufacturers: nat -> word,
    rests: nat -> word,
    idRead: word)

  // A single bit, received into a byte.
  function ReceivedByte(clears: bool, before: byte, bit: bool): byte {
    (if clears then 0 else before / 2 * 2) + if bit then 1 else 0
  }

  // Whether a byte that is tested against zero shows anything but the bit received into it.
  predicate ShowsThrough(clears: bool, before: byte) {
    !clears && before / 2 != 0
  }

  lemma TestedByte(clears: bool, before: byte, bit: bool)
    ensures ReceivedByte(clears, before, bit) != 0 <==> bit || ShowsThrough(clears, before)
  {
  }

  // Testing the byte is right for either bit exactly when nothing shows through.
  lemma TestIsRight(clears: bool, before: byte)
    ensures (forall bit :: (ReceivedByte(clears, before, bit) != 0) == bit) <==> clears || before / 2 == 0
  {
    if !clears && before / 2 != 0 {
      assert ReceivedByte(clears, before, false) != 0;
    }
  }

  lemma TestCanBeWrong()
    ensures ReceivedByte(false, 2, false) != 0 && ReceivedByte(true, 2, false) == 0
  {
  }

  // ----- Words -----

  // Up to 32 bits, received into a word.
  function ReceivedWord(clears: bool, before: word, bits: seq<bool>): (w: word)
    requires |bits| <= 32
  {
    PowersOfTwo();
    FromBits(seq(32, j requires 0 <= j < 32 => if j < |bits| then bits[j] else !clears && Bit(before, j)))
  }

  lemma ReceivedWordBit(clears: bool, before: word, bits: seq<bool>, j: nat)
    requires |bits| <= 32 && j < 32
    ensures Bit(ReceivedWord(clears, before, bits), j) == if j < |bits| then bits[j] else !clears && Bit(before, j)
  {
    FromBitsBit(seq(32, j requires 0 <= j < 32 => if j < |bits| then bits[j] else !clears && Bit(before, j)), j);
  }

  // The bits from n on of what was there before.
  function Stray(clears: bool, before: word, n: nat): (w: word)
    requires n <= 32
  {
    PowersOfTwo();
    FromBits(seq(32, j requires 0 <= j < 32 => j >= n && !clears && Bit(before, j)))
  }

  lemma StrayBit(clears: bool, before: word, n: nat, j: nat)
    requires n <= 32 && j < 32
    ensures Bit(Stray(clears, before, n), j) == (j >= n && !clears && Bit(before, j))
  {
    FromBitsBit(seq(32, j requires 0 <= j < 32 => j >= n && !clears && Bit(before, j)), j);
  }

  lemma {:induction false} NonzeroHasBit(x: nat, n: nat) returns (j: nat)
    requires 0 < x < Pow2(n)
    ensures j < n && Bit(x, j)
  {
    if x % 2 == 1 {
      j := 0;
    } else {
      var i := NonzeroHasBit(x / 2, n - 1);
      j := i + 1;
    }
  }

  lemma NoStrayIsZero(clears: bool, before: word, n: nat)
    requires n <= 32
    ensures Stray(clears, before, n) == 0 <==> forall j :: n <= j < 32 ==> clears || !Bit(before, j)
  {
    var s := Stray(clears, before, n);
    PowersOfTwo();
    if s == 0 {
      forall j | n <= j < 32 ensures clears || !Bit(before, j) {
        StrayBit(clears, before, n, j);
        ZeroBit(j);
      }
    } else {
      var j := NonzeroHasBit(s, 32);
      StrayBit(clears, before, n, j);
    }
  }

  // The word is the number received exactly when no bit shows through behind it.
  lemma WordIsRight(clears: bool, before: word, bits: seq<bool>)
    requires |bits| <= 32
    ensures ReceivedWord(clears, before, bits) == FromBits(bits) <==> Stray(clears, before, |bits|) == 0
  {
    var r, n := ReceivedWord(clears, before, bits), |bits|;
    PowersOfTwo();
    NoStrayIsZero(clears, before, n);
    Pow2Monotone(n, 32);
    if Stray(clears, before, n) == 0 {
      forall j | 0 <= j < 32 ensures Bit(r, j) == Bit(FromBits(bits), j) {
        ReceivedWordBit(clears, before, bits, j);
        FromBitsBit(bits, j);
      }
      BitsDetermine(r, FromBits(bits), 32);
    } else {
      var j :| n <= j < 32 && !clears && Bit(before, j);
      ReceivedWordBit(clears, before, bits, j);
      FromBitsBit(bits, j);
    }
  }

  // A full word leaves nothing of what was there before.
  lemma FullWord(clears: bool, before: word, bits: seq<bool>)
    requires |bits| == 32
    ensures ReceivedWord(clears, before, bits) == FromBits(bits)
  {
    WordIsRight(clears, before, bits);
    NoStrayIsZero(clears, before, 32);
  }

  lemma {:induction false} Pow2Monotone(m: nat, n: nat)
    requires m <= n
    ensures Pow2(m) <= Pow2(n)
    decreases n
  {
    if m < n {
      Pow2Monotone(m, n - 1);
    }
  }

  lemma WordCanBeWrong()
    ensures ReceivedWord(false, 0x800, seq(11, _ => false)) != 0
  {
    var bits := seq(11, _ => false);
    assert Bit(0x800, 11) by {
      PowersOfTwo();
      ZeroBit(11);
      TopBit(0, 11, 11);
    }
    ReceivedWordBit(false, 0x800, bits, 11);
    ZeroBit(11);
  }

  // ----- Streams -----

  // A stream, received into as many words as it takes.
  function ReceivedWords(clears: bool, before: seq<word>, bits: seq<bool>): (data: seq<word>)
    requires |before| == (|bits| + 31) / 32
    ensures |data| == |before|
    ensures 0 < |bits| <= 32 ==> data == [ReceivedWord(clears, before[0], bits)]
  {
    if bits == [] then []
    else
      var n := if |bits| < 32 then |bits| else 32;
      assert |bits| <= 32 ==> bits[..n] == bits;
      [ReceivedWord(clears, before[0], bits[..n])] + ReceivedWords(clears, before[1..], bits[n..])
  }

  // The bits received, and behind them what was there before, or zeros.
  lemma {:induction false} ReceivedWordsBit(clears: bool, before: seq<word>, bits: seq<bool>, k: nat)
    requires |before| == (|bits| + 31) / 32 && k < 32 * |before|
    ensures StreamBit(ReceivedWords(clears, before, bits), k)
         == if k < |bits| then bits[k] else !clears && StreamBit(before, k)
    decreases |bits|
  {
    hide ReceivedWord, StreamBit;
    var n := if |bits| < 32 then |bits| else 32;
    var word, rest := ReceivedWord(clears, before[0], bits[..n]), ReceivedWords(clears, before[1..], bits[n..]);
    assert before == [before[0]] + before[1..];
    BitInFront(word, rest, k);
    BitInFront(before[0], before[1..], k);
    if k < 32 {
      ReceivedWordBit(clears, before[0], bits[..n], k);
    } else {
      ReceivedWordsBit(clears, before[1..], bits[n..], k - 32);
    }
  }

  lemma BitInFront(w: word, rest: seq<word>, k: nat)
    requires k < 32 * (1 + |rest|)
    ensures StreamBit([w] + rest, k) == if k < 32 then Bit(w, k) else StreamBit(rest, k - 32)
  {
    hide Bit;
    if k >= 32 {
      assert (k - 32) / 32 == k / 32 - 1 && (k - 32) % 32 == k % 32;
    }
  }
}
