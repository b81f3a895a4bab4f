// tap_set_ir in chain_commands.cpp: the words that carry an instruction to one device of
// the chain and BYPASS to all others.
module IrPacking {
  import opened Bits
  import opened Clocks

  const ALL_ONES: word := 0xFFFF_FFFF

  // C leaves shifts by 32 or more undefined: `oversize` stands for whatever they give.
  type OversizeShift = (word, nat) -> word

  function ShiftLeft(x: word, k: nat, oversize: OversizeShift): word {
    PowersOfTwo();
    if k < 32 then Low(Shl(x, k), 32) else oversize(x, k)
  }

  function ShiftRight(x: word, k: nat, oversize: OversizeShift): word {
    if k < 32 then ShrWord(x, k) else oversize(x, k)
  }

  function AndWord(x: word, y: word): word {
    AndBound(x, y);
    And(x, y)
  }

  // ~x
  function NotWord(x: word): word {
    ALL_ONES - x
  }

  lemma AllOnesBit(i: nat)
    ensures Bit(ALL_ONES, i) == (i < 32)
  {
    PowersOfTwo();
    ComplementBit(0, 32, i);
    ZeroBit(i);
  }

  // The word that the opcode starts in: opcode bits at `shift`, ones below and above them.
  function FirstIrWord(opcode: word, shift: nat, size: nat, oversize: OversizeShift): word {
    var w := AndWord(ALL_ONES, ShiftLeft(opcode, shift, oversize));
    var low := OrWord(w, NotWord(ShiftLeft(ALL_ONES, shift, oversize)));
    OrWord(low, ShiftLeft(ALL_ONES, shift + size, oversize))
  }

  // The next word, when the opcode does not fit into the first one.
  function SpillIrWord(opcode: word, shift: nat, size: nat, oversize: OversizeShift): word
    requires shift < 32 < shift + size
  {
    var w := AndWord(ALL_ONES, ShiftRight(opcode, 32 - shift, oversize));
    OrWord(w, ShiftLeft(ALL_ONES, size - (32 - shift), oversize))
  }

  ghost predicate OversizeIsZero(oversize: OversizeShift) {
    forall x, k :: oversize(x, k) == 0
  }

  // The instruction bits a device chain should receive: the opcode modulo 2^size for the
  // target, all ones (BYPASS) for everyone else; clause 8.4 of IEEE Std 1149.1-2001.
  predicate IrBit(opcode: word, postfix: nat, size: nat, k: nat) {
    postfix <= k < postfix + size ==> Bit(opcode, k - postfix)
  }

  lemma ShiftLeftBit(x: word, k: nat, oversize: OversizeShift, j: nat)
    requires j < 32 && (k < 32 || OversizeIsZero(oversize))
    ensures Bit(ShiftLeft(x, k, oversize), j) == (j >= k && Bit(x, j - k))
  {
    if k < 32 {
      LowBit(Shl(x, k), 32, j);
      ShlBit(x, k, j);
    } else {
      ZeroBit(j);
    }
  }

  // The ones below and above the opcode.
  lemma FillBit(k: nat, oversize: OversizeShift, j: nat)
    requires j < 32 && (k < 32 || OversizeIsZero(oversize))
    ensures Bit(ShiftLeft(ALL_ONES, k, oversize), j) == (j >= k)
    ensures Bit(NotWord(ShiftLeft(ALL_ONES, k, oversize)), j) == (j < k)
  {
    hide Bit, Shl, Low, Pow2;
    var ones := ShiftLeft(ALL_ONES, k, oversize);
    ShiftLeftBit(ALL_ONES, k, oversize, j);
    if j >= k { AllOnesBit(j - k); }
    PowersOfTwo();
    ComplementBit(ones, 32, j);
  }

  lemma FirstIrWordBit(opcode: word, shift: nat, size: nat, oversize: OversizeShift, j: nat)
    requires shift < 32 && j < 32
    requires shift + size < 32 || OversizeIsZero(oversize)
    ensures Bit(FirstIrWord(opcode, shift, size, oversize), j) == IrBit(opcode, shift, size, j)
  {
    var s := ShiftLeft(opcode, shift, oversize);
    var low := NotWord(ShiftLeft(ALL_ONES, shift, oversize));
    AndBit(ALL_ONES, s, j);
    OrBit(AndWord(ALL_ONES, s), low, j);
    OrBit(OrWord(AndWord(ALL_ONES, s), low), ShiftLeft(ALL_ONES, shift + size, oversize), j);
    AllOnesBit(j);
    ShiftLeftBit(opcode, shift, oversize, j);
    FillBit(shift, oversize, j);
    FillBit(shift + size, oversize, j);
  }

  lemma SpillIrWordBit(opcode: word, shift: nat, size: nat, oversize: OversizeShift, j: nat)
    requires shift < 32 < shift + size && j < 32
    requires OversizeIsZero(oversize) || 0 < shift < shift + size < 64
    ensures Bit(SpillIrWord(opcode, shift, size, oversize), j) == IrBit(opcode, shift, size, 32 + j)
  {
    hide And, Or, Shl, Shr, Low, Pow2;
    var rest := ShiftRight(opcode, 32 - shift, oversize);
    var high := ShiftLeft(ALL_ONES, size - (32 - shift), oversize);
    AndBit(ALL_ONES, rest, j);
    OrBit(AndWord(ALL_ONES, rest), high, j);
    ShiftLeftBit(ALL_ONES, size - (32 - shift), oversize, j);
    AllOnesBit(j);
    if j >= size - (32 - shift) { AllOnesBit(j - (size - (32 - shift))); }
    PowersOfTwo();
    if shift > 0 {
      ShrBit(opcode, 32 - shift, j);
    } else {
      ZeroBit(j);
      HighBit(opcode, 32, 32 + j);
    }
  }

  function ChainWords(chainSize: nat): nat {
    chainSize / 32 + 1
  }

  // The whole output stream of tap_set_ir.
  function IrWords(opcode: word, size: nat, prefix: nat, postfix: nat, oversize: OversizeShift): (ws: seq<word>)
    ensures |ws| == ChainWords(size + prefix + postfix)
  {
    var offset, shift := postfix / 32, postfix % 32;
    seq<word>(ChainWords(size + prefix + postfix),
        i requires 0 <= i => IrWord(opcode, size, offset, shift, i, oversize))
  }

  function IrWord(opcode: word, size: nat, offset: nat, shift: nat, i: nat, oversize: OversizeShift): word
    requires shift < 32
  {
    if i == offset then FirstIrWord(opcode, shift, size, oversize)
    else if i == offset + 1 && shift + size > 32 then SpillIrWord(opcode, shift, size, oversize)
    else ALL_ONES
  }

  lemma IrWordsBit(opcode: word, size: nat, prefix: nat, postfix: nat, oversize: OversizeShift, k: nat)
    requires k < size + prefix + postfix
    requires postfix % 32 + size < 32 || (OversizeIsZero(oversize) && k < 32 * (postfix / 32 + 2))
    ensures StreamBit(IrWords(opcode, size, prefix, postfix, oversize), k) == IrBit(opcode, postfix, size, k)
  {
    hide FirstIrWord, SpillIrWord;
    var offset, shift := postfix / 32, postfix % 32;
    if k / 32 == offset {
      FirstIrWordBit(opcode, shift, size, oversize, k % 32);
    } else if k / 32 == offset + 1 && shift + size > 32 {
      SpillIrWordBit(opcode, shift, size, oversize, k % 32);
    } else {
      AllOnesBit(k % 32);
    }
  }

  ghost predicate CarriesInstruction(ws: seq<word>, opcode: word, size: nat, prefix: nat, postfix: nat)
    requires Holds(ws, size + prefix + postfix)
  {
    forall k :: 0 <= k < size + prefix + postfix ==> StreamBit(ws, k) == IrBit(opcode, postfix, size, k)
  }

  // As long as no shift count reaches 32, the stream is right whatever C leaves undefined.
  lemma IrWordsCarryShort(opcode: word, size: nat, prefix: nat, postfix: nat, oversize: OversizeShift)
    requires postfix % 32 + size < 32
    ensures CarriesInstruction(IrWords(opcode, size, prefix, postfix, oversize), opcode, size, prefix, postfix)
  {
    forall k | 0 <= k < size + prefix + postfix
      ensures StreamBit(IrWords(opcode, size, prefix, postfix, oversize), k) == IrBit(opcode, postfix, size, k)
    {
      IrWordsBit(opcode, size, prefix, postfix, oversize, k);
    }
  }

  // With long shifts giving zero, it is right exactly when the instruction touches at most two words.
  lemma IrWordsCarryLong(opcode: word, size: nat, prefix: nat, postfix: nat, oversize: OversizeShift)
    requires OversizeIsZero(oversize)
    ensures CarriesInstruction(IrWords(opcode, size, prefix, postfix, oversize), opcode, size, prefix, postfix)
            <==> postfix % 32 + size <= 64
  {
    var ws := IrWords(opcode, size, prefix, postfix, oversize);
    if postfix % 32 + size <= 64 {
      forall k | 0 <= k < size + prefix + postfix
        ensures StreamBit(ws, k) == IrBit(opcode, postfix, size, k)
      {
        if k < 32 * (postfix / 32 + 2) {
          IrWordsBit(opcode, size, prefix, postfix, oversize, k);
        } else {
          AllOnesBit(k % 32);
        }
      }
    } else {
      // The first bit of the third word stays 1, but a 32-bit opcode has no such bit.
      var k := 32 * (postfix / 32 + 2);
      assert ws[k / 32] == ALL_ONES;
      AllOnesBit(0);
      PowersOfTwo();
      HighBit(opcode, 32, k - postfix);
      assert StreamBit(ws, k) && !IrBit(opcode, postfix, size, k);
    }
  }

  // All bits of the opcode that go into the first word it touches are ones.
  predicate StartsWithOnes(opcode: word, shift: nat) {
    forall j :: 0 <= j < 32 - shift ==> Bit(opcode, j)
  }

  // Whatever long shifts give, the stream is right exactly if there are none of them, or if the word
  // they get into is all ones anyway and the next word needs none.
  lemma IrWordsCarryAlways(opcode: word, size: nat, prefix: nat, postfix: nat)
    ensures (forall oversize ::
               CarriesInstruction(IrWords(opcode, size, prefix, postfix, oversize), opcode, size, prefix, postfix))
       <==> var shift := postfix % 32;
            || shift + size < 32
            || (StartsWithOnes(opcode, shift) && (shift + size == 32 || 0 < shift < shift + size < 64))
  {
    hide CarriesInstruction, IrWords;
    var shift := postfix % 32;
    if shift + size < 32 {
      forall oversize
        ensures CarriesInstruction(IrWords(opcode, size, prefix, postfix, oversize), opcode, size, prefix, postfix)
      {
        IrWordsCarryShort(opcode, size, prefix, postfix, oversize);
      }
    } else if StartsWithOnes(opcode, shift) && (shift + size == 32 || 0 < shift < shift + size < 64) {
      forall oversize
        ensures CarriesInstruction(IrWords(opcode, size, prefix, postfix, oversize), opcode, size, prefix, postfix)
      {
        IrWordsCarryOnes(opcode, size, prefix, postfix, oversize);
      }
    } else if !StartsWithOnes(opcode, shift) {
      var j :| 0 <= j < 32 - shift && !Bit(opcode, j);
      ZeroIsLost(opcode, size, prefix, postfix, j);
    } else {
      NextWordIsLost(opcode, size, prefix, postfix);
    }
  }

  lemma FirstIrWordOnes(opcode: word, shift: nat, size: nat, oversize: OversizeShift, j: nat)
    requires shift < 32 && j < 32 && (StartsWithOnes(opcode, shift) || Bit(oversize(ALL_ONES, shift + size), j))
    requires shift + size >= 32
    ensures Bit(FirstIrWord(opcode, shift, size, oversize), j)
  {
    var s := ShiftLeft(opcode, shift, oversize);
    var low := NotWord(ShiftLeft(ALL_ONES, shift, oversize));
    AndBit(ALL_ONES, s, j);
    OrBit(AndWord(ALL_ONES, s), low, j);
    OrBit(OrWord(AndWord(ALL_ONES, s), low), ShiftLeft(ALL_ONES, shift + size, oversize), j);
    AllOnesBit(j);
    ShiftLeftBit(opcode, shift, oversize, j);
    FillBit(shift, oversize, j);
  }

  lemma IrWordsCarryOnes(opcode: word, size: nat, prefix: nat, postfix: nat, oversize: OversizeShift)
    requires var shift := postfix % 32;
             StartsWithOnes(opcode, shift) && (shift + size == 32 || 0 < shift < 32 < shift + size < 64)
    ensures CarriesInstruction(IrWords(opcode, size, prefix, postfix, oversize), opcode, size, prefix, postfix)
  {
    hide FirstIrWord, SpillIrWord, Bit;
    var offset, shift := postfix / 32, postfix % 32;
    forall k | 0 <= k < size + prefix + postfix
      ensures StreamBit(IrWords(opcode, size, prefix, postfix, oversize), k) == IrBit(opcode, postfix, size, k)
    {
      if k / 32 == offset {
        FirstIrWordOnes(opcode, shift, size, oversize, k % 32);
        assert k >= postfix ==> Bit(opcode, k - postfix);
      } else if k / 32 == offset + 1 && shift + size > 32 {
        SpillIrWordBit(opcode, shift, size, oversize, k % 32);
      } else {
        AllOnesBit(k % 32);
      }
    }
  }

  // With long shifts giving ones, a zero of the opcode in the first word is lost ...
  lemma ZeroIsLost(opcode: word, size: nat, prefix: nat, postfix: nat, j: nat)
    requires postfix % 32 + size >= 32 && j < 32 - postfix % 32 && !Bit(opcode, j)
    ensures !CarriesInstruction(IrWords(opcode, size, prefix, postfix, (_, _) => ALL_ONES), opcode, size, prefix,
             postfix)
  {
    hide FirstIrWord, SpillIrWord;
    var ones: OversizeShift := (_, _) => ALL_ONES;
    var k := postfix + j;
    AllOnesBit(k % 32);
    FirstIrWordOnes(opcode, postfix % 32, size, ones, k % 32);
    assert StreamBit(IrWords(opcode, size, prefix, postfix, ones), k) && !IrBit(opcode, postfix, size, k);
  }

  // ... and so is the zero that an instruction of more than 32 bits has behind the opcode.
  lemma NextWordIsLost(opcode: word, size: nat, prefix: nat, postfix: nat)
    requires postfix % 32 + size > 32 && (postfix % 32 == 0 || postfix % 32 + size >= 64)
    ensures !CarriesInstruction(IrWords(opcode, size, prefix, postfix, (_, _) => ALL_ONES), opcode, size, prefix,
             postfix)
  {
    hide FirstIrWord, Bit, And, Or, Shl, Shr, Low, Pow2;
    var ones: OversizeShift := (_, _) => ALL_ONES;
    var k, shift := postfix + 32, postfix % 32;
    var rest := ShiftRight(opcode, 32 - shift, ones);
    var high := ShiftLeft(ALL_ONES, size - (32 - shift), ones);
    AllOnesBit(shift);
    AndBit(ALL_ONES, rest, shift);
    OrBit(AndWord(ALL_ONES, rest), high, shift);
    PowersOfTwo();
    HighBit(opcode, 32, 32);
    assert StreamBit(IrWords(opcode, size, prefix, postfix, ones), k) && !IrBit(opcode, postfix, size, k);
  }
}
