// rsp_string_helpers.h and rsp_string_helpers.cpp: hexadecimal text.
module HexDigits {
  import opened Wrappers
  import opened Bits

  // get_hex_char
  function HexChar(v: nat): (c: byte)
    requires v < 16
    ensures '0' as byte <= c <= '9' as byte || 'a' as byte <= c <= 'f' as byte
  {
    if v < 10 then '0' as byte + v else 'a' as byte + (v - 10)
  }

  // parse_hex_digit; None is its exception.
  function ParseHexDigit(c: byte): (v: Option<nat>)
    ensures v.Some? ==> v.value < 16
  {
    if '0' as byte <= c <= '9' as byte then Some(c - '0' as byte)
    else if 'a' as byte <= c <= 'f' as byte then Some(c - 'a' as byte + 10)
    else if 'A' as byte <= c <= 'F' as byte then Some(c - 'A' as byte + 10)
    else None
  }

  // The digits of both cases, and nothing else.
  lemma DigitsAre(v: nat, c: byte)
    ensures v < 16 ==> HexChar(v) as char == "0123456789abcdef"[v]
    ensures ParseHexDigit(c) == Some(v) <==> v < 16 && c as char in {"0123456789abcdef"[v], "0123456789ABCDEF"[v]}
  {
  }

  function LowerCase(c: byte): byte {
    if 'A' as byte <= c <= 'F' as byte then c + 32 else c
  }

  // ----- Bytes as pairs of digits -----

  function HexOf(bytes: seq<byte>): (text: seq<byte>)
    ensures |text| == 2 * |bytes|
  {
    if bytes == [] then []
    else
      var b := bytes[|bytes| - 1];
      HexOf(bytes[..|bytes| - 1]) + [HexChar(b / 16), HexChar(b % 16)]
  }

  // The bytes that the first n pairs of digits stand for.
  function ParsePairs(text: seq<byte>, n: nat): (r: Option<seq<byte>>)
    requires 2 * n <= |text|
    ensures r.Some? ==> |r.value| == n
  {
    if n == 0 then Some([])
    else
      var init, high, low := ParsePairs(text, n - 1), ParseHexDigit(text[2 * n - 2]), ParseHexDigit(text[2 * n - 1]);
      if init.None? || high.None? || low.None? then None
      else Some(init.value + [16 * high.value + low.value])
  }

  function Lowered(text: seq<byte>): (r: seq<byte>)
    ensures |r| == |text|
  {
    seq<byte>(|text|, i requires 0 <= i < |text| => LowerCase(text[i]))
  }

  lemma {:induction false} HexRoundTrip(bytes: seq<byte>, n: nat)
    requires n <= |bytes|
    ensures ParsePairs(HexOf(bytes), n) == Some(bytes[..n])
  {
    if n > 0 {
      HexRoundTrip(bytes, n - 1);
      HexOfAt(bytes, n - 1);
      assert bytes[..n] == bytes[..n - 1] + [bytes[n - 1]];
    }
  }

  lemma {:induction false} HexOfAt(bytes: seq<byte>, i: nat)
    requires i < |bytes|
    ensures HexOf(bytes)[2 * i] == HexChar(bytes[i] / 16) && HexOf(bytes)[2 * i + 1] == HexChar(bytes[i] % 16)
  {
    if i < |bytes| - 1 {
      HexOfAt(bytes[..|bytes| - 1], i);
    }
  }

  // Turning parsed text back into digits gives the text, in lower case.
  lemma {:induction false} ParsedRoundTrip(text: seq<byte>, n: nat)
    requires 2 * n <= |text| && ParsePairs(text, n).Some?
    ensures HexOf(ParsePairs(text, n).value) == Lowered(text[..2 * n])
  {
    hide HexChar, ParseHexDigit, Lowered, LowerCase;
    if n > 0 {
      var front, high, low := text[..2 * n - 2], text[2 * n - 2], text[2 * n - 1];
      var init := ParsePairs(text, n - 1).value;
      ParsedRoundTrip(text, n - 1);
      DigitsOfPair(high, low);
      LoweredPair(front, high, low);
      HexOfMore(init, 16 * ParseHexDigit(high).value + ParseHexDigit(low).value);
      assert text[..2 * n] == front + [high, low];
    } else {
      assert text[..0] == [];
      assert Lowered(text[..0]) == [];
    }
  }

  lemma HexOfMore(bytes: seq<byte>, b: byte)
    ensures HexOf(bytes + [b]) == HexOf(bytes) + [HexChar(b / 16), HexChar(b % 16)]
  {
    assert (bytes + [b])[..|bytes|] == bytes;
  }

  lemma DigitsOfPair(a: byte, b: byte)
    requires ParseHexDigit(a).Some? && ParseHexDigit(b).Some?
    ensures var v := 16 * ParseHexDigit(a).value + ParseHexDigit(b).value;
            v / 16 < 16 && HexChar(v / 16) == LowerCase(a) && HexChar(v % 16) == LowerCase(b)
  {
    var high, low := ParseHexDigit(a).value, ParseHexDigit(b).value;
    assert (16 * high + low) / 16 == high && (16 * high + low) % 16 == low;
  }

  lemma LoweredPair(text: seq<byte>, a: byte, b: byte)
    ensures Lowered(text + [a, b]) == Lowered(text) + [LowerCase(a), LowerCase(b)]
  {
  }

  lemma {:induction false} AllPairsAreDigits(text: seq<byte>, n: nat)
    requires 2 * n <= |text|
    ensures ParsePairs(text, n).Some? <==> forall i :: 0 <= i < 2 * n ==> ParseHexDigit(text[i]).Some?
  {
    if n > 0 {
      AllPairsAreDigits(text, n - 1);
    }
  }

  // The upper half of a byte comes first.
  lemma HexOfOne(b: byte)
    ensures HexOf([b]) == [HexChar(b / 16), HexChar(b % 16)]
  {
    assert [b][..0] == [];
  }

  // ----- C strings -----

  // A null-terminated string: everything before the first 0.
  function Text(src: seq<byte>): (t: seq<byte>)
    requires 0 in src
    ensures |t| < |src| && t == src[..|t|] && src[|t|] == 0 && 0 !in t
  {
    if src[0] == 0 then [] else [src[0]] + Text(src[1..])
  }

  predicate Ascii(text: seq<byte>) {
    forall i :: 0 <= i < |text| ==> text[i] < 0x80
  }

  // BeyondTable is undefined behaviour.
  datatype HexText = Hexed(text: seq<byte>) | AssertionFailed | BeyondTable

  // ascii2hex. A character that is negative as a signed char fails the assertion in get_hex_char or,
  // without assertions, takes a digit from beyond its table.
  method Ascii2Hex(src: seq<byte>, assertions: bool) returns (r: HexText)
    requires 0 in src
    ensures r == if Ascii(Text(src)) then Hexed(HexOf(Text(src)))
                 else if assertions then AssertionFailed else BeyondTable
  {
    hide Text;
    ghost var text := Text(src);
    var ret: seq<byte> := [];
    var i := 0;
    while src[i] != 0
      invariant i <= |text| && Ascii(text[..i]) && ret == HexOf(text[..i])
      decreases |text| - i
    {
      assert text[i] == src[i];
      if src[i] >= 0x80 {
        return if assertions then AssertionFailed else BeyondTable;
      }
      assert text[..i + 1][..i] == text[..i];
      ret := ret + [HexChar(src[i] / 16)];
      ret := ret + [HexChar(src[i] % 16)];
      i := i + 1;
    }
    assert text[..i] == text;
    return Hexed(ret);
  }

  // hex2ascii; None is either of its exceptions.
  method Hex2Ascii(src: seq<byte>) returns (r: Option<seq<byte>>)
    requires 0 in src
    ensures r == if |Text(src)| % 2 == 0 then ParsePairs(Text(src), |Text(src)| / 2) else None
  {
    hide Text;
    ghost var text := Text(src);
    var ret: seq<byte> := [];
    var i := 0;
    while src[i * 2] != 0
      invariant 2 * i <= |text| && ParsePairs(text, i) == Some(ret)
      decreases |text| - 2 * i
    {
      if src[i * 2 + 1] == 0 {
        return None;
      }
      var high, low := ParseHexDigit(src[i * 2]), ParseHexDigit(src[i * 2 + 1]);
      if high.None? || low.None? {
        BadPair(text, i + 1, |text| / 2);
        return None;
      }
      ret := ret + [16 * high.value + low.value];
      i := i + 1;
    }
    return Some(ret);
  }

  lemma {:induction false} BadPair(text: seq<byte>, m: nat, n: nat)
    requires m <= n && 2 * n <= |text| && ParsePairs(text, m).None?
    ensures ParsePairs(text, n).None?
  {
    if m < n {
      BadPair(text, m, n - 1);
    }
  }

  lemma {:induction false} NoZeroDigit(bytes: seq<byte>)
    ensures 0 !in HexOf(bytes)
  {
    if bytes != [] {
      NoZeroDigit(bytes[..|bytes| - 1]);
    }
  }

  lemma {:induction false} TextIs(t: seq<byte>)
    requires 0 !in t
    ensures Text(t + [0]) == t
  {
    if t != [] {
      assert (t + [0])[1..] == t[1..] + [0];
      TextIs(t[1..]);
    }
  }

  // hex2ascii undoes ascii2hex.
  lemma AsciiRoundTrip(text: seq<byte>)
    ensures var hex := Text(HexOf(text) + [0]);
            |hex| == 2 * |text| && ParsePairs(hex, |text|) == Some(text)
  {
    NoZeroDigit(text);
    TextIs(HexOf(text));
    HexRoundTrip(text, |text|);
    assert text[..|text|] == text;
  }

  // ----- Registers -----

  // n digits for a number, the most significant one first.
  function Digits(val: nat, n: nat): (text: seq<byte>)
    ensures |text| == n
  {
    if n == 0 then [] else Digits(val / 16, n - 1) + [HexChar(val % 16)]
  }

  lemma MoreDigits(v: nat, n: nat, d: nat)
    requires d < 16
    ensures Digits(0, 0) == [] && Digits(v * 16 + d, n + 1) == Digits(v, n) + [HexChar(d)]
  {
  }

  lemma DigitsInOrder()
    ensures Digits(0x12345678, 8)
         == ['1' as byte, '2' as byte, '3' as byte, '4' as byte, '5' as byte, '6' as byte, '7' as byte, '8' as byte]
  {
    hide Digits;
    MoreDigits(0x0, 0, 1);
    MoreDigits(0x1, 1, 2);
    MoreDigits(0x12, 2, 3);
    MoreDigits(0x123, 3, 4);
    MoreDigits(0x1234, 4, 5);
    MoreDigits(0x12345, 5, 6);
    MoreDigits(0x123456, 6, 7);
    MoreDigits(0x1234567, 7, 8);
  }

  function Value(text: seq<byte>): Option<nat> {
    if text == [] then Some(0)
    else
      var high, low := Value(text[..|text| - 1]), ParseHexDigit(text[|text| - 1]);
      if high.None? || low.None? then None else Some(16 * high.value + low.value)
  }

  lemma {:induction false} DigitsValue(val: nat, n: nat)
    requires val < Pow2(4 * n)
    ensures Value(Digits(val, n)) == Some(val)
  {
    if n > 0 {
      assert Pow2(4 * n) == 2 * Pow2(4 * n - 1) == 4 * Pow2(4 * n - 2) == 8 * Pow2(4 * n - 3) == 16 * Pow2(4 * n - 4);
      DigitsValue(val / 16, n - 1);
      assert Digits(val, n)[..n - 1] == Digits(val / 16, n - 1);
    }
  }

  lemma {:induction false} DigitAt(val: nat, n: nat, i: nat)
    requires i < n
    ensures Low(Shr(val, 4 * (n - 1 - i)), 4) < 16
    ensures Digits(val, n)[i] == HexChar(Low(Shr(val, 4 * (n - 1 - i)), 4))
  {
    PowersOfTwo();
    if i < n - 1 {
      DigitAt(val / 16, n - 1, i);
      var k := 4 * (n - 1 - i);
      assert Shr(val, k) == Shr(val / 2, k - 1) == Shr(val / 2 / 2, k - 2) == Shr(val / 2 / 2 / 2, k - 3)
          == Shr(val / 2 / 2 / 2 / 2, k - 4);
      assert val / 2 / 2 / 2 / 2 == val / 16;
    } else {
      LowNibble(val);
    }
  }

  lemma LowNibble(x: nat)
    ensures Low(x, 4) == x % 16
  {
    LowThree(x / 2);
    assert Low(x, 4) == x % 2 + 2 * Low(x / 2, 3);
  }

  lemma LowThree(x: nat)
    ensures Low(x, 3) == x % 8
  {
    LowTwo(x / 2);
    assert Low(x, 3) == x % 2 + 2 * Low(x / 2, 2);
  }

  lemma LowTwo(x: nat)
    ensures Low(x, 2) == x % 4
  {
    assert Low(x / 2 / 2, 0) == 0;
    assert Low(x / 2, 1) == x / 2 % 2;
    assert Low(x, 2) == x % 2 + 2 * Low(x / 2, 1);
  }

  // reg2hex, into a larger buffer.
  method Reg2Hex(val: word, buf: array<byte>, at: nat)
    requires at + 9 <= buf.Length
    modifies buf
    ensures buf[at..at + 8] == Digits(val, 8) && Value(buf[at..at + 8]) == Some(val) && buf[at + 8] == 0
    ensures buf[..at] == old(buf[..at]) && buf[at + 9..] == old(buf[at + 9..])
  {
    for n := 0 to 8
      invariant buf[at..at + n] == Digits(val, 8)[..n]
      invariant buf[..at] == old(buf[..at]) && buf[at + 9..] == old(buf[at + 9..])
    {
      DigitAt(val, 8, n);
      buf[at + n] := HexChar(Low(Shr(val, 28 - 4 * n), 4));
    }
    buf[at + 8] := 0;
    assert buf[at..at + 8] == Digits(val, 8)[..8] == Digits(val, 8);
    PowersOfTwo();
    DigitsValue(val, 8);
  }

  // ----- parse_reg_32_from_hex -----

  // The accumulator starts out unassigned, with `before` in it; None is an exception about a digit, or
  // about the terminator of a text that is too short.
  function RegisterRead(text: seq<byte>, before: word): Option<word> {
    if |text| < 8 || Value(text[..8]).None? then None
    else
      ValueBound(text[..8]);
      PowersOfTwo();
      OrBound(before, Value(text[..8]).value, 32);
      Some(Or(before, Value(text[..8]).value))
  }

  lemma {:induction false} ValueBound(text: seq<byte>)
    ensures Value(text).Some? ==> Value(text).value < Pow2(4 * |text|)
  {
    if text != [] {
      var n := 4 * |text|;
      assert Pow2(n) == 2 * Pow2(n - 1) == 4 * Pow2(n - 2) == 8 * Pow2(n - 3) == 16 * Pow2(n - 4);
      ValueBound(text[..|text| - 1]);
    }
  }

  // Digit by digit, each at its place.
  method ParseReg32(text: seq<byte>, before: word) returns (val: Option<word>)
    ensures val == RegisterRead(text, before)
  {
    var acc: nat := before;
    ghost var high: nat := 0;
    NoDigits(before);
    for n := 0 to 8
      invariant n <= |text| && Value(text[..n]) == Some(high) && acc == Or(before, Shl(high, 32 - 4 * n))
    {
      hide Or, Shl, Value;
      if n >= |text| {
        return None;
      }
      var digit := ParseHexDigit(text[n]);
      NextDigit(text, n);
      if digit.None? {
        if |text| >= 8 {
          BadDigit(text, n + 1, 8);
        }
        return None;
      }
      OrDigit(before, high, digit.value, 28 - 4 * n);
      acc := Or(acc, Shl(digit.value, 28 - 4 * n));
      high := 16 * high + digit.value;
    }
    ValueBound(text[..8]);
    PowersOfTwo();
    OrBound(before, high, 32);
    val := Some(acc);
  }

  lemma NoDigits(before: word)
    ensures Or(before, Shl(0, 32)) == before
  {
    ShlZero(32);
  }

  lemma {:induction false} ShlZero(k: nat)
    ensures Shl(0, k) == 0
  {
    if k > 0 {
      ShlZero(k - 1);
    }
  }

  lemma NextDigit(text: seq<byte>, n: nat)
    requires n < |text|
    ensures Value(text[..n + 1]) == if Value(text[..n]).None? || ParseHexDigit(text[n]).None? then None
                                    else Some(16 * Value(text[..n]).value + ParseHexDigit(text[n]).value)
  {
    assert text[..n + 1][..n] == text[..n];
  }

  lemma {:induction false} BadDigit(text: seq<byte>, m: nat, n: nat)
    requires m <= n <= |text| && Value(text[..m]).None?
    ensures Value(text[..n]).None?
  {
    if m < n {
      BadDigit(text, m, n - 1);
      NextDigit(text, n - 1);
    }
  }

  // One more digit below the others.
  lemma OrDigit(before: word, high: nat, digit: nat, k: nat)
    requires digit < 16
    ensures Or(Or(before, Shl(high, k + 4)), Shl(digit, k)) == Or(before, Shl(16 * high + digit, k))
  {
    OrAssociates(before, Shl(high, k + 4), Shl(digit, k));
    ShlJoin(high, digit, k);
  }

  lemma OrHalves(x: nat, y: nat)
    ensures Or(x, y) / 2 == Or(x / 2, y / 2)
    ensures Or(x, y) % 2 == if x % 2 == 1 || y % 2 == 1 then 1 else 0
  {
  }

  lemma {:induction false} OrAssociates(x: nat, y: nat, z: nat)
    ensures Or(Or(x, y), z) == Or(x, Or(y, z))
    decreases x + y + z
  {
    if x != 0 && y != 0 && z != 0 {
      OrHalves(x, y);
      OrHalves(y, z);
      hide Or;
      OrHalves(Or(x, y), z);
      OrHalves(x, Or(y, z));
      OrAssociates(x / 2, y / 2, z / 2);
    }
  }

  lemma {:induction false} ShlJoin(high: nat, digit: nat, k: nat)
    requires digit < 16
    ensures Or(Shl(high, k + 4), Shl(digit, k)) == Shl(16 * high + digit, k)
  {
    if k > 0 {
      ShlJoin(high, digit, k - 1);
    } else {
      assert Shl(high, 4) == 2 * Shl(high, 3) == 4 * Shl(high, 2) == 8 * Shl(high, 1) == 16 * Shl(high, 0);
      LowDigit(high, digit);
    }
  }

  lemma LowDigit(high: nat, digit: nat)
    requires digit < 16
    ensures Or(16 * high, digit) == 16 * high + digit
  {
    assert Or(high, 0) == high;
    hide Or;
    OrDoubled(high, digit / 8);
    OrDoubled(2 * high, digit / 4);
    OrDoubled(4 * high, digit / 2);
    OrDoubled(8 * high, digit);
  }

  lemma OrDoubled(x: nat, digit: nat)
    requires Or(x, digit / 2) == x + digit / 2
    ensures Or(2 * x, digit) == 2 * x + digit
  {
    OrHalves(2 * x, digit);
  }

  // What it reads is the number in the text for every text exactly when the accumulator held 0.
  lemma RegisterReadIsRight(before: word)
    ensures (forall text :: RegisterRead(text, before).Some? ==>
             Some(RegisterRead(text, before).value) == Value(text[..8]))
       <==> before == 0
  {
    if before != 0 {
      var zeros := Digits(0, 8);
      PowersOfTwo();
      DigitsValue(0, 8);
      assert zeros[..8] == zeros;
      assert RegisterRead(zeros, before) == Some(before);
    }
  }
}
