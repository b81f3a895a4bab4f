// jtag_enumerate_chain in chain_commands.cpp: what the bits coming back from an unknown chain mean.
module Enumeration {
  import opened Bits
  import opened Clocks
  import opened Tap
  import opened Target
  import opened Receivers

  const IDCODE_INVALID: word := 0xFFFF_FFFF
  const IDCODE_MANUFACTURER_ID_BIT_COUNT: nat := 11
  const MAX_DEVICE_COUNT: nat := 1024
  const DONE_CODE: word := 0x3f

  // What enumeration reports, or which of its errors it ends with.
  datatype Enumeration = Found(codes: seq<word>) | AllZeros | NoDevices | TooManyDevices

  predicate ValidDevice(d: Device) {
    d.IdCode? ==> d.code % 2 == 1
  }

  // The 11-bit manufacturer field, right above the start bit.
  function Manufacturer(code: word): nat {
    Low(Shr(code, 1), IDCODE_MANUFACTURER_ID_BIT_COUNT)
  }

  lemma ManufacturerIs(code: word)
    ensures Manufacturer(code) == code / 2 % 0x800
  {
    assert Shr(code, 1) == code / 2;
    PowersOfTwo();
    Parted(code / 2, 11);
    Shifted11(Shr(code / 2, 11));
  }

  lemma Shifted11(x: nat)
    ensures Shl(x, 11) == 0x800 * x
  {
    assert Shl(x, 2) == 2 * Shl(x, 1) == 4 * x;
    assert Shl(x, 4) == 2 * Shl(x, 3) == 4 * Shl(x, 2);
    assert Shl(x, 6) == 2 * Shl(x, 5) == 4 * Shl(x, 4);
    assert Shl(x, 8) == 2 * Shl(x, 7) == 4 * Shl(x, 6);
    assert Shl(x, 10) == 2 * Shl(x, 9) == 4 * Shl(x, 8);
  }

  // A device that cannot be told from the end-of-chain marker.
  predicate LooksLikeMarker(d: Device) {
    d.IdCode? && Manufacturer(d.code) == DONE_CODE
  }

  function CodeOf(d: Device): word {
    match d
    case Bypass => IDCODE_INVALID
    case IdCode(code) => code
  }

  function CodesOf(devices: seq<Device>): (codes: seq<word>)
    ensures |codes| == |devices|
  {
    if devices == [] then []
    else CodesOf(devices[..|devices| - 1]) + [CodeOf(devices[|devices| - 1])]
  }

  predicate AllBypassed(devices: seq<Device>) {
    devices == [] || (AllBypassed(devices[..|devices| - 1]) && devices[|devices| - 1].Bypass?)
  }

  // How many devices come before the first one that looks like the marker.
  function VisibleCount(devices: seq<Device>): (n: nat)
    ensures n <= |devices|
  {
    if devices == [] || LooksLikeMarker(devices[0]) then 0 else 1 + VisibleCount(devices[1..])
  }

  lemma {:induction false} VisibleMore(devices: seq<Device>, i: nat)
    requires i <= VisibleCount(devices)
    ensures i < VisibleCount(devices) <==> i < |devices| && !LooksLikeMarker(devices[i])
  {
    if i > 0 { VisibleMore(devices[1..], i - 1); }
  }

  // What one more device adds.
  lemma OneMoreDevice(devices: seq<Device>, k: nat)
    requires k < |devices|
    ensures devices[k..][0] == devices[k] && devices[k..][1..] == devices[k + 1..]
    ensures CodesOf(devices[..k + 1]) == CodesOf(devices[..k]) + [CodeOf(devices[k])]
    ensures AllBypassed(devices[..k + 1]) == (AllBypassed(devices[..k]) && devices[k].Bypass?)
  {
    assert devices[..k + 1][..k] == devices[..k];
  }

  // The outcome of enumerating a chain, stated on the devices alone.
  function Expected(devices: seq<Device>): Enumeration {
    var n := VisibleCount(devices);
    if n >= MAX_DEVICE_COUNT then
      if AllBypassed(devices[..MAX_DEVICE_COUNT]) then AllZeros else TooManyDevices
    else if n == 0 then NoDevices
    else Found(CodesOf(devices[..n]))
  }

  lemma {:induction false} BypassedIff(devices: seq<Device>)
    ensures AllBypassed(devices) <==> forall i :: 0 <= i < |devices| ==> devices[i].Bypass?
  {
    if devices != [] {
      BypassedIff(devices[..|devices| - 1]);
    }
  }

  lemma {:induction false} CodesAre(devices: seq<Device>, i: nat)
    requires i < |devices|
    ensures CodesOf(devices)[i] == CodeOf(devices[i])
  {
    if i < |devices| - 1 {
      CodesAre(devices[..|devices| - 1], i);
    }
  }

  // Each outcome on the devices themselves: where the first one with the marker's field is, if any is among
  // the first 1024, and whether one of these has an IDCODE.
  lemma OutcomesAre(devices: seq<Device>)
    ensures Expected(devices) == NoDevices <==> devices == [] || LooksLikeMarker(devices[0])
    ensures Expected(devices) == AllZeros <==> |devices| >= 1024 && forall i :: 0 <= i < 1024 ==> devices[i].Bypass?
    ensures Expected(devices) == TooManyDevices <==>
            && |devices| >= 1024 && (forall i :: 0 <= i < 1024 ==> !LooksLikeMarker(devices[i]))
            && exists i :: 0 <= i < 1024 && devices[i].IdCode?
    ensures Expected(devices).Found? ==>
              var codes := Expected(devices).codes;
              && |codes| <= |devices| && (|codes| < |devices| ==> LooksLikeMarker(devices[|codes|]))
              && forall i :: 0 <= i < |codes| ==>
                   && !LooksLikeMarker(devices[i])
                   && codes[i] == if devices[i].IdCode? then devices[i].code else 0xFFFF_FFFF
  {
    var v := VisibleCount(devices);
    VisibleMore(devices, v);
    forall i: nat | i < v ensures i < |devices| && !LooksLikeMarker(devices[i]) {
      VisibleMore(devices, i);
    }
    if v >= 1024 {
      BypassedIff(devices[..1024]);
      if !AllBypassed(devices[..1024]) {
        var i :| 0 <= i < 1024 && devices[..1024][i].IdCode?;
        assert devices[i].IdCode?;
      }
    } else {
      forall i: nat | i < v ensures CodesOf(devices[..v])[i] == CodeOf(devices[i]) {
        CodesAre(devices[..v], i);
      }
      assert v < |devices| ==> LooksLikeMarker(devices[v]) && devices[v].IdCode?;
    }
  }

  // Enumeration reports the whole chain exactly when the chain has 1 to 1023 devices,
  // none of which has the marker's manufacturer field.
  lemma {:induction false} ExpectedIsComplete(devices: seq<Device>)
    ensures Expected(devices) == Found(CodesOf(devices)) <==>
            0 < |devices| < MAX_DEVICE_COUNT && forall i :: 0 <= i < |devices| ==> !LooksLikeMarker(devices[i])
  {
    var n := VisibleCount(devices);
    VisibleMore(devices, n);
    assert |CodesOf(devices[..n])| == n;
    if n == |devices| {
      assert devices[..n] == devices;
      forall i | 0 <= i < n ensures !LooksLikeMarker(devices[i]) { VisibleMore(devices, i); }
    }
  }

  // A real device can carry that field, and then hides itself and everything behind it.
  lemma MarkerManufacturerHidesDevices()
    ensures ValidDevice(IdCode(0x7f)) && LooksLikeMarker(IdCode(0x7f))
    ensures Expected([IdCode(0x7f)]) == NoDevices
    ensures Expected([Bypass, IdCode(0x7f), Bypass]) == Found([IDCODE_INVALID])
  {
    assert Shr(0x7f, 1) == 0x3f;
    PowersOfTwo();
    LowId(0x3f, 11);
    assert LooksLikeMarker(IdCode(0x7f));
    var chain := [Bypass, IdCode(0x7f), Bypass];
    VisibleMore(chain, 0);
    VisibleMore(chain, 1);
    assert CodesOf(chain[..1]) == CodesOf(chain[..1][..0]) + [IDCODE_INVALID];
  }

  // ----- The same with receivers that are not cleared -----

  // What the chain shows pass by pass: its devices, then the marker, which reads like a device with an
  // IDCODE of 0x7f, then zeros.
  function Shown(devices: seq<Device>, i: nat): Device {
    if i < |devices| then devices[i] else if i == |devices| then IdCode(0x7f) else Bypass
  }

  // Whether a pass ends the enumeration, and the code it reports otherwise, when `stray` shows through
  // behind the manufacturer field.
  predicate Ends(d: Device, stray: word) {
    LooksLikeMarker(d) && stray == 0
  }

  function ReadAs(d: Device, stray: word): word {
    match d
    case Bypass => IDCODE_INVALID
    case IdCode(code) =>
      PowersOfTwo();
      Low(Or(code, Shl(stray, 1)), 32)
  }

  // The number of the pass, from i on, that ends the enumeration.
  function Passes(devices: seq<Device>, strays: nat -> word, i: nat): (n: nat)
    ensures i <= MAX_DEVICE_COUNT ==> i <= n <= MAX_DEVICE_COUNT
    decreases MAX_DEVICE_COUNT - i
  {
    if i >= MAX_DEVICE_COUNT || Ends(Shown(devices, i), strays(i)) then i else Passes(devices, strays, i + 1)
  }

  function CodesRead(devices: seq<Device>, strays: nat -> word, n: nat): (codes: seq<word>)
    ensures |codes| == n
  {
    if n == 0 then [] else CodesRead(devices, strays, n - 1) + [ReadAs(Shown(devices, n - 1), strays(n - 1))]
  }

  predicate OneSeen(devices: seq<Device>, n: nat) {
    n > 0 && (OneSeen(devices, n - 1) || Shown(devices, n - 1).IdCode?)
  }

  lemma NoPass(devices: seq<Device>, strays: nat -> word)
    ensures CodesRead(devices, strays, 0) == [] && !OneSeen(devices, 0)
  {
  }

  // What one more pass adds.
  lemma OneMorePass(devices: seq<Device>, strays: nat -> word, i: nat)
    requires i < MAX_DEVICE_COUNT
    ensures Passes(devices, strays, i)
         == if Ends(Shown(devices, i), strays(i)) then i else Passes(devices, strays, i + 1)
    ensures CodesRead(devices, strays, i + 1) == CodesRead(devices, strays, i) + [ReadAs(Shown(devices, i), strays(i))]
    ensures OneSeen(devices, i + 1) == (OneSeen(devices, i) || Shown(devices, i).IdCode?)
  {
  }

  // The outcome of enumerating a chain with the given strays.
  function Reported(devices: seq<Device>, strays: nat -> word): Enumeration {
    var n := Passes(devices, strays, 0);
    if !OneSeen(devices, if n < MAX_DEVICE_COUNT then n + 1 else n) then AllZeros
    else if n == 0 then NoDevices
    else if n >= MAX_DEVICE_COUNT then TooManyDevices
    else Found(CodesRead(devices, strays, n))
  }

  lemma {:induction false} PassesAre(devices: seq<Device>, strays: nat -> word, i: nat)
    requires i <= MAX_DEVICE_COUNT
    ensures var n := Passes(devices, strays, i);
            && (forall k :: i <= k < n ==> !Ends(Shown(devices, k), strays(k)))
            && (n < MAX_DEVICE_COUNT ==> Ends(Shown(devices, n), strays(n)))
    decreases MAX_DEVICE_COUNT - i
  {
    if i < MAX_DEVICE_COUNT && !Ends(Shown(devices, i), strays(i)) {
      PassesAre(devices, strays, i + 1);
    }
  }

  lemma MarkerLooksLikeItself()
    ensures LooksLikeMarker(IdCode(0x7f))
  {
    assert Shr(0x7f, 1) == 0x3f;
    PowersOfTwo();
    LowId(0x3f, 11);
  }

  lemma {:induction false} CleanCodes(devices: seq<Device>, strays: nat -> word, n: nat)
    requires n <= |devices| && forall i :: 0 <= i < n ==> strays(i) == 0
    ensures CodesRead(devices, strays, n) == CodesOf(devices[..n])
    ensures OneSeen(devices, n) == !AllBypassed(devices[..n])
  {
    if n > 0 {
      CleanCodes(devices, strays, n - 1);
      OneMoreDevice(devices, n - 1);
      CleanCode(devices[n - 1]);
    }
  }

  lemma CleanCode(d: Device)
    ensures ReadAs(d, 0) == CodeOf(d)
  {
    if d.IdCode? {
      assert Shl(0, 1) == 0;
      PowersOfTwo();
      LowId(d.code, 32);
    }
  }

  lemma {:induction false} CleanPasses(devices: seq<Device>, strays: nat -> word, n: nat)
    requires n == Passes(devices, strays, 0) && forall i :: 0 <= i < MAX_DEVICE_COUNT ==> strays(i) == 0
    ensures n == if VisibleCount(devices) < MAX_DEVICE_COUNT then VisibleCount(devices) else MAX_DEVICE_COUNT
  {
    var v := VisibleCount(devices);
    PassesAre(devices, strays, 0);
    MarkerLooksLikeItself();
    VisibleMore(devices, v);
    if n < v {
      VisibleMore(devices, n);
    }
    assert v < MAX_DEVICE_COUNT ==> Ends(Shown(devices, v), strays(v));
  }

  lemma CleanIsExpected(devices: seq<Device>, strays: nat -> word)
    requires forall i :: 0 <= i < MAX_DEVICE_COUNT ==> strays(i) == 0
    ensures Reported(devices, strays) == Expected(devices)
  {
    var n := Passes(devices, strays, 0);
    CleanPasses(devices, strays, n);
    CleanCodes(devices, strays, n);
    PassesAre(devices, strays, 0);
  }

  function Bypassed(k: nat): (devices: seq<Device>)
    ensures |devices| == k && forall i :: 0 <= i < k ==> devices[i] == Bypass
  {
    seq(k, _ => Bypass)
  }

  // A stray bit hides the end of a chain with as many devices as passes before it.
  lemma StrayHidesTheEnd(strays: nat -> word, k: nat)
    requires k < MAX_DEVICE_COUNT && strays(k) != 0
    ensures Reported(Bypassed(k), strays) == TooManyDevices != Expected(Bypassed(k))
  {
    var devices := Bypassed(k);
    var n := Passes(devices, strays, 0);
    PassesAre(devices, strays, 0);
    assert Shown(devices, k) == IdCode(0x7f) && !Ends(Shown(devices, k), strays(k));
    assert Expected(devices) != TooManyDevices by {
      assert VisibleCount(devices) <= k;
    }
    OneIsSeen(devices, MAX_DEVICE_COUNT, k);
  }

  // What shows through behind the manufacturer field in each pass.
  function StraysOf(clears: bool, manufacturers: nat -> word): nat -> word {
    i => Stray(clears, manufacturers(i), IDCODE_MANUFACTURER_ID_BIT_COUNT)
  }

  // So it is right, whatever the devices are, exactly if the receivers are cleared or no bit was set in
  // them behind the manufacturer field.
  lemma ReceiversAreRight(clears: bool, manufacturers: nat -> word)
    ensures (forall devices :: Reported(devices, StraysOf(clears, manufacturers)) == Expected(devices))
       <==> clears || forall i: nat :: i < MAX_DEVICE_COUNT ==> FitsField(manufacturers(i))
  {
    hide Reported, Expected, FitsField, Stray;
    var strays := StraysOf(clears, manufacturers);
    EnumerationIsRight(strays);
    forall i: nat | i < MAX_DEVICE_COUNT ensures strays(i) == 0 <==> clears || FitsField(manufacturers(i)) {
      StrayInField(clears, manufacturers(i));
    }
    if !clears && !forall i: nat :: i < MAX_DEVICE_COUNT ==> FitsField(manufacturers(i)) {
      var i: nat :| i < MAX_DEVICE_COUNT && !FitsField(manufacturers(i));
      assert strays(i) != 0;
    }
  }

  // No bit is set behind the manufacturer field.
  predicate FitsField(w: word) {
    forall j :: IDCODE_MANUFACTURER_ID_BIT_COUNT <= j < 32 ==> !Bit(w, j)
  }

  lemma StrayInField(clears: bool, w: word)
    ensures Stray(clears, w, IDCODE_MANUFACTURER_ID_BIT_COUNT) == 0 <==> clears || FitsField(w)
  {
    NoStrayIsZero(clears, w, IDCODE_MANUFACTURER_ID_BIT_COUNT);
    if clears {
      assert Stray(clears, w, IDCODE_MANUFACTURER_ID_BIT_COUNT) == 0;
    } else if FitsField(w) {
      assert Stray(clears, w, IDCODE_MANUFACTURER_ID_BIT_COUNT) == 0;
    } else {
      var j :| IDCODE_MANUFACTURER_ID_BIT_COUNT <= j < 32 && Bit(w, j);
      StrayBit(clears, w, IDCODE_MANUFACTURER_ID_BIT_COUNT, j);
      ZeroBit(j);
    }
  }

  // One set bit in a variable that is not cleared is enough: the end of an empty chain goes unnoticed.
  lemma StrayWordHidesTheEnd(manufacturers: nat -> word)
    requires manufacturers(0) == 0x800
    ensures Reported([], StraysOf(false, manufacturers)) == TooManyDevices != Expected([])
  {
    StrayInField(false, 0x800);
    assert Bit(0x800, 11) by {
      PowersOfTwo();
      TopBit(0, 11, 11);
    }
    assert StraysOf(false, manufacturers)(0) == Stray(false, 0x800, IDCODE_MANUFACTURER_ID_BIT_COUNT) != 0;
    assert Bypassed(0) == [];
    StrayHidesTheEnd(StraysOf(false, manufacturers), 0);
  }

  lemma {:induction false} OneIsSeen(devices: seq<Device>, n: nat, k: nat)
    requires k < n && Shown(devices, k).IdCode?
    ensures OneSeen(devices, n)
  {
    if k < n - 1 {
      OneIsSeen(devices, n - 1, k);
    }
  }

  // Enumeration is right for every chain exactly when nothing shows through in any of its passes.
  lemma EnumerationIsRight(strays: nat -> word)
    ensures (forall devices :: Reported(devices, strays) == Expected(devices))
       <==> (forall i :: 0 <= i < MAX_DEVICE_COUNT ==> strays(i) == 0)
  {
    if i :| 0 <= i < MAX_DEVICE_COUNT && strays(i) != 0 {
      StrayHidesTheEnd(strays, i);
      assert Reported(Bypassed(i), strays) != Expected(Bypassed(i));
    } else {
      forall devices ensures Reported(devices, strays) == Expected(devices) {
        CleanIsExpected(devices, strays);
      }
    }
  }

  // Seven ones, then zeros: what has been sent into the chain after n bits.
  function MarkerBits(n: nat): (s: seq<bool>)
    ensures |s| == n
  {
    if n == 0 then [] else MarkerBits(n - 1) + [n <= 7]
  }

  lemma {:induction false} MarkerBitsAt(n: nat, k: nat)
    requires k < n
    ensures MarkerBits(n)[k] == (k < 7)
  {
    if k < n - 1 { MarkerBitsAt(n - 1, k); }
  }

  // What is left of the marker in `invalid_code` after n bits.
  function MarkerRest(n: nat): word {
    ShrWord(0x7f, n)
  }

  lemma MarkerRestBit(n: nat, k: nat)
    ensures Bit(MarkerRest(n), k) == (n + k < 7)
  {
    ShrBit(0x7f, n, k);
    PowersOfTwo();
    assert Pow2(7) == 0x80;
    ComplementBit(0, 7, n + k);
    ZeroBit(n + k);
  }

  lemma {:induction false} ShrShr(x: nat, m: nat, n: nat)
    ensures Shr(Shr(x, m), n) == Shr(x, m + n)
  {
    if m > 0 { ShrShr(x / 2, m - 1, n); }
  }

  lemma MarkerGoesOn(n: nat, len: nat)
    requires len <= 32
    ensures MarkerBits(n) + StreamBits([MarkerRest(n)], len) == MarkerBits(n + len)
  {
    var both := MarkerBits(n) + StreamBits([MarkerRest(n)], len);
    forall k | 0 <= k < n + len
      ensures both[k] == MarkerBits(n + len)[k]
    {
      MarkerBitsAt(n + len, k);
      if k < n { MarkerBitsAt(n, k); } else { MarkerRestBit(n, k - n); }
    }
  }

  // An IDCODE from its start bit, its manufacturer field and the remaining 20 bits.
  function JoinCode(rest: word, manufacturer: word): word {
    PowersOfTwo();
    Low(Or(Or(Shl(rest, IDCODE_MANUFACTURER_ID_BIT_COUNT + 1), Shl(manufacturer, 1)), 1), 32)
  }

  lemma ManufacturerPart(code: word)
    ensures FromBits(ToBits(code, 32)[1..12]) == Manufacturer(code)
  {
    var b := ToBits(code, 32);
    forall i | 0 <= i < 11
      ensures Bit(FromBits(b[1..12]), i) == Bit(Manufacturer(code), i)
    {
      FromBitsBit(b[1..12], i);
      LowBit(Shr(code, 1), 11, i);
      ShrBit(code, 1, i);
    }
    BitsDetermine(FromBits(b[1..12]), Manufacturer(code), 11);
  }

  // The variable for the manufacturer field tells the end of the chain just when nothing shows through.
  lemma ManufacturerRead(clears: bool, before: word, code: word, m: word)
    requires m == ReceivedWord(clears, before, ToBits(code, 32)[1..12])
    ensures m == DONE_CODE <==> Ends(IdCode(code), Stray(clears, before, 11))
  {
    var bits := ToBits(code, 32)[1..12];
    ManufacturerPart(code);
    WordIsRight(clears, before, bits);
    if Stray(clears, before, 11) != 0 {
      NoStrayIsZero(clears, before, 11);
      var j :| 11 <= j < 32 && !clears && Bit(before, j);
      ReceivedWordBit(clears, before, bits, j);
      PowersOfTwo();
      HighBit(DONE_CODE, 11, j);
    }
  }

  // The code put together from both parts; whatever shows through in the second one is shifted out.
  lemma CodeRead(clears: bool, before: word, before2: word, code: word, m: word, r: word)
    requires code % 2 == 1 && m == ReceivedWord(clears, before, ToBits(code, 32)[1..12])
    requires r == ReceivedWord(clears, before2, ToBits(code, 32)[12..32])
    ensures JoinCode(r, m) == ReadAs(IdCode(code), Stray(clears, before, 11))
  {
    var stray := Stray(clears, before, 11);
    PowersOfTwo();
    forall i | 0 <= i < 32
      ensures Bit(JoinCode(r, m), i) == Bit(ReadAs(IdCode(code), stray), i)
    {
      CodeReadBit(clears, before, before2, code, m, r, i);
    }
    BitsDetermine(JoinCode(r, m), ReadAs(IdCode(code), stray), 32);
  }

  lemma CodeReadBit(clears: bool, before: word, before2: word, code: word, m: word, r: word, i: nat)
    requires i < 32 && code % 2 == 1 && m == ReceivedWord(clears, before, ToBits(code, 32)[1..12])
    requires r == ReceivedWord(clears, before2, ToBits(code, 32)[12..32])
    ensures Bit(JoinCode(r, m), i) == Bit(ReadAs(IdCode(code), Stray(clears, before, 11)), i)
  {
    hide ReceivedWord, Stray, ToBits, JoinCode;
    var stray := Stray(clears, before, 11);
    JoinCodeBit(r, m, i);
    LowBit(Or(code, Shl(stray, 1)), 32, i);
    OrBit(code, Shl(stray, 1), i);
    ShlBit(stray, 1, i);
    if i >= 12 {
      ReceivedWordBit(clears, before2, ToBits(code, 32)[12..32], i - 12);
    }
    if i >= 1 {
      ReceivedWordBit(clears, before, ToBits(code, 32)[1..12], i - 1);
      StrayBit(clears, before, 11, i - 1);
    }
  }

  lemma JoinCodeBit(r: word, m: word, i: nat)
    requires i < 32
    ensures Bit(JoinCode(r, m), i) == (i == 0 || Bit(m, i - 1) || (i >= 12 && Bit(r, i - 12)))
  {
    LowBit(Or(Or(Shl(r, 12), Shl(m, 1)), 1), 32, i);
    OrBit(Or(Shl(r, 12), Shl(m, 1)), 1, i);
    OrBit(Shl(r, 12), Shl(m, 1), i);
    ShlBit(r, 12, i);
    ShlBit(m, 1, i);
    if i > 0 {
      ZeroBit(i - 1);
    }
  }

  // What the data path holds and yields in all, once n marker bits have been sent into it.
  function Fed(path: seq<bool>, n: nat): (s: seq<bool>)
    ensures |s| == |path| + n
  {
    path + MarkerBits(n)
  }

  lemma FedMore(path: seq<bool>, n: nat, c: nat, len: nat)
    requires c <= |path| + n && len <= 32
    ensures var next := Fed(path, n)[c..] + StreamBits([MarkerRest(n)], len);
            && next[len..] == Fed(path, n + len)[c + len..]
            && next[..len] == Fed(path, n + len)[c..c + len]
  {
    MarkerGoesOn(n, len);
    var bits := StreamBits([MarkerRest(n)], len);
    assert Fed(path, n) + bits == Fed(path, n + len);
    assert Fed(path, n)[c..] + bits == Fed(path, n + len)[c..];
  }

  // Shifting the next marker bits in, when c bits have come out since the path was `path`.
  lemma MarkerShift(t: Target, path: seq<bool>, n: nat, c: nat, len: nat)
    requires t.tap == ShiftDr && !DebugSelected(t) && 0 < len <= 32
    requires c <= |path| + n && t.dr == Fed(path, n)[c..]
    ensures var cs := StreamClocks([MarkerRest(n)], len, false);
            && Run(t, cs) == t.(dr := Fed(path, n + len)[c + len..])
            && Tdos(t, cs) == Fed(path, n + len)[c..c + len]
    ensures Shr(MarkerRest(n), len) == MarkerRest(n + len)
  {
    StreamShift(t, [MarkerRest(n)], len, false);
    FedMore(path, n, c, len);
    ShrShr(0x7f, n, len);
  }

  lemma MarkerShiftBit(t: Target, path: seq<bool>, n: nat, c: nat)
    requires t.tap == ShiftDr && !DebugSelected(t)
    requires c <= |path| + n && t.dr == Fed(path, n)[c..]
    ensures var k := Clock(false, MarkerRest(n) % 2 == 1);
            && Step(t, k) == t.(dr := Fed(path, n + 1)[c + 1..])
            && Tdo(t, k) == Fed(path, n + 1)[c]
    ensures Shr(MarkerRest(n), 1) == MarkerRest(n + 1)
  {
    MarkerShift(t, path, n, c, 1);
    var cs := StreamClocks([MarkerRest(n)], 1, false);
    var k := Clock(false, MarkerRest(n) % 2 == 1);
    assert Bit(MarkerRest(n), 0) == (MarkerRest(n) % 2 == 1);
    assert cs == [k] && cs[..0] == [];
    RunOneMore(t, cs, 0);
    assert cs[..1] == cs;
    assert Tdos(t, cs)[0] == Tdo(t, k);
  }

  // ----- What comes out -----

  // Bit k that comes out of a path that the marker is fed into.
  predicate OutBit(path: seq<bool>, k: nat) {
    if k < |path| then path[k] else k - |path| < 7
  }

  lemma FedBit(path: seq<bool>, n: nat, k: nat)
    requires k < |path| + n
    ensures Fed(path, n)[k] == OutBit(path, k)
  {
    if k >= |path| {
      MarkerBitsAt(n, k - |path|);
    }
  }

  function Length(d: Device): nat {
    if d.Bypass? then 1 else 32
  }

  // How many bits come out before those of pass i.
  function StartOf(devices: seq<Device>, i: nat): nat {
    if i == 0 then 0 else StartOf(devices, i - 1) + Length(Shown(devices, i - 1))
  }

  // The bits from n on are those of a device.
  ghost predicate Shows(path: seq<bool>, n: nat, d: Device) {
    match d
    case Bypass => !OutBit(path, n)
    case IdCode(code) => code % 2 == 1 && forall j :: 0 <= j < 32 ==> OutBit(path, n + j) == Bit(code, j)
  }

  lemma {:induction false} StartFront(devices: seq<Device>, i: nat)
    requires devices != [] && i > 0
    ensures StartOf(devices, i) == Length(devices[0]) + StartOf(devices[1..], i - 1)
  {
    if i > 1 {
      StartFront(devices, i - 1);
      assert Shown(devices, i - 1) == Shown(devices[1..], i - 2);
    } else {
      assert StartOf(devices, 1) == StartOf(devices, 0) + Length(Shown(devices, 0));
    }
  }

  lemma {:induction false} StartAtEnd(i: nat)
    ensures StartOf([], i) == if i == 0 then 0 else 31 + i
  {
    if i > 1 {
      StartAtEnd(i - 1);
    } else if i == 1 {
      assert StartOf([], 1) == StartOf([], 0) + Length(Shown([], 0));
    }
  }

  lemma ShowsBehind(front: seq<bool>, rest: seq<bool>, n: nat, d: Device)
    requires Shows(rest, n, d)
    ensures Shows(front + rest, |front| + n, d)
  {
    if d.IdCode? {
      forall j | 0 <= j < 32 ensures OutBit(front + rest, |front| + n + j) == Bit(d.code, j) {
        assert OutBit(rest, n + j) == Bit(d.code, j);
      }
    }
  }

  // Pass by pass, what comes out is what the chain shows.
  lemma {:induction false} ShownComesOut(devices: seq<Device>, i: nat)
    requires forall k :: 0 <= k < |devices| ==> ValidDevice(devices[k])
    ensures Shows(CapturedPath(devices), StartOf(devices, i), Shown(devices, i))
    decreases |devices|
  {
    if devices == [] {
      StartAtEnd(i);
      if i == 0 {
        forall j | 0 <= j < 32 ensures OutBit([], j) == Bit(0x7f, j) {
          MarkerRestBit(0, j);
        }
      }
    } else {
      var path, rest := CapturedPath(devices), CapturedPath(devices[1..]);
      assert path == Captured(devices[0]) + rest;
      if i == 0 {
        assert StartOf(devices, 0) == 0;
      } else {
        StartFront(devices, i);
        ShownComesOut(devices[1..], i - 1);
        var n := StartOf(devices[1..], i - 1);
        assert Shown(devices, i) == Shown(devices[1..], i - 1);
        ShowsBehind(Captured(devices[0]), rest, n, Shown(devices, i));
      }
    }
  }

  // The parts of an IDCODE, as they come out.
  lemma ShownParts(path: seq<bool>, n: nat, code: word, m: nat)
    requires Shows(path, n, IdCode(code)) && m >= n + 32
    ensures Fed(path, m)[n] && Fed(path, m)[n + 1..n + 12] == ToBits(code, 32)[1..12]
    ensures Fed(path, m)[n + 12..n + 32] == ToBits(code, 32)[12..32]
  {
    forall j | 0 <= j < 32 ensures Fed(path, m)[n + j] == ToBits(code, 32)[j] {
      FedBit(path, m, n + j);
    }
    assert Fed(path, m)[n + 0] == ToBits(code, 32)[0];
  }

  lemma FedPart(path: seq<bool>, m: nat, n: nat, i: nat, j: nat)
    requires i <= j <= |path| + m && m <= n
    ensures Fed(path, m)[i..j] == Fed(path, n)[i..j]
  {
    forall k | i <= k < j ensures Fed(path, m)[k] == Fed(path, n)[k] {
      FedBit(path, m, k);
      FedBit(path, n, k);
    }
  }

  lemma NothingFed(path: seq<bool>)
    ensures Fed(path, 0)[0..] == path
  {
  }
}
