// TDO levels, and how they end up in the words of an input stream.
module Samples {
  import opened Bits
  import opened Clocks

  // The TDO levels at n consecutive clock events.
  function Levels(tdo: nat -> bool, base: nat, n: nat): (s: seq<bool>)
    ensures |s| == n
  {
    if n == 0 then [] else Levels(tdo, base, n - 1) + [tdo(base + (n - 1))]
  }

  lemma {:induction false} LevelAt(tdo: nat -> bool, base: nat, n: nat, k: nat)
    requires k < n
    ensures Levels(tdo, base, n)[k] == tdo(base + k)
  {
    if k < n - 1 { LevelAt(tdo, base, n - 1, k); }
  }

  // The words hold the first n samples, and the rest of their last word is clear.
  predicate HoldsSamples(words: seq<word>, samples: seq<bool>, n: nat) {
    n <= |samples| && n <= 32 * |words| && HoldUpTo(words, samples, n, (n + 31) / 32 * 32)
  }

  predicate HoldUpTo(words: seq<word>, samples: seq<bool>, n: nat, k: nat)
    requires n <= |samples| && k <= 32 * |words|
  {
    k == 0 || (HoldUpTo(words, samples, n, k - 1) && StreamBit(words, k - 1) == (k - 1 < n && samples[k - 1]))
  }

  lemma {:induction false} HeldAt(words: seq<word>, samples: seq<bool>, n: nat, m: nat, k: nat)
    requires n <= |samples| && k < m <= 32 * |words| && HoldUpTo(words, samples, n, m)
    ensures StreamBit(words, k) == (k < n && samples[k])
  {
    if k < m - 1 { HeldAt(words, samples, n, m - 1, k); }
  }

  lemma {:induction false} HeldWhen(words: seq<word>, samples: seq<bool>, n: nat, m: nat)
    requires n <= |samples| && m <= 32 * |words|
    requires forall k :: 0 <= k < m ==> StreamBit(words, k) == (k < n && samples[k])
    ensures HoldUpTo(words, samples, n, m)
  {
    if m > 0 { HeldWhen(words, samples, n, m - 1); }
  }

  // What HoldsSamples means for each sample.
  lemma ReceivedAt(words: seq<word>, samples: seq<bool>, n: nat, k: nat)
    requires HoldsSamples(words, samples, n) && k < n
    ensures StreamBit(words, k) == samples[k]
  {
    HeldAt(words, samples, n, (n + 31) / 32 * 32, k);
  }

  function SetWordIf(x: word, i: nat, b: bool): word
    requires i < 32
  {
    PowersOfTwo();
    SetBitBound(x, i, 32);
    if b then SetBit(x, i) else x
  }

  // One more sample, in a word that is cleared before its first one.
  lemma ReceivedSample(words: seq<word>, samples: seq<bool>, n: nat, after: seq<word>)
    requires HoldsSamples(words, samples, n) && n < |samples| && n < 32 * |words|
    requires after == words[n / 32 := SetWordIf(if n % 32 == 0 then 0 else words[n / 32], n % 32, samples[n])]
    ensures HoldsSamples(after, samples, n + 1)
  {
    var was: word := if n % 32 == 0 then 0 else words[n / 32];
    var filled := (n + 31) / 32 * 32;
    forall k | 0 <= k < (n + 32) / 32 * 32
      ensures StreamBit(after, k) == (k < n + 1 && samples[k])
    {
      if k < filled { HeldAt(words, samples, n, filled, k); }
      if k / 32 == n / 32 {
        if samples[n] { SetBitBit(was, n % 32, k % 32); }
        if n % 32 == 0 { ZeroBit(k % 32); }
      }
    }
    HeldWhen(after, samples, n + 1, (n + 32) / 32 * 32);
  }

  // Puts one more bit into the words.
  method StoreSample(instream: array<word>, i: nat, inval: bool, ghost samples: seq<bool>)
    requires i < |samples| && i < 32 * instream.Length && HoldsSamples(instream[..], samples, i) && inval == samples[i]
    modifies instream
    ensures HoldsSamples(instream[..], samples, i + 1)
  {
    ghost var before := instream[..];
    if i % 32 == 0 {
      instream[i / 32] := 0;
    }
    instream[i / 32] := SetWordIf(instream[i / 32], i % 32, inval);
    ReceivedSample(before, samples, i, instream[..]);
  }
}
