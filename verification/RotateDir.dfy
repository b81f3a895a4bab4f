// RotateDir.pl: making room for a new slot and creating it.
module RotateDir {
  import opened Wrappers
  import opened SlotNames

  // ----- The next slot -----

  // All slots, in the order in which they were found; None if a name cannot be understood.
  function ParseAll(scheme: Scheme, ids: seq<string>): (r: Option<seq<Slot>>)
    ensures r.Some? ==> |r.value| == |ids|
  {
    if ids == [] then Some([])
    else
      var init, last := ParseAll(scheme, ids[..|ids| - 1]), scheme.parse(ids[|ids| - 1]);
      if init.None? || last.None? then None else Some(init.value + [last.value])
  }

  lemma {:induction false} ParsedAt(scheme: Scheme, ids: seq<string>, i: nat)
    requires ParseAll(scheme, ids).Some? && i < |ids|
    ensures scheme.parse(ids[i]) == Some(ParseAll(scheme, ids).value[i])
  {
    if i < |ids| - 1 {
      ParsedAt(scheme, ids[..|ids| - 1], i);
    }
  }

  lemma {:induction false} AllParsed(scheme: Scheme, ids: seq<string>)
    requires forall i :: 0 <= i < |ids| ==> scheme.parse(ids[i]).Some?
    ensures ParseAll(scheme, ids).Some?
  {
    if ids != [] {
      AllParsed(scheme, ids[..|ids| - 1]);
    }
  }

  lemma {:induction false} UnparsedPrefix(scheme: Scheme, ids: seq<string>, n: nat)
    requires n <= |ids| && ParseAll(scheme, ids[..n]).None?
    ensures ParseAll(scheme, ids).None?
    decreases |ids| - n
  {
    if n == |ids| {
      assert ids[..n] == ids;
    } else {
      assert ids[..n + 1][..n] == ids[..n];
      UnparsedPrefix(scheme, ids, n + 1);
    }
  }

  // The number for a further slot of the given date, after the first n slots.
  function NextNumber(slots: seq<Slot>, date: Option<Date>, n: nat): (m: nat)
    requires n <= |slots|
    ensures m >= 1
  {
    if n == 0 then 1
    else
      var m, s := NextNumber(slots, date, n - 1), slots[n - 1];
      if s.date == date && s.sequenceNumber >= m then s.sequenceNumber + 1 else m
  }

  // It is the lowest one above all that there are: 1, or one more than the highest.
  lemma {:induction false} NextNumberIsNext(slots: seq<Slot>, date: Option<Date>, n: nat)
    requires n <= |slots|
    ensures var m := NextNumber(slots, date, n);
            && (forall i :: 0 <= i < n && slots[i].date == date ==> slots[i].sequenceNumber < m)
            && (m == 1 || exists i :: 0 <= i < n && slots[i].date == date && slots[i].sequenceNumber == m - 1)
  {
    if n > 0 {
      NextNumberIsNext(slots, date, n - 1);
    }
  }

  lemma {:induction false} NextNumberGrows(slots: seq<Slot>, date: Option<Date>, m: nat, n: nat)
    requires m <= n <= |slots|
    ensures NextNumber(slots, date, m) <= NextNumber(slots, date, n)
  {
    if m < n {
      NextNumberGrows(slots, date, m, n - 1);
    }
  }

  predicate NoneYounger(slots: seq<Slot>, date: Option<Date>) {
    date.Some? ==>
      forall i {:trigger CompareTimestamps(slots[i].date.value, date.value)} ::
        0 <= i < |slots| && slots[i].date.Some? ==>
      CompareTimestamps(slots[i].date.value, date.value) <= 0
  }

  // The slot to create: of the given date, or of none with plain sequence numbers.
  function NextSlot(scheme: Scheme, slots: seq<Slot>, date: Option<Date>): Option<Slot> {
    var n := NextNumber(slots, date, |slots|);
    if n <= MAX_INTEGER && NoneYounger(slots, date) then Some(Slot(scheme.name(date, n), date, n)) else None
  }

  // Its name, for the names found; None is any error.
  function NextName(scheme: Scheme, ids: seq<string>, date: Option<Date>): Option<string> {
    var slots := ParseAll(scheme, ids);
    if slots.None? || NextSlot(scheme, slots.value, date).None? then None
    else Some(NextSlot(scheme, slots.value, date).value.id)
  }

  ghost predicate AllOf(scheme: Scheme, slots: seq<Slot>) {
    forall i {:trigger scheme.parse(slots[i].id)} :: 0 <= i < |slots| ==> scheme.parse(slots[i].id) == Some(slots[i])
  }

  lemma HasScheme(scheme: Scheme, s: Slot)
    requires Sound(scheme) && scheme.parse(s.id) == Some(s)
    ensures s.date.Some? == scheme.dated
  {
  }

  lemma OlderThan(s: Slot, newest: Slot)
    requires s.date.Some? == newest.date.Some?
    requires s.date.Some? ==> CompareTimestamps(s.date.value, newest.date.value) <= 0
    requires s.date == newest.date ==> s.sequenceNumber < newest.sequenceNumber
    ensures Older(s, newest)
  {
  }

  // The new name can be read back, and its slot is newer than all others.
  lemma NextSlotIsNewest(scheme: Scheme, slots: seq<Slot>, date: Option<Date>)
    requires Sound(scheme) && AllOf(scheme, slots) && NextSlot(scheme, slots, date).Some?
    requires date.Some? == scheme.dated && (date.Some? ==> GoodDate(date.value))
    ensures var newest := NextSlot(scheme, slots, date).value;
            && scheme.parse(newest.id) == Some(newest)
            && forall i :: 0 <= i < |slots| ==> Older(slots[i], newest)
  {
    var newest := NextSlot(scheme, slots, date).value;
    NextNumberIsNext(slots, date, |slots|);
    assert GoodKey(scheme, date, newest.sequenceNumber);
    forall i | 0 <= i < |slots| ensures Older(slots[i], newest) {
      HasScheme(scheme, slots[i]);
      OlderThan(slots[i], newest);
    }
  }

  // The loop of process_sequence_slots.
  method ScanNumbers(ids: seq<string>, ghost scheme: Scheme) returns (ok: bool, slots: seq<Slot>, next: nat)
    requires forall k {:trigger scheme.parse(ids[k])} :: 0 <= k < |ids| ==>
             scheme.parse(ids[k]) == ParseSequenceSlot(ids[k])
    ensures !ok ==> NextName(scheme, ids, None) == None
    ensures ok ==> ParseAll(scheme, ids) == Some(slots) && next == NextNumber(slots, None, |slots|) <= MAX_INTEGER
  {
    ok, slots, next := true, [], FIRST_SEQUENCE_SEQUENCE_NUMBER;
    for k := 0 to |ids|
      invariant ok && ParseAll(scheme, ids[..k]) == Some(slots)
      invariant next == NextNumber(slots, None, k) <= MAX_INTEGER
    {
      assert ids[..k + 1][..k] == ids[..k];
      var id := ids[k];
      if id == "" || !AllDigits(id) || Number(id) < FIRST_SEQUENCE_SEQUENCE_NUMBER {
        UnparsedPrefix(scheme, ids, k + 1);
        return false, slots, next;
      }
      ghost var before := slots;
      slots := slots + [Slot(id, None, Number(id))];
      SamePrefix(before, slots, None, k);
      if Number(id) >= next {
        next := Number(id) + 1;
        if next > MAX_INTEGER {
          TooHigh(scheme, ids, k + 1, None, slots);
          return false, slots, next;
        }
      }
    }
    assert ids[..|ids|] == ids;
  }

  // process_sequence_slots; None is any of its errors.
  method ProcessSequenceSlots(ids: seq<string>) returns (slots: seq<Slot>, name: Option<string>)
    ensures name == NextName(SequenceScheme(), ids, None)
    ensures name.Some? ==> ParseAll(SequenceScheme(), ids) == Some(slots)
  {
    var ok, next;
    ok, slots, next := ScanNumbers(ids, SequenceScheme());
    name := if ok then Some(Decimal(next)) else None;
  }

  lemma {:induction false} SamePrefix(slots: seq<Slot>, longer: seq<Slot>, date: Option<Date>, n: nat)
    requires n <= |slots| && slots <= longer
    ensures NextNumber(slots, date, n) == NextNumber(longer, date, n)
  {
    if n > 0 {
      SamePrefix(slots, longer, date, n - 1);
    }
  }

  lemma ParsedInit(scheme: Scheme, ids: seq<string>)
    requires ids != [] && ParseAll(scheme, ids).Some?
    ensures ParseAll(scheme, ids[..|ids| - 1]).Some?
    ensures ParseAll(scheme, ids[..|ids| - 1]).value <= ParseAll(scheme, ids).value
  {
  }

  lemma {:induction false} ParsedPrefix(scheme: Scheme, ids: seq<string>, k: nat)
    requires k <= |ids| && ParseAll(scheme, ids).Some?
    ensures ParseAll(scheme, ids[..k]).Some? && ParseAll(scheme, ids[..k]).value <= ParseAll(scheme, ids).value
    decreases |ids| - k
  {
    if k == |ids| {
      assert ids[..k] == ids;
    } else {
      ParsedPrefix(scheme, ids, k + 1);
      ParsedInit(scheme, ids[..k + 1]);
      assert ids[..k + 1][..k] == ids[..k];
    }
  }

  lemma TooHigh(scheme: Scheme, ids: seq<string>, k: nat, date: Option<Date>, slots: seq<Slot>)
    requires k <= |ids| && ParseAll(scheme, ids[..k]) == Some(slots) && NextNumber(slots, date, k) > MAX_INTEGER
    ensures NextName(scheme, ids, date) == None
  {
    if ParseAll(scheme, ids).Some? {
      ParsedPrefix(scheme, ids, k);
      SamePrefix(slots, ParseAll(scheme, ids).value, date, k);
      NextNumberGrows(ParseAll(scheme, ids).value, date, k, |ids|);
    }
  }

  lemma TooYoung(scheme: Scheme, ids: seq<string>, k: nat, date: Date, slots: seq<Slot>)
    requires k < |ids| && ParseAll(scheme, ids[..k + 1]) == Some(slots)
    requires slots[k].date.Some? && CompareTimestamps(slots[k].date.value, date) > 0
    ensures NextName(scheme, ids, Some(date)) == None
  {
    if ParseAll(scheme, ids).Some? {
      ParsedPrefix(scheme, ids, k + 1);
      assert ParseAll(scheme, ids).value[k] == slots[k];
    }
  }

  // One turn of the loop in process_timestamp_slots.
  method CheckSlot(s: Slot, date: Date, next: nat) returns (tooYoung: bool, following: nat)
    requires s.date.Some?
    ensures tooYoung == (CompareTimestamps(s.date.value, date) > 0)
    ensures !tooYoung ==>
              following == if s.date == Some(date) && s.sequenceNumber >= next then s.sequenceNumber + 1 else next
  {
    var cmp := CompareTimestamps(s.date.value, date);
    tooYoung, following := cmp >= 1, next;
    if cmp == 0 && s.sequenceNumber >= next {
      following := s.sequenceNumber + 1;
    }
  }

  // Reads the name of one slot.
  method ReadTimestamp(ids: seq<string>, k: nat, slots: seq<Slot>,
                       ghost scheme: Scheme) returns (slotFound: Option<Slot>)
    requires k < |ids| && ParseAll(scheme, ids[..k]) == Some(slots)
    requires scheme.parse(ids[k]) == ParseTimestamp(ids[k], true)
    ensures match slotFound
            case None => ParseAll(scheme, ids) == None
            case Some(s) => s.date.Some? && ParseAll(scheme, ids[..k + 1]) == Some(slots + [s])
  {
    assert ids[..k + 1][..k] == ids[..k];
    slotFound := ParseTimestamp(ids[k], true);
    if slotFound.None? {
      UnparsedPrefix(scheme, ids, k + 1);
    }
  }

  // The loop of process_timestamp_slots.
  method ScanTimestamps(ids: seq<string>, date: Date, ghost scheme: Scheme) returns (ok: bool, slots: seq<Slot>,
                        next: nat)
    requires forall k {:trigger scheme.parse(ids[k])} :: 0 <= k < |ids| ==>
             scheme.parse(ids[k]) == ParseTimestamp(ids[k], true)
    ensures !ok ==> NextName(scheme, ids, Some(date)) == None
    ensures ok ==> ParseAll(scheme, ids) == Some(slots) && NoneYounger(slots, Some(date))
    ensures ok ==> next == NextNumber(slots, Some(date), |slots|) <= MAX_INTEGER
  {
    hide ParseTimestamp, NextSlot;
    ok, slots, next := true, [], FIRST_TIMESTAMP_SEQUENCE_NUMBER - 1;
    for k := 0 to |ids|
      invariant ok && ParseAll(scheme, ids[..k]) == Some(slots) && NoneYounger(slots, Some(date))
      invariant next == NextNumber(slots, Some(date), k) <= MAX_INTEGER
    {
      var slotFound := ReadTimestamp(ids, k, slots, scheme);
      if slotFound.None? {
        return false, slots, next;
      }
      ghost var before := slots;
      slots := slots + [slotFound.value];
      SamePrefix(before, slots, Some(date), k);
      var tooYoung, following := CheckSlot(slotFound.value, date, next);
      if tooYoung {
        TooYoung(scheme, ids, k, date, slots);
        return false, slots, next;
      }
      next := following;
      if next > MAX_INTEGER {
        TooHigh(scheme, ids, k + 1, Some(date), slots);
        return false, slots, next;
      }
    }
    assert ids[..|ids|] == ids;
  }

  // process_timestamp_slots for a new slot.
  method ProcessTimestampSlots(ids: seq<string>, date: Date) returns (slots: seq<Slot>, name: Option<string>)
    ensures name == NextName(DateScheme(), ids, Some(date))
    ensures name.Some? ==> ParseAll(DateScheme(), ids) == Some(slots)
  {
    var ok, next;
    ok, slots, next := ScanTimestamps(ids, date, DateScheme());
    name := if ok then Some(TimestampName(date, next)) else None;
  }
}
