// RotateDir.pl: the containing directory, over all rotations.
module Rotation {
  import opened Wrappers
  import opened SlotNames
  import opened SlotOrder
  import opened RotateDir

  function Ids(slots: seq<Slot>): set<string> {
    set s | s in slots :: s.id
  }

  function Last(slots: seq<Slot>, n: nat): seq<Slot> {
    if |slots| <= n then slots else slots[|slots| - n..]
  }

  // A directory scan: every slot's name once, in any order.
  ghost predicate Listing(scan: seq<string>, names: set<string>) {
    && (forall id :: id in scan <==> id in names)
    && forall i, j :: 0 <= i < j < |scan| ==> scan[i] != scan[j]
  }

  // ----- Deleting -----

  // What delete_old_slots leaves behind; None is its error about a duplicate.
  function Kept(slots: seq<Slot>, slotCount: nat): Option<seq<Slot>>
    requires slotCount >= 1
  {
    if |slots| < slotCount then Some(slots)
    else
      var sorted := SortSlots(slots);
      if sorted.None? then None else Some(Last(sorted.value, slotCount - 1))
  }

  lemma DifferentIds(scheme: Scheme, a: Slot, b: Slot)
    requires Sound(scheme)
    requires scheme.parse(a.id) == Some(a) && scheme.parse(b.id) == Some(b) && Older(a, b)
    ensures a.id != b.id
  {
  }

  ghost predicate DistinctIds(s: seq<Slot>) {
    forall i, j :: 0 <= i < j < |s| ==> s[i].id != s[j].id
  }

  lemma InOrderHasDistinctIds(scheme: Scheme, s: seq<Slot>)
    requires Sound(scheme)
    requires AllOf(scheme, s) && Increasing(s)
    ensures DistinctIds(s)
  {
    forall i, j | 0 <= i < j < |s| ensures s[i].id != s[j].id {
      DifferentIds(scheme, s[i], s[j]);
    }
  }

  lemma WithoutFirst(s: seq<Slot>)
    requires s != [] && DistinctIds(s)
    ensures Ids(s) - {s[0].id} == Ids(s[1..])
  {
    assert s == [s[0]] + s[1..];
    forall id ensures id in Ids(s[1..]) <==> id in Ids(s) && id != s[0].id {
    }
  }

  // ----- History -----

  // The slots created so far, oldest first, and what should be on disk.
  ghost predicate InHistory(scheme: Scheme, slotCount: nat, created: seq<Slot>, names: set<string>) {
    && slotCount >= 2
    && AllOf(scheme, created) && Increasing(created) && Numbered(scheme, created) && Named(scheme, created)
    && names == Ids(Last(created, slotCount))
  }

  ghost predicate Numbered(scheme: Scheme, created: seq<Slot>) {
    forall i :: 0 <= i < |created| ==>
      if !scheme.dated then created[i].sequenceNumber == i + 1 else created[i].sequenceNumber <= i + 1
  }

  ghost predicate Named(scheme: Scheme, created: seq<Slot>) {
    forall i {:trigger scheme.name(created[i].date, created[i].sequenceNumber)} :: 0 <= i < |created| ==>
      created[i].id == scheme.name(created[i].date, created[i].sequenceNumber)
  }

  lemma ScanIsAllOf(scheme: Scheme, scan: seq<string>)
    requires Sound(scheme)
    requires ParseAll(scheme, scan).Some?
    ensures AllOf(scheme, ParseAll(scheme, scan).value)
    ensures Dated(ParseAll(scheme, scan).value, scheme.dated)
    ensures forall i :: 0 <= i < |scan| ==> ParseAll(scheme, scan).value[i].id == scan[i]
  {
    forall i | 0 <= i < |scan|
      ensures scheme.parse(scan[i]) == Some(ParseAll(scheme, scan).value[i])
    {
      ParsedAt(scheme, scan, i);
    }
  }

  // What is found on disk is the last slots created.
  lemma ScanOfHistory(scheme: Scheme, slotCount: nat, created: seq<Slot>, names: set<string>, scan: seq<string>)
    requires Sound(scheme)
    requires InHistory(scheme, slotCount, created, names) && Listing(scan, names)
    ensures ParseAll(scheme, scan).Some?
    ensures SameElements(ParseAll(scheme, scan).value, Last(created, slotCount))
  {
    var last := Last(created, slotCount);
    forall i | 0 <= i < |scan| ensures scheme.parse(scan[i]).Some? {
      assert scan[i] in Ids(last);
      var s :| s in last && s.id == scan[i];
      assert s in created;
    }
    AllParsed(scheme, scan);
    var slots := ParseAll(scheme, scan).value;
    ScanIsAllOf(scheme, scan);
    forall s ensures s in slots <==> s in last {
      if s in slots {
        var i :| 0 <= i < |slots| && slots[i] == s;
        assert scan[i] in Ids(last);
        var t :| t in last && t.id == scan[i];
        assert t in created;
      }
      if s in last {
        assert s in created && s.id in Ids(last);
        assert s.id in scan;
        var i :| 0 <= i < |scan| && scan[i] == s.id;
        assert slots[i] in slots;
      }
    }
  }

  lemma DatedHistory(scheme: Scheme, n: nat, created: seq<Slot>)
    requires Sound(scheme)
    requires AllOf(scheme, created)
    ensures Dated(Last(created, n), scheme.dated)
  {
    var last := Last(created, n);
    forall i | 0 <= i < |last| ensures last[i].date.Some? == scheme.dated {
      assert last[i] in created;
      HasScheme(scheme, last[i]);
    }
  }

  // So sorting puts them back into the order of creation.
  lemma SortedHistory(scheme: Scheme, slotCount: nat, created: seq<Slot>, names: set<string>, scan: seq<string>)
    requires Sound(scheme)
    requires InHistory(scheme, slotCount, created, names) && Listing(scan, names)
    ensures ParseAll(scheme, scan).Some? && SortSlots(ParseAll(scheme, scan).value) == Some(Last(created, slotCount))
  {
    ScanOfHistory(scheme, slotCount, created, names, scan);
    ScanIsAllOf(scheme, scan);
    var slots, last, dated := ParseAll(scheme, scan).value, Last(created, slotCount), scheme.dated;
    assert Increasing(last);
    SortedSlots(slots, dated);
    DatedHistory(scheme, slotCount, created);
    NoDuplicates(scan, slots, last, dated);
    OrderIsUnique(SortSlots(slots).value, last, dated);
  }

  lemma NoDuplicates(scan: seq<string>, slots: seq<Slot>, last: seq<Slot>, dated: bool)
    requires |slots| == |scan| && forall i :: 0 <= i < |scan| ==> slots[i].id == scan[i]
    requires forall i, j :: 0 <= i < j < |scan| ==> scan[i] != scan[j]
    requires Increasing(last) && Dated(last, dated) && SameElements(slots, last)
    ensures !HasDuplicate(slots)
  {
    if HasDuplicate(slots) {
      var i, j :| 0 <= i < j < |slots| && CompareSlots(slots[i], slots[j]) == 0;
      assert slots[i] in slots && slots[j] in slots;
      NoDuplicateIn(last, slots[i], slots[j], dated);
      assert false;
    }
  }

  lemma NoDuplicateIn(s: seq<Slot>, a: Slot, b: Slot, dated: bool)
    requires Increasing(s) && Dated(s, dated) && a in s && b in s && CompareSlots(a, b) == 0
    ensures a == b
  {
    var i :| 0 <= i < |s| && s[i] == a;
    var j :| 0 <= j < |s| && s[j] == b;
    assert i < j ==> Older(s[i], s[j]);
    assert j < i ==> Older(s[j], s[i]);
    CompareIsAntisymmetric(a, b);
  }

  predicate NotBefore(slots: seq<Slot>, date: Option<Date>) {
    slots != [] && slots[|slots| - 1].date.Some? && date.Some? ==>
      CompareTimestamps(slots[|slots| - 1].date.value, date.value) <= 0
  }

  lemma DatesAreTransitive(a: Date, b: Date, c: Date)
    requires CompareTimestamps(a, b) <= 0 && CompareTimestamps(b, c) <= 0
    ensures CompareTimestamps(a, c) <= 0
  {
  }

  lemma NoneYoungerThanLast(slots: seq<Slot>, created: seq<Slot>, date: Option<Date>, dated: bool)
    requires Increasing(created) && Dated(created, dated) && NotBefore(created, date) && date.Some? == dated
    requires forall s :: s in slots ==> s in created
    ensures NoneYounger(slots, date)
  {
    if dated {
      forall i | 0 <= i < |slots| && slots[i].date.Some?
        ensures CompareTimestamps(slots[i].date.value, date.value) <= 0
      {
        assert slots[i] in slots;
        var j :| 0 <= j < |created| && created[j] == slots[i];
        var last := created[|created| - 1];
        if j < |created| - 1 {
          assert Older(created[j], last);
        }
        DatesAreTransitive(slots[i].date.value, last.date.value, date.value);
      }
    }
  }

  // The number of the next slot stays within what has been created.
  lemma NumberInHistory(scheme: Scheme, slotCount: nat, created: seq<Slot>, slots: seq<Slot>, date: Option<Date>)
    requires Numbered(scheme, created) && SameElements(slots, Last(created, slotCount)) && slotCount >= 2
    requires date.Some? == scheme.dated && Dated(slots, date.Some?)
    ensures var m := NextNumber(slots, date, |slots|);
            if !scheme.dated then m == |created| + 1 else m <= |created| + 1
  {
    hide NextNumber;
    NumberNotTooHigh(scheme, slotCount, created, slots, date);
    if !scheme.dated && created != [] {
      NextNumberIsNext(slots, date, |slots|);
      var newest := created[|created| - 1];
      assert newest == Last(created, slotCount)[|Last(created, slotCount)| - 1];
      var i := IndexOf(slots, newest);
    }
  }

  lemma NumberNotTooHigh(scheme: Scheme, slotCount: nat, created: seq<Slot>, slots: seq<Slot>, date: Option<Date>)
    requires Numbered(scheme, created) && SameElements(slots, Last(created, slotCount))
    ensures NextNumber(slots, date, |slots|) <= |created| + 1
  {
    var m := NextNumber(slots, date, |slots|);
    NextNumberIsNext(slots, date, |slots|);
    if m > 1 {
      var i :| 0 <= i < |slots| && slots[i].sequenceNumber == m - 1;
      assert slots[i] in slots;
      var j := IndexOf(created, slots[i]);
    }
  }

  lemma IndexOf(slots: seq<Slot>, s: Slot) returns (i: nat)
    requires s in slots
    ensures i < |slots| && slots[i] == s
  {
    i :| 0 <= i < |slots| && slots[i] == s;
  }

  lemma LastOfExtended(created: seq<Slot>, newest: Slot, n: nat)
    requires n >= 1
    ensures Last(created + [newest], n) == Last(Last(created, n), n - 1) + [newest]
  {
  }

  lemma IdsOfExtended(slots: seq<Slot>, newest: Slot)
    ensures Ids(slots + [newest]) == Ids(slots) + {newest.id}
  {
    forall id ensures id in Ids(slots + [newest]) <==> id in Ids(slots) + {newest.id} {
      if id in Ids(slots) {
        var s :| s in slots && s.id == id;
        assert s in slots + [newest];
      }
      if id == newest.id {
        assert newest in slots + [newest];
      }
    }
  }

  lemma IdsOfSame(a: seq<Slot>, b: seq<Slot>)
    requires SameElements(a, b)
    ensures Ids(a) == Ids(b)
  {
  }

  lemma AllOfSame(scheme: Scheme, a: seq<Slot>, b: seq<Slot>)
    requires SameElements(a, b) && AllOf(scheme, b)
    ensures AllOf(scheme, a)
  {
    forall i | 0 <= i < |a| ensures scheme.parse(a[i].id) == Some(a[i]) {
      assert a[i] in a;
      var j := IndexOf(b, a[i]);
    }
  }

  lemma NewestOfAll(scheme: Scheme, created: seq<Slot>, newest: Slot)
    requires Sound(scheme)
    requires AllOf(scheme, created) && Increasing(created) && scheme.parse(newest.id) == Some(newest)
    requires created != [] ==> Older(created[|created| - 1], newest)
    ensures AllOf(scheme, created + [newest]) && Increasing(created + [newest])
  {
    HasScheme(scheme, newest);
    forall i | 0 <= i < |created| ensures Older(created[i], newest) {
      HasScheme(scheme, created[i]);
      HasScheme(scheme, created[|created| - 1]);
      if i < |created| - 1 {
        OlderIsTransitive(created[i], created[|created| - 1], newest);
      }
    }
  }

  lemma LastIsOlder(created: seq<Slot>, n: nat, slots: seq<Slot>, newest: Slot)
    requires n >= 1 && SameElements(slots, Last(created, n)) && forall i :: 0 <= i < |slots| ==> Older(slots[i], newest)
    ensures created != [] ==> Older(created[|created| - 1], newest)
  {
    if created != [] {
      var last := Last(created, n);
      var i := IndexOf(slots, last[|last| - 1]);
    }
  }

  lemma NextInHistory(scheme: Scheme, slotCount: nat, created: seq<Slot>, names: set<string>, slots: seq<Slot>,
                      date: Option<Date>)
    requires Sound(scheme)
    requires InHistory(scheme, slotCount, created, names) && |created| < MAX_INTEGER
    requires AllOf(scheme, slots) && Dated(slots, scheme.dated) && SameElements(slots, Last(created, slotCount))
    requires date.Some? == scheme.dated && (date.Some? ==> GoodDate(date.value)) && NotBefore(created, date)
    ensures NextSlot(scheme, slots, date).Some?
    ensures var longer := created + [NextSlot(scheme, slots, date).value];
            AllOf(scheme, longer) && Increasing(longer) && Numbered(scheme, longer)
  {
    DatedHistory(scheme, |created|, created);
    NoneYoungerThanLast(slots, created, date, scheme.dated);
    NumberInHistory(scheme, slotCount, created, slots, date);
    NextSlotIsNewest(scheme, slots, date);
    var newest := NextSlot(scheme, slots, date).value;
    LastIsOlder(created, slotCount, slots, newest);
    NewestOfAll(scheme, created, newest);
  }

  lemma KeptInHistory(slotCount: nat, created: seq<Slot>, slots: seq<Slot>, newest: Slot, dated: bool)
    requires slotCount >= 2 && Dated(slots, dated) && SortSlots(slots) == Some(Last(created, slotCount))
    ensures Kept(slots, slotCount).Some?
    ensures Ids(Kept(slots, slotCount).value) + {newest.id} == Ids(Last(created + [newest], slotCount))
  {
    var last := Last(created, slotCount);
    SortedSlots(slots, dated);
    LastOfExtended(created, newest, slotCount);
    if |slots| < slotCount {
      IdsOfSame(slots, last);
    }
    IdsOfExtended(Last(last, slotCount - 1), newest);
  }

  // A rotation, with a date that is not before the last one, succeeds, and continues the history.
  lemma HistoryGoesOn(scheme: Scheme, slotCount: nat, created: seq<Slot>, names: set<string>, scan: seq<string>,
                      date: Option<Date>)
    requires Sound(scheme)
    requires InHistory(scheme, slotCount, created, names) && Listing(scan, names) && |created| < MAX_INTEGER
    requires date.Some? == scheme.dated && (date.Some? ==> GoodDate(date.value)) && NotBefore(created, date)
    ensures ParseAll(scheme, scan).Some?
    ensures var slots := ParseAll(scheme, scan).value;
            && NextSlot(scheme, slots, date).Some? && Kept(slots, slotCount).Some?
            && var newest := NextSlot(scheme, slots, date).value;
               InHistory(scheme, slotCount, created + [newest], Ids(Kept(slots, slotCount).value) + {newest.id})
  {
    ScanOfHistory(scheme, slotCount, created, names, scan);
    SortedHistory(scheme, slotCount, created, names, scan);
    ScanIsAllOf(scheme, scan);
    var slots := ParseAll(scheme, scan).value;
    NextInHistory(scheme, slotCount, created, names, slots, date);
    KeptInHistory(slotCount, created, slots, NextSlot(scheme, slots, date).value, scheme.dated);
  }

  // With plain sequence numbers, the disk holds the last numbers counted ...
  lemma RecentNumberIsThere(slotCount: nat, created: seq<Slot>, names: set<string>, n: nat)
    requires InHistory(SequenceScheme(), slotCount, created, names) && |created| - slotCount < n <= |created| && 0 < n
    ensures Decimal(n) in names
  {
    var last := Last(created, slotCount);
    SequenceSchemeIsSound();
    DatedHistory(SequenceScheme(), |created|, created);
    var s := created[n - 1];
    assert s == last[n - 1 - (|created| - |last|)];
    assert s.id == SequenceScheme().name(s.date, s.sequenceNumber) && s in last;
  }

  // ... and nothing else.
  lemma OnlyRecentNumbers(slotCount: nat, created: seq<Slot>, names: set<string>, id: string) returns (n: nat)
    requires InHistory(SequenceScheme(), slotCount, created, names) && id in names
    ensures |created| - slotCount < n <= |created| && 0 < n && id == Decimal(n)
  {
    var last := Last(created, slotCount);
    SequenceSchemeIsSound();
    DatedHistory(SequenceScheme(), |created|, created);
    var s :| s in last && s.id == id;
    var i := IndexOf(last, s);
    n := |created| - |last| + i + 1;
    assert created[n - 1] == s && s.id == SequenceScheme().name(s.date, s.sequenceNumber);
  }

  // ----- One rotation of any directory -----

  // The date asked for; the error is that of parsing it.
  function RequestedDate(scheme: Scheme, timestamp: string): (r: Option<Option<Date>>)
    ensures r.Some? ==> r.value.Some? == scheme.dated && (r.value.Some? ==> GoodDate(r.value.value))
  {
    if !scheme.dated then Some(None)
    else if ParseTimestamp(timestamp, false).None? then None
    else Some(ParseTimestamp(timestamp, false).value.date)
  }

  // The slots that stay and the one that is created; None is any error.
  function Rotated(scheme: Scheme, slotCount: nat, scan: seq<string>, timestamp: string): Option<(seq<Slot>, Slot)> {
    var slots, date := ParseAll(scheme, scan), RequestedDate(scheme, timestamp);
    if slotCount < 2 || slots.None? || date.None? then None
    else if NextSlot(scheme, slots.value, date.value).None? || Kept(slots.value, slotCount).None? then None
    else Some((Kept(slots.value, slotCount).value, NextSlot(scheme, slots.value, date.value).value))
  }

  // Of the slots there are, the newest stay, up to one fewer than the slot count, and the new one
  // is newer than all.
  lemma NewestStay(scheme: Scheme, slotCount: nat, scan: seq<string>, timestamp: string)
    requires Sound(scheme)
    requires Rotated(scheme, slotCount, scan, timestamp).Some?
    ensures var slots, (kept, newest) :=
             ParseAll(scheme, scan).value, Rotated(scheme, slotCount, scan, timestamp).value;
            && |kept| == (if |scan| < slotCount then |scan| else slotCount - 1)
            && (forall s :: s in kept ==> s in slots)
            && (forall s :: s in slots ==> Older(s, newest) && (s in kept || forall k :: k in kept ==> Older(s, k)))
  {
    var slots := ParseAll(scheme, scan).value;
    var (kept, newest) := Rotated(scheme, slotCount, scan, timestamp).value;
    ScanIsAllOf(scheme, scan);
    NextSlotIsNewest(scheme, slots, RequestedDate(scheme, timestamp).value);
    forall s | s in slots ensures Older(s, newest) {
      var i := IndexOf(slots, s);
    }
    if |slots| >= slotCount {
      SortedSlots(slots, scheme.dated);
      LastIsNewest(SortSlots(slots).value, slots, slotCount - 1);
    }
  }

  lemma LastIsNewest(sorted: seq<Slot>, slots: seq<Slot>, n: nat)
    requires Increasing(sorted) && SameElements(sorted, slots)
    ensures forall s :: s in Last(sorted, n) ==> s in slots
    ensures forall s :: s in slots ==> s in Last(sorted, n) || forall k :: k in Last(sorted, n) ==> Older(s, k)
  {
    var kept := Last(sorted, n);
    forall s | s in kept ensures s in slots {
      assert s in sorted;
    }
    forall s | s in slots ensures s in kept || forall k :: k in kept ==> Older(s, k) {
      var j := IndexOf(sorted, s);
      if j >= |sorted| - |kept| {
        assert kept[j - (|sorted| - |kept|)] == s;
      }
    }
  }

  // A new name is never taken.
  lemma NewNameIsFree(scheme: Scheme, slotCount: nat, scan: seq<string>, timestamp: string)
    requires Sound(scheme)
    requires Rotated(scheme, slotCount, scan, timestamp).Some?
    ensures Rotated(scheme, slotCount, scan, timestamp).value.1.id !in scan
  {
    var slots, date := ParseAll(scheme, scan).value, RequestedDate(scheme, timestamp).value;
    ScanIsAllOf(scheme, scan);
    NextSlotIsNewest(scheme, slots, date);
    var newest := NextSlot(scheme, slots, date).value;
    forall i | 0 <= i < |scan| ensures scan[i] != newest.id {
      DifferentIds(scheme, slots[i], newest);
    }
  }

  lemma NewNameIsASlot(scheme: Scheme, slotCount: nat, scan: seq<string>, timestamp: string)
    requires Sound(scheme) && Rotated(scheme, slotCount, scan, timestamp).Some?
    ensures scheme.parse(Rotated(scheme, slotCount, scan, timestamp).value.1.id).Some?
  {
    ScanIsAllOf(scheme, scan);
    NextSlotIsNewest(scheme, ParseAll(scheme, scan).value, RequestedDate(scheme, timestamp).value);
  }

  // ----- The directory -----

  function SchemeOf(byDate: bool): Scheme {
    if byDate then DateScheme() else SequenceScheme()
  }

  lemma SchemesAreSound(byDate: bool)
    ensures Sound(SchemeOf(byDate))
  {
    SequenceSchemeIsSound();
    DateSchemeIsSound();
  }

  class BaseDir {
    const byDate: bool
    const slotCount: nat
    const scheme: Scheme := SchemeOf(byDate)
    var names: set<string>        // of the slots, without their common prefix
    const otherFiles: set<string>  // with that prefix that are no directories
    ghost var created: seq<Slot>

    constructor (byDate: bool, slotCount: nat, otherFiles: set<string>)
      ensures this.byDate == byDate && this.slotCount == slotCount && this.otherFiles == otherFiles
      ensures names == {} && created == []
      ensures slotCount >= 2 ==> InHistory(scheme, slotCount, created, names)
    {
      this.byDate, this.slotCount, this.otherFiles := byDate, slotCount, otherFiles;
      names, created := {}, [];
    }

    // scan_slots
    method ScanSlots() returns (scan: seq<string>)
      ensures Listing(scan, names)
    {
      scan := [];
      var rest := names;
      while rest != {}
        invariant Listing(scan, names - rest) && rest <= names
        decreases |rest|
      {
        var id :| id in rest;
        scan := scan + [id];
        rest := rest - {id};
      }
    }

    // delete_old_slots
    method DeleteOldSlots(slots: seq<Slot>) returns (ok: bool)
      requires Sound(scheme) && AllOf(scheme, slots) && Dated(slots, scheme.dated)
      requires names == Ids(slots) && slotCount >= 1
      modifies this`names
      ensures match Kept(slots, slotCount)
              case None => !ok && names == old(names)
              case Some(kept) => ok && names == Ids(kept)
    {
      if |slots| < slotCount {
        return true;
      }
      SortedSlots(slots, scheme.dated);
      var sorted := SortSlots(slots);
      if sorted.None? {
        return false;
      }
      IdsOfSame(sorted.value, slots);
      AllOfSame(scheme, sorted.value, slots);
      InOrderHasDistinctIds(scheme, sorted.value);
      var toDelete := sorted.value[..|slots| - (slotCount - 1)];
      DeleteAll(toDelete, sorted.value);
      ok := true;
    }

    method DeleteAll(toDelete: seq<Slot>, ghost sorted: seq<Slot>)
      requires DistinctIds(sorted) && toDelete <= sorted && names == Ids(sorted)
      modifies this`names
      ensures names == Ids(sorted[|toDelete|..])
    {
      for k := 0 to |toDelete|
        invariant names == Ids(sorted[k..])
      {
        WithoutFirst(sorted[k..]);
        assert sorted[k..][1..] == sorted[k + 1..];
        names := names - {toDelete[k].id};
      }
    }

    // create_new_slot; false is the error that the name is taken.
    method CreateNewSlot(name: string) returns (ok: bool)
      modifies this`names
      ensures if name in old(names) + otherFiles then !ok && names == old(names) else ok && names == old(names) + {name}
    {
      ok := name !in names && name !in otherFiles;
      if ok {
        names := names + {name};
      }
    }

    // The part of main that decides on the new name.
    method Process(scan: seq<string>, timestamp: string) returns (slots: seq<Slot>, name: Option<string>,
                   ghost newest: Slot)
      ensures name.None?
         <==> (ParseAll(scheme, scan).None? || RequestedDate(scheme, timestamp).None?
               || NextSlot(scheme, ParseAll(scheme, scan).value, RequestedDate(scheme, timestamp).value).None?)
      ensures name.Some? ==> ParseAll(scheme, scan) == Some(slots) && name == Some(newest.id)
      ensures name.Some? ==> NextSlot(scheme, slots, RequestedDate(scheme, timestamp).value) == Some(newest)
    {
      slots, name, newest := [], None, Slot("", None, 0);
      if !byDate {
        slots, name := ProcessSequenceSlots(scan);
        if name.Some? {
          newest := NextSlot(scheme, slots, None).value;
        }
      } else {
        var nextTimestamp := ParseTimestamp(timestamp, false);
        if nextTimestamp.None? {
          return;
        }
        slots, name := ProcessTimestampSlots(scan, nextTimestamp.value.date.value);
        if name.Some? {
          newest := NextSlot(scheme, slots, nextTimestamp.value.date).value;
        }
      }
    }

    // main, with the options for scheme, slot count and timestamp; None is any of its errors. A file in
    // place of the new slot is only found once the old slots have been deleted.
    method Rotate(scan: seq<string>, timestamp: string) returns (newName: Option<string>)
      requires Listing(scan, names)
      modifies this
      ensures match Rotated(scheme, slotCount, scan, timestamp)
              case None => newName == None && names == old(names) && created == old(created)
              case Some((kept, newest)) =>
                if newest.id in otherFiles then newName == None && names == Ids(kept) && created == old(created)
                else
                  newName == Some(newest.id) && names == Ids(kept) + {newest.id} && created == old(created) + [newest]
    {
      if slotCount < 2 {
        return None;
      }
      var slots, name, newest := Process(scan, timestamp);
      if name.None? {
        return None;
      }
      SchemesAreSound(byDate);
      ScanIsAllOf(scheme, scan);
      IdsOfScan(scan, names, slots);
      var ok := DeleteOldSlots(slots);
      if !ok {
        return None;
      }
      NewNameIsFree(scheme, slotCount, scan, timestamp);
      NewestStay(scheme, slotCount, scan, timestamp);
      KeptIdsAreScanned(slots, Kept(slots, slotCount).value, scan);
      ok := CreateNewSlot(name.value);
      if !ok {
        return None;
      }
      created := created + [newest];
      newName := name;
    }

    // No other file has a name that a slot could have.
    ghost predicate NothingInTheWay() {
      forall name :: name in otherFiles ==> scheme.parse(name).None?
    }

    // A rotation that continues a history.
    method RotateOnce(timestamp: string, ghost date: Option<Date>)
      requires InHistory(scheme, slotCount, created, names) && |created| < MAX_INTEGER
      requires RequestedDate(scheme, timestamp) == Some(date) && NotBefore(created, date) && NothingInTheWay()
      modifies this
      ensures InHistory(scheme, slotCount, created, names)
      ensures |created| == |old(created)| + 1 && old(created) <= created && created[|created| - 1].date == date
    {
      var scan := ScanSlots();
      SchemesAreSound(byDate);
      HistoryGoesOn(scheme, slotCount, created, names, scan, date);
      NewNameIsASlot(scheme, slotCount, scan, timestamp);
      var newName := Rotate(scan, timestamp);
    }

    // Any number of rotations of a directory that starts out empty: after each of them the disk
    // holds the last slots created, at most as many as the slot count.
    method RotateRepeatedly(timestamps: seq<string>, ghost dates: seq<Option<Date>>)
      requires InHistory(scheme, slotCount, created, names) && |created| + |timestamps| < MAX_INTEGER
      requires |dates| == |timestamps| && NothingInTheWay()
      requires forall k {:trigger RequestedDate(scheme, timestamps[k])} :: 0 <= k < |timestamps| ==>
                 RequestedDate(scheme, timestamps[k]) == Some(dates[k])
      requires forall k :: 0 < k < |dates| ==> DatesInOrder(dates[k - 1], dates[k])
      requires dates != [] ==> NotBefore(created, dates[0])
      modifies this
      ensures InHistory(scheme, slotCount, created, names) && |created| == |old(created)| + |timestamps|
    {
      for k := 0 to |timestamps|
        invariant InHistory(scheme, slotCount, created, names)
        invariant |created| == |old(created)| + k
        invariant k < |dates| ==> NotBefore(created, dates[k])
      {
        RotateOnce(timestamps[k], dates[k]);
        assert k + 1 < |dates| ==> DatesInOrder(dates[k], dates[k + 1]);
      }
    }
  }

  predicate DatesInOrder(earlier: Option<Date>, later: Option<Date>) {
    earlier.Some? && later.Some? ==> CompareTimestamps(earlier.value, later.value) <= 0
  }

  lemma IdsOfScan(scan: seq<string>, names: set<string>, slots: seq<Slot>)
    requires Listing(scan, names) && |slots| == |scan| && forall i :: 0 <= i < |scan| ==> slots[i].id == scan[i]
    ensures Ids(slots) == names
  {
    forall id ensures id in Ids(slots) <==> id in names {
      if id in Ids(slots) {
        var s :| s in slots && s.id == id;
        var i := IndexOf(slots, s);
      }
      if id in names {
        assert id in scan;
        var i :| 0 <= i < |scan| && scan[i] == id;
        assert slots[i] in slots;
      }
    }
  }

  lemma KeptIdsAreScanned(slots: seq<Slot>, kept: seq<Slot>, scan: seq<string>)
    requires |slots| == |scan| && forall i :: 0 <= i < |scan| ==> slots[i].id == scan[i]
    requires forall s :: s in kept ==> s in slots
    ensures forall id :: id in Ids(kept) ==> id in scan
  {
    forall id | id in Ids(kept) ensures id in scan {
      var s :| s in kept && s.id == id;
      var i := IndexOf(slots, s);
    }
  }
}
