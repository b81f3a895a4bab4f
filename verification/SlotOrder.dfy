// RotateDir.pl: sorting slots by age, with Perl's sort and compare_slots.
module SlotOrder {
  import opened Wrappers
  import opened SlotNames

  ghost predicate Increasing(s: seq<Slot>) {
    forall i, j {:trigger Older(s[i], s[j])} :: 0 <= i < j < |s| ==> Older(s[i], s[j])
  }

  ghost predicate Dated(s: seq<Slot>, dated: bool) {
    forall i :: 0 <= i < |s| ==> s[i].date.Some? == dated
  }

  ghost predicate SameElements(a: seq<Slot>, b: seq<Slot>) {
    forall s :: s in a <==> s in b
  }

  function InsertSlot(sorted: seq<Slot>, s: Slot): Option<seq<Slot>> {
    if sorted == [] then Some([s])
    else
      var c := CompareSlots(s, sorted[0]);
      if c == 0 then None
      else if c < 0 then Some([s] + sorted)
      else
        var rest := InsertSlot(sorted[1..], s);
        if rest.None? then None else Some([sorted[0]] + rest.value)
  }

  // sort; None is the error about a duplicate.
  function SortSlots(slots: seq<Slot>): Option<seq<Slot>> {
    if slots == [] then Some([])
    else
      var init := SortSlots(slots[..|slots| - 1]);
      if init.None? then None else InsertSlot(init.value, slots[|slots| - 1])
  }

  lemma CompareIsAntisymmetric(a: Slot, b: Slot)
    requires SameScheme(a, b)
    ensures CompareSlots(a, b) == -CompareSlots(b, a)
  {
  }

  lemma {:induction false} InsertedSlot(sorted: seq<Slot>, s: Slot, dated: bool)
    requires Increasing(sorted) && Dated(sorted + [s], dated)
    ensures match InsertSlot(sorted, s)
            case None => exists i :: 0 <= i < |sorted| && CompareSlots(s, sorted[i]) == 0
            case Some(r) => Increasing(r) && Dated(r, dated) && SameElements(r, sorted + [s]) && |r| == |sorted| + 1
    decreases |sorted|
  {
    if sorted == [] {
      assert (sorted + [s])[0] == s;
      return;
    }
    assert sorted == [sorted[0]] + sorted[1..];
    assert (sorted + [s])[|sorted|] == s && (sorted + [s])[0] == sorted[0];
    CompareIsAntisymmetric(s, sorted[0]);
    var c := CompareSlots(s, sorted[0]);
    if c < 0 {
      forall i | 1 <= i < |sorted| ensures Older(s, sorted[i]) {
        assert (sorted + [s])[i] == sorted[i];
        OlderIsTransitive(s, sorted[0], sorted[i]);
      }
      forall i | 0 <= i <= |sorted| ensures ([s] + sorted)[i].date.Some? == dated {
        assert i > 0 ==> (sorted + [s])[i - 1] == sorted[i - 1];
      }
    } else if c > 0 {
      forall i | 0 <= i < |sorted| ensures (sorted[1..] + [s])[i].date.Some? == dated {
        assert (sorted[1..] + [s])[i] == (sorted + [s])[i + 1];
      }
      InsertedSlot(sorted[1..], s, dated);
      if InsertSlot(sorted[1..], s).Some? {
        InsertedBehind(sorted, s, dated);
      } else {
        var i :| 0 <= i < |sorted| - 1 && CompareSlots(s, sorted[1..][i]) == 0;
        assert CompareSlots(s, sorted[i + 1]) == 0;
      }
    }
  }

  lemma InsertedBehind(sorted: seq<Slot>, s: Slot, dated: bool)
    requires sorted != [] && Increasing(sorted) && CompareSlots(sorted[0], s) < 0 && sorted[0].date.Some? == dated
    requires CompareSlots(s, sorted[0]) > 0
    requires InsertSlot(sorted[1..], s).Some?
    requires var r := InsertSlot(sorted[1..], s).value;
             Increasing(r) && Dated(r, dated) && SameElements(r, sorted[1..] + [s]) && |r| == |sorted|
    ensures var r := InsertSlot(sorted, s).value;
            Increasing(r) && Dated(r, dated) && SameElements(r, sorted + [s]) && |r| == |sorted| + 1
  {
    var rest := InsertSlot(sorted[1..], s).value;
    var r := [sorted[0]] + rest;
    forall j | 0 <= j < |rest| ensures Older(sorted[0], rest[j]) {
      assert rest[j] in sorted[1..] + [s];
    }
    forall x ensures x in r <==> x in sorted + [s] {
      assert x in sorted <==> x == sorted[0] || x in sorted[1..];
      assert x in rest <==> x in sorted[1..] + [s];
    }
  }

  ghost predicate HasDuplicate(slots: seq<Slot>) {
    exists i, j :: 0 <= i < j < |slots| && CompareSlots(slots[i], slots[j]) == 0
  }

  // Sorting succeeds exactly without duplicates, and then puts all slots in order of age.
  lemma {:induction false} SortedSlots(slots: seq<Slot>, dated: bool)
    requires Dated(slots, dated)
    ensures SortSlots(slots).None? <==> HasDuplicate(slots)
    ensures SortSlots(slots).Some? ==>
              var r := SortSlots(slots).value;
              Increasing(r) && Dated(r, dated) && SameElements(r, slots) && |r| == |slots|
  {
    if slots != [] {
      var init, last := slots[..|slots| - 1], slots[|slots| - 1];
      assert slots == init + [last];
      SortedSlots(init, dated);
      if SortSlots(init).Some? {
        SortedLast(init, last, dated);
      }
    }
  }

  lemma SortedLast(init: seq<Slot>, last: Slot, dated: bool)
    requires Dated(init + [last], dated) && SortSlots(init).Some? && !HasDuplicate(init)
    requires var r := SortSlots(init).value;
             Increasing(r) && Dated(r, dated) && SameElements(r, init) && |r| == |init|
    ensures SortSlots(init + [last]).None? <==> HasDuplicate(init + [last])
    ensures SortSlots(init + [last]).Some? ==>
              var r := SortSlots(init + [last]).value;
              Increasing(r) && Dated(r, dated) && SameElements(r, init + [last]) && |r| == |init| + 1
  {
    var slots, r := init + [last], SortSlots(init).value;
    assert slots[..|slots| - 1] == init && slots[|init|] == last;
    InsertedSlot(r, last, dated);
    if InsertSlot(r, last).None? {
      var i :| 0 <= i < |r| && CompareSlots(last, r[i]) == 0;
      assert r[i] in init;
      var k :| 0 <= k < |init| && init[k] == r[i];
      CompareIsAntisymmetric(last, r[i]);
      assert slots[k] == init[k] && CompareSlots(slots[k], slots[|init|]) == 0;
    } else {
      NoNewDuplicate(r, last, dated);
      forall k | 0 <= k < |init| ensures CompareSlots(slots[k], last) != 0 {
        assert init[k] in r;
      }
    }
  }

  // An element that has been inserted differs from all others.
  lemma {:induction false} NoNewDuplicate(sorted: seq<Slot>, s: Slot, dated: bool)
    requires Increasing(sorted) && Dated(sorted, dated) && s.date.Some? == dated && InsertSlot(sorted, s).Some?
    ensures forall x :: x in sorted ==> CompareSlots(x, s) != 0
    decreases |sorted|
  {
    if sorted != [] {
      CompareIsAntisymmetric(s, sorted[0]);
      if CompareSlots(s, sorted[0]) > 0 {
        NoNewDuplicate(sorted[1..], s, dated);
      }
      forall x | x in sorted ensures CompareSlots(x, s) != 0 {
        var i :| 0 <= i < |sorted| && sorted[i] == x;
        if i > 0 {
          assert x == sorted[1..][i - 1];
          if CompareSlots(s, sorted[0]) < 0 {
            OlderIsTransitive(s, sorted[0], x);
            CompareIsAntisymmetric(s, x);
          }
        }
      }
    }
  }

  // Slots can only be in order in one way.
  lemma {:induction false} OrderIsUnique(a: seq<Slot>, b: seq<Slot>, dated: bool)
    requires Increasing(a) && Increasing(b) && Dated(a, dated) && Dated(b, dated) && SameElements(a, b)
    ensures a == b
    decreases |a|
  {
    assert a != [] ==> a[0] in a;
    assert b != [] ==> b[0] in b;
    if a == [] {
      return;
    }
    FirstIsFirst(a, b, dated);
    forall s ensures s in a[1..] <==> s in b[1..] {
      NotFirst(a, s);
      NotFirst(b, s);
    }
    OrderIsUnique(a[1..], b[1..], dated);
  }

  lemma FirstIsFirst(a: seq<Slot>, b: seq<Slot>, dated: bool)
    requires Increasing(a) && Increasing(b) && Dated(a, dated) && Dated(b, dated)
    requires a != [] && b != [] && a[0] in b && b[0] in a
    ensures a[0] == b[0]
  {
    var i :| 0 <= i < |b| && b[i] == a[0];
    var j :| 0 <= j < |a| && a[j] == b[0];
    if i > 0 && j > 0 {
      assert Older(a[0], a[j]) && Older(b[0], b[i]);
      CompareIsAntisymmetric(a[0], b[0]);
      assert false;
    }
  }

  lemma NotFirst(a: seq<Slot>, s: Slot)
    requires a != [] && Increasing(a)
    ensures s in a[1..] <==> s in a && s != a[0]
  {
    if s in a && s != a[0] {
      var i :| 0 <= i < |a| && a[i] == s;
      assert a[1..][i - 1] == s;
    }
    if s in a[1..] {
      var i :| 0 <= i < |a[1..]| && a[1..][i] == s;
      assert Older(a[0], a[i + 1]);
    }
  }
}
