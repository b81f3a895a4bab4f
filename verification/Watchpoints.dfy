// rsp_or10.cpp, rsp_watchpoint: the slots for hardware breakpoints. A slot holding 0 is free.
module Watchpoints {
  import opened Wrappers
  import opened Bits

  const WATCHPOINT_ADDR_DISABLED: word := 0

  // The first of the slots from i on that holds the address or, when inserting, is free.
  function FirstSlot(slots: seq<word>, addr: word, inserting: bool, i: nat): (k: nat)
    requires i <= |slots|
    ensures i <= k <= |slots|
    decreases |slots| - i
  {
    if i == |slots| then i
    else if slots[i] == addr || (inserting && slots[i] == WATCHPOINT_ADDR_DISABLED) then i
    else FirstSlot(slots, addr, inserting, i + 1)
  }

  lemma {:induction false} FirstSlotIs(slots: seq<word>, addr: word, inserting: bool, i: nat)
    requires i <= |slots|
    ensures var k := FirstSlot(slots, addr, inserting, i);
            && (k < |slots| ==> slots[k] == addr || (inserting && slots[k] == WATCHPOINT_ADDR_DISABLED))
            && forall j :: i <= j < k ==> slots[j] != addr && (inserting ==> slots[j] != WATCHPOINT_ADDR_DISABLED)
    decreases |slots| - i
  {
    if i < |slots| {
      FirstSlotIs(slots, addr, inserting, i + 1);
    }
  }

  // The slots afterwards; None is the reply E01.
  function Inserted(slots: seq<word>, addr: word): Option<seq<word>> {
    var k := FirstSlot(slots, addr, true, 0);
    if k == |slots| then None else Some(slots[k := addr])
  }

  function Removed(slots: seq<word>, addr: word): Option<seq<word>> {
    var k := FirstSlot(slots, addr, false, 0);
    if k == |slots| then None else Some(slots[k := WATCHPOINT_ADDR_DISABLED])
  }

  // Inserting fails exactly when the address is absent and no slot is free.
  lemma InsertFailsIff(slots: seq<word>, addr: word)
    ensures Inserted(slots, addr) == None <==> addr !in slots && WATCHPOINT_ADDR_DISABLED !in slots
  {
    FirstSlotIs(slots, addr, true, 0);
  }

  // After inserting, the address is there and no other one has been lost, or has come in.
  lemma InsertKeepsOthers(slots: seq<word>, addr: word, a: word)
    requires Inserted(slots, addr).Some? && a != WATCHPOINT_ADDR_DISABLED
    ensures a in Inserted(slots, addr).value <==> a == addr || a in slots
    ensures addr in Inserted(slots, addr).value
  {
    FirstSlotIs(slots, addr, true, 0);
    var k := FirstSlot(slots, addr, true, 0);
    var after := Inserted(slots, addr).value;
    assert after[k] == addr;
    if a in slots {
      var j :| 0 <= j < |slots| && slots[j] == a;
      assert j != k ==> after[j] == a;
    }
  }

  lemma InsertTwice(slots: seq<word>, addr: word)
    requires Inserted(slots, addr).Some?
    ensures Inserted(Inserted(slots, addr).value, addr) == Inserted(slots, addr)
  {
    var after, k := Inserted(slots, addr).value, FirstSlot(slots, addr, true, 0);
    var k' := FirstSlot(after, addr, true, 0);
    FirstSlotIs(slots, addr, true, 0);
    FirstSlotIs(after, addr, true, 0);
    assert k' <= k by { assert after[k] == addr; }
    assert forall j :: 0 <= j < k ==> after[j] == slots[j];
    assert after[k := addr] == after;
  }

  lemma RemoveFailsIff(slots: seq<word>, addr: word)
    ensures Removed(slots, addr) == None <==> addr !in slots
  {
    FirstSlotIs(slots, addr, false, 0);
  }

  lemma RemoveKeepsOthers(slots: seq<word>, addr: word, a: word)
    requires Removed(slots, addr).Some? && a != WATCHPOINT_ADDR_DISABLED && a != addr
    ensures a in Removed(slots, addr).value <==> a in slots
  {
    FirstSlotIs(slots, addr, false, 0);
    var k := FirstSlot(slots, addr, false, 0);
    var after := Removed(slots, addr).value;
    if a in slots {
      var j :| 0 <= j < |slots| && slots[j] == a;
      assert after[j] == a;
    }
  }

  function Occurrences(slots: seq<word>, addr: word): nat {
    if slots == [] then 0 else Occurrences(slots[..|slots| - 1], addr) + if slots[|slots| - 1] == addr then 1 else 0
  }

  lemma {:induction false} OccursIff(slots: seq<word>, addr: word)
    ensures Occurrences(slots, addr) == 0 <==> addr !in slots
  {
    if slots != [] {
      OccursIff(slots[..|slots| - 1], addr);
      assert slots == slots[..|slots| - 1] + [slots[|slots| - 1]];
    }
  }

  lemma {:induction false} OneFewer(slots: seq<word>, addr: word, k: nat)
    requires k < |slots| && slots[k] == addr != WATCHPOINT_ADDR_DISABLED
    ensures Occurrences(slots[k := WATCHPOINT_ADDR_DISABLED], addr) == Occurrences(slots, addr) - 1
  {
    var after := slots[k := WATCHPOINT_ADDR_DISABLED];
    if k < |slots| - 1 {
      assert after[..|slots| - 1] == slots[..|slots| - 1][k := WATCHPOINT_ADDR_DISABLED];
      OneFewer(slots[..|slots| - 1], addr, k);
    } else {
      assert after[..|slots| - 1] == slots[..|slots| - 1];
    }
  }

  // Removing takes away one occurrence, so the address is gone exactly when it was there once.
  lemma RemovedIsGoneIff(slots: seq<word>, addr: word)
    requires Removed(slots, addr).Some? && addr != WATCHPOINT_ADDR_DISABLED
    ensures addr !in Removed(slots, addr).value <==> Occurrences(slots, addr) == 1
  {
    FirstSlotIs(slots, addr, false, 0);
    OneFewer(slots, addr, FirstSlot(slots, addr, false, 0));
    OccursIff(Removed(slots, addr).value, addr);
  }

  // An address does get into two slots: a free slot in front of the one that holds it is taken.
  lemma InsertCanDuplicate(a: word, b: word)
    requires a != b && a != 0 && b != 0
    ensures Inserted([0, 0], a) == Some([a, 0]) && Inserted([a, 0], b) == Some([a, b])
    ensures Removed([a, b], a) == Some([0, b]) && Inserted([0, b], b) == Some([b, b])
    ensures Removed([b, b], b) == Some([0, b])
  {
    var s0: seq<word>, s1: seq<word>, s2: seq<word>, s3: seq<word>, s4: seq<word> :=
        [0, 0], [a, 0], [a, b], [0, b], [b, b];
    assert FirstSlot(s0, a, true, 0) == 0 && s0[0 := a] == s1;
    assert FirstSlot(s1, b, true, 1) == 1 && s1[1 := b] == s2;
    assert FirstSlot(s2, a, false, 0) == 0 && s2[0 := 0] == s3;
    assert FirstSlot(s3, b, true, 0) == 0 && s3[0 := b] == s4;
    assert FirstSlot(s4, b, false, 0) == 0 && s4[0 := 0] == s3;
  }

  // It does so exactly when a free slot comes before the first one that holds the address.
  lemma InsertDuplicatesIff(slots: seq<word>, addr: word)
    requires addr in slots && addr != WATCHPOINT_ADDR_DISABLED
    ensures Inserted(slots, addr) != Some(slots)
       <==> exists i :: 0 <= i < |slots| && slots[i] == WATCHPOINT_ADDR_DISABLED && addr !in slots[..i]
    ensures Inserted(slots, addr) != Some(slots) ==>
              Inserted(slots, addr).Some?
                  && Occurrences(Inserted(slots, addr).value, addr) == Occurrences(slots, addr) + 1
  {
    FirstSlotIs(slots, addr, true, 0);
    var k := FirstSlot(slots, addr, true, 0);
    var after := slots[k := addr];
    if slots[k] == WATCHPOINT_ADDR_DISABLED {
      assert after[k] != slots[k] && addr !in slots[..k];
      OneFewer(after, addr, k);
      assert after[k := WATCHPOINT_ADDR_DISABLED] == slots;
    } else {
      assert after == slots;
      forall i | 0 <= i < |slots| && slots[i] == WATCHPOINT_ADDR_DISABLED ensures addr in slots[..i] {
        assert k < i && slots[..i][k] == addr;
      }
    }
  }
}
