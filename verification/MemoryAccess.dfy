// dbg_api.cpp, memory part: byte-wise access to a memory that the debug unit only reads
// and writes in aligned 32-bit words.
module MemoryAccess {
  import opened Bits
  import opened Cpu
  import opened Wrappers
  import opened DebugUnit
  import opened Target
  import opened ChainCommands
  import opened DbgApi
  import opened ByteMemory

  // Nothing but memory, and the debug unit's own bookkeeping, differs.
  ghost predicate OnlyMemoryChanged(t0: Target, t1: Target) {
    t1 == t0.(unit := t1.unit) &&
    t1.unit.cpu == t0.unit.cpu.(mem := t1.unit.cpu.mem, writeAddr := t1.unit.cpu.writeAddr)
  }

  // The four byte variables of the source, which start out unassigned.
  type Slots = s: seq<Option<byte>> | |s| == 4 witness [None, None, None, None]

  function BreakUp(w: word): Slots {
    [Some(ByteOf(w, 0)), Some(ByteOf(w, 1)), Some(ByteOf(w, 2)), Some(ByteOf(w, 3))]
  }

  predicate AllAssigned(s: Slots) {
    s[0].Some? && s[1].Some? && s[2].Some? && s[3].Some?
  }

  // The word that assigned bytes make up.
  function Assembled(s: Slots): word
    requires AllAssigned(s)
  {
    AssembleBytes(s[0].value, s[1].value, s[2].value, s[3].value)
  }

  // Reading one word: a single atomic operation, whatever comes back. The value is only meaningful
  // without an error.
  method ReadWord(port: JtagPort, addr: word) returns (error: bool, value: word)
    requires Ready(port.target)
    modifies port`target
    ensures OnlyMemoryChanged(old(port.target), port.target)
    ensures Completed(old(port.target), SprWrite(SPR_DU_READ_MEM_ADDR, addr), port.target)
    ensures port.target.unit.cpu == old(port.target.unit.cpu)
    ensures port.Clean() ==> error == (addr !in port.target.unit.cpu.mem)
    ensures port.Clean() && !error ==> value == port.target.unit.cpu.mem[addr]
  {
    error, value := WriteAndReadSpr(port, SPR_DU_READ_MEM_ADDR, addr);
  }

  // Writing one word: two atomic operations, or one with an error. Whatever comes back, this word is
  // written, or nothing is.
  method WriteWord(port: JtagPort, addr: word, slots: Slots) returns (error: bool)
    requires Ready(port.target) && AllAssigned(slots)
    modifies port`target
    ensures OnlyMemoryChanged(old(port.target), port.target)
    ensures var cpu, mem := old(port.target.unit.cpu), port.target.unit.cpu.mem;
            mem == cpu.mem || (Writable(cpu, addr) && mem == cpu.mem[addr := Assembled(slots)])
    ensures port.Clean() ==> error == !Writable(old(port.target.unit.cpu), addr)
    ensures port.Clean() && !error ==>
              port.target.unit.cpu.mem == old(port.target.unit.cpu.mem)[addr := Assembled(slots)]
    ensures port.Clean() && error ==> port.target.unit.cpu.mem == old(port.target.unit.cpu.mem)
  {
    error := WriteSpr(port, OR1200_DU_WRITE_MEM_ADDR, addr);
    if error {
      return;
    }
    error := WriteSpr(port, OR1200_DU_WRITE_MEM_DATA, Assembled(slots));
  }

  // With clean receivers, either everything requested has been read, or everything before the first
  // unreadable word. In no case is anything changed, or more returned.
  method ReadMem(port: JtagPort, start: word, count: nat) returns (dataRead: seq<byte>)
    requires Ready(port.target) && 0 < count < WORD_MODULUS
    modifies port`target
    ensures OnlyMemoryChanged(old(port.target), port.target)
    ensures port.target.unit.cpu == old(port.target.unit.cpu) && |dataRead| <= count
    ensures port.Clean() ==> dataRead == LoadBytes(port.target.unit.cpu.mem, start, count)
  {
    FirstByteAt(start);
    hide Lane, WordAddr, Address;
    ghost var mem := port.target.unit.cpu.mem;
    dataRead := [];
    var addr: word := start - start % 4;
    var bytePos := start % 4;
    var error, value := ReadWord(port, addr);
    if error {
      if port.Clean() {
        LoadBytesStops(mem, start, 0, count);
      }
    } else {
      var slots := BreakUp(value);
      var i := 0;
      while i < count
        invariant i <= count && Ready(port.target)
        invariant OnlyMemoryChanged(old(port.target), port.target)
        invariant port.target.unit.cpu == old(port.target.unit.cpu)
        invariant addr == WordAddr(Address(start, i)) && bytePos == Lane(Address(start, i))
        invariant AllAssigned(slots) && |dataRead| == i
        invariant port.Clean() ==> addr in mem && slots == BreakUp(mem[addr]) && dataRead == LoadBytes(mem, start, i)
      {
        NextByteAt(start, i);
        dataRead := dataRead + [slots[bytePos].value];
        i := i + 1;
        if bytePos == 3 {
          bytePos := 0;
          addr := (addr + 4) % WORD_MODULUS;
          error, value := ReadWord(port, addr);
          if error {
            if port.Clean() {
              LoadBytesStops(mem, start, i, count);
            }
            return;
          }
          slots := BreakUp(value);
        } else {
          bytePos := bytePos + 1;
        }
      }
    }
  }

  lemma {:induction false} LoadBytesStops(mem: Memory, start: word, i: nat, n: nat)
    requires i <= n && WordAddr(Address(start, i)) !in mem
    ensures LoadBytes(mem, start, n) == LoadBytes(mem, start, i)
    decreases n
  {
    if i < n {
      LoadBytesStops(mem, start, i, n - 1);
    }
  }

  // What the write loop knows half-way through the word at addr: `due` is the memory as it should
  // be by now, mem the memory as it is, and the slots below `filled`, or all of them once the word
  // has been read, hold the bytes due.
  predicate FillPending(due: Memory, mem: Memory, addr: word, filled: nat, loaded: bool, slots: Slots) {
    due.Keys == mem.Keys &&
    (addr in mem ==> due == mem[addr := due[addr]]) &&
    (addr !in mem ==> due == mem) &&
    forall k :: 0 <= k < 4 && (loaded || k < filled) ==>
      slots[k].Some? && (addr in mem ==> slots[k].value == ByteOf(due[addr], k))
  }

  lemma StoreIntoSlot(due: Memory, mem: Memory, start: word, i: nat, loaded: bool, slots: Slots, b: byte)
    requires FillPending(due, mem, WordAddr(Address(start, i)), Lane(Address(start, i)), loaded, slots)
    ensures FillPending(StoreByte(due, Address(start, i), b), mem, WordAddr(Address(start, i)),
             Lane(Address(start, i)) + 1, loaded,
                    slots[Lane(Address(start, i)) := Some(b)])
  {
    var addr := WordAddr(Address(start, i));
    if addr in mem {
      forall k | 0 <= k < 4
        ensures ByteOf(StoreByte(due, Address(start, i), b)[addr], k)
             == if k == Lane(Address(start, i)) then b else ByteOf(due[addr], k)
      {
        ReplacedByte(due[addr], Lane(Address(start, i)), b, k);
      }
    }
  }

  lemma FullSlots(due: Memory, mem: Memory, addr: word, loaded: bool, slots: Slots, filled: nat)
    requires FillPending(due, mem, addr, filled, loaded, slots) && (loaded || filled == 4)
    ensures AllAssigned(slots)
    ensures addr in mem ==>
              mem[addr := Assembled(slots)] == due
  {
    if addr in mem { BytesAssembled(due[addr]); }
  }

  // Reading a word whose bytes will not all be overwritten.
  method LoadSlots(port: JtagPort, addr: word) returns (error: bool, slots: Slots)
    requires Ready(port.target)
    modifies port`target
    ensures OnlyMemoryChanged(old(port.target), port.target)
    ensures port.target.unit.cpu == old(port.target.unit.cpu) && AllAssigned(slots)
    ensures port.Clean() && error ==> !Writable(port.target.unit.cpu, addr)
    ensures port.Clean() && !error ==>
              addr in port.target.unit.cpu.mem && slots == BreakUp(port.target.unit.cpu.mem[addr])
  {
    var value;
    error, value := ReadWord(port, addr);
    slots := BreakUp(value);
  }

  // The first n bytes of the data are in memory, and they end on a word boundary.
  ghost predicate StoredUpTo(cpu: Cpu, mem: Memory, start: word, data: seq<byte>, n: nat) {
    n <= |data| && (n == 0 || Lane(Address(start, n)) == 0) && mem == StoreBytes(cpu.mem, start, data, n)
  }

  // The state of the write loop before byte i: everything before `stored` is in memory,
  // the rest of what has been seen is in the slots.
  ghost predicate WriteInv(cpu: Cpu, mem: Memory, start: word, data: seq<byte>, count: nat, i: nat, stored: nat,
                           loaded: bool, slots: Slots) {
    var addr, bytePos := WordAddr(Address(start, i)), Lane(Address(start, i));
    && i < count <= |data| && stored <= i
    && StoredUpTo(cpu, mem, start, data, stored)
    && (Writable(cpu, addr) ==> AllWritable(cpu, start, i))
    && (loaded || count - i >= 4 - bytePos)
    && FillPending(StoreBytes(cpu.mem, start, data, i), mem, addr, bytePos, loaded, slots)
  }

  lemma NextByte(cpu: Cpu, mem: Memory, start: word, data: seq<byte>, count: nat, i: nat, stored: nat,
                 loaded: bool, slots: Slots)
    requires WriteInv(cpu, mem, start, data, count, i, stored, loaded, slots)
    requires Lane(Address(start, i)) < 3 && i + 1 < count
    ensures WriteInv(cpu, mem, start, data, count, i + 1, stored, loaded,
             slots[Lane(Address(start, i)) := Some(data[i])])
    ensures WordAddr(Address(start, i + 1)) == WordAddr(Address(start, i))
    ensures Lane(Address(start, i + 1)) == Lane(Address(start, i)) + 1
  {
    StoreIntoSlot(StoreBytes(cpu.mem, start, data, i), mem, start, i, loaded, slots, data[i]);
    NextLane(Address(start, i));
  }

  // At the end of a word, or of the data, the slots make up the word that is due.
  lemma WordComplete(cpu: Cpu, mem: Memory, start: word, data: seq<byte>, count: nat, i: nat, stored: nat,
                     loaded: bool, slots: Slots, full: Slots)
    requires WriteInv(cpu, mem, start, data, count, i, stored, loaded, slots)
    requires full == slots[Lane(Address(start, i)) := Some(data[i])]
    requires Lane(Address(start, i)) == 3 || i + 1 == count
    ensures AllAssigned(full)
    ensures Writable(cpu, WordAddr(Address(start, i))) ==>
              && WordAddr(Address(start, i)) in mem
              && mem[WordAddr(Address(start, i)) := Assembled(full)] == StoreBytes(cpu.mem, start, data, i + 1)
              && AllWritable(cpu, start, i + 1)
  {
    StoreIntoSlot(StoreBytes(cpu.mem, start, data, i), mem, start, i, loaded, slots, data[i]);
    FullSlots(StoreBytes(cpu.mem, start, data, i + 1), mem, WordAddr(Address(start, i)), loaded, full,
               Lane(Address(start, i)) + 1);
  }

  lemma WordStarts(cpu: Cpu, mem: Memory, start: word, data: seq<byte>, count: nat, i: nat, loaded: bool, slots: Slots)
    requires i < count <= |data| && (i == 0 || Lane(Address(start, i)) == 0) && AllWritable(cpu, start, i)
    requires mem == StoreBytes(cpu.mem, start, data, i)
    requires !loaded ==> Lane(Address(start, i)) == 0 && count - i >= 4
    requires loaded ==> WordAddr(Address(start, i)) in mem && slots == BreakUp(mem[WordAddr(Address(start, i))])
    ensures WriteInv(cpu, mem, start, data, count, i, i, loaded, slots)
  {
  }

  lemma NotAllWritable(cpu: Cpu, start: word, count: nat, i: nat)
    requires i < count && !Writable(cpu, WordAddr(Address(start, i)))
    ensures !AllWritable(cpu, start, count)
  {
    if AllWritable(cpu, start, count) { AllWritableAt(cpu, start, count, i); }
  }

  // What holds before byte i even if something shows through: the bytes below bytePos, or all of them
  // once the word has been read, are assigned.
  predicate WriteShape(start: word, count: nat, i: nat, addr: word, bytePos: nat, loaded: bool, slots: Slots) {
    && i < count && addr == WordAddr(Address(start, i)) && bytePos == Lane(Address(start, i))
    && (loaded || count - i >= 4 - bytePos)
    && forall k :: 0 <= k < 4 && (loaded || k < bytePos) ==> slots[k].Some?
  }

  // The aligned addresses of the words that n bytes are in.
  predicate InRange(a: nat, start: word, n: nat) {
    n > 0 && (InRange(a, start, n - 1) || a == WordAddr(Address(start, n - 1)))
  }

  lemma {:induction false} InRangeAt(start: word, n: nat, i: nat)
    requires i < n
    ensures InRange(WordAddr(Address(start, i)), start, n)
  {
    if i < n - 1 {
      InRangeAt(start, n - 1, i);
    }
  }

  // Nothing else than words of the range, and those only where writes are accepted, has changed.
  ghost predicate ChangedInRange(before: Cpu, start: word, n: nat, after: Memory) {
    && after.Keys == before.mem.Keys
    && forall a :: a in before.mem && after[a] != before.mem[a] ==> InRange(a, start, n) && Writable(before, a)
  }

  // Turns to the word that byte i is in, reading it first if some of its bytes are to stay.
  method BeginWord(port: JtagPort, addr: word, mustLoad: bool, ghost cpu: Cpu, ghost start: word, ghost data: seq<byte>,
                   ghost count: nat, ghost i: nat)
    returns (error: bool, slots: Slots)
    requires Ready(port.target) && addr == WordAddr(Address(start, i)) && i < count <= |data|
    requires !mustLoad ==> Lane(Address(start, i)) == 0 && count - i >= 4
    requires port.Clean() ==>
               && StoredUpTo(cpu, port.target.unit.cpu.mem, start, data, i)
               && AllWritable(cpu, start, i) && port.target.unit.cpu.rom == cpu.rom
    modifies port`target
    ensures OnlyMemoryChanged(old(port.target), port.target)
    ensures port.target.unit.cpu == old(port.target.unit.cpu)
    ensures WriteShape(start, count, i, addr, Lane(Address(start, i)), mustLoad, slots)
    ensures port.Clean() && error ==> !AllWritable(cpu, start, count)
    ensures port.Clean() && !error ==>
              WriteInv(cpu, port.target.unit.cpu.mem, start, data, count, i, i, mustLoad, slots)
  {
    error, slots := false, [None, None, None, None];
    if mustLoad {
      error, slots := LoadSlots(port, addr);
    }
    if port.Clean() {
      if error {
        NotAllWritable(cpu, start, count, i);
      } else {
        WordStarts(cpu, port.target.unit.cpu.mem, start, data, count, i, mustLoad, slots);
      }
    }
  }

  // With clean receivers, the loop invariant of WriteMem, with its three kinds of outcome.
  ghost predicate WriteState(cpu: Cpu, mem: Memory, start: word, data: seq<byte>, count: nat, i: nat, stored: nat,
                             error: bool, addr: word, bytePos: nat, loaded: bool, slots: Slots) {
    if error then !AllWritable(cpu, start, count) && stored < count && StoredUpTo(cpu, mem, start, data, stored)
    else if i == count then AllWritable(cpu, start, count) && count <= |data|
            && mem == StoreBytes(cpu.mem, start, data, count)
    else
      && addr == WordAddr(Address(start, i)) && bytePos == Lane(Address(start, i))
      && WriteInv(cpu, mem, start, data, count, i, stored, loaded, slots)
  }

  // One pass of the write loop.
  method WriteByte(port: JtagPort, addr: word, bytePos: nat, slots: Slots, count: nat, data: seq<byte>, i: nat,
                   ghost cpu: Cpu, ghost start: word, ghost stored: nat, ghost loaded: bool)
    returns (error: bool, addr': word, bytePos': nat, slots': Slots, ghost stored': nat, ghost loaded': bool)
    requires Ready(port.target) && i < count <= |data| && port.target.unit.cpu.rom == cpu.rom
    requires WriteShape(start, count, i, addr, bytePos, loaded, slots)
    requires ChangedInRange(cpu, start, count, port.target.unit.cpu.mem)
    requires port.Clean() ==>
               WriteState(cpu, port.target.unit.cpu.mem, start, data, count, i, stored, false, addr, bytePos, loaded,
                          slots)
    modifies port`target
    ensures OnlyMemoryChanged(old(port.target), port.target)
    ensures !error && i + 1 < count ==> WriteShape(start, count, i + 1, addr', bytePos', loaded', slots')
    ensures ChangedInRange(cpu, start, count, port.target.unit.cpu.mem)
    ensures port.Clean() ==>
              WriteState(cpu, port.target.unit.cpu.mem, start, data, count, i + 1, stored', error, addr', bytePos',
                         loaded', slots')
  {
    error, addr', bytePos', stored', loaded' := false, addr, bytePos + 1, stored, loaded;
    slots' := slots[bytePos := Some(data[i])];
    if bytePos == 3 || i + 1 == count {
      error, addr', bytePos', slots', stored', loaded' :=
        FinishWord(port, addr, bytePos, slots', count, i, cpu, start, data, stored, loaded, slots);
    } else {
      NextLane(Address(start, i));
      if port.Clean() {
        NextByte(cpu, port.target.unit.cpu.mem, start, data, count, i, stored, loaded, slots);
      }
    }
  }

  lemma ChangedMore(cpu: Cpu, start: word, n: nat, i: nat, before: Cpu, value: word, after: Memory)
    requires i < n && ChangedInRange(cpu, start, n, before.mem) && before.rom == cpu.rom
    requires var addr := WordAddr(Address(start, i));
             after == before.mem || (Writable(before, addr) && after == before.mem[addr := value])
    ensures ChangedInRange(cpu, start, n, after)
  {
    InRangeAt(start, n, i);
  }

  // Completes the word in the slots and, unless the data ends here, turns to the next one.
  method FinishWord(port: JtagPort, addr: word, bytePos: nat, full: Slots, count: nat, i: nat,
                    ghost cpu: Cpu, ghost start: word, ghost data: seq<byte>, ghost stored: nat, ghost loaded: bool,
                    ghost slots: Slots)
    returns (error: bool, addr': word, bytePos': nat, slots': Slots, ghost stored': nat, ghost loaded': bool)
    requires Ready(port.target) && i < count <= |data| && port.target.unit.cpu.rom == cpu.rom
    requires WriteShape(start, count, i, addr, bytePos, loaded, slots)
    requires ChangedInRange(cpu, start, count, port.target.unit.cpu.mem)
    requires port.Clean() ==>
               WriteState(cpu, port.target.unit.cpu.mem, start, data, count, i, stored, false, addr, bytePos, loaded,
                          slots)
    requires full == slots[bytePos := Some(data[i])] && (bytePos == 3 || i + 1 == count)
    modifies port`target
    ensures OnlyMemoryChanged(old(port.target), port.target)
    ensures !error && i + 1 < count ==> WriteShape(start, count, i + 1, addr', bytePos', loaded', slots')
    ensures ChangedInRange(cpu, start, count, port.target.unit.cpu.mem)
    ensures port.Clean() ==>
              WriteState(cpu, port.target.unit.cpu.mem, start, data, count, i + 1, stored', error, addr', bytePos',
                         loaded', slots')
  {
    hide Lane, WordAddr, InRange, ChangedInRange;
    if port.Clean() {
      WordComplete(cpu, port.target.unit.cpu.mem, start, data, count, i, stored, loaded, slots, full);
    }
    addr', bytePos', slots', stored', loaded' := (addr + 4) % WORD_MODULUS, 0, full, stored, false;
    error := WriteWord(port, addr, full);
    ChangedMore(cpu, start, count, i, old(port.target.unit.cpu), Assembled(full), port.target.unit.cpu.mem);
    if error {
      if port.Clean() {
        NotAllWritable(cpu, start, count, i);
      }
    } else if i + 1 < count {
      NextByteAt(start, i);
      stored', loaded' := i + 1, count - (i + 1) < 4;
      error, slots' := BeginWord(port, addr', count - (i + 1) < 4, cpu, start, data, count, i + 1);
    }
  }

  // With clean receivers, on success exactly the requested bytes are stored. A failure means that some
  // word in the range is not writable; the bytes stored until then are a prefix of the data that ends on
  // a word boundary. In no case is memory outside the words of the range changed.
  method WriteMem(port: JtagPort, start: word, count: nat, data: seq<byte>) returns (error: bool, ghost stored: nat)
    requires Ready(port.target) && 0 < count < WORD_MODULUS && count <= |data|
    modifies port`target
    ensures OnlyMemoryChanged(old(port.target), port.target)
    ensures ChangedInRange(old(port.target.unit.cpu), start, count, port.target.unit.cpu.mem)
    ensures port.Clean() ==> (error <==> !AllWritable(old(port.target.unit.cpu), start, count))
    ensures port.Clean() && !error ==>
              port.target.unit.cpu.mem == StoreBytes(old(port.target.unit.cpu.mem), start, data, count)
    ensures port.Clean() && error ==>
              stored < count && StoredUpTo(old(port.target.unit.cpu), port.target.unit.cpu.mem, start, data, stored)
  {
    FirstByteAt(start);
    hide Lane, WordAddr, Address;
    ghost var cpu := port.target.unit.cpu;
    var addr: word := start - start % 4;
    var bytePos: nat := start % 4;
    ghost var loaded := bytePos != 0 || count < 4;
    var slots;
    stored := 0;
    error, slots := BeginWord(port, addr, bytePos != 0 || count < 4, cpu, start, data, count, 0);
    var i := 0;
    while !error && i < count
      invariant i <= count && OnlyMemoryChanged(old(port.target), port.target)
      invariant ChangedInRange(cpu, start, count, port.target.unit.cpu.mem)
      invariant !error && i < count ==> WriteShape(start, count, i, addr, bytePos, loaded, slots)
      invariant port.Clean() ==>
                  WriteState(cpu, port.target.unit.cpu.mem, start, data, count, i, stored, error, addr, bytePos, loaded,
                             slots)
      decreases !error, count - i
    {
      hide WriteState, WriteShape, ChangedInRange, Writable, Assembled;
      error, addr, bytePos, slots, stored, loaded :=
        WriteByte(port, addr, bytePos, slots, count, data, i, cpu, start, stored, loaded);
      i := i + 1;
    }
  }
}
