// The simple view of the target's memory: a big-endian array of bytes, addresses modulo 2^32.
module ByteMemory {
  import opened Bits
  import opened Cpu

  // Byte k of a word, in memory order.
  function ByteOf(w: word, k: nat): byte
    requires k < 4
  {
    match k
    case 0 => w / 0x100 / 0x100 / 0x100
    case 1 => w / 0x100 / 0x100 % 0x100
    case 2 => w / 0x100 % 0x100
    case _ => w % 0x100
  }

  function AssembleBytes(b1: byte, b2: byte, b3: byte, b4: byte): word {
    ((b1 * 0x100 + b2) * 0x100 + b3) * 0x100 + b4
  }

  lemma AssembledBytes(b1: byte, b2: byte, b3: byte, b4: byte)
    ensures ByteOf(AssembleBytes(b1, b2, b3, b4), 0) == b1 && ByteOf(AssembleBytes(b1, b2, b3, b4), 1) == b2
    ensures ByteOf(AssembleBytes(b1, b2, b3, b4), 2) == b3 && ByteOf(AssembleBytes(b1, b2, b3, b4), 3) == b4
  {
    var w := AssembleBytes(b1, b2, b3, b4);
    assert w / 0x100 == (b1 * 0x100 + b2) * 0x100 + b3;
    assert w / 0x100 / 0x100 == b1 * 0x100 + b2;
  }

  // The first byte in memory is the most significant one.
  lemma BigEndian(b1: byte, b2: byte, b3: byte, b4: byte)
    ensures AssembleBytes(b1, b2, b3, b4) == 0x100_0000 * b1 + 0x1_0000 * b2 + 0x100 * b3 + b4
  {
  }

  lemma BytesAssembled(w: word)
    ensures AssembleBytes(ByteOf(w, 0), ByteOf(w, 1), ByteOf(w, 2), ByteOf(w, 3)) == w
  {
  }

  function ReplaceByte(w: word, k: nat, b: byte): word
    requires k < 4
  {
    AssembleBytes(if k == 0 then b else ByteOf(w, 0), if k == 1 then b else ByteOf(w, 1),
                  if k == 2 then b else ByteOf(w, 2), if k == 3 then b else ByteOf(w, 3))
  }

  lemma ReplacedByte(w: word, k: nat, b: byte, j: nat)
    requires k < 4 && j < 4
    ensures ByteOf(ReplaceByte(w, k, b), j) == if j == k then b else ByteOf(w, j)
  {
    AssembledBytes(if k == 0 then b else ByteOf(w, 0), if k == 1 then b else ByteOf(w, 1),
                   if k == 2 then b else ByteOf(w, 2), if k == 3 then b else ByteOf(w, 3));
  }

  // The address j bytes after `start`, in 32-bit arithmetic.
  function Address(start: word, j: nat): word {
    if j == 0 then start else NextAddress(Address(start, j - 1))
  }

  function NextAddress(a: word): word {
    if a == WORD_MODULUS - 1 then 0 else a + 1
  }

  lemma OneFurther(a: nat)
    ensures NextAddress(a % WORD_MODULUS) == (a + 1) % WORD_MODULUS
  {
  }

  lemma {:induction false} AddressWraps(start: word, j: nat)
    ensures Address(start, j) == (start + j) % WORD_MODULUS
  {
    if j > 0 {
      AddressWraps(start, j - 1);
      OneFurther(start + j - 1);
    }
  }

  // The aligned address of the word that a byte is in, and the byte's place there.
  function WordAddr(a: word): word {
    a - a % 4
  }

  function Lane(a: word): (k: nat)
    ensures k < 4
  {
    a % 4
  }

  lemma NextLane(a: word)
    ensures Lane(a) < 3 ==> WordAddr(NextAddress(a)) == WordAddr(a) && Lane(NextAddress(a)) == Lane(a) + 1
    ensures Lane(a) == 3 ==>
              WordAddr(NextAddress(a)) == (WordAddr(a) + 4) % WORD_MODULUS && Lane(NextAddress(a)) == 0
  {
    var q, k := a / 4, a % 4;
    assert a == 4 * q + k;
    assert k < 3 ==> (a + 1) / 4 == q && (a + 1) % 4 == k + 1;
  }

  // The same for the bytes of a range.
  lemma NextByteAt(start: word, i: nat)
    ensures var a, b := Address(start, i), Address(start, i + 1);
            if Lane(a) < 3 then WordAddr(b) == WordAddr(a) && Lane(b) == Lane(a) + 1
            else WordAddr(b) == (WordAddr(a) + 4) % WORD_MODULUS && Lane(b) == 0
  {
    NextLane(Address(start, i));
  }

  lemma FirstByteAt(start: word)
    ensures WordAddr(Address(start, 0)) == start - start % 4 && Lane(Address(start, 0)) == start % 4
  {
  }

  function ByteAt(mem: Memory, a: word): byte
    requires WordAddr(a) in mem
  {
    ByteOf(mem[WordAddr(a)], Lane(a))
  }

  // Storing a single byte; there is nothing to store to at an address without memory.
  function StoreByte(mem: Memory, a: word, b: byte): (m: Memory)
    ensures m.Keys == mem.Keys
  {
    var w := WordAddr(a);
    if w in mem then mem[w := ReplaceByte(mem[w], Lane(a), b)] else mem
  }

  // Storing the first n bytes of data, one after the other.
  function StoreBytes(mem: Memory, start: word, data: seq<byte>, n: nat): (m: Memory)
    requires n <= |data|
    ensures m.Keys == mem.Keys
  {
    if n == 0 then mem else StoreByte(StoreBytes(mem, start, data, n - 1), Address(start, n - 1), data[n - 1])
  }

  lemma StoredByte(mem: Memory, c: word, b: byte, a: word)
    requires WordAddr(a) in mem
    ensures ByteAt(StoreByte(mem, c, b), a) == if c == a then b else ByteAt(mem, a)
  {
    if WordAddr(c) == WordAddr(a) {
      ReplacedByte(mem[WordAddr(a)], Lane(c), b, Lane(a));
    }
  }

  // How far address a is above the start address, going up and around.
  function Offset(start: word, a: word): (j: nat)
    ensures j < WORD_MODULUS
  {
    if a >= start then a - start else a + WORD_MODULUS - start
  }

  lemma OffsetUnique(start: word, j: nat, a: word)
    requires j < WORD_MODULUS
    ensures Address(start, j) == a <==> Offset(start, a) == j
  {
    AddressWraps(start, j);
  }

  // Exactly the addressed bytes change.
  lemma {:induction false} StoredBytes(mem: Memory, start: word, data: seq<byte>, n: nat, a: word)
    requires n <= |data| && n <= WORD_MODULUS && WordAddr(a) in mem
    ensures ByteAt(StoreBytes(mem, start, data, n), a)
            == if Offset(start, a) < n then data[Offset(start, a)] else ByteAt(mem, a)
  {
    if n > 0 {
      StoredBytes(mem, start, data, n - 1, a);
      StoredByte(StoreBytes(mem, start, data, n - 1), Address(start, n - 1), data[n - 1], a);
      OffsetUnique(start, n - 1, a);
    }
  }

  // The requested bytes, up to the first one whose word cannot be read.
  function LoadBytes(mem: Memory, start: word, n: nat): (bytes: seq<byte>)
    ensures |bytes| <= n
  {
    if n == 0 then []
    else
      var front, a := LoadBytes(mem, start, n - 1), Address(start, n - 1);
      if |front| == n - 1 && WordAddr(a) in mem then front + [ByteAt(mem, a)] else front
  }

  // Every byte loaded is the byte at its address.
  lemma {:induction false} LoadedByte(mem: Memory, start: word, n: nat, j: nat)
    requires j < |LoadBytes(mem, start, n)|
    ensures WordAddr(Address(start, j)) in mem
    ensures LoadBytes(mem, start, n)[j] == ByteAt(mem, Address(start, j))
  {
    if j < |LoadBytes(mem, start, n - 1)| { LoadedByte(mem, start, n - 1, j); }
  }

  // Loading only stops early at a word that cannot be read.
  lemma {:induction false} LoadStopsAtUnreadable(mem: Memory, start: word, n: nat)
    requires |LoadBytes(mem, start, n)| < n
    ensures WordAddr(Address(start, |LoadBytes(mem, start, n)|)) !in mem
  {
    if |LoadBytes(mem, start, n - 1)| < n - 1 { LoadStopsAtUnreadable(mem, start, n - 1); }
  }

  // Whether all words that n bytes are in accept writes.
  predicate AllWritable(cpu: Cpu, start: word, n: nat) {
    n == 0 || (AllWritable(cpu, start, n - 1) && Writable(cpu, WordAddr(Address(start, n - 1))))
  }

  lemma {:induction false} AllWritableAt(cpu: Cpu, start: word, n: nat, j: nat)
    requires AllWritable(cpu, start, n) && j < n
    ensures Writable(cpu, WordAddr(Address(start, j)))
  {
    if j < n - 1 { AllWritableAt(cpu, start, n - 1, j); }
  }

  // Whether the word of the byte with the given offset accepts writes.
  predicate AcceptsByte(cpu: Cpu, start: word, j: nat) {
    Writable(cpu, WordAddr(Address(start, j)))
  }

  lemma {:induction false} AllWritableIff(cpu: Cpu, start: word, n: nat)
    ensures AllWritable(cpu, start, n) <==> forall j :: 0 <= j < n ==> AcceptsByte(cpu, start, j)
  {
    if n > 0 {
      AllWritableIff(cpu, start, n - 1);
      if AllWritable(cpu, start, n) {
        forall j | 0 <= j < n ensures AcceptsByte(cpu, start, j) {
          AllWritableAt(cpu, start, n, j);
        }
      } else if AllWritable(cpu, start, n - 1) {
        assert !AcceptsByte(cpu, start, n - 1);
      }
    }
  }

  lemma StoredByteBack(mem: Memory, start: word, data: seq<byte>, n: nat, j: nat)
    requires j < n <= |data| && n <= WORD_MODULUS && WordAddr(Address(start, j)) in mem
    ensures ByteAt(StoreBytes(mem, start, data, n), Address(start, j)) == data[j]
  {
    OffsetUnique(start, j, Address(start, j));
    StoredBytes(mem, start, data, n, Address(start, j));
  }

  lemma LoadOneMore(mem: Memory, start: word, k: nat)
    requires |LoadBytes(mem, start, k)| == k && WordAddr(Address(start, k)) in mem
    ensures LoadBytes(mem, start, k + 1) == LoadBytes(mem, start, k) + [ByteAt(mem, Address(start, k))]
  {
  }

  // Loading bytes that are known.
  lemma {:induction false} LoadKnown(mem: Memory, start: word, data: seq<byte>, k: nat)
    requires k <= |data|
    requires forall j {:trigger Address(start, j)} :: 0 <= j < k ==>
               WordAddr(Address(start, j)) in mem && ByteAt(mem, Address(start, j)) == data[j]
    ensures LoadBytes(mem, start, k) == data[..k]
  {
    if k > 0 {
      LoadKnown(mem, start, data, k - 1);
      LoadOneMore(mem, start, k - 1);
    }
  }

  // What has been stored can be loaded again.
  lemma LoadStored(cpu: Cpu, start: word, data: seq<byte>, n: nat)
    requires n <= |data| && n <= WORD_MODULUS && AllWritable(cpu, start, n)
    ensures LoadBytes(StoreBytes(cpu.mem, start, data, n), start, n) == data[..n]
  {
    var mem := StoreBytes(cpu.mem, start, data, n);
    forall j {:trigger Address(start, j)} | 0 <= j < n
      ensures WordAddr(Address(start, j)) in mem && ByteAt(mem, Address(start, j)) == data[j]
    {
      AllWritableAt(cpu, start, n, j);
      StoredByteBack(cpu.mem, start, data, n, j);
    }
    LoadKnown(mem, start, data, n);
  }
}
