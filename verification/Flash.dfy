/** The SPI-flash tool: range check, 256-byte walk, address split, and the loops that read and
    rewrite the flash through them. */
module Flash {
  import opened MachineInts

  /** 8 Mbit. */
  const MAX_LENGTH := 0x0010_0000
  const XFER_CHUNK := 256
  const SPIFLASH_MAX_ADDRESS := 0x000F_FFFF
  const ERASED: u8 := 0xFF

  datatype RangeError = ZeroLength | ExceedsFlash

  /** A non-empty range inside the flash. */
  predicate InFlash(address: int, length: int) {
    0 <= address && 0 < length && address + length <= MAX_LENGTH
  }

  /** The pre-transfer check, address included, in 64 bits so that nothing wraps. */
  function ValidateRange(address: u32, length: u32): (r: Option<RangeError>)
    ensures r == None <==> length > 0 && address + length as int <= 0x10_0000
    ensures r == None <==> InFlash(address, length)
    ensures r == Some(ZeroLength) <==> length == 0
  {
    if length == 0 then Some(ZeroLength)
    else if address + length as int > MAX_LENGTH then Some(ExceedsFlash)
    else None
  }

  // ---------- the walk ----------

  /** All chunks of a range, in order. */
  function Walk(address: nat, length: nat): seq<(nat, nat)>
    decreases length
  {
    if length == 0 then []
    else
      var x := if length < XFER_CHUNK then length else XFER_CHUNK;
      [(address, x)] + Walk(address + x, length - x)
  }

  /** `transfer_chunks`: the iterator's two counters. */
  class Chunks {
    var address: u32
    var remaining: u32

    constructor (address: u32, length: u32)
      ensures this.address == address && remaining == length
    {
      this.address := address;
      remaining := length;
    }

    /** Each chunk is the next stretch of the range, 1 to 256 bytes, and the address arithmetic
        stays within 32 bits as long as the range does. */
    method Next() returns (chunk: Option<(u32, u16)>)
      requires address + remaining as int < 0x1_0000_0000
      modifies this
      ensures chunk.None? <==> old(remaining) == 0
      ensures chunk.None? ==> address == old(address) && remaining == 0
      ensures chunk.Some? ==>
                && chunk.value.0 == old(address)
                && 1 <= chunk.value.1 <= XFER_CHUNK
                && (chunk.value.1 < XFER_CHUNK ==> remaining == 0)
                && address == old(address) + chunk.value.1 as int
                && remaining + chunk.value.1 as int == old(remaining)
      ensures Walk(old(address), old(remaining)) == (if chunk.None? then [] else [chunk.value] + Walk(address, remaining))
    {
      if remaining == 0 {
        return None;
      }
      var xfer := if remaining < XFER_CHUNK then remaining else XFER_CHUNK;
      chunk := Some((address, xfer));
      address := address + xfer as int;
      remaining := remaining - xfer as int;
    }
  }

  /** The chunks are contiguous from the start, each 1 to 256 bytes and only the last short, and
      end exactly where the range does: a partition of it. Their addresses pass the write check. */
  lemma {:induction false} WalkPartitions(address: nat, length: nat, i: nat)
    requires i < |Walk(address, length)|
    ensures var w := Walk(address, length);
            && 1 <= w[i].1 <= 256
            && w[i].0 == address + 256 * i
            && (i + 1 < |w| ==> w[i].1 == 256)
            && (i + 1 == |w| ==> w[i].0 + w[i].1 == address + length)
            && (InFlash(address, length) ==> w[i].0 <= SPIFLASH_MAX_ADDRESS)
    decreases length
  {
    var x := if length < XFER_CHUNK then length else XFER_CHUNK;
    if i > 0 {
      WalkPartitions(address + x, length - x, i - 1);
    }
  }

  lemma {:induction false} WalkCount(address: nat, length: nat)
    ensures |Walk(address, length)| == (length + XFER_CHUNK - 1) / XFER_CHUNK
    decreases length
  {
    if length > 0 {
      var x := if length < XFER_CHUNK then length else XFER_CHUNK;
      WalkCount(address + x, length - x);
    }
  }

  /** The iterator yields the whole walk and then ends: every chunk of the range once, in order. */
  method TransferChunks(address: u32, length: u32) returns (chunks: seq<(u32, u16)>)
    requires address + length as int < 0x1_0000_0000
    ensures chunks == Walk(address, length)
    ensures |chunks| == (length + 255) / 256
  {
    WalkCount(address, length);
    chunks := [];
    var iter := new Chunks(address, length);
    while true
      invariant fresh(iter) && iter.address + iter.remaining as int == address + length as int
      invariant chunks + Walk(iter.address, iter.remaining) == Walk(address, length)
      decreases iter.remaining
    {
      ghost var rest := Walk(iter.address, iter.remaining);
      var next := iter.Next();
      if next.None? {
        break;
      }
      assert chunks + rest == (chunks + [next.value]) + Walk(iter.address, iter.remaining);
      chunks := chunks + [next.value];
    }
  }

  // ---------- the device ----------

  /** The 20-bit address as it crosses the wire, and as the device puts it together again. */
  function HighPart(address: u32): u16 {
    address / 0x1_0000
  }

  function LowPart(address: u32): u16 {
    address % 0x1_0000
  }

  function Recombined(high: u16, low: u16): nat {
    high * 0x1_0000 as int + low
  }

  lemma SplitRecombines(address: u32)
    ensures 0x1_0000 * (HighPart(address) as int) + LowPart(address) == address
    ensures Recombined(HighPart(address), LowPart(address)) == address
  {
  }

  /** `mem` with `data` stored from `at` on; what would lie past the end is lost. */
  function Stored(mem: seq<u8>, at: nat, data: seq<u8>): (r: seq<u8>)
    ensures |r| == |mem|
  {
    seq(|mem|, i requires 0 <= i < |mem| => if at <= i < at + |data| then data[i - at] else mem[i])
  }

  /** `n` bytes from `at` on; past the end there is nothing but erased bytes. */
  function Fetched(mem: seq<u8>, at: nat, n: nat): (r: seq<u8>)
    ensures |r| == n
    ensures at + n <= |mem| ==> r == mem[at..at + n]
  {
    seq(n, i requires 0 <= i < n => if at + i < |mem| then mem[at + i] else ERASED)
  }

  /** The flash chip behind the driver: erase sets every byte, a write stores, a read returns. */
  class Device {
    var mem: seq<u8>

    /** Every transfer made, as address and length. */
    ghost var accesses: seq<(nat, nat)>

    ghost predicate Valid()
      reads this
    {
      |mem| == MAX_LENGTH
    }

    constructor (contents: seq<u8>)
      requires |contents| == MAX_LENGTH
      ensures Valid() && mem == contents && accesses == []
    {
      mem := contents;
      accesses := [];
    }

    method SpiflashErase()
      modifies this`mem
      ensures Valid() && mem == Blank()
    {
      mem := Blank();
    }

    /** The driver's address and length checks, the wire split, and the store at the device. */
    method SpiflashWrite(address: u32, data: seq<u8>) returns (ok: bool)
      requires Valid()
      modifies this
      ensures Valid() && ok == (address <= 0xF_FFFF && |data| < 0x1_0000)
      ensures mem == if ok then Stored(old(mem), address, data) else old(mem)
      ensures accesses == if ok then old(accesses) + [(address as nat, |data|)] else old(accesses)
    {
      if address > SPIFLASH_MAX_ADDRESS || |data| >= 0x1_0000 {
        return false;
      }
      SplitRecombines(address);
      mem := Stored(mem, Recombined(HighPart(address), LowPart(address)), data);
      accesses := accesses + [(address as nat, |data|)];
      ok := true;
    }

    /** The read checks the length only. */
    method SpiflashRead(address: u32, n: nat) returns (ok: bool, data: seq<u8>)
      requires Valid()
      modifies this`accesses
      ensures ok == (n < 0x1_0000)
      ensures data == if ok then Fetched(mem, address, n) else []
      ensures accesses == if ok then old(accesses) + [(address as nat, n)] else old(accesses)
    {
      if n >= 0x1_0000 {
        return false, [];
      }
      SplitRecombines(address);
      accesses := accesses + [(address as nat, n)];
      return true, Fetched(mem, Recombined(HighPart(address), LowPart(address)), n);
    }
  }

  function Blank(): (r: seq<u8>)
    ensures |r| == MAX_LENGTH
  {
    seq(MAX_LENGTH, _ => ERASED)
  }

  /** What a rewritten flash holds: the data at its address, everything else erased. */
  function Image(address: nat, data: seq<u8>): (r: seq<u8>)
    ensures |r| == MAX_LENGTH
  {
    Stored(Blank(), address, data)
  }

  lemma StoredNext(mem: seq<u8>, at: nat, data: seq<u8>, i: nat, j: nat)
    requires i <= j <= |data|
    ensures Stored(Stored(mem, at, data[..i]), at + i, data[i..j]) == Stored(mem, at, data[..j])
  {
  }

  /** Erase, then write chunk by chunk. On every range the check accepts no write is refused, and the flash
      ends up holding exactly the data and nothing else. */
  method WriteFlash(device: Device, address: u32, data: seq<u8>) returns (ok: bool)
    requires device.Valid() && InFlash(address, |data|)
    modifies device
    ensures device.Valid() && ok && device.mem == Image(address, data)
    ensures device.accesses == old(device.accesses) + Walk(address, |data|)
  {
    hide Stored, Blank, Walk;
    device.SpiflashErase();
    var offset := 0;
    var chunks := new Chunks(address, |data|);
    StoredNothing(Blank(), address);
    assert data[..0] == [];
    while true
      invariant device.Valid() && fresh(chunks)
      invariant 0 <= offset <= |data| && chunks.address == address + offset && chunks.remaining == |data| - offset
      invariant device.mem == Stored(Blank(), address, data[..offset])
      invariant device.accesses + Walk(chunks.address, chunks.remaining) == old(device.accesses) + Walk(address, |data|)
      decreases |data| - offset
    {
      ghost var rest := Walk(chunks.address, chunks.remaining);
      var next := chunks.Next();
      if next.None? {
        break;
      }
      assert device.accesses + rest == (device.accesses + [next.value]) + Walk(chunks.address, chunks.remaining);
      var end := offset + next.value.1;
      var wrote := device.SpiflashWrite(next.value.0, data[offset..end]);
      if !wrote {
        return false;
      }
      StoredNext(Blank(), address, data, offset, end);
      offset := end;
    }
    assert data[..offset] == data;
    ok := true;
  }

  lemma StoredNothing(mem: seq<u8>, at: nat)
    ensures Stored(mem, at, []) == mem
  {
  }

  lemma MemoryNext(mem: seq<u8>, at: nat, i: nat, j: nat)
    requires i <= j && at + j <= |mem|
    ensures mem[at..at + j] == mem[at..at + i] + mem[at + i..at + j]
  {
  }

  /** Read chunk by chunk into one buffer. */
  method ReadFlash(device: Device, address: u32, length: u32) returns (ok: bool, data: seq<u8>)
    requires device.Valid() && InFlash(address, length)
    modifies device`accesses
    ensures device.accesses == old(device.accesses) + Walk(address, length)
    ensures ok && data == device.mem[address..address + length as int]
  {
    hide Walk, Fetched;
    data := [];
    var chunks := new Chunks(address, length);
    while true
      invariant device.Valid() && fresh(chunks)
      invariant |data| <= length && chunks.address == address + |data| && chunks.remaining == length - |data|
      invariant data == device.mem[address..address + |data|]
      invariant device.mem == old(device.mem)
      invariant device.accesses + Walk(chunks.address, chunks.remaining) == old(device.accesses) + Walk(address, length)
      decreases length - |data|
    {
      ghost var rest := Walk(chunks.address, chunks.remaining);
      var next := chunks.Next();
      if next.None? {
        break;
      }
      assert device.accesses + rest == (device.accesses + [next.value]) + Walk(chunks.address, chunks.remaining);
      var read, bytes := device.SpiflashRead(next.value.0, next.value.1);
      if !read {
        return false, [];
      }
      MemoryNext(device.mem, address, |data|, |data| + |bytes|);
      data := data + bytes;
    }
    ok := true;
  }

  /** Reading back what was written gives the data; every byte outside it is erased. */
  lemma ImageReadsBack(address: nat, data: seq<u8>, i: nat)
    requires InFlash(address, |data|) && i < MAX_LENGTH
    ensures Image(address, data)[address..address + |data|] == data
    ensures Image(address, data)[i] == if address <= i < address + |data| then data[i - address] else 0xFF
  {
  }
}
