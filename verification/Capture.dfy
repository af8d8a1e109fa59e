/** Capturing a stream to a file: the byte budget, the WAV header and the rewrite at the end.
    Writes are taken to succeed. */
module Capture {
  import opened MachineInts
  import opened Unpacker
  import opened Packing
  import opened ConversionSpec

  const WAV_HEADER_LEN := 44
  /** The most data bytes a classic WAV file can carry. */
  const WAV_MAX_DATA_BYTES := U32_MAX - WAV_HEADER_LEN

  // ---------- sample bytes ----------

  /** A delivered block; floats as their 32-bit patterns, which is all the capture looks at. */
  datatype Block = Float32(bits: seq<u32>) | Int16(i: seq<i16>) | Uint16(w: seq<u16>) | Raw(b: seq<u8>)

  function Le16(v: u16): (r: seq<u8>)
    ensures |r| == 2
  {
    [v % 0x100, v / 0x100]
  }

  /** The two's complement pattern of a signed sample. */
  function Pattern(v: i16): u16 {
    if v < 0 then v as int + 0x1_0000 else v
  }

  /** The sample memory, little-endian. */
  function BlockBytes(block: Block): seq<u8> {
    match block
    case Float32(bits) => FlattenFloats(bits)
    case Int16(i) => FlattenInts(i)
    case Uint16(w) => FlattenWords(w)
    case Raw(b) => b
  }

  function FlattenFloats(bits: seq<u32>): (r: seq<u8>)
    ensures |r| == 4 * |bits|
  {
    if bits == [] then [] else FlattenFloats(bits[..|bits| - 1]) + LeBytes(bits[|bits| - 1])
  }

  function FlattenInts(i: seq<i16>): (r: seq<u8>)
    ensures |r| == 2 * |i|
  {
    if i == [] then [] else FlattenInts(i[..|i| - 1]) + Le16(Pattern(i[|i| - 1]))
  }

  function FlattenWords(w: seq<u16>): (r: seq<u8>)
    ensures |r| == 2 * |w|
  {
    if w == [] then [] else FlattenWords(w[..|w| - 1]) + Le16(w[|w| - 1])
  }

  method ExtendSampleBytes(out: seq<u8>, block: Block) returns (r: seq<u8>)
    ensures r == out + BlockBytes(block)
  {
    r := out;
    match block {
      case Float32(bits) =>
        for j := 0 to |bits|
          invariant r == out + FlattenFloats(bits[..j])
        {
          assert bits[..j + 1][..j] == bits[..j];
          r := r + LeBytes(bits[j]);
        }
        assert bits[..|bits|] == bits;
      case Int16(i) =>
        for j := 0 to |i|
          invariant r == out + FlattenInts(i[..j])
        {
          assert i[..j + 1][..j] == i[..j];
          r := r + Le16(Pattern(i[j]));
        }
        assert i[..|i|] == i;
      case Uint16(w) =>
        for j := 0 to |w|
          invariant r == out + FlattenWords(w[..j])
        {
          assert w[..j + 1][..j] == w[..j];
          r := r + Le16(w[j]);
        }
        assert w[..|w|] == w;
      case Raw(b) =>
        r := r + b;
    }
  }

  /** The bytes of a word block are the block again when read as the stream's own 16-bit words. */
  lemma {:induction false} WordBytesReadBack(w: seq<u16>)
    ensures LeWords(FlattenWords(w)) == w
  {
    if w != [] {
      var n := |w| - 1;
      WordBytesReadBack(w[..n]);
      var b := FlattenWords(w[..n]);
      forall i | 0 <= i < |w|
        ensures LeWords(FlattenWords(w))[i] == w[i]
      {
        if i < n {
          assert LeWords(b)[i] == w[i];
        }
      }
    }
  }

  lemma {:induction false} IntBytesReadBack(i: seq<i16>)
    ensures forall j | 0 <= j < |i| :: |LeWords(FlattenInts(i))| == |i| && Wrap16(LeWords(FlattenInts(i))[j]) == i[j]
  {
    if i != [] {
      var n := |i| - 1;
      IntBytesReadBack(i[..n]);
      var b := FlattenInts(i[..n]);
      forall j | 0 <= j < |i|
        ensures Wrap16(LeWords(FlattenInts(i))[j]) == i[j]
      {
        if j < n {
          assert LeWords(FlattenInts(i))[j] == LeWords(b)[j];
        } else {
          assert LeWords(FlattenInts(i))[n] == Pattern(i[n]);
          Wrap16Unique(Pattern(i[n]), i[n], if i[n] < 0 then 1 else 0);
        }
      }
    }
  }

  /** The 32-bit words a byte sequence holds, low byte first. */
  function LeWords32(bytes: seq<u8>): (r: seq<u32>)
    ensures |r| == |bytes| / 4
  {
    seq(|bytes| / 4, i requires 0 <= i < |bytes| / 4 => WordAt(bytes, i))
  }

  /** Float bit patterns read back the same way. */
  lemma {:induction false} FloatBytesReadBack(bits: seq<u32>)
    ensures LeWords32(FlattenFloats(bits)) == bits
  {
    hide LeBytes, WordAt;
    if bits != [] {
      var n := |bits| - 1;
      FloatBytesReadBack(bits[..n]);
      var b, w := FlattenFloats(bits[..n]), LeBytes(bits[n]);
      forall i | 0 <= i < |bits|
        ensures LeWords32(b + w)[i] == bits[i]
      {
        if i < n {
          WordOfFirst(b, w, i);
          assert LeWords32(b)[i] == bits[..n][i];
        } else {
          WordOfSecond(b, w, n, 0);
          LeBytesOfWord(bits[n], w, 0);
        }
      }
    }
  }

  /** Raw blocks are captured as they are. */
  lemma RawBytesKept(b: seq<u8>)
    ensures BlockBytes(Block.Raw(b)) == b
  {
  }

  // ---------- the byte budget ----------

  /** What is left of a budget after `n` bytes; `None` is unlimited. */
  function Left(budget: Option<nat>, n: nat): Option<nat> {
    match budget
    case None => None
    case Some(b) => Some(if n >= b then 0 else b - n)
  }

  /** How many of `n` bytes a budget lets through. */
  function Allowed(budget: Option<nat>, n: nat): (r: nat)
    ensures r <= n
  {
    match budget
    case None => n
    case Some(b) => if n >= b then b else n
  }

  method ApplyByteBudget(remaining: Option<nat>, blockLen: nat) returns (bytesToWrite: nat, left: Option<nat>)
    ensures bytesToWrite == Allowed(remaining, blockLen) && left == Left(remaining, blockLen)
  {
    if remaining.None? {
      return blockLen, None;
    }
    bytesToWrite := if blockLen >= remaining.value then remaining.value else blockLen;
    left := Some(remaining.value - bytesToWrite);
  }

  /** The first block, counted from 0, whose bytes reach the budget ends the capture. */
  predicate Exhausted(budget: Option<nat>, blocks: seq<Block>) {
    budget.Some? && budget.value <= |DataOf(blocks)|
  }

  /** Everything delivered, end to end. */
  function DataOf(blocks: seq<Block>): seq<u8> {
    if blocks == [] then [] else DataOf(blocks[..|blocks| - 1]) + BlockBytes(blocks[|blocks| - 1])
  }

  /** What a capture with this budget keeps of the delivered bytes. */
  function Kept(budget: Option<nat>, blocks: seq<Block>): seq<u8> {
    DataOf(blocks)[..Allowed(budget, |DataOf(blocks)|)]
  }

  /** What is kept is as long a prefix as the budget allows. */
  lemma KeptIs(budget: Option<nat>, blocks: seq<Block>)
    ensures var d, k := DataOf(blocks), Kept(budget, blocks);
            && k <= d
            && (budget.None? ==> k == d)
            && (budget.Some? && |d| <= budget.value ==> k == d)
            && (budget.Some? && |d| > budget.value ==> |k| == budget.value)
            && (Exhausted(budget, blocks) <==> budget.Some? && |k| == budget.value)
  {
  }

  // ---------- the WAV header ----------

  datatype WavParams = WavParams(formatTag: u16, channels: u16, bitsPerSample: u16)

  function BlockAlign(p: WavParams): nat {
    p.channels as int * (p.bitsPerSample / 8)
  }

  function Read16(h: seq<u8>, at: nat): nat
    requires at + 2 <= |h|
  {
    h[at] + 0x100 * (h[at + 1] as int)
  }

  function Read32(h: seq<u8>, at: nat): nat
    requires at + 4 <= |h|
  {
    h[at] + 0x100 * (h[at + 1] as int) + 0x1_0000 * (h[at + 2] as int) + 0x100_0000 * (h[at + 3] as int)
  }

  /** `bytes[at..at + |src|].copy_from_slice(src)`. */
  method Put(bytes: array<u8>, at: nat, src: seq<u8>)
    requires at + |src| <= bytes.Length
    modifies bytes
    ensures forall j | 0 <= j < bytes.Length ::
              bytes[j] == if at <= j < at + |src| then src[j - at] else old(bytes[j])
  {
    forall i | 0 <= i < |src| {
      bytes[at + i] := src[i];
    }
  }

  const RIFF: seq<u8> := [0x52, 0x49, 0x46, 0x46]
  const WAVE: seq<u8> := [0x57, 0x41, 0x56, 0x45]
  const FMT: seq<u8> := [0x66, 0x6D, 0x74, 0x20]
  const DATA: seq<u8> := [0x64, 0x61, 0x74, 0x61]

  /** The chunk ids and the one fixed size. */
  ghost predicate Framed(h: seq<u8>) {
    && |h| == WAV_HEADER_LEN
    && Holds(h, 0, RIFF) && Holds(h, 8, WAVE) && Holds(h, 12, FMT)
    && Holds(h, 16, LeBytes(16)) && Holds(h, 36, DATA)
  }

  /** `field` stands at offset `at`. */
  ghost predicate Holds(h: seq<u8>, at: nat, field: seq<u8>) {
    at + |field| <= |h| && forall j | at <= j < at + |field| :: h[j] == field[j - at]
  }

  /** The frame with everything to be filled in later still zero. */
  ghost predicate Placeholder(h: seq<u8>) {
    Framed(h) && forall j | 4 <= j < 8 || 20 <= j < 36 || 40 <= j < WAV_HEADER_LEN :: h[j] == 0
  }

  method WavHeaderPlaceholder() returns (bytes: array<u8>)
    ensures fresh(bytes) && Placeholder(bytes[..])
  {
    bytes := new u8[WAV_HEADER_LEN](_ => 0);
    Put(bytes, 0, RIFF);
    Put(bytes, 8, WAVE);
    Put(bytes, 12, FMT);
    Put(bytes, 16, LeBytes(16));
    Put(bytes, 36, DATA);
  }

  lemma ReadLe32(h: seq<u8>, at: nat, v: u32)
    requires Holds(h, at, LeBytes(v))
    ensures Read32(h, at) == v
  {
    assert v == v % 0x100 + v / 0x100 * 0x100;
    assert v / 0x100 == v / 0x100 % 0x100 + v / 0x1_0000 * 0x100;
    assert v / 0x1_0000 == v / 0x1_0000 % 0x100 + v / 0x100_0000 * 0x100;
  }

  lemma ReadLe16(h: seq<u8>, at: nat, v: u16)
    requires Holds(h, at, Le16(v))
    ensures Read16(h, at) == v
  {
  }

  function WrappingSub32(a: u32, b: u32): u32 {
    if a >= b then a - b else a as int - b + 0x1_0000_0000
  }

  /** The format fields of the header; the frame and the two sizes stay as they are. */
  method PutFormat(bytes: array<u8>, params: WavParams, samplesPerSec: u32)
    requires bytes.Length == WAV_HEADER_LEN && BlockAlign(params) <= 0xFFFF
    modifies bytes
    ensures forall j | 0 <= j < 20 || 36 <= j < WAV_HEADER_LEN :: bytes[j] == old(bytes[j])
    ensures Read16(bytes[..], 20) == params.formatTag && Read16(bytes[..], 22) == params.channels
    ensures Read32(bytes[..], 24) == samplesPerSec
    ensures Read32(bytes[..], 28) == samplesPerSec * BlockAlign(params) % 0x1_0000_0000
    ensures Read16(bytes[..], 32) == BlockAlign(params) && Read16(bytes[..], 34) == params.bitsPerSample
  {
    hide Le16, LeBytes, Read16, Read32, BlockAlign;
    var avg: u32 := samplesPerSec * BlockAlign(params) % 0x1_0000_0000;
    Put(bytes, 20, Le16(params.formatTag));
    Put(bytes, 22, Le16(params.channels));
    Put(bytes, 24, LeBytes(samplesPerSec));
    Put(bytes, 28, LeBytes(avg));
    Put(bytes, 32, Le16(BlockAlign(params)));
    Put(bytes, 34, Le16(params.bitsPerSample));
    ghost var h := bytes[..];
    ReadLe16(h, 20, params.formatTag);
    ReadLe16(h, 22, params.channels);
    ReadLe32(h, 24, samplesPerSec);
    ReadLe32(h, 28, avg);
    ReadLe16(h, 32, BlockAlign(params));
    ReadLe16(h, 34, params.bitsPerSample);
  }

  /** The ids spell what they should. */
  lemma ChunkIds()
    ensures |RIFF| == |WAVE| == |FMT| == |DATA| == 4
    ensures forall i | 0 <= i < 4 :: RIFF[i] == "RIFF"[i] as int && WAVE[i] == "WAVE"[i] as int
    ensures forall i | 0 <= i < 4 :: FMT[i] == "fmt "[i] as int && DATA[i] == "data"[i] as int
  {
  }

  /** For samples of whole bytes the alignment field is the bytes of one sample of all channels. */
  lemma AlignIsFrame(p: WavParams)
    requires p.bitsPerSample % 8 == 0
    ensures 8 * BlockAlign(p) == p.channels as int * p.bitsPerSample
  {
    var b := p.bitsPerSample / 8;
    assert p.bitsPerSample == 8 * b;
  }

  method WavHeaderFinalized(filePos: u32, params: WavParams, samplesPerSec: u32) returns (bytes: array<u8>)
    requires BlockAlign(params) <= 0xFFFF
    ensures fresh(bytes) && Framed(bytes[..])
    ensures Read32(bytes[..], 4) == WrappingSub32(filePos, 8)
    ensures Read32(bytes[..], 40) == WrappingSub32(filePos, WAV_HEADER_LEN)
    ensures Read16(bytes[..], 20) == params.formatTag && Read16(bytes[..], 22) == params.channels
    ensures Read32(bytes[..], 24) == samplesPerSec
    ensures Read32(bytes[..], 28) == samplesPerSec * BlockAlign(params) % 0x1_0000_0000
    ensures Read16(bytes[..], 32) == BlockAlign(params) && Read16(bytes[..], 34) == params.bitsPerSample
  {
    bytes := WavHeaderPlaceholder();
    Put(bytes, 4, LeBytes(WrappingSub32(filePos, 8)));
    Put(bytes, 40, LeBytes(WrappingSub32(filePos, WAV_HEADER_LEN)));
    hide Le16, LeBytes, Read16, Read32, BlockAlign, WrappingSub32;
    PutFormat(bytes, params, samplesPerSec);
    ReadLe32(bytes[..], 4, WrappingSub32(filePos, 8));
    ReadLe32(bytes[..], 40, WrappingSub32(filePos, WAV_HEADER_LEN));
  }

  // ---------- a whole capture ----------

  /** The budget a run starts with: the sample limit, capped for `-w`. */
  function StartBudget(wav: bool, limit: Option<nat>): Option<nat> {
    if !wav then limit
    else if limit.None? || limit.value > WAV_MAX_DATA_BYTES then Some(WAV_MAX_DATA_BYTES)
    else limit
  }

  /** Without `-w` the limit is the budget; with it, at most what lets the file's length still fit 32
      bits, and no less. */
  lemma StartBudgetIs(limit: Option<nat>)
    ensures StartBudget(false, limit) == limit
    ensures var b := StartBudget(true, limit);
            && b.Some? && 44 + b.value <= 0xFFFF_FFFF
            && (limit.Some? && 44 + limit.value <= 0xFFFF_FFFF ==> b == limit)
            && (limit.None? || 44 + limit.value > 0xFFFF_FFFF ==> 44 + b.value == 0xFFFF_FFFF)
  {
  }

  /** The state the callback shares with the main loop, and the file behind its writer. */
  class Capture {
    const wav: bool
    const start: Option<nat>
    var file: seq<u8>
    var remaining: Option<nat>
    var buf: seq<u8>
    ghost var blocks: seq<Block>

    ghost predicate Valid()
      reads this
    {
      && remaining == Left(start, |DataOf(blocks)|)
      && (wav ==> |file| >= WAV_HEADER_LEN && start.Some? && start.value <= WAV_MAX_DATA_BYTES)
      && Data() == Kept(start, blocks)
    }

    /** The sample data in the file, behind the header if there is one. */
    ghost function Data(): seq<u8>
      reads this
    {
      if wav && |file| >= WAV_HEADER_LEN then file[WAV_HEADER_LEN..] else file
    }

    constructor (wav: bool, limit: Option<nat>)
      ensures Valid() && this.wav == wav && start == StartBudget(wav, limit) && blocks == []
      ensures if wav then Placeholder(file) else file == []
    {
      this.wav := wav;
      start := StartBudget(wav, limit);
      remaining := StartBudget(wav, limit);
      buf, blocks, file := [], [], [];
      new;
      if wav {
        var header := WavHeaderPlaceholder();
        file := header[..];
      }
    }

    /** `on_transfer`: false is the stop the stream sees. */
    method OnTransfer(block: Block) returns (keep: bool)
      requires Valid()
      modifies this
      ensures Valid() && blocks == old(blocks) + [block]
      ensures keep == !Exhausted(start, blocks)
    {
      hide DataOf, Kept, BlockBytes;
      DataSnoc(blocks, block);
      KeptSnoc(start, blocks, block);
      buf := ExtendSampleBytes([], block);
      var bytesToWrite;
      bytesToWrite, remaining := ApplyByteBudget(remaining, |buf|);
      file := file + buf[..bytesToWrite];
      blocks := blocks + [block];
      keep := remaining != Some(0);
    }

    /** `rewrite_wav_header`, when the capture is over. */
    method Finalize(params: WavParams, samplesPerSec: u32) returns (ok: bool)
      requires Valid() && wav && BlockAlign(params) <= 0xFFFF
      modifies this
      ensures ok && Valid() && blocks == old(blocks) && |file| == old(|file|)
      ensures Framed(file[..WAV_HEADER_LEN])
      ensures Read32(file, 4) == |file| - 8
      ensures Read32(file, 40) == |Kept(start, blocks)|
      ensures Read32(file, 24) == samplesPerSec && Read16(file, 32) == BlockAlign(params)
    {
      assert |file| == WAV_HEADER_LEN + |Kept(start, blocks)|;
      if |file| > U32_MAX {
        return false;
      }
      var header := WavHeaderFinalized(|file|, params, samplesPerSec);
      ghost var data := file[WAV_HEADER_LEN..];
      file := header[..] + file[WAV_HEADER_LEN..];
      assert file[WAV_HEADER_LEN..] == data && file[..WAV_HEADER_LEN] == header[..];
      ok := true;
    }
  }

  lemma DataSnoc(blocks: seq<Block>, block: Block)
    ensures DataOf(blocks + [block]) == DataOf(blocks) + BlockBytes(block)
  {
    assert (blocks + [block])[..|blocks|] == blocks;
  }

  lemma AllowedInParts(budget: Option<nat>, m: nat, n: nat)
    ensures Allowed(budget, m + n) == Allowed(budget, m) + Allowed(Left(budget, m), n)
    ensures Allowed(budget, m) < m ==> Allowed(Left(budget, m), n) == 0
    ensures Left(budget, m + n) == Left(Left(budget, m), n)
  {
  }

  lemma PrefixInParts<T>(a: seq<T>, b: seq<T>, p: nat, q: nat)
    requires p <= |a| && q <= |b| && (p < |a| ==> q == 0)
    ensures (a + b)[..p + q] == a[..p] + b[..q]
  {
  }

  /** One more block: what is kept grows by what the rest of the budget lets through. */
  lemma KeptSnoc(budget: Option<nat>, blocks: seq<Block>, block: Block)
    ensures var n := |DataOf(blocks)|;
            && Kept(budget, blocks + [block])
               == Kept(budget, blocks) + BlockBytes(block)[..Allowed(Left(budget, n), |BlockBytes(block)|)]
            && Left(budget, |DataOf(blocks + [block])|) == Left(Left(budget, n), |BlockBytes(block)|)
  {
    hide DataOf, BlockBytes, Allowed, Left;
    DataSnoc(blocks, block);
    var d, x := DataOf(blocks), BlockBytes(block);
    AllowedInParts(budget, |d|, |x|);
    PrefixInParts(d, x, Allowed(budget, |d|), Allowed(Left(budget, |d|), |x|));
  }

  /** The capture runs over any sequence of blocks: the file holds exactly the first bytes of what
      was delivered, up to the budget; the callback first says stop at the block that exhausts it;
      and the finalized header gives the file's and the data's true sizes, with no 32-bit wrap. */
  method CaptureAll(wav: bool, limit: Option<nat>, delivered: seq<Block>, params: WavParams, rate: u32)
      returns (file: seq<u8>, stoppedAt: Option<nat>)
    requires BlockAlign(params) <= 0xFFFF
    ensures !wav ==> file == Kept(limit, delivered)
    ensures wav ==>
              && |file| >= WAV_HEADER_LEN && file[WAV_HEADER_LEN..] == Kept(StartBudget(wav, limit), delivered)
              && Read32(file, 4) == |file| - 8 && Read32(file, 40) == |file| - WAV_HEADER_LEN
    ensures stoppedAt.Some? <==> delivered != [] && Exhausted(StartBudget(wav, limit), delivered)
    ensures stoppedAt.Some? ==>
              && stoppedAt.value < |delivered|
              && Exhausted(StartBudget(wav, limit), delivered[..stoppedAt.value + 1])
              && (stoppedAt.value > 0 ==> !Exhausted(StartBudget(wav, limit), delivered[..stoppedAt.value]))
  {
    hide BlockBytes, DataOf, Kept, Framed, Read32, Read16, BlockAlign;
    var c := new Capture(wav, limit);
    stoppedAt := None;
    for j := 0 to |delivered|
      invariant c.Valid() && c.wav == wav && c.start == StartBudget(wav, limit) && c.blocks == delivered[..j]
      invariant stoppedAt.None? ==> j == 0 || !Exhausted(c.start, delivered[..j])
      invariant stoppedAt.Some? ==>
                  && stoppedAt.value < j && Exhausted(c.start, delivered[..stoppedAt.value + 1])
                  && Exhausted(c.start, delivered[..j])
                  && (stoppedAt.value > 0 ==> !Exhausted(c.start, delivered[..stoppedAt.value]))
    {
      assert delivered[..j + 1] == delivered[..j] + [delivered[j]];
      DataSnoc(delivered[..j], delivered[j]);
      var keep := c.OnTransfer(delivered[j]);
      if !keep && stoppedAt.None? {
        stoppedAt := Some(j);
      }
    }
    assert delivered[..|delivered|] == delivered;
    if wav {
      var ok := c.Finalize(params, rate);
    }
    file := c.file;
  }

  lemma EvenProduct(unit: nat, half: nat, q: nat)
    requires unit == half + half
    ensures unit * q % 2 == 0
  {
    assert unit * q == half * q + half * q;
  }

  lemma EvenMultiple(n: nat, unit: nat)
    requires unit > 0 && unit % 2 == 0
    ensures n % unit == 0 ==> n % 2 == 0
  {
    if n % unit == 0 {
      assert n == unit * (n / unit);
      EvenProduct(unit, unit / 2, n / unit);
    }
  }

  /** The cap is odd, so a WAV capture of whole units of any even size ends on a unit boundary if and
      only if it was not cut short, or was cut by a limit that is itself within the cap and a whole
      number of units: the cap alone always cuts inside a unit. */
  lemma CapCutsMidUnit(limit: Option<nat>, blocks: seq<Block>, unit: nat)
    requires unit > 0 && unit % 2 == 0 && |DataOf(blocks)| % unit == 0
    ensures |Kept(StartBudget(true, limit), blocks)| % unit == 0 <==>
              || (|DataOf(blocks)| <= WAV_MAX_DATA_BYTES && (limit.None? || |DataOf(blocks)| <= limit.value))
              || (limit.Some? && limit.value <= WAV_MAX_DATA_BYTES && limit.value % unit == 0)
  {
    hide DataOf;
    EvenMultiple(WAV_MAX_DATA_BYTES, unit);
  }
}
