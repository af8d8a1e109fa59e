/** What one delivered block converts to, for every sample type and packing mode, and why the
    boundaries between stream buffers are invisible. */
module ConversionSpec {
  import opened MachineInts
  import opened Unpacker
  import opened Packing
  import opened IqInt16Spec
  import opened FirProperties
  import opened ConverterProperties
  import Float = IqFloatSpec
  import FloatProperties

  datatype SampleType = Float32Iq | Float32Real | Int16Iq | Int16Real | Uint16Real | Raw

  datatype Samples =
    | Float32(f: seq<real>)
    | Int16(i: seq<i16>)
    | Uint16(u: seq<u16>)
    | Bytes(b: seq<u8>)

  /** The little-endian `u16` view of an unpacked buffer; a last odd byte is dropped. */
  function LeWords(bytes: seq<u8>): (r: seq<u16>)
    ensures |r| == |bytes| / 2
  {
    seq(|bytes| / 2, i requires 0 <= i < |bytes| / 2 => bytes[2 * i] + 0x100 * (bytes[2 * i + 1] as int))
  }

  function BlockWords(packing: bool, bytes: seq<u8>): seq<u16> {
    if packing then Unpacked(bytes) else LeWords(bytes)
  }

  /** `(src - 2048) << 4` stored as `i16`. */
  function ToInt16(words: seq<u16>): (r: seq<i16>)
    ensures |r| == |words|
  {
    seq(|words|, j requires 0 <= j < |words| => Wrap16((words[j] as int - 2048) * 16))
  }

  function ToFloat(words: seq<u16>): (r: seq<real>)
    ensures |r| == |words|
  {
    seq(|words|, j requires 0 <= j < |words| => (words[j] as int - 2048) as real / 2048.0)
  }

  /** Complete IQ pairs only. */
  function WholePairs<T>(s: seq<T>): seq<T> {
    s[..|s| / 2 * 2]
  }

  /** The two converters' states, carried from block to block. */
  datatype Carried = Carried(cnvI: ConvState, cnvF: Float.State)

  ghost predicate StockShape(c: Carried) {
    |c.cnvI.hist| == 23 && |c.cnvF.hist| == 23
  }

  const FLOAT_TAPS: seq<real> := FloatProperties.HALF + FloatProperties.CENTRE + FloatProperties.OTHER_HALF
  const FLOAT_HBC := 0.5

  function BlockSamples(t: SampleType, packing: bool, bytes: seq<u8>, c: Carried): Samples
    requires StockShape(c)
  {
    var words := BlockWords(packing, bytes);
    match t
    case Raw => Bytes(bytes)
    case Uint16Real => Uint16(words)
    case Int16Real => Int16(ToInt16(words))
    case Float32Real => Float32(ToFloat(words))
    case Int16Iq => Int16(WholePairs(ProcessOut(STOCK_TAPS, c.cnvI, ToInt16(words))))
    case Float32Iq => Float32(WholePairs(Float.ProcessOut(FLOAT_TAPS, FLOAT_HBC, c.cnvF, ToFloat(words))))
  }

  function BlockCount(t: SampleType, packing: bool, bytes: seq<u8>): nat {
    match t
    case Raw => if packing then UnpackedSampleCount(|bytes|) else |bytes| / 2
    case Float32Iq | Int16Iq => |BlockWords(packing, bytes)| / 2
    case _ => |BlockWords(packing, bytes)|
  }

  function BlockCarried(t: SampleType, packing: bool, bytes: seq<u8>, c: Carried): (r: Carried)
    requires StockShape(c)
    ensures StockShape(r)
  {
    var words := BlockWords(packing, bytes);
    match t
    case Int16Iq => c.(cnvI := ProcessState(c.cnvI, ToInt16(words)))
    case Float32Iq => c.(cnvF := Float.ProcessState(FLOAT_HBC, c.cnvF, ToFloat(words)))
    case _ => c
  }

  // ---------- block boundaries ----------

  /** Samples of two consecutive blocks of one stream, end to end. */
  function Joined(a: Samples, b: Samples): Samples
    requires a.Float32? == b.Float32? && a.Int16? == b.Int16? && a.Uint16? == b.Uint16?
  {
    match a
    case Float32(f) => Float32(f + b.f)
    case Int16(i) => Int16(i + b.i)
    case Uint16(u) => Uint16(u + b.u)
    case Bytes(x) => Bytes(x + b.b)
  }

  /** A block that ends on a phase boundary of the converters: a multiple of four words. */
  predicate Aligned(packing: bool, n: nat) {
    if packing then n % 12 == 0 else n % 8 == 0
  }

  lemma LeWordsAppend(a: seq<u8>, b: seq<u8>, m: nat)
    requires |a| == 2 * m
    ensures LeWords(a + b) == LeWords(a) + LeWords(b)
  {
    var ab := LeWords(a + b);
    forall i | 0 <= i < |ab|
      ensures ab[i] == (LeWords(a) + LeWords(b))[i]
    {
      if i >= m {
        assert (a + b)[2 * i] == b[2 * (i - m)] && (a + b)[2 * i + 1] == b[2 * (i - m) + 1];
      }
    }
  }

  lemma WordsAppend(packing: bool, a: seq<u8>, b: seq<u8>)
    requires Aligned(packing, |a|)
    ensures BlockWords(packing, a + b) == BlockWords(packing, a) + BlockWords(packing, b)
    ensures |BlockWords(packing, a)| % 4 == 0
  {
    hide LeWords, Available, SampleAt;
    if packing {
      UnpackAppend(a, b);
      AvailableAppend(|a| / 12, 0);
    } else {
      var m := |a| / 8;
      LeWordsAppend(a, b, 4 * m);
    }
  }

  lemma ConvertedAppend(u: seq<u16>, v: seq<u16>)
    ensures ToInt16(u + v) == ToInt16(u) + ToInt16(v)
    ensures ToFloat(u + v) == ToFloat(u) + ToFloat(v)
  {
    hide Wrap16;
  }

  lemma PairsAppend<T>(a: seq<T>, b: seq<T>)
    requires |a| % 4 == 0
    ensures WholePairs(a + b) == WholePairs(a) + WholePairs(b)
  {
    HalfAppend(|a|, |b|);
    HalfOfSum(|a| / 4 * 2, 0);
    TakeFromSecond(a, b, |b| / 2 * 2);
  }

  lemma TakeFromSecond<T>(a: seq<T>, b: seq<T>, n: nat)
    requires n <= |b|
    ensures (a + b)[..|a| + n] == a + b[..n] && a[..|a|] == a
  {
  }

  /** Two consecutive blocks, the first aligned, convert as their concatenation does: the samples
      and the carried state, for every sample type and both packing modes. */
  ghost predicate AppendsInvisibly(t: SampleType, packing: bool, a: seq<u8>, b: seq<u8>, c: Carried)
    requires StockShape(c)
  {
    var m := BlockCarried(t, packing, a, c);
    && BlockSamples(t, packing, a + b, c) == Joined(BlockSamples(t, packing, a, c), BlockSamples(t, packing, b, m))
    && BlockCarried(t, packing, a + b, c) == BlockCarried(t, packing, b, m)
  }

  lemma Int16IqAppend(packing: bool, a: seq<u8>, b: seq<u8>, c: Carried)
    requires StockShape(c) && Aligned(packing, |a|)
    ensures AppendsInvisibly(Int16Iq, packing, a, b, c)
  {
    hide BlockWords, ToInt16, ToFloat, ProcessOut, ProcessState, WholePairs;
    WordsAppend(packing, a, b);
    ConvertedAppend(BlockWords(packing, a), BlockWords(packing, b));
    var x, y := ToInt16(BlockWords(packing, a)), ToInt16(BlockWords(packing, b));
    ProcessAppend(STOCK_TAPS, c.cnvI, x, y);
    PairsAppend(ProcessOut(STOCK_TAPS, c.cnvI, x), ProcessOut(STOCK_TAPS, ProcessState(c.cnvI, x), y));
  }

  lemma Float32IqAppend(packing: bool, a: seq<u8>, b: seq<u8>, c: Carried)
    requires StockShape(c) && Aligned(packing, |a|)
    ensures AppendsInvisibly(Float32Iq, packing, a, b, c)
  {
    hide BlockWords, ToInt16, ToFloat, Float.ProcessOut, Float.ProcessState, WholePairs;
    WordsAppend(packing, a, b);
    ConvertedAppend(BlockWords(packing, a), BlockWords(packing, b));
    var x, y := ToFloat(BlockWords(packing, a)), ToFloat(BlockWords(packing, b));
    FloatProperties.ProcessAppend(FLOAT_TAPS, FLOAT_HBC, c.cnvF, x, y);
    PairsAppend(Float.ProcessOut(FLOAT_TAPS, FLOAT_HBC, c.cnvF, x),
                Float.ProcessOut(FLOAT_TAPS, FLOAT_HBC, Float.ProcessState(FLOAT_HBC, c.cnvF, x), y));
  }

  lemma BlockAppend(t: SampleType, packing: bool, a: seq<u8>, b: seq<u8>, c: Carried)
    requires StockShape(c) && Aligned(packing, |a|)
    ensures AppendsInvisibly(t, packing, a, b, c)
  {
    if t == Int16Iq {
      Int16IqAppend(packing, a, b, c);
    } else if t == Float32Iq {
      Float32IqAppend(packing, a, b, c);
    } else {
      hide BlockWords, ToInt16, ToFloat, ProcessOut, ProcessState, Float.ProcessOut, Float.ProcessState, WholePairs;
      WordsAppend(packing, a, b);
      ConvertedAppend(BlockWords(packing, a), BlockWords(packing, b));
    }
  }

  /** The reported counts add up as well. */
  lemma CountAppend(t: SampleType, packing: bool, a: seq<u8>, b: seq<u8>)
    requires Aligned(packing, |a|)
    ensures BlockCount(t, packing, a + b) == BlockCount(t, packing, a) + BlockCount(t, packing, b)
  {
    if t == Raw {
      RawCountAppend(packing, |a|, |b|);
    } else {
      hide BlockWords;
      WordsAppend(packing, a, b);
      HalfAppend(|BlockWords(packing, a)|, |BlockWords(packing, b)|);
    }
  }

  lemma HalfAppend(m: nat, n: nat)
    requires m % 4 == 0
    ensures (m + n) / 2 == m / 2 + n / 2
  {
    HalfOfSum(m / 4 * 2, n);
  }

  lemma HalfOfSum(k: nat, n: nat)
    ensures (2 * k + n) / 2 == k + n / 2
  {
  }

  lemma RawCountAppend(packing: bool, m: nat, n: nat)
    requires Aligned(packing, m)
    ensures packing ==> UnpackedSampleCount(m + n) == UnpackedSampleCount(m) + UnpackedSampleCount(n)
    ensures !packing ==> (m + n) / 2 == m / 2 + n / 2
  {
    if packing {
      assert m == 12 * (m / 12);
      assert UnpackedSampleCount(0) == 0;
      hide UnpackedSampleCount;
      TwoThirdsOfSum(m / 12, n);
      TwoThirdsOfSum(m / 12, 0);
    } else {
      HalfAppend(m, n);
    }
  }

  lemma TwoThirdsOfSum(k: nat, n: nat)
    ensures UnpackedSampleCount(12 * k + n) == 8 * k + UnpackedSampleCount(n)
  {
    assert (12 * k + n) * 2 == 3 * (8 * k) + n * 2;
  }

  function StreamSamples(t: SampleType, packing: bool, blocks: seq<seq<u8>>, c: Carried): (r: Samples)
    requires StockShape(c)
    ensures r.Float32? == (t.Float32Iq? || t.Float32Real?)
    ensures r.Int16? == (t.Int16Iq? || t.Int16Real?)
    ensures r.Uint16? == t.Uint16Real?
  {
    if blocks == [] then BlockSamples(t, packing, [], c)
    else
      var was := blocks[..|blocks| - 1];
      Joined(StreamSamples(t, packing, was, c),
             BlockSamples(t, packing, blocks[|blocks| - 1], StreamCarried(t, packing, was, c)))
  }

  function StreamCarried(t: SampleType, packing: bool, blocks: seq<seq<u8>>, c: Carried): (r: Carried)
    requires StockShape(c)
    ensures StockShape(r)
  {
    if blocks == [] then c
    else
      var was := blocks[..|blocks| - 1];
      BlockCarried(t, packing, blocks[|blocks| - 1], StreamCarried(t, packing, was, c))
  }

  lemma EmptyBlock(t: SampleType, packing: bool, c: Carried)
    requires StockShape(c)
    ensures BlockCarried(t, packing, [], c) == c
  {
    assert BlockWords(packing, []) == [];
  }

  /** Any number of aligned blocks converted one by one, the state carried along, is the one-shot
      conversion of all their bytes; the last block may have any length. */
  lemma {:induction false} BoundariesInvisible(t: SampleType, packing: bool, blocks: seq<seq<u8>>, c: Carried)
    requires StockShape(c)
    requires forall i | 0 <= i < |blocks| - 1 :: Aligned(packing, |blocks[i]|)
    ensures StreamSamples(t, packing, blocks, c) == BlockSamples(t, packing, Concat(blocks), c)
    ensures StreamCarried(t, packing, blocks, c) == BlockCarried(t, packing, Concat(blocks), c)
  {
    hide BlockSamples, BlockCarried;
    if blocks == [] {
      EmptyBlock(t, packing, c);
    } else {
      var was := blocks[..|blocks| - 1];
      BoundariesInvisible(t, packing, was, c);
      if packing {
        ConcatAligned(was, 12);
      } else {
        ConcatAligned(was, 8);
      }
      BlockAppend(t, packing, Concat(was), blocks[|blocks| - 1], c);
    }
  }

  /** Bytes per bulk transfer in each packing mode. */
  const BUFFER_SIZE := 262144
  const PACKED_BUFFER_SIZE := 6144 * 24

  function BufferSizeFor(packing: bool): nat {
    if packing then PACKED_BUFFER_SIZE else BUFFER_SIZE
  }

  /** In particular the buffers a stream actually delivers, in either geometry, hold a whole
      number of phase cycles. */
  lemma StreamBuffersInvisible(t: SampleType, packing: bool, blocks: seq<seq<u8>>, c: Carried)
    requires StockShape(c)
    requires forall i | 0 <= i < |blocks| :: |blocks[i]| == BufferSizeFor(packing)
    ensures StreamSamples(t, packing, blocks, c) == BlockSamples(t, packing, Concat(blocks), c)
    ensures BufferSizeFor(true) == 147_456 && BufferSizeFor(false) == 262_144
  {
    hide BlockSamples, StreamSamples;
    BufferSizesAligned();
    hide BufferSizeFor, Aligned;
    BoundariesInvisible(t, packing, blocks, c);
  }

  lemma BufferSizesAligned()
    ensures BufferSizeFor(true) == 147_456 && BufferSizeFor(false) == 262_144
    ensures forall packing :: Aligned(packing, BufferSizeFor(packing))
  {
  }

  /** The samples a packed stream carries, centred and scaled over unbounded integers. */
  function Centred(words: seq<u16>): (r: seq<int>)
    ensures |r| == |words|
  {
    seq(|words|, j requires 0 <= j < |words| => (words[j] as int - 2048) * 16)
  }

  /** The conversion's cast loses nothing exactly on words of 12 bits. */
  lemma TwelveBitWordFits(w: u16)
    ensures Wrap16((w as int - 2048) * 16) == (w as int - 2048) * 16 <==> w < 0x1000
  {
    hide Wrap16;
    if w < 0x1000 {
      Wrap16Fits((w as int - 2048) * 16);
    }
  }

  /** The words of a packed stream have 12 bits, so the conversion's cast loses nothing. */
  lemma PackedWordsCentred(bytes: seq<u8>)
    ensures ToInt16(Unpacked(bytes)) == Centred(Unpacked(bytes))
  {
    hide Wrap16, SampleAt, Available;
    var words := Unpacked(bytes);
    forall j | 0 <= j < |words|
      ensures ToInt16(words)[j] == Centred(words)[j]
    {
      assert words[j] == SampleAt(bytes, j);
      TwelveBitWordFits(words[j]);
    }
  }

  // ---------- what is delivered ----------

  /** Complete pairs are a prefix, in order, and everything if the length is even. */
  lemma PairsArePrefix<T>(s: seq<T>)
    ensures WholePairs(s) <= s && |WholePairs(s)| == 2 * (|s| / 2)
    ensures |s| % 2 == 0 ==> WholePairs(s) == s
  {
  }

  /** An IQ block delivers the converter's output in order, all of it but an unpaired last value. */
  lemma IqBlocksArePrefixes(packing: bool, bytes: seq<u8>, c: Carried)
    requires StockShape(c)
    ensures var words := BlockWords(packing, bytes);
            var i, f := BlockSamples(Int16Iq, packing, bytes, c).i, BlockSamples(Float32Iq, packing, bytes, c).f;
            && i <= ProcessOut(STOCK_TAPS, c.cnvI, ToInt16(words))
            && f <= Float.ProcessOut(FLOAT_TAPS, FLOAT_HBC, c.cnvF, ToFloat(words))
            && |i| == |f| == 2 * (|words| / 2)
  {
    hide ProcessOut, Float.ProcessOut, ToInt16, ToFloat, BlockWords, WholePairs;
    PairsArePrefix(ProcessOut(STOCK_TAPS, c.cnvI, ToInt16(BlockWords(packing, bytes))));
    PairsArePrefix(Float.ProcessOut(FLOAT_TAPS, FLOAT_HBC, c.cnvF, ToFloat(BlockWords(packing, bytes))));
  }

  /** What a block holds as many of as it says: values, pairs of values for the IQ types, and for raw
      blocks the samples the bytes are. */
  function Delivered(s: Samples): nat {
    match s
    case Float32(f) => |f|
    case Int16(i) => |i|
    case Uint16(u) => |u|
    case Bytes(b) => |b|
  }

  lemma CountIs(t: SampleType, packing: bool, bytes: seq<u8>, c: Carried)
    requires StockShape(c)
    ensures var n, count := Delivered(BlockSamples(t, packing, bytes, c)), BlockCount(t, packing, bytes);
            match t
            case Int16Iq => n == 2 * count
            case Float32Iq => n == 2 * count
            case Raw => if packing then 3 * count <= 2 * n < 3 * (count + 1) else 2 * count <= n < 2 * (count + 1)
            case _ => n == count
  {
    hide ProcessOut, Float.ProcessOut, ToInt16, ToFloat, BlockWords, WholePairs;
    if t == Int16Iq || t == Float32Iq {
      IqBlocksArePrefixes(packing, bytes, c);
    }
  }

  /** Word `i` of an unpacked block is its two bytes, low byte first. */
  lemma WordsHaveBytes(bytes: seq<u8>, i: nat)
    requires 2 * i + 1 < |bytes|
    ensures LeWords(bytes)[i] % 256 == bytes[2 * i] && LeWords(bytes)[i] / 256 == bytes[2 * i + 1]
  {
  }

  /** In float a word is its 16-bit conversion over 2^15, exactly, whenever that conversion is exact. */
  lemma FloatIsScaledInt16(words: seq<u16>, j: nat)
    requires j < |words| && words[j] < 4096
    ensures ToFloat(words)[j] == ToInt16(words)[j] as real / 32768.0
    ensures -1.0 <= ToFloat(words)[j] < 1.0
  {
    hide Wrap16;
    TwelveBitWordFits(words[j]);
  }

  /** What the consumer is handed of packed samples, whatever it asked for: the samples themselves,
      centred and scaled to 16 bits, or to one; or the bytes. */
  lemma DeliveredValues(s: seq<u16>, c: Carried)
    requires |s| % 8 == 0 && TwelveBit(s) && StockShape(c)
    ensures BlockSamples(Uint16Real, true, Pack(s), c) == Uint16(s)
    ensures BlockSamples(Raw, true, Pack(s), c) == Bytes(Pack(s))
    ensures var i := BlockSamples(Int16Real, true, Pack(s), c).i;
            |i| == |s| && forall j | 0 <= j < |s| :: i[j] == (s[j] as int - 2048) * 16
    ensures var f := BlockSamples(Float32Real, true, Pack(s), c).f;
            |f| == |s| && forall j | 0 <= j < |s| :: f[j] == (s[j] as int - 2048) as real / 2048.0
  {
    hide Wrap16, Pack, Unpacked;
    UnpackUndoesPack(s);
    forall j | 0 <= j < |s|
      ensures ToInt16(s)[j] == (s[j] as int - 2048) * 16
    {
      TwelveBitWordFits(s[j]);
    }
  }

  /** No conversion but the IQ ones touches a converter, and those only their own. */
  lemma CarriedApart(t: SampleType, packing: bool, bytes: seq<u8>, c: Carried)
    requires StockShape(c)
    ensures t != Int16Iq ==> BlockCarried(t, packing, bytes, c).cnvI == c.cnvI
    ensures t != Float32Iq ==> BlockCarried(t, packing, bytes, c).cnvF == c.cnvF
  {
  }
}
