/** The consumer thread's conversion scratch: reused word and output buffers, and the two
    converters whose state outlives every block. */
module Conversion {
  import opened MachineInts
  import opened Unpacker
  import opened Packing
  import opened ConversionSpec
  import opened ConverterProperties
  import opened Filters
  import FirProperties
  import FloatProperties
  import IqConverterInt16
  import IqConverterFloat
  import IqInt16Spec
  import Float = IqFloatSpec

  class Scratch {
    var unpacked: array<u16>
    var words: seq<u16>
    var outI16: array<i16>
    var outF32: array<real>
    const cnvI: IqConverterInt16.Converter
    const cnvF: IqConverterFloat.Converter

    ghost predicate Valid()
      reads this, cnvI, cnvI.firQueue, cnvI.delayLine, cnvF, cnvF.firQueue, cnvF.delayLine
    {
      && cnvI.Valid() && cnvI.firKernel == FirProperties.STOCK_TAPS
      && cnvF.Valid() && cnvF.firKernel == FLOAT_TAPS && cnvF.hbc == FLOAT_HBC
    }

    ghost function State(): (c: Carried)
      requires Valid()
      reads this, cnvI, cnvI.firQueue, cnvI.delayLine, cnvF, cnvF.firQueue, cnvF.delayLine
      ensures StockShape(c)
    {
      Carried(cnvI.State(), cnvF.Now())
    }

    /** A fresh scratch per stream is the converter reset. */
    constructor ()
      ensures Valid() && fresh(cnvI) && fresh(cnvF)
      ensures fresh(cnvI.firQueue) && fresh(cnvI.delayLine) && fresh(cnvF.firQueue) && fresh(cnvF.delayLine)
      ensures State() == Carried(SILENT, Float.FreshState(HB_KERNEL_FLOAT))
    {
      unpacked := new u16[0];
      words := [];
      outI16 := new i16[0];
      outF32 := new real[0];
      FreshIsSilent();
      FloatProperties.StockKernelIsSymmetric();
      cnvI := new IqConverterInt16.Converter(HB_KERNEL_INT16, IqConverterInt16.SIZE_FACTOR);
      cnvF := new IqConverterFloat.Converter(HB_KERNEL_FLOAT, IqConverterFloat.SIZE_FACTOR);
      CentreTap();
    }

    /** The stream-format half of the dispatch: unpack 12-bit words, or view 16-bit ones. */
    method PrepareWords(packing: bool, bytes: seq<u8>) returns (src: seq<u16>)
      requires Valid()
      modifies this`unpacked, this`words
      ensures src == BlockWords(packing, bytes)
      ensures Valid() && State() == old(State())
    {
      if packing {
        var buffer := new u16[UnpackedSampleCount(|bytes|)](i requires 0 <= i reads this, unpacked =>
          if i < unpacked.Length then unpacked[i] else 0);
        unpacked := buffer;
        var written := UnpackSamples(bytes, unpacked);
        CountIff(|bytes|);
        src := unpacked[..written];
        assert src == Unpacked(bytes);
      } else {
        words := LeWords(bytes);
        src := words;
      }
    }

    method ConvertBlock(t: SampleType, packing: bool, bytes: seq<u8>) returns (samples: Samples, count: nat)
      requires Valid()
      modifies this, cnvI, cnvI.firQueue, cnvI.delayLine, cnvF, cnvF.firQueue, cnvF.delayLine
      ensures samples == BlockSamples(t, packing, bytes, old(State()))
      ensures count == BlockCount(t, packing, bytes)
      ensures Valid() && State() == BlockCarried(t, packing, bytes, old(State()))
    {
      hide ToInt16, ToFloat, BlockWords, WholePairs, IqInt16Spec.ProcessOut, IqInt16Spec.ProcessState,
           Float.ProcessOut, Float.ProcessState;
      if t == Raw {
        return Bytes(bytes), if packing then UnpackedSampleCount(|bytes|) else |bytes| / 2;
      }
      var src := PrepareWords(packing, bytes);
      match t {
        case Uint16Real =>
          return Uint16(src), |src|;
        case Int16Real =>
          outI16 := ConvertSamplesInt16(src);
          return Int16(outI16[..]), |src|;
        case Float32Real =>
          outF32 := ConvertSamplesFloat(src);
          return Float32(outF32[..]), |src|;
        case Int16Iq =>
          samples, count := Int16IqBlock(src);
        case Float32Iq =>
          samples, count := Float32IqBlock(src);
      }
    }

    method Int16IqBlock(src: seq<u16>) returns (samples: Samples, pairs: nat)
      requires Valid()
      modifies this`outI16, cnvI, cnvI.firQueue, cnvI.delayLine
      ensures pairs == |src| / 2
      ensures samples == Int16(WholePairs(IqInt16Spec.ProcessOut(FirProperties.STOCK_TAPS, old(State()).cnvI, ToInt16(src))))
      ensures Valid()
      ensures State() == old(State()).(cnvI := IqInt16Spec.ProcessState(old(State()).cnvI, ToInt16(src)))
    {
      hide ToInt16, IqInt16Spec.ProcessOut, IqInt16Spec.ProcessState;
      outI16 := ConvertSamplesInt16(src);
      cnvI.Process(outI16);
      pairs := |src| / 2;
      samples := Int16(outI16[..pairs * 2]);
    }

    method Float32IqBlock(src: seq<u16>) returns (samples: Samples, pairs: nat)
      requires Valid()
      modifies this`outF32, cnvF, cnvF.firQueue, cnvF.delayLine
      ensures pairs == |src| / 2
      ensures samples == Float32(WholePairs(Float.ProcessOut(FLOAT_TAPS, FLOAT_HBC, old(State()).cnvF, ToFloat(src))))
      ensures Valid()
      ensures State() == old(State()).(cnvF := Float.ProcessState(FLOAT_HBC, old(State()).cnvF, ToFloat(src)))
    {
      hide ToFloat, Float.ProcessOut, Float.ProcessState;
      outF32 := ConvertSamplesFloat(src);
      cnvF.Process(outF32);
      pairs := |src| / 2;
      samples := Float32(outF32[..pairs * 2]);
    }
  }

  lemma CentreTap()
    ensures |HB_KERNEL_FLOAT| == 47 && HB_KERNEL_FLOAT[23] == FLOAT_HBC
  {
    assert HB_KERNEL_FLOAT[23] == HB_FLOAT_CENTRE[1];
  }

  method ConvertSamplesInt16(src: seq<u16>) returns (dest: array<i16>)
    ensures fresh(dest) && dest[..] == ToInt16(src)
  {
    hide Wrap16;
    dest := new i16[|src|](_ => 0);
    for j := 0 to |src|
      invariant dest[..j] == ToInt16(src)[..j]
    {
      dest[j] := Wrap16((src[j] as int - 2048) * 16);
    }
  }

  method ConvertSamplesFloat(src: seq<u16>) returns (dest: array<real>)
    ensures fresh(dest) && dest[..] == ToFloat(src)
  {
    dest := new real[|src|](_ => 0.0);
    for j := 0 to |src|
      invariant dest[..j] == ToFloat(src)[..j]
    {
      dest[j] := (src[j] as int - 2048) as real / 2048.0;
    }
  }
}
