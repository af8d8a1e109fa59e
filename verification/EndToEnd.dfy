/** The streaming engine and the conversion together. */
module EndToEnd {
  import opened MachineInts
  import opened SampleQueue
  import opened StreamProtocol
  import opened StreamSafety
  import opened StreamTheorems
  import opened ConversionSpec
  import opened ConverterProperties
  import opened Unpacker
  import opened Packing
  import opened IqInt16Spec
  import opened DcProperties
  import opened FirProperties
  import opened ExactFilter
  import opened ExactRange

  /** The bytes handed to the conversion, block by block: each delivered buffer holds the good
      transfer it was filled from. */
  function DeliveredBytes(s: Session, transfers: seq<seq<u8>>): seq<seq<u8>>
    requires forall i | 0 <= i < |s.h.begun| :: 0 <= s.h.begun[i].buf.transfer < |transfers|
  {
    seq(|s.h.begun|, i requires 0 <= i < |s.h.begun| => transfers[s.h.begun[i].buf.transfer])
  }

  /** In every reachable state in which no delivery has reported a drop, the samples the callbacks
      have received, joined, are the one-shot conversion of everything the device has sent up to
      there, whatever the sample type, the packing mode and the interleaving. */
  lemma NoDropsMeansOneShot(s: Session, t: SampleType, packing: bool, transfers: seq<seq<u8>>, c: Carried)
    requires Inv(s) && s.size == BufferSizeFor(packing) && StockShape(c)
    requires |transfers| == s.h.good <= U32_MAX
    requires forall i | 0 <= i < |transfers| :: |transfers[i]| == s.size
    requires forall i | 0 <= i < |s.h.begun| :: s.h.begun[i].dropped == 0
    ensures |s.h.begun| <= |transfers|
    ensures forall i | 0 <= i < |s.h.begun| :: s.h.begun[i].buf.transfer == i
    ensures StreamSamples(t, packing, DeliveredBytes(s, transfers), c)
         == BlockSamples(t, packing, Concat(transfers[..|s.h.begun|]), c)
  {
    hide BlockSamples, StreamSamples;
    DeliveriesAreQueued(s);
    forall i | 0 <= i < |s.h.begun|
      ensures s.h.begun[i].buf.transfer == i < s.h.good
    {
      TransferBound(s, i);
      DropsAddUp(s.h.queued, i + 1);
      NoneDropped(s.h.queued, i + 1);
    }
    if s.h.begun != [] {
      assert s.h.begun[|s.h.begun| - 1].buf.transfer == |s.h.begun| - 1;
    }
    assert DeliveredBytes(s, transfers) == transfers[..|s.h.begun|];
    StreamBuffersInvisible(t, packing, transfers[..|s.h.begun|], c);
  }

  lemma {:induction false} NoneDropped(queued: seq<Entry<Buf>>, n: nat)
    requires n <= |queued| && forall i | 0 <= i < n :: queued[i].dropped == 0
    ensures SumDropped(queued, n) == 0
  {
    if n > 0 {
      NoneDropped(queued, n - 1);
    }
  }

  /** Nothing is lost between the packed bytes and the filter: the I/Q samples of a whole packed
      stream, block by block, are the exact filter of its centred samples whenever those span at
      most 32767. */
  lemma PackedStreamIsExact(blocks: seq<seq<u8>>, c: Carried, lo: int, hi: int)
    requires StockShape(c) && c.cnvI == SILENT
    requires forall i | 0 <= i < |blocks| :: |blocks[i]| == BufferSizeFor(true)
    requires lo <= 0 <= hi && hi - lo <= 32767 && Within(Centred(Unpacked(Concat(blocks))), lo, hi)
    ensures StreamSamples(Int16Iq, true, blocks, c).i
         == Output(STOCK_TAPS, Lift(SILENT), Centred(Unpacked(Concat(blocks))))
  {
    hide StreamSamples, ProcessOut, Output, Unpacked, ToInt16, Centred, WholePairs;
    var bytes := Concat(blocks);
    StreamBuffersInvisible(Int16Iq, true, blocks, c);
    PackedWordsCentred(bytes);
    FreshCallIsExact(ToInt16(Unpacked(bytes)), lo, hi);
    ConcatAligned(blocks, 12);
    AvailableAppend(|bytes| / 12, 0);
    PairsArePrefix(ProcessOut(STOCK_TAPS, SILENT, ToInt16(Unpacked(bytes))));
  }
}
