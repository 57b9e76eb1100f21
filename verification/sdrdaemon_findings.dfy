/**
  The compressed-input buffer of the frame buffer is reallocated only when the
  decompressed frame size changes, while its size is the compressed size of
  the frame that caused the reallocation.  A later record with the same frame
  size but a larger compressed size (LZ4 output varies from frame to frame),
  or a compressed record following an uncompressed one of the same frame size,
  leaves a buffer too small for the frame that `writeDataLZ4` copies into it.
  Likewise an uncompressed record that changes the frame size resizes only
  the raw buffer, so a later compressed record of that size finds a
  decompression output buffer sized for the earlier, smaller frame.

  This module runs the buffer over a stream of records and payload chunks,
  exhibits both overruns under the policy as written, and proves that the
  corrected policy (also reallocate when a buffer is too small) never
  overflows either compression buffer.
 */
module SdrDaemonFindings {
  import opened MachineInts
  import opened SdrDaemonBuffer

  /** Both compression buffers can hold the frame the buffer is waiting for. */
  ghost predicate Safe(s: Buffer) {
    s.lz4 ==> s.lz4InSize as int <= |s.lz4In| && s.frameSize as int <= s.lz4OutCapacity
  }

  /** What arrives from the network: a metadata record or a chunk of payload. */
  datatype Input = Record(bytes: seq<byte>) | Payload(bytes: seq<byte>)

  /** Every record is long enough for `readMeta`'s length assertion. */
  ghost predicate WellSized(c: Codec, inputs: seq<Input>) {
    forall i :: 0 <= i < |inputs| ==> inputs[i].Record? ==> |inputs[i].bytes| >= c.metaSize + 8
  }

  /** One input handed to `readMeta` or `writeData`. */
  function Step(c: Codec, s: Buffer, input: Input, policy: ReallocPolicy): Outcome<Buffer>
    requires c.WellFormed()
    requires input.Record? ==> |input.bytes| >= c.metaSize + 8
  {
    match input
    case Record(bytes) =>
      (match ReadMetaUsing(c, s, bytes, policy)
       case Done(res) => Done(res.next)
       case Undefined(f) => Undefined(f))
    case Payload(bytes) => WriteData(c, s, bytes)
  }

  /** The inputs handed over in order, stopping at the first undefined step. */
  function Run(c: Codec, s: Buffer, inputs: seq<Input>, policy: ReallocPolicy): Outcome<Buffer>
    requires c.WellFormed() && WellSized(c, inputs)
    decreases |inputs|
  {
    if inputs == [] then Done(s)
    else
      match Step(c, s, inputs[0], policy)
      case Done(s1) => Run(c, s1, inputs[1..], policy)
      case Undefined(f) => Undefined(f)
  }

  /** `readMeta` with the corrected reallocation policy keeps both compression buffers large enough. */
  function ReadMetaCorrected(c: Codec, s: Buffer, rec: seq<byte>): (r: Outcome<MetaResult>)
    requires c.WellFormed()
    requires |rec| >= c.metaSize + 8
    ensures r.Done? && Safe(s) ==> Safe(r.value.next)
    ensures r.Done? && Valid(s) ==> Valid(r.value.next)
    ensures r.Undefined? ==> r.fault == DivisionByZero
  {
    ReadMetaUsing(c, s, rec, WheneverTooSmall)
  }

  /** From a safe buffer, `writeData` is always defined and leaves the buffer safe. */
  lemma WriteDataDefinedWhenSafe(c: Codec, s: Buffer, chunk: seq<byte>)
    requires Valid(s) && Safe(s)
    ensures WriteData(c, s, chunk).Done?
    ensures Safe(WriteData(c, s, chunk).value) && Valid(WriteData(c, s, chunk).value)
  {
  }

  /**
    Under the corrected policy, a stream that starts safe never writes past a
    compression buffer: the only undefined step left is the zero frame size.
   */
  lemma {:induction false} CorrectedNeverOverflows(c: Codec, s: Buffer, inputs: seq<Input>)
    requires c.WellFormed() && WellSized(c, inputs)
    requires Valid(s) && Safe(s)
    ensures Run(c, s, inputs, WheneverTooSmall).Undefined? ==>
              Run(c, s, inputs, WheneverTooSmall).fault == DivisionByZero
    ensures Run(c, s, inputs, WheneverTooSmall).Done? ==>
              var n := Run(c, s, inputs, WheneverTooSmall).value;
              Valid(n) && Safe(n)
    decreases |inputs|
  {
    if inputs != [] {
      assert WellSized(c, inputs[1..]) by {
        forall i | 0 <= i < |inputs[1..]|
          ensures inputs[1..][i].Record? ==> |inputs[1..][i].bytes| >= c.metaSize + 8
        {
          assert inputs[1..][i] == inputs[i + 1];
        }
      }
      match inputs[0]
      case Record(bytes) =>
        var r := ReadMetaCorrected(c, s, bytes);
        if r.Done? {
          CorrectedNeverOverflows(c, r.value.next, inputs[1..]);
        }
      case Payload(bytes) =>
        WriteDataDefinedWhenSafe(c, s, bytes);
        CorrectedNeverOverflows(c, WriteData(c, s, bytes).value, inputs[1..]);
    }
  }

  /** The record bytes decode to metadata the buffer accepts: good CRC and the agreed block size. */
  ghost predicate Accepted(c: Codec, rec: seq<byte>, blockSize: nat)
    requires c.WellFormed()
  {
    |rec| >= c.metaSize + 8 && HeaderCrcOk(c, rec) && Header(c, rec).blockSize as int == blockSize
  }

  /** Three inputs in a row. */
  lemma RunThree(c: Codec, s: Buffer, a: Input, b: Input, d: Input, policy: ReallocPolicy)
    requires c.WellFormed()
    requires a.Record? ==> |a.bytes| >= c.metaSize + 8
    requires b.Record? ==> |b.bytes| >= c.metaSize + 8
    requires d.Record? ==> |d.bytes| >= c.metaSize + 8
    ensures WellSized(c, [a, b, d])
    ensures Run(c, s, [a, b, d], policy) ==
              match Step(c, s, a, policy)
              case Undefined(f) => Undefined(f)
              case Done(s1) =>
                match Step(c, s1, b, policy)
                case Undefined(f) => Undefined(f)
                case Done(s2) => Step(c, s2, d, policy)
  {
    assert [a, b, d][0] == a && [a, b, d][1..] == [b, d];
    assert [b, d][0] == b && [b, d][1..] == [d];
    assert [d][0] == d && [d][1..] == [];
    assert WellSized(c, [b, d]) by {
      assert [a, b, d][1] == b && [a, b, d][2] == d;
    }
    match Step(c, s, a, policy)
    case Undefined(f) =>
    case Done(s1) =>
      match Step(c, s1, b, policy)
      case Undefined(f) =>
      case Done(s2) =>
        match Step(c, s2, d, policy)
        case Undefined(f) =>
          assert Run(c, s2, [d], policy) == Undefined(f);
          assert Run(c, s1, [b, d], policy) == Undefined(f);
        case Done(s3) =>
          assert Run(c, s3, [], policy) == Done(s3);
          assert Run(c, s2, [d], policy) == Done(s3);
          assert Run(c, s1, [b, d], policy) == Done(s3);
  }

  /** Four inputs in a row. */
  lemma RunFour(c: Codec, s: Buffer, a: Input, b: Input, d: Input, e: Input, policy: ReallocPolicy)
    requires c.WellFormed()
    requires a.Record? ==> |a.bytes| >= c.metaSize + 8
    requires b.Record? ==> |b.bytes| >= c.metaSize + 8
    requires d.Record? ==> |d.bytes| >= c.metaSize + 8
    requires e.Record? ==> |e.bytes| >= c.metaSize + 8
    ensures WellSized(c, [a, b, d, e])
    ensures Run(c, s, [a, b, d, e], policy) ==
              match Step(c, s, a, policy)
              case Undefined(f) => Undefined(f)
              case Done(s1) => Run(c, s1, [b, d, e], policy)
  {
    assert [a, b, d, e][0] == a && [a, b, d, e][1..] == [b, d, e];
    assert WellSized(c, [a, b, d, e]) by {
      assert [a, b, d, e][1] == b && [a, b, d, e][2] == d && [a, b, d, e][3] == e;
    }
    RunThree(c, s, b, d, e, policy);
  }

  /** An accepted compressed record arriving at a new frame size allocates exactly its compressed size. */
  lemma CompressedRecordAllocates(c: Codec, s: Buffer, rec: seq<byte>)
    requires c.WellFormed() && Accepted(c, rec, s.blockSize)
    requires IsCompressed(Header(c, rec)) && FrameSizeOf(Header(c, rec)) != s.frameSize
    requires FrameSizeOf(Header(c, rec)) != 0
    ensures Step(c, s, Record(rec), OnFrameSizeChange).Done?
    ensures var n := Step(c, s, Record(rec), OnFrameSizeChange).value;
            && n.sync && n.lz4 && |n.lz4In| == Header(c, rec).nbBytes as int
            && n.lz4OutCapacity == FrameSizeOf(Header(c, rec)) as int
            && n.frameSize == FrameSizeOf(Header(c, rec)) && n.blockSize == s.blockSize
  {
  }

  /** An accepted uncompressed record resizes only the raw buffer, whatever its frame size. */
  lemma UncompressedRecordKeepsLz4Buffers(c: Codec, s: Buffer, rec: seq<byte>)
    requires c.WellFormed() && Accepted(c, rec, s.blockSize)
    requires !IsCompressed(Header(c, rec)) && FrameSizeOf(Header(c, rec)) != 0
    ensures Step(c, s, Record(rec), OnFrameSizeChange).Done?
    ensures var n := Step(c, s, Record(rec), OnFrameSizeChange).value;
            && n.sync && !n.lz4 && n.lz4In == s.lz4In && n.lz4OutCapacity == s.lz4OutCapacity
            && n.frameSize == FrameSizeOf(Header(c, rec)) && n.blockSize == s.blockSize
  {
  }

  /** An accepted record of an unchanged frame size leaves the compression buffers as they were. */
  lemma SameFrameSizeKeepsBuffers(c: Codec, s: Buffer, rec: seq<byte>)
    requires c.WellFormed() && Accepted(c, rec, s.blockSize)
    requires FrameSizeOf(Header(c, rec)) == s.frameSize
    ensures Step(c, s, Record(rec), OnFrameSizeChange).Done?
    ensures var n := Step(c, s, Record(rec), OnFrameSizeChange).value;
            && n.sync && n.lz4 == IsCompressed(Header(c, rec)) && n.lz4In == s.lz4In
            && n.lz4OutCapacity == s.lz4OutCapacity
            && (IsCompressed(Header(c, rec)) ==> n.lz4InSize == Header(c, rec).nbBytes && n.lz4InCount == 0)
            && n.frameSize == s.frameSize && n.blockSize == s.blockSize
  {
  }

  /**
    As written: two accepted compressed records with the same non-zero frame
    size, the second announcing more compressed bytes than the first, followed
    by a chunk completing the second frame, make `writeDataLZ4` copy past the
    end of the compressed-input buffer.
   */
  lemma AsWrittenOverflowsOnLargerFrame(c: Codec, blockSize: nat, r1: seq<byte>, r2: seq<byte>, chunk: seq<byte>)
    requires c.WellFormed()
    requires Accepted(c, r1, blockSize) && Accepted(c, r2, blockSize)
    requires IsCompressed(Header(c, r1)) && IsCompressed(Header(c, r2))
    requires FrameSizeOf(Header(c, r1)) == FrameSizeOf(Header(c, r2)) != 0
    requires Header(c, r1).nbBytes < Header(c, r2).nbBytes
    requires |chunk| >= Header(c, r2).nbBytes as int
    ensures WellSized(c, [Record(r1), Record(r2), Payload(chunk)])
    ensures Run(c, Init(blockSize), [Record(r1), Record(r2), Payload(chunk)], OnFrameSizeChange)
              == Undefined(InBufferOverflow)
  {
    var s0 := Init(blockSize);
    CompressedRecordAllocates(c, s0, r1);
    var s1 := Step(c, s0, Record(r1), OnFrameSizeChange).value;
    SameFrameSizeKeepsBuffers(c, s1, r2);
    var s2 := Step(c, s1, Record(r2), OnFrameSizeChange).value;
    assert WriteData(c, s2, chunk) == Undefined(InBufferOverflow);
    RunThree(c, s0, Record(r1), Record(r2), Payload(chunk), OnFrameSizeChange);
  }

  /**
    As written: a compressed record following an uncompressed one of the same
    frame size finds no compressed-input buffer at all.
   */
  lemma AsWrittenOverflowsAfterUncompressed(c: Codec, blockSize: nat, r1: seq<byte>, r2: seq<byte>, chunk: seq<byte>)
    requires c.WellFormed()
    requires Accepted(c, r1, blockSize) && Accepted(c, r2, blockSize)
    requires !IsCompressed(Header(c, r1)) && IsCompressed(Header(c, r2))
    requires FrameSizeOf(Header(c, r1)) == FrameSizeOf(Header(c, r2)) != 0
    requires 0 < Header(c, r2).nbBytes as int <= |chunk|
    ensures WellSized(c, [Record(r1), Record(r2), Payload(chunk)])
    ensures Run(c, Init(blockSize), [Record(r1), Record(r2), Payload(chunk)], OnFrameSizeChange)
              == Undefined(InBufferOverflow)
  {
    var s0 := Init(blockSize);
    var s1 := Step(c, s0, Record(r1), OnFrameSizeChange).value;
    assert s1.lz4In == [] && s1.frameSize == FrameSizeOf(Header(c, r1)) && s1.blockSize == blockSize;
    SameFrameSizeKeepsBuffers(c, s1, r2);
    var s2 := Step(c, s1, Record(r2), OnFrameSizeChange).value;
    assert WriteData(c, s2, chunk) == Undefined(InBufferOverflow);
    RunThree(c, s0, Record(r1), Record(r2), Payload(chunk), OnFrameSizeChange);
  }

  /**
    As written: a compressed record, then an uncompressed record with a larger
    frame size, then a compressed record of that larger frame size announcing
    no more compressed bytes than the first.  The second record resizes only
    the raw buffer and the third sees no frame-size change, so the
    decompression output buffer still has the first frame's size when the
    completing chunk makes `LZ4_decompress_fast` write the larger frame into it.
   */
  lemma AsWrittenOverrunsOutputBuffer(c: Codec, blockSize: nat, r1: seq<byte>, r2: seq<byte>, r3: seq<byte>,
                                      chunk: seq<byte>)
    requires c.WellFormed()
    requires Accepted(c, r1, blockSize) && Accepted(c, r2, blockSize) && Accepted(c, r3, blockSize)
    requires IsCompressed(Header(c, r1)) && !IsCompressed(Header(c, r2)) && IsCompressed(Header(c, r3))
    requires 0 < FrameSizeOf(Header(c, r1)) < FrameSizeOf(Header(c, r2)) == FrameSizeOf(Header(c, r3))
    requires Header(c, r3).nbBytes <= Header(c, r1).nbBytes
    requires |chunk| >= Header(c, r3).nbBytes as int
    ensures WellSized(c, [Record(r1), Record(r2), Record(r3), Payload(chunk)])
    ensures Run(c, Init(blockSize), [Record(r1), Record(r2), Record(r3), Payload(chunk)], OnFrameSizeChange)
              == Undefined(OutBufferTooSmall)
  {
    var s0 := Init(blockSize);
    CompressedRecordAllocates(c, s0, r1);
    var s1 := Step(c, s0, Record(r1), OnFrameSizeChange).value;
    UncompressedRecordKeepsLz4Buffers(c, s1, r2);
    var s2 := Step(c, s1, Record(r2), OnFrameSizeChange).value;
    SameFrameSizeKeepsBuffers(c, s2, r3);
    var s3 := Step(c, s2, Record(r3), OnFrameSizeChange).value;
    assert WriteData(c, s3, chunk) == Undefined(OutBufferTooSmall);
    RunThree(c, s1, Record(r2), Record(r3), Payload(chunk), OnFrameSizeChange);
    RunFour(c, s0, Record(r1), Record(r2), Record(r3), Payload(chunk), OnFrameSizeChange);
  }
}
