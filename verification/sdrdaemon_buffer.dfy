/**
  The network frame buffer of the SDRdaemon sample source: a small
  synchronisation state machine driven by metadata records (`readMeta`) and
  by chunks of (LZ4-compressed) frame payload (`writeData`).

  The buffer is an immutable record; every operation returns the next
  record.  What the model cannot see is a parameter (`Codec`): the size and
  byte layout of the metadata struct, the CRC64 routine, the host byte order
  of a `uint64_t` and `LZ4_decompress_fast`.  Where the C++ code has
  undefined behaviour (a division by zero, a `memcpy` past the end of an
  allocation, a decompressor handed a too-small output buffer) the model
  returns `Undefined(fault)` instead of a next state.
 */
module SdrDaemonBuffer {
  import opened MachineInts

  /** The metadata record that precedes every frame on the wire. */
  datatype MetaData = MetaData(
    centerFrequency: u64,
    sampleRate: u32,
    sampleBytes: u8,     // low nibble: bytes per sample; bit 0x10: LZ4 compression flag
    sampleBits: u8,
    blockSize: u32,
    nbSamples: u32,      // samples per hardware block
    nbBlocks: u32,       // hardware blocks per frame
    nbBytes: u32,        // bytes of (compressed) payload in the frame
    tvSec: u32,
    tvUsec: u32,
    crc: u64)            // CRC64 of every preceding byte of the record

  /** What `m_currentMeta.init()` leaves in the current metadata. */
  const InitialMeta: MetaData := MetaData(0, 0, 0, 0, 0, 0, 0, 0, 0, 0, 0)

  /** The collaborators the buffer calls but whose code is not modelled. */
  datatype Codec = Codec(
    metaSize: nat,                          // sizeof(MetaData), trailing 8-byte CRC included
    decodeMeta: seq<byte> -> MetaData,      // the struct a record's bytes are reinterpreted as
    hostBytes: u64 -> seq<byte>,            // the bytes of a uint64_t in host order
    crc64: seq<byte> -> u64,                // CRC64::calculate_crc
    decompressFast: (seq<byte>, nat) -> i32 // LZ4_decompress_fast(source, _, originalSize)
  ) {
    ghost predicate WellFormed() { metaSize >= 8 }
  }

  datatype Fault = DivisionByZero | InBufferOverflow | OutBufferTooSmall

  /** The result of an operation: a next value, or the undefined behaviour the C++ code runs into. */
  datatype Outcome<T> = Done(value: T) | Undefined(fault: Fault)

  datatype Buffer = Buffer(
    blockSize: nat,            // block size agreed with the sender out of band
    sync: bool,
    lz4: bool,
    lz4In: seq<byte>,          // compressed-input buffer; its length is its allocated capacity
    lz4InCount: nat,           // compressed bytes announced so far for the current frame
    lz4InSize: u32,            // compressed size of the current frame
    lz4OutCapacity: nat,       // allocated size of the decompression output buffer
    frameSize: u32,            // decompressed size of the current frame
    nbDecodes: nat,
    nbSuccessfulDecodes: nat,
    nbCRCOK: nat,
    dataCRC: seq<byte>,        // the 8 payload-CRC bytes that follow the last good record
    sampleRate: nat,
    sampleBytes: nat,
    sampleBits: nat,
    rawCapacity: nat,          // allocated size of the raw sample buffer
    currentMeta: MetaData)

  /** One second of samples at the fixed 1 MS/s, two bytes per component, I and Q. */
  const OneSecondOfBytes: nat := 4_000_000

  /** Decodes between two resets of the diagnostic counters. */
  const DecodesPerReport: nat := 100

  /** The invariant every reachable buffer keeps. */
  ghost predicate Valid(s: Buffer) {
    && s.nbDecodes <= DecodesPerReport
    && s.nbCRCOK <= s.nbDecodes
    && s.nbSuccessfulDecodes <= s.nbDecodes
    && (s.lz4InCount == 0 || s.lz4InCount < s.lz4InSize as int)
    && |s.dataCRC| == 8
    && BytesPerSecond(s) == OneSecondOfBytes
  }

  /** The buffer as the constructor leaves it. */
  function Init(blockSize: nat): (r: Buffer)
    ensures Valid(r)
    ensures !r.sync && !r.lz4
    ensures r.lz4In == [] && r.lz4OutCapacity == 0 && r.rawCapacity == 0
    ensures r.blockSize == blockSize
  {
    Buffer(blockSize, false, false, [], 0, 0, 0, 0, 0, 0, 0, Zeros(8),
           1_000_000, 2, 12, 0, InitialMeta)
  }

  // ---------------------------------------------------------------------
  // Decoding a metadata record
  // ---------------------------------------------------------------------

  function Header(c: Codec, rec: seq<byte>): MetaData
    requires c.WellFormed() && |rec| >= c.metaSize
  {
    c.decodeMeta(rec[..c.metaSize])
  }

  /** The record's own CRC matches the CRC64 of every byte before it. */
  predicate HeaderCrcOk(c: Codec, rec: seq<byte>)
    requires c.WellFormed() && |rec| >= c.metaSize
  {
    c.crc64(rec[..c.metaSize - 8]) == Header(c, rec).crc
  }

  /** Decompressed frame size: bytes per sample (low nibble) * 2 (I and Q) * samples * blocks, in 32 bits. */
  function FrameSizeOf(m: MetaData): u32 {
    Trunc32((m.sampleBytes as int % 16) * 2 * m.nbSamples as int * m.nbBlocks as int)
  }

  /** Bit 0x10 of the packed sample-bytes field. */
  predicate IsCompressed(m: MetaData) {
    (m.sampleBytes as int / 16) % 2 == 1
  }

  /** Bytes of one second of I/Q samples at the buffer's own (never updated) rate and width. */
  function BytesPerSecond(s: Buffer): nat {
    s.sampleRate * 2 * s.sampleBytes
  }

  /**
    Size of the raw buffer for a frame size: a whole number of frames, one more
    than fit in one second, computed in 32-bit unsigned arithmetic.
   */
  function RawBufferSize(bytesPerSecond: nat, frameSize: u32): (r: u32)
    requires frameSize > 0
    ensures bytesPerSecond + frameSize as int < TWO_32 ==>
              bytesPerSecond < r as int <= bytesPerSecond + frameSize as int
    // A frame larger than one second is stored alone, so below 2^31 nothing wraps.
    ensures bytesPerSecond < frameSize as int ==> r == frameSize
    ensures 2 * bytesPerSecond < TWO_32 ==>
              bytesPerSecond < r as int <= bytesPerSecond + frameSize as int
  {
    var nbFrames := Trunc32(bytesPerSecond / frameSize as int + 1);
    var r := Trunc32(nbFrames as int * frameSize as int);
    if bytesPerSecond < frameSize as int then
      LoneFrame(bytesPerSecond, frameSize as int);
      r
    else if bytesPerSecond + frameSize as int < TWO_32 then
      WholeFramesAboveOneSecond(bytesPerSecond, frameSize as int);
      r
    else
      r
  }

  /** Less than one frame per second: the buffer holds exactly one frame. */
  lemma LoneFrame(b: nat, f: nat)
    requires b < f < TWO_32
    ensures Trunc32(Trunc32(b / f + 1) as int * f) as int == f
  {
    assert b / f == 0;
    assert Trunc32(1) as int == 1;
    assert 1 * f == f;
  }

  /** One frame more than fit in `b` bytes occupies more than `b` and at most `b + f` bytes. */
  lemma WholeFramesAboveOneSecond(b: nat, f: nat)
    requires 0 < f && b + f < TWO_32
    ensures b / f + 1 < TWO_32
    ensures b < (b / f + 1) * f <= b + f
  {
    var q := b / f;
    var p := q * f;
    assert b == p + b % f;
    assert 0 <= b % f < f;
    assert (q + 1) * f == p + f by {
      MulSuccessor(q, f);
    }
    assert q <= p by {
      MulMonotone(q, f);
    }
  }

  lemma MulSuccessor(q: int, f: int)
    ensures (q + 1) * f == q * f + f
  {
  }

  lemma MulMonotone(q: nat, f: nat)
    requires 1 <= f
    ensures q <= q * f
  {
  }

  /** `updateBufferSize`: reallocates the raw buffer and nothing else. */
  function UpdateBufferSize(s: Buffer, frameSize: u32): (r: Buffer)
    requires frameSize > 0
    ensures r == s.(rawCapacity := r.rawCapacity)
    ensures BytesPerSecond(s) + frameSize as int < TWO_32 ==>
              BytesPerSecond(s) < r.rawCapacity <= BytesPerSecond(s) + frameSize as int
    // At the buffer's fixed rate the bound holds for every frame size.
    ensures Valid(s) ==> OneSecondOfBytes < r.rawCapacity <= OneSecondOfBytes + frameSize as int
  {
    s.(rawCapacity := RawBufferSize(BytesPerSecond(s), frameSize) as nat)
  }

  /**
    `updateLZ4Sizes`: reallocates the compressed-input buffer to the current
    compressed size (the LZ4 worst-case bound it computes is never used) and
    the output buffer to the frame size.
   */
  function UpdateLZ4Sizes(s: Buffer, frameSize: u32): (r: Buffer)
    ensures |r.lz4In| == s.lz4InSize as int && r.lz4OutCapacity == frameSize as int
    ensures r == s.(lz4In := r.lz4In, lz4OutCapacity := r.lz4OutCapacity)
  {
    s.(lz4In := Zeros(s.lz4InSize as nat), lz4OutCapacity := frameSize as nat)
  }

  /**
    When the compression buffers are reallocated on a compressed header: the
    code as written does it only when the frame size changes; the corrected
    policy also does it when they are too small for the new frame.
   */
  datatype ReallocPolicy = OnFrameSizeChange | WheneverTooSmall

  predicate NeedsLz4Realloc(policy: ReallocPolicy, s: Buffer, m: MetaData) {
    match policy
    case OnFrameSizeChange => FrameSizeOf(m) != s.frameSize
    case WheneverTooSmall =>
      || FrameSizeOf(m) != s.frameSize
      || |s.lz4In| < m.nbBytes as int
      || s.lz4OutCapacity < FrameSizeOf(m) as int
  }

  /** The part of `readMeta` run once the CRC and the block size have been accepted. */
  function Resync(s: Buffer, m: MetaData, policy: ReallocPolicy): (r: Outcome<Buffer>)
    ensures r.Undefined? <==> FrameSizeOf(m) == 0 && s.frameSize != 0
    ensures r.Undefined? ==> r.fault == DivisionByZero
    ensures r.Done? ==>
              var n := r.value;
              && n.sync && n.frameSize == FrameSizeOf(m) && n.lz4 == IsCompressed(m)
              && (IsCompressed(m) ==> n.lz4InSize == m.nbBytes && n.lz4InCount == 0)
              && (!IsCompressed(m) ==> n.lz4InSize == s.lz4InSize && n.lz4InCount == s.lz4InCount)
              && (IsCompressed(m) && NeedsLz4Realloc(policy, s, m) ==>
                    |n.lz4In| == m.nbBytes as int && n.lz4OutCapacity == FrameSizeOf(m) as int)
              && (!(IsCompressed(m) && NeedsLz4Realloc(policy, s, m)) ==>
                    n.lz4In == s.lz4In && n.lz4OutCapacity == s.lz4OutCapacity)
              && (FrameSizeOf(m) == s.frameSize ==> n.rawCapacity == s.rawCapacity)
              && (FrameSizeOf(m) != s.frameSize ==>
                    n.rawCapacity == RawBufferSize(BytesPerSecond(s), FrameSizeOf(m)) as int)
              && n == s.(sync := n.sync, frameSize := n.frameSize, lz4 := n.lz4, lz4InSize := n.lz4InSize,
                         lz4InCount := n.lz4InCount, lz4In := n.lz4In, lz4OutCapacity := n.lz4OutCapacity,
                         rawCapacity := n.rawCapacity)
    ensures r.Done? && Valid(s) ==> Valid(r.value)
  {
    var frameSize := FrameSizeOf(m);
    var s1 :=
      if IsCompressed(m) then
        var t := s.(lz4 := true, lz4InSize := m.nbBytes, lz4InCount := 0);
        if NeedsLz4Realloc(policy, s, m) then UpdateLZ4Sizes(t, frameSize) else t
      else
        s.(lz4 := false);
    if frameSize != s.frameSize && frameSize == 0 then
      Undefined(DivisionByZero)
    else
      var s2 := if frameSize != s.frameSize then UpdateBufferSize(s1, frameSize) else s1;
      Done(s2.(frameSize := frameSize, sync := true))
  }

  /** What `readMeta` returns: the next buffer and the boolean result (the new sync flag). */
  datatype MetaResult = MetaResult(next: Buffer, synced: bool)

  /** `readMeta` under either reallocation policy. */
  function ReadMetaUsing(c: Codec, s: Buffer, rec: seq<byte>, policy: ReallocPolicy): (r: Outcome<MetaResult>)
    requires c.WellFormed()
    requires |rec| >= c.metaSize + 8
    // A corrupted record changes nothing and reports the previous sync state.
    ensures !HeaderCrcOk(c, rec) ==> r == Done(MetaResult(s, s.sync))
    // A good record with a foreign block size desynchronises but is still recorded.
    ensures HeaderCrcOk(c, rec) && Header(c, rec).blockSize as int != s.blockSize ==>
              r == Done(MetaResult(
                     s.(sync := false, currentMeta := Header(c, rec),
                        dataCRC := rec[c.metaSize..c.metaSize + 8]),
                     false))
    // Only a zero frame size replacing a non-zero one is undefined.
    ensures r.Undefined? <==>
              && HeaderCrcOk(c, rec)
              && Header(c, rec).blockSize as int == s.blockSize
              && FrameSizeOf(Header(c, rec)) == 0 && s.frameSize != 0
    ensures r.Undefined? ==> r.fault == DivisionByZero
    // A good record with the agreed block size synchronises on its frame size.
    ensures r.Done? && HeaderCrcOk(c, rec) && Header(c, rec).blockSize as int == s.blockSize ==>
              var m := Header(c, rec);
              var n := r.value.next;
              && r.value.synced && n.sync
              && n.frameSize == FrameSizeOf(m)
              && n.currentMeta == m
              && n.dataCRC == rec[c.metaSize..c.metaSize + 8]
              && n.lz4 == IsCompressed(m)
              && (IsCompressed(m) ==> n.lz4InSize == m.nbBytes && n.lz4InCount == 0)
              && (!IsCompressed(m) ==>
                    n.lz4InSize == s.lz4InSize && n.lz4InCount == s.lz4InCount
                    && n.lz4In == s.lz4In && n.lz4OutCapacity == s.lz4OutCapacity)
              && (IsCompressed(m) && NeedsLz4Realloc(policy, s, m) ==>
                    |n.lz4In| == m.nbBytes as int && n.lz4OutCapacity == FrameSizeOf(m) as int)
              && (!NeedsLz4Realloc(policy, s, m) ==>
                    n.lz4In == s.lz4In && n.lz4OutCapacity == s.lz4OutCapacity)
              && (FrameSizeOf(m) == s.frameSize ==> n.rawCapacity == s.rawCapacity)
              && (FrameSizeOf(m) != s.frameSize ==>
                    n.rawCapacity == RawBufferSize(BytesPerSecond(s), FrameSizeOf(m)) as int)
    // The result is always the new sync flag, and the rate, width and counters never change.
    ensures r.Done? ==>
              && r.value.synced == r.value.next.sync
              && r.value.next.sampleRate == s.sampleRate
              && r.value.next.sampleBytes == s.sampleBytes
              && r.value.next.sampleBits == s.sampleBits
              && r.value.next.blockSize == s.blockSize
              && r.value.next.nbDecodes == s.nbDecodes
              && r.value.next.nbCRCOK == s.nbCRCOK
              && r.value.next.nbSuccessfulDecodes == s.nbSuccessfulDecodes
    ensures r.Done? && Valid(s) ==> Valid(r.value.next)
  {
    if !HeaderCrcOk(c, rec) then
      Done(MetaResult(s, s.sync))
    else
      var m := Header(c, rec);
      var s0 := s.(dataCRC := rec[c.metaSize..c.metaSize + 8], currentMeta := m);
      if m.blockSize as int != s.blockSize then
        Done(MetaResult(s0.(sync := false), false))
      else
        match Resync(s0, m, policy)
        case Done(s1) => Done(MetaResult(s1, true))
        case Undefined(f) => Undefined(f)
  }

  /** `readMeta` exactly as written: buffers are resized only on a frame-size change. */
  function ReadMeta(c: Codec, s: Buffer, rec: seq<byte>): (r: Outcome<MetaResult>)
    requires c.WellFormed()
    requires |rec| >= c.metaSize + 8
    ensures !HeaderCrcOk(c, rec) ==> r == Done(MetaResult(s, s.sync))
    ensures r.Done? && HeaderCrcOk(c, rec) && Header(c, rec).blockSize as int == s.blockSize ==>
              && r.value.synced
              && r.value.next.frameSize == FrameSizeOf(Header(c, rec))
              && (FrameSizeOf(Header(c, rec)) == s.frameSize ==>
                    r.value.next.lz4In == s.lz4In && r.value.next.lz4OutCapacity == s.lz4OutCapacity
                    && r.value.next.rawCapacity == s.rawCapacity)
    ensures r.Done? && Valid(s) ==> Valid(r.value.next)
  {
    ReadMetaUsing(c, s, rec, OnFrameSizeChange)
  }

  // ---------------------------------------------------------------------
  // Accumulating and decoding payload
  // ---------------------------------------------------------------------

  /** The CRC64 of the compressed frame matches the payload CRC of the last good record. */
  predicate PayloadCrcOk(c: Codec, s: Buffer)
    requires s.lz4InSize as int <= |s.lz4In|
  {
    c.hostBytes(c.crc64(s.lz4In[..s.lz4InSize])) == s.dataCRC
  }

  /** The decompressor's return value, compared as unsigned, equals the compressed size. */
  predicate DecodeSucceeded(c: Codec, s: Buffer) {
    ToUnsigned32(c.decompressFast(s.lz4In, s.frameSize as nat)) == s.lz4InSize
  }

  /** A counter as it stands after the reset that precedes every hundred-and-first decode. */
  function Restarted(s: Buffer, counter: nat): nat {
    if s.nbDecodes == DecodesPerReport then 0 else counter
  }

  /** One decode of a complete compressed frame. */
  function Decode(c: Codec, s: Buffer): (r: Buffer)
    requires s.lz4InSize as int <= |s.lz4In|
    ensures r == s.(nbDecodes := r.nbDecodes, nbCRCOK := r.nbCRCOK,
                    nbSuccessfulDecodes := r.nbSuccessfulDecodes, lz4InCount := 0)
    ensures r.nbDecodes == Restarted(s, s.nbDecodes) + 1
    ensures r.nbCRCOK == Restarted(s, s.nbCRCOK) + (if PayloadCrcOk(c, s) then 1 else 0)
    ensures r.nbSuccessfulDecodes > Restarted(s, s.nbSuccessfulDecodes) <==> DecodeSucceeded(c, s)
    ensures r.nbSuccessfulDecodes <= Restarted(s, s.nbSuccessfulDecodes) + 1
    ensures Valid(s) ==> Valid(r)
  {
    var crcOk := PayloadCrcOk(c, s);
    var ok := DecodeSucceeded(c, s);
    s.(nbCRCOK := Restarted(s, s.nbCRCOK) + (if crcOk then 1 else 0),
       nbDecodes := Restarted(s, s.nbDecodes) + 1,
       nbSuccessfulDecodes := Restarted(s, s.nbSuccessfulDecodes) + (if ok then 1 else 0),
       lz4InCount := 0)
  }

  /** `writeDataLZ4`: counts bytes until the frame is complete, then copies the tail and decodes. */
  function WriteDataLZ4(c: Codec, s: Buffer, chunk: seq<byte>): (r: Outcome<Buffer>)
    // Short of a full frame, only the counter moves; no byte is stored.
    ensures s.lz4InCount + |chunk| < s.lz4InSize as int ==>
              r == Done(s.(lz4InCount := s.lz4InCount + |chunk|))
    // Completing a frame writes past the allocation when it is smaller than the frame.
    ensures s.lz4InCount + |chunk| >= s.lz4InSize as int && s.lz4InCount <= s.lz4InSize as int ==>
              (r == Undefined(InBufferOverflow) <==> |s.lz4In| < s.lz4InSize as int)
    // With the input in place, decompression overruns an output buffer smaller than the frame.
    ensures s.lz4InCount + |chunk| >= s.lz4InSize as int && s.lz4InCount <= s.lz4InSize as int
            && s.lz4InSize as int <= |s.lz4In| && s.lz4OutCapacity < s.frameSize as int ==>
              r == Undefined(OutBufferTooSmall)
    // Otherwise exactly the missing tail is copied at the counter, then one decode resets it.
    ensures s.lz4InCount + |chunk| >= s.lz4InSize as int && s.lz4InCount <= s.lz4InSize as int
            && s.lz4InSize as int <= |s.lz4In| && s.frameSize as int <= s.lz4OutCapacity ==>
              && r.Done?
              && r.value.lz4InCount == 0
              && |r.value.lz4In| == |s.lz4In|
              && r.value.lz4In[..s.lz4InCount] == s.lz4In[..s.lz4InCount]
              && r.value.lz4In[s.lz4InCount..s.lz4InSize] == chunk[..s.lz4InSize as int - s.lz4InCount]
              && r.value.lz4In[s.lz4InSize..] == s.lz4In[s.lz4InSize..]
              && r.value == Decode(c, s.(lz4In := r.value.lz4In))
    ensures r.Done? && Valid(s) ==> Valid(r.value)
  {
    if s.lz4InCount + |chunk| < s.lz4InSize as int then
      Done(s.(lz4InCount := s.lz4InCount + |chunk|))
    else if s.lz4InCount > s.lz4InSize as int || |s.lz4In| < s.lz4InSize as int then
      Undefined(InBufferOverflow)
    else if s.lz4OutCapacity < s.frameSize as int then
      Undefined(OutBufferTooSmall)
    else
      var tail := chunk[..s.lz4InSize as int - s.lz4InCount];
      var filled := s.lz4In[..s.lz4InCount] + tail + s.lz4In[s.lz4InSize..];
      assert filled[s.lz4InCount..s.lz4InSize] == tail;
      Done(Decode(c, s.(lz4In := filled)))
  }

  /** `writeData`: only a synchronised, compressed stream is handled; the uncompressed path does nothing. */
  function WriteData(c: Codec, s: Buffer, chunk: seq<byte>): (r: Outcome<Buffer>)
    ensures !(s.sync && s.lz4) ==> r == Done(s)
    ensures r.Done? ==> r.value.sync == s.sync && r.value.lz4 == s.lz4
                        && r.value.lz4InSize == s.lz4InSize && r.value.frameSize == s.frameSize
                        && |r.value.lz4In| == |s.lz4In| && r.value.dataCRC == s.dataCRC
                        && r.value.rawCapacity == s.rawCapacity
                        && r.value.lz4OutCapacity == s.lz4OutCapacity
    ensures r.Done? && Valid(s) ==> Valid(r.value)
  {
    if s.sync && s.lz4 then WriteDataLZ4(c, s, chunk) else Done(s)
  }

  // ---------------------------------------------------------------------
  // Several payload chunks in a row
  // ---------------------------------------------------------------------

  function TotalLength(chunks: seq<seq<byte>>): nat {
    if chunks == [] then 0 else |chunks[0]| + TotalLength(chunks[1..])
  }

  /** `writeData` applied to each chunk in turn, stopping at the first undefined step. */
  function WriteAll(c: Codec, s: Buffer, chunks: seq<seq<byte>>): Outcome<Buffer>
    decreases |chunks|
  {
    if chunks == [] then Done(s)
    else
      match WriteData(c, s, chunks[0])
      case Done(s1) => WriteAll(c, s1, chunks[1..])
      case Undefined(f) => Undefined(f)
  }

  /**
    Chunks that together fall short of the compressed frame size only advance
    the counter: none of their bytes reaches the compressed-input buffer.
   */
  lemma {:induction false} PartialChunksOnlyCount(c: Codec, s: Buffer, chunks: seq<seq<byte>>)
    requires s.sync && s.lz4
    requires s.lz4InCount + TotalLength(chunks) < s.lz4InSize as int
    ensures WriteAll(c, s, chunks) == Done(s.(lz4InCount := s.lz4InCount + TotalLength(chunks)))
    decreases |chunks|
  {
    if chunks != [] {
      var s1 := s.(lz4InCount := s.lz4InCount + |chunks[0]|);
      assert WriteData(c, s, chunks[0]) == Done(s1);
      PartialChunksOnlyCount(c, s1, chunks[1..]);
    }
  }

  /**
    How a compressed frame is assembled: after partial chunks and a completing
    chunk, the bytes checksummed and decompressed are the buffer's previous
    contents up to the counter followed by the head of the completing chunk.
   */
  lemma FrameAssembly(c: Codec, s: Buffer, chunks: seq<seq<byte>>, last: seq<byte>)
    requires s.sync && s.lz4 && Valid(s)
    requires s.lz4InSize as int <= |s.lz4In| && s.frameSize as int <= s.lz4OutCapacity
    requires s.lz4InCount + TotalLength(chunks) < s.lz4InSize as int
    requires s.lz4InCount + TotalLength(chunks) + |last| >= s.lz4InSize as int
    ensures var k := s.lz4InCount + TotalLength(chunks);
            var r := WriteAll(c, s, chunks + [last]);
            && r.Done?
            && r.value.lz4InCount == 0
            && s.lz4InSize as int <= |r.value.lz4In|
            && r.value.lz4In[..s.lz4InSize] == s.lz4In[..k] + last[..s.lz4InSize as int - k]
  {
    var k := s.lz4InCount + TotalLength(chunks);
    var mid := s.(lz4InCount := k);
    PartialChunksOnlyCount(c, s, chunks);
    WriteAllAppend(c, s, chunks, [last]);
    var r := WriteData(c, mid, last);
    assert r.Done?;
    assert WriteAll(c, mid, [last]) == r;
    var buf := r.value.lz4In;
    assert buf[..k] == s.lz4In[..k];
    assert buf[k..s.lz4InSize] == last[..s.lz4InSize as int - k];
    assert buf[..s.lz4InSize] == buf[..k] + buf[k..s.lz4InSize];
  }

  /** Writing two runs of chunks is writing their concatenation. */
  lemma {:induction false} WriteAllAppend(c: Codec, s: Buffer, a: seq<seq<byte>>, b: seq<seq<byte>>)
    ensures WriteAll(c, s, a + b) ==
              match WriteAll(c, s, a)
              case Done(s1) => WriteAll(c, s1, b)
              case Undefined(f) => Undefined(f)
    decreases |a|
  {
    if a != [] {
      assert (a + b)[0] == a[0];
      assert (a + b)[1..] == a[1..] + b;
      match WriteData(c, s, a[0])
      case Done(s1) => WriteAllAppend(c, s1, a[1..], b);
      case Undefined(f) =>
    } else {
      assert a + b == b;
    }
  }
}
