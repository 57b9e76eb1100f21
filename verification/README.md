# SDRangel: the SDRdaemon frame buffer and the LoRa modulator baseband

A Dafny model of two small pieces of SDRangel. The proofs are about the model.

- **`SDRdaemonBuffer`** is the receive-side frame buffer of the SDRdaemon network sample source.
  - `readMeta` validates a metadata record.
    - A record whose CRC64 does not match changes nothing.
    - A record announcing a foreign block size desynchronises the buffer.
    - A good record synchronises the buffer on its frame size and resizes buffers when that size changes.
  - `writeData` is only active on a synchronised, LZ4-compressed stream. It counts payload bytes until a compressed frame is complete. It then copies the missing tail into the compressed-input buffer, checks the payload CRC and decompresses. It keeps diagnostic counters that restart every 100 decodes.
- **`LoRaModBaseband`** is the glue of the LoRa modulator's transmit path.
  - `handleData` fills the sample FIFO through the up-channelizer while the FIFO has room and no message is pending, then reports the signal levels once.
  - `handleInputMessages` and `handleMessage` dispatch configuration, payload and sample-rate messages in queue order.
  - `applySettings` reconfigures the channelizer when the bandwidth index or the input offset changes, or when forced.
  - `pull` copies a FIFO read region, which may wrap, to the caller.

Modules:

- `MachineInts` (`machine_ints.dfy`) holds the C++ fixed-width integers and the conversions the code relies on:
  - 32-bit truncation on assignment;
  - unsigned subtraction;
  - the signed-to-unsigned conversion in a mixed `int == uint32_t` comparison.
- `SdrDaemonBuffer` (`sdrdaemon_buffer.dfy`) models the frame buffer as an immutable record.
  - Every operation returns the next record, or `Undefined(fault)` where the C++ code has undefined behaviour.
  - These are the three faults:
    - a division by zero;
    - a `memcpy` past the compressed-input allocation;
    - a decompressor given a too-small output buffer.
  - The `Codec` parameter supplies the parts the code borrows: `sizeof(MetaData)`, the struct reinterpretation of the record bytes, CRC64, the host byte layout of a `uint64_t`, and `LZ4_decompress_fast`.
  - The buffers' allocated capacities are tracked explicitly.
- `SdrDaemonFindings` (`sdrdaemon_findings.dfy`) covers the reallocation defect described under Findings.
  - It runs the buffer over a stream of records and payload chunks.
  - It exhibits three streams that overrun a compression buffer under the code as written: two overrun the compressed-input buffer, one the decompression output buffer.
  - It proves that the corrected policy never overflows.
- `LoRaModBaseband` (`loramod_baseband.dfy`) models the baseband.
  - The FIFO, the channelizer and the LoRa source are abstract.
  - Their state is the history of calls the baseband made to them, kept in order in `trace`.
  - Their answers are opaque functions of that history, supplied in `Collaborators`: writable room, read and write regions, channel rate and offset, levels and sample storage.
  - The message queue is passed in explicitly.
- `LoRaModProperties` (`loramod_properties.dfy`) proves what holds across entry points.
  - **Channelization invariant:** once the channelizer has been given a channelization, the latest one is the one the current settings call for. Every entry point keeps this true.
  - Batching the queue does not change the result of dispatch.
  - The settings in force after a queue, and which messages are left undeleted, are determined by the queue.
  - The source is always given the rate and offset the channelizer reports at that moment.

## Model

| member | source | states |
|---|---|---|
| SdrDaemonBuffer.Init | plugins/samplesource/sdrdaemon/sdrdaemonbuffer.cpp:22-41 | The constructor leaves the buffer unsynchronised and uncompressed, with no buffers allocated. The buffer invariant holds from the start. The invariant includes the fixed 1,000,000 S/s and 2 bytes per sample, which amount to 4,000,000 bytes per second. No operation changes these. |
| SdrDaemonBuffer.ReadMetaUsing | plugins/samplesource/sdrdaemon/sdrdaemonbuffer.cpp:54-108 | A record with a bad header CRC changes nothing and returns the previous sync flag. A good record with a foreign block size clears sync and returns false, but still overwrites the payload CRC and current metadata. A good record with the agreed block size sets sync and returns true. In that case the frame size becomes `(sampleBytes & 0xF) * 2 * nbSamples * nbBlocks`. The LZ4 flag follows bit 0x10, with `lz4InSize = nbBytes` and the count cleared. The LZ4 fields are untouched when the flag is off. Buffers are reallocated exactly as the policy says. The call is undefined iff a zero frame size replaces a non-zero one. Rate, width and counters never change, and the buffer invariant is kept. |
| SdrDaemonBuffer.Resync | plugins/samplesource/sdrdaemon/sdrdaemonbuffer.cpp:72-99 | After an accepted record the buffer is synchronised on the record's frame size. The LZ4 flag and compressed size follow the record. The compression buffers are reallocated exactly when the policy asks for it on a compressed record. The raw buffer is resized exactly when the frame size changes. Nothing else changes. The step is undefined iff a zero frame size replaces a non-zero one. |
| SdrDaemonBuffer.ReadMeta | plugins/samplesource/sdrdaemon/sdrdaemonbuffer.cpp:54-108 | `readMeta` as written. A bad CRC changes nothing. An accepted record synchronises on its frame size. An unchanged frame size reallocates no buffer, whatever the new compressed size. |
| SdrDaemonBuffer.RawBufferSize | plugins/samplesource/sdrdaemon/sdrdaemonbuffer.cpp:214-225 | The raw buffer holds `(bytesPerSecond / frameSize + 1) * frameSize` bytes in 32-bit arithmetic. That is strictly more than one second of samples and at most one frame more whenever nothing wraps. Nothing wraps when one second is below 2^31 bytes, because a frame larger than one second is stored alone. |
| SdrDaemonBuffer.UpdateBufferSize | plugins/samplesource/sdrdaemon/sdrdaemonbuffer.cpp:212-226 | Only the raw buffer's capacity changes. For every frame size, the new capacity is strictly more than the 4,000,000 bytes of one second and at most one frame more. |
| SdrDaemonBuffer.UpdateLZ4Sizes | plugins/samplesource/sdrdaemon/sdrdaemonbuffer.cpp:195-210 | The compressed-input buffer is reallocated to the current compressed size, not the LZ4 worst-case bound. The output buffer is reallocated to the frame size. Nothing else changes. |
| SdrDaemonBuffer.WriteData | plugins/samplesource/sdrdaemon/sdrdaemonbuffer.cpp:110-123 | Unless the stream is both synchronised and compressed, nothing changes. Otherwise sync, the flags, the sizes, the capacities and the payload CRC are preserved, and so is the buffer invariant. |
| SdrDaemonBuffer.WriteDataLZ4 | plugins/samplesource/sdrdaemon/sdrdaemonbuffer.cpp:125-193 | Short of a full frame, only the counter advances by the chunk length. A completing chunk overruns the compressed-input buffer iff that buffer is smaller than the compressed size. If it is large enough but the output buffer is smaller than the frame, decompression overruns the output buffer. Otherwise exactly `lz4InSize - count` bytes of the chunk are copied at offset `count`, the rest of the buffer is unchanged, and one decode runs and resets the counter. |
| SdrDaemonBuffer.Decode | plugins/samplesource/sdrdaemon/sdrdaemonbuffer.cpp:137-192 | The three counters restart when 100 decodes have been counted. A CRC match is counted iff the payload CRC equals the record's, independently of decoding. A success is counted iff the decompressor's return value equals `lz4InSize`. `nbDecodes` goes up by one, the count returns to 0, and nothing else changes. |
| SdrDaemonBuffer.PartialChunksOnlyCount | plugins/samplesource/sdrdaemon/sdrdaemonbuffer.cpp:127-130 | Any run of chunks that together stay short of the compressed size only advances the counter by their total length. |
| SdrDaemonBuffer.FrameAssembly | plugins/samplesource/sdrdaemon/sdrdaemonbuffer.cpp:127-137 | Partial chunks followed by a completing chunk leave a specific frame in the buffer. It is the previous buffer contents up to the accumulated count, followed by the head of the completing chunk. |
| SdrDaemonBuffer.WriteAllAppend | plugins/samplesource/sdrdaemon/sdrdaemonbuffer.cpp:110-123 | Writing two runs of chunks gives the same result as writing their concatenation. |
| SdrDaemonFindings.ReadMetaCorrected | plugins/samplesource/sdrdaemon/sdrdaemonbuffer.cpp:77-99 | With reallocation whenever a buffer is too small, an accepted record leaves both compression buffers large enough for the announced frame. The only remaining fault is the zero frame size. |
| SdrDaemonFindings.WriteDataDefinedWhenSafe | plugins/samplesource/sdrdaemon/sdrdaemonbuffer.cpp:125-193 | From a buffer whose compression buffers fit the current frame, `writeData` is always defined and keeps them fitting. |
| SdrDaemonFindings.CorrectedNeverOverflows | plugins/samplesource/sdrdaemon/sdrdaemonbuffer.cpp:54-193 | Under the corrected policy, a stream of records and chunks of any length never overruns a compression buffer. |
| SdrDaemonFindings.CompressedRecordAllocates | plugins/samplesource/sdrdaemon/sdrdaemonbuffer.cpp:77-86 | An accepted compressed record with a new frame size allocates exactly its own compressed size. |
| SdrDaemonFindings.UncompressedRecordKeepsLz4Buffers | plugins/samplesource/sdrdaemon/sdrdaemonbuffer.cpp:88-98 | An accepted uncompressed record clears the LZ4 flag and leaves both compression buffers as they were, even when its frame size changes. |
| SdrDaemonFindings.SameFrameSizeKeepsBuffers | plugins/samplesource/sdrdaemon/sdrdaemonbuffer.cpp:77-98 | An accepted record with an unchanged frame size keeps both old compression buffers, even if it announces a larger compressed size. |
| SdrDaemonFindings.AsWrittenOverflowsOnLargerFrame | plugins/samplesource/sdrdaemon/sdrdaemonbuffer.cpp:83-86 | As written, two compressed records of equal frame size followed by a completing chunk overrun the compressed-input buffer when the second record is larger. |
| SdrDaemonFindings.AsWrittenOverflowsAfterUncompressed | plugins/samplesource/sdrdaemon/sdrdaemonbuffer.cpp:77-98 | As written, a compressed record after an uncompressed one of the same frame size finds no compressed-input buffer. The completing chunk then overruns it. |
| SdrDaemonFindings.AsWrittenOverrunsOutputBuffer | plugins/samplesource/sdrdaemon/sdrdaemonbuffer.cpp:83-96 | As written, a stream of four inputs ends with the decompressor overrunning its output buffer. The inputs are a compressed record, an uncompressed record with a larger frame size, a compressed record of that larger size with no more compressed bytes than the first, and a completing chunk. |
| LoRaModBaseband.Create | plugins/channeltx/modlora/loramodbaseband.cpp:29-45 | Construction resizes the FIFO to `getSizePolicy(48000)` and makes no channelizer call. |
| LoRaModBaseband.ResetFifo | plugins/channeltx/modlora/loramodbaseband.cpp:52-56 | `reset` resets the FIFO and nothing else: the channelizer history, the settings and the messages are untouched. |
| LoRaModBaseband.PullSamples | plugins/channeltx/modlora/loramodbaseband.cpp:58-83 | `pull` reads from the FIFO once. The start of the output is part 1 of the read region followed by part 2, in order. The rest of the output is unchanged. |
| LoRaModBaseband.CopyInto | plugins/channeltx/modlora/loramodbaseband.cpp:66-81 | `std::copy` of a region to a position: the target slice equals the source region and everything else is unchanged. |
| LoRaModBaseband.PullRegion | plugins/channeltx/modlora/loramodbaseband.cpp:117-120 | `processFifo` pulls `end - begin` samples from the channelizer. Only a non-empty region is pulled, and the pulled count is then positive. |
| LoRaModBaseband.Drain | plugins/channeltx/modlora/loramodbaseband.cpp:96-111 | With a message pending, the loop makes no call. Otherwise it stops only when the FIFO reports no room. It only reserves FIFO room and pulls non-empty regions. |
| LoRaModBaseband.DrainStep | plugins/channeltx/modlora/loramodbaseband.cpp:100-108 | One turn of the loop starts by reserving the whole remainder. Its other calls are at most two pulls of non-empty regions. |
| LoRaModBaseband.DrainOnce | plugins/channeltx/modlora/loramodbaseband.cpp:100-108 | One turn of the loop reserves the whole remainder and then pulls part 1 before part 2. The FIFO sees exactly one more write. |
| LoRaModBaseband.HandleData | plugins/channeltx/modlora/loramodbaseband.cpp:85-115 | `handleData` makes the loop's calls, then one `getLevels` and exactly one level notification, which comes last. With a message pending the FIFO is not touched. Otherwise the FIFO is left without room. |
| LoRaModBaseband.LevelsLast | plugins/channeltx/modlora/loramodbaseband.cpp:113-114 | The calls of `handleData` keep the earlier history as a prefix. No level notification comes before the final one. |
| LoRaModBaseband.HandleInputMessages | plugins/channeltx/modlora/loramodbaseband.cpp:122-132 | Every queued message is popped front first, until the queue is empty, and dispatched in that order. |
| LoRaModBaseband.HandleMessage | plugins/channeltx/modlora/loramodbaseband.cpp:134-174 | It returns true exactly for the three known messages. For anything else it changes nothing. A configuration applies the settings. A payload is forwarded verbatim through `setSymbols`. A sample-rate notification resizes the FIFO, sets the channelizer's rate and passes its rate and offset to the source, in that order. |
| LoRaModBaseband.ApplySettings | plugins/channeltx/modlora/loramodbaseband.cpp:176-196 | The settings are always stored and always passed to the source. When the bandwidth index or offset changes, or on force, the channelizer first receives `bandwidths[idx] * oversampling` at the new offset. The source then receives the channelizer's answers. |
| LoRaModBaseband.ApplySettingsCalls | plugins/channeltx/modlora/loramodbaseband.cpp:176-196 | `applySettings` never touches the FIFO. The channelizer receives exactly one new channelization iff the rule fires, and nothing otherwise. The last call passes the settings to the source. |
| LoRaModProperties.CreateInSync | plugins/channeltx/modlora/loramodbaseband.cpp:29-33 | A new baseband has no channelization yet, so the channelization invariant holds. |
| LoRaModProperties.ApplySettingsKeepsInSync | plugins/channeltx/modlora/loramodbaseband.cpp:176-196 | `applySettings` keeps the channelization invariant. After a reconfiguration, the latest channelization is exactly what the new settings call for. |
| LoRaModProperties.HandleMessageKeepsInSync | plugins/channeltx/modlora/loramodbaseband.cpp:134-174 | Every message keeps the channelization invariant. |
| LoRaModProperties.DispatchAllKeepsInSync | plugins/channeltx/modlora/loramodbaseband.cpp:122-132 | Draining any queue with valid bandwidth indices keeps the channelization invariant. |
| LoRaModProperties.ResetKeepsInSync | plugins/channeltx/modlora/loramodbaseband.cpp:52-56 | `reset` keeps the channelization invariant. |
| LoRaModProperties.HandleDataKeepsInSync | plugins/channeltx/modlora/loramodbaseband.cpp:85-120 | `handleData` never changes the channelization, so it keeps the channelization invariant. |
| LoRaModProperties.InRangeDispatchable | plugins/channeltx/modlora/loramodbaseband.cpp:162-166 | If every bandwidth index in play is inside the table, every message in the queue can be handled. |
| LoRaModProperties.SourceSeesChannelizerOnApply | plugins/channeltx/modlora/loramodbaseband.cpp:181-190 | On a reconfiguration, the source receives three values: the channel rate the baseband reports afterwards, the channelizer's offset and the new bandwidth. |
| LoRaModProperties.SignalNotificationCalls | plugins/channeltx/modlora/loramodbaseband.cpp:155-169 | A sample-rate notification adds exactly one FIFO resize, to the size policy of the new rate. It adds exactly one channelizer rate change. The source then receives the channelizer's current rate and offset and the stored bandwidth. The settings are unchanged. |
| LoRaModProperties.ChannelSampleRateTracksChannelizer | plugins/channeltx/modlora/loramodbaseband.cpp:198-201 | `getChannelSampleRate`, modelled by `LoRaModBaseband.GetChannelSampleRate`, reports what the channelizer answers. The reported channel rate is unchanged by `reset` and by unchanged settings. After a reconfiguration it is the channelizer's answer to the new channelization. |
| LoRaModProperties.ApplySettingsIdempotent | plugins/channeltx/modlora/loramodbaseband.cpp:176-196 | Applying the same settings again without force only passes them to the source again. The FIFO and the channelizer see nothing new. |
| LoRaModProperties.DispatchOutcome | plugins/channeltx/modlora/loramodbaseband.cpp:128-130 | One dispatch stores the settings of a configuration message and keeps exactly an unrecognised message undeleted. |
| LoRaModProperties.DispatchAllOutcome | plugins/channeltx/modlora/loramodbaseband.cpp:122-132 | After a queue, the settings are those of its last configuration message. Exactly its unrecognised messages, in order, are left undeleted. |
| LoRaModProperties.DispatchAllAppend | plugins/channeltx/modlora/loramodbaseband.cpp:126-131 | Draining a queue in two batches is the same as draining it at once. |

## Left out

- Qt threading in the baseband is not modelled: the mutexes, the queued signal connections and `emit`. Every entry point runs to completion, one after the other. The level notification is a `LevelChanged` entry in the call history.
- The internals of the sample FIFO, the up-channelizer and the LoRa source are not modelled. They are DSP code that is not part of this model, so their answers are opaque functions of the calls made to them.
- The CRC64 and LZ4 algorithms are not modelled; they are foreign library code.
- `printMeta` and the `std::cerr` / `qDebug` logging are not modelled; they are I/O.
- The destructors are not modelled; deallocation has no observable effect here.
- The widths of the buffer's members are declared in `sdrdaemonbuffer.h`, which is not part of this model. The frame size and compressed size are taken as `uint32_t` and the byte count as unbounded.
- The contents of a fresh `new uint8_t[n]` are taken to be zeros. C++ leaves them indeterminate, and no proof depends on them.
- The raw sample buffer is only a capacity. Nothing is ever written into it, and the decompression output is likewise only a capacity.
- In the code the raw buffer is sized from the buffer's own `m_sampleRate` and `m_sampleBytes`. These are fixed at 1,000,000 and 2 and never updated from a record. Describing it as "one second at the declared rate" does not match the code; the model follows the code.
- The allocation described as "the worst-case compressed bound" does not match the code either. The code computes `LZ4_compressBound` and never uses it: the compressed-input buffer gets the current compressed size. The model follows the code.
- A bad header CRC "returning to unsynchronised" does not match the code either. A bad CRC leaves the sync flag as it was and returns it. The model follows the code.
- `LZ4_decompress_fast` returns the number of compressed bytes it read. A success therefore means that this number equals `lz4InSize`, not that the decompressed length matches the frame size.
- SdrDaemonBuffer.ReadMeta: the full contract is stated on `ReadMetaUsing`, which ReadMeta instantiates with the policy as written. ReadMeta repeats only its headline clauses.
- LoRaModBaseband.HandleData: the loop's termination depends on the FIFO's own promise. Reserving all remaining room must leave less room (`FifoDrains`). The FIFO's code is not part of this model, so this is a precondition.
- LoRaModBaseband.PullSamples: the precondition that the read regions lie inside the FIFO's storage and the caller's room (`ReadFits`) is the FIFO's promise. The caller relies on it; it is not checked.
- LoRaModBaseband.HandleInputMessages: indexing `bandwidths` outside the table is undefined in C++. The precondition `Dispatchable` rules out exactly those queues.
- In the C++ the queue can grow while it is being drained. This is not modelled; `DispatchAllAppend` shows that processing a later batch separately gives the same result.
- The LoRa settings other than the bandwidth index and the input frequency offset are carried as opaque data. The baseband never inspects them.
- The remaining files of the repository are not part of this model: GUI code, REST boilerplate and declaration-only headers.

## Findings

| source | as written | input that shows it | evidently intended | confidence | as-written member | corrected member |
|---|---|---|---|---|---|---|
| plugins/samplesource/sdrdaemon/sdrdaemonbuffer.cpp:83-86 | The compressed-input buffer is reallocated only when a compressed record changes the frame size. It is sized to the compressed size `m_lz4InSize` of the record that caused it. | Two accepted compressed records with the same non-zero frame size, where the second has a larger `m_nbBytes`, then a chunk completing the second frame: `memcpy` writes past the allocation. Another case: an uncompressed record, then a compressed record of the same frame size, then a completing chunk. The compressed-input buffer was never allocated. | Reallocate whenever a compression buffer is smaller than the announced compressed size or frame size. Then `writeDataLZ4` never overruns either compression buffer. | high, not executed | SdrDaemonFindings.AsWrittenOverflowsOnLargerFrame | SdrDaemonFindings.CorrectedNeverOverflows |
| plugins/samplesource/sdrdaemon/sdrdaemonbuffer.cpp:83-96 | An uncompressed record with a new frame size resizes only the raw buffer, yet it updates `m_frameSize`. A later compressed record of that frame size then skips `updateLZ4Sizes`. | A compressed record of frame size F1 with N1 compressed bytes, then an uncompressed record with frame size F2 > F1, then a compressed record of frame size F2 with at most N1 bytes, then a completing chunk. `LZ4_decompress_fast` writes F2 bytes into the F1-byte output buffer. | The same corrected reallocation, which also reallocates when the output buffer is smaller than the frame. | high, not executed | SdrDaemonFindings.AsWrittenOverrunsOutputBuffer | SdrDaemonFindings.CorrectedNeverOverflows |
