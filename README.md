# bph_wav_load in Dafny

A model of `bph_wav_load` from the single-header library `bph_wav.h`. This is
the loader for RIFF/WAVE sound files. It reads a 12-byte RIFF header through
the caller's `read` callback and checks the tag (`RIFF`), the size (more than
36) and the form type (`WAVE`). It then walks a cursor through the chunks of
the file, seeking to each one with the caller's `seek` callback:

- a `fmt ` chunk: the 16-byte PCM format body is decoded and four of its
  fields are passed to the header callback;
- a `data` chunk: its declared size is passed to the data callback;
- any other chunk is skipped.

Every failure calls the error callback once, with a message, and then returns
`false`.

The model has six modules:

- `Binary`: bytes, and little-endian unsigned and two's-complement decoding
  and encoding, with round trips. `Wrap32` is the conversion of a wider
  integer back to a 32-bit `int`.
- `Riff`: the four-character codes, and the three fixed layouts the loader
  reads (RIFF header, chunk header, `fmt ` body). Each has a parser and an
  encoder, proved inverse in both directions.
- `WavLoad`: the loader as functions of a byte stream. `Load` gives the
  outcome (`Loaded` for `true`, `Failed` for `false`) and the trace of
  callback events, in order. The loop need not terminate, so the walk carries
  a `fuel`: the number of chunk headers it may still read. A run that uses it
  all up is `Unfinished`.
- `WavProperties` and `WavRoundTrip`: what the loader promises, proved of
  `Load` and `Walk`. It also covers what it does with a file written the
  usual way.
- `WavReader`: the loader as the imperative loop it is.
  - `ByteSource` is the stream behind `read` and `seek`, with a read
    position and a ghost log of the seeks asked of it.
  - `Listener` records the callbacks and answers them from a `Policy`.
  - `LoadWav` and `ChunkLoop` are proved to return exactly the outcome, and
    deliver exactly the events, that `Load` and `Walk` give.

The model follows the code where it departs from the RIFF layout it reads:

- The loop runs while the cursor is below `sizeof(riff.format) + riff.size`,
  that is `4 + size`. A RIFF container ends at `8 + size`, since its size
  does not count the 8 bytes of its own tag and size.
- The cursor moves by exactly `8 + chunk.size`. It is not rounded up to an
  even offset, although RIFF pads every chunk of odd size with one byte.

Other behaviour of the code, modelled as written:

- Every size is a signed 32-bit `int`.
  - A RIFF size of 2^31 or more, read as unsigned, is negative and fails the
    size check (`HugeRiffSizeRejected`).
  - An unknown chunk of size -8 loops forever (`SelfLoopNeverFinishes`).
  - The cursor is an `int` that wraps modulo 2^32 (`CursorWrapsAround`).
- A well-formed file with an empty `data` chunk has RIFF size 36 and is
  rejected (`EmptyWaveFileRejected`).

C conversions are taken as on an LP64 target with two's-complement `int`:

- In the loop guard, the `int` cursor is converted to the 64-bit `size_t` of
  `sizeof(riff.format) + riff.size`. A negative cursor is therefore never
  below the bound (`BelowBound`).
- `i += sizeof(chunk) + chunk.size` keeps the low 32 bits (`NextCursor`).

## Model

| member | source | states |
|---|---|---|
| Binary.UnsignedEncode | bph_wav.h:54-58 | decoding the little-endian encoding of an unsigned value gives the value back |
| Binary.EncodeUnsigned | bph_wav.h:54-58 | encoding the unsigned value of any byte string gives the same bytes back |
| Binary.SignedEncodeSigned | bph_wav.h:93-100 | a two's-complement `int`/`short` field read back from its encoding is the value written |
| Binary.EncodeSignedSigned | bph_wav.h:93-100 | every byte string is the two's-complement encoding of its signed value |
| Binary.Int32IsFourBytes | bph_wav.h:54-58 | a value is a 32-bit `int` if and only if some 4 little-endian bytes read as it |
| Binary.Int16IsTwoBytes | bph_wav.h:93-100 | a value is a `short` if and only if some 2 little-endian bytes read as it |
| Binary.SizeT | bph_wav.h:79 | the conversion of a signed value to the 64-bit `size_t`: the one value below 2^64 congruent to it modulo 2^64 |
| Binary.Wrap32 | bph_wav.h:124 | the result is a 32-bit `int` congruent to the input modulo 2^32: the input itself when it fits, the input minus 2^32 just above the range |
| Riff.TagsSpellFourCC | bph_wav.h:65-115 | the constants compared with are the ASCII codes `RIFF`, `WAVE`, `fmt ` and `data`, read as little-endian `int`s |
| Riff.ParseEncodeRiffHeader | bph_wav.h:54-60 | the 12-byte RIFF header (id, size, form type) parses back to the header encoded |
| Riff.EncodeParseRiffHeader | bph_wav.h:54-60 | every 12 bytes are the encoding of the header they parse to |
| Riff.ParseEncodeChunkHeader | bph_wav.h:80-85 | the 8-byte chunk header (id, size) parses back to the header encoded |
| Riff.EncodeParseChunkHeader | bph_wav.h:80-85 | every 8 bytes are the encoding of the chunk header they parse to |
| Riff.ParseEncodeFmtBody | bph_wav.h:93-101 | the 16-byte `fmt ` body (format, channels, rate, byte rate, frame size, bits) parses back to the body encoded |
| Riff.EncodeParseFmtBody | bph_wav.h:93-101 | every 16 bytes are the encoding of the `fmt ` body they parse to |
| Riff.CallbackFields | bph_wav.h:93-109 | the header callback's arguments are the signed fields at offsets 2, 4, 12 and 14 of the 16-byte body |
| Riff.CallbackIgnoresByteRate | bph_wav.h:97-109 | two bodies that differ only in the byte rate (offset 8) give the header callback the same arguments |
| WavLoad.Take | bph_wav.h:23-25 | a read of n bytes returns the next bytes of the stream: exactly n of them if and only if n bytes remain |
| WavLoad.CheckHeader | bph_wav.h:65-76 | a header passes if and only if its tag is `RIFF`, its size is above 36 and its form is `WAVE`; otherwise the message is one of the three header messages |
| WavLoad.BelowBound | bph_wav.h:79 | the first half of the loop guard, `0 <= i < bound`; for an `int` cursor and a bound below 2^63 it holds if and only if the cursor converted to `size_t` is below the bound, as the C comparison does |
| WavLoad.NextCursor | bph_wav.h:124 | the next cursor is a 32-bit `int`, equal to `i + 8 + size` when that fits; with a non-negative size and no wrap past 2^32 it is at least `i + 8` or negative |
| WavLoad.Dispatch | bph_wav.h:90-123 | a chunk that stops the load yields exactly one error report, as its last event; one that does not yields none; an unknown tag yields no event at all |
| WavLoad.ChunkTurn | bph_wav.h:80-124 | one turn stops with exactly one error report, last, or goes on with none, to `NextCursor(i, size)` of a complete header; it fires at most two callbacks |
| WavLoad.Walk | bph_wav.h:78-125 | defines the `while` loop from cursor `i`: stop with `true` when the cursor is not below the bound or the seek fails, otherwise run one turn and go on at its next cursor; at most two callbacks per chunk header read |
| WavLoad.Load | bph_wav.h:51-127 | defines the whole load: read and check the RIFF header, then walk from cursor 12 with the bound `4 + size`; it ends other than `Failed` only after a complete header that passes all three checks, and fires at most one callback more than two per chunk header read |
| WavProperties.WalkReportsOutcome | bph_wav.h:78-126 | in the chunk loop every failure reports exactly one error, as its last event, and a run that does not fail reports none |
| WavProperties.LoadReportsOutcome | bph_wav.h:60-126 | every `return false` is preceded by exactly one error callback, the last callback of the run; the `true` path never calls it |
| WavProperties.ShortRiffHeaderFails | bph_wav.h:60-63 | fewer than 12 bytes left: failure with "Could not read RIFF header" and no other callback |
| WavProperties.HeaderChecksInOrder | bph_wav.h:65-79 | tag, size and form type are checked in that order, the first failure decides the message, and a valid header starts the loop at cursor 12 with bound `4 + size` |
| WavProperties.HugeRiffSizeRejected | bph_wav.h:69-72 | a RIFF size field of 2^31 or more is a negative `int` and fails with "header size too small" |
| WavProperties.WalkEndsCleanly | bph_wav.h:79 | a cursor not below the bound, or one the seek cannot reach, ends the loop with `true` and no callback |
| WavProperties.ShortChunkHeaderFails | bph_wav.h:85-88 | a chunk header cut short fails with "Could not read chunk" |
| WavProperties.UnknownChunkSkipped | bph_wav.h:90-124 | a chunk of any other tag fires no callback and the loop goes on at `i + 8 + size` |
| WavProperties.DataChunkReported | bph_wav.h:115-124 | a `data` chunk passes exactly its declared size to the data callback; a decline fails with "Could not read data", an accept goes on at `i + 8 + size` |
| WavProperties.FmtBodyDecoded | bph_wav.h:91-113 | the `fmt ` branch: short body, then non-PCM tag, then the header callback on the fields at offsets 2, 4, 12 and 14, with "Unsupported format" on a decline |
| WavProperties.FmtChunkDecoded | bph_wav.h:91-124 | the same for the chunk loop, with the body read right after the chunk header and the loop going on at `i + 8 + size` after an accepted format |
| WavProperties.WalkFuelMonotone | bph_wav.h:78-125 | once the loop has ended, more fuel gives the same run: the fuel bounds the model, not the behaviour |
| WavProperties.ForwardWalkFinishes | bph_wav.h:78-125 | when every chunk reached has a size that moves the cursor forward, one turn per 8 bytes of stream is enough for the loop to end |
| WavProperties.LoadFinishes | bph_wav.h:51-127 | the same for a whole load from the start of the stream |
| WavProperties.SelfLoopNeverFinishes | bph_wav.h:90-124 | an unknown chunk of size -8 sends the cursor back to itself: the loop never ends, whatever the fuel |
| WavProperties.CursorWrapsAround | bph_wav.h:124 | the cursor wraps at 2^31: a large chunk can send it back to offset 6, or make it negative |
| WavRoundTrip.WaveFileParts | bph_wav.h:54-100 | a written file's header, chunk headers and format body decode, at the offsets the loader reads them from, to what was written |
| WavRoundTrip.WaveFileLoads | bph_wav.h:51-127 | loading a written PCM file reports its format and then its payload size, in file order, and succeeds; a declined callback fails at once with its error |
| WavRoundTrip.NonPcmWaveFileFails | bph_wav.h:105-108 | a written file with a format tag other than 1 fails with "Not a PCM file" before any callback |
| WavRoundTrip.EmptyWaveFileRejected | bph_wav.h:69-72 | a written file with an empty payload has RIFF size 36 and is rejected as too small |
| WavReader.ByteSource.Read | bph_wav.h:23-25 | returns the next bytes of the stream, as many as remain up to n, and moves the position past them |
| WavReader.ByteSource.Seek | bph_wav.h:44-46 | an absolute seek succeeds if and only if the location is within the stream; a failed seek moves nothing; every seek is logged |
| WavReader.Listener.OnFormat | bph_wav.h:27-37 | records the format event and returns the caller's answer for it |
| WavReader.Listener.OnData | bph_wav.h:39-42 | records the data event and returns the caller's answer for the size |
| WavReader.Listener.OnError | bph_wav.h:48-49 | records the error report |
| WavReader.HandleChunk | bph_wav.h:90-123 | the `switch` delivers exactly the events `Dispatch` gives and goes on exactly when it does; it seeks nowhere, and the read position moves only past the body a `fmt ` chunk reads |
| WavReader.VisitChunk | bph_wav.h:80-124 | one turn delivers exactly the events `ChunkTurn` gives and goes on, to its next cursor, exactly when it does; the read position ends past the header and, for `fmt `, the body it read |
| WavReader.Guard | bph_wav.h:79 | the loop goes on if and only if the cursor is below the bound and the seek to it succeeds; the seek is asked for only below the bound |
| WavReader.ChunkLoop | bph_wav.h:78-125 | the loop returns the outcome and delivers the events of `Walk`, and seeks only to locations below the bound |
| WavReader.LoadWav | bph_wav.h:51-127 | the whole load returns the outcome and delivers the events of `Load`, and seeks only to locations below `4 + size` of a header it read |

## Left out

- `bph_matrix.h` and `bph_shaders.h` are not part of this model. The first is
  closed-form floating-point arithmetic; the second wraps OpenGL calls.
- The real I/O behind `read` and `seek`, and the `void * user` pointer, are
  not modelled. The stream is a byte sequence. A seek succeeds exactly when
  the location is within it, which is the behaviour the callback comment at
  lines 44-46 gives as its example.
- WavReader.ByteSource.Read: the read always returns as many bytes as remain,
  up to the count asked for. A `read` callback may return fewer while more
  remain, and the loader fails on that as on the end of the stream. The model
  therefore does not capture "Could not read chunk" or "Could not read format
  chunk" in the middle of a stream, nor "Could not read RIFF header" on a
  stream that holds 12 bytes. A callback that returns -1 (an I/O error) is
  not modelled either. The loader treats it like a short read: anything but
  the full count fails.
- What the data callback does with the payload is not modelled. It may move
  the stream, but the loop seeks to the next cursor before reading again, so
  the model's data callback leaves the stream alone.
- The callbacks answer from a fixed `Policy`, a function of their arguments.
  A caller whose answers depend on earlier calls is not modelled.
- The error callback receives a `Message` value, one per message string of
  the source, not the text itself.
- Non-termination is not modelled directly. `Walk` and `ChunkLoop` stop after
  `fuel` chunk headers with the outcome `Unfinished`.
  `WalkFuelMonotone` shows that this bound never changes a run that ends, and
  `SelfLoopNeverFinishes` shows a run that never ends.
- WavProperties.ForwardWalkFinishes: the hypothesis (every chunk reached moves
  the cursor forward without wrapping) is sufficient for termination, not
  necessary. Termination in general is not characterised, because it is not
  guaranteed.
- The C target is taken as LP64 with two's-complement `int` and an `int`
  conversion that keeps the low 32 bits, as gcc and clang do. Other targets
  are not modelled.
- Host byte order and struct layout are taken as little-endian without
  padding, which is what the struct overlays at lines 54-58, 80-83 and 93-100
  assume. Fields are decoded from bytes explicitly.
