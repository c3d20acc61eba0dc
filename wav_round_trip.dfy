/** The smallest WAVE files a writer produces — RIFF header, a 16-byte `fmt `
    chunk, a `data` chunk — and what the loader makes of them. */
module WavRoundTrip {
  import opened Binary
  import opened Riff
  import opened WavLoad

  /** A payload whose length the RIFF size field can hold. */
  predicate PayloadFits(payload: seq<byte>)
  {
    MinRiffSize + |payload| < 0x8000_0000
  }

  /** The file: `RIFF`, size 36 + |payload|, `WAVE`; `fmt ` of size 16 with
      the body; `data` of size |payload| with the payload. */
  function WaveFile(fmt: FmtBody, payload: seq<byte>): (s: seq<byte>)
    requires FmtBodyFits(fmt) && PayloadFits(payload)
    ensures |s| == RiffHeaderSize + ChunkHeaderSize + FmtBodySize + ChunkHeaderSize + |payload|
  {
    Pow256Values();
    EncodeRiffHeader(RiffHeader(RiffTag, MinRiffSize + |payload|, WaveTag)) +
    EncodeChunkHeader(ChunkHeader(FmtTag, FmtBodySize)) + EncodeFmtBody(fmt) +
    EncodeChunkHeader(ChunkHeader(DataTag, |payload|)) + payload
  }

  /** Where the five parts of a WaveFile sit. */
  lemma Layout(a: seq<byte>, b: seq<byte>, c: seq<byte>, d: seq<byte>, e: seq<byte>)
    requires |a| == RiffHeaderSize && |b| == ChunkHeaderSize && |c| == FmtBodySize && |d| == ChunkHeaderSize
    ensures var s := a + b + c + d + e;
      s[0..12] == a && s[12..20] == b && s[20..36] == c && s[36..44] == d
  {
    var s := a + b + c + d + e;
    assert s[0..44] == a + b + c + d;
    assert (a + b + c + d)[0..36] == a + b + c;
    assert (a + b + c)[0..20] == a + b;
  }

  lemma WaveFileLayout(fmt: FmtBody, payload: seq<byte>)
    requires FmtBodyFits(fmt) && PayloadFits(payload)
    ensures var s := WaveFile(fmt, payload);
      s[0..12] == EncodeRiffHeader(RiffHeader(RiffTag, MinRiffSize + |payload|, WaveTag)) &&
      s[12..20] == EncodeChunkHeader(ChunkHeader(FmtTag, FmtBodySize)) &&
      s[20..36] == EncodeFmtBody(fmt) &&
      s[36..44] == EncodeChunkHeader(ChunkHeader(DataTag, |payload|))
  {
    Pow256Values();
    Layout(EncodeRiffHeader(RiffHeader(RiffTag, MinRiffSize + |payload|, WaveTag)),
           EncodeChunkHeader(ChunkHeader(FmtTag, FmtBodySize)), EncodeFmtBody(fmt),
           EncodeChunkHeader(ChunkHeader(DataTag, |payload|)), payload);
  }

  /** The parts of a WaveFile decode to what was written, at the offsets the
      loader reads them from. */
  lemma WaveFileParts(fmt: FmtBody, payload: seq<byte>)
    requires FmtBodyFits(fmt) && PayloadFits(payload)
    ensures var s := WaveFile(fmt, payload);
      ParseRiffHeader(s[0..12]) == RiffHeader(RiffTag, MinRiffSize + |payload|, WaveTag) &&
      ParseChunkHeader(s[12..20]) == ChunkHeader(FmtTag, FmtBodySize) &&
      ParseFmtBody(s[20..36]) == fmt &&
      ParseChunkHeader(s[36..44]) == ChunkHeader(DataTag, |payload|)
  {
    Pow256Values();
    WaveFileLayout(fmt, payload);
    ParseEncodeRiffHeader(RiffHeader(RiffTag, MinRiffSize + |payload|, WaveTag));
    ParseEncodeChunkHeader(ChunkHeader(FmtTag, FmtBodySize));
    ParseEncodeFmtBody(fmt);
    ParseEncodeChunkHeader(ChunkHeader(DataTag, |payload|));
  }

  /** Loading a PCM WaveFile with a non-empty payload reports the format and
      then the payload size, in file order, and succeeds; a declined callback
      stops the load at once with its error. */
  lemma WaveFileLoads(fmt: FmtBody, payload: seq<byte>, policy: Policy, fuel: nat)
    requires FmtBodyFits(fmt) && PayloadFits(payload)
    requires fmt.formatTag == PcmFormat && |payload| > 0 && fuel >= 2
    ensures var f := CallbackArgs(fmt);
      Load(WaveFile(fmt, payload), 0, policy, fuel) ==
        if !policy.acceptFormat(f) then Run(Failed, [FormatFound(f), ErrorReported(FormatDeclined)])
        else if !policy.acceptData(|payload|) then
          Run(Failed, [FormatFound(f), DataFound(|payload|), ErrorReported(DataDeclined)])
        else Run(Loaded, [FormatFound(f), DataFound(|payload|)])
  {
    var s := WaveFile(fmt, payload);
    WaveFileParts(fmt, payload);
    var bound := FormTypeSize + MinRiffSize + |payload|;
    assert Load(s, 0, policy, fuel) == Walk(s, policy, bound, 12, fuel);
    assert NextCursor(12, FmtBodySize) == 36;
    var last := NextCursor(36, |payload|);
    assert !BelowBound(last, bound);
    assert Walk(s, policy, bound, last, fuel - 2) == Run(Loaded, []);
  }

  /** A non-PCM format tag fails the load before any callback. */
  lemma NonPcmWaveFileFails(fmt: FmtBody, payload: seq<byte>, policy: Policy, fuel: nat)
    requires FmtBodyFits(fmt) && PayloadFits(payload)
    requires fmt.formatTag != PcmFormat && |payload| > 0 && fuel >= 1
    ensures Load(WaveFile(fmt, payload), 0, policy, fuel) == Run(Failed, [ErrorReported(NotPcm)])
  {
    var s := WaveFile(fmt, payload);
    WaveFileParts(fmt, payload);
    var bound := FormTypeSize + MinRiffSize + |payload|;
    assert Load(s, 0, policy, fuel) == Walk(s, policy, bound, 12, fuel);
  }

  /** A WaveFile with an empty payload has RIFF size 36, which the size check
      rejects: the loader refuses a well-formed file without samples. */
  lemma EmptyWaveFileRejected(fmt: FmtBody, policy: Policy, fuel: nat)
    requires FmtBodyFits(fmt)
    ensures Load(WaveFile(fmt, []), 0, policy, fuel) == Run(Failed, [ErrorReported(RiffSizeTooSmall)])
  {
    WaveFileParts(fmt, []);
  }
}
