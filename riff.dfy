/** The on-disk structures of a RIFF/WAVE file that bph_wav.h reads: the
    12-byte RIFF header, the 8-byte chunk header and the 16-byte PCM `fmt `
    body, each decoded field by field as little-endian C `int`s and `short`s. */
module Riff {
  import opened Binary

  /** Four-character codes, read as little-endian 32-bit integers. */
  const RiffTag: int := 0x46464952  // "RIFF"
  const WaveTag: int := 0x45564157  // "WAVE"
  const FmtTag: int := 0x20746d66   // "fmt "
  const DataTag: int := 0x61746164  // "data"

  /** The `format` code of uncompressed PCM audio. */
  const PcmFormat: int := 1

  /** Sizes of the structures, in bytes. */
  const RiffHeaderSize: nat := 12
  const FormTypeSize: nat := 4
  const ChunkHeaderSize: nat := 8
  const FmtBodySize: nat := 16

  /** The smallest RIFF size the loader rejects is this one; larger sizes pass. */
  const MinRiffSize: int := 36

  /** The bytes of an ASCII text. */
  function Ascii(text: string): (s: seq<byte>)
    requires forall k | 0 <= k < |text| :: text[k] as int < 256
    ensures |s| == |text|
    ensures forall k | 0 <= k < |text| :: s[k] == text[k] as int
  {
    if text == [] then [] else [text[0] as int] + Ascii(text[1..])
  }

  /** The unsigned reading of four bytes, written out. */
  lemma {:induction false} UnsignedOfFour(s: seq<byte>)
    requires |s| == 4
    ensures Unsigned(s) == s[0] as int + 0x100 * s[1] as int + 0x1_0000 * s[2] as int + 0x100_0000 * s[3] as int
  {
    assert s[1..][1..] == s[2..];
    assert s[2..][1..] == s[3..];
    assert s[3..][1..] == [];
    assert Unsigned(s[3..]) == s[3];
    assert Unsigned(s[2..]) == s[2] as int + 256 * s[3] as int;
    assert Unsigned(s[1..]) == s[1] + 256 * Unsigned(s[2..]);
  }

  /** The four tags the loader compares against are the four-character codes
      of the RIFF format, as a little-endian host reads them into an `int`. */
  lemma TagsSpellFourCC()
    ensures Signed(Ascii("RIFF")) == RiffTag
    ensures Signed(Ascii("WAVE")) == WaveTag
    ensures Signed(Ascii("fmt ")) == FmtTag
    ensures Signed(Ascii("data")) == DataTag
  {
    Pow256Values();
    UnsignedOfFour(Ascii("RIFF"));
    UnsignedOfFour(Ascii("WAVE"));
    UnsignedOfFour(Ascii("fmt "));
    UnsignedOfFour(Ascii("data"));
  }

  /** The RIFF header: the `RIFF` tag, the size of what follows the size field,
      and the form type (`WAVE`). */
  datatype RiffHeader = RiffHeader(id: int, size: int, form: int)

  /** A chunk header: a tag and the size of the chunk's body. */
  datatype ChunkHeader = ChunkHeader(id: int, size: int)

  /** The first 16 bytes of a `fmt ` chunk. */
  datatype FmtBody = FmtBody(
    formatTag: int,
    numChannels: int,
    sampleRate: int,
    byteRate: int,
    frameSize: int,
    bitsPerSample: int)

  /** What the header callback receives: everything of FmtBody but the format
      tag and the byte rate. */
  datatype Format = Format(numChannels: int, sampleRate: int, frameSize: int, bitsPerSample: int)

  predicate RiffHeaderFits(h: RiffHeader)
  {
    FitsSigned(h.id, 4) && FitsSigned(h.size, 4) && FitsSigned(h.form, 4)
  }

  predicate ChunkHeaderFits(c: ChunkHeader)
  {
    FitsSigned(c.id, 4) && FitsSigned(c.size, 4)
  }

  predicate FmtBodyFits(f: FmtBody)
  {
    FitsSigned(f.formatTag, 2) && FitsSigned(f.numChannels, 2) &&
    FitsSigned(f.sampleRate, 4) && FitsSigned(f.byteRate, 4) &&
    FitsSigned(f.frameSize, 2) && FitsSigned(f.bitsPerSample, 2)
  }

  /** The signed field of the given width at the given offset of a record. */
  function Field(s: seq<byte>, offset: nat, width: nat): (r: int)
    requires 0 < width && offset + width <= |s|
    ensures FitsSigned(r, width)
  {
    Signed(s[offset..offset + width])
  }

  function ParseRiffHeader(s: seq<byte>): (h: RiffHeader)
    requires |s| == RiffHeaderSize
    ensures RiffHeaderFits(h)
  {
    RiffHeader(Field(s, 0, 4), Field(s, 4, 4), Field(s, 8, 4))
  }

  function EncodeRiffHeader(h: RiffHeader): (s: seq<byte>)
    requires RiffHeaderFits(h)
    ensures |s| == RiffHeaderSize
  {
    EncodeSigned(h.id, 4) + EncodeSigned(h.size, 4) + EncodeSigned(h.form, 4)
  }

  function ParseChunkHeader(s: seq<byte>): (c: ChunkHeader)
    requires |s| == ChunkHeaderSize
    ensures ChunkHeaderFits(c)
  {
    ChunkHeader(Field(s, 0, 4), Field(s, 4, 4))
  }

  function EncodeChunkHeader(c: ChunkHeader): (s: seq<byte>)
    requires ChunkHeaderFits(c)
    ensures |s| == ChunkHeaderSize
  {
    EncodeSigned(c.id, 4) + EncodeSigned(c.size, 4)
  }

  /** The `fmt ` body: `short format, numChannels; int sampleRate, byteRate;
      short frameSize, bitsPerSample`, at offsets 0, 2, 4, 8, 12 and 14. */
  function ParseFmtBody(s: seq<byte>): (f: FmtBody)
    requires |s| == FmtBodySize
    ensures FmtBodyFits(f)
  {
    FmtBody(Field(s, 0, 2), Field(s, 2, 2), Field(s, 4, 4), Field(s, 8, 4), Field(s, 12, 2), Field(s, 14, 2))
  }

  function EncodeFmtBody(f: FmtBody): (s: seq<byte>)
    requires FmtBodyFits(f)
    ensures |s| == FmtBodySize
  {
    EncodeSigned(f.formatTag, 2) + EncodeSigned(f.numChannels, 2) +
    EncodeSigned(f.sampleRate, 4) + EncodeSigned(f.byteRate, 4) +
    EncodeSigned(f.frameSize, 2) + EncodeSigned(f.bitsPerSample, 2)
  }

  /** The arguments of the header callback. */
  function CallbackArgs(f: FmtBody): (r: Format)
    ensures r.numChannels == f.numChannels && r.sampleRate == f.sampleRate
    ensures r.frameSize == f.frameSize && r.bitsPerSample == f.bitsPerSample
  {
    Format(f.numChannels, f.sampleRate, f.frameSize, f.bitsPerSample)
  }

  /** The header callback's arguments are the signed fields at offsets 2, 4,
      12 and 14 of the 16-byte body. */
  lemma CallbackFields(s: seq<byte>)
    requires |s| == FmtBodySize
    ensures CallbackArgs(ParseFmtBody(s)) ==
      Format(Signed(s[2..4]), Signed(s[4..8]), Signed(s[12..14]), Signed(s[14..16]))
  {
  }

  /** The byte rate (offset 8) never reaches the header callback: two bodies
      that differ only there give it the same arguments. */
  lemma CallbackIgnoresByteRate(s: seq<byte>, t: seq<byte>)
    requires |s| == FmtBodySize && |t| == FmtBodySize
    requires s[..8] == t[..8] && s[12..] == t[12..]
    ensures CallbackArgs(ParseFmtBody(s)) == CallbackArgs(ParseFmtBody(t))
  {
    assert s[2..4] == s[..8][2..4] && t[2..4] == t[..8][2..4];
    assert s[4..8] == s[..8][4..8] && t[4..8] == t[..8][4..8];
    assert s[12..14] == s[12..][0..2] && t[12..14] == t[12..][0..2];
    assert s[14..16] == s[12..][2..4] && t[14..16] == t[12..][2..4];
  }

  lemma ParseEncodeRiffHeader(h: RiffHeader)
    requires RiffHeaderFits(h)
    ensures ParseRiffHeader(EncodeRiffHeader(h)) == h
  {
    var s := EncodeRiffHeader(h);
    assert s[0..4] == EncodeSigned(h.id, 4);
    assert s[4..8] == EncodeSigned(h.size, 4);
    assert s[8..12] == EncodeSigned(h.form, 4);
    SignedEncodeSigned(h.id, 4);
    SignedEncodeSigned(h.size, 4);
    SignedEncodeSigned(h.form, 4);
  }

  lemma EncodeParseRiffHeader(s: seq<byte>)
    requires |s| == RiffHeaderSize
    ensures EncodeRiffHeader(ParseRiffHeader(s)) == s
  {
    EncodeSignedSigned(s[0..4]);
    EncodeSignedSigned(s[4..8]);
    EncodeSignedSigned(s[8..12]);
    assert s == s[0..4] + s[4..8] + s[8..12];
  }

  lemma ParseEncodeChunkHeader(c: ChunkHeader)
    requires ChunkHeaderFits(c)
    ensures ParseChunkHeader(EncodeChunkHeader(c)) == c
  {
    var s := EncodeChunkHeader(c);
    assert s[0..4] == EncodeSigned(c.id, 4);
    assert s[4..8] == EncodeSigned(c.size, 4);
    SignedEncodeSigned(c.id, 4);
    SignedEncodeSigned(c.size, 4);
  }

  lemma EncodeParseChunkHeader(s: seq<byte>)
    requires |s| == ChunkHeaderSize
    ensures EncodeChunkHeader(ParseChunkHeader(s)) == s
  {
    EncodeSignedSigned(s[0..4]);
    EncodeSignedSigned(s[4..8]);
    assert s == s[0..4] + s[4..8];
  }

  lemma ParseEncodeFmtBody(f: FmtBody)
    requires FmtBodyFits(f)
    ensures ParseFmtBody(EncodeFmtBody(f)) == f
  {
    var s := EncodeFmtBody(f);
    assert s[0..2] == EncodeSigned(f.formatTag, 2);
    assert s[2..4] == EncodeSigned(f.numChannels, 2);
    assert s[4..8] == EncodeSigned(f.sampleRate, 4);
    assert s[8..12] == EncodeSigned(f.byteRate, 4);
    assert s[12..14] == EncodeSigned(f.frameSize, 2);
    assert s[14..16] == EncodeSigned(f.bitsPerSample, 2);
    SignedEncodeSigned(f.formatTag, 2);
    SignedEncodeSigned(f.numChannels, 2);
    SignedEncodeSigned(f.sampleRate, 4);
    SignedEncodeSigned(f.byteRate, 4);
    SignedEncodeSigned(f.frameSize, 2);
    SignedEncodeSigned(f.bitsPerSample, 2);
  }

  lemma EncodeParseFmtBody(s: seq<byte>)
    requires |s| == FmtBodySize
    ensures EncodeFmtBody(ParseFmtBody(s)) == s
  {
    EncodeSignedSigned(s[0..2]);
    EncodeSignedSigned(s[2..4]);
    EncodeSignedSigned(s[4..8]);
    EncodeSignedSigned(s[8..12]);
    EncodeSignedSigned(s[12..14]);
    EncodeSignedSigned(s[14..16]);
    assert s == s[0..2] + s[2..4] + s[4..8] + s[8..12] + s[12..14] + s[14..16];
  }
}
