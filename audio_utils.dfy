/**
  PCM helpers (src/audio_utils.cpp): averaging stereo into mono, the guard
  paths of the resampler, and the WAV header that `savePCMToWav` writes in
  front of the samples.

  Samples are little-endian 16-bit signed integers stored in a byte buffer.
*/
module AudioUtils {
  import opened Common

  /** The four-character tags of a RIFF/WAVE file, as bytes. */
  const RiffTag: seq<Byte> := [0x52, 0x49, 0x46, 0x46]   // "RIFF"
  const WaveTag: seq<Byte> := [0x57, 0x41, 0x56, 0x45]   // "WAVE"
  const FmtTag: seq<Byte> := [0x66, 0x6D, 0x74, 0x20]    // "fmt "
  const DataTag: seq<Byte> := [0x64, 0x61, 0x74, 0x61]   // "data"

  /** The clamp to the `int16_t` range (audio_utils.cpp:63-64). */
  function ClampInt16(v: int): (r: int)
    ensures IsInt16(r)
    ensures IsInt16(v) ==> r == v
  {
    if v > 32767 then 32767 else if v < -32768 then -32768 else v
  }

  /** Mono sample i as the loop computes it: the clamped average of left and right. */
  function MonoSample(stereo: seq<Byte>, i: nat): int
    requires 4 * i + 3 < |stereo|
  {
    ClampInt16(Half(SampleAt(stereo, 2 * i) + SampleAt(stereo, 2 * i + 1)))
  }

  /** The average of two 16-bit samples is itself a 16-bit value, so the clamp never fires. */
  lemma ClampNeverFires(stereo: seq<Byte>, i: nat)
    requires 4 * i + 3 < |stereo|
    ensures MonoSample(stereo, i) == Half(SampleAt(stereo, 2 * i) + SampleAt(stereo, 2 * i + 1))
    ensures IsInt16(MonoSample(stereo, i))
  {
    var sum := SampleAt(stereo, 2 * i) + SampleAt(stereo, 2 * i + 1);
    assert -0x1_0000 <= sum < 0x1_0000 - 1;
    assert IsInt16(Half(sum));
  }

  /**
    `stereoToMono` (audio_utils.cpp:39-75). An empty buffer or one that is not
    a whole number of 4-byte frames gives nothing; otherwise each frame
    becomes one sample, the average of its two channels, truncated toward zero.
  */
  method StereoToMono(stereo: seq<Byte>) returns (mono: seq<Byte>)
    ensures stereo == [] || |stereo| % 4 != 0 ==> mono == []
    ensures stereo != [] && |stereo| % 4 == 0 ==>
      && |mono| == |stereo| / 2
      && forall i :: 0 <= i < |stereo| / 4 ==>
           SampleAt(mono, i) == Half(SampleAt(stereo, 2 * i) + SampleAt(stereo, 2 * i + 1))
  {
    if stereo == [] || |stereo| % 4 != 0 {
      return [];
    }
    var frames := |stereo| / 4;
    var buffer := new Byte[frames * 2](_ => 0);
    for i := 0 to frames
      invariant forall j :: 0 <= j < i ==>
        buffer[2 * j] == EncodeSample(MonoSample(stereo, j))[0] && buffer[2 * j + 1] == EncodeSample(MonoSample(stereo, j))[1]
    {
      var left := SampleAt(stereo, 2 * i);
      var right := SampleAt(stereo, 2 * i + 1);
      var avg := Half(left + right);
      if avg > 32767 {
        avg := 32767;
      }
      if avg < -32768 {
        avg := -32768;
      }
      var bytes := EncodeSample(avg);
      buffer[2 * i] := bytes[0];
      buffer[2 * i + 1] := bytes[1];
    }
    mono := buffer[..];
    forall i | 0 <= i < frames
      ensures SampleAt(mono, i) == Half(SampleAt(stereo, 2 * i) + SampleAt(stereo, 2 * i + 1))
    {
      ClampNeverFires(stereo, i);
      SampleRoundTrip(MonoSample(stereo, i));
    }
  }

  /**
    The guard paths of `downsamplePCM` (audio_utils.cpp:77-87). `None` stands
    for the floating-point resampling path, which is not modelled.
  */
  function DownsamplePcm(input: seq<Byte>, inputRate: int, outputRate: int): (r: Option<seq<Byte>>)
    ensures input == [] || inputRate <= 0 || outputRate <= 0 ==> r == Some([])
    ensures input != [] && 0 < inputRate == outputRate ==> r == Some(input)
    ensures r.None? <==> input != [] && 0 < inputRate && 0 < outputRate && inputRate != outputRate
  {
    if input == [] || inputRate <= 0 || outputRate <= 0 then Some([])
    else if inputRate == outputRate then Some(input)
    else None
  }

  /** The 44-byte header of a PCM WAV file (the `WavHeader` struct, audio_utils.cpp:18-37). */
  datatype WavHeader = WavHeader(
    riffSize: Uint32,
    fmtSize: Uint32,
    audioFormat: Uint16,
    numChannels: Uint16,
    sampleRate: Uint32,
    byteRate: Uint32,
    blockAlign: Uint16,
    bitsPerSample: Uint16,
    dataSize: Uint32
  )

  /** The header as written to disk: the struct, which has no padding, little-endian. */
  function HeaderBytes(h: WavHeader): (b: seq<Byte>)
    ensures |b| == 44
  {
    RiffTag + Le32(h.riffSize) + FormatBytes(h) + Le32(h.dataSize)
  }

  /** The 32 bytes between the RIFF size and the data size: the "WAVE" tag, the format chunk and the "data" tag. */
  function FormatBytes(h: WavHeader): (b: seq<Byte>)
    ensures |b| == 32
  {
    WaveTag + FmtTag + Le32(h.fmtSize)
    + Le16(h.audioFormat) + Le16(h.numChannels) + Le32(h.sampleRate) + Le32(h.byteRate)
    + Le16(h.blockAlign) + Le16(h.bitsPerSample) + DataTag
  }

  /** Every field can be read back from its place in the header bytes. */
  lemma HeaderBytesDecode(h: WavHeader)
    ensures var b := HeaderBytes(h);
            && b[0..4] == RiffTag && b[8..12] == WaveTag && b[12..16] == FmtTag && b[36..40] == DataTag
            && DecodeLe32(b[4..8]) == h.riffSize
            && DecodeLe32(b[16..20]) == h.fmtSize
            && DecodeLe16(b[20], b[21]) == h.audioFormat
            && DecodeLe16(b[22], b[23]) == h.numChannels
            && DecodeLe32(b[24..28]) == h.sampleRate
            && DecodeLe32(b[28..32]) == h.byteRate
            && DecodeLe16(b[32], b[33]) == h.blockAlign
            && DecodeLe16(b[34], b[35]) == h.bitsPerSample
            && DecodeLe32(b[40..44]) == h.dataSize
  {
    var b := HeaderBytes(h);
    assert b[4..8] == Le32(h.riffSize);
    assert b[16..20] == Le32(h.fmtSize);
    assert b[24..28] == Le32(h.sampleRate);
    assert b[28..32] == Le32(h.byteRate);
    assert b[40..44] == Le32(h.dataSize);
    Le32RoundTrip(h.riffSize);
    Le32RoundTrip(h.fmtSize);
    Le32RoundTrip(h.sampleRate);
    Le32RoundTrip(h.byteRate);
    Le32RoundTrip(h.dataSize);
    Le16RoundTrip(h.audioFormat);
    Le16RoundTrip(h.numChannels);
    Le16RoundTrip(h.blockAlign);
    Le16RoundTrip(h.bitsPerSample);
  }

  /** Conversion of a C++ `int` or `size_t` to `uint32_t`: reduction modulo 2^32. */
  function ToUint32(v: int): (w: Uint32)
    ensures 0 <= v < 0x1_0000_0000 ==> w == v
    ensures (w - v) % 0x1_0000_0000 == 0
  {
    v % 0x1_0000_0000
  }

  /** Adding to a value already reduced modulo 2^32 wraps like adding to the value itself. */
  lemma WrapAdd(a: int, n: int)
    ensures ToUint32(a + ToUint32(n)) == ToUint32(a + n)
  {
    var q, r := n / 0x1_0000_0000, n % 0x1_0000_0000;
    var d, e := (a + r) / 0x1_0000_0000, (a + r) % 0x1_0000_0000;
    assert a + n == (d + q) * 0x1_0000_0000 + e;
  }

  /**
    What a reader of the written file finds: the header fields with the
    channel count, the wrapped sample rate, 16 bits per sample, a block of
    two bytes per channel, the byte rate, the data size and the RIFF size
    (all 32-bit fields reduced modulo 2^32), and then the samples themselves.
  */
  predicate IsPcmWavFile(written: seq<Byte>, pcm: seq<Byte>, sampleRate: int, channels: int) {
    && |written| == 44 + |pcm| && written[44..] == pcm
    && written[0..4] == RiffTag && written[8..12] == WaveTag && written[12..16] == FmtTag && written[36..40] == DataTag
    && DecodeLe32(written[16..20]) == 16
    && DecodeLe16(written[20], written[21]) == 1
    && DecodeLe16(written[22], written[23]) == channels
    && DecodeLe32(written[24..28]) == ToUint32(sampleRate)
    && DecodeLe16(written[32], written[33]) == 2 * channels
    && DecodeLe32(written[28..32]) == (ToUint32(sampleRate) * (2 * channels)) % 0x1_0000_0000
    && DecodeLe16(written[34], written[35]) == 16
    && DecodeLe32(written[40..44]) == ToUint32(|pcm|)
    && DecodeLe32(written[4..8]) == ToUint32(36 + |pcm|)
  }

  /** A header holding those field values, followed by the samples, is such a file. */
  lemma PcmWavFileOf(h: WavHeader, pcm: seq<Byte>, sampleRate: int, channels: int)
    requires h.fmtSize == 16 && h.audioFormat == 1 && h.bitsPerSample == 16
    requires h.numChannels == channels && h.blockAlign == 2 * channels
    requires h.sampleRate == ToUint32(sampleRate)
    requires h.byteRate == (ToUint32(sampleRate) * (2 * channels)) % 0x1_0000_0000
    requires h.dataSize == ToUint32(|pcm|) && h.riffSize == ToUint32(36 + |pcm|)
    ensures IsPcmWavFile(HeaderBytes(h) + pcm, pcm, sampleRate, channels)
  {
    HeaderBytesDecode(h);
    var written := HeaderBytes(h) + pcm;
    assert written[..44] == HeaderBytes(h);
    assert written[44..] == pcm;
  }

  /**
    `savePCMToWav` (audio_utils.cpp:128-166), with the file reduced to the
    bytes written into it. It fails when the file cannot be opened or the
    channel count is neither 1 nor 2; otherwise the file holds the header
    and then the samples.
  */
  method SavePcmToWav(pcm: seq<Byte>, sampleRate: int, channels: int, fileOpens: bool)
    returns (ok: bool, written: seq<Byte>)
    ensures ok <==> fileOpens && (channels == 1 || channels == 2)
    ensures !ok ==> written == []
    ensures ok ==> IsPcmWavFile(written, pcm, sampleRate, channels)
  {
    if !fileOpens {
      return false, [];
    }
    if channels != 1 && channels != 2 {
      return false, [];
    }
    // The struct's default member initialisers; the other fields are set below.
    var header := WavHeader(0, 16, 1, 0, 0, 0, 0, 0, 0);
    header := header.(numChannels := channels);
    header := header.(sampleRate := ToUint32(sampleRate));
    header := header.(bitsPerSample := 16);
    header := header.(blockAlign := header.numChannels * header.bitsPerSample / 8);
    header := header.(byteRate := (header.sampleRate * header.blockAlign) % 0x1_0000_0000);
    header := header.(dataSize := ToUint32(|pcm|));
    header := header.(riffSize := (36 + header.dataSize) % 0x1_0000_0000);
    written := HeaderBytes(header) + pcm;
    ok := true;
    assert header.blockAlign == 2 * channels;
    WrapAdd(36, |pcm|);
    PcmWavFileOf(header, pcm, sampleRate, channels);
  }
}
