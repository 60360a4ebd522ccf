/**
  The two audio converters of the voice module (src/discord_bot/voice.cpp):
  wrapping received 48 kHz stereo PCM in a WAV file, and turning the speech
  synthesiser's 24 kHz mono samples into the 48 kHz stereo stream Discord
  plays.
*/
module VoiceAudio {
  import opened Common
  import opened AudioUtils

  /** The part of the `convertToWav` header constant between its two size fields (voice.cpp:361-372). */
  const StereoFormat: seq<Byte> :=
    WaveTag + FmtTag
    + [16, 0, 0, 0]          // fmt chunk size
    + [1, 0]                 // PCM
    + [2, 0]                 // two channels
    + [0x80, 0xBB, 0, 0]     // 48000 Hz
    + [0x00, 0xEE, 0x02, 0]  // 192000 bytes per second
    + [4, 0]                 // block align
    + [16, 0]                // bits per sample
    + DataTag

  /** The header constant of `convertToWav` with both size fields still zero (voice.cpp:359-373). */
  const WavTemplate: seq<Byte> := RiffTag + [0, 0, 0, 0] + StereoFormat + [0, 0, 0, 0]

  /**
    The header `convertToWav` (voice.cpp:357-401) produces for n bytes of
    audio: 48 kHz, two channels, 16 bits, and both size fields reduced
    modulo 2^32.
  */
  function ConvertHeader(n: int): WavHeader {
    WavHeader(ToUint32(36 + n), 16, 1, 2, 48000, 192000, 4, 16, ToUint32(n))
  }

  /**
    `convertToWav` (voice.cpp:357-401): the template, then the samples, then
    the two size fields written byte by byte. The result is exactly the file
    `savePCMToWav` writes for 48 kHz stereo.
  */
  method ConvertToWav(raw: seq<Byte>) returns (wavData: seq<Byte>)
    ensures wavData == HeaderBytes(ConvertHeader(|raw|)) + raw
  {
    var wav := new Byte[44 + |raw|](_ => 0);
    // Copy the header, then the audio.
    CopyInto(wav, 0, WavTemplate);
    CopyInto(wav, 44, raw);
    ghost var copied := wav[..];
    // Fill in the sizes.
    var dataSize := ToUint32(|raw|);
    var chunkSize := ToUint32(dataSize as int + 36);
    WriteLe32(wav, 4, chunkSize);
    ghost var chunkWritten := wav[..];
    WriteLe32(wav, 40, dataSize);
    wavData := wav[..];
    WrapAdd(36, |raw|);
    TemplateWithSizes(copied, chunkWritten, wavData, raw);
  }

  /** What `convertToWav` returns is a 48 kHz stereo PCM WAV file holding the audio, the same file `savePCMToWav` writes. */
  lemma ConvertedIsPcmWavFile(raw: seq<Byte>)
    ensures IsPcmWavFile(HeaderBytes(ConvertHeader(|raw|)) + raw, raw, 48000, 2)
  {
    WrapAdd(36, |raw|);
    PcmWavFileOf(ConvertHeader(|raw|), raw, 48000, 2);
  }

  /** `vector::insert` at a position already allocated: src lands at `at`, nothing else changes. */
  method CopyInto(dst: array<Byte>, at: nat, src: seq<Byte>)
    requires at + |src| <= dst.Length
    modifies dst
    ensures dst[..] == old(dst[..at]) + src + old(dst[at + |src|..])
  {
    for k := 0 to |src|
      invariant dst[..at] == old(dst[..at]) && dst[at + |src|..] == old(dst[at + |src|..])
      invariant dst[at..at + k] == src[..k]
    {
      dst[at + k] := src[k];
    }
  }

  /** The four byte writes of one size field: its little-endian bytes at `at`, nothing else changes. */
  method WriteLe32(dst: array<Byte>, at: nat, w: Uint32)
    requires at + 4 <= dst.Length
    modifies dst
    ensures dst[..] == old(dst[..at]) + Le32(w) + old(dst[at + 4..])
  {
    dst[at] := w % 0x100;
    dst[at + 1] := (w / 0x100) % 0x100;
    dst[at + 2] := (w / 0x1_0000) % 0x100;
    dst[at + 3] := (w / 0x100_0000) % 0x100;
  }

  /** The template with both size fields filled in, followed by the audio, is the header for that audio and the audio. */
  lemma TemplateWithSizes(copied: seq<Byte>, chunkWritten: seq<Byte>, wav: seq<Byte>, raw: seq<Byte>)
    requires |copied| == 44 + |raw| && copied == WavTemplate + raw
    requires chunkWritten == copied[..4] + Le32(ToUint32(36 + |raw|)) + copied[8..]
    requires wav == chunkWritten[..40] + Le32(ToUint32(|raw|)) + chunkWritten[44..]
    ensures wav == HeaderBytes(ConvertHeader(|raw|)) + raw
  {
    var c, d := Le32(ToUint32(36 + |raw|)), Le32(ToUint32(|raw|));
    Parts(RiffTag, [0, 0, 0, 0], StereoFormat, [0, 0, 0, 0] + raw);
    assert copied == RiffTag + [0, 0, 0, 0] + StereoFormat + ([0, 0, 0, 0] + raw);
    assert chunkWritten == RiffTag + c + StereoFormat + ([0, 0, 0, 0] + raw);
    Parts(RiffTag, c, StereoFormat, [0, 0, 0, 0] + raw);
    assert chunkWritten[..40] == RiffTag + c + StereoFormat;
    assert chunkWritten[44..] == raw;
    StereoFormatFields();
  }

  /** The fixed middle of the template holds the format of 48 kHz stereo 16-bit PCM. */
  lemma StereoFormatFields()
    ensures StereoFormat == FormatBytes(ConvertHeader(0))
  {
    assert Le32(16) == [16, 0, 0, 0] && Le16(1) == [1, 0] && Le16(2) == [2, 0];
    assert Le32(48000) == [0x80, 0xBB, 0, 0] && Le32(192000) == [0x00, 0xEE, 0x02, 0];
    assert Le16(4) == [4, 0] && Le16(16) == [16, 0];
  }

  /** Each of four concatenated pieces is found again at its offset. */
  lemma Parts(a: seq<Byte>, b: seq<Byte>, c: seq<Byte>, d: seq<Byte>)
    ensures var s := a + b + c + d;
            && s[..|a|] == a && s[|a|..|a| + |b|] == b
            && s[|a| + |b|..|a| + |b| + |c|] == c && s[|a| + |b| + |c|..] == d
  {
  }

  /** The midpoint of two samples, truncated toward zero as `(current + next) / 2` does. */
  function Midpoint(a: int, b: int): (m: int)
    requires IsInt16(a) && IsInt16(b)
    ensures IsInt16(m)
    ensures (a <= m <= b) || (b <= m <= a)
  {
    Half(a + b)
  }

  /** The four values frame i contributes: the sample twice, then its midpoint with the next one twice. */
  predicate FrameAt(stereo: seq<Uint16>, mono: seq<Byte>, i: nat)
    requires 2 * i + 3 < |mono| && 4 * i + 3 < |stereo|
  {
    var m := Midpoint(SampleAt(mono, i), SampleAt(mono, i + 1));
    stereo[4 * i..4 * i + 4] == [ToUint16(SampleAt(mono, i)), ToUint16(SampleAt(mono, i)), ToUint16(m), ToUint16(m)]
  }

  /**
    `convertTTSAudioFormat` (voice.cpp:403-428) for n >= 1 mono samples:
    every sample but the last is sent twice (left and right) followed twice
    by its midpoint with the next one; the last sample is sent twice.
    With n = 0 the source's loop bound `num_samples - 1` wraps around, so at
    least one sample is required.
  */
  method ConvertTtsAudioFormat(mono: seq<Byte>) returns (stereo: seq<Uint16>)
    requires |mono| >= 2
    ensures var n := |mono| / 2;
            && |stereo| == 4 * n - 2
            && (forall i :: 0 <= i < n - 1 ==> FrameAt(stereo, mono, i))
            && stereo[4 * n - 4..] == [ToUint16(SampleAt(mono, n - 1)), ToUint16(SampleAt(mono, n - 1))]
  {
    var numSamples := |mono| / 2;
    stereo := [];
    var i := 0;
    while i < numSamples - 1
      invariant 0 <= i <= numSamples - 1
      invariant |stereo| == 4 * i
      invariant forall j :: 0 <= j < i ==> FrameAt(stereo, mono, j)
    {
      var current := SampleAt(mono, i);
      var next := SampleAt(mono, i + 1);
      ghost var before := stereo;
      stereo := stereo + [ToUint16(current)];
      stereo := stereo + [ToUint16(current)];
      var interpolated := Midpoint(current, next);
      stereo := stereo + [ToUint16(interpolated)];
      stereo := stereo + [ToUint16(interpolated)];
      FramesKept(before, stereo[4 * i..], mono, i);
      assert before + stereo[4 * i..] == stereo;
      assert FrameAt(stereo, mono, i);
      i := i + 1;
    }
    ghost var before := stereo;
    stereo := stereo + [ToUint16(SampleAt(mono, numSamples - 1))];
    stereo := stereo + [ToUint16(SampleAt(mono, numSamples - 1))];
    FramesKept(before, stereo[4 * i..], mono, i);
    assert before + stereo[4 * i..] == stereo;
  }

  /** Appending to the output keeps the frames already written. */
  lemma FramesKept(before: seq<Uint16>, more: seq<Uint16>, mono: seq<Byte>, i: nat)
    requires |before| == 4 * i && 2 * i + 1 < |mono|
    requires forall j :: 0 <= j < i ==> FrameAt(before, mono, j)
    ensures forall j :: 0 <= j < i ==> FrameAt(before + more, mono, j)
  {
    forall j | 0 <= j < i
      ensures FrameAt(before + more, mono, j)
    {
      assert FrameAt(before, mono, j);
      assert (before + more)[4 * j..4 * j + 4] == before[4 * j..4 * j + 4];
    }
  }
}
