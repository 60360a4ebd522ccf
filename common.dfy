/**
  Value types shared by the audio, voice and message modules: bytes, 16-bit
  words, an Option type, little-endian encodings and C++ integer division.
  The host is fixed little-endian, as the `reinterpret_cast` reads of the
  PCM buffers assume.
*/
module Common {

  type Byte = b: int | 0 <= b < 0x100
  type Uint16 = w: int | 0 <= w < 0x1_0000
  type Uint32 = w: int | 0 <= w < 0x1_0000_0000

  datatype Option<T> = None | Some(value: T)

  /** The range of a C++ `int16_t`. */
  predicate IsInt16(v: int) {
    -0x8000 <= v < 0x8000
  }

  /** C++ integer division by 2: truncates toward zero (Dafny's `/` is Euclidean). */
  function Half(v: int): (r: int)
    ensures 2 * r == v || 2 * r == v - 1 || 2 * r == v + 1
    ensures v >= 0 ==> 0 <= r <= v
    ensures v < 0 ==> v <= r <= 0
    ensures v >= 0 ==> 2 * r <= v && v - 2 * r < 2
    ensures v < 0 ==> 2 * r >= v && 2 * r - v < 2
  {
    if v >= 0 then v / 2 else -((-v) / 2)
  }

  /** `static_cast<uint16_t>` of an `int16_t`: two's complement. */
  function ToUint16(v: int): (w: Uint16)
    requires IsInt16(v)
    ensures FromUint16(w) == v
  {
    if v < 0 then v + 0x1_0000 else v
  }

  /** `static_cast<int16_t>` of a `uint16_t`. */
  function FromUint16(w: Uint16): (v: int)
    ensures IsInt16(v)
  {
    if w < 0x8000 then w else w - 0x1_0000
  }

  /** The two little-endian bytes of a 16-bit word. */
  function Le16(w: Uint16): (b: seq<Byte>)
    ensures |b| == 2
  {
    [w % 0x100, w / 0x100]
  }

  /** The four little-endian bytes of a 32-bit word. */
  function Le32(w: Uint32): (b: seq<Byte>)
    ensures |b| == 4
  {
    [w % 0x100, (w / 0x100) % 0x100, (w / 0x1_0000) % 0x100, w / 0x100_0000]
  }

  function DecodeLe16(b0: Byte, b1: Byte): Uint16 {
    (b0 as int) + 0x100 * (b1 as int)
  }

  function DecodeLe32(b: seq<Byte>): Uint32
    requires |b| == 4
  {
    (b[0] as int) + 0x100 * (b[1] as int) + 0x1_0000 * (b[2] as int) + 0x100_0000 * (b[3] as int)
  }

  lemma Le16RoundTrip(w: Uint16)
    ensures DecodeLe16(Le16(w)[0], Le16(w)[1]) == w
  {
  }

  lemma Le32RoundTrip(w: Uint32)
    ensures DecodeLe32(Le32(w)) == w
  {
    var b0, q0 := w % 0x100, w / 0x100;
    var b1, q1 := q0 % 0x100, q0 / 0x100;
    var b2, b3 := q1 % 0x100, q1 / 0x100;
    assert w == b0 + 0x100 * q0;
    assert q0 == b1 + 0x100 * q1;
    assert q1 == b2 + 0x100 * b3;
    assert w / 0x1_0000 == q1;
    assert w / 0x100_0000 == b3;
  }

  /** Little-endian `int16_t` sample number i of a byte buffer. */
  function SampleAt(s: seq<Byte>, i: nat): (v: int)
    requires 2 * i + 1 < |s|
    ensures IsInt16(v)
  {
    FromUint16(DecodeLe16(s[2 * i], s[2 * i + 1]))
  }

  /** The two bytes that store an `int16_t` sample, little-endian. */
  function EncodeSample(v: int): (b: seq<Byte>)
    requires IsInt16(v)
    ensures |b| == 2
  {
    Le16(ToUint16(v))
  }

  lemma SampleRoundTrip(v: int)
    requires IsInt16(v)
    ensures FromUint16(DecodeLe16(EncodeSample(v)[0], EncodeSample(v)[1])) == v
  {
    Le16RoundTrip(ToUint16(v));
  }
}
