/**
  The values of the av package that the packet queue stores and inspects:
  packets, codec descriptors and the fixed-width integers Go gives them.
  The av package itself (av.go) is not part of this model; only the fields
  and methods the queue touches are represented.
*/
module Av {
  import opened Wrappers

  newtype byte = x: int | 0 <= x < 0x100

  /** Go's int8, the type of a packet's stream index. */
  newtype int8 = x: int | -0x80 <= x < 0x80

  /** Go's int64, the representation of time.Duration in nanoseconds. */
  newtype int64 = x: int | -0x8000_0000_0000_0000 <= x < 0x8000_0000_0000_0000

  /** Go's conversion int8(x): keeps the low eight bits, read as two's complement. */
  function ToInt8(x: int): (r: int8)
    ensures (r as int - x) % 0x100 == 0
    ensures -0x80 <= x < 0x80 ==> r as int == x
  {
    ((x + 0x80) % 0x100 - 0x80) as int8
  }

  /** Go's int64 subtraction a - b, which wraps around on overflow. */
  function Sub64(a: int64, b: int64): (r: int64)
    ensures (r as int - (a as int - b as int)) % 0x1_0000_0000_0000_0000 == 0
    ensures -0x8000_0000_0000_0000 <= a as int - b as int < 0x8000_0000_0000_0000 ==>
              r as int == a as int - b as int
  {
    ((a as int - b as int + 0x8000_0000_0000_0000) % 0x1_0000_0000_0000_0000
      - 0x8000_0000_0000_0000) as int64
  }

  /**
    One encoded access unit (av.Packet). `jumped` is the discontinuity marker a
    reader may find stamped on the copy it receives.
  */
  datatype Packet = Packet(
    isKeyFrame: bool,
    isVideo: bool,
    isAudio: bool,
    isSeqHdr: bool,
    jumped: bool,
    idx: int8,
    time: int64,
    data: seq<byte>)

  /** The media type a codec descriptor reports through Type(). */
  datatype CodecKind = VideoCodec | AudioCodec | OtherCodec

  /** A per-stream codec descriptor (av.CodecData). */
  datatype CodecData = CodecData(kind: CodecKind, record: seq<byte>) {
    predicate IsVideo() { kind == VideoCodec }
    predicate IsAudio() { kind == AudioCodec }
  }

  /**
    The two configuration-record parsers the queue calls on sequence headers:
    `avc` for H.264 decoder configuration records and `aac` for MPEG-4 audio
    specific configs. Their internals are outside the model; None is a decode error.
  */
  datatype Decoders = Decoders(
    avc: seq<byte> -> Option<CodecData>,
    aac: seq<byte> -> Option<CodecData>)
}
