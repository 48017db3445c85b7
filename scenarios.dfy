/**
  Concrete runs of the queue: a header with one video and one audio stream,
  a few packets, and what cursors read afterwards.
*/
module Scenarios {
  import opened Wrappers
  import opened Av
  import opened PktQue
  import opened QueueSpec
  import opened CursorSpec

  const VideoStream := CodecData(VideoCodec, [])
  const AudioStream := CodecData(AudioCodec, [])

  /** A media packet (not a sequence header) of stream 0 (video) or 1 (audio). */
  function Media(key: bool, video: bool, time: int64): Packet
  {
    Packet(key, video, !video, false, false, if video then 0 else 1, time, [])
  }

  const V0 := Media(true, true, 0)
  const A0 := Media(false, false, 5)
  const V1 := Media(false, true, 10)
  const V2 := Media(true, true, 20)

  /** The queue after WriteHeader([video, audio]) and the packets V0, A0, V1. */
  function ThreePackets(dec: Decoders): QueueState
  {
    var s0 := WriteHeader(Initial, List([VideoStream, AudioStream]));
    var s1 := WritePacket(s0, V0, dec).0;
    var s2 := WritePacket(s1, A0, dec).0;
    WritePacket(s2, V1, dec).0
  }

  lemma ThreePacketsBuffered(dec: Decoders)
    ensures var s := ThreePackets(dec);
      && s.buf == BufState(0, [V0, A0, V1])
      && s.videoidx == 0 && s.audioidx == 1
      && !s.jumped && !s.closed
  {
    var s0 := WriteHeader(Initial, List([VideoStream, AudioStream]));
    var cs := [VideoStream, AudioStream];
    assert cs[..|cs| - 1] == [VideoStream];
    assert LastOfKind([VideoStream], VideoCodec, -1) == 0;
    assert LastOfKind(cs, VideoCodec, -1) == 0;
    assert s0.videoidx == 0 && s0.audioidx == 1;
  }

  /** A new Oldest cursor reads V0, A0, V1 in that order and then waits. */
  lemma OldestReadsThreePackets(dec: Decoders)
    ensures Reads(CursorState(0, false, Oldest), ThreePackets(dec), false, 4)
            == [Got(V0), Got(A0), Got(V1), WouldBlock]
  {
    var s := ThreePackets(dec);
    ThreePacketsBuffered(dec);
    OldestDeliversBacklogInOrder(0, s);
  }

  /**
    Writing the key frame V2 leaves exactly [V2]; a cursor still holding V0's
    position is snapped forward to V2. No sequence header was dropped, so the
    queue has no discontinuity pending and V2 arrives unmarked.
  */
  lemma KeyFrameSnapsStaleCursor(dec: Decoders)
    ensures var s := WritePacket(ThreePackets(dec), V2, dec).0;
      var o := ReadStep(CursorState(0, true, Oldest), s, false);
      && s.buf == BufState(3, [V2])
      && o.result == Got(V2)
      && o.jumped
      && o.cursor.pos == 4
  {
    ThreePacketsBuffered(dec);
  }

  /**
    With a single buffered GOP led by V0, DelayedGopCount(1) starts one below
    V0, so its first read is clamped to the head: it delivers V0 and counts as
    crossing a gap.
  */
  lemma GopCursorStartsAtHeadKeyFrame(dec: Decoders)
    ensures var o := ReadStep(CursorState(0, false, DelayedGopCount(1)), ThreePackets(dec), false);
      o.result == Got(V0) && o.jumped && o.cursor.pos == 1
  {
    var s := ThreePackets(dec);
    ThreePacketsBuffered(dec);
    assert KeyFramesFrom(s.buf, ToInt8(0), 0) >= 1 by {
      assert IsGopStart(s.buf.Get(0), ToInt8(0));
    }
    DelayedGopCountFirstRead(0, s, 1, false);
  }

  /**
    A video sequence header the parser rejects fails the write and leaves the
    buffer and the stream list [video, audio] as they were.
  */
  lemma MalformedSeqHdrKeepsStreams(dec: Decoders, data: seq<byte>)
    requires dec.avc(data).None?
    ensures var hdr := Packet(false, true, false, true, false, 0, 30, data);
      var (s, err) := WritePacket(ThreePackets(dec), hdr, dec);
      && err == Some(H264SeqHdrInvalid)
      && StreamsStep(s) == GotStreams([VideoStream, AudioStream])
      && s.buf == ThreePackets(dec).buf
  {
    ThreePacketsBuffered(dec);
  }
}
