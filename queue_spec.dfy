/**
  The write path of the publisher/subscriber packet queue as functions on the
  queue's value: what WriteHeader, WritePacket and Close leave behind. The
  Queue class in module PubSub is proved to follow these functions; the lemmas
  here state what they mean.
*/
module QueueSpec {
  import opened Wrappers
  import opened Av
  import opened PktQue

  /** Go's []av.CodecData: nil, or a (possibly empty) list. */
  datatype StreamList = Nil | List(items: seq<CodecData>) {
    function Len(): nat { if Nil? then 0 else |items| }

    function Items(): seq<CodecData> { if Nil? then [] else items }
  }

  /**
    Why a write fails: a sequence header the H.264 or AAC parser rejects, or
    a descriptor index left pointing past the end of the stream list (a Go
    runtime panic, not a returned error).
  */
  datatype WriteError = H264SeqHdrInvalid | AacSeqHdrInvalid | IndexOutOfRange

  /** Everything a Queue holds apart from its lock. */
  datatype QueueState = QueueState(
    buf: BufState,
    streams: StreamList,
    videoidx: int,
    audioidx: int,
    closed: bool,
    jumped: bool,
    maxgopcount: int)

  /** The queue NewQueue returns. */
  const Initial := QueueState(BufState(0, []), Nil, -1, -1, false, false, 2)

  predicate HasSeqHdr(ps: seq<Packet>) {
    exists k :: 0 <= k < |ps| && ps[k].isSeqHdr
  }

  /** Position of the last descriptor of the given kind, or `dflt` when there is none. */
  function LastOfKind(cs: seq<CodecData>, kind: CodecKind, dflt: int): int
  {
    if cs == [] then dflt
    else if cs[|cs| - 1].kind == kind then |cs| - 1
    else LastOfKind(cs[..|cs| - 1], kind, dflt)
  }

  lemma {:induction false} LastOfKindIsLast(cs: seq<CodecData>, kind: CodecKind, dflt: int)
    ensures var r := LastOfKind(cs, kind, dflt);
      && ((forall j :: 0 <= j < |cs| ==> cs[j].kind != kind) ==> r == dflt)
      && ((exists j :: 0 <= j < |cs| && cs[j].kind == kind) ==>
            0 <= r < |cs| && cs[r].kind == kind &&
            forall j :: r < j < |cs| ==> cs[j].kind != kind)
  {
    if cs != [] && cs[|cs| - 1].kind != kind {
      var init := cs[..|cs| - 1];
      LastOfKindIsLast(init, kind, dflt);
      assert forall j :: 0 <= j < |init| ==> init[j] == cs[j];
    }
  }

  /** The queue after WriteHeader(streams): the list is recorded and each index moves to the last stream of its type. */
  function WriteHeader(s: QueueState, streams: StreamList): QueueState
  {
    s.(streams := streams,
       videoidx := LastOfKind(streams.Items(), VideoCodec, s.videoidx),
       audioidx := LastOfKind(streams.Items(), AudioCodec, s.audioidx))
  }

  lemma WriteHeaderPicksLastStreams(s: QueueState, streams: StreamList)
    ensures var s' := WriteHeader(s, streams);
      var cs := streams.Items();
      && s'.streams == streams
      && s'.buf == s.buf && s'.closed == s.closed && s'.jumped == s.jumped
      && ((exists j :: 0 <= j < |cs| && cs[j].IsVideo()) ==>
            0 <= s'.videoidx < |cs| && cs[s'.videoidx].IsVideo() &&
            forall j :: s'.videoidx < j < |cs| ==> !cs[j].IsVideo())
      && ((forall j :: 0 <= j < |cs| ==> !cs[j].IsVideo()) ==> s'.videoidx == s.videoidx)
      && ((exists j :: 0 <= j < |cs| && cs[j].IsAudio()) ==>
            0 <= s'.audioidx < |cs| && cs[s'.audioidx].IsAudio() &&
            forall j :: s'.audioidx < j < |cs| ==> !cs[j].IsAudio())
      && ((forall j :: 0 <= j < |cs| ==> !cs[j].IsAudio()) ==> s'.audioidx == s.audioidx)
  {
    LastOfKindIsLast(streams.Items(), VideoCodec, s.videoidx);
    LastOfKindIsLast(streams.Items(), AudioCodec, s.audioidx);
  }

  /** Empties the buffer, remembering a discontinuity if a sequence header was dropped. */
  function Drain(s: QueueState): QueueState
  {
    s.(buf := BufState(s.buf.Tail(), []), jumped := s.jumped || HasSeqHdr(s.buf.items))
  }

  function Push(s: QueueState, pkt: Packet): QueueState
  {
    s.(buf := BufState(s.buf.head, s.buf.items + [pkt]))
  }

  function StreamIndex(s: QueueState, video: bool): int
  {
    if video then s.videoidx else s.audioidx
  }

  /**
    Records a decoded descriptor for the video (or audio) stream: in place
    when the stream already has an index, appended otherwise. None when the
    index lies past the end of the list.
  */
  function UpdateDescriptor(s: QueueState, video: bool, cd: CodecData): Option<QueueState>
  {
    var i := StreamIndex(s, video);
    if i >= 0 then
      if i < s.streams.Len() then Some(s.(streams := List(s.streams.Items()[i := cd])))
      else None
    else
      var s1 := s.(streams := List(s.streams.Items() + [cd]));
      Some(if video then s1.(videoidx := s.streams.Len()) else s1.(audioidx := s.streams.Len()))
  }

  lemma UpdateDescriptorInPlaceOrAppend(s: QueueState, video: bool, cd: CodecData)
    requires UpdateDescriptor(s, video, cd).Some?
    ensures var s' := UpdateDescriptor(s, video, cd).value;
      var i := StreamIndex(s, video);
      && s'.streams.List?
      && s'.streams.Len() >= s.streams.Len()
      && 0 <= StreamIndex(s', video) < s'.streams.Len()
      && s'.streams.Items()[StreamIndex(s', video)] == cd
      && (i >= 0 ==> StreamIndex(s', video) == i && s'.streams.Len() == s.streams.Len())
      && (i < 0 ==> StreamIndex(s', video) == s.streams.Len() && s'.streams.Len() == s.streams.Len() + 1)
      && (forall j :: 0 <= j < s.streams.Len() && j != StreamIndex(s', video) ==>
            s'.streams.Items()[j] == s.streams.Items()[j])
      && StreamIndex(s', !video) == StreamIndex(s, !video)
      && s'.buf == s.buf && s'.closed == s.closed && s'.jumped == s.jumped
  {
  }

  lemma UpdateDescriptorFailsOnStaleIndex(s: QueueState, video: bool, cd: CodecData)
    ensures UpdateDescriptor(s, video, cd).None? <==> StreamIndex(s, video) >= s.streams.Len() && StreamIndex(s, video) >= 0
  {
  }

  /**
    The queue and the error after WritePacket(pkt): a video key frame first
    drains the buffer; a sequence header must decode, and then updates the
    descriptor of its stream; on success the packet is appended.
  */
  function WritePacket(s: QueueState, pkt: Packet, dec: Decoders): (QueueState, Option<WriteError>)
  {
    var d := if pkt.isKeyFrame && pkt.isVideo then Drain(s) else s;
    if pkt.isSeqHdr && (pkt.isVideo || pkt.isAudio) then
      var parsed := if pkt.isVideo then dec.avc(pkt.data) else dec.aac(pkt.data);
      match parsed
      case None => (d, Some(if pkt.isVideo then H264SeqHdrInvalid else AacSeqHdrInvalid))
      case Some(cd) =>
        match UpdateDescriptor(d, pkt.isVideo, cd)
        case None => (d, Some(IndexOutOfRange))
        case Some(u) => (Push(u, pkt), None)
    else
      (Push(d, pkt), None)
  }

  /** A successful video key frame leaves exactly itself in the buffer. */
  lemma KeyFrameLeavesOnlyItself(s: QueueState, pkt: Packet, dec: Decoders)
    requires pkt.isKeyFrame && pkt.isVideo
    requires WritePacket(s, pkt, dec).1 == None
    ensures var s' := WritePacket(s, pkt, dec).0;
      && s'.buf.items == [pkt]
      && s'.buf.head == s.buf.Tail()
      && (s'.jumped <==> s.jumped || HasSeqHdr(s.buf.items))
      && s'.closed == s.closed
      && (!pkt.isSeqHdr ==> s'.streams == s.streams && s'.videoidx == s.videoidx && s'.audioidx == s.audioidx)
  {
  }

  /** Any other packet is at most appended: nothing buffered is dropped or changed. */
  lemma OtherPacketOnlyAppends(s: QueueState, pkt: Packet, dec: Decoders)
    requires !(pkt.isKeyFrame && pkt.isVideo)
    ensures var (s', err) := WritePacket(s, pkt, dec);
      && s'.buf.head == s.buf.head
      && s'.buf.items == (if err == None then s.buf.items + [pkt] else s.buf.items)
      && s'.jumped == s.jumped
      && (!pkt.isSeqHdr ==> s'.streams == s.streams && s'.videoidx == s.videoidx && s'.audioidx == s.audioidx)
  {
  }

  /**
    A failed write does not append and leaves the descriptors alone; a drain
    already done for a key frame stays done, together with the discontinuity
    flag it may have set.
  */
  lemma FailedWriteKeepsDescriptors(s: QueueState, pkt: Packet, dec: Decoders)
    requires WritePacket(s, pkt, dec).1.Some?
    ensures var (s', err) := WritePacket(s, pkt, dec);
      && pkt.isSeqHdr && (pkt.isVideo || pkt.isAudio)
      && s' == (if pkt.isKeyFrame && pkt.isVideo then Drain(s) else s)
      && s'.streams == s.streams && s'.videoidx == s.videoidx && s'.audioidx == s.audioidx
      && (err == Some(H264SeqHdrInvalid) <==> pkt.isVideo && dec.avc(pkt.data).None?)
      && (err == Some(AacSeqHdrInvalid) <==> !pkt.isVideo && dec.aac(pkt.data).None?)
      && (err == Some(IndexOutOfRange) <==>
            var parsed := if pkt.isVideo then dec.avc(pkt.data) else dec.aac(pkt.data);
            parsed.Some? && UpdateDescriptor(s', pkt.isVideo, parsed.value).None?)
  {
  }

  /** A decoded sequence header updates its stream's descriptor and is then appended. */
  lemma SeqHdrUpdatesDescriptor(s: QueueState, pkt: Packet, dec: Decoders)
    requires pkt.isSeqHdr && (pkt.isVideo || pkt.isAudio)
    requires WritePacket(s, pkt, dec).1 == None
    ensures var s' := WritePacket(s, pkt, dec).0;
      var d := if pkt.isKeyFrame && pkt.isVideo then Drain(s) else s;
      var cd := (if pkt.isVideo then dec.avc(pkt.data) else dec.aac(pkt.data)).value;
      && UpdateDescriptor(d, pkt.isVideo, cd) == Some(s'.(buf := d.buf))
      && s'.buf.items == d.buf.items + [pkt]
      && s'.streams.Len() >= s.streams.Len()
      && s'.streams.Items()[StreamIndex(s', pkt.isVideo)] == cd
  {
    var d := if pkt.isKeyFrame && pkt.isVideo then Drain(s) else s;
    var cd := (if pkt.isVideo then dec.avc(pkt.data) else dec.aac(pkt.data)).value;
    UpdateDescriptorInPlaceOrAppend(d, pkt.isVideo, cd);
  }

  /** Writes never move the tail back, and move it forward by at most one. */
  lemma WritePacketAdvancesTail(s: QueueState, pkt: Packet, dec: Decoders)
    ensures var (s', err) := WritePacket(s, pkt, dec);
      && s'.buf.head >= s.buf.head
      && s'.buf.Tail() == s.buf.Tail() + (if err == None then 1 else 0)
      && s'.closed == s.closed
  {
  }

  /** The queue after Close. */
  function Close(s: QueueState): QueueState
  {
    s.(closed := true)
  }

  /** The queue after a run of writes, whatever each returns. */
  function WriteAll(s: QueueState, pkts: seq<Packet>, dec: Decoders): QueueState
    decreases |pkts|
  {
    if pkts == [] then s else WriteAll(WritePacket(s, pkts[0], dec).0, pkts[1..], dec)
  }

  /** Without video key frames nothing is ever dropped: the buffer only grows at its tail. */
  lemma {:induction false} WithoutKeyFramesNothingIsDropped(s: QueueState, pkts: seq<Packet>, dec: Decoders)
    requires forall k :: 0 <= k < |pkts| ==> !(pkts[k].isKeyFrame && pkts[k].isVideo)
    ensures var s' := WriteAll(s, pkts, dec);
      && s'.buf.head == s.buf.head
      && s.buf.items <= s'.buf.items
      && s'.buf.Count() >= s.buf.Count()
      && s'.jumped == s.jumped
      && s'.closed == s.closed
    decreases |pkts|
  {
    if pkts != [] {
      var s1 := WritePacket(s, pkts[0], dec).0;
      OtherPacketOnlyAppends(s, pkts[0], dec);
      WithoutKeyFramesNothingIsDropped(s1, pkts[1..], dec);
    }
  }
}
