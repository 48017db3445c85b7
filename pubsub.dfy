/**
  The single-publisher, multi-subscriber packet queue (package pubsub) as
  classes whose fields the methods update in place. Each public call is one
  atomic step; the lock and condition variable are not modelled, and a call
  that would wait returns WouldBlock instead. Every method is proved to
  follow the functions of QueueSpec and CursorSpec.
*/
module PubSub {
  import opened Wrappers
  import opened Av
  import opened PktQue
  import QueueSpec
  import CursorSpec

  class Queue {
    const buf: Buf
    var streams: QueueSpec.StreamList
    var videoidx: int
    var audioidx: int
    var closed: bool
    var jumped: bool
    var maxgopcount: int

    function State(): QueueSpec.QueueState
      reads this, buf
    {
      QueueSpec.QueueState(buf.View(), streams, videoidx, audioidx, closed, jumped, maxgopcount)
    }

    /** NewQueue: an empty buffer, no streams, no video or audio index, keeping two GOPs by default. */
    constructor ()
      ensures fresh(buf)
      ensures State() == QueueSpec.Initial
    {
      buf := new Buf();
      streams := QueueSpec.Nil;
      videoidx := -1;
      audioidx := -1;
      closed := false;
      jumped := false;
      maxgopcount := 2;
    }

    method SetMaxGopCount(n: int)
      modifies this
      ensures State() == old(State()).(maxgopcount := n)
    {
      maxgopcount := n;
    }

    method WriteHeader(list: QueueSpec.StreamList) returns (err: Option<QueueSpec.WriteError>)
      modifies this
      ensures err == None
      ensures State() == QueueSpec.WriteHeader(old(State()), list)
    {
      streams := list;
      var cs := list.Items();
      for i := 0 to |cs|
        invariant videoidx == QueueSpec.LastOfKind(cs[..i], VideoCodec, old(videoidx))
        invariant audioidx == QueueSpec.LastOfKind(cs[..i], AudioCodec, old(audioidx))
        invariant streams == list && closed == old(closed) && jumped == old(jumped)
        invariant maxgopcount == old(maxgopcount)
      {
        assert cs[..i + 1][..i] == cs[..i];
        if cs[i].IsVideo() {
          videoidx := i;
        } else if cs[i].IsAudio() {
          audioidx := i;
        }
      }
      assert cs[..|cs|] == cs;
      err := None;
    }

    method WriteTrailer() returns (err: Option<QueueSpec.WriteError>)
      ensures err == None
    {
      err := None;
    }

    method Close() returns (err: Option<QueueSpec.WriteError>)
      modifies this
      ensures err == None
      ensures State() == QueueSpec.Close(old(State()))
    {
      closed := true;
      err := None;
    }

    /** Pops every buffered packet, noting a discontinuity when a sequence header goes. */
    method DrainBuffer()
      modifies this, buf
      ensures State() == QueueSpec.Drain(old(State()))
    {
      ghost var was := buf.items;
      while buf.items != []
        invariant buf.head + |buf.items| == old(buf.head) + |was|
        invariant old(buf.head) <= buf.head
        invariant buf.items == was[buf.head - old(buf.head)..]
        invariant jumped == (old(jumped) || QueueSpec.HasSeqHdr(was[..buf.head - old(buf.head)]))
        invariant streams == old(streams) && videoidx == old(videoidx) && audioidx == old(audioidx)
        invariant closed == old(closed) && maxgopcount == old(maxgopcount)
        decreases |buf.items|
      {
        ghost var k := buf.head - old(buf.head);
        var popped := buf.Pop();
        assert popped == was[k];
        assert was[..k + 1] == was[..k] + [was[k]];
        if popped.isSeqHdr {
          jumped := true;
        }
      }
      assert was[..|was|] == was;
    }

    /**
      WritePacket: a video key frame empties the buffer first; a sequence
      header is decoded and recorded as its stream's descriptor; then the
      packet is appended. A header that fails to decode is an error and is
      not appended, with any drain already done.
    */
    method WritePacket(pkt: Packet, dec: Decoders) returns (err: Option<QueueSpec.WriteError>)
      modifies this, buf
      ensures (State(), err) == QueueSpec.WritePacket(old(State()), pkt, dec)
    {
      if pkt.isKeyFrame && pkt.isVideo {
        DrainBuffer();
      }
      if pkt.isSeqHdr {
        if pkt.isVideo {
          var parsed := dec.avc(pkt.data);
          if parsed.None? {
            return Some(QueueSpec.H264SeqHdrInvalid);
          }
          if videoidx >= 0 {
            if videoidx >= streams.Len() {
              return Some(QueueSpec.IndexOutOfRange);
            }
            streams := QueueSpec.List(streams.Items()[videoidx := parsed.value]);
          } else {
            videoidx := streams.Len();
            streams := QueueSpec.List(streams.Items() + [parsed.value]);
          }
        } else if pkt.isAudio {
          var parsed := dec.aac(pkt.data);
          if parsed.None? {
            return Some(QueueSpec.AacSeqHdrInvalid);
          }
          if audioidx >= 0 {
            if audioidx >= streams.Len() {
              return Some(QueueSpec.IndexOutOfRange);
            }
            streams := QueueSpec.List(streams.Items()[audioidx := parsed.value]);
          } else {
            audioidx := streams.Len();
            streams := QueueSpec.List(streams.Items() + [parsed.value]);
          }
        }
      }
      buf.Push(pkt);
      err := None;
    }

    /** A cursor that starts at the tail on its first read. */
    method Latest() returns (cursor: QueueCursor)
      ensures fresh(cursor)
      ensures cursor.que == this && cursor.init == CursorSpec.Latest && !cursor.gotpos
    {
      cursor := new QueueCursor(this, CursorSpec.Latest);
    }

    /** A cursor that starts at the head on its first read. */
    method Oldest() returns (cursor: QueueCursor)
      ensures fresh(cursor)
      ensures cursor.que == this && cursor.init == CursorSpec.Oldest && !cursor.gotpos
    {
      cursor := new QueueCursor(this, CursorSpec.Oldest);
    }

    /** A cursor that starts dur behind the newest packet on its first read. */
    method DelayedTime(dur: int64) returns (cursor: QueueCursor)
      ensures fresh(cursor)
      ensures cursor.que == this && cursor.init == CursorSpec.DelayedTime(dur) && !cursor.gotpos
    {
      cursor := new QueueCursor(this, CursorSpec.DelayedTime(dur));
    }

    /** A cursor that starts n video GOPs back on its first read. */
    method DelayedGopCount(n: int) returns (cursor: QueueCursor)
      ensures fresh(cursor)
      ensures cursor.que == this && cursor.init == CursorSpec.DelayedGopCount(n) && !cursor.gotpos
    {
      cursor := new QueueCursor(this, CursorSpec.DelayedGopCount(n));
    }
  }

  /** The backward walk of DelayedTime over the buffer. */
  method DelayedTimePos(buf: Buf, dur: int64) returns (i: int)
    ensures i == CursorSpec.DelayedTimeStart(buf.View(), dur)
  {
    ghost var b := buf.View();
    i := buf.head + |buf.items| - 1;
    if buf.View().IsValidPos(i) {
      var end := buf.View().Get(i);
      while buf.View().IsValidPos(i)
        invariant b.head - 1 <= i < b.Tail()
        invariant CursorSpec.TimeWalk(b, end.time, dur, i) == CursorSpec.DelayedTimeStart(b, dur)
        decreases i - b.head + 1
      {
        if Sub64(end.time, buf.View().Get(i).time) > dur {
          break;
        }
        i := i - 1;
      }
    }
  }

  /**
    The backward walk of DelayedGopCount over the buffer. The source compares
    against the queue's own videoidx, which is the value passed in here.
  */
  method DelayedGopCountPos(buf: Buf, videoidx: int, n: int) returns (i: int)
    ensures i == CursorSpec.DelayedGopCountStart(buf.View(), videoidx, n)
  {
    ghost var b := buf.View();
    i := buf.head + |buf.items| - 1;
    if videoidx != -1 {
      var gop := 0;
      while buf.View().IsValidPos(i) && gop < n
        invariant b.head - 1 <= i < b.Tail()
        invariant CursorSpec.GopWalk(b, ToInt8(videoidx), n, gop, i) == CursorSpec.DelayedGopCountStart(b, videoidx, n)
        decreases i - b.head + 1
      {
        var pkt := buf.View().Get(i);
        if pkt.idx == ToInt8(videoidx) && pkt.isKeyFrame {
          gop := gop + 1;
        }
        i := i - 1;
      }
    }
  }

  /** The start position a policy picks, evaluated against the buffer as it is now. */
  method StartPosition(policy: CursorSpec.StartPolicy, buf: Buf, videoidx: int) returns (p: int)
    ensures p == CursorSpec.StartPos(policy, buf.View(), videoidx)
  {
    match policy
    case Latest =>
      p := buf.head + |buf.items|;
    case Oldest =>
      p := buf.head;
    case DelayedTime(dur) =>
      p := DelayedTimePos(buf, dur);
    case DelayedGopCount(n) =>
      p := DelayedGopCountPos(buf, videoidx, n);
  }

  class QueueCursor {
    const que: Queue
    const init: CursorSpec.StartPolicy
    var pos: int
    var gotpos: bool

    function State(): CursorSpec.CursorState
      reads this
    {
      CursorSpec.CursorState(pos, gotpos, init)
    }

    constructor (que: Queue, init: CursorSpec.StartPolicy)
      ensures this.que == que && this.init == init && !gotpos
    {
      this.que := que;
      this.init := init;
      pos := 0;
      gotpos := false;
    }

    /** One pass of Streams: the stream list once known, EOF once closed, otherwise WouldBlock. */
    method Streams() returns (r: CursorSpec.StreamsResult)
      ensures r == CursorSpec.StreamsStep(que.State())
    {
      if que.streams.List? {
        r := CursorSpec.GotStreams(que.streams.items);
      } else if que.closed {
        r := CursorSpec.StreamsEOF;
      } else {
        r := CursorSpec.StreamsWouldBlock;
      }
    }

    /**
      One pass of ReadPacket's loop. `jumped` is the call's local flag as the
      previous pass left it (false on entry to the call); `jumpedOut` is its
      value for the next pass when the result is WouldBlock.
    */
    method ReadPacket(jumped: bool) returns (r: CursorSpec.ReadResult, jumpedOut: bool)
      modifies this, que`jumped
      ensures var o := CursorSpec.ReadStep(old(State()), old(que.State()), jumped);
        && r == o.result
        && State() == o.cursor
        && jumpedOut == o.jumped
        && que.State() == old(que.State()).(jumped := o.queueJumped)
    {
      var buf := que.buf;
      if !gotpos {
        pos := StartPosition(init, buf, que.videoidx);
        gotpos := true;
      }
      jumpedOut := jumped;
      if pos < buf.head {
        pos := buf.head;
        jumpedOut := true;
      } else if pos > buf.head + |buf.items| {
        pos := buf.head + |buf.items|;
        jumpedOut := true;
      }
      if buf.View().IsValidPos(pos) {
        var pkt := buf.items[pos - buf.head];
        if jumpedOut && que.jumped {
          pkt := pkt.(jumped := true);
          que.jumped := false;
        }
        pos := pos + 1;
        r := CursorSpec.Got(pkt);
      } else if que.closed {
        r := CursorSpec.EOF;
      } else {
        r := CursorSpec.WouldBlock;
      }
    }
  }
}
