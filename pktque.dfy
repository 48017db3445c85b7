/**
  The growable packet buffer the queue owns (pktque.Buf), kept abstract: a
  sequence of packets plus the logical position of its first element. Logical
  positions only grow; `head` advances on Pop and the tail on Push.
*/
module PktQue {
  import opened Av

  /** The value of a buffer: positions head <= p < Tail() hold items[p - head]. */
  datatype BufState = BufState(head: int, items: seq<Packet>) {
    function Tail(): int { head + |items| }

    function Count(): nat { |items| }

    predicate IsValidPos(p: int) { head <= p < Tail() }

    function Get(p: int): Packet
      requires IsValidPos(p)
    {
      items[p - head]
    }
  }

  class Buf {
    var head: int
    var items: seq<Packet>

    function View(): BufState
      reads this
    {
      BufState(head, items)
    }

    constructor ()
      ensures View() == BufState(0, [])
    {
      head := 0;
      items := [];
    }

    method Push(pkt: Packet)
      modifies this
      ensures View() == BufState(old(head), old(items) + [pkt])
    {
      items := items + [pkt];
    }

    method Pop() returns (pkt: Packet)
      requires items != []
      modifies this
      ensures pkt == old(items[0])
      ensures View() == BufState(old(head) + 1, old(items[1..]))
    {
      pkt := items[0];
      items := items[1..];
      head := head + 1;
    }
  }
}
