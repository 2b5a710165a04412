/** How a client's bytes reach a connection: in pieces of what one `recv` can deliver, any number
    of them to an event. */
module Delivery {
  import opened Connection

  /** The bytes one drain of the socket delivers. */
  function Arrived(rs: seq<RecvResult>): string
    decreases |rs|
  {
    if rs != [] && rs[0].Data? && rs[0].bytes != "" then rs[0].bytes + Arrived(rs[1..]) else ""
  }

  /** The drain ends because the socket would block, not at the end of the stream. */
  predicate NoEof(rs: seq<RecvResult>)
    decreases |rs|
  {
    rs == [] || rs[0].WouldBlock? || (rs[0].Data? && rs[0].bytes != "" && NoEof(rs[1..]))
  }

  function ArrivedAll(events: seq<Event>): string {
    if events == [] then ""
    else (if events[0].Readable? then Arrived(events[0].rs) else "") + ArrivedAll(events[1..])
  }

  /** No piece is longer than the buffer of a `recv`. */
  predicate Receivable(rs: seq<RecvResult>) {
    forall r :: r in rs ==> r.Data? ==> |r.bytes| <= RECV_BUF_SIZE
  }

  predicate Deliverable(events: seq<Event>) {
    forall e :: e in events ==> e.Readable? ==> Receivable(e.rs)
  }

  /** The bytes in the longest pieces possible. */
  function Pieces(s: string): seq<RecvResult>
    decreases |s|
  {
    if s == "" then []
    else var n := Min(|s|, RECV_BUF_SIZE); [Data(s[..n])] + Pieces(s[n..])
  }

  lemma {:induction false} PiecesArrive(s: string)
    ensures NoEof(Pieces(s)) && Arrived(Pieces(s)) == s && Receivable(Pieces(s))
    decreases |s|
  {
    if s != "" {
      var n := Min(|s|, RECV_BUF_SIZE);
      PiecesArrive(s[n..]);
      assert s == s[..n] + s[n..];
    }
  }

  lemma {:induction false} ReceiveAll(c: Conn, rs: seq<RecvResult>)
    requires NoEof(rs) && !c.closed && |c.inBuffer| <= MAX_IN_BUFFER
    ensures var b := c.inBuffer + Arrived(rs);
            Receive(c, rs).closed == (|b| > MAX_IN_BUFFER)
            && (|b| <= MAX_IN_BUFFER ==> Receive(c, rs) == c.(inBuffer := b))
    decreases |rs|
  {
    if rs == [] || rs[0].WouldBlock? {
      assert c.inBuffer + Arrived(rs) == c.inBuffer;
    } else {
      var c1 := c.(inBuffer := c.inBuffer + rs[0].bytes);
      assert c.inBuffer + Arrived(rs) == c1.inBuffer + Arrived(rs[1..]);
      if |c1.inBuffer| <= MAX_IN_BUFFER {
        ReceiveAll(c1, rs[1..]);
      }
    }
  }
}
