/** What a sender puts on an HTTP/2 stream, and how much one DATA frame may carry. */
module FlowControl {
  import opened Bytes

  datatype Frame = Data(data: bytes) | EndStream | Reset

  /** The body bytes the frames carry, in order. */
  function DataOf(log: seq<Frame>): bytes {
    if log == [] then "" else
      DataOf(log[..|log| - 1]) + (if log[|log| - 1].Data? then log[|log| - 1].data else "")
  }

  lemma DataSnoc(log: seq<Frame>, f: Frame)
    ensures DataOf(log + [f]) == DataOf(log) + (if f.Data? then f.data else "")
  {
    assert (log + [f])[..|log|] == log;
  }

  /** The next frame's size: the most that the window, the frame limit and what is left allow; 0 when
      the window is shut. */
  function Chunk(window: int, maxFrame: nat, left: nat): (r: nat)
    ensures r > 0 ==> r <= window && r <= maxFrame && r <= left && (r == window || r == maxFrame || r == left)
    ensures r == 0 <==> window <= 0 || maxFrame == 0 || left == 0
  {
    if window <= 0 then 0
    else if window <= maxFrame && window <= left then window
    else if maxFrame <= left then maxFrame
    else left
  }

  /** h2 reports the smaller of the stream's and the connection's windows. */
  function Smaller(a: int, b: int): int { if a <= b then a else b }

  predicate AllData(log: seq<Frame>) { forall k :: 0 <= k < |log| ==> log[k].Data? }

  /** Frames of one stream: no frame empty or over the limit, nothing after its end. */
  predicate Framed(log: seq<Frame>, maxFrame: nat) {
    && (forall k :: 0 <= k < |log| && log[k].Data? ==> 0 < |log[k].data| <= maxFrame)
    && (forall k :: 0 <= k < |log| - 1 ==> log[k].Data?)
  }

  predicate Ends(log: seq<Frame>) { log != [] && log[|log| - 1] == EndStream }

  /** Sending the next chunk of a body extends what was sent by exactly that chunk. */
  lemma SendNext(log: seq<Frame>, body: bytes, offset: nat, chunk: nat, maxFrame: nat)
    requires offset + chunk <= |body| && 0 < chunk <= maxFrame
    requires DataOf(log) == body[..offset] && AllData(log) && Framed(log, maxFrame)
    ensures var next := log + [Data(body[offset..offset + chunk])];
      DataOf(next) == body[..offset + chunk] && AllData(next) && Framed(next, maxFrame)
  {
    DataSnoc(log, Data(body[offset..offset + chunk]));
    assert body[..offset] + body[offset..offset + chunk] == body[..offset + chunk];
  }

  /** Ending or resetting a stream sends no data. */
  lemma SendLast(log: seq<Frame>, last: Frame, maxFrame: nat)
    requires AllData(log) && Framed(log, maxFrame) && !last.Data?
    ensures DataOf(log + [last]) == DataOf(log) && Framed(log + [last], maxFrame)
  {
    DataSnoc(log, last);
    assert DataOf(log) + "" == DataOf(log);
  }
}
