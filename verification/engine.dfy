/**
 * What a caller of the command engine (ASI/MS2000.cs, `SendCommand` and
 * `SendCommandAsync`) gets back: the serial data that arrives after a command
 * is written comes in pieces, each piece runs the receive loop once, and the
 * waiting caller wakes up after the first piece that completes a frame.
 */
module Engine {
  import opened Options
  import opened Text
  import opened Protocol
  import opened Framing

  /** `_commandTcs`: never created, waiting for a frame, or completed with one. */
  datatype Slot = NoSlot | Pending | Resolved(frame: string)

  /** `_commandTcs?.TrySetResult(frame)` for each frame in turn: only the first frame completes a waiting slot. */
  function Settle(slot: Slot, frames: seq<string>): (r: Slot)
    ensures frames == [] ==> r == slot
    ensures slot == Pending && frames != [] ==> r == Resolved(frames[0])
    ensures slot != Pending ==> r == slot
  {
    if slot == Pending && frames != [] then Resolved(frames[0]) else slot
  }

  /** `_lastResponse` after the frames were handed out in order: the last one, or what it was. */
  function LastOr(frames: seq<string>, previous: string): (r: string)
    ensures frames == [] ==> r == previous
    ensures frames != [] ==> r == frames[|frames| - 1]
  {
    if frames == [] then previous else frames[|frames| - 1]
  }

  /** Handing out `a` and then `b` settles a slot as handing out `a + b` at once. */
  lemma SettleAppend(slot: Slot, a: seq<string>, b: seq<string>)
    ensures Settle(Settle(slot, a), b) == Settle(slot, a + b)
    ensures LastOr(b, LastOr(a, "")) == LastOr(a + b, "")
  {
    if a != [] {
      assert (a + b)[0] == a[0];
    }
    if a == [] {
      assert a + b == b;
    }
  }

  /**
   * The frames of the piece that woke the caller (none when it timed out) and
   * the receive buffer the caller sees when it wakes.
   */
  datatype Delivery = Delivery(frames: seq<string>, rest: string)

  /**
   * The pieces arriving within the time-out, one receive-loop run each,
   * starting from buffer `buf`, until one of them hands out a frame.
   */
  function Deliver(buf: string, arrivals: seq<string>): (d: Delivery)
    decreases |arrivals|
    ensures |d.rest| <= BufferCap || (arrivals == [] && d.rest == buf)
  {
    if arrivals == [] then Delivery([], buf)
    else
      var x := Extract(buf + arrivals[0]);
      if x.frames != [] then Delivery(x.frames, Capped(x.rest))
      else Deliver(Capped(x.rest), arrivals[1..])
  }

  /** A piece that completes no frame leaves the caller waiting on the next pieces. */
  lemma DeliverSkip(buf: string, arrivals: seq<string>)
    requires arrivals != [] && Extract(buf + arrivals[0]).frames == []
    ensures Deliver(buf, arrivals) == Deliver(Capped(Extract(buf + arrivals[0]).rest), arrivals[1..])
  {
  }

  /** A piece that completes a frame wakes the caller. */
  lemma DeliverHit(buf: string, arrivals: seq<string>)
    requires arrivals != [] && Extract(buf + arrivals[0]).frames != []
    ensures Deliver(buf, arrivals) == Delivery(Extract(buf + arrivals[0]).frames, Capped(Extract(buf + arrivals[0]).rest))
  {
  }

  /** The piece at position `k` of the remaining pieces: it wakes the caller or hands on to the next. */
  lemma DeliverAt(buf: string, arrivals: seq<string>, k: nat)
    requires k < |arrivals|
    ensures var x := Extract(buf + arrivals[k]);
      Deliver(buf, arrivals[k..]) ==
        if x.frames != [] then Delivery(x.frames, Capped(x.rest)) else Deliver(Capped(x.rest), arrivals[k + 1..])
  {
    var rest := arrivals[k..];
    assert rest[0] == arrivals[k] && rest[1..] == arrivals[k + 1..];
  }

  /** Every frame a caller can receive starts with `:A`, holds no line end, and so is never empty. */
  lemma {:induction false} DeliveredFramesWellFormed(buf: string, arrivals: seq<string>)
    decreases |arrivals|
    ensures forall f :: f in Deliver(buf, arrivals).frames ==> WellFormedFrame(f) && f != []
  {
    if arrivals != [] {
      var x := Extract(buf + arrivals[0]);
      FramesWellFormed(buf + arrivals[0]);
      if x.frames == [] {
        DeliveredFramesWellFormed(Capped(x.rest), arrivals[1..]);
      }
    }
  }

  /** A reply line arriving whole after a command, with noise in front, is the reply the caller gets. */
  lemma WholeReplyDelivered(noise: string, body: string, later: seq<string>)
    requires ':' !in noise && '\r' !in body
    ensures Deliver("", [noise + AckMarker + body + LineEnd] + later) == Delivery([AckMarker + body], "")
  {
    var arrivals := [noise + AckMarker + body + LineEnd] + later;
    assert "" + arrivals[0] == noise + AckMarker + body + LineEnd;
    SingleReply(noise, body);
  }

  /**
   * A reply split over two pieces is delivered as if it had arrived at once,
   * as long as the first piece alone holds no complete frame and fits in the buffer.
   */
  lemma SplitReplyDelivered(a: string, b: string, later: seq<string>)
    requires NextFrame(a).None? && |a| <= BufferCap
    requires NextFrame(a + b).Some?
    ensures Deliver("", [a, b] + later) == Delivery(Extract(a + b).frames, Capped(Extract(a + b).rest))
  {
    var arrivals := [a, b] + later;
    assert "" + arrivals[0] == a;
    ExtractNone(a);
    DeliverSkip("", arrivals);
    ExtractStep(a + b);
    var tail := arrivals[1..];
    assert tail == [b] + later;
    assert a + tail[0] == a + b;
    DeliverHit(a, tail);
  }

  /**
   * A first piece that holds no complete frame and overflows the buffer is lost
   * entirely: the caller gets what the remaining pieces alone would give it.
   */
  lemma OverflowForgotten(a: string, later: seq<string>)
    requires NextFrame(a).None? && |a| > BufferCap
    ensures Deliver("", [a] + later) == Deliver("", later)
  {
    var arrivals := [a] + later;
    assert "" + arrivals[0] == a;
    ExtractNone(a);
    DeliverSkip("", arrivals);
    assert arrivals[1..] == later;
  }

  /** A negative reply of the controller carries no `:A`: it completes nothing, and the caller times out. */
  lemma NegativeReplyTimesOut(reply: string)
    requires !Contains(reply, AckMarker) && |reply| <= BufferCap
    ensures Deliver("", [reply]) == Delivery([], reply)
  {
    assert "" + reply == reply;
    NoAckNoFrame(reply);
    assert [reply][1..] == [];
  }
}
