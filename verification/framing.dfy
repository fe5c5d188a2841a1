/**
 * How the command engine cuts the serial byte stream into reply frames
 * (`SerialPort_DataReceived`): a frame runs from the first `:A` to the first
 * `\r\n` at or after it; everything before that `:A` is dropped, the line end
 * is consumed, and a buffer left longer than 4096 characters is emptied.
 */
module Framing {
  import opened Options
  import opened Text
  import opened Protocol

  /** Above this length the receive buffer is thrown away. */
  const BufferCap: nat := 4096

  /** Where the next pass of the receive loop finds a frame: its start and the index of its line end. */
  function NextFrame(buf: string): (r: Option<(nat, nat)>)
    ensures r.Some? ==> r.value.0 + 2 <= r.value.1 && r.value.1 + 2 <= |buf|
  {
    var s := IndexOf(buf, AckMarker, 0);
    if s < 0 then None
    else
      var e := IndexOf(buf, LineEnd, s);
      if e < 0 then None
      else
        assert buf[s] == ':' && buf[s + 1] == 'A' && buf[e] == '\r';
        Some((s, e))
  }

  /**
   * The cut is the first `:A` and the first line end at or after it; there is
   * none exactly when no `:A` is followed by a line end.
   */
  lemma NextFrameFacts(buf: string)
    ensures NextFrame(buf).Some? ==>
      var s := NextFrame(buf).value.0;
      var e := NextFrame(buf).value.1;
      && OccursAt(buf, AckMarker, s) && OccursAt(buf, LineEnd, e)
      && (forall i :: 0 <= i < s ==> !OccursAt(buf, AckMarker, i))
      && (forall i :: s <= i < e ==> !OccursAt(buf, LineEnd, i))
    ensures NextFrame(buf).None? ==>
      forall s, e :: 0 <= s <= e && OccursAt(buf, AckMarker, s) ==> !OccursAt(buf, LineEnd, e)
  {
    var s := IndexOf(buf, AckMarker, 0);
    if s >= 0 {
      var e := IndexOf(buf, LineEnd, s);
    }
  }

  /** Data arriving behind a buffer does not move the frame the loop finds in it. */
  lemma NextFrameAppend(a: string, b: string)
    requires NextFrame(a).Some?
    ensures NextFrame(a + b) == NextFrame(a)
  {
    var s := IndexOf(a, AckMarker, 0);
    IndexOfAppend(a, b, AckMarker, 0);
    IndexOfAppend(a, b, LineEnd, s);
  }

  // ----- The loop, for any way of locating the next frame -----

  /** A way of locating the next frame in a buffer. */
  type Locator = string -> Option<(nat, nat)>

  /** It only reports frames that lie inside the buffer, line end included. */
  ghost predicate Inside(find: Locator)
  {
    forall buf :: find(buf).Some? ==> find(buf).value.0 <= find(buf).value.1 && find(buf).value.1 + 2 <= |buf|
  }

  /** Text arriving behind a buffer never moves a frame already located in it. */
  ghost predicate Stable(find: Locator)
  {
    forall a, b {:trigger find(a), find(a + b)} :: find(a).Some? ==> find(a + b) == find(a)
  }

  /** The frames one run of the loop hands out, in order, and the text it leaves behind. */
  datatype Extraction = Extraction(frames: seq<string>, rest: string)

  /** The receive loop: cut frames while one can be located, keep what is left. */
  function ExtractWith(find: Locator, buf: string): (x: Extraction)
    requires Inside(find)
    decreases |buf|
    ensures |x.rest| <= |buf|
  {
    match find(buf)
    case None => Extraction([], buf)
    case Some((s, e)) =>
      var x := ExtractWith(find, buf[e + 2..]);
      Extraction([buf[s..e]] + x.frames, x.rest)
  }

  /**
   * Splitting the arriving text into pieces does not change the frames:
   * running the loop on `a`, then on what it left plus `b`, hands out the same
   * frames in the same order, and leaves the same text, as one run on `a + b`.
   */
  lemma {:induction false} ExtractWithAppend(find: Locator, a: string, b: string)
    requires Inside(find) && Stable(find)
    decreases |a|
    ensures var xa := ExtractWith(find, a); var xb := ExtractWith(find, xa.rest + b);
      ExtractWith(find, a + b) == Extraction(xa.frames + xb.frames, xb.rest)
  {
    if find(a).Some? {
      var s := find(a).value.0;
      var e := find(a).value.1;
      assert find(a + b) == find(a);
      SlicesOfAppend(a, b, s, e);
      ExtractWithAppend(find, a[e + 2..], b);
      var xt := ExtractWith(find, a[e + 2..]);
      var xr := ExtractWith(find, xt.rest + b);
      ConsAppend(a[s..e], xt.frames, xr.frames);
    } else {
      assert [] + ExtractWith(find, a + b).frames == ExtractWith(find, a + b).frames;
    }
  }

  /** The frame and the remainder cut from `a` are cut the same way from `a + b`, with `b` behind the remainder. */
  lemma SlicesOfAppend(a: string, b: string, s: nat, e: nat)
    requires s <= e && e + 2 <= |a|
    ensures (a + b)[s..e] == a[s..e]
    ensures (a + b)[e + 2..] == a[e + 2..] + b
  {
  }

  /** Consing onto an append is appending onto a cons. */
  lemma ConsAppend<T>(x: T, p: seq<T>, q: seq<T>)
    ensures [x] + (p + q) == ([x] + p) + q
  {
  }

  // ----- The loop of the driver -----

  lemma NextFrameInside()
    ensures Inside(NextFrame)
  {
  }

  lemma NextFrameStable()
    ensures Stable(NextFrame)
  {
    forall a, b | NextFrame(a).Some?
      ensures NextFrame(a + b) == NextFrame(a)
    {
      NextFrameAppend(a, b);
    }
  }

  /** The receive loop as it is written, locating frames with `NextFrame`. */
  function Extract(buf: string): (x: Extraction)
    ensures |x.rest| <= |buf|
  {
    NextFrameInside();
    ExtractWith(NextFrame, buf)
  }

  /** One pass of the loop: the frame it finds, then the loop on what follows. */
  lemma ExtractStep(buf: string)
    requires NextFrame(buf).Some?
    ensures var s := NextFrame(buf).value.0; var e := NextFrame(buf).value.1;
      Extract(buf) == Extraction([buf[s..e]] + Extract(buf[e + 2..]).frames, Extract(buf[e + 2..]).rest)
  {
  }

  /** The loop stops at once, keeping the whole buffer, when no frame can be located. */
  lemma ExtractNone(buf: string)
    requires NextFrame(buf).None?
    ensures Extract(buf) == Extraction([], buf)
  {
  }

  /** A run that hands out no frame stopped at once and kept the whole buffer. */
  lemma NoFramesKeepsAll(buf: string)
    requires Extract(buf).frames == []
    ensures NextFrame(buf).None? && Extract(buf).rest == buf
  {
    if NextFrame(buf).Some? {
      ExtractStep(buf);
    }
  }

  /** The loop stops only when no complete frame is left in the buffer. */
  lemma {:induction false} ExtractLeavesNoFrame(buf: string)
    decreases |buf|
    ensures NextFrame(Extract(buf).rest).None?
  {
    if NextFrame(buf).Some? {
      ExtractStep(buf);
      ExtractLeavesNoFrame(buf[NextFrame(buf).value.1 + 2..]);
    }
  }

  /** Data delivered in two pieces gives the same frames, and the same rest, as delivered at once. */
  lemma ExtractAppend(a: string, b: string)
    ensures Extract(a + b).frames == Extract(a).frames + Extract(Extract(a).rest + b).frames
    ensures Extract(a + b).rest == Extract(Extract(a).rest + b).rest
  {
    NextFrameInside();
    NextFrameStable();
    ExtractWithAppend(NextFrame, a, b);
  }

  /** The size check after the loop. */
  function Capped(rest: string): (r: string)
    ensures |r| <= BufferCap
    ensures |rest| <= BufferCap ==> r == rest
    ensures |rest| > BufferCap ==> r == ""
  {
    if |rest| > BufferCap then "" else rest
  }

  /** A frame as the loop cuts it: it starts with `:A` and holds no line end. */
  predicate WellFormedFrame(f: string)
  {
    |f| >= 2 && f[..2] == AckMarker && !Contains(f, LineEnd)
  }

  /** A frame cut where `NextFrame` points is well formed. */
  lemma FrameAtWellFormed(buf: string)
    requires NextFrame(buf).Some?
    ensures WellFormedFrame(buf[NextFrame(buf).value.0..NextFrame(buf).value.1])
  {
    NextFrameFacts(buf);
    var s := NextFrame(buf).value.0;
    var e := NextFrame(buf).value.1;
    var f := buf[s..e];
    assert f[..2] == buf[s..s + 2];
    forall i | 0 <= i <= |f| - 2
      ensures !OccursAt(f, LineEnd, i)
    {
      assert f[i..i + 2] == buf[s + i..s + i + 2];
      assert !OccursAt(buf, LineEnd, s + i);
    }
  }

  /** Every frame handed out starts with `:A` and holds no line end. */
  lemma {:induction false} FramesWellFormed(buf: string)
    decreases |buf|
    ensures forall f :: f in Extract(buf).frames ==> WellFormedFrame(f)
  {
    if NextFrame(buf).Some? {
      ExtractStep(buf);
      FrameAtWellFormed(buf);
      FramesWellFormed(buf[NextFrame(buf).value.1 + 2..]);
    }
  }

  /**
   * So the acknowledgement check on a frame comes down to one question:
   * does it hold the negative marker `:N`?
   */
  lemma FrameAccepted(f: string)
    requires WellFormedFrame(f)
    ensures CheckReturnMsg(f) <==> !Contains(f, NakMarker)
    ensures f != []
  {
    assert OccursAt(f, AckMarker, 0);
    FrameCheck(f);
  }

  /** Text with no `:A` yields no frame and is kept whole, e.g. a bare `:N-1\r\n`. */
  lemma NoAckNoFrame(buf: string)
    requires !Contains(buf, AckMarker)
    ensures Extract(buf) == Extraction([], buf)
  {
    NextFrameFacts(buf);
    ExtractNone(buf);
  }

  /** A buffer holding no line end is kept whole, waiting for more data. */
  lemma PartialFrameKept(buf: string)
    requires !Contains(buf, LineEnd)
    ensures Extract(buf) == Extraction([], buf)
  {
    NextFrameFacts(buf);
    ExtractNone(buf);
  }

  /** One complete reply line, with noise in front, gives exactly that reply. */
  lemma SingleReply(noise: string, body: string)
    requires ':' !in noise && '\r' !in body
    ensures Extract(noise + AckMarker + body + LineEnd) == Extraction([AckMarker + body], "")
  {
    var buf := noise + AckMarker + body + LineEnd;
    var s := |noise|;
    var e := s + 2 + |body|;
    assert buf == noise + AckMarker + (body + LineEnd);
    IndexOfAtEnd(noise, AckMarker, body + LineEnd);
    assert buf == noise + (AckMarker + body) + LineEnd;
    IndexOfAfter(noise, AckMarker + body, LineEnd);
    assert NextFrame(buf) == Some((s, e));
    assert buf[s..e] == AckMarker + body;
    assert buf[e + 2..] == "";
    ExtractStep(buf);
    ExtractNone("");
  }
}
