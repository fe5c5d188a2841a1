/**
 * The `MS2000` class of ASI/MS2000.cs: the serial port it owns, the search for
 * the controller among the serial ports (`Valid`, `OpenCom`, `DisConnect`), the
 * command engine (`SerialPort_DataReceived`, `SendCommand`, `SendCommandAsync`)
 * and the operations built on it.
 *
 * The serial line is replaced by inputs: for a command, the pieces of text the
 * port delivers before the time-out (`arrivals`); for a port the search tries,
 * a `PortProbe`. Everything the class writes to a port is logged in `written`.
 */
module Driver {
  import opened Options
  import opened Text
  import opened Numbers
  import opened Protocol
  import opened Framing
  import opened Engine
  import Queries

  /** `new SerialPort()` is named COM1 until a name is set. */
  const DefaultPortName: string := "COM1"

  /** The identification request `Valid` writes to a port. */
  const ProbeText: string := "N\r"

  /** The text a controller's answer to the identification request holds. */
  const Signature: string := "MS2000"

  /**
   * What opening a port and writing the request to it does. `CheckPort` also
   * calls a port free when its own trial open fails with an error other than
   * an access refusal, so a port the search goes on to use may still throw.
   */
  datatype Opening =
    | Opens        // `Open` and `Write` go through
    | OpenThrows   // `Open` throws; the port object stays closed
    | WriteThrows  // `Open` goes through and `Write` throws; the port object stays open

  /**
   * A serial port the search may try: its name, whether `CheckPort` finds it
   * free, what opening and writing to it does, and the pieces of text it
   * sends back after the identification request.
   */
  datatype PortProbe = PortProbe(name: string, free: bool, opening: Opening, arrivals: seq<string>)

  /** What `SerialPort_DataReceived_Valid` has gathered, and whether it woke the waiting search. */
  datatype Heard = Heard(text: string, woke: bool)

  /**
   * The identification handler fed piece by piece from `acc`: non-empty pieces
   * are appended, and the search wakes once the gathered text holds `\r`.
   */
  function Listen(acc: string, arrivals: seq<string>): (h: Heard)
    decreases |arrivals|
    ensures h.woke ==> '\r' in h.text
    ensures !h.woke ==> h.text == acc + Concat(arrivals)
  {
    if arrivals == [] then Heard(acc, false)
    else if arrivals[0] == "" then
      assert Concat(arrivals) == Concat(arrivals[1..]);
      Listen(acc, arrivals[1..])
    else
      var gathered := acc + arrivals[0];
      if '\r' in gathered then Heard(gathered, true)
      else
        assert acc + Concat(arrivals) == gathered + Concat(arrivals[1..]);
        Listen(gathered, arrivals[1..])
  }

  /** All pieces, in order. */
  function Concat(pieces: seq<string>): string
  {
    if pieces == [] then "" else pieces[0] + Concat(pieces[1..])
  }

  /** The port answered the request, in time, with text naming the controller. */
  predicate Answers(p: PortProbe)
  {
    var h := Listen("", p.arrivals);
    h.woke && h.text != "" && Contains(h.text, Signature)
  }

  /** The search settles on a port that is free, opens, and answers. */
  predicate Identifies(p: PortProbe)
  {
    p.free && p.opening == Opens && Answers(p)
  }

  /** The search throws at a port that is free but cannot be opened or written to. */
  predicate Throws(p: PortProbe)
  {
    p.free && p.opening != Opens
  }

  /** The search stops at a port: it settles on it, or it throws there. */
  predicate Ends(p: PortProbe)
  {
    Identifies(p) || Throws(p)
  }

  /** The port the search stops at. */
  function FirstEnding(ports: seq<PortProbe>): (r: Option<nat>)
    ensures r.Some? ==> r.value < |ports| && Ends(ports[r.value])
    ensures r.Some? ==> forall j :: 0 <= j < r.value ==> !Ends(ports[j])
    ensures r.None? ==> forall j :: 0 <= j < |ports| ==> !Ends(ports[j])
  {
    if ports == [] then None
    else if Ends(ports[0]) then Some(0)
    else
      match FirstEnding(ports[1..])
      case None => None
      case Some(k) => Some(k + 1)
  }

  /** How many ports the search goes through: up to the one it stops at, or all of them. */
  function Tried(ports: seq<PortProbe>): (n: nat)
    ensures n <= |ports|
  {
    match FirstEnding(ports)
    case Some(k) => k + 1
    case None => |ports|
  }

  /** Whether trying `p` writes the identification request: it is free and opens. */
  predicate WritesProbe(p: PortProbe)
  {
    p.free && p.opening == Opens
  }

  /** The identification requests written while trying `ps`: one per free port that opens. */
  function ProbesWritten(ps: seq<PortProbe>): seq<string>
  {
    if ps == [] then []
    else ProbesWritten(ps[..|ps| - 1]) + (if WritesProbe(ps[|ps| - 1]) then [ProbeText] else [])
  }

  /** The last free port among `ps`: the one the port object was last set to. */
  function LastFree(ps: seq<PortProbe>): (r: Option<nat>)
    ensures r.Some? ==> r.value < |ps| && ps[r.value].free
    ensures r.Some? ==> forall j :: r.value < j < |ps| ==> !ps[j].free
    ensures r.None? ==> forall j :: 0 <= j < |ps| ==> !ps[j].free
  {
    if ps == [] then None
    else if ps[|ps| - 1].free then Some(|ps| - 1)
    else LastFree(ps[..|ps| - 1])
  }

  /** What the search leaves of the port object and of the identification listener. */
  datatype SearchView = SearchView(serialPortName: string, isOpen: bool, received: string, heard: bool)

  /**
   * After using the free port `p`: the port object names it and is closed,
   * unless `Write` threw after `Open`; the listener holds what arrived.
   */
  function Visited(p: PortProbe): SearchView
  {
    match p.opening
    case Opens =>
      var h := Listen("", p.arrivals);
      SearchView(p.name, false, h.text, h.woke)
    case OpenThrows => SearchView(p.name, false, "", false)
    case WriteThrows => SearchView(p.name, true, "", false)
  }

  /** After trying `ps`: as the last free port used left it, or as before when none was free. */
  function AfterTries(v: SearchView, ps: seq<PortProbe>): SearchView
  {
    match LastFree(ps)
    case None => v
    case Some(k) => Visited(ps[k])
  }

  /** The port name on record after `Valid("")`: the port settled on, else the one before. */
  function AutoName(before: string, ports: seq<PortProbe>): string
  {
    match FirstEnding(ports)
    case Some(k) => if Identifies(ports[k]) then ports[k].name else before
    case None => before
  }

  /** What `Valid("")` returns: false when a port threw, else whether a port name is on record. */
  function AutoResult(before: string, ports: seq<PortProbe>): bool
  {
    match FirstEnding(ports)
    case Some(k) => if Throws(ports[k]) then false else AutoName(before, ports) != ""
    case None => before != ""
  }

  /** How `OpenCom` ends: connected, not connected, or thrown out of by opening a port object already open. */
  datatype Connection = Connected | NotConnected | ReopenThrows

  /** Everything `Valid(com)` decides: its result, the port name on record, the port object and what it wrote. */
  datatype Verdict = Verdict(ok: bool, portName: string, view: SearchView, written: seq<string>)

  /**
   * `Valid(com)` from the port name `before` and the port object `v`: over
   * `ports` when `com` is empty, otherwise over `target`, the port named `com`.
   */
  function ValidVerdict(com: string, before: string, v: SearchView, ports: seq<PortProbe>, target: PortProbe): Verdict
  {
    if com == "" then
      Verdict(AutoResult(before, ports), AutoName(before, ports),
        AfterTries(v, ports[..Tried(ports)]), ProbesWritten(ports[..Tried(ports)]))
    else if !target.free then Verdict(false, before, v, [])
    else
      Verdict(Identifies(target) || (target.opening == Opens && before != ""),
        if Identifies(target) then target.name else before,
        Visited(target), if target.opening == Opens then [ProbeText] else [])
  }

  /** The search over `ports` stops at `k` when `k` is the first port where it can stop. */
  lemma {:induction false} FirstEndingAt(ports: seq<PortProbe>, k: nat)
    requires k < |ports| && Ends(ports[k])
    requires forall j :: 0 <= j < k ==> !Ends(ports[j])
    ensures FirstEnding(ports) == Some(k)
  {
    if k > 0 {
      assert forall j :: 0 <= j < k - 1 ==> ports[1..][j] == ports[j + 1];
      FirstEndingAt(ports[1..], k - 1);
    }
  }

  /**
   * A free port that throws, met before any port answers, fails the whole
   * search: later ports are never tried and a name on record does not help.
   */
  lemma ThrowEndsSearch(before: string, ports: seq<PortProbe>, k: nat)
    requires k < |ports| && Throws(ports[k])
    requires forall j :: 0 <= j < k ==> !Ends(ports[j])
    ensures !AutoResult(before, ports) && AutoName(before, ports) == before
    ensures Tried(ports) == k + 1
  {
    FirstEndingAt(ports, k);
  }

  /** No free port among `ps`: nothing is written. */
  lemma {:induction false} NoFreeWritesNothing(ps: seq<PortProbe>)
    requires forall j :: 0 <= j < |ps| ==> !ps[j].free
    ensures ProbesWritten(ps) == []
  {
    if ps != [] {
      NoFreeWritesNothing(ps[..|ps| - 1]);
    }
  }

  /**
   * A search that finds no free port leaves the port object as it was; when it
   * was open under a name on record, `Valid("")` succeeds with the port still open.
   */
  lemma NoFreePortKeepsOpen(before: string, v: SearchView, ports: seq<PortProbe>, target: PortProbe)
    requires forall j :: 0 <= j < |ports| ==> !ports[j].free
    requires v.isOpen && before != ""
    ensures ValidVerdict("", before, v, ports, target) == Verdict(true, before, v, [])
  {
    assert Tried(ports) == |ports|;
    assert ports[..|ports|] == ports;
    NoFreeWritesNothing(ports);
  }

  /** A search for a named port that succeeds leaves the port object closed and pointed at that port. */
  lemma NamedSuccessCloses(com: string, before: string, v: SearchView, ports: seq<PortProbe>, target: PortProbe)
    requires com != "" && ValidVerdict(com, before, v, ports, target).ok
    ensures !ValidVerdict(com, before, v, ports, target).view.isOpen
    ensures ValidVerdict(com, before, v, ports, target).view.serialPortName == target.name
  {
  }

  /** The reply `SendCommand` hands its caller: the last frame of the piece that woke it, if any. */
  function SyncReply(open: bool, arrivals: seq<string>): Option<string>
  {
    var d := Deliver("", arrivals);
    if open && d.frames != [] then Some(d.frames[|d.frames| - 1]) else None
  }

  /** The reply `SendCommandAsync` hands its caller: the first frame of that piece, if any. */
  function AsyncReply(open: bool, arrivals: seq<string>): Option<string>
  {
    var d := Deliver("", arrivals);
    if open && d.frames != [] then Some(d.frames[0]) else None
  }

  /** The last frame of the piece that wakes a caller is never empty. */
  lemma LastFrameNotEmpty(arrivals: seq<string>)
    requires Deliver("", arrivals).frames != []
    ensures LastOr(Deliver("", arrivals).frames, "") != ""
  {
    var d := Deliver("", arrivals);
    DeliveredFramesWellFormed("", arrivals);
    assert d.frames[|d.frames| - 1] in d.frames;
  }

  /** A reply the engine hands out is acknowledged exactly when it holds no `:N`. */
  lemma EngineReplies(open: bool, arrivals: seq<string>)
    ensures SyncReply(open, arrivals).Some? ==>
      WellFormedFrame(SyncReply(open, arrivals).value)
      && (Acknowledged(SyncReply(open, arrivals)) <==> !Contains(SyncReply(open, arrivals).value, NakMarker))
    ensures AsyncReply(open, arrivals).Some? ==>
      WellFormedFrame(AsyncReply(open, arrivals).value)
      && (Acknowledged(AsyncReply(open, arrivals)) <==> !Contains(AsyncReply(open, arrivals).value, NakMarker))
  {
    var d := Deliver("", arrivals);
    DeliveredFramesWellFormed("", arrivals);
    if open && d.frames != [] {
      assert d.frames[|d.frames| - 1] in d.frames;
      assert d.frames[0] in d.frames;
      FrameAccepted(d.frames[|d.frames| - 1]);
      FrameAccepted(d.frames[0]);
    }
  }

  /** A reply line arriving whole after a command, noise in front, is what either kind of caller gets. */
  lemma WholeReplyReceived(noise: string, body: string, later: seq<string>)
    requires ':' !in noise && '\r' !in body
    ensures SyncReply(true, [noise + AckMarker + body + LineEnd] + later) == Some(AckMarker + body)
    ensures AsyncReply(true, [noise + AckMarker + body + LineEnd] + later) == Some(AckMarker + body)
  {
    WholeReplyDelivered(noise, body, later);
  }

  /** The controller's negative reply has no `:A`: the call times out instead of reporting the error code. */
  lemma NegativeReplyFails(reply: string)
    requires !Contains(reply, AckMarker) && |reply| <= BufferCap
    ensures SyncReply(true, [reply]) == None && AsyncReply(true, [reply]) == None
    ensures !Acknowledged(SyncReply(true, [reply]))
  {
    NegativeReplyTimesOut(reply);
  }

  class MS2000 {
    /** `_portName`: the port the last successful search settled on; empty stands for none. */
    var portName: string
    /** `_serialPort.PortName` and `_serialPort.IsOpen`. */
    var serialPortName: string
    var isOpen: bool
    /** `_receivedDataforValid` and `_dataReceivedEvent`. */
    var receivedForValid: string
    var validSignaled: bool
    /** `_receiveBuffer`, `_lastResponse`, `_commandTcs` and `_waitHandle`. */
    var receiveBuffer: string
    var lastResponse: string
    var slot: Slot
    var signaled: bool
    /** Everything written to the serial port, in order. */
    var written: seq<string>

    /** The fields the search works on. */
    function Search(): SearchView
      reads this
    {
      SearchView(serialPortName, isOpen, receivedForValid, validSignaled)
    }

    constructor()
      ensures portName == "" && serialPortName == DefaultPortName && !isOpen
      ensures receivedForValid == "" && !validSignaled
      ensures receiveBuffer == "" && lastResponse == "" && slot == NoSlot && !signaled
      ensures written == []
    {
      portName := "";
      serialPortName := DefaultPortName;
      isOpen := false;
      receivedForValid := "";
      validSignaled := false;
      receiveBuffer := "";
      lastResponse := "";
      slot := NoSlot;
      signaled := false;
      written := [];
    }

    // ----- Finding the controller -----

    /** `SerialPort_DataReceived_Valid`: gather the text, wake the search once it holds `\r`. */
    method DataReceivedValid(data: string)
      modifies this
      ensures data == "" ==> receivedForValid == old(receivedForValid) && validSignaled == old(validSignaled)
      ensures data != "" ==> receivedForValid == old(receivedForValid) + data
      ensures data != "" ==> validSignaled == (old(validSignaled) || '\r' in receivedForValid)
      ensures portName == old(portName) && serialPortName == old(serialPortName) && isOpen == old(isOpen)
      ensures receiveBuffer == old(receiveBuffer) && lastResponse == old(lastResponse) && slot == old(slot)
        && signaled == old(signaled) && written == old(written)
    {
      if data != "" {
        receivedForValid := receivedForValid + data;
        if '\r' in receivedForValid {
          validSignaled := true;
        }
      }
    }

    /**
     * One use of a free port by the search: point the port object at it, open
     * it, send the identification request, wait for the answer, close it.
     * `threw` reports that `Open` or `Write` threw, which ends the search.
     */
    method ProbePort(p: PortProbe) returns (answered: bool, threw: bool)
      modifies this
      ensures threw == (p.opening != Opens)
      ensures answered == (!threw && Answers(p))
      ensures Search() == Visited(p)
      ensures written == old(written) + (if threw then [] else [ProbeText])
      ensures portName == old(portName)
      ensures receiveBuffer == old(receiveBuffer) && lastResponse == old(lastResponse)
        && slot == old(slot) && signaled == old(signaled)
    {
      if isOpen {
        isOpen := false;
      }
      serialPortName := p.name;
      validSignaled := false;
      receivedForValid := "";
      if p.opening == OpenThrows {
        return false, true;
      }
      isOpen := true;
      if p.opening == WriteThrows {
        return false, true;
      }
      written := written + [ProbeText];
      var k := 0;
      while k < |p.arrivals| && !validSignaled
        invariant 0 <= k <= |p.arrivals|
        invariant !validSignaled ==> '\r' !in receivedForValid
        invariant !validSignaled ==> Listen("", p.arrivals) == Listen(receivedForValid, p.arrivals[k..])
        invariant validSignaled ==> Listen("", p.arrivals) == Heard(receivedForValid, true)
        invariant serialPortName == p.name && isOpen
        invariant written == old(written) + [ProbeText] && portName == old(portName)
        invariant receiveBuffer == old(receiveBuffer) && lastResponse == old(lastResponse)
          && slot == old(slot) && signaled == old(signaled)
      {
        assert p.arrivals[k..][1..] == p.arrivals[k + 1..];
        DataReceivedValid(p.arrivals[k]);
        k := k + 1;
      }
      answered := validSignaled && receivedForValid != "" && Contains(receivedForValid, Signature);
      threw := false;
      isOpen := false;
    }

    /** One turn of the search: a free port is used, and settled on when it answers. */
    method TryPort(p: PortProbe) returns (settled: bool, threw: bool)
      modifies this
      ensures settled == Identifies(p) && threw == Throws(p)
      ensures portName == (if settled then p.name else old(portName))
      ensures written == old(written) + (if WritesProbe(p) then [ProbeText] else [])
      ensures Search() == (if p.free then Visited(p) else old(Search()))
      ensures receiveBuffer == old(receiveBuffer) && lastResponse == old(lastResponse)
        && slot == old(slot) && signaled == old(signaled)
    {
      settled, threw := false, false;
      if p.free {
        var answered;
        answered, threw := ProbePort(p);
        if answered {
          portName := p.name;
          settled := true;
        }
      }
    }

    /**
     * `Valid("")`: try the free ports in order and settle on the first that
     * answers; fail at once when opening or writing to one throws; otherwise
     * succeed when a port name is on record afterwards.
     */
    method ValidAuto(ports: seq<PortProbe>) returns (ok: bool)
      modifies this
      ensures portName == AutoName(old(portName), ports)
      ensures ok == AutoResult(old(portName), ports)
      ensures written == old(written) + ProbesWritten(ports[..Tried(ports)])
      ensures Search() == AfterTries(old(Search()), ports[..Tried(ports)])
      ensures receiveBuffer == old(receiveBuffer) && lastResponse == old(lastResponse)
        && slot == old(slot) && signaled == old(signaled)
    {
      var i := 0;
      var settled, threw := false, false;
      while i < |ports| && !settled && !threw
        invariant 0 <= i <= |ports|
        invariant !settled && !threw ==> FirstEnding(ports).None? || FirstEnding(ports).value >= i
        invariant settled || threw ==> 0 < i && FirstEnding(ports) == Some(i - 1)
        invariant settled ==> Identifies(ports[i - 1])
        invariant threw ==> Throws(ports[i - 1])
        invariant portName == (if settled then ports[i - 1].name else old(portName))
        invariant written == old(written) + ProbesWritten(ports[..i])
        invariant Search() == AfterTries(old(Search()), ports[..i])
        invariant receiveBuffer == old(receiveBuffer) && lastResponse == old(lastResponse)
          && slot == old(slot) && signaled == old(signaled)
      {
        TryStep(ports, i);
        settled, threw := TryPort(ports[i]);
        i := i + 1;
      }
      if !settled && !threw {
        assert FirstEnding(ports).None?;
      }
      assert i == Tried(ports);
      ok := !threw && portName != "";
    }

    /**
     * `Valid(com)` for a named port: a busy port fails at once; a port that
     * throws fails; otherwise the port is tried, and the result is whether a
     * port name is on record, so a name from an earlier search makes a port
     * that did not answer succeed.
     */
    method ValidExplicit(p: PortProbe) returns (ok: bool)
      modifies this
      ensures !p.free ==> ok == false && unchanged(this)
      ensures p.free ==>
        && portName == (if Identifies(p) then p.name else old(portName))
        && ok == (Identifies(p) || (p.opening == Opens && old(portName) != ""))
        && Search() == Visited(p)
        && written == old(written) + (if p.opening == Opens then [ProbeText] else [])
      ensures receiveBuffer == old(receiveBuffer) && lastResponse == old(lastResponse)
        && slot == old(slot) && signaled == old(signaled)
    {
      if !p.free {
        return false;
      }
      var answered, threw := ProbePort(p);
      if threw {
        return false;
      }
      if answered {
        portName := p.name;
        return true;
      }
      ok := portName != "";
    }

    /**
     * `OpenCom(com)`: search (all ports when `com` is empty, else the port
     * named `com`, described by `comFree`, `comOpening` and `comArrivals`),
     * then open the port object. Opening a port object the search left open
     * throws out of `OpenCom`.
     */
    method OpenCom(com: string, ports: seq<PortProbe>, comFree: bool, comOpening: Opening, comArrivals: seq<string>)
      returns (r: Connection)
      modifies this
      ensures var w := ValidVerdict(com, old(portName), old(Search()), ports, PortProbe(com, comFree, comOpening, comArrivals));
        && portName == w.portName
        && written == old(written) + w.written
        && r == (if !w.ok then NotConnected else if w.view.isOpen then ReopenThrows else Connected)
        && Search() == (if r == Connected then w.view.(isOpen := true) else w.view)
      ensures receiveBuffer == old(receiveBuffer) && lastResponse == old(lastResponse)
        && slot == old(slot) && signaled == old(signaled)
    {
      var ok;
      if com == "" {
        ok := ValidAuto(ports);
      } else {
        ok := ValidExplicit(PortProbe(com, comFree, comOpening, comArrivals));
      }
      if !ok {
        r := NotConnected;
      } else if isOpen {
        r := ReopenThrows;
      } else {
        isOpen := true;
        r := Connected;
      }
    }

    /** `DisConnect`: forget the port name and close the port. */
    method DisConnect() returns (ok: bool)
      modifies this
      ensures ok && portName == "" && !isOpen
      ensures serialPortName == old(serialPortName)
      ensures receivedForValid == old(receivedForValid) && validSignaled == old(validSignaled)
      ensures receiveBuffer == old(receiveBuffer) && lastResponse == old(lastResponse) && slot == old(slot)
        && signaled == old(signaled) && written == old(written)
    {
      portName := "";
      isOpen := false;
      ok := true;
    }

    // ----- The command engine -----

    /**
     * `SerialPort_DataReceived`: append the piece to the buffer, then cut
     * frames from the first `:A` to the next `\r\n` while there are any; each
     * frame becomes the last response, completes a waiting slot and wakes
     * the synchronous caller. An oversized remainder is thrown away.
     */
    method DataReceived(data: string)
      modifies this
      ensures var x := Extract(old(receiveBuffer) + data);
        && receiveBuffer == Capped(x.rest)
        && lastResponse == LastOr(x.frames, old(lastResponse))
        && slot == Settle(old(slot), x.frames)
        && signaled == (old(signaled) || x.frames != [])
      ensures portName == old(portName) && serialPortName == old(serialPortName) && isOpen == old(isOpen)
      ensures written == old(written) && receivedForValid == old(receivedForValid)
        && validSignaled == old(validSignaled)
    {
      // The fields are worked on through locals and written back once the loop is done.
      var buffer := receiveBuffer + data;
      var last := lastResponse;
      var waiting := slot;
      var woke := signaled;
      ghost var start := buffer;
      ghost var seen: seq<string> := [];
      while true
        invariant Extract(start).frames == seen + Extract(buffer).frames
        invariant Extract(start).rest == Extract(buffer).rest
        invariant last == LastOr(seen, old(lastResponse))
        invariant waiting == Settle(old(slot), seen)
        invariant woke == (old(signaled) || seen != [])
        modifies {}
        decreases |buffer|
      {
        var startIndex := IndexOf(buffer, AckMarker, 0);
        if startIndex < 0 {
          break;
        }
        var endIndex := IndexOf(buffer, LineEnd, startIndex);
        if endIndex < 0 {
          break;
        }
        ghost var before := buffer;
        assert NextFrame(before) == Some((startIndex, endIndex));
        var frame := buffer[startIndex..endIndex];
        buffer := buffer[endIndex + 2..];
        last := frame;
        if waiting == Pending {
          waiting := Resolved(frame);
        }
        woke := true;
        CutStep(start, seen, before, startIndex, endIndex);
        SettleOne(old(slot), seen, frame);
        seen := seen + [frame];
      }
      ExtractNone(buffer);
      if |buffer| > BufferCap {
        buffer := "";
      }
      receiveBuffer, lastResponse, slot, signaled := buffer, last, waiting, woke;
    }

    /**
     * The new state after a synchronous exchange on an open port: the command
     * went out, and the engine ran over the pieces up to the one that woke the
     * caller (all of them when it timed out), from a cleared buffer and response.
     */
    twostate predicate SyncExchange(command: string, arrivals: seq<string>)
      reads this
    {
      var d := Deliver("", arrivals);
      && written == old(written) + [command + "\r"]
      && receiveBuffer == d.rest
      && lastResponse == LastOr(d.frames, "")
      && slot == Settle(old(slot), d.frames)
      && signaled == (d.frames != [])
      && portName == old(portName) && serialPortName == old(serialPortName) && isOpen == old(isOpen)
      && receivedForValid == old(receivedForValid) && validSignaled == old(validSignaled)
    }

    /**
     * The same for an asynchronous exchange: a fresh slot waits for the first
     * frame; the last response and the wake-up signal are not reset.
     */
    twostate predicate AsyncExchange(command: string, arrivals: seq<string>)
      reads this
    {
      var d := Deliver("", arrivals);
      && written == old(written) + [command + "\r"]
      && receiveBuffer == d.rest
      && lastResponse == LastOr(d.frames, old(lastResponse))
      && slot == Settle(Pending, d.frames)
      && signaled == (old(signaled) || d.frames != [])
      && portName == old(portName) && serialPortName == old(serialPortName) && isOpen == old(isOpen)
      && receivedForValid == old(receivedForValid) && validSignaled == old(validSignaled)
    }

    /**
     * `SendCommand`: clear the last response, the wake-up signal and the
     * buffer, write the command, and wait; the caller gets the last response
     * when it wakes and fails on a time-out. On a closed port the method
     * throws, which every caller turns into a failure; here it fails at once.
     */
    method SendCommand(command: string, arrivals: seq<string>) returns (ok: bool, respond: string)
      modifies this
      ensures ok == SyncReply(old(isOpen), arrivals).Some?
      ensures respond == (if ok then SyncReply(old(isOpen), arrivals).value else "")
      ensures ok ==> respond != ""
      ensures !old(isOpen) ==> unchanged(this)
      ensures old(isOpen) ==> SyncExchange(command, arrivals)
    {
      if !isOpen {
        return false, "";
      }
      lastResponse := "";
      signaled := false;
      receiveBuffer := "";
      written := written + [command + "\r"];
      ghost var d := Deliver("", arrivals);
      var k := 0;
      while k < |arrivals| && !signaled
        invariant 0 <= k <= |arrivals|
        invariant !signaled ==> (d == Deliver(receiveBuffer, arrivals[k..]) && lastResponse == "" && slot == old(slot))
        invariant signaled ==> (d.frames != [] && receiveBuffer == d.rest
          && lastResponse == LastOr(d.frames, "") && slot == Settle(old(slot), d.frames))
        invariant written == old(written) + [command + "\r"]
        invariant portName == old(portName) && serialPortName == old(serialPortName) && isOpen
        invariant receivedForValid == old(receivedForValid) && validSignaled == old(validSignaled)
      {
        DeliverAt(receiveBuffer, arrivals, k);
        DataReceived(arrivals[k]);
        k := k + 1;
      }
      if signaled {
        LastFrameNotEmpty(arrivals);
        respond := lastResponse;
        ok := respond != "";
      } else {
        ok, respond := false, "";
      }
    }

    /**
     * `SendCommandAsync`: create a waiting slot, clear the buffer, write the
     * command, and wait for the slot to complete; the caller gets the frame
     * that completed it, or `(false, "")` on a time-out. A closed port fails.
     */
    method SendCommandAsync(command: string, arrivals: seq<string>) returns (ok: bool, response: string)
      modifies this
      ensures ok == AsyncReply(old(isOpen), arrivals).Some?
      ensures response == (if ok then AsyncReply(old(isOpen), arrivals).value else "")
      ensures !old(isOpen) ==> unchanged(this)
      ensures old(isOpen) ==> AsyncExchange(command, arrivals)
    {
      if !isOpen {
        return false, "";
      }
      slot := Pending;
      receiveBuffer := "";
      written := written + [command + "\r"];
      ghost var d := Deliver("", arrivals);
      var k := 0;
      while k < |arrivals| && !slot.Resolved?
        invariant 0 <= k <= |arrivals|
        invariant !slot.Resolved? ==> (d == Deliver(receiveBuffer, arrivals[k..]) && slot == Pending
          && lastResponse == old(lastResponse) && signaled == old(signaled))
        invariant slot.Resolved? ==> (d.frames != [] && receiveBuffer == d.rest
          && slot == Resolved(d.frames[0])
          && lastResponse == LastOr(d.frames, old(lastResponse)) && signaled)
        invariant written == old(written) + [command + "\r"]
        invariant portName == old(portName) && serialPortName == old(serialPortName) && isOpen
        invariant receivedForValid == old(receivedForValid) && validSignaled == old(validSignaled)
      {
        DeliverAt(receiveBuffer, arrivals, k);
        DataReceived(arrivals[k]);
        k := k + 1;
      }
      if slot.Resolved? {
        ok, response := true, slot.frame;
      } else {
        ok, response := false, "";
      }
    }

    // ----- Operations -----

    /** A synchronous command whose only result is whether it came back acknowledged. */
    method Exchange(command: string, arrivals: seq<string>) returns (accepted: bool)
      modifies this
      ensures accepted == Acknowledged(SyncReply(old(isOpen), arrivals))
      ensures !old(isOpen) ==> unchanged(this)
      ensures old(isOpen) ==> SyncExchange(command, arrivals)
    {
      var ok, resp := SendCommand(command, arrivals);
      if !ok {
        return false;
      }
      if !CheckReturnMsg(resp) {
        return false;
      }
      return true;
    }

    /** The same through the asynchronous engine: the move and homing commands. */
    method ExchangeAsync(command: string, arrivals: seq<string>) returns (accepted: bool)
      modifies this
      ensures accepted == Acknowledged(AsyncReply(old(isOpen), arrivals))
      ensures !old(isOpen) ==> unchanged(this)
      ensures old(isOpen) ==> AsyncExchange(command, arrivals)
    {
      var ok, resp := SendCommandAsync(command, arrivals);
      if ok {
        if !CheckReturnMsg(resp) {
          return false;
        }
        return true;
      }
      return false;
    }

    /** `GetVersion`: `V`; the version is the acknowledged reply, the flag says whether it is empty. */
    method GetVersion(arrivals: seq<string>) returns (r: Queries.VersionResult)
      modifies this
      ensures r == Queries.GetVersion(SyncReply(old(isOpen), arrivals))
      ensures !old(isOpen) ==> unchanged(this)
      ensures old(isOpen) ==> SyncExchange(VersionCommand, arrivals)
    {
      var ok, respond := SendCommand(VersionCommand, arrivals);
      if !ok || !CheckReturnMsg(respond) {
        return Queries.VersionResult(false, "");
      }
      r := Queries.VersionResult(respond == "", respond);
    }

    /** `GetPosition`: `W X Y Z`, then the loop that fills the positions. */
    method GetPosition(axes: seq<nat>, arrivals: seq<string>) returns (q: Queries.Query<int>)
      modifies this
      ensures q == Queries.GetPosition(axes, SyncReply(old(isOpen), arrivals))
      ensures !old(isOpen) ==> unchanged(this)
      ensures old(isOpen) ==> SyncExchange(PositionQuery(axes), arrivals)
    {
      var ok, resp := SendCommand(PositionQuery(axes), arrivals);
      if !ok || !CheckReturnMsg(resp) {
        return Queries.Query(false, map[]);
      }
      var positions := Queries.DecodePositionsLoop(axes, resp);
      q := Queries.Query(true, positions);
    }

    /** `GetAxisState`: `RS X- Y-`, then the loop that fills the states. */
    method GetAxisState(axes: seq<nat>, arrivals: seq<string>) returns (q: Queries.Query<string>)
      modifies this
      ensures q == Queries.GetAxisState(axes, SyncReply(old(isOpen), arrivals))
      ensures !old(isOpen) ==> unchanged(this)
      ensures old(isOpen) ==> SyncExchange(AxisStateQuery(axes), arrivals)
    {
      var ok, resp := SendCommand(AxisStateQuery(axes), arrivals);
      if !ok || !CheckReturnMsg(resp) {
        return Queries.Query(false, map[]);
      }
      var states := Queries.DecodeStatesLoop(axes, resp);
      q := Queries.Query(true, states);
    }

    /** `IsAxisMoving`: `RS X? Y?`, then the loop that fills the moving flags. */
    method IsAxisMoving(axes: seq<nat>, arrivals: seq<string>) returns (q: Queries.Query<bool>)
      modifies this
      ensures q == Queries.IsAxisMoving(axes, SyncReply(old(isOpen), arrivals))
      ensures !old(isOpen) ==> unchanged(this)
      ensures old(isOpen) ==> SyncExchange(MovingQuery(axes), arrivals)
    {
      var ok, resp := SendCommand(MovingQuery(axes), arrivals);
      if !ok || !CheckReturnMsg(resp) {
        return Queries.Query(false, map[]);
      }
      var moving := Queries.DecodeMovingLoop(axes, resp);
      q := Queries.Query(true, moving);
    }

    /** `GetSpeed`: nothing is sent for an unknown axis; otherwise `S X?` and the first number of the reply. */
    method GetSpeed(axis: nat, arrivals: seq<string>) returns (ok: bool, speed: real)
      modifies this
      ensures !IsAxisId(axis) ==> !ok && speed == 0.0 && unchanged(this)
      ensures IsAxisId(axis) ==> (ok, speed) == Queries.ReadSpeed(SyncReply(old(isOpen), arrivals))
      ensures IsAxisId(axis) && !old(isOpen) ==> unchanged(this)
      ensures IsAxisId(axis) && old(isOpen) ==> SyncExchange(SpeedQuery(axis).value, arrivals)
    {
      var command := SpeedQuery(axis);
      if command.None? {
        return false, 0.0;
      }
      var sent, resp := SendCommand(command.value, arrivals);
      if !sent || !CheckReturnMsg(resp) {
        return false, 0.0;
      }
      ok := true;
      speed := 0.0;
      var found := FirstDecimal(Queries.SpeedPayload(resp));
      if found.Some? {
        speed := found.value;
      }
    }

    /** `SetSpeed`: nothing is sent for an unknown axis; otherwise `S X=<speed>` must be acknowledged. */
    method SetSpeed(axis: nat, speedText: string, arrivals: seq<string>) returns (accepted: bool)
      modifies this
      ensures !IsAxisId(axis) ==> !accepted && unchanged(this)
      ensures IsAxisId(axis) ==> accepted == Acknowledged(SyncReply(old(isOpen), arrivals))
      ensures IsAxisId(axis) && !old(isOpen) ==> unchanged(this)
      ensures IsAxisId(axis) && old(isOpen) ==> SyncExchange(SpeedCommand(axis, speedText).value, arrivals)
    {
      var command := SpeedCommand(axis, speedText);
      if command.None? {
        return false;
      }
      accepted := Exchange(command.value, arrivals);
    }

    /** `ResetParam`: `RESET`, acknowledged. */
    method ResetParam(arrivals: seq<string>) returns (accepted: bool)
      modifies this
      ensures accepted == Acknowledged(SyncReply(old(isOpen), arrivals))
      ensures !old(isOpen) ==> unchanged(this)
      ensures old(isOpen) ==> SyncExchange(ResetCommand, arrivals)
    {
      accepted := Exchange(ResetCommand, arrivals);
    }

    /** `SetHome`: `Z` makes the current position the zero, acknowledged. */
    method SetHome(arrivals: seq<string>) returns (accepted: bool)
      modifies this
      ensures accepted == Acknowledged(SyncReply(old(isOpen), arrivals))
      ensures !old(isOpen) ==> unchanged(this)
      ensures old(isOpen) ==> SyncExchange(SetZeroCommand, arrivals)
    {
      accepted := Exchange(SetZeroCommand, arrivals);
    }

    /** `Half`: the emergency stop `HALT`, acknowledged. */
    method Half(arrivals: seq<string>) returns (accepted: bool)
      modifies this
      ensures accepted == Acknowledged(SyncReply(old(isOpen), arrivals))
      ensures !old(isOpen) ==> unchanged(this)
      ensures old(isOpen) ==> SyncExchange(HaltCommand, arrivals)
    {
      accepted := Exchange(HaltCommand, arrivals);
    }

    /** `AbsoluteMoveAsync`: `M X = .. Y = ..` with the targets in ticks, acknowledged. */
    method AbsoluteMoveAsync(targets: seq<(nat, int)>, arrivals: seq<string>) returns (accepted: bool)
      modifies this
      ensures accepted == Acknowledged(AsyncReply(old(isOpen), arrivals))
      ensures !old(isOpen) ==> unchanged(this)
      ensures old(isOpen) ==> AsyncExchange(AbsoluteMoveCommand(targets), arrivals)
    {
      accepted := ExchangeAsync(AbsoluteMoveCommand(targets), arrivals);
    }

    /** `RelativeMoveAsync`: nothing is sent for an unknown axis; otherwise `R X=<ticks>`, acknowledged. */
    method RelativeMoveAsync(axis: nat, ticks: int, arrivals: seq<string>) returns (accepted: bool)
      modifies this
      ensures !IsAxisId(axis) ==> !accepted && unchanged(this)
      ensures IsAxisId(axis) ==> accepted == Acknowledged(AsyncReply(old(isOpen), arrivals))
      ensures IsAxisId(axis) && !old(isOpen) ==> unchanged(this)
      ensures IsAxisId(axis) && old(isOpen) ==> AsyncExchange(RelativeMoveCommand(axis, ticks).value, arrivals)
    {
      var command := RelativeMoveCommand(axis, ticks);
      if command.None? {
        return false;
      }
      accepted := ExchangeAsync(command.value, arrivals);
    }

    /** `OriginHomeAsync`: `SI X Y`, acknowledged. */
    method OriginHomeAsync(ids: seq<nat>, arrivals: seq<string>) returns (accepted: bool)
      modifies this
      ensures accepted == Acknowledged(AsyncReply(old(isOpen), arrivals))
      ensures !old(isOpen) ==> unchanged(this)
      ensures old(isOpen) ==> AsyncExchange(OriginHomeCommand(ids), arrivals)
    {
      accepted := ExchangeAsync(OriginHomeCommand(ids), arrivals);
    }

    /** `HomeAsync`: `! X Y`, acknowledged. */
    method HomeAsync(ids: seq<nat>, arrivals: seq<string>) returns (accepted: bool)
      modifies this
      ensures accepted == Acknowledged(AsyncReply(old(isOpen), arrivals))
      ensures !old(isOpen) ==> unchanged(this)
      ensures old(isOpen) ==> AsyncExchange(HomeCommand(ids), arrivals)
    {
      accepted := ExchangeAsync(HomeCommand(ids), arrivals);
    }
  }

  /** Trying one more port: it becomes the last free one when it is free, and a request is written when it opens. */
  lemma TryStep(ports: seq<PortProbe>, i: nat)
    requires i < |ports|
    ensures LastFree(ports[..i + 1]) == if ports[i].free then Some(i) else LastFree(ports[..i])
    ensures ProbesWritten(ports[..i + 1]) == ProbesWritten(ports[..i]) + (if WritesProbe(ports[i]) then [ProbeText] else [])
  {
    assert ports[..i + 1][..i] == ports[..i];
  }

  /** One pass of the receive loop keeps the account of the frames handed out so far. */
  lemma CutStep(start: string, seen: seq<string>, before: string, s: nat, e: nat)
    requires NextFrame(before) == Some((s, e))
    requires Extract(start).frames == seen + Extract(before).frames
    requires Extract(start).rest == Extract(before).rest
    ensures Extract(start).frames == (seen + [before[s..e]]) + Extract(before[e + 2..]).frames
    ensures Extract(start).rest == Extract(before[e + 2..]).rest
  {
    ExtractStep(before);
    AppendAssoc(seen, before[s..e], Extract(before[e + 2..]).frames);
  }

  lemma AppendAssoc<T>(a: seq<T>, x: T, b: seq<T>)
    ensures a + ([x] + b) == (a + [x]) + b
  {
  }

  /** Handing out one more frame: the slot settles as it would for the longer list. */
  lemma SettleOne(slot: Slot, seen: seq<string>, frame: string)
    ensures Settle(Settle(slot, seen), [frame]) == Settle(slot, seen + [frame])
  {
    SettleAppend(slot, seen, [frame]);
  }
}
