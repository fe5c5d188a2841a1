/**
 * The `MS2000ASIMotor` class of ASI/MS2000ASIMotor.cs: the cached axis
 * positions and limit flags, the refresh timer (a flag: running or not), the
 * cancellation scope of the current move, the three move-until-done poll loops
 * and `Stop`.
 *
 * The motor talks to the controller through the driver; here every driver
 * call is one exchange whose outcome comes from a script: the reply the driver
 * hands back (`None` for a time-out or a closed port) and whether a `Stop` from
 * another thread cancelled the current move meanwhile. The commands the motor
 * has the driver send are logged in order.
 */
module Motor {
  import opened Options
  import opened Numbers
  import opened Protocol
  import opened Queries

  /** The outcome of one exchange: the reply, and whether a concurrent `Stop` cancelled the move scope meanwhile. */
  datatype Answer = Answer(reply: Option<string>, stopMeanwhile: bool)

  /** The outcome of the next exchange; once the script is used up, every exchange times out. */
  function Head(script: seq<Answer>): Answer
  {
    if script == [] then Answer(None, false) else script[0]
  }

  function Tail(script: seq<Answer>): seq<Answer>
  {
    if script == [] then [] else script[1..]
  }

  /** The properties `X`, `Y`, `Z` (in ticks) and `XLimit`, `YLimit`, `ZLimit`. */
  datatype Cache = Cache(x: int, y: int, z: int, xLimit: bool, yLimit: bool, zLimit: bool)

  /** The whole state of the motor object. */
  datatype MotorState = MotorState(
    cache: Cache,
    refreshing: bool,   // the 200 ms refresh timer is running
    scope: bool,        // `_ctsMove` exists
    cancelled: bool,    // `_ctsMove` has been cancelled
    script: seq<Answer>,
    sent: seq<string>)

  /** One exchange: the command is sent, the script advances, a concurrent `Stop` cancels the scope if there is one. */
  function Exchanged(m: MotorState, command: string): MotorState
  {
    var a := Head(m.script);
    m.(cancelled := m.cancelled || (a.stopMeanwhile && m.scope), script := Tail(m.script), sent := m.sent + [command])
  }

  // ----- The cached state -----

  /** `GetPostionandRefresh` once the reply is in: the positions change only on a reply with all three axes. */
  function RefreshPosition(c: Cache, reply: Option<string>): (r: Cache)
    ensures r.xLimit == c.xLimit && r.yLimit == c.yLimit && r.zLimit == c.zLimit
  {
    var q := GetPosition(AllAxes, reply);
    if !q.ok || |q.values| != 3 then c
    else
      FullPositionReply(reply);
      c.(x := q.values[1], y := q.values[2], z := q.values[3])
  }

  /** `GetLimitStateandRefresh` once the reply is in: the flags change only on a reply with all three axes. */
  function RefreshLimits(c: Cache, reply: Option<string>): (r: Cache)
    ensures r.x == c.x && r.y == c.y && r.z == c.z
  {
    var q := GetAxisState(AllAxes, reply);
    if !q.ok || |q.values| != 3 then c
    else
      FullStateReply(reply);
      c.(xLimit := IsLimit(q.values[1]), yLimit := IsLimit(q.values[2]), zLimit := IsLimit(q.values[3]))
  }

  /** A dictionary keyed by the three axes with three entries has all of them. */
  lemma ThreeKeys<V>(m: map<nat, V>)
    requires forall k :: k in m ==> k in AllAxes
    requires |m| == 3
    ensures 1 in m && 2 in m && 3 in m
  {
    assert m.Keys <= {1, 2, 3} by {
      forall k | k in m
        ensures k in {1, 2, 3}
      {
        assert k in AllAxes;
      }
    }
    if 1 !in m {
      CardWithin(m.Keys, 2, 3);
    } else if 2 !in m {
      CardWithin(m.Keys, 1, 3);
    } else if 3 !in m {
      CardWithin(m.Keys, 1, 2);
    }
  }

  /** An acknowledged reply whose first three tokens parse as 32-bit integers. */
  predicate ThreePositions(reply: Option<string>)
  {
    Acknowledged(reply) &&
    var toks := PositionTokens(reply.value);
    |toks| >= 3 && ParseInt32(toks[0]).Some? && ParseInt32(toks[1]).Some? && ParseInt32(toks[2]).Some?
  }

  /** The positions are replaced by the first three tokens of such a reply, and kept otherwise. */
  lemma PositionRefreshed(c: Cache, reply: Option<string>)
    ensures ThreePositions(reply) ==>
      var toks := PositionTokens(reply.value);
      RefreshPosition(c, reply) ==
        c.(x := ParseInt32(toks[0]).value, y := ParseInt32(toks[1]).value, z := ParseInt32(toks[2]).value)
    ensures !ThreePositions(reply) ==> RefreshPosition(c, reply) == c
  {
    FullPositionReply(reply);
  }

  /** An acknowledged reply carrying at least three state letters. */
  predicate ThreeStates(reply: Option<string>)
  {
    Acknowledged(reply) && |StatePayload(reply.value)| >= 3
  }

  /** Each limit flag is set exactly when that axis's state letter is `L` or `U`; otherwise all are kept. */
  lemma LimitsRefreshed(c: Cache, reply: Option<string>)
    ensures ThreeStates(reply) ==>
      var p := StatePayload(reply.value);
      RefreshLimits(c, reply) == c.(
        xLimit := p[0] == 'L' || p[0] == 'U',
        yLimit := p[1] == 'L' || p[1] == 'U',
        zLimit := p[2] == 'L' || p[2] == 'U')
    ensures !ThreeStates(reply) ==> RefreshLimits(c, reply) == c
  {
    FullStateReply(reply);
  }

  /** A controller reporting three positions in its own reply format updates all three, exactly. */
  lemma RefreshFromPositionReply(c: Cache, x: int, y: int, z: int)
    requires Int32Min <= x <= Int32Max && Int32Min <= y <= Int32Max && Int32Min <= z <= Int32Max
    ensures RefreshPosition(c, Some(PositionReply([x, y, z]))) == c.(x := x, y := y, z := z)
  {
    var reply := Some(PositionReply([x, y, z]));
    PositionReplyRoundTrip(AllAxes, [x, y, z]);
    var q := GetPosition(AllAxes, reply);
    var m := DecodePositions(AllAxes, reply.value);
    assert AllAxes[0] == 1 && AllAxes[1] == 2 && AllAxes[2] == 3;
    assert m.Keys == {1, 2, 3};
  }

  // ----- The poll loop -----

  /** How a move-until-done ends. */
  datatype Exit = Rejected | QueryFailed | Cancelled | Settled

  /** The exit, the last moving-state query (a failed one when none was made), and the state at the end. */
  datatype Outcome = Outcome(exit: Exit, last: Query<bool>, state: MotorState)

  /** One round of the poll loop either ends it or hands on to the next round. */
  datatype RoundResult = Finished(outcome: Outcome) | Continue(next: MotorState)

  /** What ending the poll loop that started from `m` guarantees. */
  predicate Ends(o: Outcome, m: MotorState)
  {
    && o.exit != Rejected
    && (o.exit == Settled ==> o.last.ok && AllStopped(o.last.values))
    && (o.exit == QueryFailed ==> !o.last.ok)
    && (o.exit == Cancelled ==> o.state.cancelled)
    && o.state.refreshing == m.refreshing && o.state.scope == m.scope
    && |o.state.script| <= |m.script|
  }

  /** A part of a round from `m`: it ends the loop as above, or goes on having used up at least one answer. */
  predicate Steps(r: RoundResult, m: MotorState)
  {
    match r
    case Finished(o) => Ends(o, m)
    case Continue(n) => n.refreshing == m.refreshing && n.scope == m.scope && |n.script| < |m.script|
  }

  /** The cancellation check at the top of the `while (true)` loop, then the position refresh. */
  function Round(m: MotorState, axes: seq<nat>): (r: RoundResult)
    ensures Steps(r, m)
    ensures m.cancelled ==> r == Finished(Outcome(Cancelled, Query(false, map[]), m))
  {
    if m.cancelled then Finished(Outcome(Cancelled, Query(false, map[]), m))
    else LimitsPart(Exchanged(m, PositionQuery(AllAxes)).(cache := RefreshPosition(m.cache, Head(m.script).reply)), axes)
  }

  /** The second cancellation check, then the limit refresh. */
  function LimitsPart(m: MotorState, axes: seq<nat>): (r: RoundResult)
    ensures Steps(r, m)
  {
    if m.cancelled then Finished(Outcome(Cancelled, Query(false, map[]), m))
    else MovingPart(Exchanged(m, AxisStateQuery(AllAxes)).(cache := RefreshLimits(m.cache, Head(m.script).reply)), axes)
  }

  /** The third cancellation check, then the moving-state query that ends the loop or lets it go on. */
  function MovingPart(m: MotorState, axes: seq<nat>): (r: RoundResult)
    ensures Steps(r, m)
  {
    if m.cancelled then Finished(Outcome(Cancelled, Query(false, map[]), m))
    else
      var q := IsAxisMoving(axes, Head(m.script).reply);
      var next := Exchanged(m, MovingQuery(axes));
      if !q.ok then Finished(Outcome(QueryFailed, q, next))
      else if AllStopped(q.values) then Finished(Outcome(Settled, q, next))
      else
        assert m.script != [];
        Continue(next)
  }

  /**
   * The `while (true)` loop shared by the three moves: rounds until one ends it;
   * it stops on a cancellation, a failed moving-state query, or all axes stopped.
   */
  function PollUntilDone(m: MotorState, axes: seq<nat>): (o: Outcome)
    decreases |m.script|
    ensures Ends(o, m)
    ensures m.cancelled ==> o == Outcome(Cancelled, Query(false, map[]), m)
  {
    match Round(m, axes)
    case Finished(o) => o
    case Continue(n) => PollUntilDone(n, axes)
  }

  /**
   * A device that answers the first round without interference and reports
   * every polled axis stopped ends the loop after exactly that round.
   */
  lemma FirstRoundSettles(m: MotorState, axes: seq<nat>)
    requires !m.cancelled && |m.script| >= 3
    requires !m.script[0].stopMeanwhile && !m.script[1].stopMeanwhile
    requires IsAxisMoving(axes, m.script[2].reply).ok && AllStopped(IsAxisMoving(axes, m.script[2].reply).values)
    ensures var o := PollUntilDone(m, axes);
      && o.exit == Settled
      && o.state.sent == m.sent + [PositionQuery(AllAxes), AxisStateQuery(AllAxes), MovingQuery(axes)]
      && o.state.script == m.script[3..]
      && o.state.cache == RefreshLimits(RefreshPosition(m.cache, m.script[0].reply), m.script[1].reply)
  {
    var m1 := Exchanged(m, PositionQuery(AllAxes)).(cache := RefreshPosition(m.cache, Head(m.script).reply));
    assert m1.script == m.script[1..] && !m1.cancelled;
    assert Head(m1.script) == m.script[1];
    var m2 := Exchanged(m1, AxisStateQuery(AllAxes)).(cache := RefreshLimits(m1.cache, Head(m1.script).reply));
    assert m2.script == m.script[2..] && !m2.cancelled;
    assert Head(m2.script) == m.script[2];
    var m3 := Exchanged(m2, MovingQuery(axes));
    assert m3.script == m.script[3..];
    var c1, c2, c3 := PositionQuery(AllAxes), AxisStateQuery(AllAxes), MovingQuery(axes);
    assert m3.sent == ((m.sent + [c1]) + [c2]) + [c3];
    AppendThree(m.sent, c1, c2, c3);
    assert MovingPart(m2, axes) == Finished(Outcome(Settled, IsAxisMoving(axes, m.script[2].reply), m3));
    assert LimitsPart(m1, axes) == MovingPart(m2, axes);
    assert Round(m, axes) == LimitsPart(m1, axes);
  }

  lemma AppendThree<T>(s: seq<T>, a: T, b: T, c: T)
    ensures ((s + [a]) + [b]) + [c] == s + [a, b, c]
  {
  }

  /** Moving-state replies that keep failing end the loop in the first round that is not cancelled. */
  lemma TimeOutFailsPoll(m: MotorState, axes: seq<nat>)
    requires !m.cancelled && m.script == []
    ensures var o := PollUntilDone(m, axes);
      && o.exit == QueryFailed
      && o.state.sent == m.sent + [PositionQuery(AllAxes), AxisStateQuery(AllAxes), MovingQuery(axes)]
      && o.state.cache == m.cache
  {
    RefreshPositionTimeOut(m.cache);
    RefreshLimitsTimeOut(m.cache);
  }

  lemma RefreshPositionTimeOut(c: Cache)
    ensures RefreshPosition(c, None) == c
  {
    PositionRefreshed(c, None);
  }

  lemma RefreshLimitsTimeOut(c: Cache)
    ensures RefreshLimits(c, None) == c
  {
    LimitsRefreshed(c, None);
  }

  // ----- The moves -----

  datatype MoveKind = AbsoluteMove | RelativeMove | OriginHome

  /**
   * A move until done: open a new cancellation scope; stop the refresher
   * (absolute move and homing only); send the move command (`None`: nothing is
   * sent, the relative move of an unknown axis); fail if it is not
   * acknowledged; otherwise poll. A failed query restarts the refresher; a
   * settled move restarts it except after homing; a cancelled one leaves it.
   */
  function Move(kind: MoveKind, command: Option<string>, axes: seq<nat>, m: MotorState): (o: Outcome)
    ensures o.state.scope
    ensures (o.exit == Rejected || o.exit == Cancelled) ==> o.state.refreshing == (kind == RelativeMove && m.refreshing)
    ensures o.exit == QueryFailed ==> o.state.refreshing
    ensures o.exit == Settled ==> o.state.refreshing == (kind != OriginHome)
    ensures o.exit == Settled ==> o.last.ok && AllStopped(o.last.values)
    ensures command.None? ==> o.exit == Rejected && o.state.sent == m.sent && o.state.script == m.script
    ensures command.Some? && !Acknowledged(Head(m.script).reply) ==>
      o.exit == Rejected && o.state.sent == m.sent + [command.value]
  {
    var m0 := m.(scope := true, cancelled := false, refreshing := kind == RelativeMove && m.refreshing);
    if command.None? then Outcome(Rejected, Query(false, map[]), m0)
    else
      var m1 := Exchanged(m0, command.value);
      if !Acknowledged(Head(m0.script).reply) then Outcome(Rejected, Query(false, map[]), m1)
      else
        Conclude(kind, PollUntilDone(m1, axes))
  }

  /** After the poll loop: a failed query restarts the refresher, and so does a settled move other than homing. */
  function Conclude(kind: MoveKind, o: Outcome): (r: Outcome)
    ensures r.exit == o.exit && r.last == o.last
    ensures r.state == o.state.(refreshing := r.state.refreshing)
    ensures r.state.refreshing == (o.exit == QueryFailed || (o.exit == Settled && kind != OriginHome) || o.state.refreshing)
  {
    if o.exit == QueryFailed || (o.exit == Settled && kind != OriginHome) then o.(state := o.state.(refreshing := true))
    else o
  }

  /** Opening the scope first does not change the move: it opens the same scope again. */
  lemma MoveFromOpenScope(kind: MoveKind, command: Option<string>, axes: seq<nat>, m: MotorState)
    ensures Move(kind, command, axes, m)
      == Move(kind, command, axes, m.(scope := true, cancelled := false, refreshing := kind == RelativeMove && m.refreshing))
  {
  }

  /** The axes an absolute move polls: the keys of the target dictionary, in order. */
  function TargetAxes(targets: seq<(nat, int)>): (axes: seq<nat>)
    ensures |axes| == |targets| && forall i :: 0 <= i < |targets| ==> axes[i] == targets[i].0
  {
    seq(|targets|, i requires 0 <= i < |targets| => targets[i].0)
  }

  // ----- Stop -----

  /** `Stop`: cancel the current scope, stop the refresher, send `HALT`, restart the refresher. */
  function Stopped(m: MotorState): (r: MotorState)
    ensures r.refreshing && r.scope == m.scope && r.cache == m.cache
    ensures r.cancelled == (m.cancelled || m.scope)
    ensures r.sent == m.sent + [HaltCommand]
  {
    var m1 := m.(cancelled := m.cancelled || m.scope, refreshing := false);
    Exchanged(m1, HaltCommand).(refreshing := true)
  }

  /** A `Stop` during a move makes the poll loop end at its next checkpoint, without sending anything. */
  lemma StopEndsPoll(m: MotorState, axes: seq<nat>)
    requires m.scope
    ensures PollUntilDone(Stopped(m), axes) == Outcome(Cancelled, Query(false, map[]), Stopped(m))
  {
  }

  class Ms2000Motor {
    var x: int
    var y: int
    var z: int
    var xLimit: bool
    var yLimit: bool
    var zLimit: bool
    var refreshing: bool
    var scope: bool
    var cancelled: bool
    /** The outcomes of the exchanges still to come. */
    var script: seq<Answer>
    /** The commands the motor has had the driver send. */
    var sent: seq<string>

    function State(): MotorState
      reads this
    {
      MotorState(Cache(x, y, z, xLimit, yLimit, zLimit), refreshing, scope, cancelled, script, sent)
    }

    constructor(script0: seq<Answer>)
      ensures State() == MotorState(Cache(0, 0, 0, false, false, false), false, false, false, script0, [])
    {
      x, y, z := 0, 0, 0;
      xLimit, yLimit, zLimit := false, false, false;
      refreshing := false;
      scope := false;
      cancelled := false;
      script := script0;
      sent := [];
    }

    /** One driver call: send the command, take the next outcome. */
    method Exchange(command: string) returns (reply: Option<string>)
      modifies this
      ensures reply == Head(old(script)).reply
      ensures State() == Exchanged(old(State()), command)
    {
      var a := Head(script);
      reply := a.reply;
      if a.stopMeanwhile && scope {
        cancelled := true;
      }
      script := Tail(script);
      sent := sent + [command];
    }

    /** `GetPostionandRefresh`. */
    method GetPositionAndRefresh()
      modifies this
      ensures State() == Exchanged(old(State()), PositionQuery(AllAxes)).(cache := RefreshPosition(old(State()).cache, Head(old(script)).reply))
    {
      var reply := Exchange(PositionQuery(AllAxes));
      var q := GetPosition(AllAxes, reply);
      if !q.ok || |q.values| != 3 {
        return;
      }
      ThreeKeys(q.values);
      assert RefreshPosition(old(State()).cache, reply) ==
        old(State()).cache.(x := q.values[1], y := q.values[2], z := q.values[3]);
      SetPosition(q.values[1], q.values[2], q.values[3]);
    }

    /** The setters of `X`, `Y`, `Z`. */
    method SetPosition(px: int, py: int, pz: int)
      modifies this
      ensures State() == old(State()).(cache := old(State()).cache.(x := px, y := py, z := pz))
    {
      x, y, z := px, py, pz;
    }

    /** `GetLimitStateandRefresh`. */
    method GetLimitStateAndRefresh()
      modifies this
      ensures State() == Exchanged(old(State()), AxisStateQuery(AllAxes)).(cache := RefreshLimits(old(State()).cache, Head(old(script)).reply))
    {
      var reply := Exchange(AxisStateQuery(AllAxes));
      var q := GetAxisState(AllAxes, reply);
      if !q.ok || |q.values| != 3 {
        return;
      }
      ThreeKeys(q.values);
      assert RefreshLimits(old(State()).cache, reply) ==
        old(State()).cache.(xLimit := IsLimit(q.values[1]), yLimit := IsLimit(q.values[2]), zLimit := IsLimit(q.values[3]));
      SetLimits(q.values[1] == "L" || q.values[1] == "U", q.values[2] == "L" || q.values[2] == "U",
        q.values[3] == "L" || q.values[3] == "U");
    }

    /** The setters of `XLimit`, `YLimit`, `ZLimit`. */
    method SetLimits(xl: bool, yl: bool, zl: bool)
      modifies this
      ensures State() == old(State()).(cache := old(State()).cache.(xLimit := xl, yLimit := yl, zLimit := zl))
    {
      xLimit, yLimit, zLimit := xl, yl, zl;
    }

    /** `OnTimedComsEvent`: one tick of the refresh timer. */
    method OnTimer()
      modifies this
      ensures var m1 := Exchanged(old(State()), PositionQuery(AllAxes)).(cache := RefreshPosition(old(State()).cache, Head(old(script)).reply));
        State() == Exchanged(m1, AxisStateQuery(AllAxes)).(cache := RefreshLimits(m1.cache, Head(m1.script).reply))
    {
      GetPositionAndRefresh();
      GetLimitStateAndRefresh();
    }

    /** `InitMotor`: the refresher starts when the driver opened the port. */
    method InitMotor(portOpened: bool) returns (ok: bool)
      modifies this
      ensures ok == portOpened
      ensures State() == old(State()).(refreshing := old(refreshing) || portOpened)
    {
      if portOpened {
        refreshing := true;
      }
      ok := portOpened;
    }

    /** The poll loop, as the three moves run it. */
    method PollLoop(axes: seq<nat>) returns (exit: Exit, last: Query<bool>)
      modifies this
      ensures Outcome(exit, last, State()) == PollUntilDone(old(State()), axes)
    {
      while true
        invariant PollUntilDone(State(), axes) == PollUntilDone(old(State()), axes)
        decreases |script|
      {
        if cancelled {
          return Cancelled, Query(false, map[]);
        }
        GetPositionAndRefresh();
        if cancelled {
          return Cancelled, Query(false, map[]);
        }
        GetLimitStateAndRefresh();
        if cancelled {
          return Cancelled, Query(false, map[]);
        }
        ghost var before := script;
        var reply := Exchange(MovingQuery(axes));
        var q := IsAxisMoving(axes, reply);
        if !q.ok {
          return QueryFailed, q;
        }
        if AllStopped(q.values) {
          return Settled, q;
        }
        assert before != [];
      }
    }

    /** `_ctsMove = new CancellationTokenSource()`, and for some moves `_timerRefreshInfo.Stop()`. */
    method OpenScope(pause: bool)
      modifies this
      ensures State() == old(State()).(scope := true, cancelled := false, refreshing := !pause && old(refreshing))
    {
      scope, cancelled := true, false;
      if pause {
        refreshing := false;
      }
    }

    /** The part the three moves share once the scope is open and the refresher is handled. */
    method MoveBody(kind: MoveKind, command: Option<string>, axes: seq<nat>) returns (done: bool)
      modifies this
      requires scope && !cancelled
      requires kind != RelativeMove ==> !refreshing
      ensures var o := Move(kind, command, axes, old(State()));
        done == (o.exit == Settled) && State() == o.state
    {
      if command.None? {
        return false;
      }
      var reply := Exchange(command.value);
      if !Acknowledged(reply) {
        return false;
      }
      var exit, last := PollLoop(axes);
      done := AfterPoll(kind, exit, last);
    }

    /** The returns of the poll loop, with the refresher restarts that come with them. */
    method AfterPoll(kind: MoveKind, exit: Exit, last: Query<bool>) returns (done: bool)
      modifies this
      ensures done == (exit == Settled)
      ensures State() == Conclude(kind, Outcome(exit, last, old(State()))).state
    {
      if exit == QueryFailed {
        refreshing := true;
        return false;
      }
      if exit == Settled {
        if kind != OriginHome {
          refreshing := true;
        }
        return true;
      }
      return false;
    }

    /** `AbsoluteMoveUnilDoneAsync`: the targets in ticks; the keys are the axes polled. */
    method AbsoluteMoveUntilDone(targets: seq<(nat, int)>) returns (done: bool)
      modifies this
      ensures var o := Move(AbsoluteMove, Some(AbsoluteMoveCommand(targets)), TargetAxes(targets), old(State()));
        done == (o.exit == Settled) && State() == o.state
    {
      OpenScope(true);
      MoveFromOpenScope(AbsoluteMove, Some(AbsoluteMoveCommand(targets)), TargetAxes(targets), old(State()));
      done := MoveBody(AbsoluteMove, Some(AbsoluteMoveCommand(targets)), TargetAxes(targets));
    }

    /** `RelativeMoveUnilDoneAsync`: one axis; the refresher keeps running while the command goes out. */
    method RelativeMoveUntilDone(axis: nat, ticks: int) returns (done: bool)
      modifies this
      ensures var o := Move(RelativeMove, RelativeMoveCommand(axis, ticks), [axis], old(State()));
        done == (o.exit == Settled) && State() == o.state
    {
      OpenScope(false);
      MoveFromOpenScope(RelativeMove, RelativeMoveCommand(axis, ticks), [axis], old(State()));
      done := MoveBody(RelativeMove, RelativeMoveCommand(axis, ticks), [axis]);
    }

    /** `OriginHomeUnilDoneAsync`: seek the origin of the given axes. */
    method OriginHomeUntilDone(ids: seq<nat>) returns (done: bool)
      modifies this
      ensures var o := Move(OriginHome, Some(OriginHomeCommand(ids)), ids, old(State()));
        done == (o.exit == Settled) && State() == o.state
    {
      OpenScope(true);
      MoveFromOpenScope(OriginHome, Some(OriginHomeCommand(ids)), ids, old(State()));
      done := MoveBody(OriginHome, Some(OriginHomeCommand(ids)), ids);
    }

    /** `Stop`: the `HALT` result. */
    method Stop() returns (ok: bool)
      modifies this
      ensures ok == Acknowledged(Head(old(script)).reply)
      ensures State() == Stopped(old(State()))
    {
      if scope {
        cancelled := true;
      }
      refreshing := false;
      var reply := Exchange(HaltCommand);
      refreshing := true;
      ok := Acknowledged(reply);
    }

    /** A synchronous command sent with the refresher paused; it runs again afterwards. */
    method PausedCommand(command: string) returns (ok: bool)
      modifies this
      ensures ok == Acknowledged(Head(old(script)).reply)
      ensures State() == Exchanged(old(State()), command).(refreshing := true)
    {
      refreshing := false;
      var reply := Exchange(command);
      ok := Acknowledged(reply);
      refreshing := true;
    }

    /** `SetOriginPos`: `Z`, with the refresher paused. */
    method SetOriginPos() returns (ok: bool)
      modifies this
      ensures ok == Acknowledged(Head(old(script)).reply)
      ensures State() == Exchanged(old(State()), SetZeroCommand).(refreshing := true)
    {
      ok := PausedCommand(SetZeroCommand);
    }

    /** `ResetParam`: `RESET`, with the refresher paused. */
    method ResetParam() returns (ok: bool)
      modifies this
      ensures ok == Acknowledged(Head(old(script)).reply)
      ensures State() == Exchanged(old(State()), ResetCommand).(refreshing := true)
    {
      ok := PausedCommand(ResetCommand);
    }

    /** The `XSpeed`/`YSpeed`/`ZSpeed` getters: the speed read with the refresher paused, 0 on failure. */
    method AxisSpeed(axis: nat) returns (speed: real)
      modifies this
      ensures !IsAxisId(axis) ==> speed == 0.0 && State() == old(State()).(refreshing := true)
      ensures IsAxisId(axis) ==> (speed == ReadSpeed(Head(old(script)).reply).1
        && State() == Exchanged(old(State()), SpeedQuery(axis).value).(refreshing := true))
    {
      refreshing := false;
      var command := SpeedQuery(axis);
      speed := 0.0;
      if command.Some? {
        var reply := Exchange(command.value);
        var r := ReadSpeed(reply);
        if r.0 {
          speed := r.1;
        }
      }
      refreshing := true;
    }

    /** The speed setters: `S X=<speed>` with the refresher paused. */
    method SetAxisSpeed(axis: nat, speedText: string) returns (ok: bool)
      modifies this
      ensures !IsAxisId(axis) ==> !ok && State() == old(State()).(refreshing := true)
      ensures IsAxisId(axis) ==> (ok == Acknowledged(Head(old(script)).reply)
        && State() == Exchanged(old(State()), SpeedCommand(axis, speedText).value).(refreshing := true))
    {
      refreshing := false;
      var command := SpeedCommand(axis, speedText);
      ok := false;
      if command.Some? {
        var reply := Exchange(command.value);
        ok := Acknowledged(reply);
      }
      refreshing := true;
    }

    /** The version entry of `InfoDirectory`: the version when `GetVersion` reports success, else empty. */
    method VersionInfo() returns (version: string)
      modifies this
      ensures version == ""
      ensures State() == Exchanged(old(State()), VersionCommand)
    {
      var reply := Exchange(VersionCommand);
      var r := Queries.GetVersion(reply);
      version := if r.ok then r.version else "";
      PublishedVersionEmpty(reply);
    }
  }

  /** A speed the controller reports as a whole number is the speed the getter returns. */
  lemma AxisSpeedOfInt(n: int)
    ensures ReadSpeed(Some(":A " + FormatInt(n))).1 == n as real
  {
    ReadSpeedOfInt(n);
  }
}
