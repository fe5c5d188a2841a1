/**
 * The query operations of the MS2000 driver (ASI/MS2000.cs), each taking the
 * reply the command engine produced for its command (`None` when the call timed
 * out), and the indexed loops that fill the result dictionaries.
 */
module Queries {
  import opened Options
  import opened Text
  import opened Numbers
  import opened Protocol

  /** A boolean success flag plus the dictionary the query fills. */
  datatype Query<V> = Query(ok: bool, values: map<nat, V>)

  /** `GetPosition(axes, out positions)`: positions in ticks, keyed by the requested axes. */
  function GetPosition(axes: seq<nat>, reply: Option<string>): (q: Query<int>)
    ensures q.ok <==> Acknowledged(reply)
    ensures !q.ok ==> q.values == map[]
    ensures q.ok ==> q.values == DecodePositions(axes, reply.value)
    ensures forall k :: k in q.values ==> k in axes
  {
    if Acknowledged(reply) then
      var vals := ParsedTokens(PositionTokens(reply.value));
      ZipKeys(axes, vals, Min(|axes|, |vals|));
      Query(true, DecodePositions(axes, reply.value))
    else Query(false, map[])
  }

  /** `GetAxisState(axes, out states)`: one character of the payload per requested axis. */
  function GetAxisState(axes: seq<nat>, reply: Option<string>): (q: Query<string>)
    ensures q.ok <==> Acknowledged(reply)
    ensures !q.ok ==> q.values == map[]
    ensures q.ok ==> q.values == DecodeStates(axes, reply.value)
    ensures forall k :: k in q.values ==> k in axes
  {
    if Acknowledged(reply) then
      var vals := StateEntries(StatePayload(reply.value));
      ZipKeys(axes, vals, Min(|axes|, |vals|));
      Query(true, DecodeStates(axes, reply.value))
    else Query(false, map[])
  }

  /** `IsAxisMoving(axes, out states)`: the flag of `axes[i]` says whether token `i` holds a `B`. */
  function IsAxisMoving(axes: seq<nat>, reply: Option<string>): (q: Query<bool>)
    ensures q.ok <==> Acknowledged(reply)
    ensures !q.ok ==> q.values == map[]
    ensures q.ok ==>
      var toks := MovingTokens(reply.value);
      && (forall k :: k in q.values <==> exists i :: 0 <= i < |axes| && i < |toks| && axes[i] == k)
      && (forall i :: 0 <= i < |axes| && i < |toks| && LastAt(axes, Min(|axes|, |toks|), i) ==>
            q.values[axes[i]] == ('B' in toks[i]))
  {
    if Acknowledged(reply) then
      var toks := MovingTokens(reply.value);
      var vals := MovingFlags(toks);
      ZipKeys(axes, vals, Min(|axes|, |vals|));
      MovingValues(axes, toks);
      Query(true, DecodeMoving(axes, reply.value))
    else Query(false, map[])
  }

  lemma MovingValues(axes: seq<nat>, toks: seq<string>)
    ensures forall i :: 0 <= i < |axes| && i < |toks| && LastAt(axes, Min(|axes|, |toks|), i) ==>
      axes[i] in Zip(axes, MovingFlags(toks), Min(|axes|, |toks|)) &&
      Zip(axes, MovingFlags(toks), Min(|axes|, |toks|))[axes[i]] == ('B' in toks[i])
  {
    forall i | 0 <= i < |axes| && i < |toks| && LastAt(axes, Min(|axes|, |toks|), i)
      ensures axes[i] in Zip(axes, MovingFlags(toks), Min(|axes|, |toks|)) &&
        Zip(axes, MovingFlags(toks), Min(|axes|, |toks|))[axes[i]] == ('B' in toks[i])
    {
      ZipValue(axes, MovingFlags(toks), Min(|axes|, |toks|), i);
    }
  }

  /** The poll loop's completion test: some flag came back and none says "moving". */
  predicate AllStopped(moving: map<nat, bool>)
  {
    |moving| != 0 && forall k :: k in moving ==> !moving[k]
  }

  /** `IsLimit`: the axis state letter that the motor reads as "at a limit". */
  predicate IsLimit(state: string)
  {
    state == "L" || state == "U"
  }

  /** `GetVersion(out version)` as written: it reports `string.IsNullOrEmpty(version)`. */
  datatype VersionResult = VersionResult(ok: bool, version: string)

  function GetVersion(reply: Option<string>): (r: VersionResult)
    ensures !Acknowledged(reply) ==> r == VersionResult(false, "")
    ensures Acknowledged(reply) ==> r.version == reply.value
  {
    if !Acknowledged(reply) then VersionResult(false, "")
    else VersionResult(reply.value == "", reply.value)
  }

  /** Every acknowledged reply is non-empty, so `GetVersion` never reports success. */
  lemma GetVersionNeverSucceeds(reply: Option<string>)
    ensures !GetVersion(reply).ok
  {
    if Acknowledged(reply) {
      AcceptedNotEmpty(reply.value);
    }
  }

  /** The version text the motor publishes (`ok ? version : ""`) is therefore always empty. */
  lemma PublishedVersionEmpty(reply: Option<string>)
    ensures (var r := GetVersion(reply); if r.ok then r.version else "") == ""
  {
    GetVersionNeverSucceeds(reply);
  }

  /** The payload of a speed reply: line ends and `:A ` removed. */
  function SpeedPayload(response: string): string
  {
    RemoveAll(RemoveAll(response, LineEnd), ":A ")
  }

  /** `GetSpeed(axis, out speed)` once the reply is in: the first decimal number, or 0 when there is none. */
  function ReadSpeed(reply: Option<string>): (r: (bool, real))
    ensures r.0 <==> Acknowledged(reply)
    ensures !r.0 ==> r.1 == 0.0
    ensures r.0 ==> (forall i: nat :: LeftmostDecimalStart(SpeedPayload(reply.value), i)
                       ==> r.1 == DecimalAt(SpeedPayload(reply.value)[i..]))
    ensures r.0 && (forall i :: 0 <= i < |SpeedPayload(reply.value)| ==> !DecimalStartsAt(SpeedPayload(reply.value), i))
      ==> r.1 == 0.0
  {
    if !Acknowledged(reply) then (false, 0.0)
    else
      match FirstDecimal(SpeedPayload(reply.value))
      case Some(v) => (true, v)
      case None => (true, 0.0)
  }

  // ----- The loops that fill the dictionaries -----

  /** The loop of `GetPosition`. */
  method DecodePositionsLoop(axes: seq<nat>, response: string) returns (positions: map<nat, int>)
    ensures positions == DecodePositions(axes, response)
  {
    var values := PositionTokens(response);
    ghost var vals := ParsedTokens(values);
    positions := map[];
    var i := 0;
    while i < |axes| && i < |values|
      invariant 0 <= i <= Min(|axes|, |values|)
      invariant positions == Zip(axes, vals, i)
    {
      var ok, pos := TryParseInt32(values[i]);
      if ok {
        positions := positions[axes[i] := pos];
      }
      i := i + 1;
    }
    assert i == Min(|axes|, |values|);
  }

  /** The loop of `GetAxisState`. */
  method DecodeStatesLoop(axes: seq<nat>, response: string) returns (states: map<nat, string>)
    ensures states == DecodeStates(axes, response)
  {
    var disp := StatePayload(response);
    ghost var vals := StateEntries(disp);
    states := map[];
    var i := 0;
    while i < |axes| && i < |disp|
      invariant 0 <= i <= Min(|axes|, |disp|)
      invariant states == Zip(axes, vals, i)
    {
      states := states[axes[i] := [disp[i]]];
      i := i + 1;
    }
    assert i == Min(|axes|, |disp|);
  }

  /** The loop of `IsAxisMoving`. */
  method DecodeMovingLoop(axes: seq<nat>, response: string) returns (moving: map<nat, bool>)
    ensures moving == DecodeMoving(axes, response)
  {
    var values := MovingTokens(response);
    ghost var vals := MovingFlags(values);
    moving := map[];
    var i := 0;
    while i < |axes| && i < |values|
      invariant 0 <= i <= Min(|axes|, |values|)
      invariant moving == Zip(axes, vals, i)
    {
      moving := moving[axes[i] := 'B' in values[i]];
      i := i + 1;
    }
    assert i == Min(|axes|, |values|);
  }

  // ----- The three-axis refresh condition -----

  const AllAxes: seq<nat> := [1, 2, 3]

  lemma CardWithin(s: set<nat>, a: nat, b: nat)
    requires s <= {a, b}
    ensures |s| <= 2
  {
    if a in s && b in s {
      assert s == {a, b};
    } else if a in s {
      assert s == {a};
    } else if b in s {
      assert s == {b};
    } else {
      assert s == {};
    }
  }

  /** Zipping against X, Y, Z fills three entries exactly when three values are present. */
  lemma ZipThree<V>(vals: seq<Option<V>>)
    ensures var m := Zip(AllAxes, vals, Min(3, |vals|));
      |m| == 3 <==> |vals| >= 3 && vals[0].Some? && vals[1].Some? && vals[2].Some?
    ensures var m := Zip(AllAxes, vals, Min(3, |vals|));
      |m| == 3 ==> m == map[1 := vals[0].value, 2 := vals[1].value, 3 := vals[2].value]
  {
    var n := Min(3, |vals|);
    var m := Zip(AllAxes, vals, n);
    ZipKeys(AllAxes, vals, n);
    assert m.Keys <= {1, 2, 3};
    if |vals| >= 3 && vals[0].Some? && vals[1].Some? && vals[2].Some? {
      assert AllAxes[0] == 1 && AllAxes[1] == 2 && AllAxes[2] == 3;
      assert m.Keys == {1, 2, 3};
    }
    if |m| == 3 {
      if 1 !in m {
        CardWithin(m.Keys, 2, 3);
      }
      if 2 !in m {
        CardWithin(m.Keys, 1, 3);
      }
      if 3 !in m {
        CardWithin(m.Keys, 1, 2);
      }
      assert AllAxes[0] == 1 && AllAxes[1] == 2 && AllAxes[2] == 3;
      var i3 :| 0 <= i3 < n && AllAxes[i3] == 3 && vals[i3].Some?;
      assert n == 3;
      assert LastAt(AllAxes, 3, 0) && LastAt(AllAxes, 3, 1) && LastAt(AllAxes, 3, 2);
      var i1 :| 0 <= i1 < n && AllAxes[i1] == 1 && vals[i1].Some?;
      var i2 :| 0 <= i2 < n && AllAxes[i2] == 2 && vals[i2].Some?;
      ZipValue(AllAxes, vals, 3, 0);
      ZipValue(AllAxes, vals, 3, 1);
      ZipValue(AllAxes, vals, 3, 2);
    }
  }

  /**
   * The motor's position refresh takes a reply only when it holds three entries:
   * an acknowledged reply whose first three tokens all parse; the entries are those tokens.
   */
  lemma FullPositionReply(reply: Option<string>)
    ensures var q := GetPosition(AllAxes, reply);
      q.ok && |q.values| == 3 <==>
        Acknowledged(reply) &&
        var toks := PositionTokens(reply.value);
        |toks| >= 3 && ParseInt32(toks[0]).Some? && ParseInt32(toks[1]).Some? && ParseInt32(toks[2]).Some?
    ensures var q := GetPosition(AllAxes, reply);
      q.ok && |q.values| == 3 ==>
        var toks := PositionTokens(reply.value);
        q.values == map[1 := ParseInt32(toks[0]).value, 2 := ParseInt32(toks[1]).value, 3 := ParseInt32(toks[2]).value]
  {
    if Acknowledged(reply) {
      ZipThree(ParsedTokens(PositionTokens(reply.value)));
    }
  }

  /**
   * The motor's limit refresh takes a reply only when it holds three entries:
   * an acknowledged reply whose payload has at least three characters.
   */
  lemma FullStateReply(reply: Option<string>)
    ensures var q := GetAxisState(AllAxes, reply);
      q.ok && |q.values| == 3 <==> Acknowledged(reply) && |StatePayload(reply.value)| >= 3
    ensures var q := GetAxisState(AllAxes, reply);
      q.ok && |q.values| == 3 ==>
        var p := StatePayload(reply.value);
        q.values == map[1 := [p[0]], 2 := [p[1]], 3 := [p[2]]]
  {
    if Acknowledged(reply) {
      ZipThree(StateEntries(StatePayload(reply.value)));
    }
  }

  // ----- Round trip through the reply format -----

  /** Each tick value written out as a decimal number. */
  function TickWords(ticks: seq<int>): (ws: seq<string>)
    ensures |ws| == |ticks|
  {
    seq(|ticks|, i requires 0 <= i < |ticks| => FormatInt(ticks[i]))
  }

  /** The text a controller sends for positions `ticks`: `:A t1 t2 ...`. */
  function PositionReply(ticks: seq<int>): string
  {
    ":A " + JoinSpace(TickWords(ticks))
  }

  /** The numbers of a position reply are words of digits and signs, so the whole body is numeric text. */
  lemma TickWordsNumeric(ticks: seq<int>)
    ensures forall k :: 0 <= k < |ticks| ==> TickWords(ticks)[k] != [] && ' ' !in TickWords(ticks)[k]
    ensures NumericText(JoinSpace(TickWords(ticks)))
  {
    var ws := TickWords(ticks);
    forall k | 0 <= k < |ws|
      ensures ws[k] != [] && ' ' !in ws[k]
    {
      FormatIntChars(ticks[k]);
    }
    var j := JoinSpace(ws);
    forall k | 0 <= k < |j|
      ensures IsDigit(j[k]) || j[k] == '-' || j[k] == ' '
    {
      JoinSpaceChars(ws, j[k]);
      if j[k] != ' ' {
        var w :| 0 <= w < |ws| && j[k] in ws[w];
        FormatIntChars(ticks[w]);
      }
    }
  }

  /** A position reply is accepted, and its tokens are the tick values written out, in order. */
  lemma PositionReplyTokens(ticks: seq<int>)
    ensures Acknowledged(Some(PositionReply(ticks)))
    ensures PositionTokens(PositionReply(ticks)) == TickWords(ticks)
  {
    var ws := TickWords(ticks);
    TickWordsNumeric(ticks);
    NumericReply(JoinSpace(ws));
    WordsOfJoin(ws);
  }

  /** Tick values within 32 bits parse back from their decimal words. */
  lemma TickWordsParse(ticks: seq<int>)
    requires forall i :: 0 <= i < |ticks| ==> Int32Min <= ticks[i] <= Int32Max
    ensures forall i :: 0 <= i < |ticks| ==> ParsedTokens(TickWords(ticks))[i] == Some(ticks[i])
  {
    forall i | 0 <= i < |ticks|
      ensures ParsedTokens(TickWords(ticks))[i] == Some(ticks[i])
    {
      FormatIntRoundTrip(ticks[i]);
    }
  }

  /**
   * Decoding is order-preserving: a reply carrying one tick value per requested axis
   * decodes to exactly those values, keyed by the requested axes.
   */
  lemma PositionReplyRoundTrip(axes: seq<nat>, ticks: seq<int>)
    requires |axes| == |ticks|
    requires forall i, j :: 0 <= i < j < |axes| ==> axes[i] != axes[j]
    requires forall i :: 0 <= i < |ticks| ==> Int32Min <= ticks[i] <= Int32Max
    ensures Acknowledged(Some(PositionReply(ticks)))
    ensures var m := DecodePositions(axes, PositionReply(ticks));
      m.Keys == (set i | 0 <= i < |axes| :: axes[i])
      && forall i :: 0 <= i < |axes| ==> m[axes[i]] == ticks[i]
  {
    PositionReplyTokens(ticks);
    TickWordsParse(ticks);
    ZipDistinct(axes, ParsedTokens(TickWords(ticks)), ticks);
  }

  /** Numbers and spaces: what a controller puts after `:A ` in a numeric reply. */
  predicate NumericText(body: string)
  {
    forall k :: 0 <= k < |body| ==> IsDigit(body[k]) || body[k] == '-' || body[k] == ' '
  }

  /** A numeric reply passes the check and strips down to its numbers. */
  lemma NumericReply(body: string)
    requires NumericText(body)
    ensures RemoveAll(":A " + body, LineEnd) == ":A " + body
    ensures RemoveAll(":A " + body, ":A ") == body
    ensures Acknowledged(Some(":A " + body))
  {
    PlainReply(body);
  }

  /** A reply `:A ` followed by text without `:` or `\r` passes the check and strips down to that text. */
  lemma PlainReply(body: string)
    requires ':' !in body && '\r' !in body
    ensures RemoveAll(":A " + body, LineEnd) == ":A " + body
    ensures RemoveAll(":A " + body, ":A ") == body
    ensures Acknowledged(Some(":A " + body))
  {
    var reply := ":A " + body;
    assert '\r' !in reply;
    RemoveAllAbsent(reply, LineEnd);
    RemoveAllLeading(":A ", body);
    RemoveAllAbsent(body, ":A ");
    assert OccursAt(reply, AckMarker, 0);
    forall i | 0 <= i <= |reply| - 2
      ensures !OccursAt(reply, NakMarker, i)
    {
      if i == 0 {
        assert reply[1] == 'A';
      } else if i >= 3 {
        assert reply[i] == body[i - 3];
      }
      assert reply[i] != ':' || reply[i + 1] != 'N';
      assert reply[i..i + 2][0] == reply[i] && reply[i..i + 2][1] == reply[i + 1];
    }
    PositiveAckAccepted(reply);
  }

  /** A speed reported as a whole number is read back as that number. */
  lemma ReadSpeedOfInt(n: int)
    ensures ReadSpeed(Some(":A " + FormatInt(n))) == (true, n as real)
  {
    FormatIntChars(n);
    NumericReply(FormatInt(n));
    FirstDecimalOfInt(n);
  }

  /** The controller's answer to `S L?`: `:A L=` and the number. */
  function SpeedReply(letter: char, number: string): string
  {
    ":A " + ([letter] + "=" + number)
  }

  /** A speed reported with a fractional part after its axis letter, as in `:A X=1.25`, is read exactly. */
  lemma ReadSpeedOfDecimal(letter: char, whole: nat, frac: string)
    requires !IsDigit(letter) && letter != '-' && letter != ':' && letter != '\r'
    requires frac != [] && AllDigits(frac)
    ensures ReadSpeed(Some(SpeedReply(letter, FormatNat(whole) + "." + frac))) == (true, PointValue(whole, frac))
  {
    var number := FormatNat(whole) + "." + frac;
    PointNumber(FormatNat(whole), frac);
    LabelledNumber(letter, number);
    PlainReply([letter] + "=" + number);
    DecimalOfParts(whole, frac);
  }

  /** `L=` in front of a number: the payload passes the check and the match starts at the number. */
  lemma LabelledNumber(letter: char, number: string)
    requires !IsDigit(letter) && letter != '-' && letter != ':' && letter != '\r'
    requires number != [] && IsDigit(number[0]) && AllDigitsOrPoint(number)
    ensures ':' !in [letter] + "=" + number && '\r' !in [letter] + "=" + number
    ensures DecimalStartsAt(number, 0)
    ensures FirstDecimal([letter] + "=" + number) == Some(DecimalAt(number))
  {
    var body := [letter] + "=" + number;
    assert body[2..] == number;
    assert LeftmostDecimalStart(body, 2);
  }

  lemma PointNumber(w: string, frac: string)
    requires w != [] && AllDigits(w) && AllDigits(frac)
    ensures IsDigit((w + "." + frac)[0]) && AllDigitsOrPoint(w + "." + frac)
  {
    var s := w + "." + frac;
    forall k | 0 <= k < |s|
      ensures IsDigit(s[k]) || s[k] == '.'
    {
      if k < |w| {
        assert s[k] == w[k];
      } else if k > |w| {
        assert s[k] == frac[k - |w| - 1];
      }
    }
  }

  predicate AllDigitsOrPoint(s: string)
  {
    forall k :: 0 <= k < |s| ==> IsDigit(s[k]) || s[k] == '.'
  }
}
