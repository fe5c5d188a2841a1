/**
 * The MS2000 controller's ASCII protocol as the driver speaks it (ASI/MS2000.cs):
 * the error-code enumeration, the reply check `CheckReturnMsg`, the axis-id
 * codec and command builders, and the positional decoding of multi-axis replies.
 * A reply is the frame text the command engine resolved, or `None` when the
 * call timed out.
 */
module Protocol {
  import opened Options
  import opened Text
  import opened Numbers

  // ----- Error codes -----

  /** The controller's fault codes, `ErrorCodeEnum`. */
  datatype ErrorCode =
    | UnknownCommand
    | UnrecognizedAxisParameter
    | MissingParameters
    | ParameterOutOfRange
    | OperationFailed
    | UndefinedError
    | InvalidCardAddress
    | SerialCommandHalted

  function CodeNumber(e: ErrorCode): nat
  {
    match e
    case UnknownCommand => 1
    case UnrecognizedAxisParameter => 2
    case MissingParameters => 3
    case ParameterOutOfRange => 4
    case OperationFailed => 5
    case UndefinedError => 6
    case InvalidCardAddress => 7
    case SerialCommandHalted => 21
  }

  /** `Enum.IsDefined` followed by the cast: the code a number names, if any. */
  function ErrorCodeOf(n: int): (r: Option<ErrorCode>)
    ensures r.Some? ==> CodeNumber(r.value) == n
    ensures r.None? ==> forall e: ErrorCode :: CodeNumber(e) != n
  {
    if n == 1 then Some(UnknownCommand)
    else if n == 2 then Some(UnrecognizedAxisParameter)
    else if n == 3 then Some(MissingParameters)
    else if n == 4 then Some(ParameterOutOfRange)
    else if n == 5 then Some(OperationFailed)
    else if n == 6 then Some(UndefinedError)
    else if n == 7 then Some(InvalidCardAddress)
    else if n == 21 then Some(SerialCommandHalted)
    else None
  }

  // ----- Reply check -----

  const AckMarker: string := ":A"
  const NakMarker: string := ":N"
  const LineEnd: string := "\r\n"
  const ReplyTrim: set<char> := {'\r', '\n', ' '}

  /** `response.Replace("\r\n", "").Trim('\r', '\n', ' ')`. */
  function Cleaned(response: string): string
  {
    Trim(RemoveAll(response, LineEnd), ReplyTrim)
  }

  /** Length of the run of digits that ends the text (the regular expression `\d+$`). */
  function TrailingDigitCount(s: string): (n: nat)
    ensures n <= |s|
    ensures forall i :: |s| - n <= i < |s| ==> IsDigit(s[i])
    ensures n < |s| ==> !IsDigit(s[|s| - n - 1])
  {
    if s == [] || !IsDigit(s[|s| - 1]) then 0
    else TrailingDigitCount(s[..|s| - 1]) + 1
  }

  /** The error code a negative reply ends with, when it is one of the enumeration's. */
  function TrailingCode(s: string): Option<ErrorCode>
  {
    var n := TrailingDigitCount(s);
    if n == 0 then None
    else
      assert AllDigits(s[|s| - n..]);
      var v := DigitsValue(s[|s| - n..]);
      if v > Int32Max then None else ErrorCodeOf(v)
  }

  /** How `CheckReturnMsg` sees a reply; `Nak` carries the code it logs. */
  datatype ReplyKind = Blank | NoAck | Nak(code: Option<ErrorCode>) | Ack

  function Classify(response: string): ReplyKind
  {
    if IsNullOrWhiteSpace(response) then Blank
    else
      var r := Cleaned(response);
      if !Contains(r, AckMarker) then NoAck
      else if Contains(r, NakMarker) then Nak(TrailingCode(r))
      else Ack
  }

  /**
   * `CheckReturnMsg`: a non-blank reply that, once line ends are removed, holds
   * the acknowledgement marker and no negative marker.
   */
  function CheckReturnMsg(response: string): (ok: bool)
    ensures ok <==>
      && !IsNullOrWhiteSpace(response)
      && Contains(RemoveAll(response, LineEnd), AckMarker)
      && !Contains(RemoveAll(response, LineEnd), NakMarker)
  {
    ContainsTrim(RemoveAll(response, LineEnd), ReplyTrim, AckMarker);
    ContainsTrim(RemoveAll(response, LineEnd), ReplyTrim, NakMarker);
    Classify(response) == Ack
  }

  /** Any reply holding both markers is refused, whatever else it says. */
  lemma NegativeAckRefused(response: string)
    requires Contains(response, AckMarker) && Contains(response, NakMarker)
    ensures !CheckReturnMsg(response)
  {
    RemoveAllKeepsContains(response, LineEnd, NakMarker);
  }

  /** A reply holding the acknowledgement marker and, once line ends are removed, no negative marker is accepted. */
  lemma PositiveAckAccepted(response: string)
    requires Contains(response, AckMarker)
    requires !Contains(RemoveAll(response, LineEnd), NakMarker)
    ensures CheckReturnMsg(response)
  {
    RemoveAllKeepsContains(response, LineEnd, AckMarker);
    var i :| 0 <= i <= |response| - 2 && OccursAt(response, AckMarker, i);
    assert response[i..i + 2][0] == ':';
    assert !IsWhiteSpace(response[i]);
  }

  /** For a frame (which never holds a line end) the check is exactly "has `:A`, has no `:N`". */
  lemma FrameCheck(frame: string)
    requires !Contains(frame, LineEnd)
    ensures CheckReturnMsg(frame) <==> Contains(frame, AckMarker) && !Contains(frame, NakMarker)
  {
    RemoveAllNotContained(frame, LineEnd);
    if Contains(frame, AckMarker) {
      var i :| 0 <= i <= |frame| - 2 && OccursAt(frame, AckMarker, i);
      assert frame[i..i + 2][0] == ':';
      assert !IsWhiteSpace(frame[i]);
    }
  }

  /** A reply that passes the check is never empty. */
  lemma AcceptedNotEmpty(response: string)
    requires CheckReturnMsg(response)
    ensures |response| >= 2
  {
    var i :| 0 <= i <= |RemoveAll(response, LineEnd)| - 2 && OccursAt(RemoveAll(response, LineEnd), AckMarker, i);
  }

  /** The blocking call succeeded and the reply passed the check. */
  predicate Acknowledged(reply: Option<string>)
  {
    reply.Some? && reply.value != [] && CheckReturnMsg(reply.value)
  }

  // ----- Axis codec -----

  predicate IsAxisId(id: nat)
  {
    1 <= id <= 3
  }

  /** The translation table `map`: 1, 2, 3 to "X", "Y", "Z". */
  function AxisLetter(id: nat): (r: Option<string>)
    ensures r.Some? <==> IsAxisId(id)
    ensures r.Some? ==> |r.value| == 1 && r.value[0] in {'X', 'Y', 'Z'}
  {
    if id == 1 then Some("X") else if id == 2 then Some("Y") else if id == 3 then Some("Z") else None
  }

  /** The reverse lookup of the table. */
  function AxisIdOf(letter: string): (r: Option<nat>)
    ensures r.Some? ==> AxisLetter(r.value) == Some(letter)
    ensures r.None? ==> forall id: nat :: AxisLetter(id) != Some(letter)
  {
    if letter == "X" then Some(1) else if letter == "Y" then Some(2) else if letter == "Z" then Some(3) else None
  }

  /** The letter of a known axis is looked up back to that axis. */
  lemma LetterReadsBack(id: nat)
    requires IsAxisId(id)
    ensures AxisIdOf(AxisLetter(id).value) == Some(id)
  {
    if id == 1 {
      assert AxisLetter(id).value == "X";
    } else if id == 2 {
      assert AxisLetter(id).value == "Y";
    } else {
      assert AxisLetter(id).value == "Z";
    }
  }

  /** `axes.Where(v => map.ContainsKey(v))`: unknown ids dropped, order kept. */
  function KnownAxes(ids: seq<nat>): (r: seq<nat>)
    ensures |r| <= |ids|
    ensures forall a :: a in r <==> a in ids && IsAxisId(a)
  {
    if ids == [] then []
    else (if IsAxisId(ids[0]) then [ids[0]] else []) + KnownAxes(ids[1..])
  }

  /** The filter keeps request order: filtering a concatenation concatenates the filtered parts. */
  lemma {:induction false} KnownAxesAppend(a: seq<nat>, b: seq<nat>)
    ensures KnownAxes(a + b) == KnownAxes(a) + KnownAxes(b)
  {
    if a != [] {
      assert (a + b)[0] == a[0];
      assert (a + b)[1..] == a[1..] + b;
      KnownAxesAppend(a[1..], b);
    } else {
      assert a + b == b;
    }
  }

  /** A request made only of known ids passes the filter unchanged. */
  lemma {:induction false} KnownAxesAllKnown(ids: seq<nat>)
    requires forall i :: 0 <= i < |ids| ==> IsAxisId(ids[i])
    ensures KnownAxes(ids) == ids
  {
    if ids != [] {
      KnownAxesAllKnown(ids[1..]);
    }
  }

  /** `.Select(v => $"{map[v]}{suffix}")` over the known ids. */
  function AxisTerms(ids: seq<nat>, suffix: string): seq<string>
  {
    var known := KnownAxes(ids);
    seq(|known|, k requires 0 <= k < |known| => AxisLetter(known[k]).value + suffix)
  }

  /** `string.Join(" ", ...)` of the axis terms. */
  function AxisList(ids: seq<nat>, suffix: string): string
  {
    JoinSpace(AxisTerms(ids, suffix))
  }

  /** Reading an encoded axis list back gives the known ids, in request order. */
  lemma AxisListDecodes(ids: seq<nat>)
    ensures var ws := Words(AxisList(ids, ""));
      |ws| == |KnownAxes(ids)| &&
      forall k :: 0 <= k < |ws| ==> AxisIdOf(ws[k]) == Some(KnownAxes(ids)[k])
  {
    var terms := AxisTerms(ids, "");
    forall k | 0 <= k < |terms|
      ensures terms[k] != [] && ' ' !in terms[k]
    {
      assert terms[k] == AxisLetter(KnownAxes(ids)[k]).value + "";
    }
    WordsOfJoin(terms);
    forall k | 0 <= k < |terms|
      ensures AxisIdOf(terms[k]) == Some(KnownAxes(ids)[k])
    {
      var id := KnownAxes(ids)[k];
      assert id in KnownAxes(ids);
      assert terms[k] == AxisLetter(id).value;
    }
  }

  /** A command word, a space and an axis list split into the word and the axis terms. */
  lemma CommandWords(head: string, ids: seq<nat>, suffix: string)
    requires head != [] && ' ' !in head && ' ' !in suffix
    ensures Words(head + " " + AxisList(ids, suffix)) == [head] + AxisTerms(ids, suffix)
  {
    var terms := AxisTerms(ids, suffix);
    forall k | 0 <= k < |terms|
      ensures terms[k] != [] && ' ' !in terms[k]
    {
      var id := KnownAxes(ids)[k];
      assert id in KnownAxes(ids);
      assert terms[k] == AxisLetter(id).value + suffix;
    }
    WordsOfJoin(terms);
    WordsSplitAtSpace(head, AxisList(ids, suffix));
    WordsOfWord(head);
  }

  // ----- Commands -----

  const VersionCommand: string := "V"
  const HaltCommand: string := "HALT"
  const ResetCommand: string := "RESET"
  const SetZeroCommand: string := "Z"

  /** `W X Y Z`: position query. */
  function PositionQuery(ids: seq<nat>): string { "W " + AxisList(ids, "") }

  /** `RS X- Y-`: axis state query. */
  function AxisStateQuery(ids: seq<nat>): string { "RS " + AxisList(ids, "-") }

  /** `RS X? Y?`: moving state query. */
  function MovingQuery(ids: seq<nat>): string { "RS " + AxisList(ids, "?") }

  /** `SI X Y Z`: seek the physical limits and return to the origin. */
  function OriginHomeCommand(ids: seq<nat>): string { "SI " + AxisList(ids, "") }

  /** `! X Y`: return to the zero position. */
  function HomeCommand(ids: seq<nat>): string { "! " + AxisList(ids, "") }

  /**
   * The axis commands read back as their command word followed by one term
   * per known axis, in request order: the bare letter, `X-` or `X?`.
   */
  lemma AxisCommandsRead(ids: seq<nat>)
    ensures Words(PositionQuery(ids)) == ["W"] + AxisTerms(ids, "")
    ensures Words(AxisStateQuery(ids)) == ["RS"] + AxisTerms(ids, "-")
    ensures Words(MovingQuery(ids)) == ["RS"] + AxisTerms(ids, "?")
    ensures Words(OriginHomeCommand(ids)) == ["SI"] + AxisTerms(ids, "")
    ensures Words(HomeCommand(ids)) == ["!"] + AxisTerms(ids, "")
  {
    assert PositionQuery(ids) == "W" + " " + AxisList(ids, "");
    CommandWords("W", ids, "");
    assert AxisStateQuery(ids) == "RS" + " " + AxisList(ids, "-");
    CommandWords("RS", ids, "-");
    assert MovingQuery(ids) == "RS" + " " + AxisList(ids, "?");
    CommandWords("RS", ids, "?");
    assert OriginHomeCommand(ids) == "SI" + " " + AxisList(ids, "");
    CommandWords("SI", ids, "");
    assert HomeCommand(ids) == "!" + " " + AxisList(ids, "");
    CommandWords("!", ids, "");
  }

  /** `M X = 1000 Y = 2000`: absolute move, one `letter = ticks` term per known axis, in request order. */
  function AbsoluteMoveCommand(targets: seq<(nat, int)>): string
  {
    "M " + JoinSpace(MoveTerms(targets))
  }

  function MoveTerms(targets: seq<(nat, int)>): seq<string>
  {
    if targets == [] then []
    else
      var (id, ticks) := targets[0];
      (if IsAxisId(id) then [AxisLetter(id).value + " = " + FormatInt(ticks)] else [])
      + MoveTerms(targets[1..])
  }

  /** The targets the move command keeps: those of a known axis, in request order. */
  function KnownTargets(targets: seq<(nat, int)>): (r: seq<(nat, int)>)
    ensures |r| <= |targets|
    ensures forall t :: t in r <==> t in targets && IsAxisId(t.0)
  {
    if targets == [] then []
    else (if IsAxisId(targets[0].0) then [targets[0]] else []) + KnownTargets(targets[1..])
  }

  /** The words of a move term list: letter, `=`, ticks, for each known target. */
  function MoveWords(known: seq<(nat, int)>): seq<string>
    requires forall k :: 0 <= k < |known| ==> IsAxisId(known[k].0)
  {
    if known == [] then []
    else [AxisLetter(known[0].0).value, "=", FormatInt(known[0].1)] + MoveWords(known[1..])
  }

  /** Splitting a space-joined list: the words of its first entry, then those of the rest. */
  lemma WordsJoinCons(t: string, rest: seq<string>)
    ensures Words(JoinSpace([t] + rest)) == Words(t) + Words(JoinSpace(rest))
  {
    assert ([t] + rest)[1..] == rest;
    if rest == [] {
      assert Words(JoinSpace(rest)) == [];
    } else {
      WordsSplitAtSpace(t, JoinSpace(rest));
    }
  }

  /** One move term splits into its letter, `=` and the ticks. */
  lemma WordsOfMoveTerm(letter: string, ticks: int)
    requires letter != [] && ' ' !in letter
    ensures Words(letter + " = " + FormatInt(ticks)) == [letter, "=", FormatInt(ticks)]
  {
    var n := FormatInt(ticks);
    FormatIntChars(ticks);
    assert ' ' !in n;
    assert letter + " = " + n == letter + " " + ("=" + " " + n);
    WordsSplitAtSpace(letter, "=" + " " + n);
    WordsSplitAtSpace("=", n);
    WordsOfWord(letter);
    WordsOfWord("=");
    WordsOfWord(n);
  }

  /** The words of the joined move terms are those of the known targets. */
  lemma {:induction false} MoveTermsWords(targets: seq<(nat, int)>)
    ensures Words(JoinSpace(MoveTerms(targets))) == MoveWords(KnownTargets(targets))
  {
    if targets != [] {
      var (id, ticks) := targets[0];
      var rest := targets[1..];
      MoveTermsWords(rest);
      if IsAxisId(id) {
        var term := AxisLetter(id).value + " = " + FormatInt(ticks);
        assert MoveTerms(targets) == [term] + MoveTerms(rest);
        WordsJoinCons(term, MoveTerms(rest));
        WordsOfMoveTerm(AxisLetter(id).value, ticks);
        var known := KnownTargets(targets);
        assert known == [targets[0]] + KnownTargets(rest);
        assert known[1..] == KnownTargets(rest);
        assert MoveWords(known) == [AxisLetter(id).value, "=", FormatInt(ticks)] + MoveWords(KnownTargets(rest));
      } else {
        assert MoveTerms(targets) == MoveTerms(rest);
        assert KnownTargets(targets) == KnownTargets(rest);
      }
    }
  }

  /** The three words of one move term. */
  function TermWords(t: (nat, int)): seq<string>
    requires IsAxisId(t.0)
  {
    [AxisLetter(t.0).value, "=", FormatInt(t.1)]
  }

  /** Target `k` owns words `3 * k` to `3 * k + 2`. */
  lemma {:induction false} MoveWordsAt(known: seq<(nat, int)>)
    requires forall k :: 0 <= k < |known| ==> IsAxisId(known[k].0)
    ensures |MoveWords(known)| == 3 * |known|
    ensures forall k :: 0 <= k < |known| ==> MoveWords(known)[3 * k..3 * k + 3] == TermWords(known[k])
  {
    if known != [] {
      var tail := MoveWords(known[1..]);
      MoveWordsAt(known[1..]);
      var ws := MoveWords(known);
      assert ws == TermWords(known[0]) + tail;
      forall k | 0 <= k < |known|
        ensures ws[3 * k..3 * k + 3] == TermWords(known[k])
      {
        if k > 0 {
          assert known[1..][k - 1] == known[k];
          assert ws[3 * k..3 * k + 3] == tail[3 * (k - 1)..3 * (k - 1) + 3];
        }
      }
    }
  }

  /** One move term reads back: its letter names the axis, then `=`, then ticks that parse to the target's. */
  lemma TermReadsBack(t: (nat, int))
    requires IsAxisId(t.0) && Int32Min <= t.1 <= Int32Max
    ensures AxisIdOf(TermWords(t)[0]) == Some(t.0) && TermWords(t)[1] == "="
    ensures ParseInt32(TermWords(t)[2]) == Some(t.1)
  {
    LetterReadsBack(t.0);
    FormatIntRoundTrip(t.1);
  }

  /** The words of the move terms read back to the known targets, three words each. */
  lemma MoveWordsDecode(known: seq<(nat, int)>)
    requires forall k :: 0 <= k < |known| ==> IsAxisId(known[k].0) && Int32Min <= known[k].1 <= Int32Max
    ensures |MoveWords(known)| == 3 * |known|
    ensures forall k :: 0 <= k < |known| ==>
      && AxisIdOf(MoveWords(known)[3 * k]) == Some(known[k].0)
      && MoveWords(known)[3 * k + 1] == "="
      && ParseInt32(MoveWords(known)[3 * k + 2]) == Some(known[k].1)
  {
    MoveWordsAt(known);
    var mw := MoveWords(known);
    forall k | 0 <= k < |known|
      ensures AxisIdOf(mw[3 * k]) == Some(known[k].0) && mw[3 * k + 1] == "="
      ensures ParseInt32(mw[3 * k + 2]) == Some(known[k].1)
    {
      var term := mw[3 * k..3 * k + 3];
      assert term == TermWords(known[k]);
      assert mw[3 * k] == term[0] && mw[3 * k + 1] == term[1] && mw[3 * k + 2] == term[2];
      TermReadsBack(known[k]);
    }
  }

  /**
   * The absolute-move command reads back as `M` followed, for each target of
   * a known axis in request order, by its letter, `=` and its ticks (which
   * `MoveWordsDecode` reads back); targets of unknown axes leave no trace.
   */
  lemma AbsoluteMoveDecodes(targets: seq<(nat, int)>)
    ensures |Words(AbsoluteMoveCommand(targets))| == 1 + 3 * |KnownTargets(targets)|
    ensures Words(AbsoluteMoveCommand(targets))[0] == "M"
    ensures Words(AbsoluteMoveCommand(targets))[1..] == MoveWords(KnownTargets(targets))
  {
    var known := KnownTargets(targets);
    forall k | 0 <= k < |known|
      ensures IsAxisId(known[k].0)
    {
      assert known[k] in known;
    }
    MoveTermsWords(targets);
    MoveWordsAt(known);
    var body := JoinSpace(MoveTerms(targets));
    assert "M " + body == "M" + " " + body;
    WordsSplitAtSpace("M", body);
    WordsOfWord("M");
  }

  /** `R X=100`: relative move of one axis; nothing is sent for an unknown axis. */
  function RelativeMoveCommand(axis: nat, ticks: int): (r: Option<string>)
    ensures r.Some? <==> IsAxisId(axis)
  {
    if IsAxisId(axis) then Some("R " + AxisLetter(axis).value + "=" + FormatInt(ticks)) else None
  }

  /** `S X?`: speed query of one axis; nothing is sent for an unknown axis. */
  function SpeedQuery(axis: nat): (r: Option<string>)
    ensures r.Some? <==> IsAxisId(axis)
  {
    if IsAxisId(axis) then Some("S " + AxisLetter(axis).value + "?") else None
  }

  /** `S X=1.5`: speed setting of one axis, the speed already rendered as text. */
  function SpeedCommand(axis: nat, speedText: string): (r: Option<string>)
    ensures r.Some? <==> IsAxisId(axis)
  {
    if IsAxisId(axis) then Some("S " + AxisLetter(axis).value + "=" + speedText) else None
  }

  // ----- Positional decoding -----

  function Min(a: nat, b: nat): nat { if a < b then a else b }

  /** No later index in `axes[..n]` repeats the axis at `i`: its entry is the one that stays. */
  predicate LastAt(axes: seq<nat>, n: nat, i: nat)
    requires i < n <= |axes|
  {
    forall j :: i < j < n ==> axes[j] != axes[i]
  }

  /**
   * The decoders' indexed loop `for (i = 0; i < axes.Length && i < values.Length; i++)`:
   * entry `i` of the values, when present, is stored under `axes[i]`; a later
   * repeat of an axis overwrites an earlier one.
   */
  function Zip<V>(axes: seq<nat>, vals: seq<Option<V>>, n: nat): map<nat, V>
    requires n <= |axes| && n <= |vals|
  {
    if n == 0 then map[]
    else
      var m := Zip(axes, vals, n - 1);
      if vals[n - 1].Some? then m[axes[n - 1] := vals[n - 1].value] else m
  }

  /** The keys of the zip are exactly the axes at indices whose value is present. */
  lemma {:induction false} ZipKeys<V>(axes: seq<nat>, vals: seq<Option<V>>, n: nat)
    requires n <= |axes| && n <= |vals|
    ensures forall k :: k in Zip(axes, vals, n) <==> exists i :: 0 <= i < n && axes[i] == k && vals[i].Some?
  {
    if n > 0 {
      ZipKeys(axes, vals, n - 1);
    }
  }

  /** The entry of an axis is the value at its last index. */
  lemma {:induction false} ZipValue<V>(axes: seq<nat>, vals: seq<Option<V>>, n: nat, i: nat)
    requires i < n <= |axes| && n <= |vals|
    requires vals[i].Some? && LastAt(axes, n, i)
    ensures axes[i] in Zip(axes, vals, n) && Zip(axes, vals, n)[axes[i]] == vals[i].value
  {
    if i < n - 1 {
      ZipValue(axes, vals, n - 1, i);
    }
  }

  /** With distinct axes and a value present at every index, the zip maps each axis to its own value. */
  lemma ZipDistinct<V>(axes: seq<nat>, vals: seq<Option<V>>, xs: seq<V>)
    requires |axes| == |vals| == |xs|
    requires forall i, j :: 0 <= i < j < |axes| ==> axes[i] != axes[j]
    requires forall i :: 0 <= i < |vals| ==> vals[i] == Some(xs[i])
    ensures Zip(axes, vals, |axes|).Keys == (set i | 0 <= i < |axes| :: axes[i])
    ensures forall i :: 0 <= i < |axes| ==> Zip(axes, vals, |axes|)[axes[i]] == xs[i]
  {
    ZipKeys(axes, vals, |axes|);
    forall i | 0 <= i < |axes|
      ensures axes[i] in Zip(axes, vals, |axes|) && Zip(axes, vals, |axes|)[axes[i]] == xs[i]
    {
      assert LastAt(axes, |axes|, i);
      ZipValue(axes, vals, |axes|, i);
    }
  }

  /** Tokens of a position reply: line ends and `:A ` removed, split on spaces. */
  function PositionTokens(response: string): seq<string>
  {
    Words(RemoveAll(RemoveAll(response, LineEnd), ":A "))
  }

  function ParsedTokens(tokens: seq<string>): (vals: seq<Option<int>>)
    ensures |vals| == |tokens|
    ensures forall i :: 0 <= i < |tokens| ==> vals[i] == ParseInt32(tokens[i])
  {
    seq(|tokens|, i requires 0 <= i < |tokens| => ParseInt32(tokens[i]))
  }

  /** Positions in ticks, keyed by the requested (unfiltered) axes. */
  function DecodePositions(axes: seq<nat>, response: string): map<nat, int>
  {
    var vals := ParsedTokens(PositionTokens(response));
    Zip(axes, vals, Min(|axes|, |vals|))
  }

  /** Characters of an axis-state reply: line ends and `:A` removed, one entry per character. */
  function StatePayload(response: string): string
  {
    RemoveAll(RemoveAll(response, LineEnd), AckMarker)
  }

  function StateEntries(payload: string): (vals: seq<Option<string>>)
    ensures |vals| == |payload|
    ensures forall i :: 0 <= i < |payload| ==> vals[i] == Some([payload[i]])
  {
    seq(|payload|, i requires 0 <= i < |payload| => Some([payload[i]]))
  }

  function DecodeStates(axes: seq<nat>, response: string): map<nat, string>
  {
    var vals := StateEntries(StatePayload(response));
    Zip(axes, vals, Min(|axes|, |vals|))
  }

  /** Tokens of a moving-state reply: line ends and `:A` removed, split on spaces. */
  function MovingTokens(response: string): seq<string>
  {
    Words(RemoveAll(RemoveAll(response, LineEnd), AckMarker))
  }

  function MovingFlags(tokens: seq<string>): (vals: seq<Option<bool>>)
    ensures |vals| == |tokens|
    ensures forall i :: 0 <= i < |tokens| ==> vals[i] == Some('B' in tokens[i])
  {
    seq(|tokens|, i requires 0 <= i < |tokens| => Some('B' in tokens[i]))
  }

  function DecodeMoving(axes: seq<nat>, response: string): map<nat, bool>
  {
    var vals := MovingFlags(MovingTokens(response));
    Zip(axes, vals, Min(|axes|, |vals|))
  }
}
