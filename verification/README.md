# MS2000 stage controller driver, modelled in Dafny

This project models the driver for the ASI MS2000 XYZ stage controller. The driver has two classes.

- `MS2000` (ASI/MS2000.cs) owns the serial port. It does the following:
  - finds the controller among the serial ports;
  - writes ASCII commands terminated by `\r`;
  - cuts `:A …\r\n` reply frames out of the incoming byte stream;
  - checks each reply for the acknowledgement `:A` and the negative acknowledgement `:N<code>`;
  - decodes multi-axis replies against the requested axis ids (1, 2, 3 for X, Y, Z).
- `MS2000ASIMotor` (ASI/MS2000ASIMotor.cs) sits on top of `MS2000`. It keeps cached positions and limit flags, which a 200 ms timer (the "refresher") updates. It also runs three move-until-done poll loops (absolute move, relative move, origin homing) and `Stop`, which cancels the running move.

The model is split into these modules:

- `Options`: the option type.
- `Text`: ordinal string search, `Replace(x, "")`, `Trim`, `Split(' ', RemoveEmptyEntries)` and `Join(" ")`.
- `Numbers`:
  - `int.TryParse` and `int.ToString` on 32-bit integers;
  - the speed regular expression `-?\d+(\.\d+)?` read as an exact number.
- `Protocol`:
  - the error-code enumeration and `CheckReturnMsg`;
  - the axis table and the command builders;
  - the indexed loops that zip reply tokens against the requested axes.
- `Framing`: the receive loop of `SerialPort_DataReceived`, as a function of the buffer, and its properties.
- `Engine`: what a waiting caller receives. The serial data arrives in pieces. Each piece runs the receive loop once, and the caller wakes after the first piece that completes a frame.
- `Queries`: the query operations as functions of the reply, plus the `for` loops that fill their dictionaries.
- `Driver`: the class `MS2000`.
  - Port search: `Valid`, `OpenCom`, `DisConnect`.
  - The receive handler: a `while` loop over the buffer field.
  - `SendCommand` and `SendCommandAsync`, each waiting on the handler.
  - Every command operation.
- `Motor`: the class `Ms2000Motor`.
  - The cache and the refresher flag.
  - The cancellation scope of the current move.
  - The poll loop, as a `while` loop proved against a function of the state.
  - `Stop` and the speed accessors.

The serial line is replaced by inputs.

- A command's input is the list of text pieces the port delivers before the time-out.
- A port that the search tries is described by four things: its name; whether `CheckPort` finds it free; whether opening it and writing the identification request go through, or `Open` throws, or `Write` throws; and the pieces it sends back.
- Everything written to the port is appended to a log.
- The motor sees the driver one reply at a time, from a script. Each entry says two things:
  - what the driver returned (`None` when it timed out or the port was closed);
  - whether a `Stop` on another thread cancelled the move while that exchange was under way.

The model keeps these behaviours of the code as written:

- `GetVersion` reports `string.IsNullOrEmpty(version)`. Every acknowledged reply is non-empty, so it never reports success, and the motor always publishes an empty version string.
- The controller's negative reply `:N-1\r\n` carries no `:A`, so the receive loop never frames it. A command that the controller refuses times out; the caller never sees an error code.
- `Valid(com)` for a named port returns whether any port name is on record. A port name left by an earlier search therefore makes a port that did not answer succeed.
- `CheckPort` calls a port free when its trial open fails with any error other than an access refusal. When `Open` or `Write` on such a port then throws inside `Valid`, the catch returns `false`: the search stops there, later ports are never tried, and a port name already on record does not help.
- When no port is free, `Valid("")` leaves the port object as it was. If that object is still open from an earlier `OpenCom` and a name is on record, the search succeeds and the `Open` that follows in `OpenCom` throws.
- The position, state and moving-flag decoders zip against the unfiltered axis array. Each entry is keyed by `axes[i]`, and a repeated axis keeps its last entry.
- A rejected absolute move or homing command returns without restarting the refresher. A homing that settles also leaves the refresher stopped. A cancelled move itself leaves the refresher as it was. Every cancellation comes from a concurrent `Stop`, and `Stop` restarts the refresher after its `HALT` (ASI/MS2000ASIMotor.cs:288-290). So after a move that `Stop` cancelled, the refresher is running once `Stop` has returned; `Motor.Stopped` states that rule.

## Model

| member | source | states |
|---|---|---|
| Text.IndexOf | ASI/MS2000.cs:810 | the result is -1 or an index at or after `from` where the pattern occurs, and the pattern occurs nowhere between `from` and that index (nowhere at all when it is -1) |
| Text.RemoveAll | ASI/MS2000.cs:238 | `Replace(p, "")` never makes the text longer |
| Text.ContainsIndexOf | ASI/MS2000.cs:897-899 | `Contains` holds exactly when an ordinal search from 0 finds the pattern |
| Text.RemoveAllNotContained | ASI/MS2000.cs:895 | `Replace(p, "")` leaves a text that does not hold `p` unchanged |
| Text.RemoveAllKeepsContains | ASI/MS2000.cs:895-899 | removing `\r\n` cannot destroy an occurrence of a marker that has no `\r` or `\n` in it |
| Text.ContainsTrim | ASI/MS2000.cs:895 | trimming characters that are not at the ends of a marker keeps the marker present or absent, as it was |
| Text.TrimEnds | ASI/MS2000.cs:895 | `Trim(chars)` leaves neither the first nor the last character in the trimmed set |
| Text.TrimUntouched | ASI/MS2000.cs:895 | text whose ends are not trimmed characters is left unchanged |
| Text.Words | ASI/MS2000.cs:239 | `Split(' ', RemoveEmptyEntries)`: every token is non-empty and holds no space |
| Text.WordsSplitAtSpace | ASI/MS2000.cs:239 | a space separates tokens: the tokens of `a + " " + b` are the tokens of `a` followed by those of `b`, so leading, trailing and repeated spaces produce nothing |
| Text.WordsOfWord | ASI/MS2000.cs:239 | a non-empty run without spaces is one token, itself; with the previous row, the tokens are the maximal space-free runs in order |
| Text.WordsOfJoin | ASI/MS2000.cs:231 | splitting a space-joined list of space-free non-empty words gives back the same list |
| Numbers.ParseInt32 | ASI/MS2000.cs:248 | `int.TryParse` succeeds only with a value within the 32-bit range |
| Numbers.TryParseInt32 | ASI/MS2000.cs:248 | the out-parameter form: the success flag agrees with the parse, the value is the parsed one on success and 0 on failure |
| Numbers.FormatIntChars | ASI/MS2000.cs:573 | a formatted integer holds only digits and `-` |
| Numbers.FormatIntRoundTrip | ASI/MS2000.cs:573 | every 32-bit integer formatted as the driver writes it parses back to itself |
| Numbers.FirstDecimal | ASI/MS2000.cs:367-371 | the regular expression finds no match exactly when no position starts a (possibly negative) digit run; otherwise the value is the number written at the leftmost position that starts one |
| Numbers.FirstDecimalOfInt | ASI/MS2000.cs:367-371 | the speed read from a whole number written out is that number |
| Numbers.FractionOf | ASI/MS2000.cs:371 | the part `.digits` of a match is worth the digits over ten to the power of their count |
| Numbers.DecimalOfParts | ASI/MS2000.cs:367-371 | `whole.frac` starts a match, and it is read as the whole part plus the fraction, exactly |
| Protocol.ErrorCodeOf | ASI/MS2000.cs:929-939 | `Enum.IsDefined` and the cast: a code is returned exactly for the numbers 1-7 and 21, and it carries that number |
| Protocol.TrailingDigitCount | ASI/MS2000.cs:901 | `\d+$`: the counted suffix is all digits and the character before it is not a digit |
| Protocol.CheckReturnMsg | ASI/MS2000.cs:887-927 | a reply passes exactly when it is not blank and, with `\r\n` removed, holds `:A` and does not hold `:N` |
| Protocol.NegativeAckRefused | ASI/MS2000.cs:897-913 | a reply holding both `:A` and `:N` is refused, whatever else it holds |
| Protocol.PositiveAckAccepted | ASI/MS2000.cs:897-920 | a reply holding `:A` and, with line ends removed, no `:N` is accepted |
| Protocol.FrameCheck | ASI/MS2000.cs:887-927 | for text without a line end the check is exactly "holds `:A` and not `:N`" |
| Protocol.AcceptedNotEmpty | ASI/MS2000.cs:889-897 | an accepted reply has at least two characters |
| Protocol.AxisLetter | ASI/MS2000.cs:189 | a letter exists exactly for ids 1-3, and it is a single `X`, `Y` or `Z` |
| Protocol.AxisIdOf | ASI/MS2000.cs:189 | the reverse lookup inverts the table and fails exactly on letters the table does not produce |
| Protocol.LetterReadsBack | ASI/MS2000.cs:189 | the letter of each known axis is looked up back to that axis |
| Protocol.KnownAxes | ASI/MS2000.cs:231 | `Where(map.ContainsKey)`: an id is kept exactly when it was requested and is 1-3 |
| Protocol.KnownAxesAppend | ASI/MS2000.cs:231 | the filter keeps request order: filtering a concatenation concatenates the filtered parts |
| Protocol.KnownAxesAllKnown | ASI/MS2000.cs:231 | a request made only of known ids passes the filter unchanged |
| Protocol.AxisListDecodes | ASI/MS2000.cs:231-232 | the space-joined axis list splits back into one letter per known id, each naming that id, in request order |
| Protocol.CommandWords | ASI/MS2000.cs:231-232 | a command word, a space and an axis list split into the word followed by one term per known id, in request order |
| Protocol.AxisCommandsRead | ASI/MS2000.cs:231-232 | the commands `W` (line 232), `RS X-` (277-278), `RS X?` (323-324), `SI` (671-672) and `!` (704-705) read back as their command word followed by the bare letter, `X-` or `X?` of each known axis, in request order |
| Protocol.KnownTargets | ASI/MS2000.cs:571-572 | `Where(map.ContainsKey(kv.Key))` over the targets: a target is kept exactly when it was given and its axis is 1-3, and nothing is added |
| Protocol.WordsOfMoveTerm | ASI/MS2000.cs:573 | one term `X = ticks` splits into the letter, `=` and the ticks written out |
| Protocol.MoveTermsWords | ASI/MS2000.cs:571-573 | the joined move terms split into letter, `=`, ticks for each known target in order; targets of unknown axes leave no trace |
| Protocol.MoveWordsAt | ASI/MS2000.cs:571-573 | the words of the move terms come in threes, the `k`-th three being the words of the `k`-th known target |
| Protocol.TermReadsBack | ASI/MS2000.cs:573 | the words of one term read back to the target: the letter names its axis, then `=`, then ticks that parse to its value |
| Protocol.MoveWordsDecode | ASI/MS2000.cs:571-573 | for 32-bit ticks, word `3k` names the axis of the `k`-th known target, word `3k+1` is `=` and word `3k+2` parses to its ticks |
| Protocol.AbsoluteMoveDecodes | ASI/MS2000.cs:571-575 | the text of `M X = 1000 Y = 2000` splits into `M` followed by three words per known target, in request order, and nothing else |
| Protocol.RelativeMoveCommand | ASI/MS2000.cs:605-606 | an `R` command exists exactly for a known axis |
| Protocol.SpeedQuery | ASI/MS2000.cs:360-361 | an `S X?` query exists exactly for a known axis |
| Protocol.SpeedCommand | ASI/MS2000.cs:395-396 | an `S X=` command exists exactly for a known axis |
| Protocol.ZipKeys | ASI/MS2000.cs:246-252 | the keys filled by the indexed loop are exactly the `axes[i]` below the bound whose value is present |
| Protocol.ZipValue | ASI/MS2000.cs:246-252 | the entry of an axis is the value at the last index where it appears |
| Protocol.ZipDistinct | ASI/MS2000.cs:246-252 | with distinct axes and a value at every index, each axis maps to its own value and there are no other keys |
| Framing.NextFrame | ASI/MS2000.cs:810-817 | a located frame starts at least two characters before its line end, and the line end lies inside the buffer |
| Framing.NextFrameFacts | ASI/MS2000.cs:810-817 | the cut is at the first `:A` and at the first `\r\n` at or after it; there is none exactly when no `:A` is followed by a `\r\n` |
| Framing.NextFrameAppend | ASI/MS2000.cs:778-817 | text arriving behind the buffer never moves a frame already located in it |
| Framing.Extract | ASI/MS2000.cs:807-830 | the loop as written never leaves more than the buffer it started with |
| Framing.ExtractStep | ASI/MS2000.cs:810-823 | one pass hands out the text from the first `:A` up to the line end, then continues on everything after the `\r\n`, so what lies before the marker is discarded |
| Framing.ExtractNone | ASI/MS2000.cs:811-817 | the loop stops at once, keeping the whole buffer, when no frame can be located |
| Framing.NoFramesKeepsAll | ASI/MS2000.cs:807-830 | a run that hands out no frame found none and kept the whole buffer |
| Framing.ExtractLeavesNoFrame | ASI/MS2000.cs:807-830 | after the loop no complete frame is left in the buffer |
| Framing.ExtractAppend | ASI/MS2000.cs:778-830 | data delivered in two pieces gives the same frames in the same order, and the same rest, as data delivered at once |
| Framing.Capped | ASI/MS2000.cs:833-834 | the kept buffer never exceeds 4096 characters; a shorter one is kept, a longer one is emptied |
| Framing.FrameAtWellFormed | ASI/MS2000.cs:820 | the frame cut at the located position starts with `:A` and holds no `\r\n` |
| Framing.FramesWellFormed | ASI/MS2000.cs:807-830 | every frame handed out starts with `:A` and holds no `\r\n` |
| Framing.FrameAccepted | ASI/MS2000.cs:887-927 | for a frame the reply check comes down to "holds no `:N`"; a frame is never empty |
| Framing.NoAckNoFrame | ASI/MS2000.cs:810-812 | text without `:A`, such as a bare negative reply, yields no frame and is kept whole |
| Framing.PartialFrameKept | ASI/MS2000.cs:815-817 | text without a line end yields no frame and is kept whole, waiting for more data |
| Framing.SingleReply | ASI/MS2000.cs:807-830 | one complete reply line behind noise that holds no `:` gives exactly that reply and leaves an empty buffer |
| Engine.Settle | ASI/MS2000.cs:827 | `TrySetResult` per frame: a waiting slot is completed with the first frame only; any other slot is left as it was |
| Engine.LastOr | ASI/MS2000.cs:826 | `_lastResponse` ends up as the last frame handed out, or as before when there was none |
| Engine.SettleAppend | ASI/MS2000.cs:826-827 | handing out frames in two runs settles the slot and the last response as one run would |
| Engine.Deliver | ASI/MS2000.cs:833-834 | what the waiting caller finds in the buffer is at most 4096 characters, unless no piece arrived |
| Engine.DeliveredFramesWellFormed | ASI/MS2000.cs:807-830 | every frame that can wake a caller starts with `:A`, holds no line end and is not empty |
| Engine.WholeReplyDelivered | ASI/MS2000.cs:807-834 | a reply line arriving whole after a command is what the caller receives, and the buffer is left empty |
| Engine.SplitReplyDelivered | ASI/MS2000.cs:778-834 | a reply split over two pieces is delivered as if it had arrived at once, when the first piece holds no frame and fits the buffer |
| Engine.OverflowForgotten | ASI/MS2000.cs:833-834 | a first piece with no frame that overflows the buffer is lost entirely |
| Engine.NegativeReplyTimesOut | ASI/MS2000.cs:810-812 | a reply without `:A` wakes nobody, and it stays in the buffer |
| Queries.GetPosition | ASI/MS2000.cs:226-263 | succeeds exactly on an acknowledged reply; on success the positions are the decoded tokens keyed by requested axes, on failure there are none |
| Queries.GetAxisState | ASI/MS2000.cs:272-306 | succeeds exactly on an acknowledged reply; the states are the payload characters keyed by requested axes, and empty on failure |
| Queries.IsAxisMoving | ASI/MS2000.cs:314-347 | succeeds exactly on an acknowledged reply; the keys are the `axes[i]` that have a token, and the flag of such an axis is whether its token holds `B` |
| Queries.MovingValues | ASI/MS2000.cs:330-336 | the flag stored for `axes[i]` at its last index is whether token `i` holds `B` |
| Queries.DecodePositionsLoop | ASI/MS2000.cs:238-252 | the indexed loop fills exactly the positions the decoder defines |
| Queries.DecodeStatesLoop | ASI/MS2000.cs:284-295 | the indexed loop fills exactly the states the decoder defines, one character per axis |
| Queries.DecodeMovingLoop | ASI/MS2000.cs:330-336 | the indexed loop fills exactly the moving flags the decoder defines |
| Queries.GetVersion | ASI/MS2000.cs:197-219 | an unacknowledged reply gives failure and no version; an acknowledged one gives the reply as the version |
| Queries.GetVersionNeverSucceeds | ASI/MS2000.cs:212 | the reported flag is false for every reply |
| Queries.PublishedVersionEmpty | ASI/MS2000ASIMotor.cs:377 | the version text the motor publishes is always empty |
| Queries.ReadSpeed | ASI/MS2000.cs:355-383 | succeeds exactly on an acknowledged reply, with speed 0 on failure; on success the speed is the number at the leftmost match in the stripped reply, and 0 when there is no match |
| Queries.ZipThree | ASI/MS2000ASIMotor.cs:37-38 | zipping against X, Y, Z fills three entries exactly when the first three values are present, and then holds them in order |
| Queries.FullPositionReply | ASI/MS2000ASIMotor.cs:37-38 | a query against X, Y, Z gives three positions exactly when the reply is acknowledged and its first three tokens parse; the positions are those tokens |
| Queries.FullStateReply | ASI/MS2000ASIMotor.cs:55-56 | a query against X, Y, Z gives three states exactly when the reply is acknowledged and its payload has three characters; the states are those characters |
| Queries.PositionReplyTokens | ASI/MS2000.cs:238-239 | a position reply in the controller's format is accepted, and its tokens are the tick values written out, in order |
| Queries.TickWordsParse | ASI/MS2000.cs:248 | each tick value within 32 bits parses back from its token |
| Queries.PositionReplyRoundTrip | ASI/MS2000.cs:238-252 | a reply carrying one tick value per requested axis (distinct axes) decodes to exactly those values, keyed by those axes |
| Queries.NumericReply | ASI/MS2000.cs:895-899 | a reply of `:A ` and numbers passes the check and strips down to its numbers |
| Queries.PlainReply | ASI/MS2000.cs:895-899 | a reply of `:A ` and text without `:` or `\r` passes the check and strips down to that text |
| Queries.LabelledNumber | ASI/MS2000.cs:367-371 | in a payload `X=number` the leftmost match starts at the number, not at the letter |
| Queries.ReadSpeedOfInt | ASI/MS2000.cs:367-371 | a speed reported as a whole number is read back as that number |
| Queries.ReadSpeedOfDecimal | ASI/MS2000.cs:355-371 | a reply `:A X=whole.frac`, such as `:A X=1.25`, succeeds with exactly that value |
| Driver.Listen | ASI/MS2000.cs:125-145 | the search wakes only when the gathered text holds `\r`; until then it holds all pieces, appended in order |
| Driver.FirstEnding | ASI/MS2000.cs:46-72 | the search stops at the first port that is free and either answers with `MS2000` or throws on `Open` or `Write`; no earlier port does either; none means no port does |
| Driver.LastFree | ASI/MS2000.cs:49-53 | the port object was last pointed at the last free port tried: it is free and every port after it is busy |
| Driver.ThrowEndsSearch | ASI/MS2000.cs:114-118 | a free port that throws, met before any port answers, makes `Valid("")` fail with the name on record unchanged, and no later port is tried |
| Driver.NoFreePortKeepsOpen | ASI/MS2000.cs:42-76 | with no free port, `Valid("")` writes nothing and leaves the port object as it was; when it was open under a name on record, the search succeeds with the port still open |
| Driver.NamedSuccessCloses | ASI/MS2000.cs:78-110 | a named search that succeeds leaves the port object closed and pointed at the named port |
| Driver.LastFrameNotEmpty | ASI/MS2000.cs:869-872 | the last frame of the piece that wakes a caller is not empty, so `SendCommand` succeeds whenever it wakes |
| Driver.EngineReplies | ASI/MS2000.cs:807-830 | every reply either engine hands back is a well-formed frame, acknowledged exactly when it holds no `:N` |
| Driver.WholeReplyReceived | ASI/MS2000.cs:744-771 | a whole reply line after the command is what both the blocking and the asynchronous caller receive |
| Driver.NegativeReplyFails | ASI/MS2000.cs:869-877 | the controller's negative reply makes both kinds of call time out and fail |
| Driver.MS2000.constructor | ASI/MS2000.cs:14-23 | a new driver has no port name, a closed port named COM1, empty buffers, no waiter and nothing written |
| Driver.MS2000.DataReceivedValid | ASI/MS2000.cs:125-145 | a non-empty piece is appended to the gathered text, and the search is woken once that text holds `\r`; nothing else changes |
| Driver.MS2000.ProbePort | ASI/MS2000.cs:51-73 | one use of a free port: the port object names it; it throws exactly when `Open` or `Write` throws, and is left open only when `Write` threw; otherwise one identification request is written, the port is closed, and it answers exactly when the reply gathered in time holds `MS2000`; the listener holds what arrived; the port name on record is unchanged |
| Driver.MS2000.TryPort | ASI/MS2000.cs:48-73 | a port is settled on exactly when it is free, opens and answers, and throws exactly when it is free and `Open` or `Write` throws; only a free port is used, and a request is written only to one that opens |
| Driver.MS2000.ValidAuto | ASI/MS2000.cs:42-118 | the port name becomes that of the first port settled on, or stays as it was; the search stops at the first port that answers or throws; one request is written per port that opened up to there; the result is false when a port threw and otherwise whether a port name is on record |
| Driver.MS2000.ValidExplicit | ASI/MS2000.cs:78-118 | a busy port fails and changes nothing; a port that throws fails, whatever name is on record; otherwise the port is probed, named on an answer, and success means an answer or a name already on record; the port object is left as the probe left it |
| Driver.MS2000.OpenCom | ASI/MS2000.cs:25-36 | the search runs over all ports (empty name) or the named port; the port name, the port object and the requests written are the search's; on success the port is opened, unless the search left it open, in which case `Open` throws; a failed search does not open it |
| Driver.MS2000.DisConnect | ASI/MS2000.cs:170-176 | the port name is forgotten and the port closed; the result is true |
| Driver.MS2000.DataReceived | ASI/MS2000.cs:773-841 | after the handler, the buffer is the loop's remainder, emptied beyond 4096 characters; the last response is the last frame; a waiting slot holds the first frame; the waiter is woken when a frame came |
| Driver.MS2000.SendCommand | ASI/MS2000.cs:850-885 | the call succeeds exactly when the port is open and a frame arrives before the time-out; the response is the last frame of the piece that woke it, never empty; the command went out with `\r` |
| Driver.MS2000.SendCommandAsync | ASI/MS2000.cs:744-771 | the call succeeds exactly when the port is open and a frame arrives in time; the response is the first frame, which completes the slot |
| Driver.MS2000.Exchange | ASI/MS2000.cs:495-500 | a synchronous command is accepted exactly when its reply arrives and passes the check |
| Driver.MS2000.ExchangeAsync | ASI/MS2000.cs:577-586 | an asynchronous command is accepted exactly when its first frame arrives and passes the check |
| Driver.MS2000.GetVersion | ASI/MS2000.cs:197-219 | `V` is sent, and the result is the version rule applied to the reply |
| Driver.MS2000.GetPosition | ASI/MS2000.cs:226-263 | `W` with the known axes is sent, and the result is the position decoding of the reply |
| Driver.MS2000.GetAxisState | ASI/MS2000.cs:272-306 | `RS` with `X-`-style terms is sent, and the result is the state decoding of the reply |
| Driver.MS2000.IsAxisMoving | ASI/MS2000.cs:314-347 | `RS` with `X?`-style terms is sent, and the result is the moving-flag decoding of the reply |
| Driver.MS2000.GetSpeed | ASI/MS2000.cs:355-383 | an unknown axis fails with speed 0 and sends nothing; otherwise `S X?` is sent and the first number of an acknowledged reply is the speed |
| Driver.MS2000.SetSpeed | ASI/MS2000.cs:391-411 | an unknown axis fails and sends nothing; otherwise `S X=` is sent and must be acknowledged |
| Driver.MS2000.ResetParam | ASI/MS2000.cs:489-508 | `RESET` is sent and must be acknowledged |
| Driver.MS2000.SetHome | ASI/MS2000.cs:514-536 | `Z` is sent and must be acknowledged |
| Driver.MS2000.Half | ASI/MS2000.cs:542-559 | `HALT` is sent and must be acknowledged |
| Driver.MS2000.AbsoluteMoveAsync | ASI/MS2000.cs:567-593 | `M` with one `letter = ticks` term per known axis is sent asynchronously and must be acknowledged |
| Driver.MS2000.RelativeMoveAsync | ASI/MS2000.cs:601-624 | an unknown axis fails and sends nothing; otherwise `R X=ticks` is sent asynchronously and must be acknowledged |
| Driver.MS2000.OriginHomeAsync | ASI/MS2000.cs:666-690 | `SI` with the known axes is sent asynchronously and must be acknowledged |
| Driver.MS2000.HomeAsync | ASI/MS2000.cs:700-725 | `!` with the known axes is sent asynchronously and must be acknowledged |
| Motor.RefreshPosition | ASI/MS2000ASIMotor.cs:33-49 | a position refresh never touches the limit flags |
| Motor.RefreshLimits | ASI/MS2000ASIMotor.cs:51-67 | a limit refresh never touches the positions |
| Motor.PositionRefreshed | ASI/MS2000ASIMotor.cs:35-47 | the positions become the first three parsed tokens of an acknowledged reply that has them, and are unchanged otherwise |
| Motor.LimitsRefreshed | ASI/MS2000ASIMotor.cs:53-65 | each limit flag becomes whether that axis's state letter is `L` or `U` when three letters came back, and all are unchanged otherwise |
| Motor.RefreshFromPositionReply | ASI/MS2000ASIMotor.cs:37-47 | a controller reporting three positions in its reply format updates the cache to exactly those positions |
| Motor.RefreshPositionTimeOut | ASI/MS2000ASIMotor.cs:38-43 | a timed-out position query leaves the cache as it was |
| Motor.RefreshLimitsTimeOut | ASI/MS2000ASIMotor.cs:56-60 | a timed-out state query leaves the cache as it was |
| Motor.Round | ASI/MS2000ASIMotor.cs:142-146 | a round ends the loop with a guaranteed exit or goes on having used up a reply; an observed cancellation ends it at once with nothing sent |
| Motor.LimitsPart | ASI/MS2000ASIMotor.cs:148-150 | the same for the part of a round from the second checkpoint on |
| Motor.MovingPart | ASI/MS2000ASIMotor.cs:152-169 | the same for the part of a round from the third checkpoint on |
| Motor.PollUntilDone | ASI/MS2000ASIMotor.cs:142-170 | the loop ends in settled (the last query succeeded and reports at least one axis, none moving), query failed (the last query failed) or cancelled (cancellation was requested); it leaves the refresher and the scope alone |
| Motor.FirstRoundSettles | ASI/MS2000ASIMotor.cs:142-166 | when the first round is undisturbed and every polled axis reports stopped, the loop settles after exactly one position query, one state query and one moving query |
| Motor.TimeOutFailsPoll | ASI/MS2000ASIMotor.cs:154-159 | when every query times out, the loop fails in its first round and the cache is unchanged |
| Motor.Move | ASI/MS2000ASIMotor.cs:125-183 | a rejected or cancelled move leaves the refresher stopped, except a relative move, which leaves it as it was; a failed query restarts it; a settled move restarts it unless it was homing; settling means all polled axes stopped; a command that is refused sends nothing more |
| Motor.Conclude | ASI/MS2000ASIMotor.cs:154-166 | after the loop only the refresher changes: it restarts on a failed query, and on settling for moves other than homing |
| Motor.TargetAxes | ASI/MS2000ASIMotor.cs:141 | the axes polled after an absolute move are the target keys, in order |
| Motor.Stopped | ASI/MS2000ASIMotor.cs:283-298 | `Stop` cancels the current scope if there is one, sends `HALT`, and leaves the refresher running and the cache unchanged |
| Motor.StopEndsPoll | ASI/MS2000ASIMotor.cs:144-152 | a poll loop that starts after a `Stop` ends as cancelled at its first checkpoint and sends nothing |
| Motor.AxisSpeedOfInt | ASI/MS2000ASIMotor.cs:379-386 | a whole-number speed reported by the controller is the speed the getter returns |
| Motor.Ms2000Motor.constructor | ASI/MS2000ASIMotor.cs:19-25 | a new motor has a zero cache, a stopped refresher, no move scope and nothing sent |
| Motor.Ms2000Motor.Exchange | ASI/MS2000ASIMotor.cs:37 | one driver call sends the command and takes the next scripted reply; a concurrent `Stop` cancels an open scope |
| Motor.Ms2000Motor.GetPositionAndRefresh | ASI/MS2000ASIMotor.cs:33-49 | the position query is sent and the cache changes as the position refresh rule says |
| Motor.Ms2000Motor.SetPosition | ASI/MS2000ASIMotor.cs:45-47 | only the three positions change |
| Motor.Ms2000Motor.GetLimitStateAndRefresh | ASI/MS2000ASIMotor.cs:51-67 | the state query is sent and the cache changes as the limit refresh rule says |
| Motor.Ms2000Motor.SetLimits | ASI/MS2000ASIMotor.cs:63-65 | only the three limit flags change |
| Motor.Ms2000Motor.OnTimer | ASI/MS2000ASIMotor.cs:27-31 | a timer tick refreshes the positions, then the limits |
| Motor.Ms2000Motor.InitMotor | ASI/MS2000ASIMotor.cs:69-74 | the refresher starts exactly when the port was opened, and that is the result |
| Motor.Ms2000Motor.PollLoop | ASI/MS2000ASIMotor.cs:142-170 | the `while (true)` loop ends with the exit, the last query and the state that the poll function defines |
| Motor.Ms2000Motor.OpenScope | ASI/MS2000ASIMotor.cs:129-133 | a fresh, uncancelled scope is opened, and the refresher is stopped when asked |
| Motor.Ms2000Motor.MoveBody | ASI/MS2000ASIMotor.cs:135-170 | with the scope open, the command sent and the poll run, the result and the new state are those of the move function |
| Motor.Ms2000Motor.AfterPoll | ASI/MS2000ASIMotor.cs:154-166 | the result is true exactly on settling, and the refresher restarts as the conclusion rule says |
| Motor.Ms2000Motor.AbsoluteMoveUntilDone | ASI/MS2000ASIMotor.cs:125-183 | returns true exactly when the move settles; the new state is that of an absolute move polling the target axes |
| Motor.Ms2000Motor.RelativeMoveUntilDone | ASI/MS2000ASIMotor.cs:198-252 | the same for a relative move of one axis, with the refresher left running |
| Motor.Ms2000Motor.OriginHomeUntilDone | ASI/MS2000ASIMotor.cs:310-365 | the same for homing the given axes |
| Motor.Ms2000Motor.Stop | ASI/MS2000ASIMotor.cs:283-298 | the result is whether `HALT` was acknowledged, and the new state is the stop rule's |
| Motor.Ms2000Motor.PausedCommand | ASI/MS2000ASIMotor.cs:275-281 | a command sent with the refresher paused: the result is its acknowledgement, and the refresher is running afterwards |
| Motor.Ms2000Motor.SetOriginPos | ASI/MS2000ASIMotor.cs:275-281 | `Z` is sent with the refresher paused, and the result is its acknowledgement |
| Motor.Ms2000Motor.ResetParam | ASI/MS2000ASIMotor.cs:367-374 | `RESET` is sent with the refresher paused, and the result is its acknowledgement |
| Motor.Ms2000Motor.AxisSpeed | ASI/MS2000ASIMotor.cs:379-436 | the getter returns 0 on an unknown axis or a failed query and the speed read otherwise; the refresher runs afterwards |
| Motor.Ms2000Motor.SetAxisSpeed | ASI/MS2000ASIMotor.cs:444-450 | the setter sends `S X=` with the refresher paused; the result is its acknowledgement, false on an unknown axis |
| Motor.Ms2000Motor.VersionInfo | ASI/MS2000ASIMotor.cs:376-377 | the version entry is always empty |

## Left out

- Serial I/O: opening, closing, writing and `ReadExisting` are modelled as fields and a write log. `Discard` (`DiscardInBuffer`) and `Dispose` and the finalizer are not part of this model.
- Threads and waiting.
  - The time-outs (2000 ms per command, 1500 ms for identification) are modelled as the pieces that arrive before them.
  - Pieces arriving after a caller woke up are not modelled.
  - The timer running concurrently with a move is not modelled, and neither is `lock (_serialLock)`.
  - A concurrent `Stop` is modelled only through the cancellation flag of the script.
- Delays: `Task.Delay(50)`, the poll interval and the `Thread.Sleep(1500)` after `RESET` change no state and are left out.
- Exceptions. `SendCommand` and `SendCommandAsync` on a closed port throw, and every caller turns the throw into `false`; the model returns failure directly. The exception path of the receive handler (`TrySetException`) has no counterpart, because no cut in the model can go out of range.
- `CheckReturnMsg` throws inside `int.Parse` when the trailing digits of a negative reply exceed 32 bits. The caller's catch turns this into `false`, and the model gives the same `false` without the throw. The error code is only logged either way.
- `CheckPort` (ASI/MS2000.cs:147-168): its exception-based verdict is the `free` flag of each port. Whether the later `Open` and `Write` in `Valid` go through is the port's opening outcome; a trial open that failed with an error other than an access refusal is what lets a free port throw there.
- A `Write` that throws is modelled as writing nothing to the log.
- Port enumeration: `SerialPort.GetPortNames` is the list of ports given to the search.
- Handler attach and detach (`DataReceived +=`, `-=`) are left out. So is the double attachment that a second `OpenCom` causes.
- Floating point.
  - Positions are integer ticks; `Math.Round(pos * 0.1, 5)` is not part of this model.
  - `(int)(v / 0.1)` in the move commands is replaced by tick arguments.
  - The double that `SetSpeed` formats is replaced by its text.
  - `double.Parse` of the speed match is an exact rational.
- Culture: `int.TryParse`, `int.ToString()` and `double.Parse` use the current culture. The model fixes a culture like en-US or the invariant culture: ASCII digits, a leading `-`, `.` as the decimal point and no group separator. Cultures with another decimal separator or another minus sign are not part of this model.
- `GetSpeeds`, `SetSpeeds` and the private multi-axis `RelativeMoveAsync` (ASI/MS2000.cs:419-481, 632-658) are not part of this model. They are never called from the motor.
- The commented-out "last `:A`" parser (ASI/MS2000.cs:780-805) is dead code.
- Console logging is left out.
- The one-line wrappers of the motor are not modelled separately. `UnInitializeMotor` is `DisConnect`, and the move wrappers at ASI/MS2000ASIMotor.cs:108-114, 185-189, 269-273 and 300 call the modelled moves with fixed arguments.
- The `NotImplementedException` members (ASI/MS2000ASIMotor.cs:78-106, 254-267, 464-468) have no behaviour to model.
- `InfoDirectory`: only its version entry is modelled. The model and framework entries are constants.
- Motor.Ms2000Motor.InitMotor: takes the result of `OpenCom` as a parameter rather than running the search. The motor always talks to the driver one reply at a time, through the script. The `Open` in `OpenCom` that throws (`Driver.MS2000.OpenCom` returning `ReopenThrows`) propagates out of `InitMotor` uncaught; the motor model does not follow it.
