/** The serial-driven session: each line read from the button link is
    stripped of surrounding whitespace, and the line "1" alternately runs a
    capture and resets the display. A capture that raises is swallowed by the
    poll, which then stops reading until its next tick; whatever the capture
    changed before it raised stays changed. */
module Trigger {
  import opened Options
  import opened Menu
  import opened Pipeline
  import opened History

  /** Whitespace as Python's `str.strip` removes it, for ASCII characters:
      space, tab through carriage return, and the separators 0x1c..0x1f. */
  predicate IsSpace(c: char) {
    c == ' ' || 9 <= c as int <= 13 || 28 <= c as int <= 31
  }

  predicate AllSpace(s: string) {
    forall i :: 0 <= i < |s| ==> IsSpace(s[i])
  }

  /** `s` without its leading whitespace. */
  function TrimStart(s: string): string {
    if |s| > 0 && IsSpace(s[0]) then TrimStart(s[1..]) else s
  }

  /** `s` without its trailing whitespace. */
  function TrimEnd(s: string): string {
    if |s| > 0 && IsSpace(s[|s| - 1]) then TrimEnd(s[..|s| - 1]) else s
  }

  /** TrimStart removes a whitespace prefix, and exactly all of it. */
  lemma {:induction false} TrimStartShape(s: string)
    ensures |TrimStart(s)| <= |s| && TrimStart(s) == s[|s| - |TrimStart(s)|..]
    ensures AllSpace(s[..|s| - |TrimStart(s)|])
    ensures |TrimStart(s)| > 0 ==> !IsSpace(TrimStart(s)[0])
    decreases |s|
  {
    if |s| > 0 && IsSpace(s[0]) {
      TrimStartShape(s[1..]);
      var r := TrimStart(s[1..]);
      assert s[..|s| - |r|] == [s[0]] + s[1..][..|s| - 1 - |r|];
    }
  }

  /** TrimEnd removes a whitespace suffix, and exactly all of it. */
  lemma {:induction false} TrimEndShape(s: string)
    ensures |TrimEnd(s)| <= |s| && TrimEnd(s) == s[..|TrimEnd(s)|]
    ensures AllSpace(s[|TrimEnd(s)|..])
    ensures |TrimEnd(s)| > 0 ==> !IsSpace(TrimEnd(s)[|TrimEnd(s)| - 1])
    decreases |s|
  {
    if |s| > 0 && IsSpace(s[|s| - 1]) {
      TrimEndShape(s[..|s| - 1]);
      var r := TrimEnd(s[..|s| - 1]);
      assert s[|r|..] == s[..|s| - 1][|r|..] + [s[|s| - 1]];
    }
  }

  /** Python's `strip()` on a decoded serial line. */
  function Strip(s: string): string {
    TrimEnd(TrimStart(s))
  }

  /** The one recognised trigger: a line that strips to "1". */
  predicate IsTrigger(line: string) {
    Strip(line) == "1"
  }

  lemma {:induction false} TrimStartAt(s: string, k: nat)
    requires k < |s| && AllSpace(s[..k]) && !IsSpace(s[k])
    ensures TrimStart(s) == s[k..]
    decreases k
  {
    if k > 0 {
      assert IsSpace(s[..k][0]);
      assert s[1..][..k - 1] == s[1..k];
      TrimStartAt(s[1..], k - 1);
    }
  }

  lemma {:induction false} TrimEndAt(s: string, k: nat)
    requires 0 < k <= |s| && AllSpace(s[k..]) && !IsSpace(s[k - 1])
    ensures TrimEnd(s) == s[..k]
    decreases |s| - k
  {
    if k < |s| {
      assert IsSpace(s[k..][|s| - 1 - k]);
      assert s[..|s| - 1][k..] == s[k..|s| - 1];
      TrimEndAt(s[..|s| - 1], k);
    }
  }

  /** A line triggers exactly when it is a single "1" surrounded by nothing
      but whitespace. */
  lemma TriggerShape(line: string)
    ensures IsTrigger(line) <==>
              exists k :: 0 <= k < |line| && line[k] == '1' && AllSpace(line[..k]) && AllSpace(line[k + 1..])
  {
    if IsTrigger(line) {
      TriggerHasShape(line);
    }
    if exists k :: 0 <= k < |line| && line[k] == '1' && AllSpace(line[..k]) && AllSpace(line[k + 1..]) {
      var k :| 0 <= k < |line| && line[k] == '1' && AllSpace(line[..k]) && AllSpace(line[k + 1..]);
      ShapeIsTrigger(line, k);
    }
  }

  lemma TriggerHasShape(line: string)
    requires IsTrigger(line)
    ensures exists k :: 0 <= k < |line| && line[k] == '1' && AllSpace(line[..k]) && AllSpace(line[k + 1..])
  {
    var t := TrimStart(line);
    TrimStartShape(line);
    TrimEndShape(t);
    var k := |line| - |t|;
    assert t[1..] == line[k + 1..];
    assert t[..1] == "1";
    assert line[k] == '1';
  }

  lemma ShapeIsTrigger(line: string, k: nat)
    requires k < |line| && line[k] == '1' && AllSpace(line[..k]) && AllSpace(line[k + 1..])
    ensures IsTrigger(line)
  {
    TrimStartAt(line, k);
    var t := line[k..];
    assert t[1..] == line[k + 1..];
    TrimEndAt(t, 1);
    assert t[..1] == "1";
  }

  /** What a capture triggered by this line would meet: the detection call
      raises before anything changes; or the regions are found and the
      result is displayed, but saving to the ledger raises (an unreadable or
      unwritable table); or the regions and the time stamp for a ledger row
      that is saved. */
  datatype Detection =
    | DetectorFails
    | SaveFails(regions: seq<Outcome>)
    | Detected(regions: seq<Outcome>, time: string)
  {
    predicate Fails() {
      !Detected?
    }
  }

  /** One line read from the serial link, with the detection it would run. */
  datatype Input = Input(line: string, detection: Detection)

  /** The result shown after a capture: the bill as the capture keeps it
      (the accepted labels and the separate list of prices found) and the
      display lines, each listed dish with its own price. */
  datatype Shown = Shown(bill: Bill, lines: seq<(string, Option<int>)>)

  /** What the display shows for the regions of a capture. */
  function ShownFor(menu: seq<Entry>, regions: seq<Outcome>): Shown {
    var b := Process(menu, regions);
    Shown(b, ItemLines(menu, b.items))
  }

  /** One line handled by the serial loop: either it completes, or an
      exception escapes to the loop's handler, after the handled part of
      the line already changed the state to `state`. */
  datatype Tick = Continue(state: Session) | Abort(state: Session)

  /** The session state the two polling loops share. `captured` is the
      toggle, `isLive` whether the camera loop refreshes the frame,
      `hasFrame` whether a frame has been read yet, `shown` the displayed
      result. */
  datatype Session = Session(captured: bool, isLive: bool, hasFrame: bool, ledger: Ledger, shown: Option<Shown>)

  /** A new billing session: live, nothing captured, no frame yet, and the
      ledger truncated. */
  function Start(): Session {
    Session(false, true, false, Initialize(true, None), None)
  }

  /** The capture routine. Without a frame it returns at once. A detection
      call that raises changes nothing; otherwise the display freezes on the
      result, and then the bill is appended to the ledger, unless saving
      raises, which leaves the ledger as it was but the result shown. */
  function Capture(menu: seq<Entry>, s: Session, d: Detection): Tick {
    if !s.hasFrame then Continue(s)
    else
      match d
      case DetectorFails => Abort(s)
      case SaveFails(regions) =>
        Abort(s.(isLive := false, shown := Some(ShownFor(menu, regions))))
      case Detected(regions, time) =>
        var b := Process(menu, regions);
        Continue(s.(isLive := false,
                    shown := Some(ShownFor(menu, regions)),
                    ledger := Append(s.ledger, b.items, b.Amount(), time)))
  }

  /** The reset routine: back to the live feed, result cleared. */
  function Reset(s: Session): Session {
    s.(isLive := true, shown := None)
  }

  /** One line of the serial loop. Lines other than "1" change nothing; "1"
      captures when nothing is captured and resets otherwise. The toggle is
      set only once the capture has returned, so a capture that raises
      leaves it unset. */
  function Step(menu: seq<Entry>, s: Session, input: Input): (r: Tick)
    ensures !IsTrigger(input.line) ==> r == Continue(s)
    ensures IsTrigger(input.line) && s.captured ==>
              && r.Continue? && !r.state.captured && r.state.isLive && r.state.shown.None?
              && r.state.ledger == s.ledger && r.state.hasFrame == s.hasFrame
    ensures IsTrigger(input.line) && !s.captured ==>
              (r.Abort? <==> s.hasFrame && input.detection.Fails())
    ensures IsTrigger(input.line) && !s.captured ==>
              r.state.captured == r.Continue? && r.state.hasFrame == s.hasFrame
    ensures IsTrigger(input.line) && !s.captured && !s.hasFrame ==>
              r == Continue(s.(captured := true))
    ensures IsTrigger(input.line) && !s.captured && s.hasFrame && input.detection.DetectorFails? ==>
              r == Abort(s)
    ensures IsTrigger(input.line) && !s.captured && s.hasFrame && input.detection.SaveFails? ==>
              && r.Abort? && !r.state.isLive && r.state.ledger == s.ledger
              && r.state.shown == Some(ShownFor(menu, input.detection.regions))
    ensures IsTrigger(input.line) && !s.captured && s.hasFrame && input.detection.Detected? ==>
              var b := Process(menu, input.detection.regions);
              && r.Continue? && !r.state.isLive
              && r.state.ledger == Append(s.ledger, b.items, b.Amount(), input.detection.time)
              && r.state.shown == Some(ShownFor(menu, input.detection.regions))
  {
    if !IsTrigger(input.line) then Continue(s)
    else if !s.captured then
      match Capture(menu, s, input.detection)
      case Abort(s') => Abort(s')
      case Continue(s') => Continue(s'.(captured := true))
    else Continue(Reset(s).(captured := false))
  }

  /** One tick of the serial loop over the lines waiting in the buffer: lines
      are handled in order until the buffer is empty or a step raises; the
      raising line is consumed and the rest stays in the buffer. */
  function Poll(menu: seq<Entry>, s: Session, buffer: seq<Input>): (r: (Session, seq<Input>))
    ensures |r.1| <= |buffer| && r.1 == buffer[|buffer| - |r.1|..]
    ensures |buffer| > 0 ==> |r.1| < |buffer|
    decreases |buffer|
  {
    if |buffer| == 0 then (s, [])
    else
      match Step(menu, s, buffer[0])
      case Abort(s') => (s', buffer[1..])
      case Continue(s') =>
        var r := Poll(menu, s', buffer[1..]);
        assert buffer[1..][|buffer| - 1 - |r.1|..] == buffer[|buffer| - |r.1|..];
        r
  }

  /** A tick that leaves lines unread stopped because the last line it
      read raised: the lines before it were handled in order, and that line
      raised from the state they left. */
  lemma {:induction false} PollStopsAtRaise(menu: seq<Entry>, s: Session, buffer: seq<Input>)
    requires |Poll(menu, s, buffer).1| > 0
    ensures var k := |buffer| - |Poll(menu, s, buffer).1| - 1;
            var before := Run(menu, s, buffer[..k]);
            && Step(menu, before, buffer[k]).Abort?
            && Poll(menu, s, buffer).0 == Step(menu, before, buffer[k]).state
    decreases |buffer|
  {
    match Step(menu, s, buffer[0])
    case Abort(s') =>
      assert buffer[..0] == [];
    case Continue(s') =>
      var rest := buffer[1..];
      assert Poll(menu, s, buffer) == Poll(menu, s', rest);
      PollStopsAtRaise(menu, s', rest);
      var k := |buffer| - |Poll(menu, s, buffer).1| - 1;
      assert k > 0 && buffer[k] == rest[k - 1];
      assert buffer[..k][0] == buffer[0] && buffer[..k][1..] == rest[..k - 1];
      assert Run(menu, s, buffer[..k]) == Run(menu, s', rest[..k - 1]);
  }

  /** The first line that raises ends the tick: the lines before it are
      handled in order, and the tick returns the state that line left with
      every later line still unread. */
  lemma {:induction false} PollStopsAtFirstRaise(menu: seq<Entry>, s: Session, buffer: seq<Input>, k: nat)
    requires k < |buffer|
    requires forall j :: 0 <= j < k ==> Step(menu, Run(menu, s, buffer[..j]), buffer[j]).Continue?
    requires Step(menu, Run(menu, s, buffer[..k]), buffer[k]).Abort?
    ensures Poll(menu, s, buffer) == (Step(menu, Run(menu, s, buffer[..k]), buffer[k]).state, buffer[k + 1..])
    decreases k
  {
    if k == 0 {
      assert buffer[..0] == [];
    } else {
      assert buffer[..0] == [];
      var s' := Step(menu, s, buffer[0]).state;
      var rest := buffer[1..];
      forall j | 0 <= j <= k - 1
        ensures Run(menu, s, buffer[..j + 1]) == Run(menu, s', rest[..j])
      {
        assert buffer[..j + 1][0] == buffer[0] && buffer[..j + 1][1..] == rest[..j];
      }
      forall j | 0 <= j < k - 1
        ensures Step(menu, Run(menu, s', rest[..j]), rest[j]).Continue?
      {
        assert rest[j] == buffer[j + 1];
      }
      assert rest[k - 1] == buffer[k] && rest[k..] == buffer[k + 1..];
      PollStopsAtFirstRaise(menu, s', rest, k - 1);
    }
  }

  /** When no capture can raise, one tick reads the whole buffer. */
  lemma {:induction false} PollDrainsWithoutFailure(menu: seq<Entry>, s: Session, buffer: seq<Input>)
    requires forall i :: 0 <= i < |buffer| ==> buffer[i].detection.Detected?
    ensures Poll(menu, s, buffer).1 == []
    ensures Poll(menu, s, buffer).0 == Run(menu, s, buffer)
    decreases |buffer|
  {
    if |buffer| > 0 {
      var s' := Step(menu, s, buffer[0]).state;
      PollDrainsWithoutFailure(menu, s', buffer[1..]);
    }
  }

  /** Ticks of the serial loop until the buffer is drained, with no new
      data arriving in between. */
  function Drain(menu: seq<Entry>, s: Session, buffer: seq<Input>): Session
    decreases |buffer|
  {
    if |buffer| == 0 then s
    else
      var (s', rest) := Poll(menu, s, buffer);
      Drain(menu, s', rest)
  }

  /** Reference fold: every line handled once, each failed capture keeping
      what it changed before it raised. */
  function Run(menu: seq<Entry>, s: Session, inputs: seq<Input>): Session
    decreases |inputs|
  {
    if |inputs| == 0 then s
    else Run(menu, Step(menu, s, inputs[0]).state, inputs[1..])
  }

  lemma {:induction false} PollThenRun(menu: seq<Entry>, s: Session, buffer: seq<Input>)
    ensures Run(menu, s, buffer) == Run(menu, Poll(menu, s, buffer).0, Poll(menu, s, buffer).1)
    decreases |buffer|
  {
    if |buffer| > 0 {
      match Step(menu, s, buffer[0])
      case Abort(_) =>
      case Continue(s') => PollThenRun(menu, s', buffer[1..]);
    }
  }

  /** An exception only defers the lines after it: draining the buffer tick
      by tick ends in the same state as handling every line once, each
      failed capture keeping what it changed before it raised. */
  lemma {:induction false} DrainIsRun(menu: seq<Entry>, s: Session, buffer: seq<Input>)
    ensures Drain(menu, s, buffer) == Run(menu, s, buffer)
    decreases |buffer|
  {
    if |buffer| > 0 {
      var (s', rest) := Poll(menu, s, buffer);
      PollThenRun(menu, s, buffer);
      DrainIsRun(menu, s', rest);
    }
  }

  /** One tick of the camera loop: while live, a successful read replaces
      the frame; while a result is shown the frame stays frozen. */
  function CameraTick(s: Session, frameRead: bool): (r: Session)
    ensures !s.isLive ==> r == s
    ensures r.hasFrame <==> s.hasFrame || (s.isLive && frameRead)
    ensures r.(hasFrame := s.hasFrame) == s
  {
    if s.isLive && frameRead then s.(hasFrame := true) else s
  }

  /** The session invariant: the display is live exactly when no result is
      shown, and the ledger is well kept. */
  ghost predicate Inv(s: Session) {
    && (s.isLive <==> s.shown.None?)
    && Valid(s.ledger)
  }

  /** The invariant together with "while nothing is captured the display is
      live", which holds as long as no ledger save raises. */
  ghost predicate Settled(s: Session) {
    Inv(s) && (!s.captured ==> s.isLive)
  }

  lemma StartInv()
    ensures Settled(Start()) && Start().ledger == []
  {
  }

  lemma StepKeepsInv(menu: seq<Entry>, s: Session, input: Input)
    requires Inv(s)
    ensures Inv(Step(menu, s, input).state)
  {
    if IsTrigger(input.line) && !s.captured && s.hasFrame && input.detection.Detected? {
      var b := Process(menu, input.detection.regions);
      AppendKeepsValid(s.ledger, b.items, b.Amount(), input.detection.time);
    }
  }

  lemma StepKeepsSettled(menu: seq<Entry>, s: Session, input: Input)
    requires Settled(s) && !input.detection.SaveFails?
    ensures Settled(Step(menu, s, input).state)
  {
    StepKeepsInv(menu, s, input);
  }

  /** A capture whose save raises leaves the result on screen with the
      toggle unset; the next "1" then captures again instead of resetting,
      and a successful second capture writes a ledger row. */
  lemma SaveFailureRecaptures(menu: seq<Entry>, s: Session, input: Input, next: Input)
    requires IsTrigger(input.line) && !s.captured && s.hasFrame && input.detection.SaveFails?
    ensures var s1 := Step(menu, s, input).state;
            && !s1.captured && !s1.isLive && s1.ledger == s.ledger
            && (IsTrigger(next.line) && next.detection.Detected? ==>
                  var s2 := Step(menu, s1, next);
                  && s2.Continue? && s2.state.captured && !s2.state.isLive
                  && |s2.state.ledger| == |s.ledger| + 1)
  {
  }

  lemma CameraTickKeepsInv(s: Session, frameRead: bool)
    requires Settled(s)
    ensures Settled(CameraTick(s, frameRead))
  {
  }

  lemma {:induction false} RunKeepsInv(menu: seq<Entry>, s: Session, inputs: seq<Input>)
    requires Inv(s)
    ensures Inv(Run(menu, s, inputs))
    decreases |inputs|
  {
    if |inputs| > 0 {
      StepKeepsInv(menu, s, inputs[0]);
      RunKeepsInv(menu, Step(menu, s, inputs[0]).state, inputs[1..]);
    }
  }

  lemma {:induction false} RunKeepsSettled(menu: seq<Entry>, s: Session, inputs: seq<Input>)
    requires Settled(s)
    requires forall i :: 0 <= i < |inputs| ==> !inputs[i].detection.SaveFails?
    ensures Settled(Run(menu, s, inputs))
    decreases |inputs|
  {
    if |inputs| > 0 {
      StepKeepsSettled(menu, s, inputs[0]);
      RunKeepsSettled(menu, Step(menu, s, inputs[0]).state, inputs[1..]);
    }
  }

  /** Number of recognised trigger lines. */
  function Triggers(inputs: seq<Input>): nat {
    if |inputs| == 0 then 0
    else (if IsTrigger(inputs[0].line) then 1 else 0) + Triggers(inputs[1..])
  }

  /** Lines that are not "1" after stripping cause no transition at all. */
  lemma {:induction false} RunIgnoresOtherLines(menu: seq<Entry>, s: Session, inputs: seq<Input>)
    requires Triggers(inputs) == 0
    ensures Run(menu, s, inputs) == s
    decreases |inputs|
  {
    if |inputs| > 0 {
      RunIgnoresOtherLines(menu, s, inputs[1..]);
    }
  }

  lemma OddStep(n: nat, t: bool)
    ensures (((if t then 1 else 0) + n) % 2 == 1) == (t != (n % 2 == 1))
  {
  }

  /** With no failing detection, the toggle flips once per recognised
      trigger: after n triggers it has changed exactly when n is odd. */
  lemma {:induction false} RunParity(menu: seq<Entry>, s: Session, inputs: seq<Input>)
    requires forall i :: 0 <= i < |inputs| ==> inputs[i].detection.Detected?
    ensures Run(menu, s, inputs).captured == (s.captured != (Triggers(inputs) % 2 == 1))
    decreases |inputs|
  {
    if |inputs| > 0 {
      var s' := Step(menu, s, inputs[0]).state;
      assert s'.captured == (s.captured != IsTrigger(inputs[0].line));
      RunParity(menu, s', inputs[1..]);
      assert Run(menu, s, inputs) == Run(menu, s', inputs[1..]);
      OddStep(Triggers(inputs[1..]), IsTrigger(inputs[0].line));
    }
  }

  /** With a frame available and no failing detection, n recognised
      triggers append one ledger row per capture: every other trigger,
      starting with the first when nothing is captured. */
  lemma {:induction false} RunLedgerGrowth(menu: seq<Entry>, s: Session, inputs: seq<Input>)
    requires s.hasFrame
    requires forall i :: 0 <= i < |inputs| ==> inputs[i].detection.Detected?
    ensures |Run(menu, s, inputs).ledger| ==
              |s.ledger| + if s.captured then Triggers(inputs) / 2 else (Triggers(inputs) + 1) / 2
    decreases |inputs|
  {
    if |inputs| > 0 {
      RunLedgerGrowth(menu, Step(menu, s, inputs[0]).state, inputs[1..]);
    }
  }

  /** Without a frame a capture does no detection and writes no ledger row,
      but the toggle still flips. */
  lemma {:induction false} RunWithoutFrame(menu: seq<Entry>, s: Session, inputs: seq<Input>)
    requires !s.hasFrame
    ensures Run(menu, s, inputs).ledger == s.ledger
    ensures Run(menu, s, inputs).captured == (s.captured != (Triggers(inputs) % 2 == 1))
    decreases |inputs|
  {
    if |inputs| > 0 {
      RunWithoutFrame(menu, Step(menu, s, inputs[0]).state, inputs[1..]);
    }
  }

  /** From a fresh start with a frame read, a first "1" shows the result
      and writes row 1; a second "1" returns to the live feed and writes
      nothing. */
  lemma ScenarioPressTwice(menu: seq<Entry>, regions: seq<Outcome>, t1: string, t2: string)
    ensures var s0 := CameraTick(Start(), true);
            var s1 := Step(menu, s0, Input("1", Detected(regions, t1)));
            && s1.Continue? && s1.state.captured && !s1.state.isLive && |s1.state.ledger| == 1
            && var s2 := Step(menu, s1.state, Input("1\n", Detected(regions, t2)));
               s2.Continue? && !s2.state.captured && s2.state.isLive && s2.state.ledger == s1.state.ledger
  {
    assert IsTrigger("1");
    ShapeIsTrigger("1\n", 0);
  }

  /** Repeated "0" lines on a live session change nothing. */
  lemma ScenarioZeroLines(menu: seq<Entry>, d: Detection)
    ensures Run(menu, Start(), [Input("0", d), Input("0\r\n", d), Input("0", d)]) == Start()
  {
    var inputs := [Input("0", d), Input("0\r\n", d), Input("0", d)];
    assert !IsTrigger("0");
    assert TrimStart("0\r\n") == "0\r\n";
    assert "0\r\n"[..2] == "0\r";
    assert TrimEnd("0\r\n") == "0";
    assert !IsTrigger("0\r\n");
    assert inputs[1..][1..][1..] == [];
    assert Triggers(inputs[1..][1..]) == 0;
    assert Triggers(inputs[1..]) == 0;
    RunIgnoresOtherLines(menu, Start(), inputs);
  }
}
