/**
  The gesture-interpretation state machine of the Leap Motion / HEXA robot
  interface (hexa_leap_interface.js), as values and pure functions.

  The session state of the script lives in module-level globals that the frame
  handler updates in place; module LeapInterface holds them in a class. This
  module gives the value view of that state (State), the specification of one
  call of the hand interpreter (Interpret), of one sensor frame (OnFrame) and of
  the expiry of the busy timer (OnTimer), and the lemmas about them.
*/
module Gesture {

  datatype Option<T> = None | Some(value: T)

  // Tunable constants (hexa_leap_interface.js:76-93).
  const PinchThreshold: real := 0.65
  const ElevationThreshold: real := 100.0
  const RotationThreshold: real := 0.5236
  const NoHandFrames: int := 80

  /** A palm position in millimetres, sensor frame. */
  datatype Vec3 = Vec3(x: real, y: real, z: real)

  /**
    One hand of a sensor frame. `angX` and `angZ` stand for the two angles the
    interpreter derives from the palm normal n, atan(n.z / n.y) and
    atan(n.x / n.y); they are taken as given.
  */
  datatype Hand = Hand(id: int, grab: real, pinch: real, palm: Vec3, angX: real, angZ: real)

  /** A sensor frame: its identifier and the ordered hands it holds. */
  datatype Frame = Frame(id: int, hands: seq<Hand>)

  /** The command vocabulary the robot skill understands. */
  datatype Command = Start | Stop | Forward | Backward | Left | Right | StandUp | StandDown
  {
    /** The string sent to the robot for this command. */
    function Wire(): string
    {
      match this
      case Start => "start"
      case Stop => "stop"
      case Forward => "forward"
      case Backward => "backward"
      case Left => "left"
      case Right => "right"
      case StandUp => "stand-up"
      case StandDown => "stand-down"
    }

    predicate IsElevation() { this == StandUp || this == StandDown }
    predicate IsPitch() { this == Forward || this == Backward }
    predicate IsRoll() { this == Left || this == Right }
  }

  const Vocabulary: set<string> :=
    {"start", "stop", "forward", "backward", "left", "right", "stand-up", "stand-down"}

  function Abs(x: real): real { if x < 0.0 then -x else x }

  // ---------------------------------------------------------------------------
  // The open-close-open arming latch (HandStartSeq)
  // ---------------------------------------------------------------------------

  /** The three slots of HandStartSeq. */
  datatype Latch = Latch(openSeen: bool, closeSeen: bool, reopenSeen: bool)

  const Cleared := Latch(false, false, false)

  /** The latches reachable from Cleared: the third slot is never set, the second only after the first. */
  predicate LatchOk(l: Latch) { !l.reopenSeen && (l.closeSeen ==> l.openSeen) }

  datatype LatchStep = LatchStep(latch: Latch, completed: bool)

  /**
    The if / else-if chain over the grab strength (hexa_leap_interface.js:352-366).
    `completed` is the third branch, after which the latch is cleared.
  */
  function AdvanceLatch(l: Latch, grab: real): (r: LatchStep)
    ensures r.completed <==> grab == 0.0 && l.openSeen && l.closeSeen && !l.reopenSeen
    ensures r.completed ==> r.latch == Cleared
    ensures r.latch.reopenSeen ==> l.reopenSeen
    ensures r.latch.closeSeen && !l.closeSeen ==> l.openSeen && grab == 1.0
    ensures r.latch.openSeen && !l.openSeen ==> grab == 0.0 && !r.completed
    ensures grab != 0.0 && grab != 1.0 ==> r == LatchStep(l, false)
    ensures grab == 0.0 && l.openSeen && !l.closeSeen ==> r == LatchStep(l, false)
    ensures LatchOk(l) ==> LatchOk(r.latch)
  {
    if grab == 1.0 && l.openSeen && !l.closeSeen then LatchStep(l.(closeSeen := true), false)
    else if grab == 0.0 && !l.openSeen then LatchStep(l.(openSeen := true), false)
    else if grab == 0.0 && l.openSeen && l.closeSeen && !l.reopenSeen then LatchStep(Cleared, true)
    else LatchStep(l, false)
  }

  datatype LatchRun = LatchRun(latch: Latch, completions: nat)

  /** Feeds a sequence of grab strengths to the latch, counting completed arm sequences. */
  function RunLatch(l: Latch, grabs: seq<real>): LatchRun
    decreases |grabs|
  {
    if grabs == [] then LatchRun(l, 0)
    else
      var step := AdvanceLatch(l, grabs[0]);
      var rest := RunLatch(step.latch, grabs[1..]);
      LatchRun(rest.latch, rest.completions + (if step.completed then 1 else 0))
  }

  /** `pat` occurs in `s` as a (not necessarily contiguous) subsequence. */
  predicate Embeds(pat: seq<real>, s: seq<real>)
    decreases |s|
  {
    pat == [] || (s != [] && ((s[0] == pat[0] && Embeds(pat[1..], s[1..])) || Embeds(pat, s[1..])))
  }

  /** The grab strengths still needed to complete the arm sequence from latch `l`. */
  function Pending(l: Latch): seq<real>
  {
    if !l.openSeen then [0.0, 1.0, 0.0]
    else if !l.closeSeen then [1.0, 0.0]
    else [0.0]
  }

  lemma {:induction false} EmbedsDropHead(pat: seq<real>, s: seq<real>)
    requires pat != [] && Embeds(pat, s)
    ensures Embeds(pat[1..], s)
    decreases |s|
  {
    if pat[1..] != [] {
      if s[0] == pat[0] && Embeds(pat[1..], s[1..]) {
        EmbedsDropHead(pat[1..], s[1..]);
        assert pat[1..][1..] == pat[2..];
      } else {
        EmbedsDropHead(pat, s[1..]);
      }
    }
  }

  /**
    Arming completes, from any reachable latch, exactly when the grab strengths
    still pending occur in order in the samples, whatever lies between them.
    From Cleared: some grab 0, later a grab 1, later a grab 0.
  */
  lemma {:induction false} ArmingNeedsOpenCloseOpen(l: Latch, grabs: seq<real>)
    requires LatchOk(l)
    ensures RunLatch(l, grabs).completions > 0 <==> Embeds(Pending(l), grabs)
    decreases |grabs|
  {
    if grabs != [] {
      var pat := Pending(l);
      var step := AdvanceLatch(l, grabs[0]);
      ArmingNeedsOpenCloseOpen(step.latch, grabs[1..]);
      if grabs[0] == pat[0] {
        if step.completed {
          assert pat[1..] == [];
        } else {
          assert Pending(step.latch) == pat[1..];
          if Embeds(pat, grabs[1..]) {
            EmbedsDropHead(pat, grabs[1..]);
          }
        }
      } else {
        assert step == LatchStep(l, false);
      }
    }
  }

  // ---------------------------------------------------------------------------
  // Pose classification (elevation, then pitch, then roll)
  // ---------------------------------------------------------------------------

  /**
    The label the directional rules give a hand relative to the reference
    position (hexa_leap_interface.js:414-476), ignoring whether it is sent.
  */
  function Classify(ref: Vec3, h: Hand): (r: Option<Command>)
    ensures r.Some? ==> !(r.value == Start || r.value == Stop)
    ensures (r.Some? && r.value.IsElevation()) <==> Abs(ref.y - h.palm.y) >= ElevationThreshold
    ensures (r.Some? && r.value.IsPitch())
        <==> Abs(ref.y - h.palm.y) < ElevationThreshold && Abs(h.angX) > RotationThreshold
    ensures (r.Some? && r.value.IsRoll())
        <==> Abs(ref.y - h.palm.y) < ElevationThreshold && Abs(h.angX) <= RotationThreshold
             && Abs(h.angZ) > RotationThreshold
    ensures r == Some(StandDown) <==> r.Some? && r.value.IsElevation() && h.palm.y < ref.y
    ensures r == Some(Forward) <==> r.Some? && r.value.IsPitch() && h.angX < 0.0
    ensures r == Some(Left) <==> r.Some? && r.value.IsRoll() && h.angZ < 0.0
  {
    if Abs(ref.y - h.palm.y) >= ElevationThreshold then
      Some(if h.palm.y < ref.y then StandDown else StandUp)
    else if Abs(h.angX) > RotationThreshold then
      Some(if h.angX < 0.0 then Forward else Backward)
    else if Abs(h.angZ) > RotationThreshold then
      Some(if h.angZ < 0.0 then Left else Right)
    else None
  }

  /** A significant elevation change decides the label whatever the palm angles. */
  lemma ElevationDominatesRotation(ref: Vec3, h: Hand, angX: real, angZ: real)
    requires Abs(ref.y - h.palm.y) >= ElevationThreshold
    ensures Classify(ref, h.(angX := angX, angZ := angZ)) == Classify(ref, h)
  {
  }

  /** Without elevation change, a significant pitch decides the label whatever the roll. */
  lemma PitchDominatesRoll(ref: Vec3, h: Hand, angZ: real)
    requires Abs(h.angX) > RotationThreshold
    ensures Classify(ref, h.(angZ := angZ)) == Classify(ref, h)
  {
  }

  // ---------------------------------------------------------------------------
  // Session state and one call of the hand interpreter
  // ---------------------------------------------------------------------------

  /**
    The value of the script's globals: FrmNo, FlgHandProcBusy,
    FlgValidHandMotion, HandStartSeq, FlgStartSeq (`started`), FlgStopSeq
    (`stopped`), HandRefPos, FlgNoHandDetected, CntrNoHandDetected, and the
    number of busy timers scheduled and not yet expired.
  */
  datatype State = State(
    frameNo: int,
    busy: bool,
    validMotion: bool,
    latch: Latch,
    started: bool,
    stopped: bool,
    refPos: Vec3,
    noHand: bool,
    noHandCount: int,
    pendingTimers: nat)

  /** The globals as the script initialises them (hexa_leap_interface.js:21-71). */
  const Boot := State(0, false, false, Cleared, false, false, Vec3(0.0, 0.0, 0.0), true, 0, 0)

  /** The state while a call is in progress, with the local label str_hand_motion (None while unassigned). */
  datatype Staged = Staged(s: State, motion: Option<Command>)

  /** The state after a call or a frame, and the string sent to the robot, if any. */
  datatype Reaction = Reaction(next: State, command: Option<string>)

  /** The text the script sends for a label; an unassigned label is JavaScript's undefined. */
  function LabelText(motion: Option<Command>): string
  {
    match motion
    case None => "undefined"
    case Some(c) => c.Wire()
  }

  /** The arm-sequence check, hexa_leap_interface.js:352-383. */
  function ArmPhase(st: Staged, h: Hand): Staged
  {
    var step := AdvanceLatch(st.s.latch, h.grab);
    if step.completed then
      Staged(st.s.(latch := step.latch, started := true, stopped := false,
                   refPos := h.palm, validMotion := true), Some(Start))
    else
      Staged(st.s.(latch := step.latch), st.motion)
  }

  /** The pinch disarm check, hexa_leap_interface.js:387-403. */
  function DisarmPhase(st: Staged, h: Hand): Staged
  {
    if h.pinch > PinchThreshold && st.s.started then
      Staged(st.s.(stopped := true, started := false, validMotion := true), Some(Stop))
    else st
  }

  /** The directional rules, hexa_leap_interface.js:407-476: they overwrite the label unconditionally. */
  function ClassifyPhase(st: Staged, h: Hand): Staged
  {
    var c := Classify(st.s.refPos, h);
    if c.Some? then Staged(st.s.(validMotion := st.s.validMotion || st.s.started), c)
    else st
  }

  /** The no-hand fail-safe stop, hexa_leap_interface.js:481-488. */
  function FailSafePhase(st: Staged): Staged
  {
    if !st.s.validMotion && st.s.noHand && st.s.started then
      Staged(st.s.(validMotion := true), Some(Stop))
    else st
  }

  /** The dispatch, hexa_leap_interface.js:491-509: set busy, schedule one timer, send the label. */
  function DispatchPhase(st: Staged): Reaction
  {
    if st.s.validMotion then
      Reaction(st.s.(busy := true, pendingTimers := st.s.pendingTimers + 1, validMotion := false),
               Some(LabelText(st.motion)))
    else Reaction(st.s, None)
  }

  /**
    The checks under the busy guard (hexa_leap_interface.js:344-477): the arm
    sequence, the pinch and the directional rules, starting with no label.
  */
  function Checked(s: State, h: Hand): Staged
  {
    var st := Staged(s, None);
    if s.busy then st else ClassifyPhase(DisarmPhase(ArmPhase(st, h), h), h)
  }

  /** One call of interprete_hand_motion (hexa_leap_interface.js:340-510). */
  function Interpret(s: State, h: Hand): Reaction
  {
    DispatchPhase(FailSafePhase(Checked(s, h)))
  }

  /** One call of leap_frame_hdlr (hexa_leap_interface.js:285-330). */
  function OnFrame(s: State, f: Frame): Reaction
  {
    var counted :=
      if |f.hands| > 0 then s.(frameNo := f.id, noHandCount := 0, noHand := false)
      else s.(frameNo := f.id, noHandCount := s.noHandCount + 1);
    var r := if |f.hands| > 0 then Interpret(counted, f.hands[0]) else Reaction(counted, None);
    if r.next.noHandCount >= NoHandFrames then
      Reaction(r.next.(noHand := true, noHandCount := 0), r.command)
    else r
  }

  /** The busy timer's callback (hexa_leap_interface.js:498-501). */
  function OnTimer(s: State): State
    requires s.pendingTimers > 0
  {
    s.(busy := false, pendingTimers := s.pendingTimers - 1)
  }

  /**
    What holds between frames: no motion flagged as valid, a reachable latch,
    the no-hand counter below its threshold, and the busy flag set exactly while
    the one pending timer has not fired.
  */
  predicate Inv(s: State)
  {
    && !s.validMotion
    && LatchOk(s.latch)
    && 0 <= s.noHandCount < NoHandFrames
    && s.pendingTimers <= 1
    && (s.busy <==> s.pendingTimers == 1)
  }

  // ---------------------------------------------------------------------------
  // Properties of one call of the interpreter
  // ---------------------------------------------------------------------------

  /** Completing the latch arms the session, clears the latch and records the palm as reference; "start" is staged. */
  lemma ArmingCompletion(s: State, h: Hand)
    requires AdvanceLatch(s.latch, h.grab).completed
    ensures var st := ArmPhase(Staged(s, None), h);
      && st.s.started && !st.s.stopped && st.s.latch == Cleared
      && st.s.refPos == h.palm && st.s.validMotion && st.motion == Some(Start)
  {
  }

  /** The frame number and the no-hand bookkeeping of two states agree. */
  predicate SameFrameCounters(a: State, b: State)
  {
    a.frameNo == b.frameNo && a.noHand == b.noHand && a.noHandCount == b.noHandCount
  }

  /**
    What each phase of the interpreter leaves alone: none touches the frame
    bookkeeping; only the arm check touches the latch and the reference
    position; only the dispatch touches the busy flag and the timers.
  */
  lemma PhaseFrames(st: Staged, h: Hand)
    ensures SameFrameCounters(ArmPhase(st, h).s, st.s)
    ensures SameFrameCounters(DisarmPhase(st, h).s, st.s)
    ensures SameFrameCounters(ClassifyPhase(st, h).s, st.s)
    ensures SameFrameCounters(FailSafePhase(st).s, st.s)
    ensures SameFrameCounters(DispatchPhase(st).next, st.s)
    ensures ArmPhase(st, h).s.latch == AdvanceLatch(st.s.latch, h.grab).latch
    ensures ArmPhase(st, h).s.refPos == if AdvanceLatch(st.s.latch, h.grab).completed then h.palm else st.s.refPos
    ensures DisarmPhase(st, h).s.latch == st.s.latch && DisarmPhase(st, h).s.refPos == st.s.refPos
    ensures ClassifyPhase(st, h).s.latch == st.s.latch && ClassifyPhase(st, h).s.refPos == st.s.refPos
    ensures FailSafePhase(st).s.latch == st.s.latch && FailSafePhase(st).s.refPos == st.s.refPos
    ensures DispatchPhase(st).next.latch == st.s.latch && DispatchPhase(st).next.refPos == st.s.refPos
    ensures ArmPhase(st, h).s.busy == st.s.busy && ArmPhase(st, h).s.pendingTimers == st.s.pendingTimers
    ensures DisarmPhase(st, h).s.busy == st.s.busy && DisarmPhase(st, h).s.pendingTimers == st.s.pendingTimers
    ensures ClassifyPhase(st, h).s.busy == st.s.busy && ClassifyPhase(st, h).s.pendingTimers == st.s.pendingTimers
    ensures FailSafePhase(st).s.busy == st.s.busy && FailSafePhase(st).s.pendingTimers == st.s.pendingTimers
  {
  }

  /**
    What one call of the interpreter leaves alone and what it changes: the
    frame number and the no-hand bookkeeping stay; the latch advances only when
    the call is not busy, also while the session is already armed; the
    reference position changes only when the arm sequence completes, and then
    becomes the palm position of the completing hand.
  */
  lemma InterpretFrames(s: State, h: Hand)
    ensures SameFrameCounters(Interpret(s, h).next, s)
    ensures Interpret(s, h).next.latch == if s.busy then s.latch else AdvanceLatch(s.latch, h.grab).latch
    ensures Interpret(s, h).next.refPos ==
      if !s.busy && AdvanceLatch(s.latch, h.grab).completed then h.palm else s.refPos
  {
    var st := Staged(s, None);
    var armed := ArmPhase(st, h);
    var disarmed := DisarmPhase(armed, h);
    var checked := if s.busy then st else ClassifyPhase(disarmed, h);
    PhaseFrames(st, h);
    PhaseFrames(armed, h);
    PhaseFrames(disarmed, h);
    PhaseFrames(checked, h);
    PhaseFrames(FailSafePhase(checked), h);
  }

  /**
    The pinch disarms only an armed session (armed before the call or by this
    very call): it clears the start flag and sets the stop flag.
  */
  lemma DisarmOnlyWhenArmed(s: State, h: Hand)
    ensures var armed := ArmPhase(Staged(s, None), h);
      var st := DisarmPhase(armed, h);
      (st.motion == Some(Stop) && st.s.stopped && !st.s.started)
        <==> (h.pinch > PinchThreshold && armed.s.started)
  {
  }

  /**
    The directional rules overwrite a "start" or "stop" staged in the same
    call: when the pose matches a rule, the label of that rule is what is sent.
  */
  lemma DirectionOverridesStartStop(s: State, h: Hand, c: Command)
    requires !s.busy && !s.validMotion
    requires var armed := ArmPhase(Staged(s, None), h);
      Classify(armed.s.refPos, h) == Some(c)
      && (AdvanceLatch(s.latch, h.grab).completed || (h.pinch > PinchThreshold && armed.s.started))
    ensures Interpret(s, h).command == Some(c.Wire())
  {
  }

  /** Disarming while the pose leans forward sends "forward" and leaves the session disarmed. */
  lemma DisarmCanSendDirection()
    ensures var s := Boot.(started := true, noHand := false);
      var h := Hand(0, 0.5, 0.9, Vec3(0.0, 0.0, 0.0), -0.7, 0.0);
      var r := Interpret(s, h);
      r.command == Some("forward") && !r.next.started && r.next.stopped
  {
  }

  /** Without an armed session and without a completing arm sequence, nothing is sent. */
  lemma DisarmedSendsNothing(s: State, h: Hand)
    requires !s.validMotion && !s.started
    requires s.busy || !AdvanceLatch(s.latch, h.grab).completed
    ensures Interpret(s, h).command == None
    ensures Interpret(s, h).next.busy == s.busy
  {
  }

  /**
    Dispatch: a call sends exactly when it sets busy anew, each send schedules
    exactly one timer, and no motion is left flagged as valid.
  */
  lemma DispatchFacts(s: State, h: Hand)
    ensures var r := Interpret(s, h);
      && !r.next.validMotion
      && (r.command.Some? ==> r.next.busy && r.next.pendingTimers == s.pendingTimers + 1)
      && (r.command.None? ==> r.next.busy == s.busy && r.next.pendingTimers == s.pendingTimers)
  {
    var st := Staged(s, None);
    var checked := Checked(s, h);
    PhaseFrames(st, h);
    PhaseFrames(ArmPhase(st, h), h);
    PhaseFrames(DisarmPhase(ArmPhase(st, h), h), h);
    PhaseFrames(checked, h);
    var failsafe := FailSafePhase(checked);
    assert Interpret(s, h) == DispatchPhase(failsafe);
    assert failsafe.s.busy == s.busy && failsafe.s.pendingTimers == s.pendingTimers;
  }

  /** While busy, the call changes nothing unless the fail-safe stop applies. */
  lemma BusySkipsInterpretation(s: State, h: Hand)
    requires s.busy && !s.validMotion && !(s.noHand && s.started)
    ensures Interpret(s, h) == Reaction(s, None)
  {
  }

  /**
    The fail-safe itself: called directly while armed with the no-hand flag set,
    the interpreter sends "stop" when nothing else applies, even while busy,
    scheduling a second timer.
  */
  lemma FailSafeWhenCalledDirectly(s: State, h: Hand)
    requires s.busy && !s.validMotion && s.noHand && s.started
    ensures Interpret(s, h).command == Some("stop")
    ensures Interpret(s, h).next.pendingTimers == s.pendingTimers + 1
  {
  }

  /** Every string sent from a state without a pending valid motion is in the vocabulary. */
  lemma SendsVocabulary(s: State, h: Hand)
    requires !s.validMotion
    ensures Interpret(s, h).command.Some? ==> Interpret(s, h).command.value in Vocabulary
  {
    var failsafe := FailSafePhase(Checked(s, h));
    assert failsafe.s.validMotion ==> failsafe.motion.Some?;
  }

  // ---------------------------------------------------------------------------
  // Properties of one frame
  // ---------------------------------------------------------------------------

  /**
    No-hand bookkeeping: a frame with hands zeroes the counter and clears the
    flag and interprets only the first hand; an empty frame counts up, and the
    80th consecutive one sets the flag and zeroes the counter.
  */
  lemma FrameBookkeeping(s: State, f: Frame)
    requires 0 <= s.noHandCount < NoHandFrames
    ensures var r := OnFrame(s, f);
      && 0 <= r.next.noHandCount < NoHandFrames
      && r.next.frameNo == f.id
      && (|f.hands| > 0 ==>
            (r.next.noHandCount == 0 && !r.next.noHand
             && r == Interpret(s.(frameNo := f.id, noHandCount := 0, noHand := false), f.hands[0])))
      && (|f.hands| == 0 && s.noHandCount + 1 < NoHandFrames ==>
            r == Reaction(s.(frameNo := f.id, noHandCount := s.noHandCount + 1), None))
      && (|f.hands| == 0 && s.noHandCount + 1 == NoHandFrames ==>
            r == Reaction(s.(frameNo := f.id, noHandCount := 0, noHand := true), None))
  {
    if |f.hands| > 0 {
      InterpretFrames(s.(frameNo := f.id, noHandCount := 0, noHand := false), f.hands[0]);
    }
  }

  /**
    The fail-safe stop cannot fire through the frame handler
    (hexa_leap_interface.js:481-488): a frame without hands never calls the
    interpreter, so it sends nothing, even when the no-hand count reaches its
    threshold while armed; a frame with a hand calls it after clearing the
    no-hand flag, so the fail-safe phase changes nothing. A frame sends only
    when it has a hand and the interpreter is not busy, and sends "stop" only
    for a disarming pinch.
  */
  lemma FrameSendsOnlyWhenIdleWithHand(s: State, f: Frame)
    requires !s.validMotion
    ensures OnFrame(s, f).command.Some? ==> |f.hands| > 0 && !s.busy
    ensures |f.hands| > 0 ==>
      var checked := Checked(s.(frameNo := f.id, noHandCount := 0, noHand := false), f.hands[0]);
      FailSafePhase(checked) == checked
    ensures OnFrame(s, f).command == Some("stop") ==> |f.hands| > 0 && f.hands[0].pinch > PinchThreshold
  {
    if |f.hands| > 0 {
      var counted := s.(frameNo := f.id, noHandCount := 0, noHand := false);
      var h := f.hands[0];
      var st := Staged(counted, None);
      PhaseFrames(st, h);
      PhaseFrames(ArmPhase(st, h), h);
      PhaseFrames(DisarmPhase(ArmPhase(st, h), h), h);
      assert !Checked(counted, h).s.noHand;
    }
  }

  /** A frame keeps the between-frames invariant. */
  lemma FramePreservesInv(s: State, f: Frame)
    requires Inv(s)
    ensures Inv(OnFrame(s, f).next)
    ensures OnFrame(s, f).command.Some? ==> OnFrame(s, f).next.busy && !s.busy
    ensures OnFrame(s, f).command.None? ==> OnFrame(s, f).next.busy == s.busy
  {
    FrameSendsOnlyWhenIdleWithHand(s, f);
    if |f.hands| > 0 {
      var counted := s.(frameNo := f.id, noHandCount := 0, noHand := false);
      DispatchFacts(counted, f.hands[0]);
      InterpretFrames(counted, f.hands[0]);
    }
  }

  lemma TimerPreservesInv(s: State)
    requires Inv(s) && s.pendingTimers > 0
    ensures Inv(OnTimer(s)) && !OnTimer(s).busy
  {
  }

  // ---------------------------------------------------------------------------
  // Runs of frames and timer expiries
  // ---------------------------------------------------------------------------

  datatype Event = FrameEvent(frame: Frame) | TimerEvent

  datatype Run = Run(last: State, sends: seq<string>, expiries: nat)

  /** Processes events in order; a timer event with no timer pending does not occur and is ignored. */
  function RunEvents(s: State, evs: seq<Event>): Run
    decreases |evs|
  {
    if evs == [] then Run(s, [], 0)
    else match evs[0]
      case FrameEvent(f) =>
        var r := OnFrame(s, f);
        var rest := RunEvents(r.next, evs[1..]);
        Run(rest.last, (if r.command.Some? then [r.command.value] else []) + rest.sends, rest.expiries)
      case TimerEvent =>
        if s.pendingTimers > 0 then
          var rest := RunEvents(OnTimer(s), evs[1..]);
          Run(rest.last, rest.sends, rest.expiries + 1)
        else RunEvents(s, evs[1..])
  }

  /**
    Debounce: over any run, the robot receives at most one command more than
    the number of busy timers that expired, and none more while busy. So
    between two sends there is always a timer expiry.
  */
  lemma {:induction false} SendsBoundedByExpiries(s: State, evs: seq<Event>)
    requires Inv(s)
    ensures |RunEvents(s, evs).sends| <= RunEvents(s, evs).expiries + (if s.busy then 0 else 1)
    ensures Inv(RunEvents(s, evs).last)
    decreases |evs|
  {
    if evs != [] {
      match evs[0]
      case FrameEvent(f) =>
        FramePreservesInv(s, f);
        SendsBoundedByExpiries(OnFrame(s, f).next, evs[1..]);
      case TimerEvent =>
        if s.pendingTimers > 0 {
          TimerPreservesInv(s);
          SendsBoundedByExpiries(OnTimer(s), evs[1..]);
        } else {
          SendsBoundedByExpiries(s, evs[1..]);
        }
    }
  }

  /** The script's initial globals satisfy the invariant. */
  lemma BootInv()
    ensures Inv(Boot) && !Boot.started && Boot.latch == Cleared
  {
  }

  /** The directional rules flag a motion as valid only while the session is armed. */
  lemma DirectionValidOnlyWhenStarted(st: Staged, h: Hand)
    ensures ClassifyPhase(st, h).s.validMotion
        <==> st.s.validMotion || (Classify(st.s.refPos, h).Some? && st.s.started)
  {
  }

  /**
    Frames without hands never send anything, however many of them arrive and
    whether or not the session is armed: the fail-safe stop never reaches the
    robot through the frame handler.
  */
  lemma {:induction false} HandlessFramesSendNothing(s: State, evs: seq<Event>)
    requires !s.validMotion
    requires forall i :: 0 <= i < |evs| ==> evs[i].FrameEvent? && evs[i].frame.hands == []
    ensures RunEvents(s, evs).sends == []
    decreases |evs|
  {
    if evs != [] {
      var f := evs[0].frame;
      FrameSendsOnlyWhenIdleWithHand(s, f);
      HandlessFramesSendNothing(OnFrame(s, f).next, evs[1..]);
    }
  }

  // ---------------------------------------------------------------------------
  // Scenarios, with a hand held still at palm position p and level palm
  // ---------------------------------------------------------------------------

  function Still(p: Vec3, grab: real, pinch: real): Hand
  {
    Hand(0, grab, pinch, p, 0.0, 0.0)
  }

  /** Open, close, open from the initial globals: one "start" is sent and p becomes the reference. */
  lemma ScenarioArming(p: Vec3)
    ensures var r := RunEvents(Boot, [FrameEvent(Frame(1, [Still(p, 0.0, 0.0)])),
                                      FrameEvent(Frame(2, [Still(p, 1.0, 0.0)])),
                                      FrameEvent(Frame(3, [Still(p, 0.0, 0.0)]))]);
      r.sends == ["start"] && r.last.started && r.last.refPos == p && r.last.busy
  {
    var e1 := FrameEvent(Frame(1, [Still(p, 0.0, 0.0)]));
    var e2 := FrameEvent(Frame(2, [Still(p, 1.0, 0.0)]));
    var e3 := FrameEvent(Frame(3, [Still(p, 0.0, 0.0)]));
    var r1 := OnFrame(Boot, e1.frame);
    assert r1.command == None && r1.next.latch == Latch(true, false, false) && !r1.next.busy;
    var r2 := OnFrame(r1.next, e2.frame);
    assert r2.command == None && r2.next.latch == Latch(true, true, false) && !r2.next.busy;
    var r3 := OnFrame(r2.next, e3.frame);
    assert r3.command == Some("start") && r3.next.started && r3.next.refPos == p && r3.next.busy;
    assert [e1, e2, e3][1..] == [e2, e3] && [e2, e3][1..] == [e3] && [e3][1..] == [];
    assert RunEvents(r2.next, [e3]) == Run(r3.next, ["start"], 0);
    assert RunEvents(r1.next, [e2, e3]) == Run(r3.next, ["start"], 0);
  }

  /** A pinch while armed and idle sends one "stop" and disarms. */
  lemma ScenarioDisarm(p: Vec3)
    ensures var s := Boot.(started := true, refPos := p, noHand := false);
      var r := RunEvents(s, [FrameEvent(Frame(1, [Still(p, 0.5, 0.9)]))]);
      r.sends == ["stop"] && !r.last.started && r.last.stopped
  {
  }

  /** Armed with reference height 200 mm, a palm at 80 mm sends "stand-down". */
  lemma ScenarioStandDown()
    ensures var s := Boot.(started := true, refPos := Vec3(0.0, 200.0, 0.0), noHand := false);
      RunEvents(s, [FrameEvent(Frame(1, [Still(Vec3(0.0, 80.0, 0.0), 0.5, 0.0)]))]).sends == ["stand-down"]
  {
  }

  /** A forward lean is sent once; repeated while busy it is dropped; after the timer it is sent again. */
  lemma ScenarioDebounce(p: Vec3)
    ensures var s := Boot.(started := true, refPos := p, noHand := false);
      var lean := FrameEvent(Frame(1, [Hand(0, 0.5, 0.0, p, -0.7, 0.0)]));
      RunEvents(s, [lean, lean, TimerEvent, lean]).sends == ["forward", "forward"]
      && RunEvents(s, [lean, lean]).sends == ["forward"]
  {
    var s := Boot.(started := true, refPos := p, noHand := false);
    var lean := FrameEvent(Frame(1, [Hand(0, 0.5, 0.0, p, -0.7, 0.0)]));
    var r1 := OnFrame(s, lean.frame);
    assert r1.command == Some("forward") && r1.next.busy && r1.next.pendingTimers == 1;
    var r2 := OnFrame(r1.next, lean.frame);
    assert r2.command == None && r2.next == r1.next;
    var s3 := OnTimer(r2.next);
    var r4 := OnFrame(s3, lean.frame);
    assert r4.command == Some("forward");
    assert [lean, lean, TimerEvent, lean][1..] == [lean, TimerEvent, lean];
    assert [lean, TimerEvent, lean][1..] == [TimerEvent, lean];
    assert [TimerEvent, lean][1..] == [lean] && [lean][1..] == [];
    assert [lean, lean][1..] == [lean];
    assert RunEvents(s3, [lean]) == Run(r4.next, ["forward"], 0);
    assert RunEvents(r2.next, [TimerEvent, lean]) == Run(r4.next, ["forward"], 1);
    assert RunEvents(r1.next, [lean, TimerEvent, lean]) == Run(r4.next, ["forward"], 1);
    assert RunEvents(r1.next, [lean]) == Run(r2.next, [], 0);
  }
}
