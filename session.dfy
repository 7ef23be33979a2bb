/**
  The gesture session of hexa_leap_interface.js as an object: its fields are
  the script's module-level globals, updated in place by the frame handler
  (HandleFrame), the hand interpreter (InterpretHand) and the busy timer's callback
  (TimerExpire). Each method is proved to change the state as the matching
  function of module Gesture says; the commands sent to the robot are recorded
  in the ghost log `sends`.
*/
module LeapInterface {
  import opened Gesture

  /** The strings a reaction sends, as a log suffix. */
  function Emitted(command: Option<string>): seq<string>
  {
    match command
    case None => []
    case Some(c) => [c]
  }

  class Session {
    var frameNo: int            // FrmNo
    var busy: bool              // FlgHandProcBusy
    var validMotion: bool       // FlgValidHandMotion
    const startSeq: array<bool> // HandStartSeq
    var started: bool           // FlgStartSeq
    var stopped: bool           // FlgStopSeq
    var refPos: Vec3            // HandRefPos
    var noHand: bool            // FlgNoHandDetected
    var noHandCount: int        // CntrNoHandDetected
    var pendingTimers: nat      // busy timers scheduled and not yet fired
    ghost var sends: seq<string>

    /** The latch array has its three slots. */
    ghost predicate Wf()
      reads this
    {
      startSeq.Length == 3
    }

    /** The globals as a value. */
    ghost function View(): State
      reads this, startSeq
      requires Wf()
    {
      State(frameNo, busy, validMotion, Latch(startSeq[0], startSeq[1], startSeq[2]),
            started, stopped, refPos, noHand, noHandCount, pendingTimers)
    }

    ghost predicate Valid()
      reads this, startSeq
    {
      Wf() && Inv(View())
    }

    /** The globals as the script declares them (hexa_leap_interface.js:21-71). */
    constructor ()
      ensures Valid() && View() == Boot && sends == [] && fresh(startSeq)
    {
      frameNo := 0;
      busy := false;
      validMotion := false;
      startSeq := new bool[3](_ => false);
      started := false;
      stopped := false;
      refPos := Vec3(0.0, 0.0, 0.0);
      noHand := true;
      noHandCount := 0;
      pendingTimers := 0;
      sends := [];
    }

    /** interprete_hand_motion (hexa_leap_interface.js:340-510). */
    method InterpretHand(hand: Hand)
      requires Wf()
      modifies this, startSeq
      ensures Wf()
      ensures View() == Interpret(old(View()), hand).next
      ensures sends == old(sends) + Emitted(Interpret(old(View()), hand).command)
    {
      var motion: Option<Command> := None;
      if !busy {
        motion := CheckStartSeq(hand, motion);
        motion := CheckStopSeq(hand, motion);
        motion := CheckDirection(hand, motion);
      }
      motion := CheckNoHand(motion);
      Dispatch(motion);
    }

    /** The open-close-open check, hexa_leap_interface.js:352-383. */
    method CheckStartSeq(hand: Hand, motion: Option<Command>) returns (motion': Option<Command>)
      requires Wf()
      modifies this, startSeq
      ensures Wf() && sends == old(sends)
      ensures Staged(View(), motion') == ArmPhase(Staged(old(View()), motion), hand)
    {
      motion' := motion;
      if hand.grab == 1.0 && startSeq[0] && !startSeq[1] {
        startSeq[1] := true;
      } else if hand.grab == 0.0 && !startSeq[0] {
        startSeq[0] := true;
      } else if hand.grab == 0.0 && startSeq[0] && startSeq[1] && !startSeq[2] {
        started := true;
        startSeq[0], startSeq[1], startSeq[2] := false, false, false;
        stopped := false;
        refPos := hand.palm;
        validMotion := true;
        motion' := Some(Start);
      }
    }

    /** The pinch check, hexa_leap_interface.js:387-403. */
    method CheckStopSeq(hand: Hand, motion: Option<Command>) returns (motion': Option<Command>)
      requires Wf()
      modifies this
      ensures Wf() && sends == old(sends)
      ensures Staged(View(), motion') == DisarmPhase(Staged(old(View()), motion), hand)
    {
      motion' := motion;
      if hand.pinch > PinchThreshold && started {
        stopped := true;
        started := false;
        validMotion := true;
        motion' := Some(Stop);
      }
    }

    /** The elevation, pitch and roll rules, hexa_leap_interface.js:407-476. */
    method CheckDirection(hand: Hand, motion: Option<Command>) returns (motion': Option<Command>)
      requires Wf()
      modifies this
      ensures Wf() && sends == old(sends)
      ensures Staged(View(), motion') == ClassifyPhase(Staged(old(View()), motion), hand)
    {
      motion' := motion;
      if Abs(refPos.y - hand.palm.y) >= ElevationThreshold {
        if hand.palm.y < refPos.y {
          motion' := Some(StandDown);
        } else {
          motion' := Some(StandUp);
        }
        if started {
          validMotion := true;
        }
      } else if Abs(hand.angX) > RotationThreshold {
        if hand.angX < 0.0 {
          motion' := Some(Forward);
        } else {
          motion' := Some(Backward);
        }
        if started {
          validMotion := true;
        }
      } else if Abs(hand.angZ) > RotationThreshold {
        if hand.angZ < 0.0 {
          motion' := Some(Left);
        } else {
          motion' := Some(Right);
        }
        if started {
          validMotion := true;
        }
      }
    }

    /** The no-hand fail-safe, hexa_leap_interface.js:481-488. */
    method CheckNoHand(motion: Option<Command>) returns (motion': Option<Command>)
      requires Wf()
      modifies this
      ensures Wf() && sends == old(sends)
      ensures Staged(View(), motion') == FailSafePhase(Staged(old(View()), motion))
    {
      motion' := motion;
      if !validMotion && noHand && started {
        validMotion := true;
        motion' := Some(Stop);
      }
    }

    /** The dispatch, hexa_leap_interface.js:491-509; the timer is counted, the send logged. */
    method Dispatch(motion: Option<Command>)
      requires Wf()
      modifies this
      ensures Wf()
      ensures View() == DispatchPhase(Staged(old(View()), motion)).next
      ensures sends == old(sends) + Emitted(DispatchPhase(Staged(old(View()), motion)).command)
    {
      if validMotion {
        busy := true;
        pendingTimers := pendingTimers + 1;
        sends := sends + [LabelText(motion)];
        validMotion := false;
      }
    }

    /** leap_frame_hdlr (hexa_leap_interface.js:285-330): only the hand at index 0 is interpreted. */
    method HandleFrame(frame: Frame)
      requires Valid()
      modifies this, startSeq
      ensures Valid()
      ensures View() == OnFrame(old(View()), frame).next
      ensures sends == old(sends) + Emitted(OnFrame(old(View()), frame).command)
    {
      ghost var before := View();
      frameNo := frame.id;
      if |frame.hands| > 0 {
        noHandCount := 0;
        noHand := false;
        ghost var counted := View();
        ghost var log := sends;
        var index := 0;
        while index < |frame.hands|
          invariant 0 <= index <= |frame.hands|
          invariant Wf()
          invariant index == 0 ==> View() == counted && sends == log
          invariant index > 0 ==> View() == Interpret(counted, frame.hands[0]).next
          invariant index > 0 ==> sends == log + Emitted(Interpret(counted, frame.hands[0]).command)
        {
          if index == 0 {
            InterpretHand(frame.hands[index]);
          }
          index := index + 1;
        }
        InterpretFrames(counted, frame.hands[0]);
      } else {
        noHandCount := noHandCount + 1;
      }

      if noHandCount >= NoHandFrames {
        noHand := true;
        noHandCount := 0;
      }
      FramePreservesInv(before, frame);
    }

    /** The busy timer fires (hexa_leap_interface.js:498-501). */
    method TimerExpire()
      requires Valid() && pendingTimers > 0
      modifies this
      ensures Valid()
      ensures View() == OnTimer(old(View()))
      ensures sends == old(sends)
    {
      busy := false;
      pendingTimers := pendingTimers - 1;
    }
  }
}
