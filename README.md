# Leap Motion gesture interface for the HEXA robot, in Dafny

This project models the core of `hexa_leap_interface.js`, the browser script that
turns Leap Motion frames into commands for the HEXA robot's
GestureSensorMoveSkill. It covers two parts of that script.

- **The gesture state machine.** The frame handler `leap_frame_hdlr` and the hand
  interpreter `interprete_hand_motion` work on a handful of module-level globals:
  - the busy flag;
  - the pending valid-motion flag;
  - the three-slot open–close–open latch `HandStartSeq`;
  - the armed and stopped flags `FlgStartSeq` and `FlgStopSeq`;
  - the reference palm position `HandRefPos`;
  - the no-hand counter and flag.

  Each frame does the following, in order:
  1. It updates the no-hand bookkeeping.
  2. It interprets only the first hand.
  3. It advances the arming latch.
  4. It checks the pinch that disarms.
  5. It classifies the pose: elevation first, then pitch, then roll.
  6. It sends at most one command string and sets busy until a timer fires.
- **The debug list.** `add_dbg_msg` and `print_dbg_msg` keep a 20-slot circular
  list in an array and print it oldest first.

Files:

- `gesture.dfy` (module `Gesture`) holds the value view of the globals (`State`).
  It also holds the pure specification of one interpreter call (`Interpret`),
  built phase by phase as the code runs, one frame (`OnFrame`), the timer's
  callback (`OnTimer`), runs of frames and timer expiries (`RunEvents`), and the
  lemmas about them.
- `session.dfy` (module `LeapInterface`) holds class `Session`. Its fields are the
  globals, and `HandStartSeq` is an `array<bool>` written slot by slot. Its methods
  `HandleFrame`, `InterpretHand` and `TimerExpire` change the fields in place. Each is
  proved to produce the new state its specification function gives, and to append
  what it sends to the ghost log `sends`.
- `debug_log.dfy` (module `DebugLog`) holds class `MessageList`: the array, the
  index, the size and a ghost history of every message added. `Add` keeps the
  ring invariant. `Print` is proved to return the most recent `min(n, 20)`
  messages in insertion order.

Abstractions:

- The two angles `Math.atan(n[2]/n[1])` and `Math.atan(n[0]/n[1])` of the palm
  normal are inputs `angX` and `angZ` of a hand.
- Positions, grab and pinch strengths are reals.
- `setTimeout` becomes a count of pending timers and an explicit `TimerExpire`
  event.
- Sending to the robot becomes an append to a ghost log of strings.
- `Date.now()` becomes a time-stamp parameter of `Add`.
- `HandRefPos = hand.palmPosition` is a value copy.
- Never-written debug slots print as JavaScript prints `undefined`: the text
  `"undefined"`. The label `str_hand_motion` is `None` while unassigned, and
  `LabelText(None)` is that same text. This is a choice of representation only.
  The script would pass the value `undefined` itself to `sendData`
  (hexa_leap_interface.js:504). Only its debug line (hexa_leap_interface.js:182)
  turns the value into text. The case cannot arise from a state with no motion
  pending (`SendsVocabulary`).

### Behaviours of the code worth knowing

- **The arming latch also runs while armed.** Only the busy check guards it
  (hexa_leap_interface.js:344, 352). So an open–close–open sequence re-arms and
  resets the reference position even when already armed (`InterpretFrames`).
- **The directional rules overwrite "start" and "stop".** The elevation, pitch
  and roll rules assign the label unconditionally. When a pose rule matches in
  the same call in which the latch completes or the pinch disarms, the direction
  is sent instead of "start" or "stop" (`DirectionOverridesStartStop`). For
  example, a pinch with the palm tilted forward sends "forward" and disarms
  (`DisarmCanSendDirection`). The comment at hexa_leap_interface.js:392-393
  says the pinch is meant to disable any hand motion detection.
- **The no-hand fail-safe stop never fires through the frame handler.** The
  comments at hexa_leap_interface.js:63-64 and 479-480 describe the branch at
  lines 481-488 as the stop for a session armed while no hand is detected for a
  number of frames. But a frame without hands never calls the interpreter, and
  a frame with a hand clears `FlgNoHandDetected` before calling it. So the
  branch changes nothing on that path, and "stop" is sent through a frame only
  after a disarming pinch (`FrameSendsOnlyWhenIdleWithHand`). In particular, 80
  frames without a hand while armed send nothing (`HandlessFramesSendNothing`).
  Called directly, the interpreter would send that stop even while busy
  (`FailSafeWhenCalledDirectly`).
- **A frame with a hand can change the label without sending it.** While the
  session is not armed, the directional rules still assign a label, measured from
  the reference position (initially the origin), but nothing is sent.

## Model

| member | source | states |
|---|---|---|
| `Gesture.AdvanceLatch` | hexa_leap_interface.js:352-366 | the arm sequence completes iff grab is 0 with slots 0 and 1 set and slot 2 clear, and then the latch is cleared; slot 2 is never set; slot 1 is set only while slot 0 is set and grab is 1; slot 0 is set only on grab 0; a grab other than 0 or 1, or grab 0 at stage "opened", leaves the latch unchanged; reachable latches stay reachable |
| `Gesture.ArmingNeedsOpenCloseOpen` | hexa_leap_interface.js:352-366 | from any reachable latch, a run of grab strengths completes the arm sequence iff the grabs still pending (from a clear latch: 0, then 1, then 0) occur in order in the run, whatever lies between them |
| `Gesture.Classify` | hexa_leap_interface.js:413-476 | the label of the directional rules, by strict priority: elevation iff abs(ref.y − y) ≥ 100 ("stand-down" iff y < ref.y); else pitch iff abs(angX) > 0.5236 ("forward" iff angX < 0); else roll iff abs(angZ) > 0.5236 ("left" iff angZ < 0); never "start" or "stop" |
| `Gesture.ElevationDominatesRotation` | hexa_leap_interface.js:414-434 | once the elevation threshold is met, the palm angles do not affect the label |
| `Gesture.PitchDominatesRoll` | hexa_leap_interface.js:435-476 | once the pitch threshold is met, the roll angle does not affect the label |
| `Gesture.RunLatch` | hexa_leap_interface.js:352-366 | successive arm checks over a run of grab strengths, counting completions; its meaning is fixed by `Gesture.ArmingNeedsOpenCloseOpen` |
| `Gesture.ArmPhase` | hexa_leap_interface.js:352-383 | the arm check: the latch advances, and on completion the session is armed, the stop flag cleared, the palm recorded and "start" staged (`Gesture.ArmingCompletion`, `Gesture.PhaseFrames`) |
| `Gesture.DisarmPhase` | hexa_leap_interface.js:387-403 | the pinch check: above 0.65 while armed it disarms, sets the stop flag and stages "stop" (`Gesture.DisarmOnlyWhenArmed`) |
| `Gesture.ClassifyPhase` | hexa_leap_interface.js:407-476 | the directional rules: the label of `Gesture.Classify` overwrites the staged one, and the motion is valid when armed (`Gesture.DirectionValidOnlyWhenStarted`) |
| `Gesture.Checked` | hexa_leap_interface.js:344-477 | the three checks under the busy guard, from no label; while busy, nothing (`Gesture.BusySkipsInterpretation`) |
| `Gesture.FailSafePhase` | hexa_leap_interface.js:481-488 | the no-hand stop, outside the busy guard (`Gesture.FailSafeWhenCalledDirectly`, `Gesture.FrameSendsOnlyWhenIdleWithHand`) |
| `Gesture.DispatchPhase` | hexa_leap_interface.js:491-509 | a valid motion sets busy, schedules one timer, sends the label and clears the valid flag (`Gesture.DispatchFacts`) |
| `Gesture.Interpret` | hexa_leap_interface.js:340-510 | one call of the interpreter, the phases in source order; its properties are the lemmas below, and `LeapInterface.Session.InterpretHand` is proved equal to it |
| `Gesture.OnFrame` | hexa_leap_interface.js:285-330 | one frame: the no-hand bookkeeping and the interpretation of the hand at index 0 (`Gesture.FrameBookkeeping`, `Gesture.FramePreservesInv`) |
| `Gesture.OnTimer` | hexa_leap_interface.js:498-501 | the timer callback clears busy, one timer fewer pending (`Gesture.TimerPreservesInv`) |
| `Gesture.RunEvents` | hexa_leap_interface.js:285-330 | a run of frames and timer expiries, collecting what is sent (`Gesture.SendsBoundedByExpiries`, `Gesture.HandlessFramesSendNothing`) |
| `Gesture.ArmingCompletion` | hexa_leap_interface.js:360-383 | completing the latch sets the start flag, clears the stop flag, clears the latch, copies the palm position into the reference, flags a valid motion and stages "start" |
| `Gesture.PhaseFrames` | hexa_leap_interface.js:352-509 | what each phase of one call leaves alone: no phase touches the frame number or the no-hand bookkeeping; only the arm check advances the latch and moves the reference position (to the palm, exactly when the sequence completes); only the dispatch touches the busy flag and the timer count |
| `Gesture.InterpretFrames` | hexa_leap_interface.js:344-374 | over one call: the frame number, the no-hand counter and the no-hand flag are unchanged; the latch advances on every call that is not busy, armed or not, and is untouched while busy; the reference position becomes the palm position exactly when a call that is not busy completes the latch, and is unchanged otherwise |
| `Gesture.DisarmOnlyWhenArmed` | hexa_leap_interface.js:387-403 | the pinch rule stages "stop", sets the stop flag and clears the start flag iff pinch > 0.65 and the session is armed at that point |
| `Gesture.DirectionOverridesStartStop` | hexa_leap_interface.js:380-476 | when the latch completes or the pinch disarms and a pose rule also matches, the pose rule's command is what gets sent |
| `Gesture.DisarmCanSendDirection` | hexa_leap_interface.js:387-455 | a disarming pinch with the palm pitched forward sends "forward" and leaves the session disarmed |
| `Gesture.DisarmedSendsNothing` | hexa_leap_interface.js:344-509 | a call that is neither armed nor completing the arm sequence sends nothing and leaves busy unchanged |
| `Gesture.DirectionValidOnlyWhenStarted` | hexa_leap_interface.js:429-475 | the directional rules flag a motion as valid iff a rule matches and the session is armed (or a motion was already valid) |
| `Gesture.DispatchFacts` | hexa_leap_interface.js:491-509 | after a call no motion is left flagged valid; a call that sends sets busy and schedules exactly one more timer; a call that does not send changes neither |
| `Gesture.BusySkipsInterpretation` | hexa_leap_interface.js:344-477 | while busy, and with the fail-safe inapplicable, a call changes nothing and sends nothing |
| `Gesture.FailSafeWhenCalledDirectly` | hexa_leap_interface.js:481-509 | called directly while busy, armed and with the no-hand flag set, the interpreter sends "stop" and schedules a second timer |
| `Gesture.SendsVocabulary` | hexa_leap_interface.js:340-509 | from a state with no motion pending, whatever a call sends is one of the eight command strings |
| `Gesture.FrameBookkeeping` | hexa_leap_interface.js:290-329 | after a frame the counter is in 0..79; a frame with hands zeroes it, clears the flag and is exactly one call of the interpreter on the hand at index 0; an empty frame increments it, and the 80th in a row instead sets the flag and zeroes the counter |
| `Gesture.FrameSendsOnlyWhenIdleWithHand` | hexa_leap_interface.js:292-311 | a frame sends only when it holds a hand and the interpreter is not busy; on a frame with a hand the fail-safe phase (lines 481-488) leaves the checked state unchanged, because the no-hand flag was just cleared; so a frame sends "stop" only when it holds a hand whose pinch exceeds 0.65 |
| `Gesture.FramePreservesInv` | hexa_leap_interface.js:285-330 | a frame keeps the invariant: no motion pending, a reachable latch, counter below 80, at most one pending timer, busy iff one is pending; a frame that sends was not busy and leaves busy set |
| `Gesture.TimerPreservesInv` | hexa_leap_interface.js:498-501 | the timer callback keeps the invariant and clears busy |
| `Gesture.SendsBoundedByExpiries` | hexa_leap_interface.js:491-501 | over any run of frames and timer expiries, the commands sent number at most the expiries plus one, or plus none when starting busy, so two sends are always separated by an expiry |
| `Gesture.HandlessFramesSendNothing` | hexa_leap_interface.js:315-329 | any number of frames without hands sends nothing |
| `Gesture.BootInv` | hexa_leap_interface.js:21-71 | the initial globals satisfy the invariant, unarmed with a clear latch |
| `Gesture.ScenarioArming` | hexa_leap_interface.js:352-383 | grab 0, 1, 0 from the initial globals sends exactly "start", arms, sets busy, and makes the third palm position the reference |
| `Gesture.ScenarioDisarm` | hexa_leap_interface.js:387-403 | a pinch of 0.9 while armed and idle sends exactly "stop" and disarms |
| `Gesture.ScenarioStandDown` | hexa_leap_interface.js:414-422 | armed with reference height 200 mm, a palm at 80 mm sends exactly "stand-down" |
| `Gesture.ScenarioDebounce` | hexa_leap_interface.js:491-501 | a repeated forward lean is sent once while busy and again after the timer fires |
| `LeapInterface.Session.constructor` | hexa_leap_interface.js:21-71 | the globals start as the script declares them and satisfy the invariant; nothing has been sent |
| `LeapInterface.Session.InterpretHand` | hexa_leap_interface.js:340-510 | the new state is that of `Interpret` on the old one, and the log grows by exactly what that call sends (at most one string) |
| `LeapInterface.Session.CheckStartSeq` | hexa_leap_interface.js:352-383 | the in-place latch slot writes and the arming assignments give the state of `ArmPhase` |
| `LeapInterface.Session.CheckStopSeq` | hexa_leap_interface.js:387-403 | the disarm assignments give the state of `DisarmPhase` |
| `LeapInterface.Session.CheckDirection` | hexa_leap_interface.js:407-476 | the directional rules give the label and valid flag of `ClassifyPhase` |
| `LeapInterface.Session.CheckNoHand` | hexa_leap_interface.js:481-488 | the fail-safe branch gives the state of `FailSafePhase` |
| `LeapInterface.Session.Dispatch` | hexa_leap_interface.js:491-509 | sets busy, counts one more pending timer, logs the label and clears the valid flag exactly when a motion is valid |
| `LeapInterface.Session.HandleFrame` | hexa_leap_interface.js:285-330 | the forEach over the hands interprets index 0 only; the new state and the log are those of `OnFrame`; the invariant is kept, so the counter stays in 0..79 |
| `LeapInterface.Session.TimerExpire` | hexa_leap_interface.js:498-501 | clears busy and counts one pending timer fewer; the invariant is kept and nothing is sent |
| `DebugLog.Recent` | hexa_leap_interface.js:547-583 | the messages print_dbg_msg shows: as many as were added, but at most 20 (their content is fixed by `DebugLog.RecentAppend` and `DebugLog.RingAdd`) |
| `DebugLog.RecentAppend` | hexa_leap_interface.js:520-539 | adding a message appends it to the recent messages and drops the oldest once 20 are held |
| `DebugLog.RotateAfterWrite` | hexa_leap_interface.js:524-537 | overwriting the oldest slot and advancing the index with wraparound turns the rotated view into its tail followed by the new message |
| `DebugLog.RingAdd` | hexa_leap_interface.js:524-537 | the three assignments of `add_dbg_msg` keep the list invariant |
| `DebugLog.RingAddFilling` | hexa_leap_interface.js:524-537 | while not full, the message is stored at index == size, and both advance, the index wrapping to 0 when the list fills |
| `DebugLog.RingAddFull` | hexa_leap_interface.js:524-537 | once full, the message overwrites the oldest slot and the size stays 20 |
| `DebugLog.MessageList.constructor` | hexa_leap_interface.js:104-116 | an empty list of 20 never-written slots, index and size 0 |
| `DebugLog.MessageList.Add` | hexa_leap_interface.js:520-539 | the message is stored at the old index; the index advances modulo 20; the size is nondecreasing and at most 20; while below 20 it equals the index; the invariant is kept, so the slots read oldest first are the most recent messages |
| `DebugLog.MessageList.Print` | hexa_leap_interface.js:547-583 | the printout is the most recent min(n, 20) messages in insertion order, each followed by a line break: when full, from `DbgMsgListIdx` wrapping once, otherwise slots 0..size−1; with nothing added the loop still emits slot 0, which prints as "undefined" |

## Left out

- gesturesensormoveskill.go, the robot side: hexabody driver calls, goroutines, a channel send, sleeps and process exit. gesturesensormoveskill.go is not part of this model.
- `hexa_cb`, `DummyHexa` and the robot proxy inside `hexa_send_data`: hardware and transport. A send is an append to the ghost log `sends`.
- `reg_button_ev_hdl` and all `innerHTML` output: UI wiring. `Print` returns the text it would put on the page.
- The debug messages the interpreter and `hexa_send_data` write (lines 182, 189, 382, 402), and the printout `hexa_send_data` triggers after each send (line 204): the session does not own a debug list. That list is modelled on its own in `DebugLog`.
- `Math.atan`, the division by the palm normal's y component, and floating-point rounding: the two angles are given reals, and grab, pinch and positions are exact reals.
- Real time: `setTimeout` and its 2500 ms delay are a pending-timer count and a `TimerExpire` event; `Date.now()` is a parameter.
- JavaScript aliasing of `HandRefPos = hand.palmPosition`: the position is copied as a value.
- The reset `HandStartSeq = [false, false, false]` assigns a new array in the script; the model writes the three slots of the one array, which nothing else references.
- The hand's direction vector and palm normal are read only for display or for the two angles, so a hand carries neither.
