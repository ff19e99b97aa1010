/**
 * The door controller of the firmware's main loop: a debounced push button
 * and a card whitelist both open the door, the servo is stopped once its
 * travel time has passed, and an open door closes itself after a fixed
 * dwell time.
 *
 * The five global variables become the record `Door`; each operation is a
 * function from the old record to a `Step` (the new record and the servo
 * commands written, oldest first), and the class `Controller` holds the same
 * variables as fields and is proved against those functions. Every call of
 * `millis()` is an explicit timestamp parameter.
 */
module DoorControl {
  import opened Platform

  /** Servo travel time between the two end positions, in milliseconds. */
  const DOOR_MOVE_TIME: u32 := 360
  /** How long the door stays open before it closes itself, in milliseconds. */
  const DOOR_OPEN_TIME: u32 := 3000
  /** `debounceDelay`: a global the firmware never writes. */
  const DEBOUNCE_DELAY: u32 := 50

  /** A `digitalRead` of the button pin; the pin has a pull-up, so pressed reads `Low`. */
  datatype Level = Low | High

  /** What the firmware writes to the continuous-rotation servo. */
  datatype Command = Open | Close | Stop

  /** One row of the whitelist `AUTHORIZED_CARDS[][4]`. */
  type CardId = s: seq<byte> | |s| == 4 witness [0, 0, 0, 0]

  /** The firmware's door and button globals. */
  datatype Door = Door(
    doorIsOpen: bool,
    lastDoorAction: u32,
    doorOpenStartTime: u32,
    lastButtonState: Level,
    lastDebounceTime: u32)

  /** The globals' initial values. */
  const Initial: Door := Door(false, 0, 0, High, 0)

  /** The state after an operation and the servo commands it wrote, oldest first. */
  datatype Step = Step(door: Door, commands: seq<Command>)

  /** The inputs of one pass of `loop()`: the button reading, the card read if
      one was presented, and the `millis()` reading each part of the pass uses. */
  datatype Tick = Tick(
    button: Level,
    buttonAt: u32,
    card: Option<UidBuffer>,
    cardAt: u32,
    moveCheckAt: u32,
    closeCheckAt: u32)

  // ---------------------------------------------------------------------------
  // Card whitelist
  // ---------------------------------------------------------------------------

  /** The first four bytes of the reader's buffer equal a whitelist row. */
  predicate Matches(uid: UidBuffer, card: CardId) {
    uid[..4] == card
  }

  predicate Whitelisted(uid: UidBuffer, cards: seq<CardId>) {
    exists i :: 0 <= i < |cards| && Matches(uid, cards[i])
  }

  /** `compareUID`: byte-wise comparison of the first four bytes, leaving at the first difference. */
  method CompareUid(uid1: UidBuffer, uid2: CardId) returns (same: bool)
    ensures same <==> forall i :: 0 <= i < 4 ==> uid1[i] == uid2[i]
    ensures same <==> Matches(uid1, uid2)
  {
    var i := 0;
    while i < 4
      invariant 0 <= i <= 4
      invariant forall j :: 0 <= j < i ==> uid1[j] == uid2[j]
    {
      if uid1[i] != uid2[i] {
        return false;
      }
      i := i + 1;
    }
    assert uid1[..4] == uid2;
    return true;
  }

  /** The search of `processRFIDCard`: scan the whitelist until a row matches. */
  method IsAuthorized(uid: UidBuffer, cards: seq<CardId>) returns (authorized: bool)
    ensures authorized <==> Whitelisted(uid, cards)
  {
    authorized := false;
    var i := 0;
    while i < |cards|
      invariant 0 <= i <= |cards|
      invariant !authorized
      invariant forall j :: 0 <= j < i ==> !Matches(uid, cards[j])
    {
      var same := CompareUid(uid, cards[i]);
      if same {
        authorized := true;
        break;
      }
      i := i + 1;
    }
  }

  // ---------------------------------------------------------------------------
  // The operations, as functions of the globals
  // ---------------------------------------------------------------------------

  /** `openDoor` (besides writing `Open` to the servo). */
  function AfterOpen(d: Door, now: u32): (r: Door)
    ensures r.doorIsOpen && r.lastDoorAction == now && r.doorOpenStartTime == now
    ensures r.lastButtonState == d.lastButtonState && r.lastDebounceTime == d.lastDebounceTime
  {
    d.(doorIsOpen := true, lastDoorAction := now, doorOpenStartTime := now)
  }

  /** `closeDoor` (besides writing `Close` to the servo). */
  function AfterClose(d: Door, now: u32): (r: Door)
    ensures !r.doorIsOpen && r.lastDoorAction == now && r.doorOpenStartTime == d.doorOpenStartTime
    ensures r.lastButtonState == d.lastButtonState && r.lastDebounceTime == d.lastDebounceTime
  {
    d.(doorIsOpen := false, lastDoorAction := now)
  }

  /** `checkButton` with the pin reading `reading` at time `now`. */
  function ButtonStep(d: Door, reading: Level, now: u32): (s: Step)
    ensures s.commands == [] || (s.commands == [Open] && !d.doorIsOpen && s.door.doorIsOpen)
    ensures s.door.lastButtonState == reading
  {
    var debounced := if reading != d.lastButtonState then now else d.lastDebounceTime;
    var pressed := Elapsed(now, debounced) > DEBOUNCE_DELAY && reading == Low
                   && Elapsed(now, d.lastDoorAction) >= DOOR_MOVE_TIME;
    var d1 := d.(lastDebounceTime := debounced);
    var s := if pressed && !d.doorIsOpen then Step(AfterOpen(d1, now), [Open]) else Step(d1, []);
    s.(door := s.door.(lastButtonState := reading))
  }

  /** The door part of `processRFIDCard` for the card `uid`. */
  function CardStep(d: Door, uid: UidBuffer, cards: seq<CardId>, now: u32): (s: Step)
    ensures s.commands == [] || s.commands == [Open]
    ensures s.commands == [Open] <==> Whitelisted(uid, cards) && !d.doorIsOpen
  {
    if Whitelisted(uid, cards) && !d.doorIsOpen then Step(AfterOpen(d, now), [Open])
    else Step(d, [])
  }

  /** The two timer checks at the end of `loop()`: stop the servo, then auto-close. */
  function TimerStep(d: Door, moveCheckAt: u32, closeCheckAt: u32): (s: Step)
    ensures Open !in s.commands
    ensures s.door == d || (d.doorIsOpen && s.door == AfterClose(d, closeCheckAt))
  {
    var stop := if Elapsed(moveCheckAt, d.lastDoorAction) >= DOOR_MOVE_TIME then [Stop] else [];
    if d.doorIsOpen && Elapsed(closeCheckAt, d.doorOpenStartTime) >= DOOR_OPEN_TIME
    then Step(AfterClose(d, closeCheckAt), stop + [Close])
    else Step(d, stop)
  }

  /** The first half of `loop()`: `checkButton`, then a card if one was read. */
  function InputStep(d: Door, t: Tick, cards: seq<CardId>): (s: Step)
    ensures Close !in s.commands && Stop !in s.commands
  {
    var b := ButtonStep(d, t.button, t.buttonAt);
    var c := if t.card.Some? then CardStep(b.door, t.card.value, cards, t.cardAt) else Step(b.door, []);
    Step(c.door, b.commands + c.commands)
  }

  /** One pass of `loop()`. */
  function LoopStep(d: Door, t: Tick, cards: seq<CardId>): Step {
    var i := InputStep(d, t, cards);
    var m := TimerStep(i.door, t.moveCheckAt, t.closeCheckAt);
    Step(m.door, i.commands + m.commands)
  }

  /** Successive passes of `loop()`. */
  function Run(d: Door, ticks: seq<Tick>, cards: seq<CardId>): Step
    decreases |ticks|
  {
    if ticks == [] then Step(d, [])
    else
      var s := LoopStep(d, ticks[0], cards);
      var r := Run(s.door, ticks[1..], cards);
      Step(r.door, s.commands + r.commands)
  }

  // ---------------------------------------------------------------------------
  // Properties of single operations
  // ---------------------------------------------------------------------------

  /** The debounce of `checkButton`: the reading is always recorded; the pass
      on which the reading changes accepts no press; a press opens the door
      exactly when the reading has been stable for more than the debounce
      delay, is `Low`, the servo's travel time has passed and the door is closed. */
  lemma ButtonDebounce(d: Door, reading: Level, now: u32)
    ensures var s := ButtonStep(d, reading, now);
      && s.door.lastButtonState == reading
      && s.door.lastDebounceTime == (if reading != d.lastButtonState then now else d.lastDebounceTime)
      && (reading != d.lastButtonState ==> s.commands == [])
      && (s.commands == [Open] <==>
            && reading == d.lastButtonState
            && Elapsed(now, d.lastDebounceTime) > DEBOUNCE_DELAY
            && reading == Low
            && Elapsed(now, d.lastDoorAction) >= DOOR_MOVE_TIME
            && !d.doorIsOpen)
      && (s.commands == [Open] ==> s.door == AfterOpen(d, now).(lastButtonState := reading))
      && (s.commands != [Open] ==>
            s.commands == [] && s.door.doorIsOpen == d.doorIsOpen
            && s.door.lastDoorAction == d.lastDoorAction
            && s.door.doorOpenStartTime == d.doorOpenStartTime)
  {
  }

  /** `processRFIDCard`: a card not on the whitelist changes nothing, and a
      whitelisted card opens the door only when it is closed. */
  lemma CardDecision(d: Door, uid: UidBuffer, cards: seq<CardId>, now: u32)
    ensures !Whitelisted(uid, cards) ==> CardStep(d, uid, cards, now) == Step(d, [])
    ensures d.doorIsOpen ==> CardStep(d, uid, cards, now) == Step(d, [])
    ensures Whitelisted(uid, cards) && !d.doorIsOpen ==>
              CardStep(d, uid, cards, now) == Step(AfterOpen(d, now), [Open])
  {
  }

  /** The servo is stopped exactly when its travel time has passed since the
      last open or close, by wrap-around subtraction; so no stop is written
      within `DOOR_MOVE_TIME` of an open or a close. */
  lemma TimerStop(d: Door, moveCheckAt: u32, closeCheckAt: u32)
    ensures Stop in TimerStep(d, moveCheckAt, closeCheckAt).commands
            <==> Elapsed(moveCheckAt, d.lastDoorAction) >= DOOR_MOVE_TIME
    ensures forall now: u32 :: Elapsed(moveCheckAt, now) < DOOR_MOVE_TIME ==>
              && Stop !in TimerStep(AfterOpen(d, now), moveCheckAt, closeCheckAt).commands
              && Stop !in TimerStep(AfterClose(d, now), moveCheckAt, closeCheckAt).commands
  {
  }

  /** Auto-close fires exactly when the door is open and its dwell time has
      passed, and leaves the door closed. */
  lemma TimerAutoClose(d: Door, moveCheckAt: u32, closeCheckAt: u32)
    ensures var s := TimerStep(d, moveCheckAt, closeCheckAt);
      && (Close in s.commands <==>
            d.doorIsOpen && Elapsed(closeCheckAt, d.doorOpenStartTime) >= DOOR_OPEN_TIME)
      && (Close in s.commands ==> s.door == AfterClose(d, closeCheckAt))
      && (Close !in s.commands ==> s.door == d)
      && Open !in s.commands
  {
  }

  /** A pass of `loop()` while the door is open: neither the button nor a
      card opens it again or moves its deadline, and it closes exactly when
      the dwell time since it was opened has passed. */
  lemma LoopWhileOpen(d: Door, t: Tick, cards: seq<CardId>)
    requires d.doorIsOpen
    ensures var s := LoopStep(d, t, cards);
      && Open !in s.commands
      && (Close in s.commands <==> Elapsed(t.closeCheckAt, d.doorOpenStartTime) >= DOOR_OPEN_TIME)
      && s.door.doorIsOpen == (Close !in s.commands)
      && (s.door.doorIsOpen ==> s.door.doorOpenStartTime == d.doorOpenStartTime
                                && s.door.lastDoorAction == d.lastDoorAction)
  {
    InputsOpenOnce(d, t, cards);
    TimerAutoClose(InputStep(d, t, cards).door, t.moveCheckAt, t.closeCheckAt);
  }

  /** Button and card together write at most one `Open`, and only to a closed
      door; otherwise they leave the door's movement state as it was. */
  lemma InputsOpenOnce(d: Door, t: Tick, cards: seq<CardId>)
    ensures var i := InputStep(d, t, cards);
      || (i.commands == [] && i.door.doorIsOpen == d.doorIsOpen
          && i.door.lastDoorAction == d.lastDoorAction
          && i.door.doorOpenStartTime == d.doorOpenStartTime)
      || (i.commands == [Open] && !d.doorIsOpen && i.door.doorIsOpen)
  {
    ButtonDebounce(d, t.button, t.buttonAt);
  }

  // ---------------------------------------------------------------------------
  // Properties of runs: opens and closes alternate
  // ---------------------------------------------------------------------------

  /** The door movements among the servo commands. */
  function Moves(cmds: seq<Command>): (ms: seq<Command>)
    ensures |ms| <= |cmds|
    ensures forall i :: 0 <= i < |ms| ==> ms[i] != Stop
    ensures forall c :: c in ms <==> c in cmds && c != Stop
  {
    if cmds == [] then []
    else (if cmds[0] == Stop then [] else [cmds[0]]) + Moves(cmds[1..])
  }

  /** `isOpen` after `n` door movements that started from `isOpen`. */
  function Toggled(isOpen: bool, n: nat): bool {
    if n % 2 == 0 then isOpen else !isOpen
  }

  /** Movements alternate, the first one leaving the state `isOpen`:
      a `Close` when the door was open, an `Open` when it was closed. */
  predicate Alternates(ms: seq<Command>, isOpen: bool) {
    forall i :: 0 <= i < |ms| ==> ms[i] == (if Toggled(isOpen, i) then Close else Open)
  }

  lemma {:induction false} MovesAppend(a: seq<Command>, b: seq<Command>)
    ensures Moves(a + b) == Moves(a) + Moves(b)
    decreases |a|
  {
    if a != [] {
      var head: seq<Command> := if a[0] == Stop then [] else [a[0]];
      assert (a + b)[0] == a[0];
      assert (a + b)[1..] == a[1..] + b;
      MovesAppend(a[1..], b);
      assert Moves(a + b) == head + (Moves(a[1..]) + Moves(b));
      assert Moves(a) == head + Moves(a[1..]);
    } else {
      assert a + b == b;
    }
  }

  lemma AlternatesAppend(a: seq<Command>, b: seq<Command>, isOpen: bool)
    requires Alternates(a, isOpen)
    requires Alternates(b, Toggled(isOpen, |a|))
    ensures Alternates(a + b, isOpen)
    ensures Toggled(Toggled(isOpen, |a|), |b|) == Toggled(isOpen, |a + b|)
  {
    forall i | |a| <= i < |a + b|
      ensures (a + b)[i] == (if Toggled(isOpen, i) then Close else Open)
    {
      assert (a + b)[i] == b[i - |a|];
      ToggledAdd(isOpen, |a|, i - |a|);
    }
    ToggledAdd(isOpen, |a|, |b|);
  }

  /** One pass of `loop()` writes movements that alternate from the current
      state, and the door ends in the state those movements lead to. */
  lemma LoopStepAlternates(d: Door, t: Tick, cards: seq<CardId>)
    ensures var s := LoopStep(d, t, cards);
      && Alternates(Moves(s.commands), d.doorIsOpen)
      && s.door.doorIsOpen == Toggled(d.doorIsOpen, |Moves(s.commands)|)
  {
    var i := InputStep(d, t, cards);
    var m := TimerStep(i.door, t.moveCheckAt, t.closeCheckAt);
    InputsOpenOnce(d, t, cards);
    TimerMoves(i.door, t.moveCheckAt, t.closeCheckAt);
    MovesAppend(i.commands, m.commands);
    assert Moves([Open]) == [Open];
    OpenThenClose(d.doorIsOpen, i.door.doorIsOpen, m.door.doorIsOpen, Moves(i.commands), Moves(m.commands));
  }

  /** An optional `Open` of a closed door followed by an optional `Close` of
      an open one alternates, and leads to the final state. */
  lemma OpenThenClose(start: bool, mid: bool, end: bool, opens: seq<Command>, closes: seq<Command>)
    requires (opens == [] && mid == start) || (opens == [Open] && !start && mid)
    requires closes == (if mid != end then [Close] else [])
    requires mid != end ==> mid
    ensures Alternates(opens + closes, start)
    ensures end == Toggled(start, |opens + closes|)
  {
    if opens == [] {
      assert opens + closes == closes;
    }
  }

  /** The timer checks' only movement is the auto-close. */
  lemma TimerMoves(d: Door, moveCheckAt: u32, closeCheckAt: u32)
    ensures var m := TimerStep(d, moveCheckAt, closeCheckAt);
      && Moves(m.commands) == (if d.doorIsOpen != m.door.doorIsOpen then [Close] else [])
      && (d.doorIsOpen != m.door.doorIsOpen ==> d.doorIsOpen)
  {
    var stop: seq<Command> := if Elapsed(moveCheckAt, d.lastDoorAction) >= DOOR_MOVE_TIME then [Stop] else [];
    MovesAppend(stop, [Close]);
    assert Moves(stop) == [];
    assert Moves([Close]) == [Close];
  }

  lemma ToggledAdd(isOpen: bool, m: nat, n: nat)
    ensures Toggled(Toggled(isOpen, m), n) == Toggled(isOpen, m + n)
  {
  }

  /** Over any sequence of passes of `loop()`, the door movements alternate
      `Open`, `Close`, `Open`, … from a closed door (`Close`, `Open`, … from an
      open one), and the final state is the one they lead to: the door is
      never opened twice without a close between, and auto-close fires at most
      once per opening. */
  lemma {:induction false} RunAlternates(d: Door, ticks: seq<Tick>, cards: seq<CardId>)
    ensures var r := Run(d, ticks, cards);
      && Alternates(Moves(r.commands), d.doorIsOpen)
      && r.door.doorIsOpen == Toggled(d.doorIsOpen, |Moves(r.commands)|)
    decreases |ticks|
  {
    if ticks != [] {
      var s := LoopStep(d, ticks[0], cards);
      var r := Run(s.door, ticks[1..], cards);
      LoopStepAlternates(d, ticks[0], cards);
      RunAlternates(s.door, ticks[1..], cards);
      MovesAppend(s.commands, r.commands);
      AlternatesAppend(Moves(s.commands), Moves(r.commands), d.doorIsOpen);
      ToggledAdd(d.doorIsOpen, |Moves(s.commands)|, |Moves(r.commands)|);
    }
  }

  /** While the door stays open over a sequence of passes of `loop()`, no
      button press or card opens it again and its auto-close deadline never
      moves. */
  lemma {:induction false} OpenDeadlineKept(d: Door, ticks: seq<Tick>, cards: seq<CardId>)
    requires d.doorIsOpen
    requires Close !in Run(d, ticks, cards).commands
    ensures var r := Run(d, ticks, cards);
      && r.door.doorIsOpen
      && r.door.doorOpenStartTime == d.doorOpenStartTime
      && Open !in r.commands
    decreases |ticks|
  {
    if ticks != [] {
      var s := LoopStep(d, ticks[0], cards);
      LoopWhileOpen(d, ticks[0], cards);
      assert Close !in s.commands;
      OpenDeadlineKept(s.door, ticks[1..], cards);
    }
  }

  // ---------------------------------------------------------------------------
  // The globals, updated in place
  // ---------------------------------------------------------------------------

  class Controller {
    var doorIsOpen: bool
    var lastDoorAction: u32
    var doorOpenStartTime: u32
    var lastButtonState: Level
    var lastDebounceTime: u32
    /** Every command written to the servo so far, oldest first. */
    var servo: seq<Command>

    function State(): Door
      reads this
    {
      Door(doorIsOpen, lastDoorAction, doorOpenStartTime, lastButtonState, lastDebounceTime)
    }

    /** The globals' static initialisers. */
    constructor ()
      ensures State() == Initial && servo == []
    {
      doorIsOpen := false;
      lastDoorAction := 0;
      doorOpenStartTime := 0;
      lastButtonState := High;
      lastDebounceTime := 0;
      servo := [];
    }

    method OpenDoor(now: u32)
      modifies this
      ensures doorIsOpen && lastDoorAction == now && doorOpenStartTime == now
      ensures lastButtonState == old(lastButtonState) && lastDebounceTime == old(lastDebounceTime)
      ensures servo == old(servo) + [Open]
      ensures State() == AfterOpen(old(State()), now)
    {
      servo := servo + [Open];
      doorIsOpen := true;
      lastDoorAction := now;
      doorOpenStartTime := now;
    }

    method CloseDoor(now: u32)
      modifies this
      ensures !doorIsOpen && lastDoorAction == now
      ensures doorOpenStartTime == old(doorOpenStartTime)
      ensures lastButtonState == old(lastButtonState) && lastDebounceTime == old(lastDebounceTime)
      ensures servo == old(servo) + [Close]
      ensures State() == AfterClose(old(State()), now)
    {
      servo := servo + [Close];
      doorIsOpen := false;
      lastDoorAction := now;
    }

    method StopServo()
      modifies this`servo
      ensures servo == old(servo) + [Stop]
    {
      servo := servo + [Stop];
    }

    method CheckButton(reading: Level, now: u32)
      modifies this
      ensures State() == ButtonStep(old(State()), reading, now).door
      ensures servo == old(servo) + ButtonStep(old(State()), reading, now).commands
    {
      if reading != lastButtonState {
        lastDebounceTime := now;
      }
      if Elapsed(now, lastDebounceTime) > DEBOUNCE_DELAY {
        if reading == Low && Elapsed(now, lastDoorAction) >= DOOR_MOVE_TIME {
          if !doorIsOpen {
            OpenDoor(now);
          }
        }
      }
      lastButtonState := reading;
    }

    method ProcessRFIDCard(uid: UidBuffer, cards: seq<CardId>, now: u32)
      modifies this
      ensures State() == CardStep(old(State()), uid, cards, now).door
      ensures servo == old(servo) + CardStep(old(State()), uid, cards, now).commands
    {
      var authorized := IsAuthorized(uid, cards);
      if authorized {
        if !doorIsOpen {
          OpenDoor(now);
        }
      }
    }

    /** The two timer checks at the end of `loop()`. */
    method CheckTimers(moveCheckAt: u32, closeCheckAt: u32)
      modifies this
      ensures State() == TimerStep(old(State()), moveCheckAt, closeCheckAt).door
      ensures servo == old(servo) + TimerStep(old(State()), moveCheckAt, closeCheckAt).commands
    {
      if Elapsed(moveCheckAt, lastDoorAction) >= DOOR_MOVE_TIME {
        StopServo();
      }
      if doorIsOpen && Elapsed(closeCheckAt, doorOpenStartTime) >= DOOR_OPEN_TIME {
        CloseDoor(closeCheckAt);
      }
    }

    method Loop(t: Tick, cards: seq<CardId>)
      modifies this
      ensures State() == LoopStep(old(State()), t, cards).door
      ensures servo == old(servo) + LoopStep(old(State()), t, cards).commands
    {
      ghost var i := InputStep(State(), t, cards);
      ghost var start := servo;
      CheckButton(t.button, t.buttonAt);
      if t.card.Some? {
        ProcessRFIDCard(t.card.value, cards, t.cardAt);
      }
      assert State() == i.door && servo == start + i.commands;
      CheckTimers(t.moveCheckAt, t.closeCheckAt);
    }
  }
}
