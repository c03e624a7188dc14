/** The body of the main polling loop: sensor-triggered arming, code entry through the
    keypad, disarming and the `*` event listing (main.cpp:3-8, 106-204). */
module Alarm {
  import opened Keypad
  import opened Events

  const CodeLength := 4

  /** The stored code; it is compared position by position. */
  const CorrectCode: string := "1359"

  datatype Option<T> = None | Some(value: T)

  /** The three alarm sources, in the order the loop checks them. */
  datatype Sensor = Pot | Temp | Gas

  /** The element name each source passes to the event log. */
  function ElementName(s: Sensor): string
  {
    match s
    case Pot => "POT. ALARM"
    case Temp => "TEMP. ALARM"
    case Gas => "GAS ALARM"
  }

  /** As declared (14 bytes), the label buffer cannot hold the label logged when the
      temperature alone arms the alarm: 14 characters and a NUL. */
  lemma TempLabelOverflowsDeclaredBuffer()
    ensures Trigger(false, Reading(false, true, false)) == Some(Temp)
    ensures |Label(ElementName(Temp), true)| == 14
    ensures !FitsIn(Label(ElementName(Temp), true), DeclaredLabelBytes)
  {
  }

  /** With the corrected size (15 bytes) every label the loop builds fits: the "_ON"
      label of each source and the "_OFF" label of the disarm call. */
  lemma AlarmLabelsFit()
    ensures forall s: Sensor :: FitsIn(Label(ElementName(s), true), LabelBytes)
    ensures FitsIn(Label(ElementName(Pot), false), LabelBytes)
  {
    forall s: Sensor ensures FitsIn(Label(ElementName(s), true), LabelBytes) {
      match s
      case Pot =>
      case Temp =>
      case Gas =>
    }
  }

  /** The sensor conditions of one tick: potentiometer at or above 0.51, temperature above
      32 degrees, gas input reading zero. */
  datatype Reading = Reading(potOver: bool, tempOver: bool, gasLow: bool)

  predicate Holds(s: Sensor, r: Reading) {
    match s
    case Pot => r.potOver
    case Temp => r.tempOver
    case Gas => r.gasLow
  }

  predicate AnyHolds(r: Reading) {
    r.potOver || r.tempOver || r.gasLow
  }

  /** The source that arms the alarm on this tick, if any: the first of POT, TEMP, GAS
      whose condition holds, and only while the alarm is not already activated. */
  function Trigger(activated: bool, r: Reading): (t: Option<Sensor>)
    ensures t.Some? <==> !activated && AnyHolds(r)
    ensures t.Some? ==> Holds(t.value, r)
    ensures t == Some(Temp) ==> !r.potOver
    ensures t == Some(Gas) ==> !r.potOver && !r.tempOver
  {
    if activated then None
    else if r.potOver then Some(Pot)
    else if r.tempOver then Some(Temp)
    else if r.gasLow then Some(Gas)
    else None
  }

  /** The arming events logged over a series of ticks on which no key disarms the alarm. */
  function ArmEvents(activated: bool, rs: seq<Reading>): seq<Sensor>
    decreases |rs|
  {
    if rs == [] then []
    else
      var t := Trigger(activated, rs[0]);
      (if t.Some? then [t.value] else []) + ArmEvents(activated || t.Some?, rs[1..])
  }

  lemma {:induction false} ArmedLogsNothing(rs: seq<Reading>)
    ensures ArmEvents(true, rs) == []
    decreases |rs|
  {
    if rs != [] {
      ArmedLogsNothing(rs[1..]);
    }
  }

  /** Arming is edge-triggered: over any series of ticks without a disarm, one arming event
      is logged if the alarm starts disarmed and some tick meets a condition, none otherwise;
      the event names the first source whose condition holds on the first such tick. */
  lemma {:induction false} ArmsAtMostOnce(activated: bool, rs: seq<Reading>)
    ensures |ArmEvents(activated, rs)| ==
      if !activated && exists i :: 0 <= i < |rs| && AnyHolds(rs[i]) then 1 else 0
    ensures |ArmEvents(activated, rs)| == 1 ==>
      exists i :: 0 <= i < |rs| && AnyHolds(rs[i]) && (forall j :: 0 <= j < i ==> !AnyHolds(rs[j])) &&
        ArmEvents(activated, rs)[0] == Trigger(false, rs[i]).value
    decreases |rs|
  {
    if rs == [] {
    } else if activated {
      ArmedLogsNothing(rs);
    } else {
      var t := Trigger(activated, rs[0]);
      if t.Some? {
        ArmedLogsNothing(rs[1..]);
        assert ArmEvents(activated, rs) == [t.value];
      } else {
        ArmsAtMostOnce(false, rs[1..]);
        assert ArmEvents(activated, rs) == ArmEvents(false, rs[1..]);
        if exists i :: 0 <= i < |rs| && AnyHolds(rs[i]) {
          var i :| 0 <= i < |rs| && AnyHolds(rs[i]);
          assert i != 0;
          assert AnyHolds(rs[1..][i - 1]);
        }
        if exists i :: 0 <= i < |rs[1..]| && AnyHolds(rs[1..][i]) {
          var i :| 0 <= i < |rs[1..]| && AnyHolds(rs[1..][i]);
          assert rs[1..][i] == rs[i + 1];
        }
        if |ArmEvents(activated, rs)| == 1 {
          var i :| 0 <= i < |rs[1..]| && AnyHolds(rs[1..][i]) && (forall j :: 0 <= j < i ==> !AnyHolds(rs[1..][j])) &&
            ArmEvents(false, rs[1..])[0] == Trigger(false, rs[1..][i]).value;
          forall j | 0 <= j < i + 1 ensures !AnyHolds(rs[j]) {
            if j > 0 {
              assert rs[j] == rs[1..][j - 1];
            }
          }
          assert rs[i + 1] == rs[1..][i];
        }
      }
    }
  }

  predicate IsDigit(k: char) {
    '0' <= k <= '9'
  }

  /** The code-entry state the keys act on: the buffer, the count of digits entered, the
      alarm flag and the incorrect-code indicator. */
  datatype Panel = Panel(enterCode: string, enterDigits: nat, alarmActivated: bool, incorrectCodeLed: bool)

  predicate WellFormed(p: Panel) {
    |p.enterCode| == CodeLength && p.enterDigits <= CodeLength
  }

  /** What the loop reports for a key: the echoed digit, "Please enter 4 digits",
      "Incorrect code", "Alarm deactivated", the event listing, or nothing. */
  datatype Outcome = Silent | Echo(digit: char) | PleaseEnter4Digits | IncorrectCode | AlarmDeactivated | ListEvents

  /** One debounced key, as the loop body handles it. */
  function Press(p: Panel, k: char): (r: (Panel, Outcome))
    requires WellFormed(p)
    ensures WellFormed(r.0)
    ensures k == '#' ==> r.0.enterDigits == 0
    ensures !IsDigit(k) && k != '#' ==> r.0 == p
  {
    if IsDigit(k) then
      if p.enterDigits < CodeLength
      then (p.(enterCode := p.enterCode[p.enterDigits := k], enterDigits := p.enterDigits + 1), Echo(k))
      else (p, Silent)
    else if k == '#' then
      if p.enterDigits == CodeLength then
        if p.enterCode == CorrectCode && p.alarmActivated
        then (p.(alarmActivated := false, enterDigits := 0), AlarmDeactivated)
        else (p.(incorrectCodeLed := true, enterDigits := 0), IncorrectCode)
      else (p.(enterDigits := 0), PleaseEnter4Digits)
    else if k == '*' then (p, ListEvents)
    else (p, Silent)
  }

  /** A series of keys, first to last. */
  function PressAll(p: Panel, keys: string): (q: Panel)
    requires WellFormed(p)
    ensures WellFormed(q)
    decreases |keys|
  {
    if keys == [] then p else PressAll(Press(p, keys[0]).0, keys[1..])
  }

  /** The alarm goes from activated to deactivated only on `#` after four digits equal to
      the stored code, and never the other way. */
  lemma DisarmOnlyByCorrectCode(p: Panel, k: char)
    requires WellFormed(p)
    ensures p.alarmActivated && !Press(p, k).0.alarmActivated <==>
      p.alarmActivated && k == '#' && p.enterDigits == CodeLength && p.enterCode == CorrectCode
    ensures !p.alarmActivated ==> !Press(p, k).0.alarmActivated
  {
  }

  /** `#` after four digits lights the incorrect-code indicator unless it disarms, also
      when the code is right but the alarm is not activated; nothing turns it off. */
  lemma IncorrectCodeIndicator(p: Panel, k: char)
    requires WellFormed(p)
    ensures Press(p, k).0.incorrectCodeLed ==
      (p.incorrectCodeLed ||
       (k == '#' && p.enterDigits == CodeLength && !(p.enterCode == CorrectCode && p.alarmActivated)))
  {
  }

  /** `#` with fewer than four digits only clears the count and asks for four digits. */
  lemma ShortCodeIgnored(p: Panel)
    requires WellFormed(p) && p.enterDigits < CodeLength
    ensures Press(p, '#') == (p.(enterDigits := 0), PleaseEnter4Digits)
  {
  }

  predicate AllDigits(keys: string) {
    forall i :: 0 <= i < |keys| ==> IsDigit(keys[i])
  }

  /** Digits typed while the buffer has room are stored in order after those already there. */
  lemma {:induction false} DigitsFillBuffer(p: Panel, digits: string)
    requires WellFormed(p) && AllDigits(digits) && p.enterDigits + |digits| <= CodeLength
    ensures PressAll(p, digits) ==
      p.(enterCode := p.enterCode[..p.enterDigits] + digits + p.enterCode[p.enterDigits + |digits|..],
         enterDigits := p.enterDigits + |digits|)
    decreases |digits|
  {
    if digits == [] {
      assert p.enterCode == p.enterCode[..p.enterDigits] + p.enterCode[p.enterDigits..];
    } else {
      var q := Press(p, digits[0]).0;
      assert AllDigits(digits[1..]) by {
        forall i | 0 <= i < |digits[1..]| ensures IsDigit(digits[1..][i]) {
          assert digits[1..][i] == digits[i + 1];
        }
      }
      DigitsFillBuffer(q, digits[1..]);
      assert q.enterCode[..q.enterDigits] == p.enterCode[..p.enterDigits] + [digits[0]];
      assert q.enterCode[q.enterDigits + |digits[1..]|..] == p.enterCode[p.enterDigits + |digits|..];
      assert [digits[0]] + digits[1..] == digits;
      assert p.enterCode[..p.enterDigits] + [digits[0]] + digits[1..] == p.enterCode[..p.enterDigits] + digits;
    }
  }

  /** Once four digits are in, further digits are dropped and change nothing. */
  lemma {:induction false} ExtraDigitsDropped(p: Panel, digits: string)
    requires WellFormed(p) && AllDigits(digits) && p.enterDigits == CodeLength
    ensures PressAll(p, digits) == p
    decreases |digits|
  {
    if digits != [] {
      assert AllDigits(digits[1..]) by {
        forall i | 0 <= i < |digits[1..]| ensures IsDigit(digits[1..][i]) {
          assert digits[1..][i] == digits[i + 1];
        }
      }
      ExtraDigitsDropped(p, digits[1..]);
    }
  }

  /** Keys pressed one batch after another. */
  lemma {:induction false} PressAllAppend(p: Panel, a: string, b: string)
    requires WellFormed(p)
    ensures PressAll(p, a + b) == PressAll(PressAll(p, a), b)
    decreases |a|
  {
    if a == [] {
      assert a + b == b;
    } else {
      assert (a + b)[0] == a[0];
      assert (a + b)[1..] == a[1..] + b;
      PressAllAppend(Press(p, a[0]).0, a[1..], b);
    }
  }

  /** Typing four digits and `#` on an empty buffer: the alarm is disarmed exactly when it
      was activated and the digits are the stored code; otherwise the indicator lights. */
  lemma SubmitFourDigits(p: Panel, code: string)
    requires WellFormed(p) && p.enterDigits == 0 && |code| == CodeLength && AllDigits(code)
    ensures PressAll(p, code + "#").enterDigits == 0
    ensures PressAll(p, code + "#").alarmActivated == (p.alarmActivated && code != CorrectCode)
    ensures PressAll(p, code + "#").incorrectCodeLed ==
      (p.incorrectCodeLed || !(code == CorrectCode && p.alarmActivated))
  {
    DigitsFillBuffer(p, code);
    PressAllAppend(p, code, "#");
    var filled := PressAll(p, code);
    assert filled.enterCode == code;
    assert PressAll(filled, "#") == Press(filled, '#').0;
  }

  /** The system's state: the globals and main's locals that persist across loop
      iterations, the debouncer and the event log. */
  class AlarmSystem {
    const enterCode: array<char>
    var enterDigits: nat
    var alarmActivated: bool
    /** main's `alarmState`; it is only ever assigned the value of `alarmActivated` while
        that is false. */
    var alarmState: bool
    var incorrectCodeLed: bool
    const log: EventLog
    const keypad: Debouncer

    ghost predicate Valid()
      reads this, enterCode, log, log.events
    {
      enterCode.Length == CodeLength && enterDigits <= CodeLength && !alarmState && log.Valid()
    }

    /** The code-entry state as a value. */
    function View(): Panel
      reads this, enterCode
    {
      Panel(enterCode[..], enterDigits, alarmActivated, incorrectCodeLed)
    }

    /** Power-up: zeroed globals, both indicators off, an empty log, an idle debouncer. */
    constructor ()
      ensures Valid() && fresh(enterCode) && fresh(log) && fresh(log.events) && fresh(keypad)
      ensures View() == Panel(seq(CodeLength, _ => NoKey), 0, false, false)
      ensures log.Contents() == EmptyLog && keypad.State() == Idle
    {
      enterCode := new char[CodeLength](_ => NoKey);
      enterDigits := 0;
      alarmActivated := false;
      alarmState := false;
      incorrectCodeLed := false;
      log := new EventLog();
      keypad := new Debouncer();
    }

    /** The three sensor checks of one tick, in the order POT, TEMP, GAS, each gated on the
        alarm not being activated yet. */
    method ArmCheck(r: Reading, seconds: int)
      requires Valid()
      modifies this, log, log.events
      ensures Valid()
      ensures View() == old(View()).(alarmActivated := old(alarmActivated) || Trigger(old(alarmActivated), r).Some?)
      ensures log.Contents() ==
        var t := Trigger(old(alarmActivated), r);
        if t.Some? then Record(old(log.Contents()), Event(seconds, Label(ElementName(t.value), true)))
        else old(log.Contents())
    {
      AlarmLabelsFit();
      if r.potOver && !alarmActivated {
        alarmState := alarmActivated;
        alarmActivated := true;
        log.LogTransition(alarmState, alarmActivated, ElementName(Pot), seconds);
      }
      if r.tempOver && !alarmActivated {
        alarmState := alarmActivated;
        alarmActivated := true;
        log.LogTransition(alarmState, alarmActivated, ElementName(Temp), seconds);
      }
      if r.gasLow && !alarmActivated {
        alarmState := alarmActivated;
        alarmActivated := true;
        log.LogTransition(alarmState, alarmActivated, ElementName(Gas), seconds);
      }
    }

    /** The comparison loop of the `#` branch: stops at the first position that differs
        from the stored code. */
    method CompareCode() returns (correct: bool)
      requires enterCode.Length == CodeLength
      ensures correct <==> enterCode[..] == CorrectCode
    {
      correct := true;
      for i := 0 to CodeLength
        invariant forall j :: 0 <= j < i ==> enterCode[j] == CorrectCode[j]
      {
        if enterCode[i] != CorrectCode[i] {
          correct := false;
          break;
        }
      }
    }

    /** One debounced key: digits fill the buffer, `#` submits, `*` lists the log. The
        disarm path calls the log with `alarmState`, which is false, so it stores nothing. */
    method HandleKey(k: char, seconds: int) returns (outcome: Outcome, dumped: seq<Event>)
      requires Valid()
      modifies this, enterCode, log, log.events
      ensures Valid()
      ensures View() == Press(old(View()), k).0 && outcome == Press(old(View()), k).1
      ensures log.Contents() == old(log.Contents())
      ensures dumped == if k == '*' then Dumped(log.Contents()) else []
    {
      outcome, dumped := Silent, [];
      if IsDigit(k) {
        if enterDigits < CodeLength {
          enterCode[enterDigits] := k;
          enterDigits := enterDigits + 1;
          outcome := Echo(k);
        }
      } else if k == '#' {
        if enterDigits == CodeLength {
          var correct := CompareCode();
          if correct && alarmActivated {
            alarmActivated := false;
            log.LogTransition(alarmState, alarmActivated, ElementName(Pot), seconds);
            outcome := AlarmDeactivated;
          } else {
            incorrectCodeLed := true;
            outcome := IncorrectCode;
          }
        } else {
          outcome := PleaseEnter4Digits;
        }
        enterDigits := 0;
      } else if k == '*' {
        dumped := log.Dump();
        outcome := ListEvents;
      }
    }

    /** One iteration of the polling loop: the sensor checks, one debouncer call at
        `now` microseconds, and the handling of the key it reports, if any. */
    method Tick(r: Reading, seconds: int, now: nat, low: Grid) returns (key: char, outcome: Outcome, dumped: seq<Event>)
      requires Valid() && IsGrid(low)
      modifies this, enterCode, log, log.events, keypad
      ensures Valid()
      ensures keypad.State() == Step(old(keypad.State()), now, Scanned(low)).next
      ensures key == Step(old(keypad.State()), now, Scanned(low)).key
      ensures
        var armed := old(View()).(alarmActivated := old(alarmActivated) || Trigger(old(alarmActivated), r).Some?);
        View() == (if key != NoKey then Press(armed, key).0 else armed) &&
        outcome == (if key != NoKey then Press(armed, key).1 else Silent)
      ensures dumped == if key == '*' then Dumped(log.Contents()) else []
      ensures log.Contents() ==
        var t := Trigger(old(alarmActivated), r);
        if t.Some? then Record(old(log.Contents()), Event(seconds, Label(ElementName(t.value), true)))
        else old(log.Contents())
    {
      ArmCheck(r, seconds);
      key := keypad.Update(now, low);
      outcome, dumped := Silent, [];
      if key != NoKey {
        outcome, dumped := HandleKey(key, seconds);
      }
    }
  }
}
