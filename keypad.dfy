/** The 4x4 matrix keypad: the scan that maps pin state to a character and the
    time-based debouncer wrapped around it (main.cpp:36-41, 62-104). */
module Keypad {

  const Rows := 4
  const Cols := 4

  /** What a scan reports when no key is pressed (the C character '\0'). */
  const NoKey: char := '\0'

  /** Symbol of the key at (row, col), indexed by row * Cols + col. */
  const KeyTable: string := "123A456B789C*0#D"

  /** A press is reported once strictly more than this many microseconds have
      elapsed on the debounce timer. */
  const DebounceMicros := 20000

  /** Electrical state of the matrix: low[row][col] holds when column `col`
      reads low while row `row` is the one driven low. */
  type Grid = seq<seq<bool>>

  predicate IsGrid(low: Grid) {
    |low| == Rows && forall r :: 0 <= r < Rows ==> |low[r]| == Cols
  }

  /** (r1, c1) is visited strictly before (r2, c2) in the scan's row-major order. */
  predicate Before(r1: int, c1: int, r2: int, c2: int) {
    r1 < r2 || (r1 == r2 && c1 < c2)
  }

  /** No key visited before (r, c) reads as pressed. */
  predicate NonePressedBefore(low: Grid, r: int, c: int)
    requires IsGrid(low)
  {
    forall r', c' :: 0 <= r' < Rows && 0 <= c' < Cols && Before(r', c', r, c) ==> !low[r'][c']
  }

  lemma KeyTableHasNoNul(i: int)
    requires 0 <= i < |KeyTable|
    ensures KeyTable[i] != NoKey
  {
  }

  /** The key a scan reports when it starts at row-major position i = row * Cols + col. */
  function ScanFrom(low: Grid, i: nat): char
    requires IsGrid(low) && i <= Rows * Cols
    decreases Rows * Cols - i
  {
    if i == Rows * Cols then NoKey
    else if low[i / Cols][i % Cols] then KeyTable[i]
    else ScanFrom(low, i + 1)
  }

  /** The key a full scan reports. */
  function Scanned(low: Grid): char
    requires IsGrid(low)
  {
    ScanFrom(low, 0)
  }

  /** matrixKeypadScan: drive each row in turn and return the symbol of the first
      column found low; NoKey when none is. */
  method Scan(low: Grid) returns (key: char)
    requires IsGrid(low)
    ensures key == Scanned(low)
    ensures key == NoKey <==> forall r, c :: 0 <= r < Rows && 0 <= c < Cols ==> !low[r][c]
    ensures key != NoKey ==>
      exists r, c :: 0 <= r < Rows && 0 <= c < Cols && low[r][c] &&
        NonePressedBefore(low, r, c) && key == KeyTable[r * Cols + c]
  {
    for row := 0 to Rows
      invariant NonePressedBefore(low, row, 0)
      invariant Scanned(low) == ScanFrom(low, row * Cols)
    {
      for col := 0 to Cols
        invariant NonePressedBefore(low, row, col)
        invariant Scanned(low) == ScanFrom(low, row * Cols + col)
      {
        if low[row][col] {
          KeyTableHasNoNul(row * Cols + col);
          return KeyTable[row * Cols + col];
        }
      }
    }
    return NoKey;
  }

  /** The static locals of matrixKeypadUpdate, with the timer reduced to its
      running flag and its start time in microseconds. */
  datatype DebounceState = DebounceState(lastKey: char, timerStarted: bool, timerStart: nat)

  /** The state before the first call. */
  const Idle := DebounceState(NoKey, false, 0)

  /** Outcome of one call: the new state and the key reported (NoKey for none). */
  datatype StepResult = StepResult(next: DebounceState, key: char)

  /** One call of matrixKeypadUpdate at time `now` when the scan yields `scanned`.
      The timer is started and tested in the same call, so the call that starts it
      sees zero elapsed time and reports nothing. */
  function Step(s: DebounceState, now: nat, scanned: char): (t: StepResult)
    ensures t.key != NoKey <==> s.timerStarted && now - s.timerStart > DebounceMicros && scanned != NoKey
    ensures t.key != NoKey ==> t.key == scanned && t.next.lastKey == scanned && !t.next.timerStarted
    ensures scanned == NoKey ==> t.next.lastKey == NoKey
  {
    var started :=
      if scanned != NoKey && s.lastKey == NoKey && !s.timerStarted
      then s.(timerStarted := true, timerStart := now)
      else s;
    if started.timerStarted && now - started.timerStart > DebounceMicros then
      StepResult(started.(timerStarted := false, lastKey := scanned), scanned)
    else
      StepResult(if scanned == NoKey then started.(lastKey := NoKey) else started, NoKey)
  }

  class Debouncer {
    var lastKey: char
    var timerStarted: bool
    var timerStart: nat

    function State(): DebounceState
      reads this
    {
      DebounceState(lastKey, timerStarted, timerStart)
    }

    constructor ()
      ensures State() == Idle
    {
      lastKey, timerStarted, timerStart := NoKey, false, 0;
    }

    /** matrixKeypadUpdate, called at time `now` (microseconds) with the pins in state `low`. */
    method Update(now: nat, low: Grid) returns (key: char)
      requires IsGrid(low)
      modifies this
      ensures State() == Step(old(State()), now, Scanned(low)).next
      ensures key == Step(old(State()), now, Scanned(low)).key
    {
      var currentKey := Scan(low);
      if currentKey != NoKey && lastKey == NoKey && !timerStarted {
        timerStart := now;
        timerStarted := true;
      }
      if timerStarted && now - timerStart > DebounceMicros {
        timerStarted := false;
        lastKey := currentKey;
        if currentKey != NoKey {
          return currentKey;
        }
      }
      if currentKey == NoKey {
        lastKey := NoKey;
      }
      return NoKey;
    }
  }

  /** One polling tick as the debouncer sees it: the time and what the scan returned. */
  datatype Sample = Sample(now: nat, scanned: char)

  /** The keys reported, tick by tick, over a sequence of calls starting in state s. */
  function Run(s: DebounceState, samples: seq<Sample>): (keys: seq<char>)
    ensures |keys| == |samples|
    decreases |samples|
  {
    if samples == [] then []
    else
      var t := Step(s, samples[0].now, samples[0].scanned);
      [t.key] + Run(t.next, samples[1..])
  }

  /** The debouncer's state after a sequence of calls starting in state s. */
  function After(s: DebounceState, samples: seq<Sample>): DebounceState
    decreases |samples|
  {
    if samples == [] then s
    else After(Step(s, samples[0].now, samples[0].scanned).next, samples[1..])
  }

  /** How many ticks reported a key. */
  function Reports(keys: seq<char>): nat
  {
    if keys == [] then 0
    else (if keys[0] != NoKey then 1 else 0) + Reports(keys[1..])
  }

  /** A key is held down on every tick. */
  predicate Held(samples: seq<Sample>) {
    forall i :: 0 <= i < |samples| ==> samples[i].scanned != NoKey
  }

  /** Ready for a new press: nothing latched and no timer running. */
  predicate Ready(s: DebounceState) {
    s.lastKey == NoKey && !s.timerStarted
  }

  /** The state right after a report: the key is latched and the timer stopped. */
  predicate Latched(s: DebounceState) {
    s.lastKey != NoKey && !s.timerStarted
  }

  /** While the key stays down after a report, nothing more is reported and the state
      does not move: only a release (a NoKey scan) clears the latch. */
  lemma {:induction false} LatchedStaysSilent(s: DebounceState, samples: seq<Sample>)
    requires Latched(s) && Held(samples)
    ensures Reports(Run(s, samples)) == 0
    ensures After(s, samples) == s
    decreases |samples|
  {
    if samples != [] {
      var t := Step(s, samples[0].now, samples[0].scanned);
      assert t == StepResult(s, NoKey);
      assert Held(samples[1..]) by {
        forall i | 0 <= i < |samples[1..]| ensures samples[1..][i].scanned != NoKey {
          assert samples[1..][i] == samples[i + 1];
        }
      }
      LatchedStaysSilent(s, samples[1..]);
    }
  }

  /** Releasing the key after a report clears the latch, so the next press can be reported. */
  lemma ReleaseRearms(s: DebounceState, now: nat)
    requires Latched(s)
    ensures Ready(Step(s, now, NoKey).next)
    ensures Step(s, now, NoKey).key == NoKey
  {
  }

  /** A hold of any length after a report, then a release: the debouncer is ready again. */
  lemma HoldThenReleaseRearms(s: DebounceState, samples: seq<Sample>, now: nat)
    requires Latched(s) && Held(samples)
    ensures Ready(Step(After(s, samples), now, NoKey).next)
  {
    LatchedStaysSilent(s, samples);
    ReleaseRearms(s, now);
  }

  /** At most one report per press: over any stretch of ticks during which a key is
      held, whatever the starting state, at most one tick reports a key. */
  lemma {:induction false} AtMostOneReportPerPress(s: DebounceState, samples: seq<Sample>)
    requires Held(samples)
    ensures Reports(Run(s, samples)) <= 1
    decreases |samples|
  {
    if samples != [] {
      var t := Step(s, samples[0].now, samples[0].scanned);
      assert Held(samples[1..]) by {
        forall i | 0 <= i < |samples[1..]| ensures samples[1..][i].scanned != NoKey {
          assert samples[1..][i] == samples[i + 1];
        }
      }
      if t.key != NoKey {
        LatchedStaysSilent(t.next, samples[1..]);
      } else {
        AtMostOneReportPerPress(t.next, samples[1..]);
      }
    }
  }

  /** With the timer running and the key held, no tick within the threshold reports. */
  lemma {:induction false} TimingIsSilent(s: DebounceState, samples: seq<Sample>)
    requires s.timerStarted && Held(samples)
    requires forall i :: 0 <= i < |samples| ==> samples[i].now - s.timerStart <= DebounceMicros
    ensures Reports(Run(s, samples)) == 0
    decreases |samples|
  {
    if samples != [] {
      var t := Step(s, samples[0].now, samples[0].scanned);
      assert t == StepResult(s, NoKey);
      forall i | 0 <= i < |samples[1..]|
        ensures samples[1..][i].scanned != NoKey && samples[1..][i].now - s.timerStart <= DebounceMicros
      {
        assert samples[1..][i] == samples[i + 1];
      }
      TimingIsSilent(s, samples[1..]);
    }
  }

  /** With the timer running and the key held until a tick past the threshold, exactly
      one tick reports. */
  lemma {:induction false} TimingReportsOnce(s: DebounceState, samples: seq<Sample>)
    requires s.timerStarted && Held(samples) && samples != []
    requires samples[|samples| - 1].now - s.timerStart > DebounceMicros
    ensures Reports(Run(s, samples)) == 1
    decreases |samples|
  {
    var t := Step(s, samples[0].now, samples[0].scanned);
    assert Held(samples[1..]) by {
      forall i | 0 <= i < |samples[1..]| ensures samples[1..][i].scanned != NoKey {
        assert samples[1..][i] == samples[i + 1];
      }
    }
    if t.key != NoKey {
      LatchedStaysSilent(t.next, samples[1..]);
    } else {
      assert t.next == s;
      assert |samples| > 1;
      assert samples[1..][|samples[1..]| - 1] == samples[|samples| - 1];
      TimingReportsOnce(s, samples[1..]);
    }
  }

  /** A press that starts when the debouncer is ready and is released (or observed for
      the last time) no more than 20000 microseconds after its first tick is never reported. */
  lemma ShortPressSuppressed(s: DebounceState, samples: seq<Sample>)
    requires Ready(s) && Held(samples) && samples != []
    requires forall i :: 0 <= i < |samples| ==> samples[i].now - samples[0].now <= DebounceMicros
    ensures Reports(Run(s, samples)) == 0
  {
    var t := Step(s, samples[0].now, samples[0].scanned);
    assert t.key == NoKey && t.next.timerStarted && t.next.timerStart == samples[0].now;
    forall i | 0 <= i < |samples[1..]|
      ensures samples[1..][i].scanned != NoKey && samples[1..][i].now - t.next.timerStart <= DebounceMicros
    {
      assert samples[1..][i] == samples[i + 1];
    }
    TimingIsSilent(t.next, samples[1..]);
  }

  /** A release does not stop a running timer (only the report branch does), so a press
      that follows a released tap is timed from the tap: here '5' is held for 5001
      microseconds and still reported. `ShortPressSuppressed` needs a ready state for
      exactly this reason. */
  lemma TapThenPressReportedEarly()
    ensures Run(Idle, [Sample(0, '1'), Sample(5000, NoKey), Sample(15000, '5'), Sample(20001, '5')])
         == [NoKey, NoKey, NoKey, '5']
  {
    var samples := [Sample(0, '1'), Sample(5000, NoKey), Sample(15000, '5'), Sample(20001, '5')];
    var tapping := DebounceState(NoKey, true, 0);
    assert Step(Idle, 0, '1') == StepResult(tapping, NoKey);
    assert Step(tapping, 5000, NoKey) == StepResult(tapping, NoKey);
    assert Step(tapping, 15000, '5') == StepResult(tapping, NoKey);
    assert Step(tapping, 20001, '5').key == '5';
    assert Run(Step(tapping, 20001, '5').next, samples[4..]) == [];
    assert Run(tapping, samples[3..]) == ['5'];
    assert Run(tapping, samples[2..]) == [NoKey, '5'];
    assert Run(tapping, samples[1..]) == [NoKey, NoKey, '5'];
  }

  /** A press that starts when the debouncer is ready and is still held at a tick more
      than 20000 microseconds after its first tick is reported exactly once. */
  lemma LongPressReportedOnce(s: DebounceState, samples: seq<Sample>)
    requires Ready(s) && Held(samples) && samples != []
    requires samples[|samples| - 1].now - samples[0].now > DebounceMicros
    ensures Reports(Run(s, samples)) == 1
  {
    var t := Step(s, samples[0].now, samples[0].scanned);
    assert t.key == NoKey && t.next.timerStarted && t.next.timerStart == samples[0].now;
    assert |samples| > 1;
    assert samples[1..][|samples[1..]| - 1] == samples[|samples| - 1];
    assert Held(samples[1..]) by {
      forall i | 0 <= i < |samples[1..]| ensures samples[1..][i].scanned != NoKey {
        assert samples[1..][i] == samples[i + 1];
      }
    }
    TimingReportsOnce(t.next, samples[1..]);
  }
}
