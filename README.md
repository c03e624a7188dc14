# Keypad-disarmed alarm: a Dafny model of its control logic

The program runs a single polling loop on a microcontroller. It checks three
sensors. These are a potentiometer standing in for an intrusion sensor, an LM35
temperature sensor, and an MQ-2 gas sensor. It arms an alarm when one of them
crosses its threshold. It reads a 4x4 matrix keypad through a debouncer, and it
disarms the alarm when the 4-digit code `1359` is entered and confirmed with `#`.
Every arming transition goes into a log of 100 timestamped events. The `*` key
lists that log.

The model has three modules:

- `Keypad` (keypad.dfy) covers the keypad.
  - `Scan` is the row-by-row scan over a 4x4 grid of column readings.
  - `Step` is the debouncer as a function of its state, the time in
    microseconds and the scanned key.
  - The class `Debouncer` holds the static locals of `matrixKeypadUpdate`.
  - `Run` covers a series of ticks, together with lemmas about presses.
- `Events` (events.dfy) covers the event log.
  - The class `EventLog` holds `arrayOfStoredEvents` as an `array<Event>` of
    100 entries, plus the cursor `eventsIndex`.
  - The value `Log`, with `Record`, `RecordAll` and `Dumped`, specifies it.
  - Lemmas cover the cursor's wrap-around and the range the dump lists.
- `Alarm` (alarm.dfy) covers the body of the main loop.
  - The class `AlarmSystem` holds the code buffer `enterCode` (an
    `array<char>` of 4), `enterDigits`, `alarmActivated`, main's local
    `alarmState` and `incorrectCodeLed`.
  - Its methods are `ArmCheck`, `CompareCode`, `HandleKey` and `Tick`.
  - These are specified by the value-level functions `Trigger` and `Press`,
    with lemmas about series of ticks and keys.

Inputs that are hardware or clocks in the program are parameters here.

- The column readings for each driven row are a `Grid`.
- The debounce timer is a start time, compared against a `now` argument in
  microseconds. The elapsed time is `now - timerStart`.
- The wall-clock `time(NULL)` stored with each event is a `seconds` argument.
- The three sensor conditions are the booleans of a `Reading`:
  - `potOver` stands for `potentiometer.read() >= 0.51f`.
  - `tempOver` stands for the LM35 temperature `> 32.0`.
  - `gasLow` stands for `!mq2`. `mq2` is an analog input, so this means its
    reading converts to zero.

Text written to the serial port becomes an `Outcome` value. The `*` listing
becomes the returned sequence of events. An empty sequence is the case in which
the program prints that no events are stored.

## Behaviour of the code worth knowing

- **Debounce threshold.** A key is reported only when strictly more than
  20000 microseconds have elapsed (`> 20000`, main.cpp:90). It is not reported
  at exactly 20 ms. The timer is started and tested in the same call, so the
  call that starts it never reports.
- **A release does not stop a running timer.** A NoKey scan clears `lastKey`
  (main.cpp:99-101). Only the report branch stops the timer (main.cpp:91-92).
  A new press starts the timer only when it is not already running
  (main.cpp:84). So a press that follows a released tap is timed from the tap,
  and it can be reported after less than 20000 us of its own hold.
  `Keypad.TapThenPressReportedEarly` shows such a run.
  `Keypad.ShortPressSuppressed` holds only for presses that begin with no
  timer running.
- **The disarm is never logged.** After a disarm the program prints "Date and
  time of incident recorded." (main.cpp:179) and calls `systemStateUpdate`
  (main.cpp:180). But `alarmState` is only ever assigned the value of
  `alarmActivated` while that is false (main.cpp:127, 136, 145). The call
  therefore passes two equal states, and nothing is stored.
  `AlarmSystem.HandleKey` states that the log is unchanged by every key, the
  disarm included. The class invariant records that `alarmState` is always
  false. The model keeps this behaviour as written.
- **A correct code while disarmed.** This is treated like a wrong code: it
  lights the incorrect-code indicator (main.cpp:174-185).

## Model

| member | source | states |
|---|---|---|
| `Keypad.Scan` | main.cpp:62-76 | Returns NoKey exactly when no column reads low for any row. Otherwise it returns `KeyTable[row*Cols+col]` for a pressed position with no pressed position before it in row-major order. |
| `Keypad.KeyTableHasNoNul` | main.cpp:36-41 | No symbol in the key table is the NUL character, so a pressed key is never mistaken for "no key". |
| `Keypad.Step` | main.cpp:78-104 | A call reports a key if and only if the timer was already running, more than 20000 us have elapsed, and the scan is not NoKey. The key reported is the one scanned at that tick. After a report, that key is latched and the timer is stopped. A NoKey scan clears the latch. |
| `Keypad.Debouncer.constructor` | main.cpp:79-81 | The debouncer starts with no latched key and no timer running. |
| `Keypad.Debouncer.Update` | main.cpp:78-104 | The new state and the returned key are those of `Step`, applied to the old state, the time and the scan of the pins. |
| `Keypad.LatchedStaysSilent` | main.cpp:84-101 | After a report, while the key stays down, no tick reports anything and the state does not change. |
| `Keypad.ReleaseRearms` | main.cpp:90-101 | Releasing the key after a report leaves the debouncer ready for a new press. |
| `Keypad.HoldThenReleaseRearms` | main.cpp:84-101 | After a report, a hold of any length followed by a release leaves the debouncer ready for a new press. |
| `Keypad.AtMostOneReportPerPress` | main.cpp:84-101 | Over any stretch of ticks during which a key is held, from any state, at most one tick reports a key. |
| `Keypad.TimingIsSilent` | main.cpp:90-97 | While the timer runs and no more than 20000 us have elapsed, a held key is not reported. |
| `Keypad.TimingReportsOnce` | main.cpp:90-97 | While the timer runs, a key held until some tick past 20000 us is reported exactly once. |
| `Keypad.ShortPressSuppressed` | main.cpp:84-97 | Suppose a press starts while the debouncer is ready and all of its ticks fall within 20000 us of its first tick. Then it is never reported. |
| `Keypad.TapThenPressReportedEarly` | main.cpp:84-101 | A tap at 0 us, its release at 5000 us, then a press of '5' seen at 15000 and 20001 us: '5' is reported at 20001 us, after 5001 us of its own hold, because the tap's timer was still running. |
| `Keypad.LongPressReportedOnce` | main.cpp:84-97 | Suppose a press starts while the debouncer is ready and is still held more than 20000 us after its first tick. Then it is reported exactly once. |
| `Events.NextCursor` | main.cpp:332-336 | The cursor after a write is `(i + 1) % 100`, and it stays below 100. |
| `Events.Record` | main.cpp:330-336 | A write stores the event at the cursor and changes no other entry. The cursor stays in range. |
| `Events.RecordAll` | main.cpp:318-341 | Any series of writes keeps the log at 100 entries with the cursor in range. |
| `Events.RecordAllCursor` | main.cpp:332-336 | After n writes, the cursor is the old cursor plus n, modulo 100. |
| `Events.RecordAllAppend` | main.cpp:318-341 | Writing two batches one after the other is the same as writing them as one series. |
| `Events.DumpKeepsInsertionOrder` | main.cpp:191-202 | Until the cursor wraps, the `*` listing is the old listing followed by the new events, in the order they were written. |
| `Events.FullLapEmptiesDump` | main.cpp:191-194 | After exactly 100 writes from cursor 0, the cursor is 0 again and the listing is empty ("no events"). |
| `Events.OverwriteAfterLap` | main.cpp:191-202 | The 101st write from cursor 0 overwrites entry 0. The listing right after it shows only that event. |
| `Events.EventLog.constructor` | main.cpp:8 | The log starts with 100 zeroed entries and the cursor at 0. |
| `Events.EventLog.LogTransition` | main.cpp:318-341 | When the two states differ, the event `name + "_ON"/"_OFF"` with its timestamp is written at the cursor, and the cursor advances or wraps. When they are equal, nothing changes. The label must fit the label buffer. |
| `Events.EventLog.Dump` | main.cpp:191-202 | Returns entries 0 up to, but not including, the cursor, in index order. |
| `Alarm.TempLabelOverflowsDeclaredBuffer` | main.cpp:45 | TEMP alone arms with source Temp. Its label `ElementName(Temp) + "_ON"` is 14 characters, so with its NUL it does not fit the declared 14-byte label field. |
| `Alarm.AlarmLabelsFit` | main.cpp:319-331 | The "_ON" label of every source, and the disarm call's `ElementName(Pot) + "_OFF"`, fit a 15-byte field. |
| `Alarm.Trigger` | main.cpp:126-151 | A source arms the alarm only while it is disarmed and some condition holds. The chosen source's condition holds. TEMP is chosen only when POT does not hold, and GAS only when neither POT nor TEMP holds. |
| `Alarm.ArmedLogsNothing` | main.cpp:126-151 | While the alarm is activated, no series of ticks arms it or logs anything. |
| `Alarm.ArmsAtMostOnce` | main.cpp:126-151 | Over ticks with no disarm, one arming event is logged when the alarm starts disarmed and some tick meets a condition, and none otherwise. The event names the first source whose condition holds on the first tick on which any condition holds: no earlier tick meets a condition. |
| `Alarm.Press` | main.cpp:155-203 | Every key keeps the buffer at 4 characters with at most 4 digits counted. `#` always resets the count to 0. Keys other than digits and `#` leave the code-entry state unchanged. |
| `Alarm.PressAll` | main.cpp:155-203 | Any series of keys keeps the code-entry state well formed. |
| `Alarm.DisarmOnlyByCorrectCode` | main.cpp:161-188 | The alarm goes from activated to deactivated if and only if the key is `#`, 4 digits were entered and they equal the stored code. A deactivated alarm is never activated by a key. |
| `Alarm.IncorrectCodeIndicator` | main.cpp:174-185 | The indicator is lit after a key if and only if it was lit before, or the key is `#` after 4 digits without disarming. A correct code while disarmed counts as not disarming. |
| `Alarm.ShortCodeIgnored` | main.cpp:186-189 | `#` with fewer than 4 digits only resets the count and answers "Please enter 4 digits". |
| `Alarm.DigitsFillBuffer` | main.cpp:156-160 | While there is room, typed digits are stored in order after the ones already entered. |
| `Alarm.ExtraDigitsDropped` | main.cpp:156-160 | With 4 digits entered, further digits change nothing. |
| `Alarm.PressAllAppend` | main.cpp:155-203 | Pressing two series of keys one after the other is the same as pressing them as one series. |
| `Alarm.SubmitFourDigits` | main.cpp:156-189 | Typing 4 digits and `#` on an empty buffer disarms the alarm exactly when it was activated and the digits are `1359`. Otherwise it lights the indicator. The count ends at 0. |
| `Alarm.AlarmSystem.constructor` | main.cpp:5-8 | Power-up state: a zeroed buffer, no digits, the alarm and both indicators off, an empty log and an idle debouncer. |
| `Alarm.AlarmSystem.ArmCheck` | main.cpp:126-151 | The alarm flag becomes set exactly when it was set or `Trigger` names a source. When `Trigger` names a source, exactly one `<name>_ON` event is written; otherwise the log is unchanged. The buffer and the indicator are unchanged. |
| `Alarm.AlarmSystem.CompareCode` | main.cpp:166-172 | Returns true if and only if all 4 buffer positions equal the stored code. |
| `Alarm.AlarmSystem.HandleKey` | main.cpp:155-203 | The new code-entry state and the outcome are those of `Press`. The log is unchanged, the disarm included. `*` returns the log's listing. |
| `Alarm.AlarmSystem.Tick` | main.cpp:126-204 | One loop iteration has three parts, in order. First, the arming of `ArmCheck`. Second, one debouncer `Step`. Third, when a key is reported, the `Press` of that key. The log gets only the arming event. On `*` the returned listing is the log's entries below the cursor, and otherwise it is empty. |

## Findings

| source | as written | input that shows it | evidently intended | confidence | as-written member | corrected member |
|---|---|---|---|---|---|---|
| main.cpp:45 | `typeOfEvent` and the local label buffer at main.cpp:319 have 14 bytes, but `strcat`/`strcpy` copy "TEMP. ALARM_ON": 14 characters plus the NUL | temperature above 32.0 with the potentiometer below 0.51 while disarmed, which calls `systemStateUpdate(false, true, "TEMP. ALARM")` | label buffers large enough for every label built (15 bytes) | high, not executed | `Alarm.TempLabelOverflowsDeclaredBuffer` | `Alarm.AlarmLabelsFit` |

The log in the model uses the corrected 15-byte size (`Events.LabelBytes`).
`EventLog.LogTransition` requires each label it stores to fit that size.

## Left out

- Serial command handling (`uartTask`, `availableCommands`, main.cpp:220-316) is I/O. This includes setting the clock from typed digits with `atoi`/`mktime`/`set_time`. The `uartTask` call after a disarm (main.cpp:181) is left out too.
- Analog sampling and the LM35 scaling (main.cpp:121-124, 343-346) are floating-point readings of hardware. The three comparisons become the booleans of `Reading`.
- The buzzer tone pattern and the sleeps (main.cpp:206-216) are waveform generation and blocking delays. So are the `buzzer = 0` writes.
- Pin setup (`inputsInit`, `outputsInit`) and the row-pin writes inside the scan are left out. Only the logical column readings per driven row are modelled.
- The alarm LED is not a separate field. It is set and cleared exactly where `alarmActivated` is (main.cpp:131, 140, 149, 176).
- The serial messages and the `sprintf`/`ctime` formatting of the listing are left out. The model returns `Outcome` values and the listed events.
- The mbed `Timer` object and `time(NULL)` are left out. The model uses a start time, a `now` argument and a `seconds` argument.
- Writing past the end of the 14-byte label buffers is undefined behaviour. The model does not represent it, and uses the corrected size instead (see Findings).
