/** The event log: a fixed array of 100 timestamped labels written in place at a
    cursor that wraps to 0 after index 99 (main.cpp:43-48, 191-202, 318-341). */
module Events {

  const Capacity := 100

  /** Bytes of the label field as declared in the source (char typeOfEvent[14]). */
  const DeclaredLabelBytes := 14

  /** Bytes the label field needs to hold every label the program builds together
      with its terminating NUL; the model's log uses this size. */
  const LabelBytes := 15

  /** One stored event: wall-clock seconds and its label. */
  datatype Event = Event(seconds: int, typeOfEvent: string)

  /** A zero-initialised entry of the global array. */
  const Blank := Event(0, "")

  /** The label systemStateUpdate builds: the element name followed by "_ON" or "_OFF". */
  function Label(elementName: string, on: bool): string
  {
    elementName + (if on then "_ON" else "_OFF")
  }

  /** A C string of this many characters fits in a buffer of `bytes` bytes. */
  predicate FitsIn(text: string, bytes: nat) {
    |text| + 1 <= bytes
  }

  /** The log as a value: all 100 entries and the write cursor. */
  datatype Log = Log(entries: seq<Event>, cursor: nat)

  predicate ValidLog(log: Log) {
    |log.entries| == Capacity && log.cursor < Capacity
  }

  const EmptyLog := Log(seq(Capacity, _ => Blank), 0)

  /** The cursor after a write at i: the next index, or 0 after the last one. */
  function NextCursor(i: nat): (j: nat)
    requires i < Capacity
    ensures j < Capacity
    ensures j == (i + 1) % Capacity
  {
    if i < Capacity - 1 then i + 1 else 0
  }

  /** One write: e goes to the cursor, which then advances or wraps. */
  function Record(log: Log, e: Event): (r: Log)
    requires ValidLog(log)
    ensures ValidLog(r)
    ensures r.entries[log.cursor] == e
    ensures forall i :: 0 <= i < Capacity && i != log.cursor ==> r.entries[i] == log.entries[i]
  {
    Log(log.entries[log.cursor := e], NextCursor(log.cursor))
  }

  /** A series of writes, oldest first. */
  function RecordAll(log: Log, es: seq<Event>): (r: Log)
    requires ValidLog(log)
    ensures ValidLog(r)
    decreases |es|
  {
    if es == [] then log else RecordAll(Record(log, es[0]), es[1..])
  }

  /** What the `*` key lists: the entries below the cursor, in index order. */
  function Dumped(log: Log): seq<Event>
    requires ValidLog(log)
  {
    log.entries[..log.cursor]
  }

  /** After n writes the cursor has moved n places round the array. */
  lemma {:induction false} RecordAllCursor(log: Log, es: seq<Event>)
    requires ValidLog(log)
    ensures RecordAll(log, es).cursor == (log.cursor + |es|) % Capacity
    decreases |es|
  {
    if es != [] {
      var next := Record(log, es[0]);
      RecordAllCursor(next, es[1..]);
      if log.cursor == Capacity - 1 {
        assert next.cursor == 0;
        assert (0 + |es| - 1) % Capacity == (Capacity + |es| - 1) % Capacity;
      }
    }
  }

  /** Writing in two batches is writing once. */
  lemma {:induction false} RecordAllAppend(log: Log, a: seq<Event>, b: seq<Event>)
    requires ValidLog(log)
    ensures RecordAll(log, a + b) == RecordAll(RecordAll(log, a), b)
    decreases |a|
  {
    if a != [] {
      assert (a + b)[0] == a[0];
      assert (a + b)[1..] == a[1..] + b;
      var next := Record(log, a[0]);
      assert RecordAll(log, a + b) == RecordAll(next, a[1..] + b);
      assert RecordAll(log, a) == RecordAll(next, a[1..]);
      RecordAllAppend(next, a[1..], b);
    } else {
      assert a + b == b;
    }
  }

  /** Until the cursor wraps, the dump lists every event written, in insertion order. */
  lemma {:induction false} DumpKeepsInsertionOrder(log: Log, es: seq<Event>)
    requires ValidLog(log) && log.cursor + |es| < Capacity
    ensures Dumped(RecordAll(log, es)) == Dumped(log) + es
    decreases |es|
  {
    if es != [] {
      var next := Record(log, es[0]);
      assert Dumped(next) == Dumped(log) + [es[0]];
      DumpKeepsInsertionOrder(next, es[1..]);
      assert [es[0]] + es[1..] == es;
    }
  }

  /** After exactly 100 writes from an empty cursor the cursor is back at 0 and the dump
      reports no events, although all 100 entries hold events. */
  lemma FullLapEmptiesDump(log: Log, es: seq<Event>)
    requires ValidLog(log) && log.cursor == 0 && |es| == Capacity
    ensures RecordAll(log, es).cursor == 0
    ensures Dumped(RecordAll(log, es)) == []
  {
    RecordAllCursor(log, es);
  }

  /** The 101st write lands at index 0, overwriting the first, and the dump right after
      it lists that one event only. */
  lemma OverwriteAfterLap(log: Log, es: seq<Event>)
    requires ValidLog(log) && log.cursor == 0 && |es| == Capacity + 1
    ensures RecordAll(log, es).entries[0] == es[Capacity]
    ensures Dumped(RecordAll(log, es)) == [es[Capacity]]
  {
    var lap, extra := es[..Capacity], es[Capacity..];
    assert es == lap + extra;
    RecordAllAppend(log, lap, extra);
    FullLapEmptiesDump(log, lap);
    var afterLap := RecordAll(log, lap);
    assert extra == [es[Capacity]];
    assert RecordAll(afterLap, extra) == Record(afterLap, es[Capacity]);
  }

  /** The stored events and the cursor of the source (arrayOfStoredEvents, eventsIndex). */
  class EventLog {
    const events: array<Event>
    var eventsIndex: nat

    /** The log as a value. */
    function Contents(): Log
      reads this, events
    {
      Log(events[..], eventsIndex)
    }

    ghost predicate Valid()
      reads this, events
    {
      events.Length == Capacity && ValidLog(Contents()) &&
      forall i :: 0 <= i < events.Length ==> FitsIn(events[i].typeOfEvent, LabelBytes)
    }

    constructor ()
      ensures Valid() && fresh(events)
      ensures Contents() == EmptyLog
    {
      events := new Event[Capacity](_ => Blank);
      eventsIndex := 0;
    }

    /** systemStateUpdate: when the state changed, store the label for the new state at
        the cursor, then advance the cursor or wrap it to 0 after the last index. */
    method LogTransition(lastState: bool, currentState: bool, elementName: string, seconds: int)
      requires Valid()
      requires lastState != currentState ==> FitsIn(Label(elementName, currentState), LabelBytes)
      modifies this, events
      ensures Valid()
      ensures Contents() ==
        if lastState != currentState
        then Record(old(Contents()), Event(seconds, Label(elementName, currentState)))
        else old(Contents())
    {
      if lastState != currentState {
        var text := Label(elementName, currentState);
        events[eventsIndex] := Event(seconds, text);
        if eventsIndex < Capacity - 1 {
          eventsIndex := eventsIndex + 1;
        } else {
          eventsIndex := 0;
        }
      }
    }

    /** The `*` listing: entries 0 up to, not including, the cursor; empty when the
        source prints that no events are stored. */
    method Dump() returns (dumped: seq<Event>)
      requires Valid()
      ensures dumped == Dumped(Contents())
    {
      dumped := [];
      for i := 0 to eventsIndex
        invariant dumped == events[..i]
      {
        dumped := dumped + [events[i]];
      }
    }
  }
}
