/** A monitor over its whole life: chunks arrive at their own times, and every event counts from the chunk that ends its
    line. */
module WatchdogRuns {
  import opened Bytes
  import opened Lines
  import opened Watchdog

  datatype Chunk = Chunk(data: bytes, now: int)

  function AllData(chunks: seq<Chunk>): bytes {
    if chunks == [] then [] else chunks[0].data + AllData(chunks[1..])
  }

  /** The time of the last chunk that is not empty. */
  function LastOutput(chunks: seq<Chunk>, was: int): int {
    if chunks == [] then was
    else LastOutput(chunks[1..], if chunks[0].data == [] then was else chunks[0].now)
  }

  function EventsOn(parse: Parser, lines: seq<bytes>, now: int): seq<Timed> {
    if lines == [] then []
    else
      var event := parse(lines[0]);
      (if event.Some? then [Timed(event.value, now)] else []) + EventsOn(parse, lines[1..], now)
  }

  /** The events of a stream, each at the time of the chunk that completes its line. */
  function StreamEvents(parse: Parser, pending: bytes, chunks: seq<Chunk>): seq<Timed>
    decreases |chunks|
  {
    if chunks == [] then []
    else
      var data := pending + chunks[0].data;
      EventsOn(parse, Split(data), chunks[0].now) + StreamEvents(parse, Remainder(data), chunks[1..])
  }

  // ---- The events are those of the stream ----

  function Untimed(events: seq<Timed>): seq<Event> {
    if events == [] then [] else [events[0].event] + Untimed(events[1..])
  }

  function EventsIn(parse: Parser, lines: seq<bytes>): seq<Event> {
    if lines == [] then []
    else
      var event := parse(lines[0]);
      (if event.Some? then [event.value] else []) + EventsIn(parse, lines[1..])
  }

  lemma {:induction false} UntimedJoin(a: seq<Timed>, b: seq<Timed>)
    ensures Untimed(a + b) == Untimed(a) + Untimed(b)
  {
    if a == [] {
      assert a + b == b;
    } else {
      assert (a + b)[0] == a[0] && (a + b)[1..] == a[1..] + b;
      UntimedJoin(a[1..], b);
      Regrouped([a[0].event], Untimed(a[1..]), Untimed(b));
    }
  }

  lemma Regrouped<T>(a: seq<T>, b: seq<T>, c: seq<T>)
    ensures (a + b) + c == a + (b + c)
  {
  }

  lemma FirstEvent(parse: Parser, lines: seq<bytes>) returns (first: seq<Event>)
    requires lines != []
    ensures first == if parse(lines[0]).Some? then [parse(lines[0]).value] else []
    ensures EventsIn(parse, lines) == first + EventsIn(parse, lines[1..])
  {
    first := if parse(lines[0]).Some? then [parse(lines[0]).value] else [];
  }

  lemma {:induction false} EventsJoin(parse: Parser, a: seq<bytes>, b: seq<bytes>)
    ensures EventsIn(parse, a + b) == EventsIn(parse, a) + EventsIn(parse, b)
  {
    if a == [] {
      assert a + b == b && EventsIn(parse, []) == [];
    } else {
      hide EventsIn;
      assert (a + b)[0] == a[0] && (a + b)[1..] == a[1..] + b;
      var first := FirstEvent(parse, a);
      var _ := FirstEvent(parse, a + b);
      EventsJoin(parse, a[1..], b);
      Regrouped(first, EventsIn(parse, a[1..]), EventsIn(parse, b));
    }
  }

  lemma {:induction false} UntimedOn(parse: Parser, lines: seq<bytes>, now: int)
    ensures Untimed(EventsOn(parse, lines, now)) == EventsIn(parse, lines)
  {
    if lines != [] {
      var event := parse(lines[0]);
      UntimedOn(parse, lines[1..], now);
      UntimedJoin(if event.Some? then [Timed(event.value, now)] else [], EventsOn(parse, lines[1..], now));
      assert event.Some? ==> Untimed([Timed(event.value, now)]) == [event.value];
    }
  }

  /** However a stream is cut, its events are those on its lines, in order. */
  lemma {:induction false} EventsAreOnLines(parse: Parser, pending: bytes, chunks: seq<Chunk>)
    requires IsLine(pending)
    ensures Untimed(StreamEvents(parse, pending, chunks)) == EventsIn(parse, Split(pending + AllData(chunks)))
    decreases |chunks|
  {
    hide Split, Remainder;
    if chunks == [] {
      assert pending + [] == pending;
      NotReached(pending);
    } else {
      var data, more := pending + chunks[0].data, AllData(chunks[1..]);
      assert pending + (chunks[0].data + more) == data + more;
      SplitGoesOn(data, more);
      EventsAreOnLines(parse, Remainder(data), chunks[1..]);
      EventsJoin(parse, Split(data), Split(Remainder(data) + more));
      UntimedOn(parse, Split(data), chunks[0].now);
      UntimedJoin(EventsOn(parse, Split(data), chunks[0].now), StreamEvents(parse, Remainder(data), chunks[1..]));
    }
  }

  // ---- The snapshot of a stream ----

  lemma {:induction false} AfterJoin(isWait: Names, s: Snapshot, a: seq<Timed>, b: seq<Timed>)
    ensures After(isWait, s, a + b) == After(isWait, After(isWait, s, a), b)
    decreases |b|
  {
    if b == [] {
      assert a + b == a;
    } else {
      var most := b[..|b| - 1];
      assert (a + b)[..|a + b| - 1] == a + most;
      AfterJoin(isWait, s, a, most);
    }
  }

  lemma {:induction false} LinesAreAfter(isWait: Names, parse: Parser, s: Snapshot, lines: seq<bytes>, now: int)
    ensures ObserveLines(isWait, parse, s, lines, now) == After(isWait, s, EventsOn(parse, lines, now))
    decreases |lines|
  {
    if lines != [] {
      var event := parse(lines[0]);
      if event.Some? {
        var first := [Timed(event.value, now)];
        assert first[..0] == [] && After(isWait, s, first) == Observe(isWait, s, event.value, now);
        LinesAreAfter(isWait, parse, Observe(isWait, s, event.value, now), lines[1..], now);
        AfterJoin(isWait, s, first, EventsOn(parse, lines[1..], now));
      } else {
        LinesAreAfter(isWait, parse, s, lines[1..], now);
        assert [] + EventsOn(parse, lines[1..], now) == EventsOn(parse, lines[1..], now);
      }
    }
  }

  lemma {:induction false} OutputIsApart(isWait: Names, s: Snapshot, output: int, events: seq<Timed>)
    ensures After(isWait, s.(lastOutput := output), events) == After(isWait, s, events).(lastOutput := output)
  {
    if events != [] {
      OutputIsApart(isWait, s, output, events[..|events| - 1]);
    }
  }

  /** One more chunk: its events come behind those so far. */
  lemma OneChunk(isWait: Names, parse: Parser, s: Snapshot, done: seq<Timed>, output: int, lines: seq<bytes>, now: int)
    ensures ObserveLines(isWait, parse, After(isWait, s, done).(lastOutput := output), lines, now)
         == After(isWait, s, done + EventsOn(parse, lines, now)).(lastOutput := output)
  {
    hide Observe, After, ObserveLines;
    var at := After(isWait, s, done);
    LinesAreAfter(isWait, parse, at.(lastOutput := output), lines, now);
    OutputIsApart(isWait, at, output, EventsOn(parse, lines, now));
    AfterJoin(isWait, s, done, EventsOn(parse, lines, now));
  }

  lemma NoMoreChunks(parse: Parser, pending: bytes, output: int)
    requires IsLine(pending)
    ensures StreamEvents(parse, pending, []) == [] && LastOutput([], output) == output
    ensures Remainder(pending + AllData([])) == pending
  {
    assert pending + [] == pending;
    NotReached(pending);
  }

  lemma NextChunk(parse: Parser, pending: bytes, chunks: seq<Chunk>, i: nat, done: seq<Timed>, output: int)
    requires i < |chunks|
    ensures var c, data := chunks[i], pending + chunks[i].data;
            && done + StreamEvents(parse, pending, chunks[i..])
               == (done + EventsOn(parse, Split(data), c.now)) + StreamEvents(parse, Remainder(data), chunks[i + 1..])
            && Remainder(pending + AllData(chunks[i..])) == Remainder(Remainder(data) + AllData(chunks[i + 1..]))
            && LastOutput(chunks[i..], output)
               == LastOutput(chunks[i + 1..], if c.data == [] then output else c.now)
  {
    hide Split, Remainder;
    var c, rest := chunks[i], chunks[i + 1..];
    assert chunks[i..][0] == c && chunks[i..][1..] == rest;
    var data := pending + c.data;
    assert pending + (c.data + AllData(rest)) == data + AllData(rest);
    SplitGoesOn(data, AllData(rest));
    Regrouped(done, EventsOn(parse, Split(data), c.now), StreamEvents(parse, Remainder(data), rest));
  }

  /** The snapshot after any chunks at any times is that of the stream's events, with the time of the last output. */
  method Feed(m: Monitor, chunks: seq<Chunk>)
    requires IsLine(m.pending)
    modifies m
    ensures m.pending == Remainder(old(m.pending) + AllData(chunks))
    ensures m.state == After(m.isWait, old(m.state), StreamEvents(m.parse, old(m.pending), chunks))
                       .(lastOutput := LastOutput(chunks, old(m.state.lastOutput)))
  {
    hide Observe, After, ObserveLines, Split, Remainder, StreamEvents, EventsOn, LastOutput, AllData;
    ghost var start, was := m.state, m.pending;
    ghost var done: seq<Timed> := [];
    ghost var output := m.state.lastOutput;
    StartsSo(m.isWait, start, StreamEvents(m.parse, was, chunks));
    assert chunks[0..] == chunks;
    for i := 0 to |chunks|
      invariant IsLine(m.pending)
      invariant StreamEvents(m.parse, was, chunks) == done + StreamEvents(m.parse, m.pending, chunks[i..])
      invariant Remainder(was + AllData(chunks)) == Remainder(m.pending + AllData(chunks[i..]))
      invariant LastOutput(chunks, start.lastOutput) == LastOutput(chunks[i..], output)
      invariant m.state == After(m.isWait, start, done).(lastOutput := output)
    {
      NextChunk(m.parse, m.pending, chunks, i, done, output);
      SilentChunk(m.parse, m.pending, chunks[i]);
      ghost var lines := Split(m.pending + chunks[i].data);
      if chunks[i].data != [] {
        output := chunks[i].now;
      }
      OneChunk(m.isWait, m.parse, start, done, output, lines, chunks[i].now);
      assert done + [] == done;
      m.Write(chunks[i].data, chunks[i].now);
      done := done + EventsOn(m.parse, lines, chunks[i].now);
    }
    assert chunks[|chunks|..] == [] && done + [] == done;
    NoMoreChunks(m.parse, m.pending, output);
  }

  lemma StartsSo(isWait: Names, s: Snapshot, events: seq<Timed>)
    ensures After(isWait, s, []) == s && [] + events == events
  {
  }

  lemma SilentChunk(parse: Parser, pending: bytes, c: Chunk)
    requires IsLine(pending)
    ensures c.data == [] ==> EventsOn(parse, Split(pending + c.data), c.now) == []
  {
    if c.data == [] {
      assert pending + c.data == pending;
      NotReached(pending);
    }
  }

  // ---- The stall of a bus wait ----

  /** The moment from which a bus wait that starts here counts as stalled. */
  function DueAt(last: Timed): int {
    if last.event.ToolStart? then last.now + last.event.timeout + 60_000_000_000 else 0
  }

  predicate HasWait(isWait: Names, events: seq<Timed>) {
    exists t | t in Opened(events) :: isWait(t.name)
  }

  /** A bus wait starts at `k`, and ever since some bus wait is open. */
  predicate WaitsFrom(isWait: Names, events: seq<Timed>, k: nat) {
    && k < |events| && events[k].event.ToolStart? && isWait(events[k].event.name)
    && forall m | k < m <= |events| :: HasWait(isWait, events[..m])
  }

  lemma WaitsFromBefore(isWait: Names, events: seq<Timed>, k: nat)
    requires events != [] && k < |events| - 1
    ensures WaitsFrom(isWait, events, k)
       <==> WaitsFrom(isWait, events[..|events| - 1], k) && HasWait(isWait, events)
  {
    hide HasWait;
    var before := events[..|events| - 1];
    assert events[..|events|] == events;
    assert forall m | 0 <= m <= |before| :: before[..m] == events[..m];
  }

  lemma WaitsFromNow(isWait: Names, events: seq<Timed>)
    requires events != []
    ensures WaitsFrom(isWait, events, |events| - 1) <==> IsWaitStart(isWait, events[|events| - 1])
  {
    var last := events[|events| - 1];
    assert events[..|events|] == events;
    if IsWaitStart(isWait, last) {
      var open := Opened(events[..|events| - 1]);
      var tool := OpenTool(last.event.name, last.now + last.event.timeout + BUS_WAIT_GRACE);
      assert Opened(events) == open + [tool] && (open + [tool])[|open|] == tool;
    }
  }

  predicate IsWaitStart(isWait: Names, last: Timed) {
    last.event.ToolStart? && isWait(last.event.name)
  }

  /** The deadline is the latest of those of the bus waits that started since one is open; 0 when there are none. */
  ghost predicate IsLatest(isWait: Names, events: seq<Timed>, deadline: int) {
    && (forall k | 0 <= k < |events| && WaitsFrom(isWait, events, k) :: 0 < DueAt(events[k]) <= deadline)
    && (deadline != 0 ==> exists k | 0 <= k < |events| :: WaitsFrom(isWait, events, k) && DueAt(events[k]) == deadline)
  }

  lemma LatestGoesOn(isWait: Names, events: seq<Timed>, deadline: int)
    requires events != [] && IsLatest(isWait, events[..|events| - 1], deadline)
    requires IsWaitStart(isWait, events[|events| - 1]) ==> DueAt(events[|events| - 1]) > 0
    ensures IsLatest(isWait, events,
                     if !HasWait(isWait, events) then 0
                     else if IsWaitStart(isWait, events[|events| - 1]) then Max(deadline, DueAt(events[|events| - 1]))
                     else deadline)
  {
    hide HasWait, WaitsFrom, IsWaitStart, DueAt;
    var before := events[..|events| - 1];
    WaitsFromNow(isWait, events);
    forall k | 0 <= k < |before|
      ensures WaitsFrom(isWait, events, k) <==> WaitsFrom(isWait, before, k) && HasWait(isWait, events)
      ensures before[k] == events[k]
    {
      WaitsFromBefore(isWait, events, k);
    }
    if !HasWait(isWait, events) {
      NoWaitsFrom(isWait, events);
    }
  }

  lemma NoWaitsFrom(isWait: Names, events: seq<Timed>)
    requires !HasWait(isWait, events)
    ensures forall k | 0 <= k < |events| :: !WaitsFrom(isWait, events, k)
  {
    hide HasWait;
    assert events[..|events|] == events;
  }

  lemma {:induction false} DeadlineIsLatest(isWait: Names, events: seq<Timed>)
    requires WellBracketed(events)
    ensures IsLatest(isWait, events, After(isWait, FRESH, events).busWaitDeadline)
  {
    hide IsLatest;
    if events == [] {
      NothingIsLatest(isWait);
    } else {
      var before := events[..|events| - 1];
      DeadlineIsLatest(isWait, before);
      LatestGoesOn(isWait, events, After(isWait, FRESH, before).busWaitDeadline);
      WaitsTell(isWait, before);
      WaitsTell(isWait, events);
    }
  }

  lemma NothingIsLatest(isWait: Names)
    ensures IsLatest(isWait, [], 0)
  {
  }

  lemma WaitsTell(isWait: Names, events: seq<Timed>)
    requires WellBracketed(events)
    ensures var s := After(isWait, FRESH, events);
            && s.busWaits >= 0 && (HasWait(isWait, events) <==> s.busWaits > 0)
            && (s.busWaitDeadline != 0 <==> HasWait(isWait, events))
  {
    CountersAreExact(isWait, events);
    WaitsBound(isWait, Opened(events));
  }

  /** While only bus waits are open a stall is reported exactly when all that started since one is open are due. */
  lemma BusWaitIsExact(isWait: Names, events: seq<Timed>, output: int, config: Config, now: int)
    requires WellBracketed(events) && Opened(events) != [] && forall t | t in Opened(events) :: isWait(t.name)
    ensures Deadline(After(isWait, FRESH, events).(lastOutput := output), config, now).0
         == if exists k | 0 <= k < |events| :: WaitsFrom(isWait, events, k) && now < DueAt(events[k]) then NoStall
            else BusWait
  {
    hide WaitsFrom, WellBracketed, DueAt;
    CountersAreExact(isWait, events);
    WaitsBound(isWait, Opened(events));
    assert Opened(events)[0] in Opened(events);
    DeadlineIsLatest(isWait, events);
  }

  // ---- The stall of a stream ----

  /** What the watchdog reports of a stream: nothing while an ordinary tool is open; while only bus waits are, a stall
      when all that started since one is open are due; in a turn with none open a stall exactly when the forward limit
      has passed since the last progress, or the idle limit since the last output; and between turns exactly when the
      grace has passed since the last turn end. */
  predicate IsReported(isWait: Names, events: seq<Timed>, output: int, config: Config, now: int, stall: Stall) {
    if exists t | t in Opened(events) :: !isWait(t.name) then stall == NoStall
    else if Opened(events) != [] then
      stall == if exists k | 0 <= k < |events| :: WaitsFrom(isWait, events, k) && now < DueAt(events[k]) then NoStall
               else BusWait
    else if InTurn(events) then
      stall != NoStall <==> now >= ProgressTime(events) + config.forward || now >= output + config.idle
    else
      var k := LastTurnEnd(events);
      stall == if k > 0 && now >= events[k - 1].now + 90_000_000_000 then TurnEndStall else NoStall
  }

  lemma ReportIsExact(isWait: Names, events: seq<Timed>, output: int, config: Config, now: int)
    requires WellBracketed(events)
    ensures IsReported(isWait, events, output, config, now,
                       Deadline(After(isWait, FRESH, events).(lastOutput := output), config, now).0)
  {
    CountersAreExact(isWait, events);
    if exists t | t in Opened(events) :: !isWait(t.name) {
      NoStallDuringTool(isWait, events, output, config, now);
    } else if Opened(events) != [] {
      BusWaitIsExact(isWait, events, output, config, now);
    } else if InTurn(events) {
      OutputDoesNotPostpone(isWait, events, output, config, now);
    } else {
      TurnEndStalls(isWait, events, output, config, now);
    }
  }

  /** A session watched from its start. */
  method Watch(isWait: Names, parse: Parser, chunks: seq<Chunk>, config: Config, now: int) returns (stall: Stall)
    ensures var events := StreamEvents(parse, [], chunks);
            WellBracketed(events) ==> IsReported(isWait, events, LastOutput(chunks, 0), config, now, stall)
  {
    hide After, Deadline, StreamEvents, IsReported, WellBracketed;
    var m := new Monitor(isWait, parse);
    Feed(m, chunks);
    stall := Deadline(m.state, config, now).0;
    ghost var events := StreamEvents(parse, [], chunks);
    if WellBracketed(events) {
      ReportIsExact(isWait, events, LastOutput(chunks, 0), config, now);
    }
  }
}
