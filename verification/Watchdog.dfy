/** The progress watchdog of a pi session: a snapshot moved by events, and the deadline that follows from it.

    Times are nanoseconds; 0 is the time that is not set. The timeout of a bus wait is taken as given. */
module Watchdog {
  import opened Bytes
  import opened Lines

  const SECOND := 1_000_000_000
  const BUS_WAIT_MAX := 600 * SECOND
  const BUS_WAIT_GRACE := 60 * SECOND
  const TURN_END_GRACE := 90 * SECOND

  datatype Event =
    | TurnStart
    | ToolStart(name: string, timeout: int)
    | ToolEnd(name: string)
    | TurnEnd
    | Other

  datatype Config = Config(idle: int, forward: int)

  datatype Snapshot = Snapshot(
    inTurn: bool, tools: int, busWaits: int, lastOutput: int, lastProgress: int, busWaitDeadline: int, turnEnded: int)

  datatype Stall = NoStall | Idle | Forward | BusWait | TurnEndStall

  /** Which tool names are bus waits is a parameter: a lower-cased, trimmed name with a certain ending. */
  type Names = string -> bool

  function Max(a: int, b: int): int {
    if a < b then b else a
  }

  function Observe(isWait: Names, s: Snapshot, event: Event, now: int): Snapshot {
    match event
    case TurnStart =>
      s.(lastProgress := if s.lastProgress == 0 then now else s.lastProgress,
         inTurn := true, tools := 0, busWaits := 0, busWaitDeadline := 0, turnEnded := 0)
    case ToolStart(name, timeout) =>
      var started := s.(inTurn := true, turnEnded := 0, tools := s.tools + 1, lastProgress := now);
      if isWait(name) then
        started.(busWaits := s.busWaits + 1, busWaitDeadline := Max(s.busWaitDeadline, now + timeout + BUS_WAIT_GRACE))
      else started
    case ToolEnd(name) =>
      var ended := s.(tools := if s.tools > 0 then s.tools - 1 else s.tools);
      if isWait(name) && s.busWaits > 0 then
        ended.(busWaits := s.busWaits - 1, busWaitDeadline := if s.busWaits == 1 then 0 else s.busWaitDeadline)
      else ended
    case TurnEnd =>
      s.(inTurn := false, tools := 0, busWaits := 0, busWaitDeadline := 0, lastProgress := now, turnEnded := now)
    case Other => s
  }

  /** The stall at a moment, and the deadline that is waited for (0 when there is none). */
  function Deadline(s: Snapshot, config: Config, now: int): (Stall, int) {
    if s.tools > 0 then
      if s.tools == s.busWaits && s.busWaitDeadline != 0 then
        (if now >= s.busWaitDeadline then BusWait else NoStall, s.busWaitDeadline)
      else (NoStall, 0)
    else if !s.inTurn then
      if s.turnEnded != 0 then
        var deadline := s.turnEnded + TURN_END_GRACE;
        (if now >= deadline then TurnEndStall else NoStall, deadline)
      else (NoStall, 0)
    else
      var idle, progress := s.lastOutput + config.idle, s.lastProgress + config.forward;
      var deadline := if progress < idle then progress else idle;
      (if now < deadline then NoStall else if progress < idle then Forward else Idle, deadline)
  }

  // ---- What the counters mean ----

  /** A tool that has started and not ended, and the moment from which a bus wait counts as stalled. */
  datatype OpenTool = OpenTool(name: string, due: int)

  datatype Timed = Timed(event: Event, now: int)

  function FirstNamed(open: seq<OpenTool>, name: string): (i: nat)
    ensures i <= |open| && (i < |open| ==> open[i].name == name)
    ensures forall k | 0 <= k < i :: open[k].name != name
  {
    if open == [] || open[0].name == name then 0 else 1 + FirstNamed(open[1..], name)
  }

  /** The tools open after one more event; a turn starts and ends with none. */
  function OpenedBy(open: seq<OpenTool>, last: Timed): seq<OpenTool> {
    match last.event
    case TurnStart => []
    case TurnEnd => []
    case ToolStart(name, timeout) => open + [OpenTool(name, last.now + timeout + BUS_WAIT_GRACE)]
    case ToolEnd(name) =>
      var i := FirstNamed(open, name);
      if i < |open| then open[..i] + open[i + 1..] else open
    case Other => open
  }

  function Opened(events: seq<Timed>): seq<OpenTool> {
    if events == [] then [] else OpenedBy(Opened(events[..|events| - 1]), events[|events| - 1])
  }

  /** Every end is the end of a tool that is open, and times and timeouts are positive. */
  predicate WellBracketed(events: seq<Timed>) {
    events == []
    || (var last := events[|events| - 1];
        && WellBracketed(events[..|events| - 1]) && last.now > 0
        && (last.event.ToolStart? ==> 0 < last.event.timeout <= BUS_WAIT_MAX)
        && (last.event.ToolEnd? ==> exists t :: t in Opened(events[..|events| - 1]) && t.name == last.event.name))
  }

  function Waits(isWait: Names, open: seq<OpenTool>): nat {
    if open == [] then 0 else (if isWait(open[0].name) then 1 else 0) + Waits(isWait, open[1..])
  }

  /** The snapshot after some events, with the times of output in between left to anyone. */
  function After(isWait: Names, start: Snapshot, events: seq<Timed>): Snapshot {
    if events == [] then start
    else Observe(isWait, After(isWait, start, events[..|events| - 1]), events[|events| - 1].event,
                 events[|events| - 1].now)
  }

  const FRESH := Snapshot(false, 0, 0, 0, 0, 0, 0)

  lemma {:induction false} WaitsConcat(isWait: Names, a: seq<OpenTool>, b: seq<OpenTool>)
    ensures Waits(isWait, a + b) == Waits(isWait, a) + Waits(isWait, b)
  {
    if a == [] {
      assert a + b == b;
    } else {
      assert (a + b)[0] == a[0] && (a + b)[1..] == a[1..] + b;
      WaitsConcat(isWait, a[1..], b);
    }
  }

  lemma {:induction false} WaitsBound(isWait: Names, open: seq<OpenTool>)
    ensures Waits(isWait, open) <= |open|
    ensures Waits(isWait, open) == |open| <==> forall t | t in open :: isWait(t.name)
    ensures Waits(isWait, open) == 0 <==> forall t | t in open :: !isWait(t.name)
  {
    if open != [] {
      WaitsBound(isWait, open[1..]);
      assert forall t :: t in open <==> t == open[0] || t in open[1..];
    }
  }

  lemma WaitsBetween(isWait: Names, a: seq<OpenTool>, t: OpenTool, b: seq<OpenTool>)
    ensures Waits(isWait, a + ([t] + b)) == Waits(isWait, a + b) + if isWait(t.name) then 1 else 0
  {
    var rest := [t] + b;
    assert rest[0] == t && rest[1..] == b;
    assert Waits(isWait, rest) == Waits(isWait, b) + if isWait(t.name) then 1 else 0;
    WaitsConcat(isWait, a, rest);
    WaitsConcat(isWait, a, b);
  }

  lemma Removed(isWait: Names, open: seq<OpenTool>, i: nat)
    requires i < |open|
    ensures var left := open[..i] + open[i + 1..];
            && |left| == |open| - 1 && (forall t | t in left :: t in open)
            && Waits(isWait, left) == Waits(isWait, open) - if isWait(open[i].name) then 1 else 0
  {
    hide Waits;
    WaitsBetween(isWait, open[..i], open[i], open[i + 1..]);
    assert open[..i] + ([open[i]] + open[i + 1..]) == open;
  }

  /** What a snapshot says about the tools that are open. */
  ghost predicate Tracks(isWait: Names, s: Snapshot, open: seq<OpenTool>) {
    && s.tools == |open| && s.busWaits == Waits(isWait, open)
    && (open != [] ==> s.inTurn)
    && (s.busWaitDeadline == 0 <==> s.busWaits == 0)
    && (forall t | t in open && isWait(t.name) :: t.due <= s.busWaitDeadline)
  }

  /** Over every well-bracketed stream the counters are the numbers of open tools and of open bus waits, and the bus
      wait deadline is set exactly while one is open and is not before that of any of them. */
  lemma {:induction false} CountersAreExact(isWait: Names, events: seq<Timed>)
    requires WellBracketed(events)
    ensures Tracks(isWait, After(isWait, FRESH, events), Opened(events))
  {
    if events != [] {
      var before, last := events[..|events| - 1], events[|events| - 1];
      CountersAreExact(isWait, before);
      StepTracks(isWait, After(isWait, FRESH, before), Opened(before), last);
    }
  }

  lemma StartTracks(isWait: Names, s: Snapshot, open: seq<OpenTool>, name: string, timeout: int, now: int)
    requires Tracks(isWait, s, open) && now > 0 && timeout > 0
    ensures Tracks(isWait, Observe(isWait, s, ToolStart(name, timeout), now),
                   open + [OpenTool(name, now + timeout + BUS_WAIT_GRACE)])
  {
    hide Waits;
    var tool := OpenTool(name, now + timeout + BUS_WAIT_GRACE);
    WaitsBetween(isWait, open, tool, []);
    WaitsBound(isWait, open);
    assert [tool] + [] == [tool] && open + [] == open;
    assert forall t :: t in open + [tool] <==> t in open || t == tool;
  }

  lemma EndTracks(isWait: Names, s: Snapshot, open: seq<OpenTool>, i: nat, now: int)
    requires Tracks(isWait, s, open) && i < |open|
    ensures Tracks(isWait, Observe(isWait, s, ToolEnd(open[i].name), now), open[..i] + open[i + 1..])
  {
    hide Waits;
    var left := open[..i] + open[i + 1..];
    Removed(isWait, open, i);
    WaitsBound(isWait, open);
    WaitsBound(isWait, left);
  }

  lemma StepTracks(isWait: Names, s: Snapshot, open: seq<OpenTool>, last: Timed)
    requires Tracks(isWait, s, open) && last.now > 0
    requires last.event.ToolStart? ==> last.event.timeout > 0
    requires last.event.ToolEnd? ==> exists t :: t in open && t.name == last.event.name
    ensures Tracks(isWait, Observe(isWait, s, last.event, last.now), OpenedBy(open, last))
  {
    match last.event
    case ToolStart(name, timeout) =>
      hide Tracks, Waits, Observe;
      StartTracks(isWait, s, open, name, timeout, last.now);
    case ToolEnd(name) =>
      hide Tracks, Waits, Observe;
      EndTracks(isWait, s, open, FirstNamed(open, name), last.now);
    case _ =>
  }

  // ---- What may be reported ----

  /** While an ordinary tool is open no stall is reported, whatever the time and the limits. */
  lemma NoStallDuringTool(isWait: Names, events: seq<Timed>, output: int, config: Config, now: int)
    requires WellBracketed(events) && exists t :: t in Opened(events) && !isWait(t.name)
    ensures Deadline(After(isWait, FRESH, events).(lastOutput := output), config, now) == (NoStall, 0)
  {
    CountersAreExact(isWait, events);
    WaitsBound(isWait, Opened(events));
  }

  /** While only bus waits are open, none is reported before its own timeout and grace have passed. */
  lemma NoEarlyBusWaitStall(isWait: Names, events: seq<Timed>, output: int, config: Config, now: int, tool: OpenTool)
    requires WellBracketed(events) && tool in Opened(events) && isWait(tool.name) && now < tool.due
    ensures Deadline(After(isWait, FRESH, events).(lastOutput := output), config, now).0 == NoStall
  {
    CountersAreExact(isWait, events);
  }

  /** The last moment of a tool start so far. */
  function LastStart(events: seq<Timed>): int {
    if events == [] then 0
    else
      var last := events[|events| - 1];
      Max(LastStart(events[..|events| - 1]), if last.event.ToolStart? then last.now else 0)
  }

  lemma {:induction false} BusWaitIsBounded(isWait: Names, events: seq<Timed>)
    requires WellBracketed(events)
    ensures After(isWait, FRESH, events).busWaitDeadline <= LastStart(events) + BUS_WAIT_MAX + BUS_WAIT_GRACE
            && LastStart(events) >= 0
  {
    if events != [] {
      BusWaitIsBounded(isWait, events[..|events| - 1]);
    }
  }

  /** While nothing but bus waits is open, a stall is reported at the latest when the longest timeout and the grace
      have passed since the last tool started. */
  lemma BusWaitsAreReported(isWait: Names, events: seq<Timed>, output: int, config: Config, now: int)
    requires WellBracketed(events) && Opened(events) != [] && forall t | t in Opened(events) :: isWait(t.name)
    requires now >= LastStart(events) + BUS_WAIT_MAX + BUS_WAIT_GRACE
    ensures Deadline(After(isWait, FRESH, events).(lastOutput := output), config, now).0 == BusWait
  {
    CountersAreExact(isWait, events);
    WaitsBound(isWait, Opened(events));
    BusWaitIsBounded(isWait, events);
  }

  // ---- When there was progress ----

  predicate IsProgress(event: Event) {
    event.ToolStart? || event.TurnEnd?
  }

  /** The number of events up to the last tool start or turn end. */
  function LastProgress(events: seq<Timed>): (k: nat)
    ensures k <= |events| && (k > 0 ==> IsProgress(events[k - 1].event))
    ensures forall m | k <= m < |events| :: !IsProgress(events[m].event)
  {
    if events == [] || IsProgress(events[|events| - 1].event) then |events| else LastProgress(events[..|events| - 1])
  }

  /** The number of events before the first turn start. */
  function FirstTurn(events: seq<Timed>): (k: nat)
    ensures k <= |events| && (k < |events| ==> events[k].event.TurnStart?)
    ensures forall m | 0 <= m < k :: !events[m].event.TurnStart?
  {
    if events == [] || events[0].event.TurnStart? then 0 else 1 + FirstTurn(events[1..])
  }

  /** The time of the last tool start or turn end; of the first turn start when there was neither; and 0 when nothing
      has started. */
  function ProgressTime(events: seq<Timed>): int {
    var k, turn := LastProgress(events), FirstTurn(events);
    if k > 0 then events[k - 1].now else if turn < |events| then events[turn].now else 0
  }

  predicate Starts(event: Event) {
    event.TurnStart? || event.ToolStart?
  }

  /** A turn or a tool has started since the last turn ended. */
  predicate InTurn(events: seq<Timed>) {
    exists k :: 0 <= k < |events| && Starts(events[k].event) && NoTurnEnds(events, k)
  }

  predicate NoTurnEnds(events: seq<Timed>, from: nat) {
    forall m | from <= m < |events| :: !events[m].event.TurnEnd?
  }

  lemma FirstTurnOfMore(before: seq<Timed>, last: Timed)
    ensures FirstTurn(before + [last])
         == if FirstTurn(before) < |before| || last.event.TurnStart? then FirstTurn(before) else |before| + 1
  {
    var k, more := FirstTurn(before), before + [last];
    assert forall m | 0 <= m < |before| :: more[m] == before[m];
    assert more[|before|] == last;
  }

  lemma InTurnOfMore(before: seq<Timed>, last: Timed)
    ensures InTurn(before + [last])
       <==> Starts(last.event) || (!last.event.TurnEnd? && InTurn(before))
  {
    var more := before + [last];
    assert more[|before|] == last && forall m | 0 <= m < |before| :: more[m] == before[m];
    if Starts(last.event) {
      assert NoTurnEnds(more, |before|);
    } else if !last.event.TurnEnd? {
      if InTurn(before) {
        var k :| 0 <= k < |before| && Starts(before[k].event) && NoTurnEnds(before, k);
        assert more[k] == before[k] && NoTurnEnds(more, k);
      }
      if InTurn(more) {
        var k :| 0 <= k < |more| && Starts(more[k].event) && NoTurnEnds(more, k);
        assert before[k] == more[k] && NoTurnEnds(before, k);
      }
    }
  }

  lemma LastProgressOfMore(before: seq<Timed>, last: Timed)
    ensures LastProgress(before + [last]) == if IsProgress(last.event) then |before| + 1 else LastProgress(before)
  {
    var more := before + [last];
    assert more[..|before|] == before && more[|before|] == last;
  }

  lemma ProgressOfMore(before: seq<Timed>, last: Timed)
    ensures ProgressTime(before + [last])
         == if IsProgress(last.event) then last.now
            else if LastProgress(before) == 0 && FirstTurn(before) == |before| && last.event.TurnStart? then last.now
            else ProgressTime(before)
  {
    hide LastProgress, FirstTurn;
    LastProgressOfMore(before, last);
    FirstTurnOfMore(before, last);
    var k, turn := LastProgress(before), FirstTurn(before);
    assert (before + [last])[|before|] == last;
    assert k > 0 ==> (before + [last])[k - 1] == before[k - 1];
    assert turn < |before| ==> (before + [last])[turn] == before[turn];
  }

  /** Times are positive, so only before the first start is there no progress. */
  lemma {:induction false} TimesArePositive(events: seq<Timed>)
    requires WellBracketed(events)
    ensures forall k | 0 <= k < |events| :: events[k].now > 0
  {
    if events != [] {
      var before := events[..|events| - 1];
      TimesArePositive(before);
      assert forall k | 0 <= k < |before| :: events[k] == before[k];
    }
  }

  /** The field of the snapshot is that time, and the flag says whether a turn is on. */
  lemma {:induction false} ProgressIsTimed(isWait: Names, events: seq<Timed>)
    requires WellBracketed(events)
    ensures After(isWait, FRESH, events).lastProgress == ProgressTime(events)
    ensures After(isWait, FRESH, events).inTurn <==> InTurn(events)
  {
    if events != [] {
      var before, last := events[..|events| - 1], events[|events| - 1];
      assert before + [last] == events;
      ProgressIsTimed(isWait, before);
      ProgressOfMore(before, last);
      InTurnOfMore(before, last);
      TimesArePositive(before);
    }
  }

  lemma InTurnIsTimed(events: seq<Timed>)
    requires WellBracketed(events) && InTurn(events)
    ensures ProgressTime(events) > 0
  {
    TimesArePositive(events);
  }

  /** In a turn with no tool open, the stall comes at the earlier of the last output plus the idle limit and the last
      progress plus the forward limit, where progress is the start of a tool, the end of a turn or the first start of
      one: output alone never moves it past the latter. */
  lemma OutputDoesNotPostpone(isWait: Names, events: seq<Timed>, output: int, config: Config, now: int)
    requires WellBracketed(events) && Opened(events) == [] && InTurn(events)
    ensures var progress := ProgressTime(events);
            var (stall, deadline) := Deadline(After(isWait, FRESH, events).(lastOutput := output), config, now);
            && progress > 0 && deadline <= progress + config.forward && deadline <= output + config.idle
            && (stall != NoStall <==> now >= progress + config.forward || now >= output + config.idle)
            && stall in {NoStall, Forward, Idle}
            && (stall == Forward ==>
                  now >= progress + config.forward && progress + config.forward < output + config.idle)
            && (stall == Idle ==> now >= output + config.idle && output + config.idle <= progress + config.forward)
  {
    CountersAreExact(isWait, events);
    ProgressIsTimed(isWait, events);
    InTurnIsTimed(events);
  }

  /** The number of events up to the last turn end. */
  function LastTurnEnd(events: seq<Timed>): (k: nat)
    ensures k <= |events| && (k > 0 ==> events[k - 1].event.TurnEnd?)
    ensures forall m | k <= m < |events| :: !events[m].event.TurnEnd?
  {
    if events == [] || events[|events| - 1].event.TurnEnd? then |events| else LastTurnEnd(events[..|events| - 1])
  }

  lemma {:induction false} TurnEndIsTimed(isWait: Names, events: seq<Timed>)
    requires WellBracketed(events)
    ensures var k := LastTurnEnd(events);
            !After(isWait, FRESH, events).inTurn ==>
              After(isWait, FRESH, events).turnEnded == if k > 0 then events[k - 1].now else 0
    ensures After(isWait, FRESH, events).inTurn ==> After(isWait, FRESH, events).turnEnded == 0
  {
    if events != [] {
      var before := events[..|events| - 1];
      TurnEndIsTimed(isWait, before);
      TimesArePositive(events);
      assert LastTurnEnd(before) > 0 ==> before[LastTurnEnd(before) - 1] == events[LastTurnEnd(before) - 1];
    }
  }

  /** Between turns the only stall is that of a turn end: it comes ninety seconds after the last one, and not at all
      before the first, whatever the limits and the last output. */
  lemma TurnEndStalls(isWait: Names, events: seq<Timed>, output: int, config: Config, now: int)
    requires WellBracketed(events) && !InTurn(events)
    ensures Opened(events) == []
    ensures var k := LastTurnEnd(events);
            Deadline(After(isWait, FRESH, events).(lastOutput := output), config, now)
            == if k == 0 then (NoStall, 0)
               else (if now >= events[k - 1].now + 90_000_000_000 then TurnEndStall else NoStall,
                     events[k - 1].now + 90_000_000_000)
  {
    CountersAreExact(isWait, events);
    ProgressIsTimed(isWait, events);
    TurnEndIsTimed(isWait, events);
    TimesArePositive(events);
  }

  // ---- The monitor ----

  /** The event on a line: None when the line is no event. */
  type Parser = bytes -> Option<Event>

  function ObserveLines(isWait: Names, parse: Parser, s: Snapshot, lines: seq<bytes>, now: int): Snapshot
    decreases |lines|
  {
    if lines == [] then s
    else
      var event := parse(lines[0]);
      ObserveLines(isWait, parse, if event.Some? then Observe(isWait, s, event.value, now) else s, lines[1..], now)
  }

  lemma {:induction false} ObserveMore(isWait: Names, parse: Parser, s: Snapshot, a: seq<bytes>, b: seq<bytes>,
                                       now: int)
    ensures ObserveLines(isWait, parse, s, a + b, now)
            == ObserveLines(isWait, parse, ObserveLines(isWait, parse, s, a, now), b, now)
    decreases |a|
  {
    if a == [] {
      assert a + b == b;
    } else {
      assert (a + b)[0] == a[0] && (a + b)[1..] == a[1..] + b;
      var event := parse(a[0]);
      ObserveMore(isWait, parse, if event.Some? then Observe(isWait, s, event.value, now) else s, a[1..], b, now);
    }
  }

  /** The third splitter: it appends the whole chunk first, and moves the snapshot at every complete line. */
  class Monitor {
    const isWait: Names
    const parse: Parser
    var pending: bytes
    var state: Snapshot

    constructor (isWait: Names, parse: Parser)
      ensures this.isWait == isWait && this.parse == parse && pending == [] && state == FRESH
    {
      this.isWait, this.parse, pending, state := isWait, parse, [], FRESH;
    }

    method Write(chunk: bytes, now: int)
      requires IsLine(pending)
      modifies this
      ensures IsLine(pending) && pending == Remainder(old(pending) + chunk)
      ensures if chunk == [] then state == old(state)
              else state
                   == ObserveLines(isWait, parse, old(state).(lastOutput := now), Split(old(pending) + chunk), now)
    {
      if |chunk| == 0 {
        assert pending + chunk == pending;
        NotReached(pending);
        return;
      }
      state := state.(lastOutput := now);
      pending := pending + chunk;
      ghost var stream, start := pending, state;
      while true
        invariant Remainder(pending) == Remainder(stream)
        invariant ObserveLines(isWait, parse, state, Split(pending), now)
                  == ObserveLines(isWait, parse, start, Split(stream), now)
        decreases |pending|
      {
        var index := IndexByte(pending, NEWLINE);
        if index == |pending| {
          break;
        }
        var line := pending[..index];
        PieceIsALine([], pending, index);
        assert [] + pending == pending && [] + line == line;
        pending := pending[index + 1..];
        ObserveLine(line, now);
      }
      NotReached(pending);
    }

    method ObserveLine(line: bytes, now: int)
      modifies `state
      ensures state == var event := parse(line);
              if event.Some? then Observe(isWait, old(state), event.value, now) else old(state)
    {
      var event := parse(line);
      if event.None? {
        return;
      }
      state := Observe(isWait, state, event.value, now);
    }
  }

  /** While the clock stands still, any two ways to cut one stream into chunks leave the monitor with the same
      snapshot: that of the stream's lines, or the old one when there is no stream. */
  method WriteAll(m: Monitor, chunks: seq<bytes>, now: int)
    requires m.pending == []
    modifies m
    ensures m.pending == Remainder(Flat(chunks))
    ensures m.state == if Flat(chunks) == [] then old(m.state)
                       else ObserveLines(m.isWait, m.parse, old(m.state).(lastOutput := now), Split(Flat(chunks)), now)
  {
    ghost var start := m.state.(lastOutput := now);
    ghost var lines: seq<bytes> := [];
    ghost var silent := true;
    assert [] + Fed(chunks, []).0 == Fed(chunks, []).0;
    for i := 0 to |chunks|
      invariant IsLine(m.pending)
      invariant Fed(chunks, []) == (lines + Fed(chunks[i..], m.pending).0, Fed(chunks[i..], m.pending).1)
      invariant m.state.(lastOutput := now) == ObserveLines(m.isWait, m.parse, start, lines, now)
      invariant if silent then m.state == old(m.state) && m.pending == [] && Flat(chunks) == Flat(chunks[i..])
                else m.state.lastOutput == now && Flat(chunks) != []
    {
      FedOnce(chunks, i, m.pending, lines);
      ghost var more := Split(m.pending + chunks[i]);
      ObserveMore(m.isWait, m.parse, start, lines, more, now);
      ObserveKeepsOutput(m.isWait, m.parse, m.state.(lastOutput := now), more, now);
      FlatFrom(chunks, i);
      m.Write(chunks[i], now);
      lines := lines + more;
      silent := silent && chunks[i] == [];
    }
    assert chunks[|chunks|..] == [] && lines + [] == lines;
    FedIsSplit(chunks, []);
    assert [] + Flat(chunks) == Flat(chunks);
  }

  lemma FedOnce(chunks: seq<bytes>, i: nat, pending: bytes, lines: seq<bytes>)
    requires i < |chunks|
    ensures var more, rest := Split(pending + chunks[i]), Fed(chunks[i + 1..], Remainder(pending + chunks[i]));
            (lines + Fed(chunks[i..], pending).0, Fed(chunks[i..], pending).1) == ((lines + more) + rest.0, rest.1)
  {
    var more, rest := Split(pending + chunks[i]), Fed(chunks[i + 1..], Remainder(pending + chunks[i]));
    assert chunks[i..][0] == chunks[i] && chunks[i..][1..] == chunks[i + 1..];
    assert lines + (more + rest.0) == (lines + more) + rest.0;
  }

  /** A chunk that is not empty is part of the stream. */
  lemma {:induction false} FlatFrom(chunks: seq<bytes>, i: nat)
    requires i < |chunks|
    ensures chunks[i] == [] ==> Flat(chunks[i..]) == Flat(chunks[i + 1..])
    ensures chunks[i] != [] ==> Flat(chunks) != []
  {
    assert chunks[i..][0] == chunks[i] && chunks[i..][1..] == chunks[i + 1..];
    if i > 0 {
      FlatFrom(chunks[1..], i - 1);
    }
  }

  lemma {:induction false} ObserveKeepsOutput(isWait: Names, parse: Parser, s: Snapshot, lines: seq<bytes>, now: int)
    ensures ObserveLines(isWait, parse, s, lines, now).lastOutput == s.lastOutput
    decreases |lines|
  {
    if lines != [] {
      var event := parse(lines[0]);
      ObserveKeepsOutput(isWait, parse, if event.Some? then Observe(isWait, s, event.value, now) else s, lines[1..],
                         now);
    }
  }
}
