/**
 * The playback scheduler of components/VoiceAssistant.tsx: the `onmessage`
 * handler, which places each received chunk right after the previous one on
 * the output clock, and its interruption procedure.  Each callback is one
 * atomic transition; the output clock `now` (`ctx.currentTime`) is a
 * parameter.  Audio sources are identified by the order of their creation.
 */
module Playback {
  import opened Wrappers
  import opened Codec

  function Max(a: real, b: real): (m: real)
    ensures m >= a && m >= b
    ensures m == a || m == b
  {
    if a >= b then a else b
  }

  /**
   * `nextStartTimeRef` (the cursor, in seconds on the output clock), the ids in
   * `sourcesRef` (sources started and not yet ended or stopped), and the id
   * the next source will receive.
   */
  datatype Scheduler = Scheduler(cursor: real, active: set<nat>, nextId: nat)

  /** A started source: its id, start time on the output clock and duration. */
  datatype Unit = Unit(id: nat, start: real, duration: real) {
    function End(): real {
      start + duration
    }
  }

  /** The state when the component is created: cursor 0 and no sources. */
  const Initial: Scheduler := Scheduler(0.0, {}, 0)

  /** Ids are handed out in order, so every active id is below `nextId`; the cursor is never negative. */
  predicate Valid(s: Scheduler) {
    s.cursor >= 0.0 && forall id :: id in s.active ==> id < s.nextId
  }

  /** The `Math.max` sync in `onmessage`: the cursor is moved up to the output clock if it lags behind. */
  function Sync(s: Scheduler, now: real): (r: Scheduler)
    ensures r.cursor >= s.cursor && r.cursor >= now
    ensures r.cursor == s.cursor || r.cursor == now
    ensures r.active == s.active && r.nextId == s.nextId
  {
    s.(cursor := Max(s.cursor, now))
  }

  datatype Scheduled = Scheduled(next: Scheduler, unit: Unit)

  /**
   * The audio branch of `onmessage` once the chunk is decoded: the source starts at the later of
   * the cursor and the clock, the cursor moves to its end, and the source
   * joins the active set.
   */
  function Schedule(s: Scheduler, now: real, buffer: AudioBuffer): (r: Scheduled)
    ensures r.unit.start >= now && r.unit.start >= s.cursor
    ensures r.unit.start == now || r.unit.start == s.cursor
    ensures r.unit.duration == buffer.Duration()
    ensures r.next.cursor == r.unit.End() && r.next.cursor >= s.cursor
    ensures r.next.active == s.active + {r.unit.id}
    ensures Valid(s) ==> r.unit.id !in s.active
    ensures Valid(s) && now >= 0.0 ==> Valid(r.next)
  {
    var start := Sync(s, now).cursor;
    var unit := Unit(s.nextId, start, buffer.Duration());
    Scheduled(Scheduler(unit.End(), s.active + {unit.id}, s.nextId + 1), unit)
  }

  /** The `interrupted` branch of `onmessage`: every active source is stopped, the set cleared and the cursor reset to 0. */
  function Interrupt(s: Scheduler): (r: Scheduler)
    ensures r.active == {} && r.cursor == 0.0
    ensures r.nextId == s.nextId
    ensures Valid(r)
  {
    Scheduler(0.0, {}, s.nextId)
  }

  /** A source's `onended` handler removes that source and nothing else. */
  function SourceEnded(s: Scheduler, id: nat): (r: Scheduler)
    ensures id !in r.active
    ensures forall x :: x != id ==> (x in r.active <==> x in s.active)
    ensures r.cursor == s.cursor && r.nextId == s.nextId
    ensures Valid(s) ==> Valid(r)
  {
    s.(active := s.active - {id})
  }

  /**
   * The parts of a server message the handler reads: the inline audio data of
   * the first part of the model turn ("" when absent) and the interrupted flag.
   */
  datatype ServerMessage = ServerMessage(audio: string, interrupted: bool)

  /**
   * The outcome of one `onmessage` call: the new state, the source started (if
   * any), the sources stopped by an interruption, and the exception that ended
   * the handler (if any).
   */
  datatype Handled = Handled(next: Scheduler, unit: Option<Unit>, stopped: set<nat>, failure: Option<CodecError>)

  /**
   * The `onmessage` handler.  Audio is handled first.  The cursor is synchronised with
   * the clock before the chunk is decoded, so a chunk that fails to decode
   * still moves it; the exception then ends the handler, and the interrupted
   * flag of that message is not looked at.
   */
  function OnMessage(s: Scheduler, now: real, m: ServerMessage): (r: Handled)
    ensures r.unit.Some? <==> m.audio != "" && DecodeChunk(m.audio).Success?
    ensures r.failure.Some? <==> m.audio != "" && DecodeChunk(m.audio).Failure?
    ensures r.unit.Some? ==>
      && r.unit.value.start == Max(s.cursor, now)
      && r.unit.value.start >= now && r.unit.value.start >= s.cursor
      && r.unit.value.duration == DecodeChunk(m.audio).value.Duration()
    ensures r.unit.Some? && !m.interrupted ==>
      r.next.cursor == r.unit.value.End() && r.next.active == s.active + {r.unit.value.id}
    ensures r.failure.Some? ==> r.next == Sync(s, now) && r.stopped == {}
    ensures r.failure.Some? ==>
      r.next.active == s.active && r.next.cursor >= s.cursor && r.next.cursor >= now
    ensures m.interrupted && r.failure.None? ==>
      && r.next.active == {} && r.next.cursor == 0.0
      && r.stopped == s.active + (if r.unit.Some? then {r.unit.value.id} else {})
    ensures !m.interrupted ==> r.stopped == {}
    ensures m.audio == "" && !m.interrupted ==> r.next == s
    ensures r.next.nextId >= s.nextId
    ensures Valid(s) && now >= 0.0 ==> Valid(r.next)
  {
    var afterAudio :=
      if m.audio == "" then Handled(s, None, {}, None)
      else match DecodeChunk(m.audio)
        case Failure(e) => Handled(Sync(s, now), None, {}, Some(e))
        case Success(buffer) =>
          var sc := Schedule(s, now, buffer);
          Handled(sc.next, Some(sc.unit), {}, None);
    if afterAudio.failure.Some? || !m.interrupted then afterAudio
    else afterAudio.(next := Interrupt(afterAudio.next), stopped := afterAudio.next.active)
  }

  /** A message carrying a chunk that decodes and no interruption schedules it exactly as `Schedule` does. */
  lemma ChunkMessageSchedules(s: Scheduler, now: real, m: ServerMessage, buffer: AudioBuffer)
    requires m.audio != "" && !m.interrupted && DecodeChunk(m.audio) == Success(buffer)
    ensures OnMessage(s, now, m).next == Schedule(s, now, buffer).next
    ensures OnMessage(s, now, m).unit == Some(Schedule(s, now, buffer).unit)
  {
  }

  /** After an interruption the next chunk starts at the clock, whatever the old cursor was. */
  lemma ChunkAfterInterruptStartsNow(s: Scheduler, now: real, buffer: AudioBuffer)
    requires now >= 0.0
    ensures Schedule(Interrupt(s), now, buffer).unit.start == now
  {
  }

  /** The `onended` of a source stopped by an interruption changes nothing. */
  lemma EndedAfterInterruptChangesNothing(s: Scheduler, id: nat)
    ensures SourceEnded(Interrupt(s), id) == Interrupt(s)
  {
  }

  // ---------------------------------------------------------------------------
  // Runs of chunks without interruption
  // ---------------------------------------------------------------------------

  /** A decoded chunk and the clock reading when its message was handled. */
  datatype Arrival = Arrival(now: real, buffer: AudioBuffer)

  datatype Feeding = Feeding(last: Scheduler, units: seq<Unit>)

  /** Schedules the chunks one after the other, in arrival order. */
  function Feed(s: Scheduler, arrivals: seq<Arrival>): (r: Feeding)
    ensures |r.units| == |arrivals|
    ensures r.last.cursor >= s.cursor
    decreases |arrivals|
  {
    if |arrivals| == 0 then Feeding(s, [])
    else
      var sc := Schedule(s, arrivals[0].now, arrivals[0].buffer);
      var rest := Feed(sc.next, arrivals[1..]);
      Feeding(rest.last, [sc.unit] + rest.units)
  }

  /** The summed durations of the chunks. */
  function TotalDuration(arrivals: seq<Arrival>): (d: real)
    ensures d >= 0.0
    decreases |arrivals|
  {
    if |arrivals| == 0 then 0.0 else arrivals[0].buffer.Duration() + TotalDuration(arrivals[1..])
  }

  /**
   * Scheduled sources never overlap and never start before their chunk
   * arrived; a chunk that arrives no later than the end of the previous source
   * starts exactly at that end, and one that arrives later starts on arrival.
   */
  lemma {:induction false} FeedInOrder(s: Scheduler, arrivals: seq<Arrival>)
    ensures var units := Feed(s, arrivals).units;
      && (forall i :: 0 <= i < |units| ==> units[i].start >= arrivals[i].now && units[i].start >= s.cursor)
      && (forall i :: 0 <= i < |units| ==> units[i].End() <= Feed(s, arrivals).last.cursor)
      && (forall i :: 0 <= i < |units| - 1 ==> units[i].End() <= units[i + 1].start)
      && (forall i :: 0 <= i < |units| - 1 && arrivals[i + 1].now <= units[i].End() ==>
            units[i + 1].start == units[i].End())
      && (forall i :: 0 <= i < |units| - 1 && arrivals[i + 1].now > units[i].End() ==>
            units[i + 1].start == arrivals[i + 1].now)
    decreases |arrivals|
  {
    if |arrivals| > 0 {
      var sc := Schedule(s, arrivals[0].now, arrivals[0].buffer);
      var rest := Feed(sc.next, arrivals[1..]);
      FeedInOrder(sc.next, arrivals[1..]);
      var units := Feed(s, arrivals).units;
      assert units == [sc.unit] + rest.units;
      forall i | 0 <= i < |units| - 1
        ensures units[i].End() <= units[i + 1].start
        ensures arrivals[i + 1].now <= units[i].End() ==> units[i + 1].start == units[i].End()
        ensures arrivals[i + 1].now > units[i].End() ==> units[i + 1].start == arrivals[i + 1].now
      {
        if i > 0 {
          assert units[i] == rest.units[i - 1] && units[i + 1] == rest.units[i];
          assert arrivals[i + 1] == arrivals[1..][i];
        } else {
          assert units[1] == rest.units[0];
          assert arrivals[1] == arrivals[1..][0];
        }
      }
      forall i | 0 <= i < |units|
        ensures units[i].start >= arrivals[i].now && units[i].start >= s.cursor
        ensures units[i].End() <= Feed(s, arrivals).last.cursor
      {
        if i > 0 {
          assert units[i] == rest.units[i - 1];
          assert arrivals[i] == arrivals[1..][i - 1];
        }
      }
    }
  }

  /**
   * Gapless playback: when every chunk arrives no later than the end of the
   * chunks before it (the cursor at its arrival), the i-th source starts at
   * the initial cursor plus the durations of all chunks before it, and the
   * cursor ends at the initial cursor plus the sum of all.
   */
  lemma {:induction false} FeedGapless(s: Scheduler, arrivals: seq<Arrival>)
    requires forall i :: 0 <= i < |arrivals| ==> arrivals[i].now <= s.cursor + TotalDuration(arrivals[..i])
    ensures forall i :: 0 <= i < |arrivals| ==>
      Feed(s, arrivals).units[i].start == s.cursor + TotalDuration(arrivals[..i])
    ensures Feed(s, arrivals).last.cursor == s.cursor + TotalDuration(arrivals)
    decreases |arrivals|
  {
    if |arrivals| > 0 {
      var d0 := arrivals[0].buffer.Duration();
      var sc := Schedule(s, arrivals[0].now, arrivals[0].buffer);
      assert sc.next.cursor == s.cursor + d0;
      var tail := arrivals[1..];
      assert arrivals[..0] == [];
      forall j | 0 <= j < |tail|
        ensures tail[j].now <= sc.next.cursor + TotalDuration(tail[..j])
      {
        assert arrivals[..j + 1][1..] == tail[..j];
        assert tail[j] == arrivals[j + 1];
      }
      FeedGapless(sc.next, tail);
      var units := Feed(s, arrivals).units;
      assert units == [sc.unit] + Feed(sc.next, tail).units;
      forall i | 0 <= i < |arrivals|
        ensures units[i].start == s.cursor + TotalDuration(arrivals[..i])
      {
        if i > 0 {
          assert arrivals[..i][1..] == tail[..i - 1];
          assert units[i] == Feed(sc.next, tail).units[i - 1];
        }
      }
    }
  }

  /**
   * The playback scenario of a call: a 0.5 s chunk at clock 0 starts at 0, a
   * 0.3 s chunk arriving before 0.5 s starts at 0.5 and leaves the cursor at
   * 0.8; after an interruption a 0.2 s chunk starts at the clock reading.
   */
  lemma PlaybackScenario(b1: AudioBuffer, b2: AudioBuffer, b3: AudioBuffer, t2: real, t3: real)
    requires b1.Duration() == 0.5 && b2.Duration() == 0.3 && b3.Duration() == 0.2
    requires 0.0 <= t2 <= 0.5 && t3 >= 0.0
    ensures var first := Schedule(Initial, 0.0, b1);
      var second := Schedule(first.next, t2, b2);
      var third := Schedule(Interrupt(second.next), t3, b3);
      && first.unit.start == 0.0
      && second.unit.start == 0.5
      && second.next.cursor == 0.8
      && third.unit.start == t3
      && third.next.cursor == t3 + 0.2
  {
  }
}
