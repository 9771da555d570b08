/**
 The loops of `MessagingAuditor` in place: the fallback of `LogAuditEvent`, the flush loop, and
 the select loop of `processEvents` over any sequence of select outcomes. `AuditPipeline` covers
 their interleavings.
 */
module AuditConsumer {
  import opened AuditPipeline

  /** What one round of the select observed. */
  datatype Select = Got(event: Event) | Ticked | ShutDown

  /** Events received before the loop ends. */
  function Received(schedule: seq<Select>): seq<Event> {
    if |schedule| == 0 then []
    else
      match schedule[0]
      case Got(e) => [e] + Received(schedule[1..])
      case Ticked => Received(schedule[1..])
      case ShutDown => []
  }

  /** Events of the schedule still to be received after `i` rounds. */
  function Ahead(schedule: seq<Select>, i: nat, stopped: bool): seq<Event>
    requires i <= |schedule|
  {
    if stopped then [] else Received(schedule[i..])
  }

  /** One round moves the event it got, if any, from what lies ahead to what was taken. */
  lemma {:induction false} RoundTakes(schedule: seq<Select>, i: nat, taken: seq<Event>)
    requires i < |schedule|
    ensures taken + Ahead(schedule, i, false) ==
      taken + (if schedule[i].Got? then [schedule[i].event] else []) + Ahead(schedule, i + 1, schedule[i] == ShutDown)
  {
    assert schedule[i..][1..] == schedule[i + 1..];
    if schedule[i].Got? {
      var e, rest := schedule[i].event, Received(schedule[i + 1..]);
      assert taken + ([e] + rest) == taken + [e] + rest;
    } else {
      assert taken + [] == taken;
    }
  }

  function AsAsync(events: seq<Event>): seq<Logged> {
    seq(|events|, i requires 0 <= i < |events| => Async(events[i]))
  }

  class MessagingAuditor {
    const config: Config
    var eventChan: seq<Event>
    var log: seq<Logged>
    var metrics: Metrics
    var overflows: nat

    constructor (config: Config)
      ensures this.config == config && eventChan == [] && log == [] && overflows == 0 && Valid()
    {
      this.config := config;
      eventChan, log, metrics, overflows := [], [], ZERO, 0;
    }

    ghost predicate Valid()
      reads this
    {
      metrics == Tally(log)
    }

    method LogEventSynchronously(l: Logged)
      requires Valid()
      modifies this`log, this`metrics
      ensures Valid() && log == old(log) + [l]
    {
      LogStep(log, l);
      metrics := Record(metrics, l.event);
      log := log + [l];
    }

    method LogAuditEvent(e: Event, sampled: bool)
      requires Valid()
      modifies this
      ensures Valid()
      ensures !Accepts(config, e.kind, sampled) ==>
                eventChan == old(eventChan) && log == old(log) && overflows == old(overflows)
      ensures Accepts(config, e.kind, sampled) && |old(eventChan)| < config.bufferSize ==>
                eventChan == old(eventChan) + [e] && log == old(log) && overflows == old(overflows)
      ensures Accepts(config, e.kind, sampled) && |old(eventChan)| >= config.bufferSize ==>
                && eventChan == old(eventChan) && log == old(log) + [Sync(e, old(overflows))]
                && overflows == old(overflows) + 1
    {
      if !Accepts(config, e.kind, sampled) { return; }
      if |eventChan| < config.bufferSize {
        eventChan := eventChan + [e];
      } else {
        LogEventSynchronously(Sync(e, overflows));
        overflows := overflows + 1;
      }
    }

    /** The flush loop; `start` and `logged` say what the log holds on entry. */
    method FlushEvents(events: seq<Event>, ghost start: seq<Logged>, ghost logged: seq<Event>)
      requires Valid() && log == start + AsAsync(logged)
      modifies this`log, this`metrics
      ensures Valid() && log == start + AsAsync(logged + events)
    {
      assert logged + events[..0] == logged;
      for i := 0 to |events|
        invariant Valid() && log == start + AsAsync(logged + events[..i])
      {
        LogEventSynchronously(Async(events[i]));
        assert AsAsync(logged + events[..i + 1]) == AsAsync(logged + events[..i]) + [Async(events[i])];
      }
      assert events[..|events|] == events;
    }

    /** One round of the select loop. */
    method Round(seen: Select, buffer: seq<Event>, ghost start: seq<Logged>, ghost logged: seq<Event>)
      returns (buffer': seq<Event>, ghost logged': seq<Event>)
      requires Valid() && log == start + AsAsync(logged)
      modifies this`log, this`metrics
      ensures Valid() && log == start + AsAsync(logged')
      ensures logged' + buffer' == logged + buffer + if seen.Got? then [seen.event] else []
      ensures buffer' == [] || (seen.Got? && |buffer'| < config.bufferSize)
    {
      buffer', logged' := buffer, logged;
      var flush := |buffer| > 0;
      if seen.Got? {
        buffer' := buffer + [seen.event];
        flush := |buffer'| >= config.bufferSize;
      }
      if flush {
        FlushEvents(buffer', start, logged);
        logged', buffer' := logged + buffer', [];
      }
    }

    /**
     `processEvents`: what was received is what was logged followed by what is still batched; the
     batch stays below the buffer size, and is empty once the loop has seen the shutdown.
     */
    method ProcessEvents(schedule: seq<Select>) returns (stopped: bool, buffer: seq<Event>, ghost logged: seq<Event>)
      requires Valid()
      modifies this`log, this`metrics
      ensures Valid() && log == old(log) + AsAsync(logged)
      ensures Received(schedule) == logged + buffer
      ensures buffer == [] || |buffer| < config.bufferSize
      ensures stopped <==> ShutDown in schedule
      ensures stopped ==> buffer == []
    {
      stopped, buffer, logged := false, [], [];
      ghost var start := log;
      assert start + AsAsync([]) == start;
      assert schedule[0..] == schedule;
      var i := 0;
      while i < |schedule| && !stopped
        invariant 0 <= i <= |schedule| && Valid() && log == start + AsAsync(logged)
        invariant logged + buffer + Ahead(schedule, i, stopped) == Received(schedule)
        invariant buffer == [] || (!stopped && |buffer| < config.bufferSize)
        invariant stopped <==> ShutDown in schedule[..i]
      {
        RoundTakes(schedule, i, logged + buffer);
        assert schedule[..i + 1] == schedule[..i] + [schedule[i]];
        buffer, logged := Round(schedule[i], buffer, start, logged);
        stopped := schedule[i] == ShutDown;
        i := i + 1;
      }
      assert schedule == schedule[..i] + schedule[i..];
      assert logged + buffer + [] == logged + buffer;
    }
  }
}
