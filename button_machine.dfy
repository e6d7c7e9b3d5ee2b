/** The debounced push-button state machine as values: the state fields of a
    button handle, what one poll (`button_process`) and one firing of the
    debounce timer (`button_debounce_callback`) do to them, and what runs of
    interleaved polls and firings produce. */
module ButtonMachine {
  import opened Types
  import opened Ticks
  import opened EventQueue

  /** button_event_t */
  datatype Event = Pressed | Released | Clicked | Held

  /** The state fields of button_handle_t. */
  datatype ButtonState = ButtonState(
    lastState: bool,       // last confirmed "is active" reading
    isPressed: bool,       // debounced press state
    isDebouncing: bool,    // an edge was seen and the debounce timer is running
    pressStartTick: Tick)  // tick count at the last confirmed press

  /** The state `button_init` leaves: nothing pressed, nothing pending. */
  const Rest: ButtonState := ButtonState(false, false, false, 0)

  /** The invariant every operation keeps: the confirmed reading and the
      press state agree. */
  predicate Agrees(s: ButtonState) {
    s.lastState == s.isPressed
  }

  /** Whether a press that started at `s.pressStartTick` counts as long at
      tick `now`: the wrapped-around tick difference reaches the threshold. */
  predicate LongPress(s: ButtonState, now: Tick, longPressMs: uint32) {
    Elapsed(now, s.pressStartTick) >= MsToTicks(longPressMs)
  }

  /** What one poll does: the new state, whether it starts the debounce
      timer, and the event it reports to its caller. */
  datatype PollOutcome = PollOutcome(next: ButtonState, startTimer: bool, report: Option<Event>)

  /** `button_process` with the GPIO reading `active` at tick `now`. */
  function Poll(s: ButtonState, active: bool, now: Tick, longPressMs: uint32): (r: PollOutcome)
    // the timer is started exactly on a provisional edge outside a debounce
    ensures r.startTimer <==> active != s.lastState && !s.isDebouncing
    ensures r.next.isDebouncing <==> s.isDebouncing || r.startTimer
    // a poll never confirms anything
    ensures r.next.lastState == s.lastState && r.next.isPressed == s.isPressed
    ensures r.next.pressStartTick == s.pressStartTick
    // the only report is Held, made whenever the button is confirmed pressed,
    // not debouncing after the edge check, and pressed for long enough
    ensures r.report.Some? <==> s.isPressed && !r.next.isDebouncing && LongPress(s, now, longPressMs)
    ensures r.report.Some? ==> r.report.value == Held
  {
    var edge := active != s.lastState && !s.isDebouncing;
    var next := if edge then s.(isDebouncing := true) else s;
    var report := if next.isPressed && !next.isDebouncing && LongPress(next, now, longPressMs)
                  then Some(Held) else None;
    PollOutcome(next, edge, report)
  }

  /** What one firing of the debounce timer does: the new state and the event
      it sends to the event queue, if any. */
  datatype FireOutcome = FireOutcome(next: ButtonState, event: Option<Event>)

  /** `button_debounce_callback` with the GPIO re-read `active` at tick `now`. */
  function Fire(s: ButtonState, active: bool, now: Tick, longPressMs: uint32): (r: FireOutcome)
    // the debounce window always closes
    ensures !r.next.isDebouncing
    // noise: a re-read equal to the confirmed reading changes nothing else
    ensures active == s.lastState ==> r.event == None && r.next == s.(isDebouncing := false)
    // a persisting change is confirmed in both fields
    ensures active != s.lastState ==> r.next.lastState == active && r.next.isPressed == active
    // a confirmed press restarts the press clock and is reported as Pressed
    ensures active != s.lastState && active ==>
              r.next.pressStartTick == now && r.event == Some(Pressed)
    // a confirmed release is classified by the inclusive long-press threshold
    ensures active != s.lastState && !active ==>
              r.next.pressStartTick == s.pressStartTick &&
              r.event == Some(if LongPress(s, now, longPressMs) then Held else Clicked)
    ensures r.event != Some(Released)
  {
    if active == s.lastState then
      FireOutcome(s.(isDebouncing := false), None)
    else if active then
      FireOutcome(ButtonState(true, true, false, now), Some(Pressed))
    else
      var event := if LongPress(s, now, longPressMs) then Held else Clicked;
      FireOutcome(s.(lastState := false, isPressed := false, isDebouncing := false), Some(event))
  }

  /** Both operations keep the confirmed reading and the press state equal. */
  lemma StepsKeepAgreement(s: ButtonState, active: bool, now: Tick, longPressMs: uint32)
    requires Agrees(s)
    ensures Agrees(Poll(s, active, now, longPressMs).next)
    ensures Agrees(Fire(s, active, now, longPressMs).next)
  {
  }

  /** One thing that can happen to a button: a poll by its owner, or the
      debounce timer firing, each with the GPIO reading and the tick count
      at that moment. */
  datatype Step =
    | PollAt(active: bool, now: Tick)
    | FireAt(active: bool, now: Tick)

  /** The state after one step, and the event it sends to the queue. Polls
      never send to the queue. */
  function StepOnce(s: ButtonState, step: Step, longPressMs: uint32): FireOutcome {
    match step
    case PollAt(active, now) => FireOutcome(Poll(s, active, now, longPressMs).next, None)
    case FireAt(active, now) => Fire(s, active, now, longPressMs)
  }

  /** The events a single step sends, as a sequence. */
  function Sent(o: FireOutcome): seq<Event> {
    if o.event.Some? then [o.event.value] else []
  }

  /** A run of steps: the final state and every event sent, in order. */
  datatype Trace = Trace(last: ButtonState, events: seq<Event>)

  function Run(s: ButtonState, steps: seq<Step>, longPressMs: uint32): Trace
    decreases |steps|
  {
    if steps == [] then Trace(s, [])
    else
      var o := StepOnce(s, steps[0], longPressMs);
      var rest := Run(o.next, steps[1..], longPressMs);
      Trace(rest.last, Sent(o) + rest.events)
  }

  /** The event pattern of a button: from a released button, Pressed, then
      Clicked or Held, then Pressed again, and so on; `pressed` says whether
      the button starts out pressed, so the pattern starts with a release. */
  predicate Alternates(events: seq<Event>, pressed: bool)
    decreases |events|
  {
    events == [] ||
    ((if pressed then events[0] in {Clicked, Held} else events[0] == Pressed) &&
     Alternates(events[1..], !pressed))
  }

  /** Whatever the readings, the ticks and the interleaving of polls and
      firings, the events sent alternate between a press and a release
      classification, each release-side event closes the press before it, the
      final press state tells how the pattern ends, and agreement is kept. */
  lemma {:induction false} RunAlternates(s: ButtonState, steps: seq<Step>, longPressMs: uint32)
    requires Agrees(s)
    ensures Agrees(Run(s, steps, longPressMs).last)
    ensures Alternates(Run(s, steps, longPressMs).events, s.isPressed)
    ensures Run(s, steps, longPressMs).last.isPressed ==
              (if |Run(s, steps, longPressMs).events| % 2 == 0 then s.isPressed else !s.isPressed)
    decreases |steps|
  {
    if steps != [] {
      var o := StepOnce(s, steps[0], longPressMs);
      StepsKeepAgreement(s, steps[0].active, steps[0].now, longPressMs);
      RunAlternates(o.next, steps[1..], longPressMs);
      var rest := Run(o.next, steps[1..], longPressMs);
      if o.event.Some? {
        assert o.next.isPressed == !s.isPressed;
        assert (Sent(o) + rest.events)[1..] == rest.events;
      } else {
        assert o.next.isPressed == s.isPressed;
        assert Sent(o) + rest.events == rest.events;
      }
    }
  }

  /** Every event a button sends is one of Pressed, Clicked and Held. */
  lemma {:induction false} AlternatesNeverReleased(events: seq<Event>, pressed: bool)
    requires Alternates(events, pressed)
    ensures Released !in events
    decreases |events|
  {
    if events != [] {
      AlternatesNeverReleased(events[1..], !pressed);
      assert events == [events[0]] + events[1..];
    }
  }

  /** Any prefix of an alternating sequence alternates. */
  lemma {:induction false} AlternatesPrefix(events: seq<Event>, prefix: seq<Event>, pressed: bool)
    requires Alternates(events, pressed) && prefix <= events
    ensures Alternates(prefix, pressed)
    decreases |prefix|
  {
    if prefix != [] {
      assert prefix[1..] <= events[1..];
      AlternatesPrefix(events[1..], prefix[1..], !pressed);
    }
  }

  /** From the state `button_init` leaves, the events start with Pressed, the
      odd-numbered ones (counting from one) are presses and the others are
      Clicked or Held, and Released never appears. */
  lemma RunFromRest(steps: seq<Step>, longPressMs: uint32)
    ensures Alternates(Run(Rest, steps, longPressMs).events, false)
    ensures Run(Rest, steps, longPressMs).events != [] ==> Run(Rest, steps, longPressMs).events[0] == Pressed
    ensures Released !in Run(Rest, steps, longPressMs).events
    ensures Run(Rest, steps, longPressMs).last.isPressed <==> |Run(Rest, steps, longPressMs).events| % 2 == 1
  {
    RunAlternates(Rest, steps, longPressMs);
    AlternatesNeverReleased(Run(Rest, steps, longPressMs).events, false);
  }

  /** The GPIO readings seen by the firings of a run. */
  predicate FiresRead(steps: seq<Step>, active: bool) {
    forall i :: 0 <= i < |steps| && steps[i].FireAt? ==> steps[i].active == active
  }

  /** Noise rejection: when every firing of the debounce timer re-reads the
      confirmed level, whatever the polls saw in between, nothing is sent and
      nothing is confirmed. */
  lemma {:induction false} NoiseSendsNothing(s: ButtonState, steps: seq<Step>, longPressMs: uint32)
    requires FiresRead(steps, s.lastState)
    ensures Run(s, steps, longPressMs).events == []
    ensures Run(s, steps, longPressMs).last.lastState == s.lastState
    ensures Run(s, steps, longPressMs).last.isPressed == s.isPressed
    ensures Run(s, steps, longPressMs).last.pressStartTick == s.pressStartTick
    decreases |steps|
  {
    if steps != [] {
      var o := StepOnce(s, steps[0], longPressMs);
      assert o.event == None && o.next.lastState == s.lastState;
      assert FiresRead(steps[1..], o.next.lastState) by {
        forall i | 0 <= i < |steps[1..]| && steps[1..][i].FireAt?
          ensures steps[1..][i].active == o.next.lastState
        {
          assert steps[1..][i] == steps[i + 1];
        }
      }
      NoiseSendsNothing(o.next, steps[1..], longPressMs);
    }
  }

  /** The Held reports of a series of polls at the given ticks, all reading the
      same level. */
  function PollReports(s: ButtonState, active: bool, times: seq<Tick>, longPressMs: uint32): seq<bool>
    decreases |times|
  {
    if times == [] then []
    else
      var o := Poll(s, active, times[0], longPressMs);
      [o.report.Some?] + PollReports(o.next, active, times[1..], longPressMs)
  }

  /** Held is not one-shot: while the button stays confirmed pressed and is
      read as pressed, every poll at a tick past the threshold reports Held
      again, and none of them changes the state. */
  lemma {:induction false} HeldRepeats(s: ButtonState, times: seq<Tick>, longPressMs: uint32)
    requires Agrees(s) && s.isPressed && !s.isDebouncing
    requires forall i :: 0 <= i < |times| ==> LongPress(s, times[i], longPressMs)
    ensures |PollReports(s, true, times, longPressMs)| == |times|
    ensures forall i :: 0 <= i < |times| ==> PollReports(s, true, times, longPressMs)[i]
    decreases |times|
  {
    if times != [] {
      assert Poll(s, true, times[0], longPressMs).next == s;
      HeldRepeats(s, times[1..], longPressMs);
      var rest := PollReports(s, true, times[1..], longPressMs);
      forall i | 0 <= i < |times|
        ensures PollReports(s, true, times, longPressMs)[i]
      {
        if i > 0 {
          assert PollReports(s, true, times, longPressMs)[i] == rest[i - 1];
          assert times[1..][i - 1] == times[i];
        }
      }
    }
  }

  /** The event queue after a run, with each firing's event offered to the
      queue as it happens: `xQueueSend` with zero block time drops an event
      that finds the queue full. */
  function RunQueued(s: ButtonState, steps: seq<Step>, longPressMs: uint32,
                     items: seq<Event>, capacity: nat): seq<Event>
    decreases |steps|
  {
    if steps == [] then items
    else
      var o := StepOnce(s, steps[0], longPressMs);
      var queued := if o.event.Some? then Offer(items, capacity, o.event.value) else items;
      RunQueued(o.next, steps[1..], longPressMs, queued, capacity)
  }

  /** Posting each event as it is produced leaves the queue as offering the
      whole sequence of the run's events afterwards would. */
  lemma {:induction false} RunQueuedOffersEvents(s: ButtonState, steps: seq<Step>, longPressMs: uint32,
                                                 items: seq<Event>, capacity: nat)
    ensures RunQueued(s, steps, longPressMs, items, capacity) ==
              OfferAll(items, capacity, Run(s, steps, longPressMs).events)
    decreases |steps|
  {
    if steps != [] {
      var o := StepOnce(s, steps[0], longPressMs);
      var rest := Run(o.next, steps[1..], longPressMs);
      var queued := if o.event.Some? then Offer(items, capacity, o.event.value) else items;
      RunQueuedOffersEvents(o.next, steps[1..], longPressMs, queued, capacity);
      if o.event.Some? {
        assert (Sent(o) + rest.events)[0] == o.event.value;
        assert (Sent(o) + rest.events)[1..] == rest.events;
      } else {
        assert Sent(o) + rest.events == rest.events;
      }
    }
  }

  /** From an initialised button and an empty queue, with no receives: the
      queue holds a prefix of the run's events, so they start with Pressed and
      alternate; it never holds more than its capacity or a Released event;
      and when it has room for every event of the run it holds all of them. */
  lemma QueueFromRest(steps: seq<Step>, longPressMs: uint32, capacity: nat)
    ensures RunQueued(Rest, steps, longPressMs, [], capacity) <= Run(Rest, steps, longPressMs).events
    ensures |RunQueued(Rest, steps, longPressMs, [], capacity)| <= capacity
    ensures Released !in RunQueued(Rest, steps, longPressMs, [], capacity)
    ensures Alternates(RunQueued(Rest, steps, longPressMs, [], capacity), false)
    ensures |Run(Rest, steps, longPressMs).events| <= capacity ==>
              RunQueued(Rest, steps, longPressMs, [], capacity) == Run(Rest, steps, longPressMs).events
  {
    var events := Run(Rest, steps, longPressMs).events;
    RunQueuedOffersEvents(Rest, steps, longPressMs, [], capacity);
    OfferAllKeepsBound([], capacity, events);
    OfferAllIsPrefix([], capacity, events);
    assert [] + events == events;
    RunFromRest(steps, longPressMs);
    AlternatesPrefix(events, RunQueued(Rest, steps, longPressMs, [], capacity), false);
    if |events| <= capacity {
      OfferAllWithRoom([], capacity, events);
    }
  }
}
