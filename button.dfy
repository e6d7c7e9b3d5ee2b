/** The button handle (button_handle_t) and its operations, updating the
    handle's fields in place. The GPIO capability's answers (`gpio.init`
    succeeding, `gpio.is_active`) and the tick count are passed in; the
    debounce timer is the handle's timer slot; events go to the configured
    queue. */
module Button {
  import opened Types
  import opened Ticks
  import opened Gpio
  import opened EventQueue
  import opened ButtonMachine
  import opened ButtonLifecycle

  /** button_config_t */
  datatype ButtonConfig = ButtonConfig(
    gpioConfig: GpioConfig,
    debounceMs: uint32,
    longPressMs: uint32,
    pullUp: bool,
    eventQueue: Queue?<Event>)

  /** The location `button_process` writes its event to. */
  class EventCell {
    var value: Event
    constructor (value: Event)
      ensures this.value == value
    {
      this.value := value;
    }
  }

  class Button {
    var eventQueue: Queue?<Event>
    var debounceMs: uint32
    var longPressMs: uint32
    var pressStartTick: Tick
    var lastState: bool
    var isPressed: bool
    var isDebouncing: bool
    // the GPIO capability is held by this handle
    var gpioOwned: bool
    var timer: TimerSlot

    /** The state fields, as the state machine sees them. */
    function State(): ButtonState
      reads this
    {
      ButtonState(lastState, isPressed, isDebouncing, pressStartTick)
    }

    function Owned(): Resources
      reads this
    {
      Resources(gpioOwned, timer)
    }

    /** A successfully initialised handle: it holds the GPIO and a live timer,
        the timer runs exactly while the handle is debouncing, confirmed
        reading and press state agree, and the queue, if any, is well formed. */
    ghost predicate Ready()
      reads this, eventQueue
    {
      gpioOwned && timer.Live? && timer.armed == isDebouncing && Agrees(State()) &&
      (eventQueue != null ==> eventQueue.Valid())
    }

    /** `button_create` on zero-initialised storage: the operations are wired
        up and every field is zero. */
    constructor ()
      ensures State() == Rest && Owned() == Unowned
      ensures eventQueue == null && debounceMs == 0 && longPressMs == 0
    {
      eventQueue := null;
      debounceMs, longPressMs := 0, 0;
      pressStartTick := 0;
      lastState, isPressed, isDebouncing := false, false, false;
      gpioOwned := false;
      timer := NoTimer;
    }

    /** `button_init`. `config` is None for a NULL config; `gpioInitOk` is what
        the GPIO capability's init returns and `timerCreateOk` whether
        `xTimerCreate` returns a timer. */
    method Init(config: Option<ButtonConfig>, gpioInitOk: bool, timerCreateOk: bool) returns (ok: bool)
      requires config.Some? && config.value.eventQueue != null ==> config.value.eventQueue.Valid()
      modifies this
      ensures var a := Acquire(old(Owned()), config.Some?, gpioInitOk, timerCreateOk,
                               if config.Some? then config.value.debounceMs else 0);
              ok == a.ok && Owned() == a.res
      ensures ok ==> Ready()
      // once the GPIO is acquired the configuration is stored and the state is
      // at rest, whether or not the timer can then be created
      ensures config.Some? && gpioInitOk ==>
                State() == Rest && debounceMs == config.value.debounceMs &&
                longPressMs == config.value.longPressMs && eventQueue == config.value.eventQueue
      ensures !(config.Some? && gpioInitOk) ==>
                State() == old(State()) && debounceMs == old(debounceMs) &&
                longPressMs == old(longPressMs) && eventQueue == old(eventQueue)
    {
      if config.None? {
        return false;
      }
      if !gpioInitOk {
        return false;
      }
      var c := config.value;
      debounceMs := c.debounceMs;
      longPressMs := c.longPressMs;
      pressStartTick := 0;
      lastState := false;
      isPressed := false;
      isDebouncing := false;
      eventQueue := c.eventQueue;
      gpioOwned := true;
      if !timerCreateOk {
        timer := NoTimer;
        gpioOwned := false;
        return false;
      }
      timer := Live(MsToTicks(c.debounceMs), false);
      ok := true;
    }

    /** `button_deinit`: deletes the timer if the slot is non-NULL, without
        clearing the slot, and releases the GPIO. `deletesFreedTimer` says
        whether the timer handed to `xTimerDelete` had already been deleted. */
    method Deinit() returns (deletesFreedTimer: bool)
      modifies this
      ensures var d := DeinitAsWritten(old(Owned()));
              Owned() == d.res && deletesFreedTimer == d.deletesFreedTimer
      ensures State() == old(State()) && eventQueue == old(eventQueue)
      ensures debounceMs == old(debounceMs) && longPressMs == old(longPressMs)
    {
      deletesFreedTimer := timer == Dangling;
      if timer != NoTimer {
        timer := Dangling;
      }
      gpioOwned := false;
    }

    /** `button_destroy`: `deinit` is always wired up by `button_create`. */
    method Destroy() returns (deletesFreedTimer: bool)
      modifies this
      ensures var d := DeinitAsWritten(old(Owned()));
              Owned() == d.res && deletesFreedTimer == d.deletesFreedTimer
      ensures State() == old(State()) && eventQueue == old(eventQueue)
      ensures debounceMs == old(debounceMs) && longPressMs == old(longPressMs)
    {
      deletesFreedTimer := Deinit();
    }

    /** `button_process` with `gpio.is_active` reading `active` at tick `now`;
        `eventOut` is None for a NULL event pointer. */
    method Process(active: bool, now: Tick, eventOut: EventCell?) returns (reported: bool)
      requires Ready()
      modifies this, eventOut
      ensures Ready()
      ensures eventQueue == old(eventQueue) && gpioOwned == old(gpioOwned)
      ensures debounceMs == old(debounceMs) && longPressMs == old(longPressMs)
      ensures eventOut == null ==> !reported && State() == old(State()) && timer == old(timer)
      ensures eventOut != null ==>
                var o := Poll(old(State()), active, now, longPressMs);
                State() == o.next && reported == o.report.Some? &&
                timer == old(timer).(armed := old(timer).armed || o.startTimer) &&
                eventOut.value == if reported then Held else old(eventOut.value)
    {
      if eventOut == null {
        return false;
      }
      if active != lastState && !isDebouncing {
        isDebouncing := true;
        timer := timer.(armed := true);
      }
      if isPressed && !isDebouncing {
        var pressDuration := Elapsed(now, pressStartTick);
        if pressDuration >= MsToTicks(longPressMs) {
          eventOut.value := Held;
          return true;
        }
      }
      reported := false;
    }

    /** `button_debounce_callback` with the GPIO re-read `active` at tick
        `now`. The one-shot timer is no longer running when it fires. */
    method DebounceCallback(active: bool, now: Tick)
      requires Ready()
      modifies this, eventQueue
      ensures Ready()
      ensures eventQueue == old(eventQueue) && gpioOwned == old(gpioOwned)
      ensures debounceMs == old(debounceMs) && longPressMs == old(longPressMs)
      ensures timer == old(timer).(armed := false)
      ensures State() == Fire(old(State()), active, now, longPressMs).next
      ensures eventQueue != null ==>
                var e := Fire(old(State()), active, now, longPressMs).event;
                eventQueue.items == if e.Some? then Offer(old(eventQueue.items), eventQueue.capacity, e.value)
                                    else old(eventQueue.items)
    {
      timer := timer.(armed := false);
      var currentState := active;
      if currentState != lastState {
        var event;
        if currentState {
          isPressed := true;
          pressStartTick := now;
          event := Pressed;
        } else {
          isPressed := false;
          var pressDuration := Elapsed(now, pressStartTick);
          if pressDuration >= MsToTicks(longPressMs) {
            event := Held;
          } else {
            event := Clicked;
          }
        }
        lastState := currentState;
        if eventQueue != null {
          var _ := eventQueue.Send(event);
        }
      }
      isDebouncing := false;
    }
  }
}
