# Debounced push-button driver and GPIO test table, in Dafny

This project models the button component of a small embedded HAL library, a
debounced push button on a GPIO pin running under FreeRTOS, together with the
GPIO mock backend that the button's tests drive it through.

- Module `Button` holds the button handle (`button_handle_t`) as a class.
  Its fields are updated in place by `Init`, `Process` (the periodic poll),
  `DebounceCallback` (the debounce timer expiring), `Deinit` and `Destroy`.
  `Deinit` follows the code: it deletes the timer but leaves the slot
  pointing at it.
- Each state-changing method is proved against the value-level state machine
  in `ButtonMachine`. The contract says how the state fields change (`Poll`,
  `Fire`). Resource ownership follows `ButtonLifecycle` (`Acquire`, `DeinitAsWritten`).
  What reaches the event queue is stated through `EventQueue.Offer`.
- `ButtonMachine` proves properties of whole runs. The runs are arbitrary
  interleavings of polls and timer firings, with any GPIO readings and any
  tick counts:
  - confirmed reading and press state stay equal;
  - the events sent alternate Pressed, Clicked-or-Held, Pressed, …;
  - Released is never sent;
  - a noise pulse that resolves back sends nothing;
  - Held is reported again on every qualifying poll;
  - without receives, the queue holds a prefix of the event sequence, so it
    alternates too; it never overfills, and it holds every event when it has
    room.
- `GpioMock` is the 64-pin table (`mock_data`) as a class over two arrays.
  Set/get/init/write/read/reset are proved against sequence functions, with
  read-after-write and "nothing else changes" lemmas.
- `ButtonScenarios` replays what the four button tests and their tearDown
  intend, through the mock table, as call sequences. It uses wiring the
  tests do not provide (see "## Left out").

Collaborators:
- The GPIO capability's `init` result and its `is_active` reading are method
  parameters (`gpioInitOk`, `active`).
- `xTaskGetTickCount()` is the parameter `now`.
- `xTimerCreate` succeeding is the parameter `timerCreateOk`.
- The debounce timer is the handle's `TimerSlot`: NULL, a live timer with
  its period and an `armed` flag, or a deleted one.
- The FreeRTOS queue is `EventQueue.Queue`: a sequence with a capacity.
  `xQueueSend(q, &e, 0)` drops an event that finds the queue full.
- `TickType_t` is 32 bits wide. Tick differences wrap around (`Ticks.Elapsed`).
- `pdMS_TO_TICKS` is FreeRTOS's 64-bit-intermediate macro with
  `configTICK_RATE_HZ` = 1000. At that rate it is the identity, which is
  proved. The FreeRTOS configuration header is not part of this model.

The model follows the code in these places, which a debouncer is often expected to do differently:
- `last_state` starts `false`; the pin is not read at init.
- There is no check that `debounce_ms` or `long_press_ms` is positive.
- Every poll past the threshold reports `HELD` again. There is no one-shot
  flag (`ButtonMachine.HeldRepeats`).
- `BUTTON_EVENT_RELEASED` is never produced.
- Init failures are a plain `false`, with no error kinds.

A poll and a timer firing are atomic steps. They interleave in any order, and
the model describes no concurrency inside them.

## Model

| member | source | states |
|---|---|---|
| Ticks.Elapsed | src/components/button.c:75 | unsigned tick difference: adding it to the start gives back `now`; it is `now - start` without wrap and `now + 2^32 - start` across a wrap |
| Ticks.Advance | src/components/button.c:108 | the tick counter `d` ticks later, wrapping at 2^32 |
| Ticks.ElapsedAfterAdvance | src/components/button.c:108 | the difference between a counter advanced by `d` and its start is `d`, across a wrap too |
| Ticks.MsToTicks | src/components/button.c:77 | `pdMS_TO_TICKS` at 1000 Hz is the identity on every `uint32_t` |
| Ticks.MsToTicksIdentity | src/components/button.c:109 | `ms * 1000 / 1000`, truncated to 32 bits, is `ms` |
| EventQueue.Offer | src/components/button.c:88 | a zero-timeout send appends when there is room and leaves a full queue unchanged |
| EventQueue.OfferAllKeepsBound | src/components/button.c:88 | a series of sends never exceeds the capacity, keeps what was queued as a prefix, and adds only items that were sent |
| EventQueue.OfferAllWhenFull | src/components/button.c:88 | a full queue stays unchanged whatever is sent |
| EventQueue.OfferAllIsPrefix | src/components/button.c:88 | without receives, the queue after a series of sends is the old contents followed by a prefix of what was sent |
| EventQueue.OfferAllWithRoom | src/components/button.c:88 | with room for all of them, every sent item is queued in order |
| EventQueue.Queue.constructor | tests/test_button.c:15 | `xQueueCreate` gives an empty queue of the given capacity |
| EventQueue.Queue.Send | src/components/button.c:88 | send succeeds iff the queue had room; the contents become `Offer` of the old contents |
| EventQueue.Queue.Receive | tests/test_button.c:54 | receive returns the oldest item and removes it, or None on an empty queue |
| GpioMock.SetPin | tests/mocks/gpio_mock.c:60-64 | setting an in-range pin stores the level there and leaves every other entry as it was |
| GpioMock.GetPin | tests/mocks/gpio_mock.c:66-71 | an in-range pin reads its entry; an out-of-range pin reads false |
| GpioMock.HandlePin | tests/mocks/gpio_mock.c:22-24 | a handle addresses a pin iff the handle and its hardware handle are non-NULL and the pin is below 64 |
| GpioMock.GetAfterSet | tests/mocks/gpio_mock.c:60-69 | reading a pin after setting it gives the level set |
| GpioMock.SetLeavesOthers | tests/mocks/gpio_mock.c:60-64 | setting one pin leaves every other pin's reading alone; an out-of-range set changes nothing |
| GpioMock.MockGpio.constructor | tests/mocks/gpio_mock.c:6-9 | the static table starts with every level and every mark false |
| GpioMock.MockGpio.Init | tests/mocks/gpio_mock.c:11-15 | init succeeds iff handle and config are non-NULL and the pin is below 64, and then marks exactly that pin initialized; otherwise nothing changes |
| GpioMock.MockGpio.Deinit | tests/mocks/gpio_mock.c:17-19 | deinit always returns true and changes nothing |
| GpioMock.MockGpio.Write | tests/mocks/gpio_mock.c:21-27 | write succeeds iff the handle addresses a pin, storing the level there only; otherwise nothing changes |
| GpioMock.MockGpio.Read | tests/mocks/gpio_mock.c:29-34 | read returns the addressed pin's level, and false for an invalid handle or pin |
| GpioMock.MockGpio.SetPinState | tests/mocks/gpio_mock.c:60-64 | the level table becomes `SetPin` of the old table; the initialized marks are untouched |
| GpioMock.MockGpio.GetPinState | tests/mocks/gpio_mock.c:66-71 | returns `GetPin` of the level table |
| GpioMock.MockGpio.Reset | tests/mocks/gpio_mock.c:73-75 | every level and every initialized mark becomes false |
| GpioMock.WriteThenRead | tests/mocks/gpio_mock.c:21-34 | through a valid handle a read returns what was written, and no other pin or mark changes |
| ButtonMachine.Poll | src/components/button.c:95-116 | the timer starts exactly on an edge outside a debounce; a poll never changes the confirmed state or the press tick; it reports Held iff the button is pressed, not debouncing after the edge check, and the wrapped elapsed time reaches the inclusive threshold |
| ButtonMachine.Fire | src/components/button.c:59-93 | debouncing always ends; a re-read equal to the confirmed state changes nothing else and sends nothing; a confirmed press sets both flags and the press tick and sends Pressed; a confirmed release clears both flags and sends Held iff elapsed reaches the threshold, else Clicked; never Released |
| ButtonMachine.StepsKeepAgreement | src/components/button.c:84 | poll and callback both keep `last_state == is_pressed` |
| ButtonMachine.RunAlternates | src/components/button.c:66-90 | for any interleaving of polls and firings, agreement is kept; the events alternate between a press and a release classification, starting from the current press state; the parity of the event count gives the final press state |
| ButtonMachine.AlternatesNeverReleased | src/components/button.c:66-84 | an alternating event sequence contains no Released |
| ButtonMachine.AlternatesPrefix | src/components/button.c:66-84 | every prefix of an alternating event sequence alternates |
| ButtonMachine.RunFromRest | src/components/button.c:22-24 | after init, the first event is Pressed, the events alternate, none is Released, and the button ends pressed iff the event count is odd |
| ButtonMachine.NoiseSendsNothing | src/components/button.c:63-66 | if every firing re-reads the confirmed level, whatever the polls saw, a run sends nothing and confirms nothing |
| ButtonMachine.HeldRepeats | src/components/button.c:106-113 | while the button is confirmed pressed and read as pressed, every poll past the threshold reports Held |
| ButtonMachine.RunQueuedOffersEvents | src/components/button.c:86-89 | posting each event as it happens leaves the queue as offering the run's whole event sequence would |
| ButtonMachine.QueueFromRest | src/components/button.c:86-89 | from init with an empty queue and no receives, the queue is a prefix of the run's events, so it starts with Pressed and alternates; it never exceeds its capacity or holds Released; with room for every event it holds all of them |
| ButtonLifecycle.Acquire | src/components/button.c:10-42 | init succeeds iff config, GPIO init and timer creation all succeed, and then holds the GPIO and a stopped timer with the converted period; a NULL config or failed GPIO init changes nothing; a failed timer creation releases the GPIO and leaves the slot NULL |
| ButtonLifecycle.FailedInitLeaksNothing | src/components/button.c:36-39 | a failed init acquires neither the GPIO nor a timer |
| ButtonLifecycle.DeinitAsWritten | src/components/button.c:44-52 | deinit releases the GPIO and deletes a non-NULL timer without clearing the slot; it deletes a freed timer iff the slot was already dangling |
| ButtonLifecycle.DoubleDeinitAsWrittenDeletesTwice | src/components/button.c:47-49 | after a successful init, the first deinit deletes a live timer and the second deletes it again |
| ButtonLifecycle.AsWrittenDoubleDelete | src/components/button.c:47-49 | the call series init, deinit, deinit deletes a freed timer |
| ButtonLifecycle.Deinit | src/components/button.c:44-52 | with the slot cleared, deinit leaves nothing owned |
| ButtonLifecycle.DeinitIdempotent | src/components/button.c:44-52 | a second deinit deletes nothing and leaves the same resources |
| ButtonLifecycle.NoDoubleDelete | src/components/button.c:44-52 | with the corrected deinit, no series of inits and deinits deletes a timer twice or leaves a dangling slot |
| Button.Button.constructor | src/components/button.c:118-128 | a created, zero-initialised handle is at rest and owns nothing |
| Button.Button.Init | src/components/button.c:10-42 | result and ownership as `Acquire`; on success the handle is ready; once the GPIO is acquired the config is stored and the state is at rest; before that nothing changes |
| Button.Button.Deinit | src/components/button.c:44-52 | ownership becomes `DeinitAsWritten`'s: the GPIO is released and a non-NULL slot is deleted but left dangling; the result says whether the timer deleted was already freed; state and config are unchanged |
| Button.Button.Destroy | src/components/button.c:130-135 | destroy runs the deinit as written, with the same effect and result |
| Button.Button.Process | src/components/button.c:95-116 | a NULL event pointer changes nothing and returns false; otherwise the state becomes `Poll`'s, the timer is armed iff `Poll` starts it, the result is `Poll`'s report, and HELD is written only when reported; the queue is not touched |
| Button.Button.DebounceCallback | src/components/button.c:59-93 | the state becomes `Fire`'s, the timer is no longer armed, and a configured queue receives `Fire`'s event, dropped when full |
| ButtonScenarios.SetUp | tests/test_button.c:13-36 | the fixture yields a ready button at rest on an empty 10-event queue and a cleared pin table |
| ButtonScenarios.TearDownScenario | tests/test_button.c:38-42 | after a successful setUp, tearDown's deinit deletes a live timer and destroy's deinit then deletes the freed timer again |
| ButtonScenarios.InitScenario | tests/test_button.c:45-47 | an initialised button is not pressed |
| ButtonScenarios.PressReleaseScenario | tests/test_button.c:49-63 | a 60 ms press produces Pressed, then Clicked |
| ButtonScenarios.LongPressScenario | tests/test_button.c:65-79 | after Pressed, a poll 1110 ms into the press reports HELD, and so does the next poll |
| ButtonScenarios.DebounceScenario | tests/test_button.c:81-99 | five 5 ms bounces queue nothing; the stable press after them queues Pressed |

## Findings

| source | as written | input that shows it | evidently intended | confidence | as-written member | corrected member |
|---|---|---|---|---|---|---|
| src/components/button.c:47-49 | `button_deinit` deletes the debounce timer but leaves `debounce_timer` pointing at it | a successful init, then deinit twice (for example `init` followed by `tearDown` calling deinit and destroy calling it again) | a repeated deinit deletes nothing a second time | not executed; high | ButtonLifecycle.DeinitAsWritten | ButtonLifecycle.Deinit |

`Button.Button.Deinit` and `Button.Button.Destroy` follow the code as written, and `ButtonScenarios.TearDownScenario` shows the double delete on the fixture's tearDown. `ButtonLifecycle.Deinit` is the corrected definition: it clears the slot, and `ButtonLifecycle.NoDoubleDelete` proves that no series of inits and deinits then deletes a timer twice.

## Left out

- `button_is_pressed` (src/components/button.c:54-57) only returns the GPIO capability's `is_active` reading. That reading is the `active` parameter of `Process` and `DebounceCallback`.
- NULL `self` checks in every button operation, and the NULL timer ID check in the callback. A Dafny receiver is never null. The NULL `config` and NULL `event` pointers are modelled as `None` and `null`.
- `xTimerStart` is assumed always to start the timer. Its result is ignored by the code. A full timer command queue, with the button left debouncing forever, is not modelled.
- `xTimerDelete`'s block time, the timer-service task and the scheduling of callbacks. A firing is an atomic step that may happen between any two polls.
- The period 0 that `debounce_ms == 0` would hand to `xTimerCreate` is stored as given. What FreeRTOS does with it is not modelled.
- `Button.Button.Init` called on a handle that already holds a live timer overwrites the slot, as the code does. The leaked timer is not tracked.
- The state of the GPIO capability behind a failed `gpio.init` is not modelled. The handle's `gpioOwned` flag records only what the button acquired and released.
- `gpio_mock_create` and `gpio_mock_destroy`, and their shared static `pin_number`. The pin is the handle's `hwHandle` field, set by the caller.
- The function-pointer wiring of `button_create` and the assignment of `button_is_pressed` to the `bool is_pressed` field. `is_pressed` is the press state.
- The tests' wall-clock delays are explicit tick counts. The timer fires 50 ticks after it was armed.
- The scenarios add wiring the tests do not provide. No GPIO backend installs `is_active` (tests/mocks/gpio_mock.c:42-45 sets only init, deinit, write and read). The tests never create a GPIO backend for the button's handle, so `button.init` would call through a NULL `gpio.init`. The test config is active-low (tests/test_button.c:26). Three of the four tests never call `button.process`; the only call is at tests/test_button.c:77, so nothing would arm the timer in the others. The scenarios assume instead that `is_active` reports the mock pin's level unchanged, that GPIO init succeeds, and that a poll follows each level change.
- `xQueueReceive` in the tests waits up to 100 ms (tests/test_button.c:54). `EventQueue.Queue.Receive` does not wait. Every scenario makes its send before the receive that expects it, so no wait is needed.
- The Linux sysfs backend, the RTOS hooks and the example programs are not part of this model.
