/** The button tests' scenarios, driven through the GPIO mock table: the pin
    level the mock holds is what `gpio.is_active` reports, the test's delays
    are explicit tick counts, and each debounce-timer expiry is an explicit
    call of the callback. A poll is made right after every level change, as
    the owner's periodic poll would. */
module ButtonScenarios {
  import opened Types
  import opened Gpio
  import opened GpioMock
  import opened EventQueue
  import opened ButtonMachine
  import opened Button
  import ButtonLifecycle

  /** The configuration of the tests: pin 0, 50 ms debounce, 1000 ms long press,
      events to `queue`. */
  function TestConfig(queue: Queue<Event>): ButtonConfig {
    ButtonConfig(GpioConfig(0, false, true, false, false), 50, 1000, true, queue)
  }

  /** The fixture's tearDown after a successful setUp: deinit, then destroy,
      whose deinit deletes the already deleted debounce timer again. */
  method TearDownScenario() returns (firstFreed: bool, secondFreed: bool)
    ensures !firstFreed && secondFreed
  {
    var mock, queue, button := SetUp();
    firstFreed := button.Deinit();
    secondFreed := button.Destroy();
  }

  /** Builds the fixture: a queue of ten events, a button initialised on it
      and a cleared GPIO table. */
  method SetUp() returns (mock: MockGpio, queue: Queue<Event>, button: Button)
    ensures fresh(mock) && fresh(mock.pinStates) && fresh(mock.initialized) && fresh(queue) && fresh(button)
    ensures mock.Valid() && forall i :: 0 <= i < MAX_PINS ==> !mock.pinStates[i]
    ensures button.Ready() && button.State() == Rest && button.eventQueue == queue
    ensures button.longPressMs == 1000 && queue.items == [] && queue.capacity == 10
    ensures button.Owned() == ButtonLifecycle.Resources(true, ButtonLifecycle.Live(50, false))
  {
    queue := new Queue(10);
    button := new Button();
    var ok := button.Init(Some(TestConfig(queue)), true, true);
    mock := new MockGpio();
    mock.Reset();
  }

  /** A freshly initialised button is not pressed. */
  method InitScenario() returns (pressed: bool)
    ensures !pressed
  {
    var mock, queue, button := SetUp();
    pressed := button.isPressed;
  }

  /** A short press is reported as Pressed, then Clicked on release. */
  method PressReleaseScenario() returns (first: Option<Event>, second: Option<Event>)
    ensures first == Some(Pressed) && second == Some(Clicked)
  {
    var mock, queue, button := SetUp();
    var cell := new EventCell(Released);
    mock.SetPinState(0, true);
    var level := mock.GetPinState(0);
    var reported := button.Process(level, 0, cell);
    level := mock.GetPinState(0);
    button.DebounceCallback(level, 50);
    first := queue.Receive();

    mock.SetPinState(0, false);
    level := mock.GetPinState(0);
    reported := button.Process(level, 60, cell);
    level := mock.GetPinState(0);
    button.DebounceCallback(level, 110);
    second := queue.Receive();
  }

  /** A press held past the threshold is reported as Held by a poll, and again
      by the next poll. */
  method LongPressScenario() returns (first: Option<Event>, held: bool, heldAgain: bool, event: Event)
    ensures first == Some(Pressed) && held && heldAgain && event == Held
  {
    var mock, queue, button := SetUp();
    var cell := new EventCell(Released);
    mock.SetPinState(0, true);
    var level := mock.GetPinState(0);
    var _ := button.Process(level, 0, cell);
    level := mock.GetPinState(0);
    button.DebounceCallback(level, 50);
    first := queue.Receive();

    level := mock.GetPinState(0);
    held := button.Process(level, 1160, cell);
    event := cell.value;
    heldAgain := button.Process(level, 1170, cell);
  }

  /** Five 5 ms bounces produce no event; the stable press that follows
      produces Pressed. */
  method DebounceScenario() returns (during: Option<Event>, after: Option<Event>)
    ensures during == None && after == Some(Pressed)
  {
    var mock, queue, button := SetUp();
    var cell := new EventCell(Released);
    for i := 0 to 5
      invariant mock.Valid() && queue.Valid() && button.Ready() && button.eventQueue == queue
      invariant button.State() == Rest.(isDebouncing := i > 0) && button.longPressMs == 1000
      invariant queue.items == [] && queue.capacity == 10 && !mock.pinStates[0]
    {
      mock.SetPinState(0, true);
      var level := mock.GetPinState(0);
      var reported := button.Process(level, 10 * i, cell);
      mock.SetPinState(0, false);
      level := mock.GetPinState(0);
      reported := button.Process(level, 10 * i + 5, cell);
    }
    var level := mock.GetPinState(0);
    button.DebounceCallback(level, 50);
    during := queue.Receive();

    mock.SetPinState(0, true);
    level := mock.GetPinState(0);
    var _ := button.Process(level, 50, cell);
    level := mock.GetPinState(0);
    button.DebounceCallback(level, 100);
    after := queue.Receive();
  }
}
