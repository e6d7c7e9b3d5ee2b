/** What a button handle owns: the GPIO capability and the debounce timer, as
    `button_init` acquires them and `button_deinit` releases them. */
module ButtonLifecycle {
  import opened Types
  import opened Ticks

  /** The `debounce_timer` field: NULL, a live one-shot timer (its period and
      whether it is running), or a pointer to a timer already deleted. */
  datatype TimerSlot =
    | NoTimer
    | Live(period: Tick, armed: bool)
    | Dangling

  /** Whether the GPIO capability is held, and the timer slot. */
  datatype Resources = Resources(gpioOwned: bool, timer: TimerSlot)

  /** A zero-initialised handle owns nothing. */
  const Unowned: Resources := Resources(false, NoTimer)

  datatype InitOutcome = InitOutcome(ok: bool, res: Resources)

  /** The resource side of `button_init`: a missing config or a failed GPIO init
      returns false before any timer is created; a failed timer creation gives
      the GPIO back and leaves the slot NULL. */
  function Acquire(res: Resources, configPresent: bool, gpioInitOk: bool, timerCreateOk: bool,
                   debounceMs: uint32): (r: InitOutcome)
    ensures r.ok <==> configPresent && gpioInitOk && timerCreateOk
    ensures r.ok ==> r.res == Resources(true, Live(MsToTicks(debounceMs), false))
    ensures !(configPresent && gpioInitOk) ==> r.res == res
    ensures configPresent && gpioInitOk && !timerCreateOk ==> r.res == Unowned
  {
    if !configPresent || !gpioInitOk then InitOutcome(false, res)
    else if !timerCreateOk then InitOutcome(false, Resources(false, NoTimer))
    else InitOutcome(true, Resources(true, Live(MsToTicks(debounceMs), false)))
  }

  /** A failed init never leaves this call's GPIO acquisition behind. */
  lemma FailedInitLeaksNothing(res: Resources, configPresent: bool, gpioInitOk: bool, timerCreateOk: bool,
                               debounceMs: uint32)
    requires !Acquire(res, configPresent, gpioInitOk, timerCreateOk, debounceMs).ok
    ensures Acquire(res, configPresent, gpioInitOk, timerCreateOk, debounceMs).res.gpioOwned ==> res.gpioOwned
    ensures !Acquire(res, configPresent, gpioInitOk, timerCreateOk, debounceMs).res.timer.Live? || res.timer.Live?
  {
  }

  /** What a deinit leaves, and whether it hands `xTimerDelete` a timer that
      was already deleted. */
  datatype DeinitOutcome = DeinitOutcome(res: Resources, deletesFreedTimer: bool)

  /** `button_deinit` as written: a non-NULL slot is deleted but not cleared. */
  function DeinitAsWritten(res: Resources): (r: DeinitOutcome)
    ensures !r.res.gpioOwned
    ensures r.res.timer == if res.timer == NoTimer then NoTimer else Dangling
    ensures r.deletesFreedTimer <==> res.timer == Dangling
  {
    DeinitOutcome(Resources(false, if res.timer == NoTimer then NoTimer else Dangling), res.timer == Dangling)
  }

  /** A second `button_deinit` after a successful init deletes the timer again. */
  lemma DoubleDeinitAsWrittenDeletesTwice(debounceMs: uint32)
    ensures var once := DeinitAsWritten(Acquire(Unowned, true, true, true, debounceMs).res);
            !once.deletesFreedTimer && DeinitAsWritten(once.res).deletesFreedTimer
  {
  }

  /** `button_deinit` with the slot set back to NULL after the delete. */
  function Deinit(res: Resources): (r: DeinitOutcome)
    ensures r.res == Unowned
    ensures r.deletesFreedTimer <==> res.timer == Dangling
  {
    DeinitOutcome(Unowned, res.timer == Dangling)
  }

  /** With the slot cleared, deinit is idempotent. */
  lemma DeinitIdempotent(res: Resources)
    requires res.timer != Dangling
    ensures !Deinit(res).deletesFreedTimer
    ensures Deinit(Deinit(res).res) == DeinitOutcome(Deinit(res).res, false)
  {
  }

  /** A call on a handle's resources: init with its three outcomes, or deinit. */
  datatype LifecycleCall =
    | InitCall(configPresent: bool, gpioInitOk: bool, timerCreateOk: bool, debounceMs: uint32)
    | DeinitCall

  /** Whether some deinit of a series deletes a timer twice, using the given
      deinit; and the resources left at the end. */
  function Perform(res: Resources, calls: seq<LifecycleCall>, asWritten: bool): DeinitOutcome
    decreases |calls|
  {
    if calls == [] then DeinitOutcome(res, false)
    else
      var step := match calls[0]
        case InitCall(c, g, t, d) => DeinitOutcome(Acquire(res, c, g, t, d).res, false)
        case DeinitCall => if asWritten then DeinitAsWritten(res) else Deinit(res);
      var rest := Perform(step.res, calls[1..], asWritten);
      DeinitOutcome(rest.res, step.deletesFreedTimer || rest.deletesFreedTimer)
  }

  /** With the corrected deinit, no series of inits and deinits from a zeroed
      handle ever deletes a timer twice, and no slot is ever left dangling. */
  lemma {:induction false} NoDoubleDelete(res: Resources, calls: seq<LifecycleCall>)
    requires res.timer != Dangling
    ensures !Perform(res, calls, false).deletesFreedTimer
    ensures Perform(res, calls, false).res.timer != Dangling
    decreases |calls|
  {
    if calls != [] {
      var next := match calls[0]
        case InitCall(c, g, t, d) => Acquire(res, c, g, t, d).res
        case DeinitCall => Deinit(res).res;
      NoDoubleDelete(next, calls[1..]);
    }
  }

  /** With the deinit as written, init then two deinits is such a series. */
  lemma AsWrittenDoubleDelete(debounceMs: uint32)
    ensures Perform(Unowned, [InitCall(true, true, true, debounceMs), DeinitCall, DeinitCall], true).deletesFreedTimer
  {
    var calls := [InitCall(true, true, true, debounceMs), DeinitCall, DeinitCall];
    var r1 := Acquire(Unowned, true, true, true, debounceMs).res;
    var r2 := DeinitAsWritten(r1).res;
    assert r2.timer == Dangling;
    assert calls[1..] == [DeinitCall, DeinitCall];
    assert calls[1..][1..] == [DeinitCall];
    assert Perform(r2, [DeinitCall], true).deletesFreedTimer;
  }
}
