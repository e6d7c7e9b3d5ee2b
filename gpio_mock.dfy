/** The test backend for the GPIO capability: a table of 64 pins, each with a
    level and an "initialized" mark, shared by every handle. */
module GpioMock {
  import opened Types
  import opened Gpio

  /** MAX_PINS */
  const MAX_PINS: nat := 64

  /** The table's pin levels after setting `pin` to `state`; a pin outside the
      table leaves it as it is. */
  function SetPin(pins: seq<bool>, pin: uint32, state: bool): (r: seq<bool>)
    requires |pins| == MAX_PINS
    ensures |r| == MAX_PINS
    ensures pin < MAX_PINS ==> r[pin] == state
    ensures forall i :: 0 <= i < MAX_PINS && i != pin ==> r[i] == pins[i]
  {
    if pin < MAX_PINS then pins[pin := state] else pins
  }

  /** The level reported for `pin`: its entry, or false outside the table. */
  function GetPin(pins: seq<bool>, pin: uint32): (r: bool)
    requires |pins| == MAX_PINS
    ensures r ==> pin < MAX_PINS
    ensures pin < MAX_PINS ==> r == pins[pin]
  {
    pin < MAX_PINS && pins[pin]
  }

  /** The pin a handle addresses, when its hardware handle is set and in range. */
  function HandlePin(handle: Option<GpioHandle>): (r: Option<uint32>)
    ensures r.Some? <==> handle.Some? && handle.value.hwHandle.Some? && handle.value.hwHandle.value < MAX_PINS
    ensures r.Some? ==> r.value == handle.value.hwHandle.value
  {
    if handle.Some? && handle.value.hwHandle.Some? && handle.value.hwHandle.value < MAX_PINS
    then Some(handle.value.hwHandle.value)
    else None
  }

  /** Reading a pin gives back the level last set on it. */
  lemma GetAfterSet(pins: seq<bool>, pin: uint32, state: bool)
    requires |pins| == MAX_PINS && pin < MAX_PINS
    ensures GetPin(SetPin(pins, pin, state), pin) == state
  {
  }

  /** Setting one pin leaves every other pin's reading alone, and setting a pin
      outside the table changes nothing. */
  lemma SetLeavesOthers(pins: seq<bool>, pin: uint32, other: uint32, state: bool)
    requires |pins| == MAX_PINS && other != pin
    ensures GetPin(SetPin(pins, pin, state), other) == GetPin(pins, other)
    ensures pin >= MAX_PINS ==> SetPin(pins, pin, state) == pins
  {
  }

  /** The static `mock_data` table. */
  class MockGpio {
    const pinStates: array<bool>
    const initialized: array<bool>

    ghost predicate Valid()
      reads this
    {
      pinStates.Length == MAX_PINS && initialized.Length == MAX_PINS && pinStates != initialized
    }

    /** The table in its zero-initialised static storage. */
    constructor ()
      ensures Valid() && fresh(pinStates) && fresh(initialized)
      ensures forall i :: 0 <= i < MAX_PINS ==> !pinStates[i] && !initialized[i]
    {
      pinStates := new bool[MAX_PINS](_ => false);
      initialized := new bool[MAX_PINS](_ => false);
    }

    /** gpio_mock_init: marks the configured pin as initialized. */
    method Init(handle: Option<GpioHandle>, config: Option<GpioConfig>) returns (ok: bool)
      requires Valid()
      modifies initialized
      ensures ok <==> handle.Some? && config.Some? && config.value.pin < MAX_PINS
      ensures ok ==> initialized[..] == old(initialized[..])[config.value.pin := true]
      ensures !ok ==> initialized[..] == old(initialized[..])
    {
      if handle.None? || config.None? || config.value.pin >= MAX_PINS {
        return false;
      }
      initialized[config.value.pin] := true;
      ok := true;
    }

    /** gpio_mock_deinit: nothing to release. */
    method Deinit(handle: Option<GpioHandle>) returns (ok: bool)
      ensures ok
    {
      ok := true;
    }

    /** gpio_mock_write: stores the level of the handle's pin. */
    method Write(handle: Option<GpioHandle>, state: bool) returns (ok: bool)
      requires Valid()
      modifies pinStates
      ensures ok <==> HandlePin(handle).Some?
      ensures pinStates[..] == if ok then SetPin(old(pinStates[..]), HandlePin(handle).value, state)
                               else old(pinStates[..])
    {
      if handle.None? || handle.value.hwHandle.None? {
        return false;
      }
      var pin := handle.value.hwHandle.value;
      if pin >= MAX_PINS {
        return false;
      }
      pinStates[pin] := state;
      ok := true;
    }

    /** gpio_mock_read: the stored level of the handle's pin, false when the
        handle or its pin is invalid. */
    method Read(handle: Option<GpioHandle>) returns (r: bool)
      requires Valid()
      ensures r ==> HandlePin(handle).Some?
      ensures HandlePin(handle).Some? ==> r == GetPin(pinStates[..], HandlePin(handle).value)
    {
      if handle.None? || handle.value.hwHandle.None? {
        return false;
      }
      var pin := handle.value.hwHandle.value;
      if pin >= MAX_PINS {
        return false;
      }
      r := pinStates[pin];
    }

    /** gpio_mock_set_pin_state: drives a pin from the test. */
    method SetPinState(pin: uint32, state: bool)
      requires Valid()
      modifies pinStates
      ensures pinStates[..] == SetPin(old(pinStates[..]), pin, state)
    {
      if pin < MAX_PINS {
        pinStates[pin] := state;
      }
    }

    /** gpio_mock_get_pin_state: the level of a pin, false outside the table. */
    method GetPinState(pin: uint32) returns (r: bool)
      requires Valid()
      ensures r == GetPin(pinStates[..], pin)
    {
      if pin < MAX_PINS {
        return pinStates[pin];
      }
      return false;
    }

    /** gpio_mock_reset: clears the whole table. */
    method Reset()
      requires Valid()
      modifies pinStates, initialized
      ensures forall i :: 0 <= i < MAX_PINS ==> !pinStates[i] && !initialized[i]
    {
      forall i | 0 <= i < MAX_PINS {
        pinStates[i] := false;
      }
      forall i | 0 <= i < MAX_PINS {
        initialized[i] := false;
      }
    }
  }

  /** A handle whose pin is in the table reads back what was written through it,
      and writing through it touches no other pin and no "initialized" mark. */
  method WriteThenRead(mock: MockGpio, handle: Option<GpioHandle>, state: bool, other: uint32) returns (ok: bool, r: bool)
    requires mock.Valid() && HandlePin(handle).Some?
    requires other < MAX_PINS && other != HandlePin(handle).value
    modifies mock.pinStates
    ensures ok && r == state
    ensures mock.pinStates[other] == old(mock.pinStates[other])
    ensures mock.initialized[..] == old(mock.initialized[..])
  {
    ok := mock.Write(handle, state);
    r := mock.Read(handle);
  }
}
