/** The GPIO capability's value types: a pin configuration (gpio_config_t) and
    the part of a handle (gpio_handle_t) that a backend reads, its hardware
    handle. */
module Gpio {
  import opened Types

  /** gpio_config_t, without its opaque platform-specific pointer. */
  datatype GpioConfig = GpioConfig(pin: uint32, isOutput: bool, pullUp: bool, pullDown: bool, activeHigh: bool)

  /** gpio_handle_t as a backend sees it: `hwHandle` is NULL or points at the
      pin number the handle drives. */
  datatype GpioHandle = GpioHandle(hwHandle: Option<uint32>, activeHigh: bool)
}
