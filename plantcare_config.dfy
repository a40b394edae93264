/** The process-wide globals shared by the sensor thread and the mode loops (src/helpers/plantcare_config.c). */
module Config {
  import opened CInt

  /** plantcare_mode_t: TEST = 0, NORMAL = 1. */
  datatype Mode = Test | Normal

  /** The Test-mode sampling period, which is also the initial one. */
  const TestPeriodMs: uint32 := 2000

  class Globals {
    /** g_sensors_ready: set by main once every sensor is initialised. */
    var sensorsReady: bool
    /** g_sampling_period_ms: how long the sensor thread sleeps between samples. */
    var samplingPeriodMs: uint32
    /** g_current_mode */
    var currentMode: Mode
    /** g_button_pressed_event: a one-shot flag an interrupt handler would set. */
    var buttonPressedEvent: bool

    /** The initial values: Test mode, no pending event, a 2000 ms period, sensors not ready. */
    constructor ()
      ensures currentMode == Test && !buttonPressedEvent
      ensures samplingPeriodMs == TestPeriodMs && !sensorsReady
    {
      sensorsReady := false;
      samplingPeriodMs := TestPeriodMs;
      currentMode := Test;
      buttonPressedEvent := false;
    }
  }
}
