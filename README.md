# PlantCare firmware core in Dafny

PlantCare is Zephyr firmware for a plant-monitoring board. A background
sensor thread samples soil moisture, ambient light, temperature and humidity
(Si7021), acceleration (MMA8451), colour (TCS34725) and a GPS receiver's NMEA
stream. It classifies the dominant colour and publishes each sample to a
two-slot versioned store. The main thread runs one of two modes:

- Test mode snapshots the store, lights the RGB LED in the dominant colour
  and prints every reading.
- Normal mode is a stub that waits for a button event and switches back to
  Test mode.

This project models the integer and buffer logic of that core and proves
what it promises. The modules are:

- `CInt` (`c_int.dfy`): fixed-width integer types, C's truncating `/` and
  `%` (`CDiv`, `CMod`) and the division facts used elsewhere.
- `PlantcareData` (`plantcare_data.dfy`): the sample record and the
  four-valued dominant colour.
- `Units` (`plantcare_units.dfy`): clamped percent x10 conversions and the
  g x 100 to (m/s^2) x 100 scale.
- `State` (`plantcare_state.dfy`): the store as a class over a two-element
  array and a `uint32` version. Its sequential contract is stated against
  the ghost history of published samples.
- `SensorThread` (`sensor_thread.dfy`): the static GPS line accumulator, as a
  class over the 64-byte `line` array and its index, specified by a pure
  character-by-character reference model `Feed`. It also holds the
  dominant-colour rule.
- `Button` (`button.dfy`): the edge detector as a class over its two static
  booleans, with the GPIO level as a parameter. A reference model `Poll`
  describes any run of polls.
- `Config` (`plantcare_config.dfy`): the globals and their initial values.
- `ModeNormal` (`plantcare_mode_normal.dfy`): the event-consuming loop.
- `ModeTest` (`plantcare_mode_test.dfy`):
  - mode entry;
  - the colour to RGB switch and the printed colour name;
  - printing of x100 fixed-point readings.
- `Bus` (`bus.dfy`): the outcome of an I2C burst read, which is an input,
  and big-endian word assembly.
- `Humidity` (`humidity_sensor.dfy`) and `Accelerometer`
  (`accelerometer_sensor.dfy`): raw-word decoding and the fixed-point
  formulas, with each driver's out-parameter and early-return behaviour.

Inputs the firmware gets from hardware or other threads become parameters:

- UART characters become a byte sequence. The reader reports "no data" once
  it is used up.
- I2C burst reads become a return code plus buffer contents.
- GPIO levels become an `int`.
- The button interrupt's flag raises become one boolean per Normal-mode tick.

## Model

| member | source | states |
|---|---|---|
| CInt.CDiv | src/helpers/plantcare_units.c:78 | C's truncating quotient: the magnitude is floored and the sign follows the dividend |
| CInt.CMod | src/helpers/plantcare_mode_test.c:47-48 | whole part times 100 plus the remainder gives back x; the remainder is below 100 in magnitude and has x's sign, so it is in [0, 99] for x >= 0 |
| Units.PctX10FromRange | src/helpers/plantcare_units.c:29-47 | result is in [0, 1000]; a non-positive span gives 0; raw at or below the minimum gives 0 and at or above the maximum gives exactly 1000; inside the range it is floor(1000 * (raw - min) / span) |
| Units.PctX10Monotone | src/helpers/plantcare_units.c:34-46 | the percentage never decreases as raw increases |
| Units.LightRawToPctX10 | src/helpers/plantcare_units.c:49-53 | range 0..400: clamps to 0 and 1000 outside it, and inside it equals floor(5 * raw / 2) |
| Units.LightExamples | src/helpers/plantcare_units.c:22-23 | raw 400 gives 1000, raw 200 gives 500, raw 1000 gives 1000 |
| Units.SoilRawToPctX10 | src/helpers/plantcare_units.c:55-61 | range 0..4095: negatives give 0, values above 4095 give 1000, in between it is floor(1000 * raw / 4095) |
| Units.AccelG100ToMs2X100 | src/helpers/plantcare_units.c:70-79 | g100 * 981 / 100 truncated toward zero, with the sign of the input; 100 gives 981; the input bound is where the int32 product does not overflow |
| Units.AccelOdd | src/helpers/plantcare_units.c:78 | f(-x) == -f(x) |
| Units.AccelMonotone | src/helpers/plantcare_units.c:78 | the conversion is monotone non-decreasing across zero |
| PlantcareData.ZeroSample | src/helpers/plantcare_state.c:3 | the static zero sample: colour Unknown, a sentence buffer of the given size holding only NULs |
| State.NextVersion | src/helpers/plantcare_state.c:8 | old version + 1, wrapping 2^32 - 1 to 0; the slot parity always flips, including across the wrap |
| State.VersionCountsPublishes | src/helpers/plantcare_state.c:8-10 | stepping the version once per publish keeps it equal to the publish count modulo 2^32 |
| State.StatePlane.constructor | src/helpers/plantcare_state.c:3-4 | both slots hold the zero sample, the version is 0 and nothing has been published |
| State.StatePlane.Publish | src/helpers/plantcare_state.c:6-11 | the version becomes NextVersion(old); the sample goes into slot (next & 1); the other slot keeps the previously published sample (or the zero sample); the store invariant is kept |
| State.StatePlane.GetSnapshot | src/helpers/plantcare_state.c:13-21 | with no interleaved publish it returns the latest published sample (the zero sample before any), its loop body runs exactly once, and it modifies nothing |
| SensorThread.CopyCString | src/helpers/sensor_thread.c:47-50 | the destination keeps its size; it receives the source up to and including its first NUL; when the string is longer it holds the first |dest| bytes; bytes past the terminator are unchanged |
| SensorThread.CopyCStringDelivers | src/helpers/sensor_thread.c:44-50 | a line that fits is delivered as the same C string; a line that does not fit leaves no terminator |
| SensorThread.FeedConcat | src/helpers/sensor_thread.c:21-22 | accumulator state carries over between calls: feeding a + b equals feeding a and then b |
| SensorThread.FeedKeepsLineBound | src/helpers/sensor_thread.c:55-60 | the pending line never exceeds 63 bytes, so the index stays in [0, 63] |
| SensorThread.FeedKeepsSentenceSize | src/helpers/sensor_thread.c:47 | commits never change the size of the sentence buffer |
| SensorThread.FeedIgnoresCR | src/helpers/sensor_thread.c:37-40 | a CR changes neither the line nor the index: the result is the same with every CR removed |
| SensorThread.FeedWithoutLFKeepsSentence | src/helpers/sensor_thread.c:42-52 | without a line feed the committed sentence never changes |
| SensorThread.FeedOrdinaryRun | src/helpers/sensor_thread.c:54-60 | a run of n ordinary characters keeps the last (pending + n) mod 64 of them; overflow drops the partial line and does not store the character that hit it |
| SensorThread.LineFeedRestartsLine | src/helpers/sensor_thread.c:52 | after a line feed the pending line is empty (idx = 0) |
| SensorThread.ShortRunIsKept | src/helpers/sensor_thread.c:54-57 | fewer than 64 ordinary characters after a reset are all kept, in order |
| SensorThread.CommitsCompleteLine | src/helpers/sensor_thread.c:42-52 | after LF, line, LF, the sentence holds exactly that line as a NUL-terminated C string and the index is 0 |
| SensorThread.GpsLineBuffer.constructor | src/helpers/sensor_thread.c:21-22 | the static `line` starts with every byte zero and the index is 0, so the pending line is empty |
| SensorThread.GpsLineBuffer.Update | src/helpers/sensor_thread.c:19-63 | consumes min(available, 200) characters and stops when the reader has no data; the line, index and sentence become the reference model Feed of those characters |
| SensorThread.GpsLineBuffer.CommitLine | src/helpers/sensor_thread.c:44-50 | the copy loop leaves the destination equal to CopyCString of the terminated line |
| SensorThread.RefreshGpsSentence | src/helpers/sensor_thread.c:105-110 | after the clear at line 78 and the update, the sentence is empty unless a line feed arrived in this cycle |
| SensorThread.DominantColor | src/helpers/sensor_thread.c:95-102 | never Unknown; the chosen channel is the maximum of the three; Red exactly when red is the maximum; Green exactly when red < green and green is the maximum |
| Button.Poll | src/sensors/button.c:68-83 | reference model of a run of polls: failed reads are skipped and each released-to-pressed transition counts one event |
| Button.HeldButtonReportsOneEdge | src/sensors/button.c:79-82 | a button held throughout a run reports one event if it was released before, otherwise none, and ends stored as pressed |
| Button.EventsNeedPressedReads | src/sensors/button.c:74-82 | a run never reports more events than it has successful reads that saw the button pressed |
| Button.Button.constructor | src/sensors/button.c:26-27 | both statics start false |
| Button.Button.Init | src/sensors/button.c:29-52 | device not ready gives -ENODEV, and a configure error is returned as is; both leave the state unchanged; otherwise it returns 0, marks the button initialised and stores the level, a failed read counting as released |
| Button.Button.IsPressed | src/sensors/button.c:54-66 | true exactly when initialised and the read succeeded with a non-zero level; modifies nothing |
| Button.Button.WasPressed | src/sensors/button.c:68-83 | before init or on a failed read: false and nothing stored; otherwise true exactly on released to pressed, and the stored state becomes level != 0; agrees with Poll on one read |
| Button.Button.CountPresses | src/main.c:60-65 | the main loop's calls count exactly the events Poll predicts, and leave the state Poll predicts |
| Config.Globals.constructor | src/helpers/plantcare_config.c:6-13 | mode Test, no pending event, a 2000 ms period, sensors not ready |
| ModeNormal.FirstPendingTick | src/helpers/plantcare_mode_normal.c:19-28 | the first tick that finds the flag raised: before it no interrupt raised it, and at it the flag was already set or was just raised |
| ModeNormal.RunNormalMode | src/helpers/plantcare_mode_normal.c:12-33 | outside Normal mode the body never runs; ticks with the flag clear change nothing; the first tick with the flag set clears it, sets the mode to Test and exits, so the event is consumed once and a re-check does not switch again |
| ModeTest.EnterTestMode | src/helpers/plantcare_mode_test.c:16 | the sampling period becomes 2000 ms |
| ModeTest.RgbForColor | src/helpers/plantcare_mode_test.c:25-31 | Red, Green and Blue each light only their own channel and Unknown lights none, so at most one channel is on; the LED shows back the colour |
| ModeTest.DominantLabel | src/helpers/plantcare_mode_test.c:57-62 | the name follows the same case split: UNKNOWN exactly when the LED is dark, otherwise the colour's own name |
| ModeTest.LabelsDistinct | src/helpers/plantcare_mode_test.c:57-62 | different colours print different names |
| ModeTest.DecimalDigitsRoundTrip | src/helpers/plantcare_mode_test.c:46-48 | "%d" of a natural number reads back as that number |
| ModeTest.TwoDigitsRoundTrip | src/helpers/plantcare_mode_test.c:46-48 | "%02d" of 0..99 is exactly two digits that read back as the value |
| ModeTest.AsWrittenGarblesNegatives | src/helpers/plantcare_mode_test.c:46-53 | as written, -5 prints "0.-5" and -150 prints "-1.-50", and neither reads back as a number |
| ModeTest.FormatX100AsWritten | src/helpers/plantcare_mode_test.c:46-53 | `"%d.%02d"` of C's x / 100 and x % 100 reads back as x exactly when x >= 0 or x is a multiple of 100; every other negative value prints as no numeral at all |
| ModeTest.AsWrittenReadsBack | src/helpers/plantcare_mode_test.c:46-53 | the same read-back characterisation, for every int32 x, stated about the printed expression |
| ModeTest.FormatX100 | src/helpers/plantcare_mode_test.c:46-53 | the corrected printing of an x100 value always reads back as that value |
| ModeTest.FormatX100AgreesOnNonNegative | src/helpers/plantcare_mode_test.c:47-48 | for x >= 0 the corrected printing is exactly the printing as written |
| ModeTest.FormatReadings | src/helpers/plantcare_mode_test.c:46-53 | temperature, humidity and the three axes are printed in that order, as written; each reads back as its value when it is non-negative or a multiple of 100, and as no numeral otherwise |
| ModeTest.FormatReadingsCorrected | src/helpers/plantcare_mode_test.c:46-53 | the same five readings printed with the corrected FormatX100: every one reads back as its value |
| ModeTest.TestModeTick | src/helpers/plantcare_mode_test.c:22-32 | one loop pass: the snapshot is the latest published sample; the LED gets exactly the channel triple the switch gives for its dominant colour, so at most one channel is on; the printed name is that colour's; the readings are printed exactly as lines 46-53 print them (FormatReadings) |
| Bus.BigEndianWord | src/sensors/humidity_sensor.c:26 | hi * 256 + lo is a 16-bit word whose high byte is hi and low byte is lo |
| Bus.BigEndianWordInjective | src/sensors/humidity_sensor.c:26 | distinct byte pairs give distinct words |
| Humidity.ReadRaw | src/sensors/humidity_sensor.c:21-28 | fails with the bus's negative code exactly when the read fails; otherwise the word's bytes are buf[0] then buf[1] |
| Humidity.RhX100 | src/sensors/humidity_sensor.c:38 | floor(12500 * raw / 65536) - 600, in [-600, 11899] for any 16-bit raw |
| Humidity.TempX100 | src/sensors/humidity_sensor.c:43 | floor(17572 * raw / 65536) - 4685, in [-4685, 12886] for any 16-bit raw |
| Humidity.ProductsFitInt32 | src/sensors/humidity_sensor.c:38-43 | neither product overflows int32 |
| Humidity.RhMonotone | src/sensors/humidity_sensor.c:38 | humidity is monotone non-decreasing in raw |
| Humidity.TempMonotone | src/sensors/humidity_sensor.c:43 | temperature is monotone non-decreasing in raw |
| Humidity.HumiditySensorRead | src/sensors/humidity_sensor.c:30-45 | a failed humidity read returns its error and writes nothing; a failed temperature read returns its error with humidity written and temperature untouched; success returns 0 with both written |
| Accelerometer.DecodeAxis | src/sensors/accelerometer_sensor.c:39-41 | the arithmetic >> 2 of the int16 big-endian word: in [-8192, 8191], and 4 * raw plus the two dropped bits gives back the word |
| Accelerometer.DecodeEncode | src/sensors/accelerometer_sensor.c:39-41 | every 14-bit sample stored left-justified decodes back to itself |
| Accelerometer.ScaleG100 | src/sensors/accelerometer_sensor.c:43-45 | raw * 100 / 4096 truncated toward zero, in [-200, 199]; 4096 counts (1 g at +/-2 g) give 100 |
| Accelerometer.ScaleOdd | src/sensors/accelerometer_sensor.c:43 | f(-r) == -f(r) |
| Accelerometer.AccelerometerSensorRead | src/sensors/accelerometer_sensor.c:33-48 | a failed burst read returns its error and writes no axis; success returns 0, with x from bytes 0-1, y from bytes 2-3 and z from bytes 4-5 |

## Left out

- Concurrency of the two-slot store: torn reads, `volatile` and memory ordering. Only the sequential contract is modelled.
- State.StatePlane.GetSnapshot: proves one round only when no publish interleaves; retry termination under a concurrent writer is not modelled. `prior` stands for what the caller's `*dst` held before, because the loop always overwrites it.
- ModeNormal.RunNormalMode: covers a finite run of ticks. If no event arrives within it the mode is still Normal, because the real loop would go on waiting. Setting the flag is modelled by an input per tick: the interrupt handler that sets `g_button_pressed_event` is outside the modelled code, and `button_init` configures no interrupt (src/sensors/button.c:29-52).
- SensorThread.GpsLineBuffer.Update: the UART reader is a byte sequence that reports "no data" once exhausted. A reader that fails and later has data again is the same as a shorter sequence on the next call.
- The sensor thread's shell: the `g_sensors_ready` wait, the sleeps, the thread definition, and calling the soil, light and colour drivers, which are not part of this model.
- Boot and init code in `src/main.c`, `accelerometer_sensor_init`'s register writes and `humidity_sensor_init`: these are I/O with no logic to state.
- LED, UART, GPIO and I2C wrappers: the Zephyr calls become inputs or are dropped. The RGB LED is its three booleans.
- The floating-point soil and light percentages printed in Test mode, the GPS line printout, and `k_sleep` timing: these are output formatting and timing only.
- Test mode's `while (1)`: one pass is modelled by ModeTest.TestModeTick.
- CInt.CDiv: defined for positive divisors only, since every division in the core is by a positive constant or a checked positive span.
- Accelerometer.ScaleOdd: stated for [-8191, 8191], since -(-8192) is not a 14-bit sample.
- Hourly statistics and alarm colours do not exist in the code, so they are not modelled.
- Normal mode's own behaviour is still a TODO in the code (src/helpers/plantcare_mode_normal.c:7-11; the 30 s Normal period is marked "later" at src/helpers/sensor_thread.c:115). The model follows the code as it stands:
  - the Normal-mode period is not set;
  - Normal mode only switches to Test mode, and Test mode never polls the button.
- `DOM_COLOR_*` and the size of `gps_last_sentence` come from headers this model does not cover. Unknown is taken to be the zero value, so the zero sample reads as Unknown. The sentence size is a parameter of the model.

## Findings

| source | as written | input that shows it | evidently intended | confidence | as-written member | corrected member |
|---|---|---|---|---|---|---|
| src/helpers/plantcare_mode_test.c:46-53 | `"%d.%02d"` of `x / 100` and `x % 100` with C truncation prints a second minus sign in the fraction and loses the sign when the whole part is 0 | x = -5 prints "0.-5"; x = -150 prints "-1.-50" | the sign printed once in front of the magnitude: "-0.05", "-1.50" | high; not executed | ModeTest.AsWrittenGarblesNegatives | ModeTest.FormatX100, ModeTest.FormatReadingsCorrected |
