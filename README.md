# bme280pi in Dafny

A model of the core of `bme280pi`, a Python driver for the Bosch BME280
temperature/pressure/humidity sensor on a Raspberry Pi, with proofs of what
its functions promise.

- `wrappers.dfy` (module `Wrappers`): results and the Python exceptions the
  code raises (`IndexError`, `KeyError`, `ValueError`, bare `Exception`).
- `pyint.dfy` (module `PyInt`): Python's `<<`, `>>`, `&` and `|` on unbounded
  integers (infinite two's complement, `>>` as floor division), with the
  bit-field lemmas the decoder needs (a mask keeps the low bits; OR of
  non-overlapping fields is addition).
- `readout.dfy` (module `Readout`): `bme280pi/readout.py` without the bus —
  the byte-field readers, `get_modified`, `process_calibration_data` (its
  `dig_p` loop as the method `ReadPressureCoefficients`), `extract_raw_values`,
  the integer temperature compensation, and the pressure and humidity
  formulas over `real`.
- `sensor_bus.dfy` (module `SensorBus`): `read_raw_sensor` and `read_sensor`
  against a recording bus, a class modelled on the test suite's
  `FakeRecordingBus`. It logs every command in order and answers block reads
  from a fixed 256-register image of the device.
- `raspberry_pi_version.dfy` (module `RaspberryPiVersion`): the revision table
  and `detect_raspberry_pi_version` over the lines of `/proc/cpuinfo` (or
  `None` when the file is missing). It includes Python's `find`, `rstrip`,
  `replace(" ", "")` and `split(":")` on strings.
- `physics.dfy` (module `Physics`): the range validators, `pressure_function`,
  `convert_pressure` and `convert_temperature` over `real`.

Behaviour of the code worth knowing:

- `read_raw_sensor` looks up `oversampling['humidity']` and writes register
  0xF2 before it looks up `temperature` and `pressure`. A missing temperature
  or pressure setting therefore raises `KeyError` after one bus write; only a
  missing humidity setting fails before any bus traffic.
- `read_raw_sensor` has no default for `mode`. The command sequence the
  recording-bus test expects (control value 73) is the one for mode 1, the
  default of `read_sensor`. `SensorBus.DefaultTrace` states it for that mode.
- `dig_p[0]` is read unsigned and `dig_p[1..8]` signed, as the loop at
  `readout.py:103-106` does.
- The settling wait `2.4 + 2.3 * sum(oversampling.values())` sums every value
  of the dictionary, so a sum of -2 or less (but not so far below that the
  wait overflows, see "## Left out") makes `time.sleep` raise
  `ValueError` after the two writes and the three calibration reads, before
  the measurement is read. `SensorBus.ReadRawSensor` returns that error and
  logs those five commands.

## Model

| member | source | states |
|---|---|---|
| Readout.CShortFields | bme280pi/readout.py:19 | `c_short` gives a value in [-32768, 32767] that is congruent to its argument modulo 2^16, and leaves a value already in that range unchanged |
| Readout.UnsignedShort | bme280pi/readout.py:22-26 | `get_unsigned_short` is the little-endian value `data[i] + 256*data[i+1]`, in [0, 65535] |
| Readout.Short | bme280pi/readout.py:15-19 | `get_short` equals the unsigned reading up to 32767 and is 65536 less above, so it is negative exactly when the high byte exceeds 127 |
| Readout.Character | bme280pi/readout.py:29-36 | `get_character` lies in [-128, 127], is congruent to the byte modulo 256, and is negative exactly when the byte exceeds 127 |
| Readout.UnsignedCharacter | bme280pi/readout.py:39-44 | `get_unsigned_character` (`& 0xFF`) gives the byte back unchanged |
| Readout.ByteReaderExamples | test/readout.py:37-60 | on [129, 1, 0, 16, 44, 3, 30] the readers give 385, 385, -127 and 129 |
| Readout.GetModified | bme280pi/readout.py:79-88 | `get_modified` is 16 times the signed byte `i` plus the high (shift) or low nibble of byte 4, whichever char reader is passed, and fits a signed 12-bit field |
| Readout.ShiftedOr | bme280pi/readout.py:85-88 | `(c << 24) >> 20` OR-ed with a nibble is `16*c` plus the nibble |
| Readout.SharedNibble | bme280pi/readout.py:87-88 | the nibble taken from the shared byte 4 is its high half when shifting and its low half otherwise, with either char reader |
| Readout.TemperatureCoefficients | bme280pi/readout.py:96-98 | `dig_t` has three entries: an unsigned 16-bit value and two signed 16-bit values |
| Readout.PressureCoefficients | bme280pi/readout.py:100-107 | `dig_p` has nine entries and entry `k` is the short at offset 6+2k of block 1, unsigned for `k == 0` and signed otherwise |
| Readout.PressureValue | bme280pi/readout.py:100-107 | pressure coefficient `k` as a number from its two bytes, 65536 subtracted only for a signed entry whose high byte exceeds 127 |
| Readout.ReadPressureCoefficients | bme280pi/readout.py:100-107 | the `dig_p` loop (offsets 6, 8, …, 22, appending each value) produces exactly the nine coefficients |
| Readout.HumidityCoefficients | bme280pi/readout.py:109-115 | `dig_h` has six entries: H1 and H3 unsigned bytes, H2 a signed 16-bit value, H4 and H5 signed 12-bit values, H6 a signed byte |
| Readout.CoefficientsOf | bme280pi/readout.py:91-117 | well-sized blocks give 3, 9 and 6 coefficients, the lengths the compensation formulas index |
| Readout.ProcessCalibrationData | bme280pi/readout.py:91-117 | succeeds exactly when every fixed offset lies inside its block (IndexError otherwise) and then returns `dig_t`, `dig_p` and `dig_h` as defined field by field |
| Readout.ReferenceTemperatureCoefficients | test/readout.py:116-137 | the reference block gives `dig_t = [28256, 26827, 50]` |
| Readout.ReferencePressureCoefficients | test/readout.py:116-137 | the reference block gives `dig_p = [37149, -10437, 3024, 9960, -214, -7, 9900, -10230, 4285]` |
| Readout.ReferenceHumidityCoefficients | test/readout.py:105-137 | the reference blocks give `dig_h = [75, 385, 0, 268, 50, 30]` (268 and 50 from `get_modified`) |
| Readout.ReferenceCoefficients | test/readout.py:116-137 | all three coefficient lists of the reference calibration |
| Readout.ExtractRawValues | bme280pi/readout.py:120-128 | raw pressure and temperature are `4096*hi + 16*mid + lo/16` of bytes 0..2 and 3..5, below 2^20; raw humidity is `256*b6 + b7`, below 2^16 |
| Readout.Pack20 | bme280pi/readout.py:124-125 | `(hi << 12) \| (mid << 4) \| (lo >> 4)` is `4096*hi + 16*mid + lo/16`, below 2^20 |
| Readout.RawValuesExample | test/readout.py:140-146 | the test block gives (312256, 529176, 24174) |
| Readout.ImproveTemperature | bme280pi/readout.py:131-140 | the reported temperature is `5*t_fine/256` rounded to the nearest integer, halves upwards |
| Readout.TemperatureExample | test/readout.py:149-155 | raw 529168 with the reference `dig_t` gives temperature 2465 and `t_fine` 126213 |
| Readout.ImprovePressure | bme280pi/readout.py:143-165 | the pressure is 0 whenever the divisor `var1` vanishes: when `dig_p[0] == 0` or the correction term is exactly -32768 |
| Readout.HumidityFormula | bme280pi/readout.py:168-178 | H2 scales the whole product, so the unclamped humidity is 0 when `dig_h[1] == 0` |
| Readout.Clamp | bme280pi/readout.py:179 | `max(0, min(h, 100))` lies in [0, 100], is `h` inside that range and the nearer bound outside it |
| Readout.ImproveHumidity | bme280pi/readout.py:168-180 | the humidity lies in [0, 100] and is the formula's value or one of the bounds |
| Readout.ExtractValues | bme280pi/readout.py:183-195 | the humidity lies in [0, 100] and the pressure is 0 when `dig_p[0] == 0` |
| Readout.SharedFineTemperature | bme280pi/readout.py:183-195 | the raw temperature reaches pressure and humidity only through `t_fine`: two blocks with equal pressure bytes, equal humidity bytes and temperature bytes giving the same `t_fine` decode to the same reading |
| SensorBus.RecordingBus.constructor | test/readout.py:21-25 | a new bus has an empty command log |
| SensorBus.RecordingBus.WriteByteData | test/readout.py:27-29 | a write appends exactly one write command to the log |
| SensorBus.RecordingBus.ReadI2cBlockData | test/readout.py:31-34 | a read appends exactly one read command and returns `length` consecutive registers |
| SensorBus.ControlByte | bme280pi/readout.py:56-57 | with a 3-bit pressure setting and a 2-bit mode the control value is `32*t + 4*p + mode` |
| SensorBus.ControlByteDecode | bme280pi/readout.py:56-57 | with 3-bit settings the control value is a byte from which temperature, pressure and mode are recovered |
| SensorBus.ControlByteExample | test/readout.py:77-78 | settings 2, 2 and mode 1 give 73 |
| SensorBus.SumOverAny | bme280pi/readout.py:68 | the sum of a dictionary's values does not depend on the order the keys are taken in |
| SensorBus.SumValues | bme280pi/readout.py:68 | `sum(oversampling.values())`, one key at a time, is the sum of all the dictionary's values |
| SensorBus.SleepFailsBelow | bme280pi/readout.py:68-71 | the wait time `2.4 + 2.3*sum` is negative, the case in which `time.sleep` raises ValueError, exactly when the values sum to -2 or less |
| SensorBus.NonNegativeSettings | bme280pi/readout.py:68-71 | non-negative settings never give a negative wait time |
| SensorBus.ReadTrace | bme280pi/readout.py:47-76 | the commands sent have 0, 1, 5 or 6 entries, all to the one address |
| SensorBus.TraceShape | bme280pi/readout.py:47-76 | six commands exactly when all settings exist and the sleep succeeds, five when it raises, none when humidity is missing; one address throughout; all writes before all reads; 0xF2 then 0xF4 written; reads of 24, 1, 7 and 8 bytes at 0x88, 0xA1, 0xE1 and `reg_data` |
| SensorBus.ReadRawSensor | bme280pi/readout.py:47-76 | the log grows by exactly the trace; the result is Ok iff all settings exist and the sleep succeeds; otherwise the KeyError of the first missing setting in lookup order, or the ValueError of the negative sleep; on success the four blocks are returned as read |
| SensorBus.NegativeWaitTrace | bme280pi/readout.py:68-71 | settings -1, -1 and 0 give a negative wait, and only the two writes and three calibration reads are sent |
| SensorBus.DefaultTrace | test/readout.py:63-95 | with the default settings the trace is the six commands the recording-bus test expects |
| SensorBus.ReadingOf | bme280pi/readout.py:198-222 | a decoded reading has humidity in [0, 100] and a whole number of hundredths of a degree |
| SensorBus.Scaled | bme280pi/readout.py:220-222 | temperature and pressure are divided by 100, humidity is unchanged |
| SensorBus.ReadSensor | bme280pi/readout.py:198-222 | the same trace and errors as `read_raw_sensor`; on success the decoded reading of the register image, scaled |
| RaspberryPiVersion.KnownRevisions | bme280pi/raspberry_pi_version.py:10-39 | the table lists "0000", the code detection starts from, as "Unknown" |
| RaspberryPiVersion.Lookup | bme280pi/raspberry_pi_version.py:61-64 | a known revision gives its table entry, any other gives "Unknown" |
| RaspberryPiVersion.LookupInTable | bme280pi/raspberry_pi_version.py:15-64 | every lookup answers a model name that is a value of the table; "0000" gives "Unknown" |
| RaspberryPiVersion.TableEntries | bme280pi/raspberry_pi_version.py:15-38 | '0002' is "Model B R1", 'c03111' is "Pi 4 Model B", '0000' and an unlisted code are "Unknown" |
| RaspberryPiVersion.UnknownOnlyForPlaceholder | bme280pi/raspberry_pi_version.py:15-38 | "0000" is the only code listed as "Unknown" |
| RaspberryPiVersion.TableCodesAreTokens | bme280pi/raspberry_pi_version.py:15-38 | every code in the table is non-empty, without ':' or spaces, and does not end in whitespace |
| RaspberryPiVersion.FindFrom | bme280pi/raspberry_pi_version.py:54 | `find` answers the first index at or after the start where the text occurs, or -1 when it occurs nowhere |
| RaspberryPiVersion.FindSpec | bme280pi/raspberry_pi_version.py:54 | `find(sub) >= 0` exactly when `sub` occurs, and then at the lowest such index |
| RaspberryPiVersion.RStrip | bme280pi/raspberry_pi_version.py:55 | `rstrip` keeps a prefix, removes only whitespace, and leaves no trailing whitespace |
| RaspberryPiVersion.DeleteSpaces | bme280pi/raspberry_pi_version.py:55 | `replace(" ", "")` leaves no space and keeps every other character with its multiplicity |
| RaspberryPiVersion.DeleteSpacesAppend | bme280pi/raspberry_pi_version.py:55 | deleting spaces from `a + b` is deleting them from `a` and from `b`, so the remaining characters keep their order |
| RaspberryPiVersion.DeleteSpacesChar | bme280pi/raspberry_pi_version.py:55 | a single space is deleted and any other single character kept |
| RaspberryPiVersion.DeleteSpacesNone | bme280pi/raspberry_pi_version.py:55 | a string without spaces is unchanged |
| RaspberryPiVersion.Split | bme280pi/raspberry_pi_version.py:55 | `split(":")` gives at least one field and no field contains the separator |
| RaspberryPiVersion.JoinSplit | bme280pi/raspberry_pi_version.py:55 | joining the fields with the separator gives the string back |
| RaspberryPiVersion.SplitHasSecond | bme280pi/raspberry_pi_version.py:55 | there is a field `[1]` exactly when the separator occurs |
| RaspberryPiVersion.SplitTwo | bme280pi/raspberry_pi_version.py:55 | `a + ":" + b` splits into `[a, b]` when neither part contains ':' |
| RaspberryPiVersion.SplitNone | bme280pi/raspberry_pi_version.py:55 | a string without the separator is one field |
| RaspberryPiVersion.SplitExcludes | bme280pi/raspberry_pi_version.py:55 | a character absent from the string is absent from every field |
| RaspberryPiVersion.RevisionOfLine | bme280pi/raspberry_pi_version.py:55 | IndexError exactly when the stripped, space-free line has no ':'; otherwise a revision without ':' or spaces |
| RaspberryPiVersion.ScanRevision | bme280pi/raspberry_pi_version.py:53-55 | the scan fails only with IndexError, and its revision is the initial one or the field of some line containing "Revision" |
| RaspberryPiVersion.ScanAppend | bme280pi/raspberry_pi_version.py:53-55 | scanning `a + b` is scanning `a` and continuing with `b` from the revision reached, an error stopping the scan |
| RaspberryPiVersion.ScanNoMatch | bme280pi/raspberry_pi_version.py:53-55 | lines without "Revision" leave the revision unchanged |
| RaspberryPiVersion.LastMatchWins | bme280pi/raspberry_pi_version.py:53-55 | the last line containing "Revision" decides the result |
| RaspberryPiVersion.DetectedModel | bme280pi/raspberry_pi_version.py:42-64 | a missing file gives "Unknown"; every successful detection names a model from the table; the only failure is IndexError |
| RaspberryPiVersion.DetectRaspberryPiVersion | bme280pi/raspberry_pi_version.py:42-64 | the loop overwriting `revision` line by line and the final lookup compute the detected model |
| RaspberryPiVersion.NoRevisionLine | bme280pi/raspberry_pi_version.py:49-64 | a file without a "Revision" line gives "Unknown" |
| RaspberryPiVersion.TestFile | test/raspberry_pi_version.py:11-21 | the file "\nRevision:<code>\n" detects the lookup of the code for any single-token code (so "bad_id" gives "Unknown") |
| RaspberryPiVersion.TestFileForTable | test/raspberry_pi_version.py:11-21 | for every code in the table, that file detects the code's model |
| Physics.ValidatePressure | bme280pi/physics.py:28-29 | passes exactly for 0 < p <= 1100; otherwise ValueError "Pressure must be between 0 and 1100" |
| Physics.ValidateTemperature | bme280pi/physics.py:45-46 | passes exactly for -100 <= t <= 100; otherwise ValueError "Temperature must be between -100 and +100" |
| Physics.ValidateHumidity | bme280pi/physics.py:60-61 | passes exactly for 0 <= h <= 100; otherwise ValueError "Rel. humidity must be between 0 and 100" |
| Physics.ValidationExamples | test/physics.py:11-33 | the bounds pass and -1, 1200, -111, 111, 123 are rejected |
| Physics.Enhancement | bme280pi/physics.py:74 | `1.0016 + 3.16e-6*p - 0.074/p` lies strictly between 1 and 1.00501 for 100 <= p <= 1100 |
| Physics.PressureFunction | bme280pi/physics.py:73-74 | fails exactly on an invalid pressure, with its ValueError; otherwise the enhancement factor, the division reached only for p > 0 |
| Physics.PressureFunctionMonotone | bme280pi/physics.py:73-74 | over the valid range the factor increases with the pressure and stays below 1.00501 |
| Physics.PressureFunctionExamples | test/physics.py:36-57 | f(100) = 1.001176, f(1000) = 1.004686; 0 and 1111 are rejected |
| Physics.PressureFactors | bme280pi/physics.py:138-142 | every conversion factor is positive, and the factor of hPa is 1 |
| Physics.ConvertPressure | bme280pi/physics.py:136-147 | Ok exactly for a valid pressure and a listed unit; an invalid pressure gives ValueError before the unit is looked at; an unknown unit gives "Unknown pressure unit: " + unit |
| Physics.ConvertPressureInverse | bme280pi/physics.py:138-145 | dividing the converted value by the unit's factor gives the pressure back; the value is positive and at most 1100 times the factor |
| Physics.ConvertPressureExamples | test/physics.py:130-156 | 1000 hPa is 1000 hPa, 100000 Pa, 100 kPa and 750.062 mmHg; -123 and 1234 rejected; 'UnknownUnit' raises |
| Physics.ConvertTemperature | bme280pi/physics.py:164-175 | Ok exactly for a valid temperature and unit C, F or K; invalid temperature first gives ValueError; any other unit "Unknown temperature unit: " + unit |
| Physics.ConvertTemperatureInverse | bme280pi/physics.py:164-175 | each conversion is undone by the inverse formula back to Celsius |
| Physics.TemperatureScalesAgree | bme280pi/physics.py:164-175 | the kelvin value equals the Fahrenheit value taken back to Celsius plus 273.15; Fahrenheit increases with Celsius; kelvin values are at least 173.15 |
| Physics.ConvertTemperatureExamples | test/physics.py:159-183 | -40 C is -40 F, 20 C is 293.15 K, 12.34 C is unchanged; -123 and 123 rejected; 'UnknownUnit' raises |

## Left out

- The settling sleep in `read_raw_sensor`: its duration is not modelled (the model has no clock); only the `ValueError` it raises for a negative wait time is.
- SensorBus.ReadRawSensor: the settings are taken to sum to less than about 4e12 in magnitude. Beyond that the wait time does not fit `time.sleep`'s 64-bit nanosecond conversion and Python raises `OverflowError` after the five commands before the measurement read; the model instead returns Ok with six commands (large positive sums) or `ValueError` (large negative sums).
- SensorBus.ReadSensor: inherits the same `OverflowError` gap for settings summing beyond about 4e12 in magnitude.
- Non-integer oversampling values: settings are integers, so float settings (for which the sleep raises once the sum is below -2.4/2.3) are not covered.
- The `force` argument of the bus calls: it is never passed, so the log does not carry it.
- The device itself: block reads are answered from a fixed register image whose register address wraps after 0xFF, and writes do not change the image. Addresses and `reg_data` are plain integers.
- Readout.ImprovePressure: stated over `real`; the bit-exact IEEE double results of the formula and of the `/100.0` scaling are not modelled, and only the division guard is proved about it.
- Readout.ImproveHumidity: stated over `real`; only the clamp into [0, 100] is proved, not the bit-exact double result.
- Physics.ValidatePressure, Physics.ValidateTemperature, Physics.ValidateHumidity and the conversions: Python floats are modelled as reals, so NaN (which all three Python validators accept, every comparison with it being false, after which `pressure_function` and the conversions return NaN), infinities and the rounding of the conversion products are not represented.
- `calculate_abs_humidity` and `round_to_n_significant_digits`: they need `exp`, `log10` and float rounding.
- `bme280pi/sensor.py`: the `Sensor` class only opens the bus, reads the chip id, prints and delegates to the modelled functions.
- Opening, reading and closing `/proc/cpuinfo` and the warning on a missing file: the file is given as its lines, or `None` when it does not exist.
- Python `TypeError`s for arguments of the wrong type (a string or an int as oversampling, a string pressure): Dafny's types rule these inputs out.
- The default arguments of `convert_pressure` ('hPa') and `convert_temperature` ('C'): the unit is always passed.
- RaspberryPiVersion.KnownRevisions: the table's 24 entries are written out, but pairwise distinctness of the 24 codes is not proved.
- Readout.ProcessCalibrationData: a block too short for one of the fixed offsets is reported as IndexError before anything is read, where Python raises it at the first offending read; the outcome is the same.
