/**
  The bus side of bme280pi/readout.py: `read_raw_sensor`, which configures
  the sensor and reads the calibration and measurement blocks, and
  `read_sensor`, which decodes what it read.

  The I2C bus is a recording bus: it logs every command it receives, in
  order, and answers block reads from a fixed 256-register image of the
  device.  Writes are logged but do not change the image.
*/
module SensorBus {
  import opened PyInt
  import opened Wrappers
  import opened Readout

  /** One bus call as the recording bus logs it; the `force` argument is always None. */
  datatype Command =
    | Write(address: int, register: int, value: int)
    | Read(address: int, register: int, length: int)

  /** Humidity oversampling register (`reg_control_hum`). */
  const RegControlHum := 0xF2
  /** Temperature/pressure oversampling and mode register (`reg_control`). */
  const RegControl := 0xF4
  /** The three calibration blocks: start register and length. */
  const RegCalibration1 := 0x88
  const RegCalibration2 := 0xA1
  const RegCalibration3 := 0xE1
  /** Length of the measurement block. */
  const DataLength := 8

  /**
    The `length` registers from `register` on; the register address
    advances by one per byte and wraps around after 0xFF.
  */
  function Block(registers: seq<Byte>, register: int, length: nat): (r: seq<Byte>)
    requires |registers| == 256
    ensures |r| == length
    decreases length
  {
    if length == 0 then []
    else [registers[register % 256]] + Block(registers, register + 1, length - 1)
  }

  /** Byte `j` of a block is register `register + j`, modulo 256. */
  lemma {:induction false} BlockIndex(registers: seq<Byte>, register: int, length: nat, j: nat)
    requires |registers| == 256 && j < length
    ensures Block(registers, register, length)[j] == registers[(register + j) % 256]
    decreases j
  {
    if j > 0 {
      BlockIndex(registers, register + 1, length - 1, j - 1);
    }
  }

  /** A fake SMBus that records the commands it is sent. */
  class RecordingBus {
    /** The device's registers, as block reads return them. */
    const registers: seq<Byte>
    /** Every command received so far, oldest first. */
    var commands: seq<Command>

    constructor (registers: seq<Byte>)
      requires |registers| == 256
      ensures this.registers == registers
      ensures commands == []
    {
      this.registers := registers;
      commands := [];
    }

    /** `write_byte_data`: logged, nothing else changes. */
    method WriteByteData(address: int, register: int, value: int)
      modifies this
      ensures commands == old(commands) + [Write(address, register, value)]
    {
      commands := commands + [Write(address, register, value)];
    }

    /** `read_i2c_block_data`: logged, and answered from the register image. */
    method ReadI2cBlockData(address: int, register: int, length: nat) returns (block: seq<Byte>)
      requires |registers| == 256
      modifies this
      ensures block == Block(registers, register, length)
      ensures commands == old(commands) + [Read(address, register, length)]
    {
      block := Block(registers, register, length);
      commands := commands + [Read(address, register, length)];
    }
  }

  /**
    `(temperature << 5) | pressure << 2 | mode`: the value written to
    register 0xF4.  With a 3-bit pressure setting and a 2-bit mode the three
    fields do not overlap, so the ORs are sums.
  */
  function ControlByte(temperature: int, pressure: int, mode: int): (c: int)
    ensures 0 <= pressure < 8 && 0 <= mode < 4 ==> c == 32 * temperature + 4 * pressure + mode
  {
    Pow2Constants();
    if 0 <= pressure < 8 && 0 <= mode < 4 then
      OrDisjoint(temperature, 4 * pressure, 5);
      assert ShiftLeft(temperature, 5) + ShiftLeft(pressure, 2) == ShiftLeft(8 * temperature + pressure, 2);
      OrDisjoint(8 * temperature + pressure, mode, 2);
      BitOr(BitOr(ShiftLeft(temperature, 5), ShiftLeft(pressure, 2)), mode)
    else
      BitOr(BitOr(ShiftLeft(temperature, 5), ShiftLeft(pressure, 2)), mode)
  }

  /**
    With a 3-bit temperature setting as well, the control value is a byte
    from which all three settings can be read back.
  */
  lemma ControlByteDecode(temperature: int, pressure: int, mode: int)
    requires 0 <= temperature < 8 && 0 <= pressure < 8 && 0 <= mode < 4
    ensures var c := ControlByte(temperature, pressure, mode);
      && 0 <= c < 256
      && c / 32 == temperature && (c / 4) % 8 == pressure && c % 4 == mode
  {
    var c := 32 * temperature + 4 * pressure + mode;
    DivModUnique(c, 32, temperature, 4 * pressure + mode);
    DivModUnique(c, 4, 8 * temperature + pressure, mode);
    DivModUnique(8 * temperature + pressure, 8, temperature, pressure);
  }

  /** The settings 2, 2 and mode 1 give the control value 73 (0x49). */
  lemma ControlByteExample()
    ensures ControlByte(2, 2, 1) == 73
  {
  }

  // ---------------------------------------------------------------------
  // The settling wait

  /** The message of the ValueError `time.sleep` raises for a negative length. */
  const NegativeSleepMessage := "sleep length must be non-negative"

  /** Some key of a non-empty set of keys. */
  ghost function Pick(keys: set<string>): string
    requires keys != {}
  {
    var k :| k in keys; k
  }

  /** The sum of the values of `m` at `keys`. */
  ghost function SumOver(m: map<string, int>, keys: set<string>): int
    requires keys <= m.Keys
    decreases keys
  {
    if keys == {} then 0
    else
      var k := Pick(keys);
      m[k] + SumOver(m, keys - {k})
  }

  /** `sum(oversampling.values())`: the values of every key, settings or not. */
  ghost function ValueSum(m: map<string, int>): int
  {
    SumOver(m, m.Keys)
  }

  /** The sum does not depend on the order: any key may be taken out first. */
  lemma {:induction false} SumOverAny(m: map<string, int>, keys: set<string>, k: string)
    requires keys <= m.Keys && k in keys
    ensures SumOver(m, keys) == m[k] + SumOver(m, keys - {k})
    decreases keys
  {
    var j := Pick(keys);
    if j != k {
      SumOverAny(m, keys - {j}, k);
      SumOverAny(m, keys - {k}, j);
      assert keys - {j} - {k} == keys - {k} - {j};
    }
  }

  /** Non-negative values have a non-negative sum. */
  lemma {:induction false} SumOverNonNegative(m: map<string, int>, keys: set<string>)
    requires keys <= m.Keys && forall k :: k in keys ==> m[k] >= 0
    ensures SumOver(m, keys) >= 0
    decreases keys
  {
    if keys != {} {
      SumOverNonNegative(m, keys - {Pick(keys)});
    }
  }

  /** Python's `sum` over the dictionary's values, one key at a time. */
  method SumValues(m: map<string, int>) returns (total: int)
    ensures total == ValueSum(m)
  {
    total := 0;
    var rest := m.Keys;
    while rest != {}
      invariant rest <= m.Keys
      invariant total + SumOver(m, rest) == ValueSum(m)
      decreases rest
    {
      var k :| k in rest;
      SumOverAny(m, rest, k);
      total := total + m[k];
      rest := rest - {k};
    }
  }

  /**
    `time.sleep(wait_time / 1000)` raises ValueError when the wait time
    `2.4 + 2.3 * sum(oversampling.values())` is negative.  (A wait too long
    for its nanosecond conversion raises OverflowError instead; settings
    summing beyond about 4e12 in magnitude are outside this model.)
  */
  ghost predicate SleepFails(oversampling: map<string, int>)
  {
    2.4 + 2.3 * (ValueSum(oversampling) as real) < 0.0
  }

  /** For integer settings the wait is negative exactly when the values sum to -2 or less. */
  lemma SleepFailsBelow(oversampling: map<string, int>)
    ensures SleepFails(oversampling) <==> ValueSum(oversampling) <= -2
  {
    var s := ValueSum(oversampling) as real;
    if ValueSum(oversampling) <= -2 {
      assert s <= -2.0;
    } else {
      assert s >= -1.0;
    }
  }

  /** Settings that are all non-negative never give a negative wait time. */
  lemma NonNegativeSettings(oversampling: map<string, int>)
    requires forall k :: k in oversampling ==> oversampling[k] >= 0
    ensures !SleepFails(oversampling)
  {
    SumOverNonNegative(oversampling, oversampling.Keys);
  }

  // ---------------------------------------------------------------------
  // The register protocol

  /** All three oversampling settings are present. */
  predicate HasSettings(oversampling: map<string, int>)
  {
    "humidity" in oversampling && "temperature" in oversampling && "pressure" in oversampling
  }

  /** The exception `read_raw_sensor` raises for the first setting it misses. */
  function MissingSetting(oversampling: map<string, int>): PyError
    requires !HasSettings(oversampling)
  {
    if "humidity" !in oversampling then KeyError("humidity")
    else if "temperature" !in oversampling then KeyError("temperature")
    else KeyError("pressure")
  }

  /**
    The commands `read_raw_sensor` sends: nothing when the humidity setting
    is missing, only the humidity write when the temperature or pressure
    setting is missing, otherwise two writes and the three calibration
    reads, followed by the measurement read unless the sleep fails.
  */
  ghost function ReadTrace(address: int, oversampling: map<string, int>, mode: int, regData: int): (t: seq<Command>)
    ensures |t| == 0 || |t| == 1 || |t| == 5 || |t| == 6
    ensures forall c :: c in t ==> c.address == address
  {
    if "humidity" !in oversampling then
      []
    else if "temperature" !in oversampling || "pressure" !in oversampling then
      [Write(address, RegControlHum, oversampling["humidity"])]
    else
      var calibration :=
        [Write(address, RegControlHum, oversampling["humidity"])]
        + [Write(address, RegControl, ControlByte(oversampling["temperature"], oversampling["pressure"], mode))]
        + [Read(address, RegCalibration1, 24)]
        + [Read(address, RegCalibration2, 1)]
        + [Read(address, RegCalibration3, 7)];
      if SleepFails(oversampling) then calibration
      else calibration + [Read(address, regData, DataLength)]
  }

  /**
    The shape of the trace: six commands exactly when all settings are
    present and the sleep succeeds, five (no measurement read) when it
    fails; every write before every read, each to the same address; the
    first write sets the humidity oversampling, the second the control
    value, and the reads fetch 24, 1 and 7 bytes of calibration and then 8
    at `reg_data`.  Without the humidity setting the bus is never touched.
  */
  lemma TraceShape(address: int, oversampling: map<string, int>, mode: int, regData: int)
    ensures var t := ReadTrace(address, oversampling, mode, regData);
      && (HasSettings(oversampling) && !SleepFails(oversampling) <==> |t| == 6)
      && (HasSettings(oversampling) && SleepFails(oversampling) <==> |t| == 5)
      && ("humidity" !in oversampling <==> t == [])
      && (forall i, j :: 0 <= i < j < |t| && t[j].Write? ==> t[i].Write?)
      && (|t| >= 1 ==> t[0] == Write(address, 0xF2, oversampling["humidity"]))
      && (HasSettings(oversampling) ==>
            && t[1] == Write(address, 0xF4,
                             ControlByte(oversampling["temperature"], oversampling["pressure"], mode))
            && (forall k :: 2 <= k < |t| ==> t[k].Read?)
            && [t[2].length, t[3].length, t[4].length] == [24, 1, 7]
            && [t[2].register, t[3].register, t[4].register] == [0x88, 0xA1, 0xE1])
      && (|t| == 6 ==> t[5] == Read(address, regData, 8))
  {
    var t := ReadTrace(address, oversampling, mode, regData);
    if HasSettings(oversampling) {
      assert forall j :: 0 <= j < |t| && t[j].Write? ==> j < 2;
    }
  }

  /** The log after one more command: `sent + [c]`, with the regrouping of the appends proved. */
  ghost function Logged(before: seq<Command>, sent: seq<Command>, c: Command): (r: seq<Command>)
    ensures r == sent + [c]
    ensures (before + sent) + [c] == before + r
  {
    sent + [c]
  }

  /**
    `read_raw_sensor`: the humidity setting is looked up and written first,
    then the control value is built (temperature looked up before pressure)
    and written, then the three calibration blocks are read.  The wait time
    is computed from the sum of all oversampling values; a negative one
    makes the sleep raise ValueError before the measurement block is read.
    Otherwise the measurement block at `reg_data` is read and the four
    blocks are returned as read.
  */
  method ReadRawSensor(bus: RecordingBus, address: int, oversampling: map<string, int>,
                       mode: int, regData: int)
    returns (r: Result<(RawCalibration, seq<Byte>)>)
    requires |bus.registers| == 256
    modifies bus
    ensures bus.commands == old(bus.commands) + ReadTrace(address, oversampling, mode, regData)
    ensures r.Ok? <==> HasSettings(oversampling) && !SleepFails(oversampling)
    ensures r.Err? && !HasSettings(oversampling) ==> r.error == MissingSetting(oversampling)
    ensures r.Err? && HasSettings(oversampling) ==> r.error == ValueError(NegativeSleepMessage)
    ensures r.Ok? ==>
      r.value == (RawCalibration(Block(bus.registers, RegCalibration1, 24),
                                 Block(bus.registers, RegCalibration2, 1),
                                 Block(bus.registers, RegCalibration3, 7)),
                  Block(bus.registers, regData, DataLength))
  {
    ghost var before := bus.commands;
    if "humidity" !in oversampling {
      return Err(KeyError("humidity"));
    }
    bus.WriteByteData(address, RegControlHum, oversampling["humidity"]);
    ghost var sent := [Write(address, RegControlHum, oversampling["humidity"])];

    if "temperature" !in oversampling {
      return Err(KeyError("temperature"));
    }
    var control1 := ShiftLeft(oversampling["temperature"], 5);
    if "pressure" !in oversampling {
      return Err(KeyError("pressure"));
    }
    var control := BitOr(BitOr(control1, ShiftLeft(oversampling["pressure"], 2)), mode);
    bus.WriteByteData(address, RegControl, control);
    sent := Logged(before, sent, Write(address, RegControl, control));

    var cal1 := bus.ReadI2cBlockData(address, RegCalibration1, 24);
    sent := Logged(before, sent, Read(address, RegCalibration1, 24));
    var cal2 := bus.ReadI2cBlockData(address, RegCalibration2, 1);
    sent := Logged(before, sent, Read(address, RegCalibration2, 1));
    var cal3 := bus.ReadI2cBlockData(address, RegCalibration3, 7);
    sent := Logged(before, sent, Read(address, RegCalibration3, 7));

    var total := SumValues(oversampling);
    var waitTime := 2.4 + 2.3 * (total as real);
    if waitTime < 0.0 {
      assert sent == ReadTrace(address, oversampling, mode, regData);
      return Err(ValueError(NegativeSleepMessage));
    }

    var data := bus.ReadI2cBlockData(address, regData, DataLength);
    sent := Logged(before, sent, Read(address, regData, DataLength));
    assert sent == ReadTrace(address, oversampling, mode, regData);
    return Ok((RawCalibration(cal1, cal2, cal3), data));
  }

  /** Defaults of `read_sensor`: measurement block at 0xF7, forced mode, oversampling 2 for all three. */
  const DefaultRegData := 0xF7
  const DefaultMode := 1

  function DefaultOversampling(): map<string, int>
  {
    map["temperature" := 2, "pressure" := 2, "humidity" := 2]
  }

  /** The command sequence the driver's recording-bus test expects, for the defaults. */
  lemma DefaultTrace(address: int)
    ensures ReadTrace(address, DefaultOversampling(), DefaultMode, DefaultRegData) ==
            [Write(address, 242, 2),
             Write(address, 244, 73),
             Read(address, 136, 24),
             Read(address, 161, 1),
             Read(address, 225, 7),
             Read(address, 247, 8)]
  {
    var ov := DefaultOversampling();
    assert HasSettings(ov) && ov["humidity"] == 2 && ov["temperature"] == 2 && ov["pressure"] == 2;
    NonNegativeSettings(ov);
    ControlByteExample();
    SixCommands(Write(address, 242, 2), Write(address, 244, 73), Read(address, 136, 24),
                Read(address, 161, 1), Read(address, 225, 7), Read(address, 247, 8));
  }

  lemma SixCommands(a: Command, b: Command, c: Command, d: Command, e: Command, f: Command)
    ensures [a] + [b] + [c] + [d] + [e] + [f] == [a, b, c, d, e, f]
  {
  }

  /**
    What `read_sensor` computes from a register image: the decoded reading
    before scaling, with a relative humidity in [0, 100] and a temperature
    that is a whole number of hundredths of a degree.
  */
  function ReadingOf(registers: seq<Byte>, regData: int): (v: Reading)
    requires |registers| == 256
    ensures 0.0 <= v.humidity <= 100.0
    ensures v.temperature == v.temperature.Floor as real
  {
    var cal := RawCalibration(Block(registers, RegCalibration1, 24),
                              Block(registers, RegCalibration2, 1),
                              Block(registers, RegCalibration3, 7));
    var c := CoefficientsOf(cal);
    ExtractValues(Block(registers, regData, DataLength), c.digT, c.digP, c.digH)
  }

  /** `read_sensor`'s result dictionary: degrees Celsius, hectopascal, percent. */
  datatype SensorReading = SensorReading(temperature: real, pressure: real, humidity: real)

  /** Hundredths of a degree to degrees, hundredths of a hectopascal to hectopascal. */
  function Scaled(v: Reading): (s: SensorReading)
    ensures 100.0 * s.temperature == v.temperature && 100.0 * s.pressure == v.pressure
    ensures s.humidity == v.humidity
  {
    SensorReading(v.temperature / 100.0, v.pressure / 100.0, v.humidity)
  }

  /**
    `read_sensor`: read, derive the coefficients, decode, and scale
    temperature and pressure down by 100.  A missing oversampling setting
    raises KeyError, and a negative wait time ValueError, after the commands
    sent so far.
  */
  method ReadSensor(bus: RecordingBus, address: int, regData: int, mode: int,
                    oversampling: map<string, int>)
    returns (r: Result<SensorReading>)
    requires |bus.registers| == 256
    modifies bus
    ensures bus.commands == old(bus.commands) + ReadTrace(address, oversampling, mode, regData)
    ensures r.Ok? <==> HasSettings(oversampling) && !SleepFails(oversampling)
    ensures r.Err? && !HasSettings(oversampling) ==> r.error == MissingSetting(oversampling)
    ensures r.Err? && HasSettings(oversampling) ==> r.error == ValueError(NegativeSleepMessage)
    ensures r.Ok? ==> r.value == Scaled(ReadingOf(bus.registers, regData))
  {
    var raw := ReadRawSensor(bus, address, oversampling, mode, regData);
    if raw.Err? {
      return Err(raw.error);
    }
    var (cal, data) := raw.value;
    var coefficients := ProcessCalibrationData(cal);
    var c := coefficients.value;
    var values := ExtractValues(data, c.digT, c.digP, c.digH);
    assert values == ReadingOf(bus.registers, regData);
    return Ok(Scaled(values));
  }

  /**
    Humidity and temperature at -1 and pressure at 0: the wait time is
    -2.2 ms, so the sleep raises after the three calibration reads and the
    measurement is never read.
  */
  lemma NegativeWaitTrace(address: int)
    ensures var ov := map["humidity" := -1, "temperature" := -1, "pressure" := 0];
      && SleepFails(ov)
      && |ReadTrace(address, ov, DefaultMode, DefaultRegData)| == 5
  {
    var ov := map["humidity" := -1, "temperature" := -1, "pressure" := 0];
    assert ov.Keys == {"humidity", "temperature", "pressure"};
    SumOverAny(ov, ov.Keys, "humidity");
    assert ov.Keys - {"humidity"} == {"temperature", "pressure"};
    SumOverAny(ov, {"temperature", "pressure"}, "temperature");
    assert {"temperature", "pressure"} - {"temperature"} == {"pressure"};
    SumOverAny(ov, {"pressure"}, "pressure");
    assert {"pressure"} - {"pressure"} == {};
    assert ValueSum(ov) == -2;
    SleepFailsBelow(ov);
  }
}
