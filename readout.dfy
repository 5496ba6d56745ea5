/**
  Decoding of the BME280's raw register contents (bme280pi/readout.py):
  the byte-field readers, the calibration coefficients, the 8-byte
  measurement block and the compensation formulas that turn raw ADC counts
  into temperature, pressure and humidity.

  Integers are Python's unbounded integers (module PyInt supplies `<<`,
  `>>`, `&` and `|`); the floating-point pressure and humidity formulas are
  stated over `real`.
*/
module Readout {
  import opened PyInt
  import opened Wrappers

  /** One register value as the bus returns it. */
  type Byte = b: int | 0 <= b < 256

  // ---------------------------------------------------------------------
  // Byte extraction

  /** ctypes `c_short(v).value`: the low 16 bits of `v` read as two's complement. */
  function CShort(v: int): int
  {
    (v + 32768) % 65536 - 32768
  }

  /**
    `c_short` yields a signed 16-bit value congruent to its argument modulo
    2^16, and leaves a value already in the signed 16-bit range unchanged.
  */
  lemma CShortFields(v: int)
    ensures -32768 <= CShort(v) <= 32767
    ensures (v - CShort(v)) % 65536 == 0
    ensures -32768 <= v <= 32767 ==> CShort(v) == v
  {
    var r := CShort(v);
    DivModUnique(v - r, 65536, (v + 32768) / 65536, 0);
    if -32768 <= v <= 32767 {
      DivModUnique(v + 32768, 65536, 0, v + 32768);
    }
  }

  /**
    `get_unsigned_short`: bytes `index` (low) and `index + 1` (high) as a
    little-endian value in [0, 65535].
  */
  function UnsignedShort(data: seq<Byte>, index: nat): (r: int)
    requires index + 1 < |data|
    ensures r == data[index] as int + 256 * (data[index + 1] as int)
    ensures 0 <= r <= 65535
  {
    Pow2Constants();
    ShiftLeft(data[index + 1], 8) + data[index]
  }

  /**
    `get_short`: the same two bytes read as a signed 16-bit value: equal to
    the unsigned reading up to 32767 and 65536 less above, so negative
    exactly when the high byte exceeds 127.
  */
  function Short(data: seq<Byte>, index: nat): (r: int)
    requires index + 1 < |data|
    ensures r == if UnsignedShort(data, index) <= 32767 then UnsignedShort(data, index)
                 else UnsignedShort(data, index) - 65536
    ensures r < 0 <==> data[index + 1] > 127
  {
    Pow2Constants();
    var u := UnsignedShort(data, index);
    if u <= 32767 then
      DivModUnique(u + 32768, 65536, 0, u + 32768);
      CShort(ShiftLeft(data[index + 1], 8) + data[index])
    else
      DivModUnique(u + 32768, 65536, 1, u - 32768);
      CShort(ShiftLeft(data[index + 1], 8) + data[index])
  }

  /**
    `get_character`: one byte read as a signed char, in [-128, 127] and
    congruent to the byte modulo 256.
  */
  function Character(data: seq<Byte>, index: nat): (r: int)
    requires index < |data|
    ensures -128 <= r <= 127
    ensures (r - data[index]) % 256 == 0
    ensures r < 0 <==> data[index] > 127
  {
    var result: int := data[index];
    if result > 127 then result - 256 else result
  }

  /** `get_unsigned_character`: the mask with 0xFF leaves a byte as it is. */
  function UnsignedCharacter(data: seq<Byte>, index: nat): (r: int)
    requires index < |data|
    ensures r == data[index]
  {
    Pow2Constants();
    AndLowMask(data[index], 8);
    DivModUnique(data[index], 256, 0, data[index]);
    BitAnd(data[index], 0xFF)
  }

  /** The readers on the buffer [129, 1, 0, 16, 44, 3, 30]. */
  lemma ByteReaderExamples(data: seq<Byte>)
    requires data == [129, 1, 0, 16, 44, 3, 30]
    ensures Short(data, 0) == 385
    ensures UnsignedShort(data, 0) == 385
    ensures Character(data, 0) == -127
    ensures UnsignedCharacter(data, 0) == 129
  {
    assert data[0] == 129 && data[1] == 1;
  }

  // ---------------------------------------------------------------------
  // Calibration coefficients

  /** The three calibration blocks read at 0x88 (24 bytes), 0xA1 (1) and 0xE1 (7). */
  datatype RawCalibration = RawCalibration(cal1: seq<Byte>, cal2: seq<Byte>, cal3: seq<Byte>)

  /** `dig_t`, `dig_p` and `dig_h`. */
  datatype Coefficients = Coefficients(digT: seq<int>, digP: seq<int>, digH: seq<int>)

  /** Every offset the decoding reads lies inside its block. */
  predicate WellSized(cal: RawCalibration)
  {
    |cal.cal1| >= 24 && |cal.cal2| >= 1 && |cal.cal3| >= 7
  }

  /** The char reader passed to `get_modified`. */
  datatype CharReader = SignedChar | UnsignedChar

  function ReadChar(reader: CharReader, data: seq<Byte>, index: nat): int
    requires index < |data|
  {
    match reader
    case SignedChar => Character(data, index)
    case UnsignedChar => UnsignedCharacter(data, index)
  }

  /**
    `get_modified`: a signed byte of block 3 shifted into bits 4..11, with a
    nibble of the shared byte 4 of block 3 below it.  The result is 16 times
    the signed byte `i` plus the high (shift) or low nibble of byte 4, the
    same for either char reader, and fits a signed 12-bit field.
  */
  function GetModified(cal: RawCalibration, i: nat, reader: CharReader, shift: bool): (r: int)
    requires i < |cal.cal3| && 4 < |cal.cal3|
    ensures r == 16 * Character(cal.cal3, i) + (if shift then cal.cal3[4] / 16 else cal.cal3[4] % 16)
    ensures -2048 <= r <= 2047
  {
    var dig := ShiftRight(ShiftLeft(Character(cal.cal3, i), 24), 20);
    SharedNibble(cal.cal3, reader, shift);
    ShiftedOr(Character(cal.cal3, i), if shift then cal.cal3[4] / 16 else cal.cal3[4] % 16);
    if shift then
      BitOr(dig, BitAnd(ShiftRight(ReadChar(reader, cal.cal3, 4), 4), 0x0F))
    else
      BitOr(dig, BitAnd(ReadChar(reader, cal.cal3, 4), 0x0F))
  }

  /** `(c << 24) >> 20 | n` with a nibble `n` puts `c` above the nibble: `16 * c + n`. */
  lemma ShiftedOr(c: int, n: int)
    requires 0 <= n < 16
    ensures BitOr(ShiftRight(ShiftLeft(c, 24), 20), n) == 16 * c + n
  {
    Pow2Constants();
    ShiftLeftThenRight(c, 20, 4);
    OrDisjoint(c, n, 4);
  }

  /**
    The nibble `get_modified` takes from the shared byte 4: its high half
    when shifting, its low half otherwise, whichever char reader is used.
  */
  lemma SharedNibble(data: seq<Byte>, reader: CharReader, shift: bool)
    requires 4 < |data|
    ensures (if shift then BitAnd(ShiftRight(ReadChar(reader, data, 4), 4), 0x0F)
             else BitAnd(ReadChar(reader, data, 4), 0x0F))
            == (if shift then data[4] / 16 else data[4] % 16)
  {
    Pow2Constants();
    var b: int := data[4];
    var raw := ReadChar(reader, data, 4);
    var s := if raw == b then 0 else 1;
    assert raw == b - 256 * s;
    DivModUnique(raw, 16, b / 16 - 16 * s, b % 16);
    if shift {
      AndLowMask(ShiftRight(raw, 4), 4);
      DivModUnique(b / 16 - 16 * s, 16, -s, b / 16);
    } else {
      AndLowMask(raw, 4);
    }
  }

  /**
    `dig_t`: an unsigned and two signed shorts at offsets 0, 2 and 4 of
    block 1.
  */
  function TemperatureCoefficients(cal1: seq<Byte>): (r: seq<int>)
    requires |cal1| >= 24
    ensures |r| == 3 && 0 <= r[0] <= 65535
    ensures -32768 <= r[1] <= 32767 && -32768 <= r[2] <= 32767
  {
    [UnsignedShort(cal1, 0), Short(cal1, 2), Short(cal1, 4)]
  }

  /**
    Pressure coefficient `k` (`dig_P(k+1)` of the data sheet): the
    little-endian short at offset `6 + 2k` of block 1, read unsigned for
    `k == 0` and signed otherwise.
  */
  function PressureCoefficient(cal1: seq<Byte>, k: nat): int
    requires |cal1| >= 24 && k < 9
  {
    if k == 0 then UnsignedShort(cal1, 6) else Short(cal1, 6 + 2 * k)
  }

  /** Pressure coefficients `k`, `k + 1`, ..., 8, in order. */
  function PressureFrom(cal1: seq<Byte>, k: nat): seq<int>
    requires |cal1| >= 24 && k <= 9
    decreases 9 - k
  {
    if k == 9 then [] else [PressureCoefficient(cal1, k)] + PressureFrom(cal1, k + 1)
  }

  /**
    `dig_p`: nine coefficients, coefficient `k` the little-endian short at
    offset `6 + 2k` of block 1, read unsigned for `k == 0` and signed
    otherwise.
  */
  function PressureCoefficients(cal1: seq<Byte>): (r: seq<int>)
    requires |cal1| >= 24
    ensures |r| == 9
    ensures forall k :: 0 <= k < 9 ==> r[k] == PressureCoefficient(cal1, k)
  {
    PressureFromAll(cal1);
    PressureFrom(cal1, 0)
  }

  /** The tail from `j` holds coefficients `j` to 8, in order. */
  lemma {:induction false} PressureFromIndex(cal1: seq<Byte>, j: nat, k: nat)
    requires |cal1| >= 24 && j <= k < 9
    ensures |PressureFrom(cal1, j)| == 9 - j
    ensures PressureFrom(cal1, j)[k - j] == PressureCoefficient(cal1, k)
    decreases k - j
  {
    if j < k {
      PressureFromIndex(cal1, j + 1, k);
    } else {
      PressureFromLength(cal1, j);
    }
  }

  /** The tail from `j` holds the 9 - j coefficients still to come. */
  lemma {:induction false} PressureFromLength(cal1: seq<Byte>, j: nat)
    requires |cal1| >= 24 && j <= 9
    ensures |PressureFrom(cal1, j)| == 9 - j
    decreases 9 - j
  {
    if j < 9 {
      PressureFromLength(cal1, j + 1);
    }
  }

  /** The whole list holds coefficients 0 to 8, each at its own index. */
  lemma PressureFromAll(cal1: seq<Byte>)
    requires |cal1| >= 24
    ensures |PressureFrom(cal1, 0)| == 9
    ensures forall k :: 0 <= k < 9 ==> PressureFrom(cal1, 0)[k] == PressureCoefficient(cal1, k)
  {
    PressureFromLength(cal1, 0);
    forall k | 0 <= k < 9
      ensures PressureFrom(cal1, 0)[k] == PressureCoefficient(cal1, k)
    {
      PressureFromIndex(cal1, 0, k);
    }
  }

  /**
    `dig_h`: from block 2 and block 3, two of them sharing byte 4 of block
    3.  H1 and H3 are unsigned bytes, H2 a signed short, H4 and H5 signed
    12-bit values, H6 a signed byte.
  */
  function HumidityCoefficients(cal: RawCalibration): (r: seq<int>)
    requires WellSized(cal)
    ensures |r| == 6
    ensures 0 <= r[0] <= 255 && -32768 <= r[1] <= 32767 && 0 <= r[2] <= 255
    ensures -2048 <= r[3] <= 2047 && -2048 <= r[4] <= 2047 && -128 <= r[5] <= 127
  {
    [UnsignedCharacter(cal.cal2, 0),
     Short(cal.cal3, 0),
     UnsignedCharacter(cal.cal3, 2),
     GetModified(cal, 3, SignedChar, false),
     GetModified(cal, 5, UnsignedChar, true),
     Character(cal.cal3, 6)]
  }

  /**
    The coefficients `process_calibration_data` derives from well-sized
    blocks: 3, 9 and 6 of them, as the compensation formulas index them.
  */
  function CoefficientsOf(cal: RawCalibration): (c: Coefficients)
    requires WellSized(cal)
    ensures |c.digT| == 3 && |c.digP| == 9 && |c.digH| == 6
  {
    Coefficients(TemperatureCoefficients(cal.cal1),
                 PressureCoefficients(cal.cal1),
                 HumidityCoefficients(cal))
  }

  /** Pressure coefficient `k` from its two bytes, as a number. */
  lemma PressureValue(cal1: seq<Byte>, k: nat)
    requires |cal1| >= 24 && k < 9
    ensures |PressureCoefficients(cal1)| == 9
    ensures PressureCoefficients(cal1)[k] ==
            if k == 0 || cal1[7 + 2 * k] <= 127 then cal1[6 + 2 * k] as int + 256 * (cal1[7 + 2 * k] as int)
            else cal1[6 + 2 * k] as int + 256 * (cal1[7 + 2 * k] as int) - 65536
  {
  }

  /**
    The `dig_p` loop of `process_calibration_data`: offsets 6, 8, ..., 22,
    the first read unsigned, each value appended in turn.
  */
  method ReadPressureCoefficients(cal1: seq<Byte>) returns (digP: seq<int>)
    requires |cal1| >= 24
    ensures digP == PressureCoefficients(cal1)
  {
    digP := [];
    var i := 6;
    ghost var k := 0;
    while i < 23
      invariant 0 <= k <= 9 && i == 6 + 2 * k && |digP| == k
      invariant forall j :: 0 <= j < k ==> digP[j] == PressureCoefficient(cal1, j)
    {
      var value;
      if i == 6 {
        value := UnsignedShort(cal1, i);
      } else {
        value := Short(cal1, i);
      }
      assert value == PressureCoefficient(cal1, k);
      digP := digP + [value];
      i, k := i + 2, k + 1;
    }
  }

  /**
    `process_calibration_data`; a block too short for one of the fixed
    offsets raises IndexError.
  */
  method ProcessCalibrationData(cal: RawCalibration) returns (r: Result<Coefficients>)
    ensures r.Ok? <==> WellSized(cal)
    ensures r.Ok? ==> r.value == CoefficientsOf(cal)
  {
    if !WellSized(cal) {
      return Err(IndexError);
    }
    var digT := [UnsignedShort(cal.cal1, 0), Short(cal.cal1, 2), Short(cal.cal1, 4)];
    var digP := ReadPressureCoefficients(cal.cal1);
    var digH := [UnsignedCharacter(cal.cal2, 0),
                 Short(cal.cal3, 0),
                 UnsignedCharacter(cal.cal3, 2),
                 GetModified(cal, 3, SignedChar, false),
                 GetModified(cal, 5, UnsignedChar, true),
                 Character(cal.cal3, 6)];
    r := Ok(Coefficients(digT, digP, digH));
  }

  /** The reference calibration blocks of the driver's test suite. */
  function ReferenceCalibration(): RawCalibration
  {
    RawCalibration(
      [96, 110, 203, 104, 50, 0, 29, 145, 59, 215, 208, 11, 232, 38,
       42, 255, 249, 255, 172, 38, 10, 216, 189, 16],
      [75],
      [129, 1, 0, 16, 44, 3, 30])
  }

  lemma ReferenceTemperatureCoefficients()
    ensures TemperatureCoefficients(ReferenceCalibration().cal1) == [28256, 26827, 50]
  {
  }

  lemma ReferencePressureBytes(cal1: seq<Byte>)
    requires cal1 == [96, 110, 203, 104, 50, 0, 29, 145, 59, 215, 208, 11, 232, 38,
                     42, 255, 249, 255, 172, 38, 10, 216, 189, 16]
    ensures |cal1| == 24
    ensures cal1[6] == 29 && cal1[7] == 145 && cal1[8] == 59 && cal1[9] == 215
    ensures cal1[10] == 208 && cal1[11] == 11 && cal1[12] == 232 && cal1[13] == 38
    ensures cal1[14] == 42 && cal1[15] == 255 && cal1[16] == 249 && cal1[17] == 255
    ensures cal1[18] == 172 && cal1[19] == 38 && cal1[20] == 10 && cal1[21] == 216
    ensures cal1[22] == 189 && cal1[23] == 16
  {
  }

  lemma ReferencePressureCoefficients(cal1: seq<Byte>)
    requires cal1 == [96, 110, 203, 104, 50, 0, 29, 145, 59, 215, 208, 11, 232, 38,
                     42, 255, 249, 255, 172, 38, 10, 216, 189, 16]
    ensures PressureCoefficients(cal1) ==
            [37149, -10437, 3024, 9960, -214, -7, 9900, -10230, 4285]
  {
    ReferencePressureBytes(cal1);
    var p := PressureCoefficients(cal1);
    assert |p| == 9 && p[0] == 37149 by {
      PressureValue(cal1, 0);
    }
    assert p[1] == -10437 by {
      PressureValue(cal1, 1);
    }
    assert p[2] == 3024 by {
      PressureValue(cal1, 2);
    }
    assert p[3] == 9960 by {
      PressureValue(cal1, 3);
    }
    assert p[4] == -214 by {
      PressureValue(cal1, 4);
    }
    assert p[5] == -7 by {
      PressureValue(cal1, 5);
    }
    assert p[6] == 9900 by {
      PressureValue(cal1, 6);
    }
    assert p[7] == -10230 by {
      PressureValue(cal1, 7);
    }
    assert p[8] == 4285 by {
      PressureValue(cal1, 8);
    }
  }

  lemma ReferenceHumidityCoefficients(cal: RawCalibration)
    requires cal == ReferenceCalibration()
    ensures WellSized(cal)
    ensures HumidityCoefficients(cal) == [75, 385, 0, 268, 50, 30]
  {
    var d := cal.cal3;
    assert d[0] == 129 && d[1] == 1 && d[2] == 0 && d[3] == 16;
    assert d[4] == 44 && d[5] == 3 && d[6] == 30;
    assert UnsignedShort(d, 0) == 385;
    assert Character(d, 3) == 16 && Character(d, 5) == 3;
    assert GetModified(cal, 3, SignedChar, false) == 268;
    assert GetModified(cal, 5, UnsignedChar, true) == 50;
  }

  /** The coefficients of the reference calibration blocks. */
  lemma ReferenceCoefficients(cal: RawCalibration)
    requires cal == ReferenceCalibration()
    ensures WellSized(cal)
    ensures CoefficientsOf(cal) ==
            Coefficients([28256, 26827, 50],
                         [37149, -10437, 3024, 9960, -214, -7, 9900, -10230, 4285],
                         [75, 385, 0, 268, 50, 30])
  {
    ReferenceTemperatureCoefficients();
    ReferencePressureCoefficients(cal.cal1);
    ReferenceHumidityCoefficients(cal);
  }

  // ---------------------------------------------------------------------
  // The measurement block

  /** Raw ADC counts: 20-bit pressure and temperature, 16-bit humidity. */
  datatype RawMeasurement = RawMeasurement(pressure: int, temperature: int, humidity: int)

  /**
    `extract_raw_values`: the raw counts are the byte fields side by side,
    pressure from bytes 0..2 and temperature from bytes 3..5 (each below
    2^20, the low nibble of the third byte dropped), humidity from bytes
    6..7 (below 2^16).
  */
  function ExtractRawValues(data: seq<Byte>): (r: RawMeasurement)
    requires |data| >= 8
    ensures r.pressure == 4096 * data[0] as int + 16 * data[1] as int + data[2] as int / 16
    ensures r.temperature == 4096 * data[3] as int + 16 * data[4] as int + data[5] as int / 16
    ensures r.humidity == 256 * data[6] as int + data[7] as int
    ensures 0 <= r.pressure < 1048576 && 0 <= r.temperature < 1048576 && 0 <= r.humidity < 65536
  {
    Pow2Constants();
    Pack20(data[0], data[1], data[2]);
    Pack20(data[3], data[4], data[5]);
    OrDisjoint(data[6], data[7], 8);
    RawMeasurement(
      BitOr(BitOr(ShiftLeft(data[0], 12), ShiftLeft(data[1], 4)), ShiftRight(data[2], 4)),
      BitOr(BitOr(ShiftLeft(data[3], 12), ShiftLeft(data[4], 4)), ShiftRight(data[5], 4)),
      BitOr(ShiftLeft(data[6], 8), data[7]))
  }

  /** `(hi << 12) | (mid << 4) | (lo >> 4)` packs a 20-bit count without overlap. */
  lemma Pack20(hi: Byte, mid: Byte, lo: Byte)
    ensures BitOr(BitOr(ShiftLeft(hi, 12), ShiftLeft(mid, 4)), ShiftRight(lo, 4)) ==
            4096 * hi as int + 16 * mid as int + lo as int / 16
    ensures 0 <= 4096 * hi as int + 16 * mid as int + lo as int / 16 < 1048576
  {
    Pow2Constants();
    OrDisjoint(hi, mid * 16, 12);
    assert ShiftLeft(hi, 12) + ShiftLeft(mid, 4) == ShiftLeft(256 * hi + mid, 4);
    OrDisjoint(256 * hi + mid, lo / 16, 4);
  }

  /** The measurement block of the driver's test suite. */
  lemma RawValuesExample()
    ensures ExtractRawValues([76, 60, 0, 129, 49, 128, 94, 110]) == RawMeasurement(312256, 529176, 24174)
  {
  }

  // ---------------------------------------------------------------------
  // Compensation

  /** Temperature in hundredths of a degree Celsius and the shared fine temperature. */
  datatype Temperature = Temperature(temperature: int, tFine: int)

  /**
    `improve_temperature_measurement`: the datasheet's fixed-point formula.
    The reported temperature is `5 * t_fine / 256` rounded to the nearest
    integer, halves upwards.
  */
  function ImproveTemperature(tempRaw: int, digT: seq<int>): (t: Temperature)
    requires |digT| >= 3
    ensures 256 * t.temperature - 128 <= 5 * t.tFine < 256 * t.temperature + 128
  {
    Pow2Constants();
    var var1 := ShiftRight((ShiftRight(tempRaw, 3) - ShiftLeft(digT[0], 1)) * digT[1], 11);
    var var2 := (ShiftRight(tempRaw, 4) - digT[0]) * (ShiftRight(tempRaw, 4) - digT[0]);
    var var3 := ShiftRight(ShiftRight(var2, 12) * digT[2], 14);
    var tFine := var1 + var3;
    Temperature(ShiftRight(tFine * 5 + 128, 8), tFine)
  }

  /** Raw temperature 529168 with the reference `dig_t`. */
  lemma TemperatureExample()
    ensures ImproveTemperature(529168, [28256, 26827, 50]) == Temperature(2465, 126213)
  {
    Pow2Constants();
  }

  /**
    `improve_pressure_measurement`, in hundredths of a hectopascal.  The
    division guard reports 0 when the divisor `var1` vanishes, that is when
    `dig_p[0]` is 0 or the correction term is exactly -32768.
  */
  function ImprovePressure(rawPressure: int, digP: seq<int>, tFine: real): (p: real)
    requires |digP| >= 9
    ensures digP[0] == 0 || PressureCorrection(digP, tFine) == -32768.0 ==> p == 0.0
  {
    var var1 := tFine / 2.0 - 64000.0;
    var var2 := var1 * var1 * (digP[5] as real) / 32768.0;
    var var2 := var2 + var1 * (digP[4] as real) * 2.0;
    var var2 := var2 / 4.0 + (digP[3] as real) * 65536.0;
    var var1 := (1.0 + PressureCorrection(digP, tFine) / 32768.0) * (digP[0] as real);
    if var1 == 0.0 then
      0.0
    else
      var pressure := 1048576.0 - rawPressure as real;
      var pressure := ((pressure - var2 / 4096.0) * 6250.0) / var1;
      var var1 := (digP[8] as real) * pressure * pressure / 2147483648.0;
      var var2 := pressure * (digP[7] as real) / 32768.0;
      pressure + (var1 + var2 + (digP[6] as real)) / 16.0
  }

  /** The second `var1` of the pressure formula, before it is scaled by `dig_p[0]`. */
  function PressureCorrection(digP: seq<int>, tFine: real): real
    requires |digP| >= 9
  {
    var var1 := tFine / 2.0 - 64000.0;
    ((digP[2] as real) * var1 * var1 / 524288.0 + (digP[1] as real) * var1) / 524288.0
  }

  /**
    The unclamped humidity formula of `improve_humidity_measurement`, in
    percent.  H2 scales the whole product, so a zero H2 gives 0.
  */
  function HumidityFormula(rawHumidity: int, digH: seq<int>, tFine: real): (h: real)
    requires |digH| >= 6
    ensures digH[1] == 0 ==> h == 0.0
  {
    var humidity := tFine - 76800.0;
    var term1 := rawHumidity as real - ((digH[3] as real) * 64.0 + (digH[4] as real) / 16384.0 * humidity);
    var term2a := humidity * (1.0 + (digH[2] as real) / 67108864.0 * humidity);
    var term2 := (digH[1] as real) / 65536.0 * (1.0 + (digH[5] as real) / 67108864.0 * term2a);
    var humidity := term1 * term2;
    humidity * (1.0 - (digH[0] as real) * humidity / 524288.0)
  }

  /** Python's `max(0, min(h, 100))`. */
  function Clamp(h: real): (r: real)
    ensures 0.0 <= r <= 100.0
    ensures 0.0 <= h <= 100.0 ==> r == h
    ensures h < 0.0 ==> r == 0.0
    ensures h > 100.0 ==> r == 100.0
  {
    var m := if 100.0 < h then 100.0 else h;
    if m < 0.0 then 0.0 else m
  }

  /** `improve_humidity_measurement`: the formula clamped into [0, 100]. */
  function ImproveHumidity(rawHumidity: int, digH: seq<int>, tFine: real): (r: real)
    requires |digH| >= 6
    ensures 0.0 <= r <= 100.0
    ensures r == HumidityFormula(rawHumidity, digH, tFine) || r == 0.0 || r == 100.0
  {
    Clamp(HumidityFormula(rawHumidity, digH, tFine))
  }

  /** Temperature (hundredths of a degree), pressure (hundredths of hPa), humidity (percent). */
  datatype Reading = Reading(temperature: real, pressure: real, humidity: real)

  /**
    `extract_values`: temperature is compensated first, and the one fine
    temperature it yields feeds both the pressure and humidity formulas.
  */
  function ExtractValues(data: seq<Byte>, digT: seq<int>, digP: seq<int>, digH: seq<int>): (r: Reading)
    requires |data| >= 8 && |digT| >= 3 && |digP| >= 9 && |digH| >= 6
    ensures 0.0 <= r.humidity <= 100.0
    ensures digP[0] == 0 ==> r.pressure == 0.0
  {
    var raw := ExtractRawValues(data);
    var t := ImproveTemperature(raw.temperature, digT);
    var r := Reading(t.temperature as real,
                     ImprovePressure(raw.pressure, digP, t.tFine as real),
                     ImproveHumidity(raw.humidity, digH, t.tFine as real));
    r
  }

  /**
    The raw temperature reaches the pressure and humidity formulas only
    through `t_fine`: two measurement blocks with the same pressure bytes
    (0..2) and humidity bytes (6..7) whose temperature bytes give the same
    fine temperature decode to the same reading.
  */
  lemma SharedFineTemperature(d1: seq<Byte>, d2: seq<Byte>, digT: seq<int>, digP: seq<int>, digH: seq<int>)
    requires |d1| >= 8 && |d2| >= 8 && |digT| >= 3 && |digP| >= 9 && |digH| >= 6
    requires d1[..3] == d2[..3] && d1[6..8] == d2[6..8]
    requires ImproveTemperature(ExtractRawValues(d1).temperature, digT).tFine ==
             ImproveTemperature(ExtractRawValues(d2).temperature, digT).tFine
    ensures ExtractValues(d1, digT, digP, digH) == ExtractValues(d2, digT, digP, digH)
  {
    assert d1[0] == d1[..3][0] && d1[1] == d1[..3][1] && d1[2] == d1[..3][2];
    assert d2[0] == d2[..3][0] && d2[1] == d2[..3][1] && d2[2] == d2[..3][2];
    assert d1[6] == d1[6..8][0] && d1[7] == d1[6..8][1];
    assert d2[6] == d2[6..8][0] && d2[7] == d2[6..8][1];
    var t1 := ImproveTemperature(ExtractRawValues(d1).temperature, digT);
    var t2 := ImproveTemperature(ExtractRawValues(d2).temperature, digT);
    Pow2Constants();
    assert t1.temperature == t2.temperature;
  }
}
