/**
  Range checks and unit conversions for the sensor's readings
  (bme280pi/physics.py), over the reals.

  Pressure is in hPa, temperature in degrees Celsius and relative humidity
  in percent.  A check that fails raises ValueError; an unknown unit raises
  a bare Exception naming the unit.
*/
module Physics {
  import opened Wrappers

  // ---------------------------------------------------------------------
  // Validation

  const PressureRangeMessage := "Pressure must be between 0 and 1100"
  const TemperatureRangeMessage := "Temperature must be between -100 and +100"
  const HumidityRangeMessage := "Rel. humidity must be between 0 and 100"

  /** `validate_pressure`: accepts exactly 0 < p <= 1100 hPa. */
  function ValidatePressure(pressure: real): (o: Outcome)
    ensures o == Pass <==> 0.0 < pressure <= 1100.0
    ensures o.Fail? ==> o.error == ValueError(PressureRangeMessage)
  {
    if pressure <= 0.0 || pressure > 1100.0 then Fail(ValueError(PressureRangeMessage)) else Pass
  }

  /** `validate_temperature`: accepts exactly -100 <= t <= 100 degrees Celsius. */
  function ValidateTemperature(temperature: real): (o: Outcome)
    ensures o == Pass <==> -100.0 <= temperature <= 100.0
    ensures o.Fail? ==> o.error == ValueError(TemperatureRangeMessage)
  {
    if temperature < -100.0 || temperature > 100.0 then Fail(ValueError(TemperatureRangeMessage)) else Pass
  }

  /** `validate_humidity`: accepts exactly 0 <= h <= 100 percent. */
  function ValidateHumidity(humidity: real): (o: Outcome)
    ensures o == Pass <==> 0.0 <= humidity <= 100.0
    ensures o.Fail? ==> o.error == ValueError(HumidityRangeMessage)
  {
    if humidity < 0.0 || humidity > 100.0 then Fail(ValueError(HumidityRangeMessage)) else Pass
  }

  /** The boundary values and the rejected values of the driver's tests. */
  lemma ValidationExamples()
    ensures ValidatePressure(1100.0) == Pass && ValidatePressure(0.0).Fail?
    ensures ValidatePressure(-1.0).Fail? && ValidatePressure(1200.0).Fail?
    ensures ValidateTemperature(-100.0) == Pass && ValidateTemperature(100.0) == Pass
    ensures ValidateTemperature(-111.0).Fail? && ValidateTemperature(111.0).Fail?
    ensures ValidateHumidity(0.0) == Pass && ValidateHumidity(100.0) == Pass
    ensures ValidateHumidity(-1.0).Fail? && ValidateHumidity(123.0).Fail?
  {
  }

  // ---------------------------------------------------------------------
  // The pressure function

  /**
    The enhancement factor of moist air, f(p) = 1.0016 + 3.16e-6 p - 0.074 / p.
    It exceeds 1 from 100 hPa upwards and stays below 1.00501 up to 1100 hPa.
  */
  function Enhancement(pressure: real): (f: real)
    requires pressure > 0.0
    ensures 100.0 <= pressure <= 1100.0 ==> 1.0 < f < 1.00501
  {
    if 100.0 <= pressure <= 1100.0 then
      ReciprocalAntitone(100.0, pressure);
      ReciprocalAntitone(pressure, 1100.0);
      assert 0.074 / 1100.0 > 0.0000672;
      1.0016 + 0.00000316 * pressure - 0.074 / pressure
    else
      1.0016 + 0.00000316 * pressure - 0.074 / pressure
  }

  /**
    `pressure_function`: the pressure is validated first, so the division
    is only reached for a positive pressure.
  */
  function PressureFunction(pressure: real): (r: Result<real>)
    ensures r.Ok? <==> ValidatePressure(pressure) == Pass
    ensures r.Err? ==> r.error == ValueError(PressureRangeMessage)
    ensures r.Ok? ==> r.value == Enhancement(pressure)
  {
    match ValidatePressure(pressure)
    case Fail(e) => Err(e)
    case Pass => Ok(Enhancement(pressure))
  }

  /** A smaller positive number has a larger reciprocal. */
  lemma ReciprocalAntitone(p: real, q: real)
    requires 0.0 < p <= q
    ensures 0.074 / q <= 0.074 / p
  {
  }

  /**
    The factor grows with the pressure over the valid range, so it never
    exceeds its value at 1100 hPa, 1.0050087... (just above 1.005).
  */
  lemma PressureFunctionMonotone(p: real, q: real)
    requires ValidatePressure(p) == Pass && ValidatePressure(q) == Pass && p <= q
    ensures PressureFunction(p).value <= PressureFunction(q).value
    ensures PressureFunction(q).value < 1.00501
  {
    ReciprocalAntitone(p, q);
    ReciprocalAntitone(q, 1100.0);
    assert 0.074 / 1100.0 > 0.0000672;
  }

  /** Tabulated values of the driver's tests, exactly as reals. */
  lemma PressureFunctionExamples()
    ensures PressureFunction(100.0) == Ok(1.001176)
    ensures PressureFunction(1000.0) == Ok(1.004686)
    ensures PressureFunction(0.0).Err? && PressureFunction(1111.0).Err?
  {
  }

  // ---------------------------------------------------------------------
  // Unit conversion

  /**
    Multipliers from hPa to each unit `convert_pressure` knows: all
    positive, and 1 for hPa itself.
  */
  function PressureFactors(): (factors: map<string, real>)
    ensures forall unit :: unit in factors ==> factors[unit] > 0.0
    ensures "hPa" in factors && factors["hPa"] == 1.0
  {
    map["hPa" := 1.0, "Pa" := 100.0, "kPa" := 0.1, "atm" := 0.00098692316931427, "mmHg" := 0.750062]
  }

  /**
    `convert_pressure`: validate the pressure, then scale it by the unit's
    factor; a unit outside the table raises "Unknown pressure unit: <unit>".
    An invalid pressure is reported before an unknown unit.
  */
  function ConvertPressure(pressure: real, unit: string): (r: Result<real>)
    ensures ValidatePressure(pressure).Fail? ==> r == Err(ValueError(PressureRangeMessage))
    ensures ValidatePressure(pressure) == Pass && unit !in PressureFactors() ==>
      r == Err(Exception("Unknown pressure unit: " + unit))
    ensures r.Ok? <==> ValidatePressure(pressure) == Pass && unit in PressureFactors()
  {
    match ValidatePressure(pressure)
    case Fail(e) => Err(e)
    case Pass =>
      if unit in PressureFactors() then Ok(PressureFactors()[unit] * pressure)
      else Err(Exception("Unknown pressure unit: " + unit))
  }

  /**
    Every conversion is invertible: dividing by the unit's factor gives the
    pressure in hPa back, and the converted value is positive and at most
    1100 times the factor.
  */
  lemma ConvertPressureInverse(pressure: real, unit: string)
    requires ConvertPressure(pressure, unit).Ok?
    ensures ConvertPressure(pressure, unit).value / PressureFactors()[unit] == pressure
    ensures 0.0 < ConvertPressure(pressure, unit).value <= 1100.0 * PressureFactors()[unit]
  {
    var f := PressureFactors()[unit];
    assert f > 0.0;
    assert ConvertPressure(pressure, unit).value == f * pressure;
  }

  /** Conversions of the driver's tests, exactly as reals. */
  lemma ConvertPressureExamples()
    ensures ConvertPressure(1000.0, "hPa") == Ok(1000.0)
    ensures ConvertPressure(1000.0, "Pa") == Ok(100000.0)
    ensures ConvertPressure(1000.0, "kPa") == Ok(100.0)
    ensures ConvertPressure(1000.0, "mmHg") == Ok(750.062)
    ensures ConvertPressure(-123.0, "hPa").Err? && ConvertPressure(1234.0, "hPa").Err?
    ensures ConvertPressure(123.0, "UnknownUnit") == Err(Exception("Unknown pressure unit: " + "UnknownUnit"))
  {
  }

  /**
    `convert_temperature`: validate the temperature, then convert to 'C'
    (unchanged), 'F' (t * 9/5 + 32) or 'K' (t + 273.15); any other unit
    raises "Unknown temperature unit: <unit>".
  */
  function ConvertTemperature(temperature: real, unit: string): (r: Result<real>)
    ensures ValidateTemperature(temperature).Fail? ==> r == Err(ValueError(TemperatureRangeMessage))
    ensures ValidateTemperature(temperature) == Pass && unit !in {"C", "F", "K"} ==>
      r == Err(Exception("Unknown temperature unit: " + unit))
    ensures r.Ok? <==> ValidateTemperature(temperature) == Pass && unit in {"C", "F", "K"}
  {
    match ValidateTemperature(temperature)
    case Fail(e) => Err(e)
    case Pass =>
      if unit == "C" then Ok(temperature)
      else if unit == "F" then Ok(temperature * (9.0 / 5.0) + 32.0)
      else if unit == "K" then Ok(temperature + 273.15)
      else Err(Exception("Unknown temperature unit: " + unit))
  }

  /** Degrees Celsius from a temperature in `unit` (the inverse conversion). */
  function ToCelsius(value: real, unit: string): real
  {
    if unit == "F" then (value - 32.0) * 5.0 / 9.0
    else if unit == "K" then value - 273.15
    else value
  }

  /** Each temperature conversion is undone by the inverse formula. */
  lemma ConvertTemperatureInverse(temperature: real, unit: string)
    requires ConvertTemperature(temperature, unit).Ok?
    ensures ToCelsius(ConvertTemperature(temperature, unit).value, unit) == temperature
  {
  }

  /**
    The three scales agree with each other: a valid temperature in kelvin
    is its Fahrenheit value taken back to Celsius plus 273.15, and the
    Fahrenheit scale increases with the Celsius scale.
  */
  lemma TemperatureScalesAgree(t: real, u: real)
    requires ValidateTemperature(t) == Pass && ValidateTemperature(u) == Pass
    ensures ConvertTemperature(t, "K").value ==
            (ConvertTemperature(t, "F").value - 32.0) * 5.0 / 9.0 + 273.15
    ensures t < u ==> ConvertTemperature(t, "F").value < ConvertTemperature(u, "F").value
    ensures ConvertTemperature(t, "K").value >= 173.15
  {
  }

  /** Conversions of the driver's tests, exactly as reals. */
  lemma ConvertTemperatureExamples()
    ensures ConvertTemperature(-40.0, "F") == Ok(-40.0)
    ensures ConvertTemperature(12.34, "C") == Ok(12.34)
    ensures ConvertTemperature(20.0, "K") == Ok(293.15)
    ensures ConvertTemperature(-123.0, "C").Err? && ConvertTemperature(123.0, "C").Err?
    ensures ConvertTemperature(23.0, "UnknownUnit") == Err(Exception("Unknown temperature unit: " + "UnknownUnit"))
  {
  }
}
