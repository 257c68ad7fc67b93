/** The formulas readHumidity and readTemperature apply to a raw reading,
    in exact rational arithmetic. The raw word enters as its unsigned value,
    as the C promotion of a uint16_t to float gives it. */
module Conversion {

  /** 2^16: the raw word is read as a fraction of this. */
  const FullScale: real := 65536.0

  /** Relative humidity in percent: raw * 125 / 2^16 - 6. */
  function RelativeHumidity(raw: nat): real
  {
    raw as real * (125.0 / FullScale) - 6.0
  }

  /** Temperature in degrees Celsius: raw * 175.72 / 2^16 - 46.85. */
  function Temperature(raw: nat): real
  {
    raw as real * (175.72 / FullScale) - 46.85
  }

  /** Over the values readValue can return, humidity stays within -6 and 119
      percent: the status bits cap the raw word at 0xFFFC. */
  lemma HumidityRange(raw: nat)
    requires raw <= 0xFFFC
    ensures -6.0 <= RelativeHumidity(raw) < 119.0
  {
  }

  /** And temperature within -46.85 and 128.87 degrees. */
  lemma TemperatureRange(raw: nat)
    requires raw <= 0xFFFC
    ensures -46.85 <= Temperature(raw) < 128.87
  {
  }

  /** Both formulas are strictly increasing in the raw word. */
  lemma ConversionsIncreasing(a: nat, b: nat)
    requires a < b
    ensures RelativeHumidity(a) < RelativeHumidity(b)
    ensures Temperature(a) < Temperature(b)
  {
  }
}
