/**
 * The Si7021 humidity and temperature driver (src/sensors/humidity_sensor.c):
 * assembling a measurement word from two bytes and the datasheet formulas
 * that turn it into %RH x 100 and degrees Celsius x 100.
 */
module Humidity {
  import opened CInt
  import opened Bus

  /**
   * read_raw: the error code when the burst read fails, otherwise the word
   * the two bytes form, most significant byte first.
   */
  function ReadRaw(read: BusRead): (r: Result<uint16, int>)
    requires |read.data| == 2
    ensures r.Failure? <==> !Ok(read)
    ensures r.Failure? ==> r.error == read.ret && r.error < 0
    ensures r.Success? ==> r.value / 256 == read.data[0] && r.value % 256 == read.data[1]
  {
    if read.ret < 0 then Failure(read.ret)
    else Success(BigEndianWord(read.data[0], read.data[1]))
  }

  /** 12500 * raw / 65536 - 600: relative humidity x 100, floored, for any 16-bit word. */
  function RhX100(raw: uint16): (h: int32)
    ensures -600 <= h <= 11899
    ensures (h + 600) * 65536 <= 12500 * raw < (h + 601) * 65536
  {
    DivMonotone(0, 12500 * raw, 65536);
    DivMonotone(12500 * raw, 12500 * 65535, 65536);
    12500 * raw / 65536 - 600
  }

  /** 17572 * raw / 65536 - 4685: temperature x 100, floored, for any 16-bit word. */
  function TempX100(raw: uint16): (t: int32)
    ensures -4685 <= t <= 12886
    ensures (t + 4685) * 65536 <= 17572 * raw < (t + 4686) * 65536
  {
    DivMonotone(0, 17572 * raw, 65536);
    DivMonotone(17572 * raw, 17572 * 65535, 65536);
    17572 * raw / 65536 - 4685
  }

  /** Neither product overflows an int32, whatever the word. */
  lemma ProductsFitInt32(raw: uint16)
    ensures 0 <= 12500 * raw < 0x8000_0000
    ensures 0 <= 17572 * raw < 0x8000_0000
  {
  }

  /** A larger word never gives a lower humidity. */
  lemma RhMonotone(a: uint16, b: uint16)
    requires a <= b
    ensures RhX100(a) <= RhX100(b)
  {
    DivMonotone(12500 * a, 12500 * b, 65536);
  }

  /** A larger word never gives a lower temperature. */
  lemma TempMonotone(a: uint16, b: uint16)
    requires a <= b
    ensures TempX100(a) <= TempX100(b)
  {
    DivMonotone(17572 * a, 17572 * b, 65536);
  }

  /**
   * humidity_sensor_read. The two burst reads are inputs: `rhRead` answers
   * the measure-humidity command 0xE5 and `tRead` the measure-temperature
   * command 0xE3, issued in that order; `humidity` and `temp` are what the caller's
   * out-pointers held, and the results are what they hold afterwards.
   * A failed humidity read writes nothing; a failed temperature read leaves
   * the humidity written and the temperature untouched.
   */
  method HumiditySensorRead(rhRead: BusRead, tRead: BusRead, humidity: int32, temp: int32)
    returns (ret: int, humidityOut: int32, tempOut: int32)
    requires |rhRead.data| == 2 && |tRead.data| == 2
    ensures !Ok(rhRead) ==> ret == rhRead.ret && humidityOut == humidity && tempOut == temp
    ensures Ok(rhRead) ==> humidityOut == RhX100(BigEndianWord(rhRead.data[0], rhRead.data[1]))
    ensures Ok(rhRead) && !Ok(tRead) ==> ret == tRead.ret && tempOut == temp
    ensures Ok(rhRead) && Ok(tRead) ==>
              ret == 0 && tempOut == TempX100(BigEndianWord(tRead.data[0], tRead.data[1]))
    ensures ret <= 0
  {
    humidityOut, tempOut := humidity, temp;
    var rawRh := ReadRaw(rhRead);
    if rawRh.Failure? {
      return rawRh.error, humidityOut, tempOut;
    }
    humidityOut := RhX100(rawRh.value);
    var rawT := ReadRaw(tRead);
    if rawT.Failure? {
      return rawT.error, humidityOut, tempOut;
    }
    tempOut := TempX100(rawT.value);
    ret := 0;
  }
}
