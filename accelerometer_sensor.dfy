/**
 * The MMA8451 accelerometer driver (src/sensors/accelerometer_sensor.c):
 * decoding the three 14-bit left-justified two's-complement axes of a burst
 * read and scaling them to g x 100 at the +/-2 g range.
 */
module Accelerometer {
  import opened CInt
  import opened Bus

  /** Counts per g at the +/-2 g range. */
  const CountsPerG: int := 4096

  /** The `(int16_t)` cast of a 16-bit word: two's complement. */
  function Int16Of(w: uint16): (v: int16)
    ensures v == w || v == w - 0x1_0000
  {
    if w < 0x8000 then w else w - 0x1_0000
  }

  /**
   * One axis: the big-endian word of its byte pair, read as an int16 and
   * shifted right by two with sign extension, which is a floored division by 4.
   */
  function DecodeAxis(msb: byte, lsb: byte): (raw: int)
    ensures -8192 <= raw <= 8191
    ensures 4 * raw + lsb % 4 == Int16Of(BigEndianWord(msb, lsb))
  {
    Int16Of(BigEndianWord(msb, lsb)) / 4
  }

  /** The register pair the sensor stores a 14-bit sample in: left-justified, low two bits zero. */
  function EncodeAxis(raw: int): (pair: (byte, byte))
    requires -8192 <= raw <= 8191
    ensures pair.1 % 4 == 0
  {
    var w := if raw < 0 then 4 * raw + 0x1_0000 else 4 * raw;
    (w / 256, w % 256)
  }

  /** Decoding a register pair the sensor wrote gives back the sample. */
  lemma DecodeEncode(raw: int)
    requires -8192 <= raw <= 8191
    ensures DecodeAxis(EncodeAxis(raw).0, EncodeAxis(raw).1) == raw
  {
    var pair := EncodeAxis(raw);
    var w := if raw < 0 then 4 * raw + 0x1_0000 else 4 * raw;
    assert BigEndianWord(pair.0, pair.1) == w;
    assert Int16Of(w) == 4 * raw;
  }

  /** raw * 100 / 4096 with C's truncating division: g x 100. */
  function ScaleG100(raw: int): (g100: int32)
    requires -8192 <= raw <= 8191
    ensures -200 <= g100 <= 199
    ensures Abs(g100) * 4096 <= Abs(raw * 100) < (Abs(g100) + 1) * 4096
    ensures raw >= 0 ==> g100 >= 0
    ensures raw <= 0 ==> g100 <= 0
    ensures raw == CountsPerG ==> g100 == 100
  {
    var positive := if raw >= 0 then raw else 0;
    DivMonotone(positive * 100, 8191 * 100, 4096);
    DivMonotone(Abs(raw * 100), 8192 * 100, 4096);
    CDiv(raw * 100, 4096)
  }

  /** The scaling is odd: a reading and its negation give opposite values. */
  lemma ScaleOdd(raw: int)
    requires -8191 <= raw <= 8191
    ensures ScaleG100(-raw) == -ScaleG100(raw)
  {
    CDivOdd(raw * 100, 4096);
  }

  /**
   * accelerometer_sensor_read. The burst read of the six output registers
   * from OUT_X_MSB is an input; `x`, `y` and `z` are what the caller's
   * out-pointers held, and the results what they hold afterwards. A failed
   * read returns its error and writes none of them.
   */
  method AccelerometerSensorRead(burst: BusRead, x: int32, y: int32, z: int32)
    returns (ret: int, xOut: int32, yOut: int32, zOut: int32)
    requires |burst.data| == 6
    ensures !Ok(burst) ==> ret == burst.ret && xOut == x && yOut == y && zOut == z
    ensures Ok(burst) ==> ret == 0
    ensures Ok(burst) ==> xOut == ScaleG100(DecodeAxis(burst.data[0], burst.data[1]))
    ensures Ok(burst) ==> yOut == ScaleG100(DecodeAxis(burst.data[2], burst.data[3]))
    ensures Ok(burst) ==> zOut == ScaleG100(DecodeAxis(burst.data[4], burst.data[5]))
  {
    if burst.ret < 0 {
      return burst.ret, x, y, z;
    }
    var buf := burst.data;
    var rawX := DecodeAxis(buf[0], buf[1]);
    var rawY := DecodeAxis(buf[2], buf[3]);
    var rawZ := DecodeAxis(buf[4], buf[5]);
    xOut := ScaleG100(rawX);
    yOut := ScaleG100(rawY);
    zOut := ScaleG100(rawZ);
    ret := 0;
  }
}
