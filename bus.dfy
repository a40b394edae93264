/**
 * The outcome of an I2C register burst read (`i2c_burst_read_dt_checked`),
 * which this model takes as an input: the return code, negative on failure,
 * and the contents of the caller's buffer after the call.
 */
module Bus {
  import opened CInt

  datatype BusRead = BusRead(ret: int, data: seq<byte>)

  /** A read succeeded when its return code is not negative. */
  predicate Ok(r: BusRead)
  {
    r.ret >= 0
  }

  /** The 16-bit word `(hi << 8) | lo` that two bytes read most significant first. */
  function BigEndianWord(hi: byte, lo: byte): (w: uint16)
    ensures w / 256 == hi && w % 256 == lo
  {
    hi * 256 + lo
  }

  /** Two byte pairs give the same word only when they are the same pair. */
  lemma BigEndianWordInjective(hi1: byte, lo1: byte, hi2: byte, lo2: byte)
    requires BigEndianWord(hi1, lo1) == BigEndianWord(hi2, lo2)
    ensures hi1 == hi2 && lo1 == lo2
  {
    var w := BigEndianWord(hi1, lo1);
    assert hi1 == w / 256 == hi2;
  }
}
