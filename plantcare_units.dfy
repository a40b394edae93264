/**
 * Fixed-point unit conversions (src/helpers/plantcare_units.c).
 * Percentages are scaled by 10, so 1000 stands for 100.0 %; accelerations
 * are (m/s^2) x 100.
 */
module Units {
  import opened CInt

  const LightRawMin: int32 := 0
  const LightRawMax: int32 := 400
  const SoilRawMin: int32 := 0
  const SoilRawMax: int32 := 4095

  /** The two successive clamps of `raw`: first up to `rawMin`, then down to `rawMax`. */
  function ClampRaw(raw: int32, rawMin: int32, rawMax: int32): int32
  {
    var r := if raw < rawMin then rawMin else raw;
    if r > rawMax then rawMax else r
  }

  /**
   * Maps `raw` linearly from [rawMin, rawMax] onto [0, 1000], clamping
   * outside the range. A non-positive span is a misconfiguration and yields 0.
   * The span `rawMax - rawMin` is itself an int32 in the source.
   */
  function PctX10FromRange(raw: int32, rawMin: int32, rawMax: int32): (pct: int32)
    requires -0x8000_0000 <= rawMax - rawMin < 0x8000_0000
    ensures 0 <= pct <= 1000
    ensures rawMax <= rawMin ==> pct == 0
    ensures rawMin < rawMax && raw <= rawMin ==> pct == 0
    ensures rawMin < rawMax && raw >= rawMax ==> pct == 1000
    ensures rawMin < rawMax && rawMin <= raw <= rawMax ==>
              pct * (rawMax - rawMin) <= 1000 * (raw - rawMin) < (pct + 1) * (rawMax - rawMin)
  {
    var clamped := ClampRaw(raw, rawMin, rawMax);
    var den := rawMax - rawMin;
    if den <= 0 then
      0
    else
      var num := clamped - rawMin;
      ScaledFraction(num, den, 1000);
      DivOfMultiple(1000, den);
      assert raw <= rawMin ==> num == 0;
      assert raw >= rawMax ==> num * 1000 == den * 1000;
      assert rawMin <= raw <= rawMax ==> num == raw - rawMin;
      num * 1000 / den
  }

  /** A larger raw reading never gives a smaller percentage. */
  lemma PctX10Monotone(a: int32, b: int32, rawMin: int32, rawMax: int32)
    requires -0x8000_0000 <= rawMax - rawMin < 0x8000_0000
    requires a <= b
    ensures PctX10FromRange(a, rawMin, rawMax) <= PctX10FromRange(b, rawMin, rawMax)
  {
    if rawMin < rawMax {
      var na := ClampRaw(a, rawMin, rawMax) - rawMin;
      var nb := ClampRaw(b, rawMin, rawMax) - rawMin;
      assert na <= nb;
      DivMonotone(na * 1000, nb * 1000, rawMax - rawMin);
    }
  }

  /** Light sensor: the range 0..400, so each raw step is 2.5 tenths of a percent. */
  function LightRawToPctX10(raw: int32): (pct: int32)
    ensures 0 <= pct <= 1000
    ensures raw <= LightRawMin ==> pct == 0
    ensures raw >= LightRawMax ==> pct == 1000
    ensures LightRawMin <= raw <= LightRawMax ==> pct == (5 * raw) / 2
  {
    PctX10FromRange(raw, LightRawMin, LightRawMax)
  }

  /** Light readings at full scale, half scale and beyond full scale. */
  lemma LightExamples()
    ensures LightRawToPctX10(400) == 1000
    ensures LightRawToPctX10(200) == 500
    ensures LightRawToPctX10(1000) == 1000
  {
  }

  /** Soil sensor: the whole 12-bit ADC range 0..4095. */
  function SoilRawToPctX10(raw: int32): (pct: int32)
    ensures 0 <= pct <= 1000
    ensures raw <= SoilRawMin ==> pct == 0
    ensures raw >= SoilRawMax ==> pct == 1000
    ensures SoilRawMin <= raw <= SoilRawMax ==> pct * 4095 <= 1000 * raw < (pct + 1) * 4095
  {
    PctX10FromRange(raw, SoilRawMin, SoilRawMax)
  }

  /**
   * g x 100 to (m/s^2) x 100 with 1 g = 9.81 m/s^2. The product `g100 * 981`
   * is an int32 in the source, which bounds the input.
   */
  function AccelG100ToMs2X100(g100: int32): (ms2: int32)
    requires -2189076 <= g100 <= 2189076
    ensures Abs(ms2) * 100 <= Abs(g100 * 981) < (Abs(ms2) + 1) * 100
    ensures g100 >= 0 ==> ms2 >= 0
    ensures g100 <= 0 ==> ms2 <= 0
    ensures g100 == 100 ==> ms2 == 981
  {
    CDiv(g100 * 981, 100)
  }

  /** The conversion is odd: negating the input negates the output. */
  lemma AccelOdd(g100: int32)
    requires -2189076 <= g100 <= 2189076
    ensures AccelG100ToMs2X100(-g100) == -AccelG100ToMs2X100(g100)
  {
    CDivOdd(g100 * 981, 100);
  }

  /** The conversion is monotone non-decreasing. */
  lemma AccelMonotone(a: int32, b: int32)
    requires -2189076 <= a <= b <= 2189076
    ensures AccelG100ToMs2X100(a) <= AccelG100ToMs2X100(b)
  {
    if a >= 0 {
      DivMonotone(a * 981, b * 981, 100);
    } else if b <= 0 {
      DivMonotone(-b * 981, -a * 981, 100);
    }
  }
}
