/**
 * The sample record the sensor thread builds and the state store exchanges
 * (struct plantcare_data), with the colour classification it carries.
 */
module PlantcareData {
  import opened CInt

  /** The dominant colour of one colour-sensor reading; Unknown is the zero value. */
  datatype DomColor = Unknown | Red | Green | Blue

  /** One acquisition cycle. `gpsLastSentence` is a fixed-size char buffer whose size is a parameter of the model. */
  datatype Sample = Sample(
    lightRaw: int16, lightMv: int32,
    soilRaw: int16, soilMv: int32,
    humX100: int32, tempX100: int32,
    accXG100: int32, accYG100: int32, accZG100: int32,
    clr: uint16, red: uint16, green: uint16, blue: uint16,
    domColor: DomColor,
    gpsLastSentence: seq<byte>)

  /** The zero-initialised sample that static storage holds before anything is written. */
  function ZeroSample(sentenceSize: nat): (z: Sample)
    ensures z.domColor == Unknown
    ensures |z.gpsLastSentence| == sentenceSize
    ensures forall i :: 0 <= i < sentenceSize ==> z.gpsLastSentence[i] == 0
  {
    Sample(0, 0, 0, 0, 0, 0, 0, 0, 0, 0, 0, 0, 0, Unknown, seq(sentenceSize, _ => 0))
  }
}
