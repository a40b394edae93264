/**
 * Test mode (src/helpers/plantcare_mode_test.c): the mode-entry period, the
 * dominant colour shown on the RGB LED and printed as a label, and the
 * whole/fraction printing of x100 fixed-point readings.
 */
module ModeTest {
  import opened CInt
  import opened PlantcareData
  import opened Config
  import opened State

  // ---------------------------------------------------------------------------
  // Mode entry

  /** Entering Test mode sets the sampling period to 2000 ms and nothing else. */
  method EnterTestMode(g: Globals)
    modifies g`samplingPeriodMs
    ensures g.samplingPeriodMs == TestPeriodMs
  {
    g.samplingPeriodMs := TestPeriodMs;
  }

  // ---------------------------------------------------------------------------
  // RGB LED and label

  /** The three channels passed to `rgb_set`. */
  datatype Rgb = Rgb(r: bool, g: bool, b: bool)

  function LitCount(rgb: Rgb): nat
  {
    (if rgb.r then 1 else 0) + (if rgb.g then 1 else 0) + (if rgb.b then 1 else 0)
  }

  /** Reads a colour back off the LED: the first channel that is on. */
  function ColorOfRgb(rgb: Rgb): DomColor
  {
    if rgb.r then Red else if rgb.g then Green else if rgb.b then Blue else Unknown
  }

  /**
   * The switch at lines 25-31: each known colour lights its own channel only;
   * any other value leaves the LED off.
   */
  function RgbForColor(c: DomColor): (rgb: Rgb)
    ensures LitCount(rgb) == (if c == Unknown then 0 else 1)
    ensures ColorOfRgb(rgb) == c
  {
    var rgb := Rgb(false, false, false);
    match c
    case Red => rgb.(r := true)
    case Green => rgb.(g := true)
    case Blue => rgb.(b := true)
    case Unknown => rgb
  }

  /** The label printed by the switch at lines 57-62. */
  function DominantLabel(c: DomColor): (name: string)
    ensures name == "UNKNOWN" <==> LitCount(RgbForColor(c)) == 0
    ensures |name| >= 3
    ensures c != Unknown ==> name[0] == match c case Red => 'R' case Green => 'G' case _ => 'B'
  {
    match c
    case Red => "RED"
    case Green => "GREEN"
    case Blue => "BLUE"
    case Unknown => "UNKNOWN"
  }

  /** Different colours are printed differently. */
  lemma LabelsDistinct(c1: DomColor, c2: DomColor)
    requires c1 != c2
    ensures DominantLabel(c1) != DominantLabel(c2)
  {
    if c1 != Unknown && c2 != Unknown {
      assert DominantLabel(c1)[0] != DominantLabel(c2)[0];
    }
  }

  // ---------------------------------------------------------------------------
  // printk's %d and %02d

  predicate IsDigit(ch: char)
  {
    '0' <= ch <= '9'
  }

  function DigitChar(d: nat): (ch: char)
    requires d < 10
    ensures IsDigit(ch)
  {
    ('0' as int + d) as char
  }

  function DigitValue(ch: char): (d: nat)
    requires IsDigit(ch)
    ensures d < 10
  {
    ch as int - '0' as int
  }

  /** The decimal digits of `n`, most significant first, without leading zeros. */
  function DecimalDigits(n: nat): (s: string)
    ensures |s| >= 1
    ensures forall i :: 0 <= i < |s| ==> IsDigit(s[i])
  {
    if n < 10 then [DigitChar(n)] else DecimalDigits(n / 10) + [DigitChar(n % 10)]
  }

  /** printk "%d". */
  function FormatD(x: int): string
  {
    if x < 0 then "-" + DecimalDigits(-x) else DecimalDigits(x)
  }

  /** printk "%02d": "%d" padded with zeros to two characters. */
  function FormatD02(x: int): string
  {
    var s := FormatD(x);
    if |s| < 2 then "0" + s else s
  }

  /** The value of a non-empty string of decimal digits. */
  function ParseDigits(s: string): Option<nat>
  {
    if s == [] || !IsDigit(s[|s| - 1]) then None
    else if |s| == 1 then Some(DigitValue(s[0]))
    else
      match ParseDigits(s[..|s| - 1])
      case None => None
      case Some(v) => Some(10 * v + DigitValue(s[|s| - 1]))
  }

  /** The sign and magnitude of a numeral "[-]digits". */
  function ParseSignedDigits(t: string): Option<(bool, nat)>
  {
    if t == [] then None
    else
      var negative := t[0] == '-';
      match ParseDigits(if negative then t[1..] else t)
      case None => None
      case Some(m) => Some((negative, m))
  }

  /** The value x of a decimal numeral "[-]W.FF" that shows x / 100. */
  function ParseX100(s: string): Option<int>
  {
    if |s| < 4 || s[|s| - 3] != '.' then None
    else
      match (ParseSignedDigits(s[..|s| - 3]), ParseDigits(s[|s| - 2..]))
      case (Some((negative, w)), Some(f)) =>
        var v: int := 100 * w + f;
        Some(if negative then -v else v)
      case _ => None
  }

  lemma {:induction false} DecimalDigitsRoundTrip(n: nat)
    ensures ParseDigits(DecimalDigits(n)) == Some(n)
  {
    if n >= 10 {
      DecimalDigitsRoundTrip(n / 10);
      var s := DecimalDigits(n);
      assert s[..|s| - 1] == DecimalDigits(n / 10);
    }
  }

  /** For 0..99, "%02d" gives exactly two digits that read back as the value. */
  lemma TwoDigitsRoundTrip(f: nat)
    requires f < 100
    ensures |FormatD02(f)| == 2
    ensures forall i :: 0 <= i < 2 ==> IsDigit(FormatD02(f)[i])
    ensures ParseDigits(FormatD02(f)) == Some(f)
  {
    DecimalDigitsRoundTrip(f);
    var s := FormatD02(f);
    if f < 10 {
      assert s == ['0', DigitChar(f)];
      assert s[..1] == ['0'];
    } else {
      assert s == [DigitChar(f / 10), DigitChar(f % 10)];
    }
  }

  // ---------------------------------------------------------------------------
  // Printing an x100 reading

  /**
   * Lines 46-53 as written: "%d.%02d" of x / 100 and x % 100 with C's
   * truncating division. For negative x the fraction keeps a minus sign.
   */
  function FormatX100AsWritten(x: int32): (s: string)
    ensures ParseX100(s) == if x >= 0 || CMod(x, 100) == 0 then Some(x as int) else None
  {
    AsWrittenReadsBack(x);
    FormatD(CDiv(x, 100)) + "." + FormatD02(CMod(x, 100))
  }

  /** As written, -0.05 prints as "0.-5" and -1.50 as "-1.-50": neither reads back as a number. */
  lemma AsWrittenGarblesNegatives()
    ensures FormatX100AsWritten(-5) == "0.-5"
    ensures FormatX100AsWritten(-150) == "-1.-50"
    ensures ParseX100(FormatX100AsWritten(-5)) == None
    ensures ParseX100(FormatX100AsWritten(-150)) == None
  {
    PrintsFiveHundredths();
    PrintsOneAndAHalf();
  }

  lemma PrintsFiveHundredths()
    ensures CMod(-5, 100) == -5
    ensures FormatD(CDiv(-5, 100)) + "." + FormatD02(CMod(-5, 100)) == "0.-5"
  {
    assert CDiv(-5, 100) == 0;
    assert DigitChar(0) == '0' && DigitChar(5) == '5';
    assert FormatD(0) == "0";
    assert FormatD(-5) == "-5";
  }

  lemma PrintsOneAndAHalf()
    ensures CMod(-150, 100) == -50
    ensures FormatD(CDiv(-150, 100)) + "." + FormatD02(CMod(-150, 100)) == "-1.-50"
  {
    assert CDiv(-150, 100) == -1;
    assert DigitChar(0) == '0' && DigitChar(1) == '1' && DigitChar(5) == '5';
    assert FormatD(-1) == "-1";
    assert DecimalDigits(50) == "50";
    assert FormatD(-50) == "-50";
  }

  /** The sign printed once, in front, then the magnitude's whole and fraction parts. */
  function FormatX100(x: int32): (s: string)
    ensures ParseX100(s) == Some(x)
  {
    var whole, frac := DecimalDigits(Abs(x) / 100), FormatD02(Abs(x) % 100);
    FormatX100Parses(x, whole, frac);
    (if x < 0 then "-" else "") + whole + "." + frac
  }

  lemma FormatX100Parses(x: int32, whole: string, frac: string)
    requires whole == DecimalDigits(Abs(x) / 100) && frac == FormatD02(Abs(x) % 100)
    ensures ParseX100((if x < 0 then "-" else "") + whole + "." + frac) == Some(x)
  {
    var w, f := Abs(x) / 100, Abs(x) % 100;
    assert 100 * w + f == Abs(x);
    TwoDigitsRoundTrip(f);
    DecimalDigitsRoundTrip(w);
    assert IsDigit(whole[0]);
    ParseNumeral(x < 0, whole, frac, w, f);
  }

  /** A numeral "[-]W.FF" reads as the signed value 100 * W + FF. */
  lemma ParseNumeral(negative: bool, whole: string, frac: string, w: nat, f: nat)
    requires |whole| >= 1 && IsDigit(whole[0]) && ParseDigits(whole) == Some(w)
    requires |frac| == 2 && ParseDigits(frac) == Some(f)
    ensures ParseX100((if negative then "-" else "") + whole + "." + frac)
            == Some(if negative then -(100 * w + f) else 100 * w + f)
  {
    var head := (if negative then "-" else "") + whole;
    SignedDigitsOf(negative, whole, w);
    ParseSplit(head, frac, negative, w, f);
  }

  /** "[-]W" reads as its sign and the value of W. */
  lemma SignedDigitsOf(negative: bool, whole: string, w: nat)
    requires |whole| >= 1 && IsDigit(whole[0]) && ParseDigits(whole) == Some(w)
    ensures ParseSignedDigits((if negative then "-" else "") + whole) == Some((negative, w))
  {
    var head := (if negative then "-" else "") + whole;
    assert head[0] == '-' <==> negative;
    assert (if negative then head[1..] else head) == whole;
  }

  /** ParseX100 of "head.FF" splits at the point. */
  lemma ParseSplit(head: string, frac: string, negative: bool, w: nat, f: nat)
    requires |head| >= 1 && |frac| == 2
    requires ParseSignedDigits(head) == Some((negative, w)) && ParseDigits(frac) == Some(f)
    ensures ParseX100(head + "." + frac) == Some(if negative then -(100 * w + f) else 100 * w + f)
  {
    var s := head + "." + frac;
    assert s[..|s| - 3] == head;
    assert s[|s| - 3] == '.';
    assert s[|s| - 2..] == frac;
  }

  /** The correction changes nothing for non-negative readings. */
  lemma FormatX100AgreesOnNonNegative(x: int32)
    requires x >= 0
    ensures FormatX100(x) == FormatX100AsWritten(x)
  {
    assert CDiv(x, 100) == Abs(x) / 100 && CMod(x, 100) == Abs(x) % 100;
    assert FormatD(CDiv(x, 100)) == "" + DecimalDigits(Abs(x) / 100);
  }

  /**
   * What the printing as written reads back as: the value itself when it is
   * non-negative or a whole multiple of 100, and no numeral at all for every
   * other negative value.
   */
  lemma AsWrittenReadsBack(x: int32)
    ensures ParseX100(FormatD(CDiv(x, 100)) + "." + FormatD02(CMod(x, 100)))
            == if x >= 0 || CMod(x, 100) == 0 then Some(x as int) else None
  {
    var q, m := CDiv(x, 100), CMod(x, 100);
    if x >= 0 {
      NonNegativeReadsBack(x);
    } else if m == 0 {
      WholeNegativeReadsBack(x);
    } else {
      NegativeFractionUnreadable(FormatD(q), m);
    }
  }

  /** For x >= 0 the printing as written reads back as x. */
  lemma NonNegativeReadsBack(x: int32)
    requires x >= 0
    ensures ParseX100(FormatD(CDiv(x, 100)) + "." + FormatD02(CMod(x, 100))) == Some(x as int)
  {
    var whole, frac := DecimalDigits(x / 100), FormatD02(x % 100);
    assert CDiv(x, 100) == x / 100 && CMod(x, 100) == x % 100;
    FormatX100Parses(x, whole, frac);
    assert FormatD(CDiv(x, 100)) == "" + whole;
  }

  /** A negative multiple of 100 prints as "-W.00" and reads back as itself. */
  lemma WholeNegativeReadsBack(x: int32)
    requires x < 0 && CMod(x, 100) == 0
    ensures ParseX100(FormatD(CDiv(x, 100)) + "." + FormatD02(CMod(x, 100))) == Some(x as int)
  {
    var q := CDiv(x, 100);
    assert q < 0 && x == 100 * q;
    var whole := DecimalDigits(-q);
    DecimalDigitsRoundTrip(-q);
    TwoDigitsRoundTrip(0);
    assert FormatD(q) == "-" + whole;
    assert IsDigit(whole[0]);
    ParseNumeral(true, whole, FormatD02(0), -q, 0);
  }

  /** A fraction printed with its own minus sign ("-5", "-50") never leaves a readable numeral. */
  lemma NegativeFractionUnreadable(head: string, m: int)
    requires -100 < m < 0
    ensures ParseX100(head + "." + FormatD02(m)) == None
  {
    var digits := DecimalDigits(-m);
    var frac := FormatD02(m);
    assert frac == "-" + digits;
    var s := head + "." + frac;
    if -m < 10 {
      assert frac == ['-', DigitChar(-m)];
      assert s[|s| - 2..] == frac;
      assert frac[..1] == ['-'];
      assert ParseDigits(frac) == None;
    } else {
      assert digits == DecimalDigits(-m / 10) + [DigitChar(-m % 10)];
      assert |digits| == 2;
      assert s[|s| - 3] == '-';
    }
  }

  // ---------------------------------------------------------------------------
  // One iteration of the Test-mode loop

  /** The readings printed at lines 46-53, in order: temperature, humidity and the three axes. */
  function Readings(s: Sample): seq<int32>
  {
    [s.tempX100, s.humX100, s.accXG100, s.accYG100, s.accZG100]
  }

  /**
   * The readings as lines 46-53 print them, in the order of Readings. A
   * reading reads back as itself when it is non-negative or a multiple of
   * 100; any other negative reading prints as no numeral at all.
   */
  function FormatReadings(s: Sample): (texts: seq<string>)
    ensures |texts| == |Readings(s)|
    ensures forall i :: 0 <= i < |texts| ==>
              ParseX100(texts[i])
              == if Readings(s)[i] >= 0 || CMod(Readings(s)[i], 100) == 0 then Some(Readings(s)[i] as int) else None
  {
    var values := Readings(s);
    seq(|values|, i requires 0 <= i < |values| => FormatX100AsWritten(values[i]))
  }

  /** The readings printed with the corrected FormatX100: every one reads back as its value. */
  function FormatReadingsCorrected(s: Sample): (texts: seq<string>)
    ensures |texts| == |Readings(s)|
    ensures forall i :: 0 <= i < |texts| ==> ParseX100(texts[i]) == Some(Readings(s)[i] as int)
  {
    var values := Readings(s);
    seq(|values|, i requires 0 <= i < |values| => FormatX100(values[i]))
  }

  /**
   * One pass of the `while (1)` loop: take a snapshot, drive the RGB LED from
   * its dominant colour and produce the colour name and readings to print.
   * `prior` is what the local `s` held before.
   */
  method TestModeTick(plane: StatePlane, prior: Sample) returns (rgb: Rgb, name: string, readings: seq<string>)
    requires plane.Valid()
    ensures rgb == RgbForColor(plane.Latest().domColor)
    ensures name == DominantLabel(plane.Latest().domColor)
    ensures readings == FormatReadings(plane.Latest())
  {
    var s;
    ghost var rounds;
    s, rounds := plane.GetSnapshot(prior);
    rgb := RgbForColor(s.domColor);
    name := DominantLabel(s.domColor);
    readings := FormatReadings(s);
  }
}
