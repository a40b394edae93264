/**
 * The sensor thread's pure logic (src/helpers/sensor_thread.c): the GPS line
 * accumulator fed one UART character at a time, and the per-sample
 * dominant-colour rule.
 */
module SensorThread {
  import opened CInt
  import opened PlantcareData

  /** Size of the static `line` buffer; at most LineSize - 1 characters are kept. */
  const LineSize: nat := 64
  /** Characters one `gps_update` call reads at most. */
  const MaxCharsPerUpdate: nat := 200

  const NUL: byte := 0
  const LF: byte := 10
  const CR: byte := 13

  // ---------------------------------------------------------------------------
  // C strings

  /** Index of the first NUL byte: where a C string held in `s` ends. */
  function FirstNul(s: seq<byte>): (k: nat)
    requires NUL in s
    ensures k < |s| && s[k] == NUL
    ensures forall j :: 0 <= j < k ==> s[j] != NUL
  {
    if s[0] == NUL then 0 else 1 + FirstNul(s[1..])
  }

  /** The C string stored at the start of `s`, without its terminator. */
  function CString(s: seq<byte>): seq<byte>
    requires NUL in s
  {
    s[..FirstNul(s)]
  }

  /**
   * The destination after the copy loop at lines 47-50: bytes of `src` are
   * copied up to and including its first NUL, but never more than |dst| of them;
   * bytes after the terminator keep their previous value.
   */
  function CopyCString(src: seq<byte>, dst: seq<byte>): (r: seq<byte>)
    requires NUL in src
    ensures |r| == |dst|
    ensures FirstNul(src) < |dst| ==>
              r[..FirstNul(src) + 1] == src[..FirstNul(src) + 1] && r[FirstNul(src) + 1..] == dst[FirstNul(src) + 1..]
    ensures |dst| <= FirstNul(src) ==> r == src[..|dst|]
  {
    var k := FirstNul(src);
    seq(|dst|, i requires 0 <= i < |dst| => if i <= k then src[i] else dst[i])
  }

  /**
   * When the destination has room for the terminator, it afterwards holds the
   * same C string as the source; otherwise it holds a truncated prefix with no
   * terminator at all.
   */
  lemma CopyCStringDelivers(src: seq<byte>, dst: seq<byte>)
    requires NUL in src
    ensures FirstNul(src) < |dst| ==> NUL in CopyCString(src, dst) && CString(CopyCString(src, dst)) == CString(src)
    ensures |dst| <= FirstNul(src) ==> NUL !in CopyCString(src, dst)
  {
    var r, k := CopyCString(src, dst), FirstNul(src);
    if k < |dst| {
      assert r[k] == src[k];
      assert forall j :: 0 <= j < k ==> r[j] == src[j];
      assert FirstNul(r) == k;
    } else {
      assert forall j :: 0 <= j < |r| ==> r[j] == src[j] && j < k;
    }
  }

  // ---------------------------------------------------------------------------
  // The GPS line accumulator

  /** The accumulator's observable state: the partial line `line[..idx]` and the sample's sentence buffer. */
  datatype GpsState = GpsState(pending: seq<byte>, sentence: seq<byte>)

  /** One character handled by the loop body of `gps_update`. */
  function Step(st: GpsState, ch: byte): GpsState
  {
    if ch == CR then
      st                                        // ignored
    else if ch == LF then
      GpsState([], CopyCString(st.pending + [NUL], st.sentence))  // commit and restart
    else if |st.pending| < LineSize - 1 then
      GpsState(st.pending + [ch], st.sentence)  // append
    else
      GpsState([], st.sentence)                 // overflow: drop the partial line and this character
  }

  /** The state after handling `chars` in order. */
  function Feed(st: GpsState, chars: seq<byte>): GpsState
  {
    if chars == [] then st else Step(Feed(st, chars[..|chars| - 1]), chars[|chars| - 1])
  }

  /** `chars` with every carriage return removed. */
  function WithoutCR(chars: seq<byte>): (r: seq<byte>)
    ensures CR !in r
    ensures |r| <= |chars|
  {
    if chars == [] then []
    else if chars[|chars| - 1] == CR then WithoutCR(chars[..|chars| - 1])
    else WithoutCR(chars[..|chars| - 1]) + [chars[|chars| - 1]]
  }

  /** An ordinary character: neither a line feed nor a carriage return. */
  predicate Ordinary(ch: byte)
  {
    ch != LF && ch != CR
  }

  /** Input split across two calls is handled as if it came in one: the partial line carries over. */
  lemma {:induction false} FeedConcat(st: GpsState, a: seq<byte>, b: seq<byte>)
    ensures Feed(st, a + b) == Feed(Feed(st, a), b)
  {
    if b != [] {
      assert (a + b)[..|a + b| - 1] == a + b[..|b| - 1];
      FeedConcat(st, a, b[..|b| - 1]);
    } else {
      assert a + b == a;
    }
  }

  /** The partial line never reaches the size of `line`, so `line[idx]` is always in bounds. */
  lemma {:induction false} FeedKeepsLineBound(st: GpsState, chars: seq<byte>)
    requires |st.pending| < LineSize
    ensures |Feed(st, chars).pending| < LineSize
  {
    if chars != [] {
      FeedKeepsLineBound(st, chars[..|chars| - 1]);
    }
  }

  /** Handling one more character is one more Step. */
  lemma FeedSnoc(st: GpsState, chars: seq<byte>, ch: byte)
    ensures Feed(st, chars + [ch]) == Step(Feed(st, chars), ch)
  {
    assert (chars + [ch])[..|chars|] == chars;
  }

  /** The sentence buffer keeps its size: `gps_update` writes into it, never past it. */
  lemma {:induction false} FeedKeepsSentenceSize(st: GpsState, chars: seq<byte>)
    ensures |Feed(st, chars).sentence| == |st.sentence|
  {
    if chars != [] {
      FeedKeepsSentenceSize(st, chars[..|chars| - 1]);
    }
  }

  /** Carriage returns make no difference at all. */
  lemma {:induction false} FeedIgnoresCR(st: GpsState, chars: seq<byte>)
    ensures Feed(st, chars) == Feed(st, WithoutCR(chars))
  {
    if chars != [] {
      var init, last := chars[..|chars| - 1], chars[|chars| - 1];
      FeedIgnoresCR(st, init);
      if last != CR {
        var w := WithoutCR(init) + [last];
        assert w[..|w| - 1] == WithoutCR(init);
      }
    }
  }

  /** Without a line feed the sentence buffer is never written. */
  lemma {:induction false} FeedWithoutLFKeepsSentence(st: GpsState, chars: seq<byte>)
    requires LF !in chars
    ensures Feed(st, chars).sentence == st.sentence
  {
    if chars != [] {
      var init := chars[..|chars| - 1];
      assert forall c :: c in init ==> c in chars;
      FeedWithoutLFKeepsSentence(st, init);
    }
  }

  /**
   * What a run of ordinary characters leaves of `all` (the old line followed by
   * the run): every 64th character finds the line full and drops it together
   * with itself, so only the last |all| mod 64 characters remain.
   */
  function KeptTail(all: seq<byte>): (t: seq<byte>)
    ensures |t| == |all| % LineSize
  {
    all[|all| - |all| % LineSize..]
  }

  /**
   * A run of ordinary characters: the line grows by one per character and is
   * dropped, with the character that overflowed it, once it is full. The
   * sentence buffer is not touched.
   */
  lemma {:induction false} FeedOrdinaryRun(st: GpsState, chars: seq<byte>)
    requires |st.pending| < LineSize
    requires forall i :: 0 <= i < |chars| ==> Ordinary(chars[i])
    ensures Feed(st, chars) == GpsState(KeptTail(st.pending + chars), st.sentence)
  {
    if chars == [] {
      assert st.pending + chars == st.pending;
    } else {
      var init, last := chars[..|chars| - 1], chars[|chars| - 1];
      assert forall i :: 0 <= i < |init| ==> init[i] == chars[i];
      FeedOrdinaryRun(st, init);
      OrdinaryStep(st.pending + init, st.sentence, last);
      assert st.pending + chars == (st.pending + init) + [last];
    }
  }

  /** One ordinary character extends the kept tail by itself, or drops it when the line is full. */
  lemma OrdinaryStep(all: seq<byte>, sentence: seq<byte>, last: byte)
    requires Ordinary(last)
    ensures Step(GpsState(KeptTail(all), sentence), last) == GpsState(KeptTail(all + [last]), sentence)
  {
    var n := |all|;
    var t := KeptTail(all);
    NextRemainder(n);
    if |t| < LineSize - 1 {
      assert (all + [last])[n + 1 - (n + 1) % LineSize..] == t + [last];
    } else {
      assert KeptTail(all + [last]) == [];
    }
  }

  /** Counting one more character moves the remainder modulo 64 on by one, wrapping to 0. */
  lemma NextRemainder(n: nat)
    ensures n % LineSize < LineSize - 1 ==> (n + 1) % LineSize == n % LineSize + 1
    ensures n % LineSize == LineSize - 1 ==> (n + 1) % LineSize == 0
  {
    var q, r := n / LineSize, n % LineSize;
    assert n == LineSize * q + r;
    if r < LineSize - 1 {
      assert n + 1 == LineSize * q + (r + 1);
    } else {
      assert n + 1 == LineSize * (q + 1);
    }
  }

  /** A line feed always leaves an empty partial line and a sentence buffer of the same size. */
  lemma LineFeedRestartsLine(st: GpsState, chars: seq<byte>)
    ensures Feed(st, chars + [LF]).pending == []
    ensures |Feed(st, chars + [LF]).sentence| == |st.sentence|
  {
    FeedSnoc(st, chars, LF);
    FeedKeepsSentenceSize(st, chars);
  }

  /** From an empty line, up to 63 ordinary characters are appended verbatim. */
  lemma ShortRunIsKept(st: GpsState, chars: seq<byte>)
    requires st.pending == [] && |chars| < LineSize
    requires forall i :: 0 <= i < |chars| ==> Ordinary(chars[i])
    ensures Feed(st, chars) == GpsState(chars, st.sentence)
  {
    FeedOrdinaryRun(st, chars);
    assert st.pending + chars == chars;
  }

  /**
   * A line of at most 63 ordinary non-NUL characters, ended by a line feed,
   * reaches the sentence buffer NUL-terminated when the buffer has room for it,
   * whatever came before the line feed that started it.
   */
  lemma CommitsCompleteLine(st: GpsState, before: seq<byte>, line: seq<byte>)
    requires |line| < LineSize && |line| < |st.sentence|
    requires forall i :: 0 <= i < |line| ==> Ordinary(line[i]) && line[i] != NUL
    ensures var after := Feed(st, before + [LF] + line + [LF]);
            && after.pending == []
            && NUL in after.sentence
            && CString(after.sentence) == line
  {
    var withLF := before + [LF];
    LineFeedRestartsLine(st, before);
    var mid := Feed(st, withLF);
    FeedConcat(st, withLF, line);
    ShortRunIsKept(mid, line);
    FeedSnoc(st, withLF + line, LF);
    var src := line + [NUL];
    assert FirstNul(src) == |line| by {
      assert forall j :: 0 <= j < |line| ==> src[j] != NUL;
    }
    CopyCStringDelivers(src, mid.sentence);
    assert CString(src) == line;
  }

  /**
   * The static accumulator of `gps_update`: the 64-byte `line` and the index
   * `idx` of the next free position, both surviving between calls.
   */
  class GpsLineBuffer {
    const line: array<byte>
    var idx: nat

    ghost predicate Valid()
      reads this
    {
      line.Length == LineSize && idx < LineSize
    }

    /** The accumulator together with the sentence buffer it commits to. */
    ghost function State(dest: array<byte>): GpsState
      reads this, line, dest
      requires Valid()
    {
      GpsState(line[..idx], dest[..])
    }

    /** The zero-initialised statics. */
    constructor ()
      ensures Valid() && fresh(line) && idx == 0
      ensures forall i :: 0 <= i < LineSize ==> line[i] == 0
    {
      line := new byte[LineSize](_ => 0);
      idx := 0;
    }

    /**
     * gps_update: reads at most 200 characters from the GPS UART, whose
     * pending bytes are `input`; the reader reports "no data" once they are
     * used up. `dest` is the sample's `gps_last_sentence`.
     */
    method Update(input: seq<byte>, dest: array<byte>) returns (consumed: nat)
      requires Valid() && dest != line
      modifies this, line, dest
      ensures Valid()
      ensures consumed == Min(|input|, MaxCharsPerUpdate)
      ensures State(dest) == Feed(old(State(dest)), input[..consumed])
    {
      ghost var st0 := State(dest);
      var iterations := 0;
      while iterations < MaxCharsPerUpdate
        invariant Valid()
        invariant iterations <= Min(|input|, MaxCharsPerUpdate)
        invariant State(dest) == Feed(st0, input[..iterations])
      {
        if iterations >= |input| {
          break;                      // no more data right now
        }
        var ch := input[iterations];
        ghost var before := State(dest);
        assert input[..iterations + 1][..iterations] == input[..iterations];
        iterations := iterations + 1;

        if ch == CR {
          continue;
        }

        if ch == LF {
          line[idx] := NUL;
          assert line[..idx + 1] == before.pending + [NUL];
          CommitLine(dest);
          idx := 0;
        } else {
          if idx < LineSize - 1 {
            line[idx] := ch;
            idx := idx + 1;
            assert line[..idx] == before.pending + [ch];
          } else {
            idx := 0;                 // overflow: reset and start over
          }
        }
      }
      consumed := iterations;
    }

    /** The copy loop at lines 47-50, run once `line[idx]` holds the terminator. */
    method CommitLine(dest: array<byte>)
      requires Valid() && dest != line && line[idx] == NUL
      modifies dest
      ensures dest[..] == CopyCString(line[..idx + 1], old(dest[..]))
    {
      ghost var src := line[..idx + 1];
      ghost var d0 := dest[..];
      var i := 0;
      while i < dest.Length
        invariant 0 <= i <= dest.Length && i <= FirstNul(src)
        invariant forall j :: 0 <= j < i ==> line[j] != NUL && dest[j] == line[j]
        invariant forall j :: i <= j < dest.Length ==> dest[j] == d0[j]
      {
        dest[i] := line[i];
        if line[i] == NUL {
          assert FirstNul(src) == i;
          assert dest[..] == CopyCString(src, d0);
          return;
        }
        i := i + 1;
      }
      assert dest[..] == src[..dest.Length];
    }
  }

  /**
   * One cycle's GPS step in the sensor thread (lines 78, 105 and 108-110):
   * the sentence is cleared, the accumulator is fed, and a sentence only
   * appears if a line feed completed a line in this cycle.
   */
  method RefreshGpsSentence(gps: GpsLineBuffer, input: seq<byte>, dest: array<byte>) returns (consumed: nat)
    requires gps.Valid() && dest != gps.line && dest.Length > 0
    modifies gps, gps.line, dest
    ensures gps.Valid()
    ensures consumed == Min(|input|, MaxCharsPerUpdate)
    ensures gps.State(dest) == Feed(GpsState(old(gps.line[..gps.idx]), old(dest[..])[0 := NUL]), input[..consumed])
    ensures LF !in input[..consumed] ==> dest[0] == NUL
  {
    dest[0] := NUL;
    consumed := gps.Update(input, dest);
    if LF !in input[..consumed] {
      FeedWithoutLFKeepsSentence(GpsState(old(gps.line[..gps.idx]), old(dest[..])[0 := NUL]), input[..consumed]);
    }
    if dest[0] == NUL {
      dest[0] := NUL;
    }
  }

  // ---------------------------------------------------------------------------
  // Dominant colour

  function Max3(a: int, b: int, c: int): int
  {
    if a >= b && a >= c then a else if b >= c then b else c
  }

  /** The reading of the channel a colour names. */
  function Channel(c: DomColor, red: uint16, green: uint16, blue: uint16): int
  {
    match c
    case Red => red
    case Green => green
    case Blue => blue
    case Unknown => -1
  }

  /**
   * The if/else chain at lines 95-102: the strongest channel wins, ties going
   * to red first, then green. The Unknown fallback is never reached.
   */
  function DominantColor(red: uint16, green: uint16, blue: uint16): (c: DomColor)
    ensures c != Unknown
    ensures Channel(c, red, green, blue) == Max3(red, green, blue)
    ensures c == Red <==> red == Max3(red, green, blue)
    ensures c == Green <==> red < green == Max3(red, green, blue)
  {
    var c := Unknown;
    if red >= green && red >= blue then Red
    else if green >= red && green >= blue then Green
    else if blue >= red && blue >= green then Blue
    else c
  }
}
