/**
 * The user-button driver (src/sensors/button.c): rising-edge detection over
 * polled GPIO levels. Each GPIO level read (`gpio_pin_get_dt`) is an input:
 * negative for a read error, 0 for released, anything else for pressed.
 */
module Button {

  const ENODEV: int := 19

  /** A level read that succeeded and reports the button pressed. */
  predicate Pressed(level: int)
  {
    level > 0
  }

  /** What a run of `button_was_pressed` calls leaves behind: the events reported and the stored level. */
  datatype PollResult = PollResult(events: nat, last: bool)

  /**
   * Reference model of consecutive `button_was_pressed` calls on an
   * initialised button: failed reads are skipped, and an event is counted at
   * each released-to-pressed transition.
   */
  function Poll(last: bool, levels: seq<int>): PollResult
  {
    if levels == [] then PollResult(0, last)
    else
      var prev := Poll(last, levels[..|levels| - 1]);
      var level := levels[|levels| - 1];
      if level < 0 then prev
      else PollResult(prev.events + (if !prev.last && level != 0 then 1 else 0), level != 0)
  }

  /** A button held down throughout reports at most one press: the first call, if it was released before. */
  lemma {:induction false} HeldButtonReportsOneEdge(last: bool, levels: seq<int>)
    requires forall i :: 0 <= i < |levels| ==> Pressed(levels[i])
    ensures Poll(last, levels).events == (if !last && levels != [] then 1 else 0)
    ensures Poll(last, levels).last == (last || levels != [])
  {
    if levels != [] {
      HeldButtonReportsOneEdge(last, levels[..|levels| - 1]);
    }
  }

  /** A run of polls reports no more presses than it has successful reads that saw the button pressed. */
  lemma {:induction false} EventsNeedPressedReads(last: bool, levels: seq<int>)
    ensures Poll(last, levels).events <= |set i | 0 <= i < |levels| && Pressed(levels[i])|
  {
    if levels != [] {
      var init := levels[..|levels| - 1];
      EventsNeedPressedReads(last, init);
      var before := set i | 0 <= i < |init| && Pressed(init[i]);
      var after := set i | 0 <= i < |levels| && Pressed(levels[i]);
      var n := |levels| - 1;
      if Pressed(levels[n]) {
        assert after == before + {n};
        assert n !in before;
      } else {
        assert after == before;
      }
    }
  }

  /** The driver's statics `last_state` and `initialized`. */
  class Button {
    var lastState: bool
    var initialized: bool

    /** Both statics start false. */
    constructor ()
      ensures !lastState && !initialized
    {
      lastState, initialized := false, false;
    }

    /**
     * button_init: fails with -ENODEV when the GPIO device is not ready, or
     * with the configure result when that is non-zero; otherwise records the
     * initial level (a failed read counts as released) and marks the button
     * initialised.
     */
    method Init(deviceReady: bool, configureResult: int, level: int) returns (ret: int)
      modifies this
      ensures !deviceReady ==> ret == -ENODEV && unchanged(this)
      ensures deviceReady && configureResult != 0 ==> ret == configureResult && unchanged(this)
      ensures deviceReady && configureResult == 0 ==> ret == 0 && initialized && lastState == Pressed(level)
    {
      if !deviceReady {
        return -ENODEV;
      }
      if configureResult != 0 {
        return configureResult;
      }
      var l := level;
      if l < 0 {
        l := 0;
      }
      lastState := l != 0;
      initialized := true;
      ret := 0;
    }

    /** button_is_pressed: the live level, false before init or on a failed read; changes nothing. */
    method IsPressed(level: int) returns (pressed: bool)
      ensures pressed <==> initialized && Pressed(level)
    {
      if !initialized {
        return false;
      }
      if level < 0 {
        return false;
      }
      pressed := level != 0;
    }

    /**
     * button_was_pressed: true exactly on a released-to-pressed transition
     * since the last successful read. Before init, or when the read fails,
     * nothing is stored.
     */
    method WasPressed(level: int) returns (event: bool)
      modifies this`lastState
      ensures initialized && level >= 0 ==> event == (!old(lastState) && level != 0) && lastState == (level != 0)
      ensures !(initialized && level >= 0) ==> !event && lastState == old(lastState)
      ensures initialized ==> PollResult(if event then 1 else 0, lastState) == Poll(old(lastState), [level])
    {
      if !initialized {
        return false;
      }
      if level < 0 {
        return false;
      }
      var curr := level != 0;
      event := !lastState && curr;
      lastState := curr;
    }

    /**
     * The polling loop of main (src/main.c:60-65) over a finite run of level
     * reads: it calls `button_was_pressed` once per read and counts the
     * presses it reports, which is what the reference model Poll predicts.
     */
    method CountPresses(levels: seq<int>) returns (presses: nat)
      modifies this`lastState
      ensures initialized ==> PollResult(presses, lastState) == Poll(old(lastState), levels)
      ensures !initialized ==> presses == 0 && lastState == old(lastState)
    {
      presses := 0;
      var i := 0;
      while i < |levels|
        invariant 0 <= i <= |levels|
        invariant initialized ==> PollResult(presses, lastState) == Poll(old(lastState), levels[..i])
        invariant !initialized ==> presses == 0 && lastState == old(lastState)
      {
        var pressed := WasPressed(levels[i]);
        if pressed {
          presses := presses + 1;
        }
        assert levels[..i + 1][..i] == levels[..i];
        i := i + 1;
      }
      assert levels[..i] == levels;
    }
  }
}
