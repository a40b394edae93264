/**
 * The Normal-mode loop (src/helpers/plantcare_mode_normal.c): it idles until
 * the button event flag is raised, consumes it and switches to Test mode.
 */
module ModeNormal {
  import opened Config

  /**
   * The tick at which the loop first finds the event flag raised, when the
   * flag starts as `flag` and `isrEvents[t]` says whether the interrupt raised
   * it just before tick t; |isrEvents| when it never does within these ticks.
   */
  function FirstPendingTick(flag: bool, isrEvents: seq<bool>): (k: nat)
    ensures k <= |isrEvents|
    ensures k < |isrEvents| <==> isrEvents != [] && (flag || true in isrEvents)
    ensures k < |isrEvents| ==> (k == 0 && flag) || isrEvents[k]
    ensures forall j :: 0 <= j < k ==> !isrEvents[j]
    ensures k > 0 ==> !flag
  {
    if isrEvents == [] then 0
    else if flag || isrEvents[0] then 0
    else
      assert isrEvents == [isrEvents[0]] + isrEvents[1..];
      1 + FirstPendingTick(false, isrEvents[1..])
  }

  /**
   * plantcare_run_normal_mode over the ticks `isrEvents` covers (the loop
   * sleeps between ticks; a tick's entry says whether the interrupt handler
   * raised the flag during the preceding sleep). Each tick with the flag
   * clear changes nothing; the first tick that finds it raised clears it,
   * sets the mode to Test and returns. `ticks` counts loop iterations.
   */
  method RunNormalMode(g: Globals, isrEvents: seq<bool>) returns (ticks: nat)
    modifies g`currentMode, g`buttonPressedEvent
    ensures old(g.currentMode) != Normal ==>
              ticks == 0 && g.currentMode == old(g.currentMode) && g.buttonPressedEvent == old(g.buttonPressedEvent)
    ensures old(g.currentMode) == Normal ==>
              var k := FirstPendingTick(old(g.buttonPressedEvent), isrEvents);
              if k < |isrEvents| then
                ticks == k + 1 && g.currentMode == Test && !g.buttonPressedEvent
              else
                ticks == |isrEvents| && g.currentMode == Normal && g.buttonPressedEvent == old(g.buttonPressedEvent)
  {
    ghost var k := FirstPendingTick(g.buttonPressedEvent, isrEvents);
    ticks := 0;
    while g.currentMode == Normal && ticks < |isrEvents|
      invariant ticks <= |isrEvents|
      invariant old(g.currentMode) != Normal ==> ticks == 0 && g.currentMode == old(g.currentMode) && g.buttonPressedEvent == old(g.buttonPressedEvent)
      invariant old(g.currentMode) == Normal && g.currentMode == Normal ==>
                  ticks <= k && g.buttonPressedEvent == old(g.buttonPressedEvent) && (ticks > 0 ==> !g.buttonPressedEvent)
      invariant old(g.currentMode) == Normal && g.currentMode != Normal ==>
                  k < |isrEvents| && ticks == k + 1 && g.currentMode == Test && !g.buttonPressedEvent
    {
      if isrEvents[ticks] {
        g.buttonPressedEvent := true;   // raised by the interrupt handler while the loop slept
      }
      if g.buttonPressedEvent {
        g.buttonPressedEvent := false;  // consume the event
        g.currentMode := Test;
        ticks := ticks + 1;
        break;
      }
      ticks := ticks + 1;               // k_sleep(50 ms)
    }
  }
}
