/**
 What the macOS loop guarantees: strict left/right alternation, the watchdog's
 deadline bookkeeping and alert spacing, the three encounter branches, and
 that a paused pass changes nothing.
 */
module MacBotProofs {
  import opened Wrappers
  import opened MacBot
  import Matching
  import opened Traces

  predicate IsArrowPress(e: Event)
  {
    e.Press? && (e.code == LeftArrow || e.code == RightArrow)
  }

  predicate IsCombatPress(e: Event)
  {
    e.Press? && e.code != LeftArrow && e.code != RightArrow
  }

  predicate IsNoEncountersBeep(e: Event)
  {
    e == Beep(NoEncounters)
  }

  /** The arrow key a pass presses when `last_dir[0]` is `d`. */
  function ArrowFor(d: int): int
  {
    if d == 0 then RightArrow else LeftArrow
  }

  // ---------------------------------------------------------------------------
  // One pass
  // ---------------------------------------------------------------------------

  /** A paused pass sleeps and changes none of `last_dir`, `encounter_count`, `last_encounter_time`, `next_check_time`. */
  lemma PauseLeavesStateUntouched(cfg: BotConfig, st: LoopState, inp: TickInput)
    requires !inp.stop && inp.paused
    ensures Tick(cfg, st, inp) == Step(st, [Sleep(PauseSleepMs)], Running)
  {
  }

  /** The stop flag ends the loop before anything else happens. */
  lemma StopEndsAtOnce(cfg: BotConfig, st: LoopState, inp: TickInput)
    requires inp.stop
    ensures Tick(cfg, st, inp) == Step(st, [], Stopped)
  {
  }

  /** The watchdog step: an optional alert and the poll sleep, never a key press; it alerts exactly when due. */
  lemma WatchdogShape(st: LoopState, now: int)
    ensures var w := Watchdog(st, now);
      && (forall i :: 0 <= i < |w.events| ==> !w.events[i].Press?)
      && Filter(w.events, IsNoEncountersBeep)
         == (if now >= st.nextCheckTime && now - st.lastEncounterTime >= WatchdogMs then [Beep(NoEncounters)] else [])
      && w.state == st.(nextCheckTime := if now >= st.nextCheckTime then now + WatchdogMs else st.nextCheckTime)
  {
    var w := Watchdog(st, now);
    if now >= st.nextCheckTime && now - st.lastEncounterTime >= WatchdogMs {
      FilterOne(w.events, IsNoEncountersBeep, 1);
    } else {
      FilterNone(w.events, IsNoEncountersBeep);
    }
  }

  /** Whether a pass fights: it detected an encounter and read a name that matches no target. */
  predicate Fights(cfg: BotConfig, inp: TickInput)
  {
    Active(inp) && Detected(inp) && !inp.emptyNameCapture && !Matching.AnyTarget(cfg.similarity, inp.name, inp.targets)
  }

  /** An active pass whose capture of the indicator has pixels, none of them reddish. */
  predicate Quiet(inp: TickInput)
  {
    Active(inp) && !IndicatorRaises(inp) && !Detected(inp)
  }

  /** An active pass that gets to the watchdog: it neither dies nor finds a target. */
  predicate ReachesWatchdog(cfg: BotConfig, inp: TickInput)
  {
    Active(inp) && !Raises(inp) && !FindsTarget(cfg, inp)
  }

  /** The key a fighting pass presses. */
  function CombatPress(cfg: BotConfig): Event
  {
    Press(MacKeycodes[DefeatKey(cfg.moveChoice)], CombatHoldMs)
  }

  /** The combat key is never an arrow, whatever the chosen move. */
  lemma CombatPressIsNoArrow(cfg: BotConfig)
    ensures IsCombatPress(CombatPress(cfg))
  {
  }

  /** A pass that detects nothing: the arrow, then the watchdog step. */
  lemma QuietTickEvents(cfg: BotConfig, st: LoopState, inp: TickInput)
    requires Quiet(inp)
    ensures Tick(cfg, st, inp).events
      == [Press(ArrowFor(st.lastDir), MoveHoldMs)] + Watchdog(st.(lastDir := Move(st.lastDir).1), inp.checkAt).events
  {
  }

  /** A pass that finds a target: the arrow, the two encounter lines and the target beep. */
  lemma TargetTickEvents(cfg: BotConfig, st: LoopState, inp: TickInput)
    requires FindsTarget(cfg, inp)
    ensures Tick(cfg, st, inp).events
      == [Press(ArrowFor(st.lastDir), MoveHoldMs), Log(WildEncountered(st.encounterCount + 1)),
          Log(EncounteredName(inp.name)), Beep(TargetEncountered(inp.name))]
  {
  }

  /** The variables right after a detection, before the watchdog looks. */
  function AfterEncounter(st: LoopState, inp: TickInput): LoopState
  {
    LoopState(Move(st.lastDir).1, st.encounterCount + 1, inp.detectAt, inp.detectAt + WatchdogMs)
  }

  /** A pass that fights: the arrow, three lines, the combat key, the settle sleep, then the watchdog step. */
  lemma FightTickEvents(cfg: BotConfig, st: LoopState, inp: TickInput)
    requires Fights(cfg, inp)
    ensures Tick(cfg, st, inp).events
      == [Press(ArrowFor(st.lastDir), MoveHoldMs), Log(WildEncountered(st.encounterCount + 1)),
          Log(EncounteredName(inp.name)), Log(Defeating(cfg.moveChoice)), CombatPress(cfg), Sleep(SettleMs)]
         + Watchdog(AfterEncounter(st, inp), inp.checkAt).events
  {
  }

  /**
   A pass that dies on an empty capture: the arrow, then (when it was the name
   region's capture, after a detection) the encounter line with the count
   already raised; no watchdog, no sleep.
   */
  lemma CrashTickEvents(cfg: BotConfig, st: LoopState, inp: TickInput)
    requires Raises(inp)
    ensures Tick(cfg, st, inp) ==
      if IndicatorRaises(inp) then Step(st.(lastDir := Move(st.lastDir).1), [Press(ArrowFor(st.lastDir), MoveHoldMs)], Crashed)
      else Step(AfterEncounter(st, inp),
                [Press(ArrowFor(st.lastDir), MoveHoldMs), Log(WildEncountered(st.encounterCount + 1))], Crashed)
  {
  }

  /**
   The layout of an active pass's events: the movement arrow comes first and is
   the only arrow; when the pass fights, the combat key comes fifth (after the
   arrow and three log lines); nothing else is a key press.
   */
  predicate Layout(e: seq<Event>, arrow: Event, combat: Option<Event>)
  {
    && |e| >= 1 && e[0] == arrow
    && (forall i :: 1 <= i < |e| ==> !IsArrowPress(e[i]))
    && (combat.Some? ==> |e| >= 5 && e[4] == combat.value)
    && (forall i :: 1 <= i < |e| && (i != 4 || combat.None?) ==> !e[i].Press?)
  }

  lemma LayoutOf(head: seq<Event>, rest: seq<Event>, arrow: Event, combat: Option<Event>)
    requires |head| >= 1 && head[0] == arrow
    requires combat.Some? ==> |head| >= 5 && head[4] == combat.value && IsCombatPress(combat.value)
    requires forall i :: 1 <= i < |head| && (i != 4 || combat.None?) ==> !head[i].Press?
    requires forall i :: 0 <= i < |rest| ==> !rest[i].Press?
    ensures Layout(head + rest, arrow, combat)
  {
  }

  lemma QuietTickShape(cfg: BotConfig, st: LoopState, inp: TickInput)
    requires Quiet(inp)
    ensures Layout(Tick(cfg, st, inp).events, Press(ArrowFor(st.lastDir), MoveHoldMs), None)
  {
    var arrow := Press(ArrowFor(st.lastDir), MoveHoldMs);
    var w := Watchdog(st.(lastDir := Move(st.lastDir).1), inp.checkAt);
    QuietTickEvents(cfg, st, inp);
    WatchdogShape(st.(lastDir := Move(st.lastDir).1), inp.checkAt);
    LayoutOf([arrow], w.events, arrow, None);
  }

  lemma TargetTickShape(cfg: BotConfig, st: LoopState, inp: TickInput)
    requires FindsTarget(cfg, inp)
    ensures Layout(Tick(cfg, st, inp).events, Press(ArrowFor(st.lastDir), MoveHoldMs), None)
  {
    var arrow := Press(ArrowFor(st.lastDir), MoveHoldMs);
    TargetTickEvents(cfg, st, inp);
    LayoutOf([arrow, Log(WildEncountered(st.encounterCount + 1)), Log(EncounteredName(inp.name)),
              Beep(TargetEncountered(inp.name))], [], arrow, None);
  }

  lemma FightTickShape(cfg: BotConfig, st: LoopState, inp: TickInput)
    requires Fights(cfg, inp)
    ensures Layout(Tick(cfg, st, inp).events, Press(ArrowFor(st.lastDir), MoveHoldMs), Some(CombatPress(cfg)))
  {
    var arrow := Press(ArrowFor(st.lastDir), MoveHoldMs);
    var w := Watchdog(AfterEncounter(st, inp), inp.checkAt);
    FightTickEvents(cfg, st, inp);
    WatchdogShape(AfterEncounter(st, inp), inp.checkAt);
    CombatPressIsNoArrow(cfg);
    LayoutOf([arrow, Log(WildEncountered(st.encounterCount + 1)), Log(EncounteredName(inp.name)),
              Log(Defeating(cfg.moveChoice)), CombatPress(cfg), Sleep(SettleMs)],
             w.events, arrow, Some(CombatPress(cfg)));
  }

  lemma CrashTickShape(cfg: BotConfig, st: LoopState, inp: TickInput)
    requires Raises(inp)
    ensures Layout(Tick(cfg, st, inp).events, Press(ArrowFor(st.lastDir), MoveHoldMs), None)
  {
    var arrow := Press(ArrowFor(st.lastDir), MoveHoldMs);
    CrashTickEvents(cfg, st, inp);
    if IndicatorRaises(inp) {
      LayoutOf([arrow], [], arrow, None);
    } else {
      LayoutOf([arrow, Log(WildEncountered(st.encounterCount + 1))], [], arrow, None);
    }
  }

  lemma ActiveTickShape(cfg: BotConfig, st: LoopState, inp: TickInput)
    requires Active(inp)
    ensures Layout(Tick(cfg, st, inp).events, Press(ArrowFor(st.lastDir), MoveHoldMs),
                   if Fights(cfg, inp) then Some(CombatPress(cfg)) else None)
  {
    if Raises(inp) {
      CrashTickShape(cfg, st, inp);
    } else if !Detected(inp) {
      QuietTickShape(cfg, st, inp);
    } else if FindsTarget(cfg, inp) {
      TargetTickShape(cfg, st, inp);
    } else {
      FightTickShape(cfg, st, inp);
    }
  }

  /** Every active pass presses exactly one arrow, chosen by and toggling `last_dir`; other passes press none. */
  lemma TickArrows(cfg: BotConfig, st: LoopState, inp: TickInput)
    ensures var s := Tick(cfg, st, inp);
      && Filter(s.events, IsArrowPress) == (if Active(inp) then [Press(ArrowFor(st.lastDir), MoveHoldMs)] else [])
      && s.state.lastDir == (if Active(inp) then (if st.lastDir == 0 then 1 else 0) else st.lastDir)
  {
    var e := Tick(cfg, st, inp).events;
    if Active(inp) {
      ActiveTickShape(cfg, st, inp);
      FilterOne(e, IsArrowPress, 0);
    } else {
      FilterNone(e, IsArrowPress);
    }
  }

  /** A pass presses the combat key once if it fights and never otherwise. */
  lemma TickCombat(cfg: BotConfig, st: LoopState, inp: TickInput)
    ensures Filter(Tick(cfg, st, inp).events, IsCombatPress) == (if Fights(cfg, inp) then [CombatPress(cfg)] else [])
  {
    var e := Tick(cfg, st, inp).events;
    if Active(inp) {
      ActiveTickShape(cfg, st, inp);
      if Fights(cfg, inp) {
        FilterOne(e, IsCombatPress, 4);
      } else {
        FilterNone(e, IsCombatPress);
      }
    } else {
      FilterNone(e, IsCombatPress);
    }
  }

  /**
   Detection adds exactly one to `encounter_count` and restarts the watchdog
   from the detection time (even when reading the name then raises); no
   detection leaves the count and the last encounter time untouched.
   */
  lemma EncounterBookkeeping(cfg: BotConfig, st: LoopState, inp: TickInput)
    requires Active(inp)
    ensures var s := Tick(cfg, st, inp);
      && (Detected(inp) ==>
            s.state.encounterCount == st.encounterCount + 1 && s.state.lastEncounterTime == inp.detectAt)
      && (!Detected(inp) ==>
            s.state.encounterCount == st.encounterCount && s.state.lastEncounterTime == st.lastEncounterTime)
  {
    var dir := Move(st.lastDir).1;
    if Raises(inp) {
      CrashTickEvents(cfg, st, inp);
    } else if Detected(inp) {
      WatchdogShape(LoopState(dir, st.encounterCount + 1, inp.detectAt, inp.detectAt + WatchdogMs), inp.checkAt);
    } else {
      WatchdogShape(st.(lastDir := dir), inp.checkAt);
    }
  }

  /**
   A detected encounter whose name matches a target beeps, ends the loop and
   presses no combat key: the only key pressed in that pass is the movement arrow.
   */
  lemma TargetMatchStopsWithoutFighting(cfg: BotConfig, st: LoopState, inp: TickInput)
    requires Active(inp) && Detected(inp) && !inp.emptyNameCapture
    requires Matching.AnyTarget(cfg.similarity, inp.name, inp.targets)
    ensures var s := Tick(cfg, st, inp);
      && s.exit == TargetFound
      && Beep(TargetEncountered(inp.name)) in s.events
      && Filter(s.events, IsCombatPress) == []
      && s.state.nextCheckTime == inp.detectAt + WatchdogMs
  {
    TickCombat(cfg, st, inp);
  }

  /**
   A detected encounter that matches no target presses the combat key exactly
   once, the key `move_map.get(move_choice, "1")` names, held 0.1 s, and the
   loop goes on.
   */
  lemma NonMatchFightsOnce(cfg: BotConfig, st: LoopState, inp: TickInput)
    requires Active(inp) && Detected(inp) && !inp.emptyNameCapture
    requires !Matching.AnyTarget(cfg.similarity, inp.name, inp.targets)
    ensures var s := Tick(cfg, st, inp);
      && s.exit == Running
      && Filter(s.events, IsCombatPress) == [Press(MacKeycodes[DefeatKey(cfg.moveChoice)], CombatHoldMs)]
  {
    TickCombat(cfg, st, inp);
    var dir := Move(st.lastDir).1;
    WatchdogShape(LoopState(dir, st.encounterCount + 1, inp.detectAt, inp.detectAt + WatchdogMs), inp.checkAt);
  }

  /** A pass with no detection presses no combat key; the loop goes on unless the capture had no pixels. */
  lemma NoDetectionOnlyMoves(cfg: BotConfig, st: LoopState, inp: TickInput)
    requires Active(inp) && !Detected(inp)
    ensures var s := Tick(cfg, st, inp);
      && s.exit == (if IndicatorRaises(inp) then Crashed else Running)
      && Filter(s.events, IsCombatPress) == []
  {
    TickCombat(cfg, st, inp);
    WatchdogShape(st.(lastDir := Move(st.lastDir).1), inp.checkAt);
  }

  /**
   A pass whose capture has no pixels ends the thread on the spot: the run
   stops there, fights nothing and, unlike a stop or a target, never logs
   the closing "thread stopping" line.
   */
  lemma CrashEndsRunSilently(cfg: BotConfig, st: LoopState, inp: TickInput, rest: seq<TickInput>)
    requires Raises(inp)
    ensures var o := RunFrom(cfg, st, [inp] + rest);
      && o == Tick(cfg, st, inp) && o.exit == Crashed
      && Log(ThreadStopping) !in o.events
      && Filter(o.events, IsCombatPress) == []
  {
    assert ([inp] + rest)[0] == inp;
    TickCombat(cfg, st, inp);
  }

  // ---------------------------------------------------------------------------
  // Watchdog
  // ---------------------------------------------------------------------------

  /** The variables the watchdog of an active pass starts from. */
  function BeforeWatchdog(st: LoopState, inp: TickInput): LoopState
  {
    if Detected(inp) then AfterEncounter(st, inp) else st.(lastDir := Move(st.lastDir).1)
  }

  /** An active pass that does not find a target ends with the watchdog: its alerts and its new variables are the watchdog's. */
  lemma TickEndsWithWatchdog(cfg: BotConfig, st: LoopState, inp: TickInput)
    requires ReachesWatchdog(cfg, inp)
    ensures var s := Tick(cfg, st, inp);
      var w := Watchdog(BeforeWatchdog(st, inp), inp.checkAt);
      && s.exit == Running && s.state == w.state
      && Filter(s.events, IsNoEncountersBeep) == Filter(w.events, IsNoEncountersBeep)
  {
    var w := Watchdog(BeforeWatchdog(st, inp), inp.checkAt);
    var arrow := Press(ArrowFor(st.lastDir), MoveHoldMs);
    var head: seq<Event>;
    if Detected(inp) {
      FightTickEvents(cfg, st, inp);
      head := [arrow, Log(WildEncountered(st.encounterCount + 1)), Log(EncounteredName(inp.name)),
               Log(Defeating(cfg.moveChoice)), CombatPress(cfg), Sleep(SettleMs)];
    } else {
      QuietTickEvents(cfg, st, inp);
      head := [arrow];
    }
    FilterNone(head, IsNoEncountersBeep);
    FilterAppend(head, w.events, IsNoEncountersBeep);
  }

  /** A pass that sleeps, stops, dies or finds a target never raises the "no encounters" alert. */
  lemma NoAlertOffWatchdog(cfg: BotConfig, st: LoopState, inp: TickInput)
    requires !ReachesWatchdog(cfg, inp)
    ensures Filter(Tick(cfg, st, inp).events, IsNoEncountersBeep) == []
  {
    if Raises(inp) {
      CrashTickEvents(cfg, st, inp);
    } else if Active(inp) {
      TargetTickEvents(cfg, st, inp);
    }
    FilterNone(Tick(cfg, st, inp).events, IsNoEncountersBeep);
  }

  /**
   The watchdog invariant relative to the latest clock reading `t`: the
   deadline is at least one interval after the last encounter and at most one
   interval after `t`, and the last encounter is not in the future.
   */
  predicate WatchdogInv(st: LoopState, t: int)
  {
    st.lastEncounterTime + WatchdogMs <= st.nextCheckTime <= t + WatchdogMs && st.lastEncounterTime <= t
  }

  /** The clock never runs backwards: the readings of each pass come after those of the one before. */
  predicate Chronological(t: int, inputs: seq<TickInput>)
    decreases |inputs|
  {
    inputs == [] ||
    (t <= inputs[0].detectAt <= inputs[0].checkAt && Chronological(inputs[0].checkAt, inputs[1..]))
  }

  lemma InitialInv(t0: int)
    ensures WatchdogInv(Initial(t0), t0)
  {
  }

  /**
   The deadline the watchdog of an active pass compares the clock with: the one
   just restarted by an encounter in this pass, or else the one in force.
   */
  function Deadline(st: LoopState, inp: TickInput): int
  {
    if Detected(inp) then inp.detectAt + WatchdogMs else st.nextCheckTime
  }

  /**
   The "no encounters" alert fires in an active pass that reaches the
   watchdog exactly when the clock has reached the deadline: the inner "ten
   seconds since the last encounter" test never fails once the deadline is
   reached. The deadline becomes `now + 10 s` when reached and stays put otherwise.
   */
  lemma AlertIffDeadline(cfg: BotConfig, st: LoopState, inp: TickInput, t: int)
    requires WatchdogInv(st, t) && t <= inp.detectAt <= inp.checkAt
    requires ReachesWatchdog(cfg, inp)
    ensures var s := Tick(cfg, st, inp);
      var due := inp.checkAt >= Deadline(st, inp);
      && Filter(s.events, IsNoEncountersBeep) == (if due then [Beep(NoEncounters)] else [])
      && s.state.nextCheckTime == (if due then inp.checkAt + WatchdogMs else Deadline(st, inp))
  {
    TickEndsWithWatchdog(cfg, st, inp);
    WatchdogShape(BeforeWatchdog(st, inp), inp.checkAt);
  }

  /** Every pass keeps the invariant, and the deadline never moves back. */
  lemma TickKeepsWatchdogInv(cfg: BotConfig, st: LoopState, inp: TickInput, t: int)
    requires WatchdogInv(st, t) && t <= inp.detectAt <= inp.checkAt
    ensures WatchdogInv(Tick(cfg, st, inp).state, inp.checkAt)
    ensures Tick(cfg, st, inp).state.nextCheckTime >= st.nextCheckTime
  {
    if Active(inp) {
      if Raises(inp) {
        CrashTickEvents(cfg, st, inp);
      } else if FindsTarget(cfg, inp) {
        TargetMatchStopsWithoutFighting(cfg, st, inp);
        EncounterBookkeeping(cfg, st, inp);
      } else {
        TickEndsWithWatchdog(cfg, st, inp);
        WatchdogShape(BeforeWatchdog(st, inp), inp.checkAt);
      }
    } else if !inp.stop {
      PauseLeavesStateUntouched(cfg, st, inp);
    }
  }

  /** Whether a pass raises the "no encounters" alert. */
  predicate Alerts(s: Step)
  {
    Filter(s.events, IsNoEncountersBeep) != []
  }

  /** The clock readings of the passes that raise the "no encounters" alert, up to the pass that ends the loop. */
  function AlertTimes(cfg: BotConfig, st: LoopState, inputs: seq<TickInput>): seq<int>
    decreases |inputs|
  {
    if inputs == [] then []
    else
      var s := Tick(cfg, st, inputs[0]);
      var here := if Alerts(s) then [inputs[0].checkAt] else [];
      if s.exit != Running then here else here + AlertTimes(cfg, s.state, inputs[1..])
  }

  /** A pass raises the alert at most once, and only in a running pass. */
  lemma TickAlertsAtMostOnce(cfg: BotConfig, st: LoopState, inp: TickInput, t: int)
    requires WatchdogInv(st, t) && t <= inp.detectAt <= inp.checkAt
    ensures var s := Tick(cfg, st, inp);
      Filter(s.events, IsNoEncountersBeep) == (if Alerts(s) then [Beep(NoEncounters)] else [])
    ensures Alerts(Tick(cfg, st, inp)) ==> Tick(cfg, st, inp).exit == Running
  {
    if ReachesWatchdog(cfg, inp) {
      AlertIffDeadline(cfg, st, inp, t);
      TickEndsWithWatchdog(cfg, st, inp);
    } else {
      NoAlertOffWatchdog(cfg, st, inp);
    }
  }

  /** `AlertTimes` has one entry per "no encounters" beep in the run's trace. */
  lemma {:induction false} AlertTimesCountBeeps(cfg: BotConfig, st: LoopState, t: int, inputs: seq<TickInput>)
    requires WatchdogInv(st, t) && Chronological(t, inputs)
    ensures |AlertTimes(cfg, st, inputs)| == |Filter(RunFrom(cfg, st, inputs).events, IsNoEncountersBeep)|
    decreases |inputs|
  {
    if inputs != [] {
      var inp := inputs[0];
      var s := Tick(cfg, st, inp);
      TickAlertsAtMostOnce(cfg, st, inp, t);
      if s.exit != Running {
        FilterAppend(s.events, Closing(s.exit), IsNoEncountersBeep);
      } else {
        TickKeepsWatchdogInv(cfg, st, inp, t);
        AlertTimesCountBeeps(cfg, s.state, inp.checkAt, inputs[1..]);
        FilterAppend(s.events, RunFrom(cfg, s.state, inputs[1..]).events, IsNoEncountersBeep);
      }
    }
  }

  /**
   At most one "no encounters" alert per interval: the first fires no earlier
   than the deadline in force at the start, and each later one at least ten
   seconds after the one before. From `Initial(t0)` the first alert comes at
   `t0 + 10 s` at the earliest.
   */
  lemma {:induction false} AlertsTenSecondsApart(cfg: BotConfig, st: LoopState, t: int, inputs: seq<TickInput>)
    requires WatchdogInv(st, t) && Chronological(t, inputs)
    ensures var a := AlertTimes(cfg, st, inputs);
      && (|a| > 0 ==> a[0] >= st.nextCheckTime)
      && (forall k :: 0 < k < |a| ==> a[k - 1] + WatchdogMs <= a[k])
    decreases |inputs|
  {
    if inputs != [] {
      var inp := inputs[0];
      var s := Tick(cfg, st, inp);
      TickKeepsWatchdogInv(cfg, st, inp, t);
      TickAlertsAtMostOnce(cfg, st, inp, t);
      if Alerts(s) {
        AlertIffDeadline(cfg, st, inp, t);
      }
      if s.exit == Running {
        AlertsTenSecondsApart(cfg, s.state, inp.checkAt, inputs[1..]);
      }
    }
  }

  // ---------------------------------------------------------------------------
  // Runs
  // ---------------------------------------------------------------------------

  /** The k-th press of `arrows` is right when `k + d` is even and left otherwise. */
  predicate Alternating(arrows: seq<Event>, d: int)
  {
    forall k :: 0 <= k < |arrows| ==> arrows[k] == Press(if (k + d) % 2 == 0 then RightArrow else LeftArrow, MoveHoldMs)
  }

  /** A pass's own arrow (if any) followed by an alternation starting from the toggled direction alternates. */
  lemma AlternatingPrepend(d: int, first: seq<Event>, rest: seq<Event>)
    requires d == 0 || d == 1
    requires first == [] || first == [Press(ArrowFor(d), MoveHoldMs)]
    requires Alternating(rest, (d + |first|) % 2)
    ensures Alternating(first + rest, d)
  {
    var all := first + rest;
    forall k | 0 <= k < |all|
      ensures all[k] == Press(if (k + d) % 2 == 0 then RightArrow else LeftArrow, MoveHoldMs)
    {
      if |first| == 1 && k >= 1 {
        assert all[k] == rest[k - 1];
        assert (k - 1 + (d + 1) % 2) % 2 == (k + d) % 2;
      }
    }
  }

  /** What one pass contributes: at most the arrow `d` selects, and the direction toggled once per press. */
  predicate PassArrows(d: int, pass: Step)
  {
    var first := Filter(pass.events, IsArrowPress);
    || (first == [] && pass.state.lastDir == d)
    || (first == [Press(ArrowFor(d), MoveHoldMs)] && pass.state.lastDir == NextDir(d, first))
  }

  /** Joining a pass to the rest of its run keeps the alternation. */
  lemma AlternationJoin(d: int, pass: Step, rest: Step, whole: Step)
    requires d == 0 || d == 1
    requires whole.events == pass.events + rest.events
    requires PassArrows(d, pass)
    requires Alternating(Filter(rest.events, IsArrowPress), pass.state.lastDir)
    ensures Alternating(Filter(whole.events, IsArrowPress), d)
  {
    FilterAppend(pass.events, rest.events, IsArrowPress);
    var first := Filter(pass.events, IsArrowPress);
    assert pass.state.lastDir == (d + |first|) % 2;
    AlternatingPrepend(d, first, Filter(rest.events, IsArrowPress));
  }

  /**
   The direction `last_dir[0]` has after the presses `arrows` made from `d`:
   unchanged when there are none, else the opposite of the last arrow (1 after
   right, 0 after left).
   */
  function NextDir(d: int, arrows: seq<Event>): int
  {
    if arrows == [] then d else if arrows[|arrows| - 1] == Press(RightArrow, MoveHoldMs) then 1 else 0
  }

  /** Joining a pass to the rest of its run: the direction is the one the last arrow leaves. */
  lemma DirectionJoin(d: int, pass: Step, rest: Step, whole: Step)
    requires whole.events == pass.events + rest.events && whole.state == rest.state
    requires PassArrows(d, pass)
    requires rest.state.lastDir == NextDir(pass.state.lastDir, Filter(rest.events, IsArrowPress))
    ensures whole.state.lastDir == NextDir(d, Filter(whole.events, IsArrowPress))
  {
    FilterAppend(pass.events, rest.events, IsArrowPress);
  }

  /** One pass presses at most the arrow `last_dir` selects and toggles `last_dir` once per press. */
  lemma TickToggles(cfg: BotConfig, st: LoopState, inp: TickInput)
    requires st.lastDir == 0 || st.lastDir == 1
    ensures PassArrows(st.lastDir, Tick(cfg, st, inp))
  {
    TickArrows(cfg, st, inp);
  }

  /** What a run adds after its last pass (the closing line, if any) presses nothing. */
  function Stopping(s: Step): (r: Step)
    ensures Filter(r.events, IsArrowPress) == []
  {
    Step(s.state, Closing(s.exit), s.exit)
  }

  /**
   Alternation over a whole run: the k-th movement press of a run starting
   with `last_dir[0] == d` (0 or 1) is right when `k + d` is even and left
   otherwise. From `Initial` that is right, left, right, ...
   */
  lemma {:induction false} RunAlternates(cfg: BotConfig, st: LoopState, inputs: seq<TickInput>)
    requires st.lastDir == 0 || st.lastDir == 1
    ensures Alternating(Filter(RunFrom(cfg, st, inputs).events, IsArrowPress), st.lastDir)
    decreases |inputs|
  {
    if inputs != [] {
      var s := Tick(cfg, st, inputs[0]);
      TickToggles(cfg, st, inputs[0]);
      if s.exit != Running {
        AlternationJoin(st.lastDir, s, Stopping(s), RunFrom(cfg, st, inputs));
      } else {
        RunAlternates(cfg, s.state, inputs[1..]);
        AlternationJoin(st.lastDir, s, RunFrom(cfg, s.state, inputs[1..]), RunFrom(cfg, st, inputs));
      }
    }
  }

  /**
   The run leaves `last_dir[0]` opposite to its last movement press (as it
   started when there was none); with `RunAlternates` that is `d` toggled once
   per press.
   */
  lemma {:induction false} RunDirection(cfg: BotConfig, st: LoopState, inputs: seq<TickInput>)
    requires st.lastDir == 0 || st.lastDir == 1
    ensures RunFrom(cfg, st, inputs).state.lastDir == NextDir(st.lastDir, Filter(RunFrom(cfg, st, inputs).events, IsArrowPress))
    decreases |inputs|
  {
    if inputs != [] {
      var s := Tick(cfg, st, inputs[0]);
      TickToggles(cfg, st, inputs[0]);
      if s.exit != Running {
        DirectionJoin(st.lastDir, s, Stopping(s), RunFrom(cfg, st, inputs));
      } else {
        RunDirection(cfg, s.state, inputs[1..]);
        DirectionJoin(st.lastDir, s, RunFrom(cfg, s.state, inputs[1..]), RunFrom(cfg, st, inputs));
      }
    }
  }

  /** A quiet pass before the deadline only moves: nothing but `last_dir` changes and nothing is raised. */
  lemma QuietPass(cfg: BotConfig, st: LoopState, inp: TickInput)
    requires Quiet(inp) && inp.checkAt < st.nextCheckTime
    ensures var s := Tick(cfg, st, inp);
      && s.exit == Running
      && s.state == st.(lastDir := Move(st.lastDir).1)
      && Filter(s.events, IsNoEncountersBeep) == []
      && Filter(s.events, IsCombatPress) == []
  {
    TickEndsWithWatchdog(cfg, st, inp);
    WatchdogShape(BeforeWatchdog(st, inp), inp.checkAt);
    TickCombat(cfg, st, inp);
  }

  /** A pass after which the loop goes on is followed by the rest of the run. */
  lemma RunningPassThenRest(cfg: BotConfig, st: LoopState, inputs: seq<TickInput>)
    requires inputs != [] && Tick(cfg, st, inputs[0]).exit == Running
    ensures var s := Tick(cfg, st, inputs[0]);
      RunFrom(cfg, st, inputs) == Prefixed(s.events, RunFrom(cfg, s.state, inputs[1..]))
  {
  }

  /** A run whose one pass finds a target: one encounter, the target beep, the closing line, no alert and no fight. */
  lemma TargetEndsRun(cfg: BotConfig, st: LoopState, hit: TickInput)
    requires FindsTarget(cfg, hit)
    ensures var o := RunFrom(cfg, st, [hit]);
      && o.exit == TargetFound
      && o.state.encounterCount == st.encounterCount + 1
      && Beep(TargetEncountered(hit.name)) in o.events
      && Filter(o.events, IsNoEncountersBeep) == []
      && Filter(o.events, IsCombatPress) == []
  {
    var s := Tick(cfg, st, hit);
    TargetMatchStopsWithoutFighting(cfg, st, hit);
    EncounterBookkeeping(cfg, st, hit);
    NoAlertOffWatchdog(cfg, st, hit);
    FilterAppend(s.events, [Log(ThreadStopping)], IsCombatPress);
    FilterAppend(s.events, [Log(ThreadStopping)], IsNoEncountersBeep);
  }

  /**
   Quiet active passes (no detection, all before the deadline) followed by one
   pass that detects a listed name stop on the target: one encounter counted,
   the target beep raised, no "no encounters" alert and no combat key anywhere.
   */
  lemma {:induction false} QuietThenTarget(cfg: BotConfig, st: LoopState, quiet: seq<TickInput>, hit: TickInput)
    requires forall k :: 0 <= k < |quiet| ==>
      Quiet(quiet[k]) && quiet[k].checkAt < st.nextCheckTime
    requires FindsTarget(cfg, hit)
    ensures var o := RunFrom(cfg, st, quiet + [hit]);
      && o.exit == TargetFound
      && o.state.encounterCount == st.encounterCount + 1
      && Beep(TargetEncountered(hit.name)) in o.events
      && Filter(o.events, IsNoEncountersBeep) == []
      && Filter(o.events, IsCombatPress) == []
    decreases |quiet|
  {
    if quiet == [] {
      assert quiet + [hit] == [hit];
      TargetEndsRun(cfg, st, hit);
    } else {
      var inputs := quiet + [hit];
      var s := Tick(cfg, st, quiet[0]);
      QuietPass(cfg, st, quiet[0]);
      assert inputs[0] == quiet[0];
      assert inputs[1..] == quiet[1..] + [hit];
      QuietThenTarget(cfg, s.state, quiet[1..], hit);
      var o := RunFrom(cfg, s.state, quiet[1..] + [hit]);
      RunningPassThenRest(cfg, st, inputs);
      FilterAppend(s.events, o.events, IsCombatPress);
      FilterAppend(s.events, o.events, IsNoEncountersBeep);
    }
  }

  /**
   No encounter in the first ten seconds, then an encounter whose name reads
   "Garchomp" with "Garchomp" on the list: the run ends on the target with
   `encounter_count == 1`, raises the target beep, no "no encounters" alert
   and presses no combat key.
   */
  lemma GarchompScenario(cfg: BotConfig, t0: int, quiet: seq<TickInput>, hit: TickInput)
    requires Matching.Plausible(cfg.similarity)
    requires forall k :: 0 <= k < |quiet| ==>
      Quiet(quiet[k]) && quiet[k].checkAt < t0 + WatchdogMs
    requires Active(hit) && Detected(hit) && !hit.emptyNameCapture && hit.name == "Garchomp" && "Garchomp" in hit.targets
    ensures var o := RunFrom(cfg, Initial(t0), quiet + [hit]);
      && o.exit == TargetFound
      && o.state.encounterCount == 1
      && Beep(TargetEncountered("Garchomp")) in o.events
      && Filter(o.events, IsNoEncountersBeep) == []
      && Filter(o.events, IsCombatPress) == []
  {
    var i :| 0 <= i < |hit.targets| && hit.targets[i] == "Garchomp";
    Matching.ListedNameMatches(cfg.similarity, hit.name, hit.targets, i);
    QuietThenTarget(cfg, Initial(t0), quiet, hit);
  }
}
