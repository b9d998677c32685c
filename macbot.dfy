/**
 The macOS automation loop (`BotThread.run` in PBObotMac.py) as a state
 machine. One tick is one pass of the `while` loop; its inputs are what the
 loop reads from outside: the stop and pause flags, the capture of the
 indicator region, the two clock readings (integer milliseconds), the OCR
 result and the target list as it stands at that moment. Key presses, sleeps,
 log lines and beeps are emitted as events.
 */
module MacBot {
  import opened Wrappers
  import Colour
  import Matching

  // ---------------------------------------------------------------------------
  // Keys
  // ---------------------------------------------------------------------------

  /** `MAC_KEYCODES`: logical key names to macOS virtual key codes. */
  const MacKeycodes: map<string, int> := map[
    "left_arrow" := 123, "right_arrow" := 124, "down_arrow" := 125, "up_arrow" := 126,
    "1" := 18, "2" := 19, "3" := 20, "4" := 21, "r" := 15]

  const LeftArrow := 123
  const RightArrow := 124

  /** Hold times: `press_key_mac`'s default and the one `defeat_wild_pokemon` passes. */
  const MoveHoldMs := 250
  const CombatHoldMs := 100

  /** The log lines of the worker thread. */
  datatype Message =
    | ThreadStarted
    | WildEncountered(count: nat)
    | EncounteredName(name: string)
    | TargetEncountered(name: string)
    | Defeating(move: string)
    | CheckWindow
    | NoEncounters
    | ThreadStopping

  /**
   What the loop does to the outside world: a key held for `holdMs` and
   released, a key name `press_key_mac` does not know (printed and ignored), a
   sleep, a log line, or a beep (the short `afplay` sound plus its log line).
   */
  datatype Event =
    | Press(code: int, holdMs: nat)
    | UnknownKey(key: string)
    | Sleep(ms: nat)
    | Log(msg: Message)
    | Beep(msg: Message)

  /** `press_key_mac(key_str, hold_time)`: one press of the key's code, or the complaint about an unknown name. */
  function PressKeyMac(key: string, holdMs: nat): (e: seq<Event>)
    ensures |e| == 1
    ensures e[0].Press? <==> key in MacKeycodes
    ensures e[0].Press? ==> e[0].holdMs == holdMs
  {
    if key in MacKeycodes then [Press(MacKeycodes[key], holdMs)] else [UnknownKey(key)]
  }

  /** A key name missing from `MAC_KEYCODES` presses nothing; a known one presses exactly its code. */
  lemma UnknownKeyIgnored(key: string, holdMs: nat)
    ensures key !in MacKeycodes <==> forall e :: e in PressKeyMac(key, holdMs) ==> !e.Press?
    ensures key in MacKeycodes ==> PressKeyMac(key, holdMs) == [Press(MacKeycodes[key], holdMs)]
  {
    if key in MacKeycodes {
      assert PressKeyMac(key, holdMs)[0].Press?;
    }
  }

  /** No two key names share a code, so a recorded code identifies its key. */
  lemma KeycodesDistinct(k1: string, k2: string)
    requires k1 in MacKeycodes && k2 in MacKeycodes && MacKeycodes[k1] == MacKeycodes[k2]
    ensures k1 == k2
  {
  }

  /** The `move_map` of `defeat_wild_pokemon`. */
  const MoveMap: map<string, string> := map["1" := "1", "2" := "2", "3" := "3", "4" := "4", "r" := "r"]

  /**
   `move_map.get(self.move_choice, "1")`: a listed move is used as it is and
   anything else falls back to "1"; either way the key is one `press_key_mac`
   knows, so the combat press is never dropped.
   */
  function DefeatKey(moveChoice: string): (key: string)
    ensures key in MacKeycodes
    ensures key == (if moveChoice in {"1", "2", "3", "4", "r"} then moveChoice else "1")
  {
    if moveChoice in MoveMap then MoveMap[moveChoice] else "1"
  }

  /** `defeat_wild_pokemon`: one press of the chosen move's key, held 0.1 s. */
  function DefeatWildPokemon(moveChoice: string): (e: seq<Event>)
    ensures e == [Press(MacKeycodes[DefeatKey(moveChoice)], CombatHoldMs)]
  {
    PressKeyMac(DefeatKey(moveChoice), CombatHoldMs)
  }

  // ---------------------------------------------------------------------------
  // Movement
  // ---------------------------------------------------------------------------

  /**
   `move_in_bushes` as a function of `last_dir[0]`: 0 presses right and moves
   to 1; anything else presses left and moves to 0.
   */
  function Move(lastDir: int): (r: (seq<Event>, int))
    ensures r.1 == (if lastDir == 0 then 1 else 0)
    ensures r.0 == [Press(if lastDir == 0 then RightArrow else LeftArrow, MoveHoldMs)]
  {
    if lastDir == 0 then (PressKeyMac("right_arrow", MoveHoldMs), 1)
    else (PressKeyMac("left_arrow", MoveHoldMs), 0)
  }

  /** `move_in_bushes(window_id, last_dir)`: updates the one-element list `last_dir` in place. */
  method MoveInBushes(lastDir: array<int>) returns (events: seq<Event>)
    requires lastDir.Length == 1
    modifies lastDir
    ensures (events, lastDir[0]) == Move(old(lastDir[0]))
  {
    if lastDir[0] == 0 {
      events := PressKeyMac("right_arrow", MoveHoldMs);
      lastDir[0] := 1;
    } else {
      events := PressKeyMac("left_arrow", MoveHoldMs);
      lastDir[0] := 0;
    }
  }

  // ---------------------------------------------------------------------------
  // One tick
  // ---------------------------------------------------------------------------

  /** The watchdog interval, the pause sleep, the settle delay after a fight and the poll interval. */
  const WatchdogMs := 10000
  const PauseSleepMs := 200
  const SettleMs := 100
  const PollMs := 100

  /** The thread's configuration: the chosen move and the character-match count of `SequenceMatcher`. */
  datatype BotConfig = BotConfig(moveChoice: string, similarity: Matching.Counter)

  /** The loop-local variables of `run`. */
  datatype LoopState = LoopState(lastDir: int, encounterCount: nat, lastEncounterTime: int, nextCheckTime: int)

  /** The variables as `run` sets them up, `t0` being the first clock reading. */
  function Initial(t0: int): LoopState
  {
    LoopState(0, 0, t0, t0 + WatchdogMs)
  }

  /**
   What one pass of the loop reads: the two event flags, the capture of the
   Poke Ball region (`None` when capture fails), the clock when an encounter
   is recorded and when the watchdog looks, the OCR result, and the target list
   (the thread shares the GUI's list object, so edits are seen at once). The
   clock readings and the name are only used on the paths that read them.
   `emptyNameCapture` says that the capture of the name region came back
   without pixels (a region of zero width or height), so that the grey
   conversion in `get_pokemon_name` raises instead of returning a name.
   */
  datatype TickInput = TickInput(
    stop: bool, paused: bool, indicator: Option<Colour.Image>,
    detectAt: int, name: string, emptyNameCapture: bool, targets: seq<string>, checkAt: int)

  /**
   Whether the loop goes on, was stopped by the flag, broke out on a target,
   or died on an exception (which ends the thread without its closing line).
   */
  datatype Exit = Running | Stopped | TargetFound | Crashed

  /** The variables after a tick (or a run), what it emitted and how it ended. */
  datatype Step = Step(state: LoopState, events: seq<Event>, exit: Exit)

  /** The capture of the indicator region exists but has no pixels: `cv2.cvtColor` raises on it. */
  predicate IndicatorRaises(inp: TickInput)
  {
    inp.indicator.Some? && !Colour.NonEmpty(inp.indicator.value)
  }

  /** `is_reddish_in_region` with its default thresholds, when it returns. */
  predicate Detected(inp: TickInput)
  {
    !IndicatorRaises(inp) && Colour.IsReddishInRegion(inp.indicator, Colour.DefaultLower, Colour.DefaultUpper)
  }

  /** A pass that is neither stopped nor paused: it moves, looks for an encounter and may check the watchdog. */
  predicate Active(inp: TickInput)
  {
    !inp.stop && !inp.paused
  }

  /** An active pass in which a capture has no pixels: the indicator's, or the name's after a detection. */
  predicate Raises(inp: TickInput)
  {
    Active(inp) && (IndicatorRaises(inp) || (Detected(inp) && inp.emptyNameCapture))
  }

  /** An active pass that detects an encounter, reads its name and finds it among the targets. */
  predicate FindsTarget(cfg: BotConfig, inp: TickInput)
  {
    Active(inp) && Detected(inp) && !inp.emptyNameCapture && Matching.AnyTarget(cfg.similarity, inp.name, inp.targets)
  }

  /**
   The watchdog at the end of a pass: once `now` reaches `next_check_time`, it
   beeps if nothing was encountered for the whole interval and sets the next
   deadline one interval after `now`; then the loop sleeps the poll interval.
   */
  function Watchdog(st: LoopState, now: int): (w: Step)
    ensures w.exit == Running
  {
    if now >= st.nextCheckTime then
      var alert := if now - st.lastEncounterTime >= WatchdogMs then [Log(CheckWindow), Beep(NoEncounters)] else [];
      Step(st.(nextCheckTime := now + WatchdogMs), alert + [Sleep(PollMs)], Running)
    else
      Step(st, [Sleep(PollMs)], Running)
  }

  /** `events` emitted in front of a pass or a run. */
  function Prefixed(events: seq<Event>, o: Step): Step
  {
    Step(o.state, events + o.events, o.exit)
  }

  /** One pass of the `while` loop of `BotThread.run`. */
  function Tick(cfg: BotConfig, st: LoopState, inp: TickInput): Step
  {
    if inp.stop then Step(st, [], Stopped)
    else if inp.paused then Step(st, [Sleep(PauseSleepMs)], Running)
    else
      var (moved, dir) := Move(st.lastDir);
      if IndicatorRaises(inp) then Step(st.(lastDir := dir), moved, Crashed)
      else if Detected(inp) then
        var count := st.encounterCount + 1;
        var st1 := LoopState(dir, count, inp.detectAt, inp.detectAt + WatchdogMs);
        var counted := moved + [Log(WildEncountered(count))];
        if inp.emptyNameCapture then Step(st1, counted, Crashed)
        else
          var seen := counted + [Log(EncounteredName(inp.name))];
          if Matching.AnyTarget(cfg.similarity, inp.name, inp.targets) then
            Step(st1, seen + [Beep(TargetEncountered(inp.name))], TargetFound)
          else
            var fought := seen + [Log(Defeating(cfg.moveChoice))] + DefeatWildPokemon(cfg.moveChoice) + [Sleep(SettleMs)];
            Prefixed(fought, Watchdog(st1, inp.checkAt))
      else
        Prefixed(moved, Watchdog(st.(lastDir := dir), inp.checkAt))
  }

  /**
   How a pass ends: it stops exactly on the flag, breaks out exactly on a
   target, dies exactly when a capture it converts has no pixels, and goes on
   otherwise; it never logs the closing line itself.
   */
  lemma TickExits(cfg: BotConfig, st: LoopState, inp: TickInput)
    ensures var s := Tick(cfg, st, inp);
      && (s.exit == Stopped <==> inp.stop)
      && (s.exit == Crashed <==> Raises(inp))
      && (s.exit == TargetFound <==> FindsTarget(cfg, inp))
      && Log(ThreadStopping) !in s.events
  {
    if Active(inp) && !IndicatorRaises(inp) && Detected(inp) && !inp.emptyNameCapture {
      var st1 := LoopState(Move(st.lastDir).1, st.encounterCount + 1, inp.detectAt, inp.detectAt + WatchdogMs);
      assert Log(ThreadStopping) !in Watchdog(st1, inp.checkAt).events;
    } else if Active(inp) && !IndicatorRaises(inp) && !Detected(inp) {
      assert Log(ThreadStopping) !in Watchdog(st.(lastDir := Move(st.lastDir).1), inp.checkAt).events;
    }
  }

  /** What follows the loop: the closing line, unless an exception ended the thread. */
  function Closing(exit: Exit): seq<Event>
  {
    if exit == Crashed then [] else [Log(ThreadStopping)]
  }

  /**
   A run over a sequence of passes: it ends at the first exit, logging that
   the thread stops. The closing line is in the trace exactly when the run
   ended on the flag or on a target.
   */
  function RunFrom(cfg: BotConfig, st: LoopState, inputs: seq<TickInput>): (r: Step)
    ensures Log(ThreadStopping) in r.events <==> r.exit == Stopped || r.exit == TargetFound
    decreases |inputs|
  {
    if inputs == [] then Step(st, [], Running)
    else
      var s := Tick(cfg, st, inputs[0]);
      TickExits(cfg, st, inputs[0]);
      if s.exit != Running then Step(s.state, s.events + Closing(s.exit), s.exit)
      else
        var o := RunFrom(cfg, s.state, inputs[1..]);
        Step(o.state, s.events + o.events, o.exit)
  }

  /** One pass taken off the front of a run that follows `prefix`. */
  lemma RunFromStep(cfg: BotConfig, st: LoopState, inputs: seq<TickInput>, prefix: seq<Event>)
    requires inputs != []
    ensures var s := Tick(cfg, st, inputs[0]);
      Prefixed(prefix, RunFrom(cfg, st, inputs)) ==
        if s.exit == Running then Prefixed(prefix + s.events, RunFrom(cfg, s.state, inputs[1..]))
        else Step(s.state, prefix + s.events + Closing(s.exit), s.exit)
  {
    var s := Tick(cfg, st, inputs[0]);
    if s.exit == Running {
      var o := RunFrom(cfg, s.state, inputs[1..]);
      assert RunFrom(cfg, st, inputs) == Step(o.state, s.events + o.events, o.exit);
      assert prefix + (s.events + o.events) == prefix + s.events + o.events;
    } else {
      assert RunFrom(cfg, st, inputs) == Step(s.state, s.events + Closing(s.exit), s.exit);
      assert prefix + (s.events + Closing(s.exit)) == prefix + s.events + Closing(s.exit);
    }
  }

  /**
   The body of the `while` loop of `BotThread.run`, on the loop's own
   variables: `last_dir` is updated in place, the three counters are passed in
   and handed back.
   */
  method Pass(cfg: BotConfig, inp: TickInput, lastDir: array<int>,
              encounterCount0: nat, lastEncounterTime0: int, nextCheckTime0: int)
    returns (trace: seq<Event>, encounterCount: nat, lastEncounterTime: int, nextCheckTime: int, exit: Exit)
    requires lastDir.Length == 1
    modifies lastDir
    ensures var s := Tick(cfg, LoopState(old(lastDir[0]), encounterCount0, lastEncounterTime0, nextCheckTime0), inp);
      && trace == s.events && exit == s.exit
      && LoopState(lastDir[0], encounterCount, lastEncounterTime, nextCheckTime) == s.state
  {
    encounterCount, lastEncounterTime, nextCheckTime := encounterCount0, lastEncounterTime0, nextCheckTime0;
    if inp.stop {
      return [], encounterCount, lastEncounterTime, nextCheckTime, Stopped;
    }
    exit := Running;
    if inp.paused {
      trace := [Sleep(PauseSleepMs)];
      return;
    }
    trace := MoveInBushes(lastDir);
    if inp.indicator.Some? && !Colour.NonEmpty(inp.indicator.value) {
      exit := Crashed;
      return;
    }
    if Colour.IsReddishInRegion(inp.indicator, Colour.DefaultLower, Colour.DefaultUpper) {
      encounterCount := encounterCount + 1;
      lastEncounterTime := inp.detectAt;
      nextCheckTime := lastEncounterTime + WatchdogMs;
      trace := trace + [Log(WildEncountered(encounterCount))];
      if inp.emptyNameCapture {
        exit := Crashed;
        return;
      }
      var pokemonName := inp.name;
      trace := trace + [Log(EncounteredName(pokemonName))];
      if Matching.AnyTarget(cfg.similarity, pokemonName, inp.targets) {
        trace := trace + [Beep(TargetEncountered(pokemonName))];
        exit := TargetFound;
        return;
      }
      trace := trace + [Log(Defeating(cfg.moveChoice))] + DefeatWildPokemon(cfg.moveChoice) + [Sleep(SettleMs)];
    }
    var now := inp.checkAt;
    var alert: seq<Event> := [];
    if now >= nextCheckTime {
      if now - lastEncounterTime >= WatchdogMs {
        alert := [Log(CheckWindow), Beep(NoEncounters)];
      }
      nextCheckTime := now + WatchdogMs;
      trace := trace + (alert + [Sleep(PollMs)]);
    } else {
      trace := trace + [Sleep(PollMs)];
    }
  }

  /**
   `BotThread.run` over a finite sequence of passes (the real loop runs until
   stopped). The result is the run the tick function describes, after the
   "thread started" line.
   */
  method Run(cfg: BotConfig, t0: int, inputs: seq<TickInput>) returns (events: seq<Event>, final: LoopState, exit: Exit)
    ensures var o := RunFrom(cfg, Initial(t0), inputs);
      events == [Log(ThreadStarted)] + o.events && final == o.state && exit == o.exit
  {
    var trace: seq<Event> := [];
    var encounterCount: nat := 0;
    var lastEncounterTime := t0;
    var nextCheckTime := lastEncounterTime + WatchdogMs;
    var lastDir := new int[1](_ => 0);
    exit := Running;
    var i := 0;
    while i < |inputs| && exit == Running
      invariant 0 <= i <= |inputs|
      invariant lastDir.Length == 1
      invariant exit == Running ==>
        RunFrom(cfg, Initial(t0), inputs) ==
        Prefixed(trace, RunFrom(cfg, LoopState(lastDir[0], encounterCount, lastEncounterTime, nextCheckTime), inputs[i..]))
      invariant exit != Running ==>
        RunFrom(cfg, Initial(t0), inputs) ==
        Step(LoopState(lastDir[0], encounterCount, lastEncounterTime, nextCheckTime), trace + Closing(exit), exit)
    {
      ghost var cur := LoopState(lastDir[0], encounterCount, lastEncounterTime, nextCheckTime);
      assert inputs[i..][0] == inputs[i] && inputs[i..][1..] == inputs[i + 1..];
      RunFromStep(cfg, cur, inputs[i..], trace);
      var passed;
      passed, encounterCount, lastEncounterTime, nextCheckTime, exit :=
        Pass(cfg, inputs[i], lastDir, encounterCount, lastEncounterTime, nextCheckTime);
      trace := trace + passed;
      i := i + 1;
    }
    if exit == Stopped || exit == TargetFound {
      trace := trace + [Log(ThreadStopping)];
    }
    events := [Log(ThreadStarted)] + trace;
    final := LoopState(lastDir[0], encounterCount, lastEncounterTime, nextCheckTime);
  }
}
