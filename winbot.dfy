/**
 The older Windows script: a module-level `last_direction` toggled by
 `move_in_bushes`, a strict single-pixel encounter test, and a `while True`
 loop that walks, checks for an encounter, reads the name and either stops
 on a target or fights with key 0x33.
 */
module WinBot {
  import Colour
  import Matching

  // ---------------------------------------------------------------------------
  // Key messages
  // ---------------------------------------------------------------------------

  /** Virtual-key codes: left arrow, right arrow and the "3" key `defeat_wild_pokemon` presses. */
  const VkLeft := 0x25
  const VkRight := 0x27
  const VkThree := 0x33

  /** The Windows message identifiers for a key going down and coming up. */
  const WmKeyDown := 0x100
  const WmKeyUp := 0x101

  /** The default hold of `press_key`, the hold of the combat key and the pause after a fight. */
  const MoveHoldMs := 250
  const CombatHoldMs := 100
  const AfterFightMs := 250

  /** `lParam` of the key-down message: repeat count 1 and the extended-key bit 24. */
  const LParamDown: bv32 := 1 | (1 << 24)

  /** `lParam` of the key-up message: additionally the previous-state bit 30 and the transition bit 31. */
  const LParamUp: bv32 := 1 | (1 << 24) | (1 << 30) | (1 << 31)

  /**
   The two values as integers, and their bits: both carry the repeat count and
   the extended bit, bits 30 and 31 are set in the key-up value only, and no
   other bit is set in either.
   */
  lemma LParamValues()
    ensures LParamDown as int == 16777217 && LParamUp as int == 3238002689
    ensures LParamDown & 1 == 1 && LParamUp & 1 == 1
    ensures (LParamDown >> 24) & 1 == 1 && (LParamUp >> 24) & 1 == 1
    ensures (LParamDown >> 30) & 1 == 0 && (LParamDown >> 31) & 1 == 0
    ensures (LParamUp >> 30) & 1 == 1 && (LParamUp >> 31) & 1 == 1
    ensures LParamUp == LParamDown | (1 << 30) | (1 << 31)
  {
  }

  /** A line `main` prints. */
  datatype Line =
    | Starting
    | PixelColor(r: int, g: int, b: int)
    | WildEncountered
    | EncounteredName(name: string)
    | TargetSkipped(name: string)
    | Defeating
    | StoppedByUser

  /** What the script does to the outside world: post a message to the game window, sleep, or print. */
  datatype WinEvent = Post(message: int, key: int, lParam: bv32) | Wait(ms: nat) | Say(line: Line)

  /** `press_key(hwnd, key_code, hold_time)`: key down, hold, key up, both messages naming `keyCode`. */
  function PressKey(keyCode: int, holdMs: nat): (e: seq<WinEvent>)
    ensures |e| == 3 && e[1] == Wait(holdMs)
    ensures e[0].Post? && e[0].message == WmKeyDown && e[0].lParam == LParamDown
    ensures e[2].Post? && e[2].message == WmKeyUp && e[2].lParam == LParamUp
    ensures forall i :: 0 <= i < |e| && e[i].Post? ==> e[i].key == keyCode
  {
    [Post(WmKeyDown, keyCode, LParamDown), Wait(holdMs), Post(WmKeyUp, keyCode, LParamUp)]
  }

  /** `defeat_wild_pokemon`: key 0x33 held 0.1 s, whatever the move. */
  function DefeatWildPokemon(): (e: seq<WinEvent>)
    ensures Wait(CombatHoldMs) in e
    ensures forall i :: 0 <= i < |e| && e[i].Post? ==> e[i].key == VkThree
  {
    PressKey(VkThree, CombatHoldMs)
  }

  /** The arrow `move_in_bushes` presses when `last_direction` is `dir`: left after "right", right otherwise. */
  function KeyFor(dir: string): (k: int)
    ensures k == VkLeft || k == VkRight
    ensures k == VkLeft <==> dir == "right"
  {
    if dir == "right" then VkLeft else VkRight
  }

  /** `move_in_bushes` on the value of `last_direction`: the presses and the new value. */
  function Move(dir: string): (r: (seq<WinEvent>, string))
    ensures r.0 == PressKey(KeyFor(dir), MoveHoldMs)
    ensures r.1 == (if dir == "right" then "left" else "right")
    ensures KeyFor(r.1) != KeyFor(dir)
  {
    if dir == "right" then (PressKey(VkLeft, MoveHoldMs), "left")
    else (PressKey(VkRight, MoveHoldMs), "right")
  }

  // ---------------------------------------------------------------------------
  // The loop of `main`
  // ---------------------------------------------------------------------------

  /** `target_pokemons`, the names the script stops on. */
  const Targets: seq<string> := ["Electivire", "Dustox"]

  /**
   What the passes consult besides their input: the similarity counter of the
   name comparison and the list of targets. `main` runs with `Targets`; the
   properties of a pass hold for any list.
   */
  datatype WinConfig = WinConfig(similarity: Matching.Counter, targets: seq<string>)

  /**
   What one pass of the loop reads: the 20x20 capture at the check point and
   the name OCR would return. The capture always has its pixel `(0, 0)`.
   */
  datatype WinInput = WinInput(crop: Colour.Image, name: string)

  predicate Captured(inp: WinInput)
  {
    |inp.crop| > 0 && |inp.crop[0]| > 0
  }

  /** How the script ends; `Looping` is a pass after which the loop goes on. */
  datatype Outcome = Looping | TargetFound | WindowNotFound | Interrupted

  /** The value of `last_direction`, the events and the outcome of a pass or a run. */
  datatype WinStep = WinStep(dir: string, events: seq<WinEvent>, outcome: Outcome)

  predicate Reddish(inp: WinInput)
    requires Captured(inp)
  {
    Colour.IsPredefinedCoordReddish(inp.crop)
  }

  /** A pass fights when it sees an encounter whose name matches no target. */
  predicate Fights(cfg: WinConfig, inp: WinInput)
    requires Captured(inp)
  {
    Reddish(inp) && !Matching.AnyTarget(cfg.similarity, inp.name, cfg.targets)
  }

  /**
   One pass of the `while True` loop of `main`: it always walks first and
   flips `last_direction`, and it ends the loop exactly when it sees an
   encounter whose name matches a target.
   */
  function WinTick(cfg: WinConfig, dir: string, inp: WinInput): (s: WinStep)
    requires Captured(inp)
    ensures s.outcome == Looping || s.outcome == TargetFound
    ensures s.outcome == TargetFound <==> Reddish(inp) && Matching.AnyTarget(cfg.similarity, inp.name, cfg.targets)
    ensures s.dir == Move(dir).1
    ensures |s.events| > 3 && s.events[..3] == Move(dir).0
  {
    var (moved, dir1) := Move(dir);
    var p := inp.crop[0][0];
    var checked := moved + [Say(PixelColor(p.0, p.1, p.2))];
    if Reddish(inp) then
      var seen := checked + [Say(WildEncountered), Say(EncounteredName(inp.name))];
      if Matching.AnyTarget(cfg.similarity, inp.name, cfg.targets) then WinStep(dir1, seen + [Say(TargetSkipped(inp.name))], TargetFound)
      else WinStep(dir1, seen + [Say(Defeating)] + DefeatWildPokemon() + [Wait(AfterFightMs)], Looping)
    else WinStep(dir1, checked, Looping)
  }

  /**
   The loop over a finite sequence of passes. It ends at a target; when the
   passes run out the user has interrupted it (`KeyboardInterrupt`, caught at
   the top level), and the last line says so.
   */
  function WinRunFrom(cfg: WinConfig, dir: string, inputs: seq<WinInput>): (r: WinStep)
    requires forall k :: 0 <= k < |inputs| ==> Captured(inputs[k])
    ensures r.outcome == TargetFound || r.outcome == Interrupted
    decreases |inputs|
  {
    if inputs == [] then WinStep(dir, [Say(StoppedByUser)], Interrupted)
    else
      var s := WinTick(cfg, dir, inputs[0]);
      if s.outcome != Looping then s
      else
        var o := WinRunFrom(cfg, s.dir, inputs[1..]);
        WinStep(o.dir, s.events + o.events, o.outcome)
  }

  /** The script from `main`: without the game window `get_game_hwnd` raises before anything is printed. */
  function Launch(cfg: WinConfig, windowFound: bool, dir: string, inputs: seq<WinInput>): (r: WinStep)
    requires forall k :: 0 <= k < |inputs| ==> Captured(inputs[k])
    ensures r.outcome == WindowNotFound <==> !windowFound
    ensures !windowFound ==> r.events == [] && r.dir == dir
    ensures windowFound ==> |r.events| > 0 && r.events[0] == Say(Starting)
  {
    if !windowFound then WinStep(dir, [], WindowNotFound)
    else
      var o := WinRunFrom(cfg, dir, inputs);
      WinStep(o.dir, [Say(Starting)] + o.events, o.outcome)
  }

  /** One pass taken off the front of a run. */
  lemma WinRunFromStep(cfg: WinConfig, dir: string, inputs: seq<WinInput>)
    requires forall k :: 0 <= k < |inputs| ==> Captured(inputs[k])
    requires inputs != []
    ensures var s := WinTick(cfg, dir, inputs[0]);
      var o := WinRunFrom(cfg, dir, inputs);
      s.outcome == Looping ==>
        var r := WinRunFrom(cfg, s.dir, inputs[1..]);
        o == WinStep(r.dir, s.events + r.events, r.outcome)
  {
  }

  /** The script's module-level state. */
  class Script {
    /** `last_direction`. */
    var lastDirection: string

    constructor ()
      ensures lastDirection == "right"
    {
      lastDirection := "right";
    }

    /** `move_in_bushes(hwnd)`: presses the arrow and flips the global. */
    method MoveInBushes() returns (events: seq<WinEvent>)
      modifies this
      ensures (events, lastDirection) == Move(old(lastDirection))
    {
      if lastDirection == "right" {
        events := PressKey(VkLeft, MoveHoldMs);
        lastDirection := "left";
      } else {
        events := PressKey(VkRight, MoveHoldMs);
        lastDirection := "right";
      }
    }

    /** One pass of the loop body, on the global `last_direction`. */
    method Pass(cfg: WinConfig, inp: WinInput) returns (events: seq<WinEvent>, outcome: Outcome)
      requires Captured(inp)
      modifies this
      ensures var s := WinTick(cfg, old(lastDirection), inp);
        events == s.events && outcome == s.outcome && lastDirection == s.dir
    {
      var moved := MoveInBushes();
      var p := inp.crop[0][0];
      var checked := moved + [Say(PixelColor(p.0, p.1, p.2))];
      if Colour.IsPredefinedCoordReddish(inp.crop) {
        var pokemonName := inp.name;
        var seen := checked + [Say(WildEncountered), Say(EncounteredName(pokemonName))];
        if Matching.AnyTarget(cfg.similarity, pokemonName, cfg.targets) {
          events, outcome := seen + [Say(TargetSkipped(pokemonName))], TargetFound;
        } else {
          events, outcome := seen + [Say(Defeating)] + DefeatWildPokemon() + [Wait(AfterFightMs)], Looping;
        }
      } else {
        events, outcome := checked, Looping;
      }
    }

    /** `main` over a finite sequence of passes, including the top-level handler, with the global `target_pokemons`. */
    method Run(m: Matching.Counter, windowFound: bool, inputs: seq<WinInput>) returns (events: seq<WinEvent>, outcome: Outcome)
      requires forall k :: 0 <= k < |inputs| ==> Captured(inputs[k])
      modifies this
      ensures var o := Launch(WinConfig(m, Targets), windowFound, old(lastDirection), inputs);
        events == o.events && outcome == o.outcome && lastDirection == o.dir
    {
      var cfg := WinConfig(m, Targets);
      if !windowFound {
        return [], WindowNotFound;
      }
      events := [Say(Starting)];
      outcome := Looping;
      var i := 0;
      while i < |inputs| && outcome == Looping
        invariant 0 <= i <= |inputs|
        invariant outcome == Looping ==>
          var r := WinRunFrom(cfg, lastDirection, inputs[i..]);
          Launch(cfg, windowFound, old(lastDirection), inputs) == WinStep(r.dir, events + r.events, r.outcome)
        invariant outcome != Looping ==>
          Launch(cfg, windowFound, old(lastDirection), inputs) == WinStep(lastDirection, events, outcome)
      {
        assert inputs[i..][0] == inputs[i] && inputs[i..][1..] == inputs[i + 1..];
        WinRunFromStep(cfg, lastDirection, inputs[i..]);
        var passed;
        passed, outcome := Pass(cfg, inputs[i]);
        events := events + passed;
        i := i + 1;
      }
      if outcome == Looping {
        events := events + [Say(StoppedByUser)];
        outcome := Interrupted;
      }
    }
  }
}
