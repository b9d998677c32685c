/**
 What the Windows script guarantees: the first press is left and the arrows
 alternate strictly, a target ends the loop without key 0x33, and every
 other encounter presses key 0x33 exactly once.
 */
module WinBotProofs {
  import opened WinBot
  import Matching

  /** The key codes of the key-down messages of `s`, in order. */
  function KeysDown(s: seq<WinEvent>): (keys: seq<int>)
    ensures |keys| <= |s|
  {
    if s == [] then []
    else (if s[0].Post? && s[0].message == WmKeyDown then [s[0].key] else []) + KeysDown(s[1..])
  }

  lemma {:induction false} KeysDownAppend(a: seq<WinEvent>, b: seq<WinEvent>)
    ensures KeysDown(a + b) == KeysDown(a) + KeysDown(b)
  {
    if a == [] {
      assert a + b == b;
    } else {
      var head := if a[0].Post? && a[0].message == WmKeyDown then [a[0].key] else [];
      assert (a + b)[0] == a[0];
      assert (a + b)[1..] == a[1..] + b;
      assert KeysDown(a + b) == head + KeysDown(a[1..] + b);
      KeysDownAppend(a[1..], b);
      assert KeysDown(a) == head + KeysDown(a[1..]);
      assert head + (KeysDown(a[1..]) + KeysDown(b)) == (head + KeysDown(a[1..])) + KeysDown(b);
    }
  }

  lemma KeysDownCons(e: WinEvent, rest: seq<WinEvent>)
    ensures KeysDown([e] + rest) == (if e.Post? && e.message == WmKeyDown then [e.key] else []) + KeysDown(rest)
  {
    assert ([e] + rest)[1..] == rest;
  }

  /** A press posts exactly one key-down message, for its own key. */
  lemma PressKeyDown(keyCode: int, holdMs: nat)
    ensures KeysDown(PressKey(keyCode, holdMs)) == [keyCode]
  {
    var up := Post(WmKeyUp, keyCode, LParamUp);
    KeysDownCons(up, []);
    KeysDownCons(Wait(holdMs), [up]);
    KeysDownCons(Post(WmKeyDown, keyCode, LParamDown), [Wait(holdMs), up]);
    assert PressKey(keyCode, holdMs) == [Post(WmKeyDown, keyCode, LParamDown)] + [Wait(holdMs), up];
  }

  /** Printing and sleeping post nothing. */
  lemma {:induction false} QuietEvents(s: seq<WinEvent>)
    requires forall i :: 0 <= i < |s| ==> !s[i].Post?
    ensures KeysDown(s) == []
  {
    if s != [] {
      QuietEvents(s[1..]);
    }
  }

  /** A press followed by events that post nothing. */
  lemma PressThenQuiet(keyCode: int, holdMs: nat, rest: seq<WinEvent>)
    requires forall i :: 0 <= i < |rest| ==> !rest[i].Post?
    ensures KeysDown(PressKey(keyCode, holdMs) + rest) == [keyCode]
  {
    PressKeyDown(keyCode, holdMs);
    QuietEvents(rest);
    KeysDownAppend(PressKey(keyCode, holdMs), rest);
  }

  // ---------------------------------------------------------------------------
  // One pass
  // ---------------------------------------------------------------------------

  /** The pixel line every pass prints after moving. */
  function PixelLine(inp: WinInput): WinEvent
    requires Captured(inp)
  {
    var p := inp.crop[0][0];
    Say(PixelColor(p.0, p.1, p.2))
  }

  lemma QuietTickEvents(cfg: WinConfig, dir: string, inp: WinInput)
    requires Captured(inp) && !Reddish(inp)
    ensures var s := WinTick(cfg, dir, inp);
      s.outcome == Looping && s.events == PressKey(KeyFor(dir), MoveHoldMs) + [PixelLine(inp)]
  {
  }

  lemma TargetTickEvents(cfg: WinConfig, dir: string, inp: WinInput)
    requires Captured(inp) && Reddish(inp) && Matching.AnyTarget(cfg.similarity, inp.name, cfg.targets)
    ensures var s := WinTick(cfg, dir, inp);
      && s.outcome == TargetFound
      && s.events == PressKey(KeyFor(dir), MoveHoldMs)
                     + [PixelLine(inp), Say(WildEncountered), Say(EncounteredName(inp.name)), Say(TargetSkipped(inp.name))]
  {
  }

  lemma FightTickEvents(cfg: WinConfig, dir: string, inp: WinInput)
    requires Captured(inp) && Fights(cfg, inp)
    ensures var s := WinTick(cfg, dir, inp);
      && s.outcome == Looping
      && s.events == PressKey(KeyFor(dir), MoveHoldMs)
                     + [PixelLine(inp), Say(WildEncountered), Say(EncounteredName(inp.name)), Say(Defeating)]
                     + (PressKey(VkThree, CombatHoldMs) + [Wait(AfterFightMs)])
  {
  }

  /** A pass that sees no encounter only moves. */
  lemma NoEncounterOnlyMoves(cfg: WinConfig, dir: string, inp: WinInput)
    requires Captured(inp) && !Reddish(inp)
    ensures var s := WinTick(cfg, dir, inp);
      s.outcome == Looping && KeysDown(s.events) == [KeyFor(dir)]
  {
    QuietTickEvents(cfg, dir, inp);
    PressThenQuiet(KeyFor(dir), MoveHoldMs, [PixelLine(inp)]);
  }

  /** A pass that finds a target breaks out of the loop: only the arrow was pressed, never key 0x33. */
  lemma TargetBreaksWithoutFighting(cfg: WinConfig, dir: string, inp: WinInput)
    requires Captured(inp) && Reddish(inp) && Matching.AnyTarget(cfg.similarity, inp.name, cfg.targets)
    ensures var s := WinTick(cfg, dir, inp);
      s.outcome == TargetFound && KeysDown(s.events) == [KeyFor(dir)] && VkThree !in KeysDown(s.events)
  {
    TargetTickEvents(cfg, dir, inp);
    PressThenQuiet(KeyFor(dir), MoveHoldMs,
                   [PixelLine(inp), Say(WildEncountered), Say(EncounteredName(inp.name)), Say(TargetSkipped(inp.name))]);
  }

  /** The keys of a fighting pass's events, whatever the pass. */
  lemma FightKeys(arrow: int, said: seq<WinEvent>)
    requires forall i :: 0 <= i < |said| ==> !said[i].Post?
    ensures var e := PressKey(arrow, MoveHoldMs) + said + (PressKey(VkThree, CombatHoldMs) + [Wait(AfterFightMs)]);
      KeysDown(e) == [arrow, VkThree]
  {
    PressThenQuiet(arrow, MoveHoldMs, said);
    PressThenQuiet(VkThree, CombatHoldMs, [Wait(AfterFightMs)]);
    KeysDownAppend(PressKey(arrow, MoveHoldMs) + said, PressKey(VkThree, CombatHoldMs) + [Wait(AfterFightMs)]);
  }

  /**
   A pass that sees an encounter that is not a target presses key 0x33 once,
   held 0.1 s, after the arrow, and ends with the 0.25 s pause, before the
   next pass moves again.
   */
  lemma NonTargetPressesThreeOnce(cfg: WinConfig, dir: string, inp: WinInput)
    requires Captured(inp) && Fights(cfg, inp)
    ensures var s := WinTick(cfg, dir, inp);
      && s.outcome == Looping
      && KeysDown(s.events) == [KeyFor(dir), VkThree]
      && |s.events| >= 4
      && s.events[|s.events| - 4..] == PressKey(VkThree, CombatHoldMs) + [Wait(AfterFightMs)]
  {
    FightTickEvents(cfg, dir, inp);
    FightKeys(KeyFor(dir), [PixelLine(inp), Say(WildEncountered), Say(EncounteredName(inp.name)), Say(Defeating)]);
  }

  /** The keys of any pass: its arrow, then key 0x33 exactly when it fights. */
  lemma TickKeys(cfg: WinConfig, dir: string, inp: WinInput)
    requires Captured(inp)
    ensures KeysDown(WinTick(cfg, dir, inp).events) == [KeyFor(dir)] + (if Fights(cfg, inp) then [VkThree] else [])
    ensures WinTick(cfg, dir, inp).dir == Move(dir).1
  {
    if !Reddish(inp) {
      NoEncounterOnlyMoves(cfg, dir, inp);
    } else if Matching.AnyTarget(cfg.similarity, inp.name, cfg.targets) {
      TargetBreaksWithoutFighting(cfg, dir, inp);
    } else {
      NonTargetPressesThreeOnce(cfg, dir, inp);
    }
  }

  // ---------------------------------------------------------------------------
  // Runs
  // ---------------------------------------------------------------------------

  /** The arrow keys among `keys`, in order. */
  function Arrows(keys: seq<int>): seq<int>
  {
    if keys == [] then []
    else (if keys[0] == VkLeft || keys[0] == VkRight then [keys[0]] else []) + Arrows(keys[1..])
  }

  lemma {:induction false} ArrowsAppend(a: seq<int>, b: seq<int>)
    ensures Arrows(a + b) == Arrows(a) + Arrows(b)
  {
    if a == [] {
      assert a + b == b;
    } else {
      var head := if a[0] == VkLeft || a[0] == VkRight then [a[0]] else [];
      assert (a + b)[0] == a[0];
      assert (a + b)[1..] == a[1..] + b;
      assert Arrows(a + b) == head + Arrows(a[1..] + b);
      ArrowsAppend(a[1..], b);
      assert Arrows(a) == head + Arrows(a[1..]);
      assert head + (Arrows(a[1..]) + Arrows(b)) == (head + Arrows(a[1..])) + Arrows(b);
    }
  }

  /** Strict alternation from `dir`: even positions press `KeyFor(dir)`, odd ones the other arrow. */
  predicate AlternatesFrom(arrows: seq<int>, dir: string)
  {
    forall k :: 0 <= k < |arrows| ==> arrows[k] == (if k % 2 == 0 then KeyFor(dir) else KeyFor(Move(dir).1))
  }

  lemma AlternationPrepend(dir: string, rest: seq<int>)
    requires AlternatesFrom(rest, Move(dir).1)
    ensures AlternatesFrom([KeyFor(dir)] + rest, dir)
  {
    var all := [KeyFor(dir)] + rest;
    forall k | 0 < k < |all|
      ensures all[k] == (if k % 2 == 0 then KeyFor(dir) else KeyFor(Move(dir).1))
    {
      assert all[k] == rest[k - 1];
      assert KeyFor(Move(Move(dir).1).1) == KeyFor(dir);
    }
  }

  /** The arrows of one pass: exactly its movement arrow. */
  lemma TickArrows(cfg: WinConfig, dir: string, inp: WinInput)
    requires Captured(inp)
    ensures Arrows(KeysDown(WinTick(cfg, dir, inp).events)) == [KeyFor(dir)]
  {
    TickKeys(cfg, dir, inp);
    var extra: seq<int> := if Fights(cfg, inp) then [VkThree] else [];
    ArrowsAppend([KeyFor(dir)], extra);
    assert Arrows(extra) == [];
  }

  /**
   The arrows of a whole run alternate strictly: the first is `KeyFor(dir)`,
   then they switch at every press; one arrow per pass.
   */
  lemma {:induction false} RunAlternates(cfg: WinConfig, dir: string, inputs: seq<WinInput>)
    requires forall k :: 0 <= k < |inputs| ==> Captured(inputs[k])
    ensures AlternatesFrom(Arrows(KeysDown(WinRunFrom(cfg, dir, inputs).events)), dir)
    decreases |inputs|
  {
    if inputs == [] {
      assert Arrows(KeysDown([Say(StoppedByUser)])) == [];
    } else {
      var s := WinTick(cfg, dir, inputs[0]);
      TickArrows(cfg, dir, inputs[0]);
      TickKeys(cfg, dir, inputs[0]);
      if s.outcome == Looping {
        var o := WinRunFrom(cfg, s.dir, inputs[1..]);
        RunAlternates(cfg, s.dir, inputs[1..]);
        KeysDownAppend(s.events, o.events);
        ArrowsAppend(KeysDown(s.events), KeysDown(o.events));
        AlternationPrepend(dir, Arrows(KeysDown(o.events)));
      } else {
        AlternationPrepend(dir, []);
      }
    }
  }

  /** The first key a non-empty run presses is the arrow `last_direction` selects. */
  lemma RunFirstKey(cfg: WinConfig, dir: string, inputs: seq<WinInput>)
    requires forall k :: 0 <= k < |inputs| ==> Captured(inputs[k])
    requires inputs != []
    ensures var keys := KeysDown(WinRunFrom(cfg, dir, inputs).events);
      |keys| > 0 && keys[0] == KeyFor(dir)
  {
    var s := WinTick(cfg, dir, inputs[0]);
    TickKeys(cfg, dir, inputs[0]);
    if s.outcome == Looping {
      KeysDownAppend(s.events, WinRunFrom(cfg, s.dir, inputs[1..]).events);
    }
  }

  /**
   From the script's start (`last_direction == "right"`, the window found) the
   first key pressed is the left arrow, and the arrows go left, right, left, ...
   */
  lemma FirstPressIsLeft(cfg: WinConfig, start: string, inputs: seq<WinInput>)
    requires start == "right"
    requires forall k :: 0 <= k < |inputs| ==> Captured(inputs[k])
    requires inputs != []
    ensures var keys := KeysDown(Launch(cfg, true, start, inputs).events);
      && |keys| > 0 && keys[0] == VkLeft
      && AlternatesFrom(Arrows(keys), start)
  {
    var o := WinRunFrom(cfg, start, inputs);
    RunFirstKey(cfg, start, inputs);
    RunAlternates(cfg, start, inputs);
    KeysDownCons(Say(Starting), o.events);
    assert [] + KeysDown(o.events) == KeysDown(o.events);
    assert KeysDown(Launch(cfg, true, start, inputs).events) == KeysDown(o.events);
  }

  /** How many of the passes fight before the loop ends. */
  function FightsInRun(cfg: WinConfig, inputs: seq<WinInput>): nat
    requires forall k :: 0 <= k < |inputs| ==> Captured(inputs[k])
    decreases |inputs|
  {
    if inputs == [] then 0
    else if Reddish(inputs[0]) && Matching.AnyTarget(cfg.similarity, inputs[0].name, cfg.targets) then 0
    else (if Fights(cfg, inputs[0]) then 1 else 0) + FightsInRun(cfg, inputs[1..])
  }

  /** How often `key` occurs in `keys`. */
  function Count(keys: seq<int>, key: int): nat
  {
    if keys == [] then 0 else (if keys[0] == key then 1 else 0) + Count(keys[1..], key)
  }

  lemma {:induction false} CountAppend(a: seq<int>, b: seq<int>, key: int)
    ensures Count(a + b, key) == Count(a, key) + Count(b, key)
  {
    if a == [] {
      assert a + b == b;
    } else {
      assert (a + b)[0] == a[0];
      assert (a + b)[1..] == a[1..] + b;
      CountAppend(a[1..], b, key);
    }
  }

  /** Key 0x33 is pressed once per fighting pass and at no other time. */
  lemma {:induction false} CombatPressPerFight(cfg: WinConfig, dir: string, inputs: seq<WinInput>)
    requires forall k :: 0 <= k < |inputs| ==> Captured(inputs[k])
    ensures Count(KeysDown(WinRunFrom(cfg, dir, inputs).events), VkThree) == FightsInRun(cfg, inputs)
    decreases |inputs|
  {
    if inputs == [] {
      assert KeysDown([Say(StoppedByUser)]) == [];
    } else {
      var s := WinTick(cfg, dir, inputs[0]);
      TickKeys(cfg, dir, inputs[0]);
      var extra: seq<int> := if Fights(cfg, inputs[0]) then [VkThree] else [];
      CountAppend([KeyFor(dir)], extra, VkThree);
      if s.outcome == Looping {
        var o := WinRunFrom(cfg, s.dir, inputs[1..]);
        CombatPressPerFight(cfg, s.dir, inputs[1..]);
        KeysDownAppend(s.events, o.events);
        CountAppend(KeysDown(s.events), KeysDown(o.events), VkThree);
      }
    }
  }

  /**
   A run the user interrupts ends on "Script stopped by user."; a run that
   stops on a target ends on the target line instead.
   */
  lemma {:induction false} InterruptedRunEndsWithLine(cfg: WinConfig, dir: string, inputs: seq<WinInput>)
    requires forall k :: 0 <= k < |inputs| ==> Captured(inputs[k])
    ensures var r := WinRunFrom(cfg, dir, inputs);
      |r.events| > 0 && (r.outcome == Interrupted <==> r.events[|r.events| - 1] == Say(StoppedByUser))
    decreases |inputs|
  {
    if inputs != [] {
      var inp := inputs[0];
      var s := WinTick(cfg, dir, inp);
      if s.outcome == Looping {
        var o := WinRunFrom(cfg, s.dir, inputs[1..]);
        InterruptedRunEndsWithLine(cfg, s.dir, inputs[1..]);
        assert (s.events + o.events)[|s.events + o.events| - 1] == o.events[|o.events| - 1];
      } else {
        TargetTickEvents(cfg, dir, inp);
      }
    }
  }
}
