# Pokémon Blaze Online grinding bot — a verified model

The bot walks a character left and right in the tall grass of *Pokémon Blaze
Online* until a wild encounter starts. It detects the encounter from a reddish
indicator on screen, reads the opponent's name by OCR and compares it with a
list of target names. On a match it stops and alerts the player. Otherwise it
fights with a configured move and walks on. The bot comes in two variants:

- **PBObotMac.py** is the macOS variant:
  - a worker thread (`BotThread.run`) with a pause flag and a stop flag;
  - a "no encounters for ten seconds" watchdog;
  - a calibration window that turns two drawn rectangles into the capture regions;
  - a Tk GUI that edits the target list and saves the configuration.
- **pbobotplus.py** is the older Windows script:
  - a module-level `last_direction`;
  - a strict single-pixel colour test;
  - a `while True` loop that stops on a target or presses key 0x33.

The model treats capture, OCR, the clock and the operator's flags as inputs.
Key presses, sleeps, log lines and beeps are emitted as event records.

| file | module | what it holds |
|---|---|---|
| wrappers.dfy | `Wrappers` | `Option` |
| text.dfy | `Text` | `str.strip()` and `str.lower()` |
| matching.dfy | `Matching` | `_is_similar` / `is_similar` and the "any target" test |
| colour.dfy | `Colour` | `is_reddish_in_region` (macOS) and `is_predefined_coord_reddish` (Windows) |
| region.dfy | `Region` | `capture_window*` crop boxes, and calibration (the `Calibrator` class and `CalibrateTwoRegions`) |
| traces.dfy | `Traces` | selecting the events of a trace |
| macbot.dfy | `MacBot` | key codes, `move_in_bushes` on the `last_dir` array, `defeat_wild_pokemon`, the tick function `Tick`, and the methods `Pass` and `Run` |
| macbot_proofs.dfy | `MacBotProofs` | the properties of the macOS loop: alternation, the watchdog, the encounter branches, pause |
| macgui.dfy | `MacGui` | configuration defaulting, and the `BotGui` class (target list add/remove, move choice, list display) |
| winbot.dfy | `WinBot` | key messages and `lParam`, the `Script` class (global `last_direction`, `move_in_bushes`, the `main` loop) |
| winbot_proofs.dfy | `WinBotProofs` | the properties of the Windows loop |

Modelling choices:

- **Time.** Time is integer milliseconds. Each macOS pass reads the clock twice:
  - `detectAt` at an encounter (line 264);
  - `checkAt` at the watchdog (line 280).

  `Chronological` states that the readings never go back.
- **Ratio.** `SequenceMatcher(...).ratio()` is `2*M/T`, with `T` the total length. "At least 0.7" is compared in integers as `20*M >= 7*T`. The count `M` is an abstract `Counter`, and the facts used about it are collected in `Plausible`:
  - two equal strings match completely;
  - `M` is at most the size of the multiset intersection.
- **Loops.** Both loops run over a finite sequence of passes.
  - In the Windows script, running out of passes is the user's interrupt (`KeyboardInterrupt`).
  - In the macOS loop, the run ends on the stop flag, stops on a target, dies on a capture without pixels, or is still running when the sequence ends.
- **Captures without pixels.** Calibration keeps a zero-width or zero-height box, and `capture_window_mac` still crops to it (PBObotMac.py:125-130). `cv2.cvtColor` raises on the resulting empty image, both in `is_reddish_in_region` (line 142) and in `get_pokemon_name` (line 158). The exception ends the worker thread at once, without "Bot thread stopping." (line 289). The model has an exit `Crashed` for this. `Colour.ToBgr` and `Colour.IsReddishInRegion` require an image with pixels; `MacBot.Tick` takes the crash exit before calling them. For the name region, `TickInput.emptyNameCapture` says the capture had no pixels.
- **Imperative code.** The source's in-place code is written in imperative form:
  - `MacBot.MoveInBushes` updates a one-element array;
  - `MacBot.Pass` and `MacBot.Run` are the `while` loop;
  - `WinBot.Script` holds `last_direction`;
  - `Region.Calibrator` holds `result` and `region_index`;
  - `MacGui.BotGui` holds `config_data` and `target_pokemons`.

  Each method is proved equal to a function, and the properties are lemmas about that function.

Where the code behaves in a way a reader might not expect, the model follows the code:

- **The target list.** The configuration is not copied when a run starts. The worker thread gets the GUI's own list object (PBObotMac.py:628, 244), so edits made during a run are seen at the next pass. The model therefore reads the target list anew on every tick (`TickInput.targets`).
- **Empty text.** Empty recognised text is not rejected before the comparison. Two empty strings have ratio 1.0, so an empty name matches a list that holds the empty string (`Matching.EmptyNameMatchesOnlyEmptyTarget`). It matches no list without one.
- **Degenerate regions.** Zero-size regions are not rejected: neither the calibration nor `start_bot` checks them. The model stores them as they are (`Region.Normalize`). A run that captures one dies as described above (`MacBotProofs.CrashEndsRunSilently`).
- **Windows target list.** The Windows script stops on its own list `["Electivire", "Dustox"]` (`WinBot.Targets`). The macOS defaults are `["Electivire", "Xurkitree", "Garchomp"]`.

## Model

| member | source | states |
|---|---|---|
| Text.Strip | PBObotMac.py:516 | `strip()` returns a slice of the input that neither starts nor ends with whitespace, and everything cut off on either side is whitespace |
| Text.StripIdempotent | PBObotMac.py:516 | stripping twice is stripping once |
| Text.StripEmptyIffAllSpace | PBObotMac.py:516-517 | an entry strips to empty (so `if new_poke:` fails) exactly when it is all whitespace |
| Text.Lower | PBObotMac.py:307 | `lower()` keeps the length and lowers each character |
| Text.LowerIdempotent | PBObotMac.py:307 | lowering twice is lowering once |
| Matching.IsSimilar | PBObotMac.py:306-307 | `_is_similar` (and `is_similar`, pbobotplus.py:119-120) as the integer test `20*M >= 7*T` on the lowered strings; no contract of its own, its meaning is stated by the lemmas below |
| Matching.MatchedAtMostShorter | PBObotMac.py:307 | under a plausible counter, `M <= min(|a|, |b|)`, so the ratio lies in [0, 1] |
| Matching.CaseInsensitive | PBObotMac.py:306-307 | lowering either string first does not change `_is_similar` |
| Matching.IdenticalUpToCaseIsSimilar | PBObotMac.py:306-307 | a name equal to the target up to case is always similar (ratio 1.0) |
| Matching.SimilarNeedsComparableLengths | pbobotplus.py:119-120 | similar names have lengths within a factor of 13/7 of each other, and one is empty exactly when the other is |
| Matching.AnyTarget | PBObotMac.py:272 | `any(self._is_similar(name, t) for t in targets)`; characterised by `AnyTargetIff` |
| Matching.AnyTargetIff | PBObotMac.py:272 | `any(...)` over the target list holds exactly when some listed target is similar |
| Matching.EmptyListNeverMatches | PBObotMac.py:242-244 | with no targets (the thread's default) nothing matches |
| Matching.ListedNameMatches | PBObotMac.py:272 | a listed target equal to the name up to case always matches |
| Matching.EmptyNameMatchesOnlyEmptyTarget | pbobotplus.py:149 | empty recognised text matches exactly when the list holds the empty string |
| Matching.ElectivireMatchesLowerCase | PBObotMac.py:306-307 | "Electivire" is similar to "electivire" |
| Matching.ElectivireIsNotXurkitree | PBObotMac.py:306-307 | "Electivire" is not similar to "Xurkitree": at most 5 of 19 characters match |
| Colour.ToBgr | PBObotMac.py:142 | `cvtColor(RGB2BGR)`, defined only on an image with pixels as OpenCV demands, keeps the shape and swaps the first and third channel of every pixel |
| Colour.InRangeMask | PBObotMac.py:147 | `cv2.inRange` is 255 exactly at the pixels within the bounds on all three channels, bounds included, and 0 elsewhere |
| Colour.AnyPositive | PBObotMac.py:148 | `np.any(mask > 0)` holds exactly when some entry of the mask is positive |
| Colour.IsReddishInRegion | PBObotMac.py:137-148 | `is_reddish_in_region` after the capture: `None` gives false, an image with pixels goes through the BGR conversion, `inRange` and `np.any`; an image without pixels is outside its precondition because the conversion raises; characterised by `ReddishIffSomePixelInRange` |
| Colour.ReddishIffSomePixelInRange | PBObotMac.py:137-148 | for any capture the conversion accepts, `is_reddish_in_region` is true exactly when the capture exists and some pixel lies in `[lower, upper]` on all channels; a failed capture gives false |
| Colour.BgrTestEqualsRgbTest | PBObotMac.py:142-147 | reordering both the image and the thresholds to BGR gives the same answer as testing in RGB |
| Colour.IsPredefinedCoordReddish | pbobotplus.py:75-83 | the strict test `r > 150 and g < 100 and b < 100` on pixel (0, 0) of the capture; related to the macOS test by the next three lemmas |
| Colour.StrictImpliesInclusive | pbobotplus.py:80-83 | an 8-bit pixel that passes the strict Windows test also passes the inclusive macOS test with its default thresholds |
| Colour.OnlyFirstPixelMatters | pbobotplus.py:75-78 | the Windows test reads only pixel (0, 0) of the capture |
| Colour.LowerBoundSeparatesVariants | pbobotplus.py:83 | (150, 0, 0) is reddish for the macOS test but not for the Windows test |
| Region.CropBox | PBObotMac.py:125-130 | region `(x, y, w, h)` becomes the box `(x, y, x+w, y+h)`, whose width is `w` and height `h` |
| Region.RegionOf | PBObotMac.py:125-130 | the inverse of the crop-box conversion |
| Region.CropBoxInjective | pbobotplus.py:69-71 | two regions with the same crop box are equal |
| Region.CropFor | pbobotplus.py:69-71 | a crop is applied exactly when a region is given, and it encloses exactly that region |
| Region.Normalize | PBObotMac.py:360-366 | on release, `x = min(start_x, end_x)`, `w = |end_x - start_x|`, and likewise for y and h; zero sides are kept |
| Region.NormalizeSymmetric | PBObotMac.py:362-363 | swapping the drag's start and end gives the same box |
| Region.NormalizeCorners | PBObotMac.py:362-366 | the drag's end points are opposite corners of the stored box |
| Region.Calibrator.constructor | PBObotMac.py:344-347 | the drag start is (0, 0), `result == [None, None]`, `region_index == 0`, and the window is open |
| Region.Calibrator.ButtonPress | PBObotMac.py:349-353 | records the drag start and nothing else |
| Region.Calibrator.ButtonRelease | PBObotMac.py:360-375 | the first release fills `result[0]` and moves to index 1; the second fills `result[1]`, leaves `result[0]` as it was and closes the window; each logs its box |
| Region.Boxes | PBObotMac.py:349-375 | the boxes a stream of pointer events draws; never more boxes than events (what each box is: `Region.BoxesPerRelease`) |
| Region.BoxesPerRelease | PBObotMac.py:344-366 | exactly one box per release; the box of each release is normalised from the latest press before it, or from the initial (0, 0) when there was none, to the release point |
| Region.CalibratedLog | PBObotMac.py:369 | one "Calibrated box k" line per box, numbered from 1 |
| Region.CalibrateTwoRegions | PBObotMac.py:325-384 | without a snapshot it logs the failure and returns `(None, None)`; otherwise, once the calibration window is destroyed, it returns the first and second box drawn, and later gestures are not seen |
| MacBot.PressKeyMac | PBObotMac.py:184-193 | one event per call: a press of the key's code with the given hold exactly when the name is in `MAC_KEYCODES`, otherwise the unknown-key complaint |
| MacBot.UnknownKeyIgnored | PBObotMac.py:184-193 | a key name missing from `MAC_KEYCODES` presses nothing; a known one presses exactly its code |
| MacBot.KeycodesDistinct | PBObotMac.py:172-182 | no two key names share a code |
| MacBot.DefeatKey | PBObotMac.py:296-303 | `move_map.get(choice, "1")`: a listed move is kept and anything else falls back to "1"; the result is always a known key |
| MacBot.DefeatWildPokemon | PBObotMac.py:291-304 | one press of the chosen move's key code, held 0.1 s |
| MacBot.Move | PBObotMac.py:207-216 | `last_dir` 0 presses right and becomes 1; anything else presses left and becomes 0 |
| MacBot.MoveInBushes | PBObotMac.py:207-216 | updates the one-element `last_dir` in place as `Move` says |
| MacBot.Watchdog | PBObotMac.py:280-287 | the watchdog step never ends the loop |
| MacBot.Tick | PBObotMac.py:255-287 | one pass of the loop: stop, pause, move, then the crash on a capture without pixels, the detection, the name, the target beep or the fight, and the watchdog; its exits are stated by `TickExits` |
| MacBot.TickExits | PBObotMac.py:255-287 | a pass stops exactly on the stop flag, breaks out exactly on a target, dies exactly when the indicator capture (or, after a detection, the name capture) has no pixels, and otherwise goes on; it never logs the closing line |
| MacBot.RunFrom | PBObotMac.py:253-289 | a run: passes until the first that does not go on; "Bot thread stopping." is in the trace exactly when the run ended on the stop flag or on a target, so never after a crash |
| MacBot.RunFromStep | PBObotMac.py:255-289 | a run is its first pass followed by the rest of the run, or by the closing line (none after a crash) when the pass ends the loop |
| MacBot.Pass | PBObotMac.py:255-287 | one loop pass on the loop's variables and the `last_dir` array gives exactly the events, new variables and exit of `Tick`, returning early where the source raises |
| MacBot.Run | PBObotMac.py:247-289 | `run`: "thread started", then the passes as `RunFrom` describes, ending with "thread stopping" when the loop exits by the flag or a target, and without it when a capture raises |
| MacBotProofs.PauseLeavesStateUntouched | PBObotMac.py:256-258 | a paused pass sleeps 0.2 s and changes none of `last_dir`, `encounter_count`, `last_encounter_time` and `next_check_time` |
| MacBotProofs.StopEndsAtOnce | PBObotMac.py:255 | the stop flag ends the loop before anything is pressed |
| MacBotProofs.WatchdogShape | PBObotMac.py:280-287 | the watchdog presses no key; it beeps "no encounters" exactly when `now >= next_check_time` and `now - last >= 10 s`; whenever due it sets `next_check_time = now + 10 s` |
| MacBotProofs.CombatPressIsNoArrow | PBObotMac.py:296-303 | the combat key is never an arrow key, whatever the chosen move |
| MacBotProofs.QuietTickEvents | PBObotMac.py:260-287 | a quiet pass (a capture with pixels, none reddish) is the arrow, then the watchdog's events |
| MacBotProofs.TargetTickEvents | PBObotMac.py:260-274 | a pass that finds a target is the arrow, the two encounter lines and the target beep |
| MacBotProofs.FightTickEvents | PBObotMac.py:260-287 | a fighting pass is the arrow, three lines, the combat key, the 0.1 s sleep, then the watchdog's events |
| MacBotProofs.CrashTickEvents | PBObotMac.py:260-269 | a pass that dies is the arrow alone when the indicator capture has no pixels, or the arrow and the encounter line (with the count raised) when the name capture has none; no watchdog and no sleep follow |
| MacBotProofs.QuietTickShape | PBObotMac.py:260-287 | in a quiet pass the arrow comes first and no other key is pressed |
| MacBotProofs.TargetTickShape | PBObotMac.py:260-274 | in a target pass the arrow comes first and no other key is pressed |
| MacBotProofs.FightTickShape | PBObotMac.py:260-287 | in a fighting pass the arrow comes first, the combat key fifth, and nothing else is pressed |
| MacBotProofs.CrashTickShape | PBObotMac.py:260-269 | in a pass that dies the arrow comes first and no other key is pressed |
| MacBotProofs.ActiveTickShape | PBObotMac.py:260-287 | every active pass has that layout, with a combat key exactly when it fights |
| MacBotProofs.TickArrows | PBObotMac.py:256-260 | an active pass presses exactly the arrow `last_dir` selects and toggles `last_dir`; a stopped or paused pass presses no arrow and keeps it |
| MacBotProofs.TickCombat | PBObotMac.py:262-277 | a pass presses the combat key once if it fights and never otherwise |
| MacBotProofs.EncounterBookkeeping | PBObotMac.py:262-265 | detection adds exactly one to `encounter_count` and sets `last_encounter_time` to the detection time, even when reading the name then raises; no detection leaves both unchanged |
| MacBotProofs.TargetMatchStopsWithoutFighting | PBObotMac.py:272-274 | a match on the name read beeps, ends the loop and presses no combat key; the deadline is the detection time plus 10 s |
| MacBotProofs.NonMatchFightsOnce | PBObotMac.py:275-277 | a name read that matches no target presses the key `move_map.get(move_choice, "1")` exactly once, held 0.1 s, and the loop goes on |
| MacBotProofs.NoDetectionOnlyMoves | PBObotMac.py:260-262 | without detection no combat key is pressed; the loop goes on, unless the capture had no pixels, and then the thread dies |
| MacBotProofs.CrashEndsRunSilently | PBObotMac.py:255-289 | a pass whose capture has no pixels ends the run right there, with no combat key and without the "Bot thread stopping." line |
| MacBotProofs.TickEndsWithWatchdog | PBObotMac.py:280-285 | an active pass that finds no target ends in the watchdog's state, with the watchdog's alerts |
| MacBotProofs.NoAlertOffWatchdog | PBObotMac.py:255-274 | stopped, paused, dying and target passes never raise the "no encounters" alert |
| MacBotProofs.InitialInv | PBObotMac.py:251-252 | the variables as `run` sets them up satisfy the watchdog invariant `last + 10 s <= next` |
| MacBotProofs.AlertIffDeadline | PBObotMac.py:280-285 | under the invariant the alert fires exactly when the clock reaches the deadline (the inner ten-second test always holds there), and the deadline becomes `now + 10 s` |
| MacBotProofs.TickKeepsWatchdogInv | PBObotMac.py:262-285 | every pass keeps the watchdog invariant, and the deadline never moves back |
| MacBotProofs.TickAlertsAtMostOnce | PBObotMac.py:280-285 | a pass beeps "no encounters" at most once, and only in a pass that continues |
| MacBotProofs.AlertTimesCountBeeps | PBObotMac.py:255-289 | the alert times list one entry per "no encounters" beep of the run |
| MacBotProofs.AlertsTenSecondsApart | PBObotMac.py:280-285 | the first alert comes no earlier than the initial deadline, and each later one at least 10 s after the one before |
| MacBotProofs.TickToggles | PBObotMac.py:207-216 | one pass presses at most the selected arrow and toggles `last_dir` once per press |
| MacBotProofs.RunAlternates | PBObotMac.py:253-260 | the k-th movement press of a run is right when `k + last_dir` is even and left otherwise: starting from `[0]`, right, left, right, ... |
| MacBotProofs.RunDirection | PBObotMac.py:207-216 | after a run, `last_dir` is opposite to the last movement press, or as it started if there was none |
| MacBotProofs.QuietPass | PBObotMac.py:260-287 | a quiet pass before the deadline changes only `last_dir`, and raises no alert and no combat key |
| MacBotProofs.TargetEndsRun | PBObotMac.py:255-289 | a run whose pass finds a target ends there with one encounter counted, the target beep, no alert and no combat key |
| MacBotProofs.QuietThenTarget | PBObotMac.py:255-289 | quiet passes and then a target pass: the run stops on the target with one encounter counted, the target beep, no "no encounters" alert and no combat key |
| MacBotProofs.GarchompScenario | PBObotMac.py:247-289 | no encounter for the first ten seconds, then "Garchomp" with "Garchomp" listed: `encounter_count == 1`, the target beep, no alert and no combat key |
| MacGui.WithDefaults | PBObotMac.py:396-403 | defaulting adds each missing default key with its default and leaves every present key untouched |
| MacGui.SetDefault | PBObotMac.py:396-397 | one `if key not in config_data` test adds the key only when it is missing |
| MacGui.FilledInOrder | PBObotMac.py:396-403 | the four tests, one after another, are the defaulting |
| MacGui.WithDefaultsIdempotent | PBObotMac.py:396-403 | defaulting twice is defaulting once |
| MacGui.CompleteConfigUnchanged | PBObotMac.py:396-403 | a configuration that has every key is left as it was |
| MacGui.AsJson | PBObotMac.py:522 | the stored target list is a JSON list of the names, in order |
| MacGui.NamesOf | PBObotMac.py:444 | `list(config_data["target_pokemons"])` reads the names back in order |
| MacGui.NamesRoundTrip | PBObotMac.py:444 | storing the names and reading them back gives the same list, and the other way round |
| MacGui.FirstIndex | PBObotMac.py:529 | the position `list.remove` acts on is the first occurrence |
| MacGui.RemoveFirst | PBObotMac.py:529 | `list.remove(x)` drops the first occurrence of `x` and nothing else: one element fewer, the same multiset minus one `x` |
| MacGui.RemoveUndoesAppend | PBObotMac.py:515-529 | adding a new name and removing it again restores the list |
| MacGui.Lines | PBObotMac.py:538-543 | the display is empty exactly when the list is, and otherwise ends with a line break; at least one character per name |
| MacGui.LinesAppend | PBObotMac.py:541-542 | adding a name adds its line at the end of the display |
| MacGui.BotGui.constructor | PBObotMac.py:389-462 | the configuration is the loaded one with defaults filled in, the target list is read from it and displayed, and the invariant holds |
| MacGui.BotGui.SetEntry | PBObotMac.py:453 | typing into the name entry changes only the entry |
| MacGui.BotGui.OnMoveChanged | PBObotMac.py:509-512 | the preferred move is stored, the configuration saved and the change logged; nothing else changes |
| MacGui.BotGui.Store | PBObotMac.py:533-536 | the common tail of both buttons redraws the list, clears the entry, stores the list in the configuration and saves it |
| MacGui.BotGui.AddPokemon | PBObotMac.py:515-523 | a non-blank entry is appended stripped, logged, displayed, cleared and saved; a blank entry changes nothing |
| MacGui.BotGui.RemovePokemon | PBObotMac.py:525-536 | a listed name loses its first occurrence; an unlisted one leaves the list as it was and logs "not found"; either way the entry is cleared and the configuration saved; a blank entry changes nothing |
| WinBot.LParamValues | pbobotplus.py:89-93 | `lParam_down == 16777217` and `lParam_up == 3238002689`; bits 0 and 24 are set in both, bits 30 and 31 in the key-up value only |
| WinBot.PressKey | pbobotplus.py:86-99 | key down with `lParam_down`, the hold, then key up with `lParam_up`, both messages for the given key |
| WinBot.DefeatWildPokemon | pbobotplus.py:122-128 | posts messages for key 0x33 only, with the 0.1 s hold |
| WinBot.KeyFor | pbobotplus.py:101-109 | the arrow is always 0x25 or 0x27, and it is 0x25 exactly when `last_direction` is "right" |
| WinBot.Move | pbobotplus.py:101-109 | after "right" the left arrow 0x25 is pressed and the global becomes "left"; otherwise the right arrow 0x27, and it becomes "right"; the key changes every call |
| WinBot.WinTick | pbobotplus.py:137-155 | one pass walks first, with the arrow `Move` presses, flips the direction, and ends the loop exactly when it sees an encounter whose name matches a target |
| WinBot.WinRunFrom | pbobotplus.py:137-160 | the loop ends on a target or on the user's interrupt, never otherwise, and its trace is not empty |
| WinBot.Launch | pbobotplus.py:133-160 | without the game window nothing is printed and the outcome is "window not found", and only then; with it the first line is "Starting script..." |
| WinBot.WinRunFromStep | pbobotplus.py:137-155 | a run is its first pass followed by the rest of the run when the pass loops on |
| WinBot.Script.constructor | pbobotplus.py:131 | `last_direction` starts as "right" |
| WinBot.Script.MoveInBushes | pbobotplus.py:101-109 | presses the arrow and flips the global as `Move` says |
| WinBot.Script.Pass | pbobotplus.py:138-155 | one pass of the loop on the global gives exactly the events, outcome and new direction of `WinTick` |
| WinBot.Script.Run | pbobotplus.py:133-160 | `main` and its handler give the events and outcome of `Launch`, with the global target list |
| WinBotProofs.PressKeyDown | pbobotplus.py:86-99 | a press posts exactly one key-down message, for its key |
| WinBotProofs.QuietTickEvents | pbobotplus.py:138-141 | a pass without an encounter is the arrow press and the pixel line |
| WinBotProofs.TargetTickEvents | pbobotplus.py:141-151 | a target pass is the arrow, the pixel line, the two encounter lines and the "skipping battle" line, and it breaks |
| WinBotProofs.FightTickEvents | pbobotplus.py:152-155 | a fighting pass ends with key 0x33 held 0.1 s and the 0.25 s sleep |
| WinBotProofs.NoEncounterOnlyMoves | pbobotplus.py:138-141 | with no encounter only the arrow is pressed |
| WinBotProofs.TargetBreaksWithoutFighting | pbobotplus.py:149-151 | on a match the loop breaks with only the arrow pressed, never 0x33 |
| WinBotProofs.NonTargetPressesThreeOnce | pbobotplus.py:152-155 | a non-match presses 0x33 exactly once, after the arrow, and ends with that press and the 0.25 s sleep, before the next movement |
| WinBotProofs.TickKeys | pbobotplus.py:137-155 | the keys of a pass are its arrow, then 0x33 exactly when it fights |
| WinBotProofs.TickArrows | pbobotplus.py:138 | each pass presses exactly one arrow |
| WinBotProofs.RunAlternates | pbobotplus.py:101-109 | the arrows of a run alternate strictly, starting with the one `last_direction` selects |
| WinBotProofs.RunFirstKey | pbobotplus.py:138 | a non-empty run first presses the arrow `last_direction` selects |
| WinBotProofs.FirstPressIsLeft | pbobotplus.py:131 | from the start (`"right"`, window found) the first key is the left arrow 0x25, and the arrows go left, right, left, ... |
| WinBotProofs.InterruptedRunEndsWithLine | pbobotplus.py:157-160 | a run ends on "Script stopped by user." exactly when the user interrupted it |
| WinBotProofs.CombatPressPerFight | pbobotplus.py:152-155 | over a run, 0x33 is pressed once per fighting pass and at no other time |

## Left out

- Window lookup and capture through Quartz and win32gui/win32ui are not modelled (PBObotMac.py:54-132, pbobotplus.py:32-73). These are platform calls. A capture is an input: `Option<Image>` on macOS, a non-empty 20x20 crop on Windows. `find_window_by_title`, `get_game_hwnd` and the window bounds are left out too; the Windows "window not found" outcome is a boolean input.
- Key posting (`CGEventPost`, `PostMessage`) and `time.sleep` are modelled as event records, not side effects.
- Tesseract OCR and the grey conversion with its threshold are not modelled. They use an external library and floating-point weights. The recognised name is an input string. Whether the name region's capture had no pixels, so that the conversion raises, is an input flag.
- `difflib.SequenceMatcher`'s block search is not modelled: `M` is an abstract counter, bounded by `Plausible`. `Matching.IsSimilar` compares `20*M >= 7*T` in integers instead of the float ratio.
- Text.Lower: lowers only the ASCII letters. Python's `str.lower()` also lowers other Unicode letters.
- `Text.Strip` uses Python's whitespace set; no Unicode normalisation is modelled.
- The threads, `threading.Event` and `queue.Queue` of the GUI's log polling are not modelled. The stop and pause flags and the target list are read once per pass, as inputs.
- The time each pass reads is a parameter, in integer milliseconds, with no floating-point seconds.
- The infinite loops run over finite sequences of passes. `KeyboardInterrupt` is the end of the Windows sequence.
- WinBot.WinRunFrom: an interrupt inside a pass is not modelled; the user's `KeyboardInterrupt` arrives only between passes. In the source it can arrive during any `time.sleep` of a pass, most often during `press_key`'s hold (pbobotplus.py:96). The key-down has then been posted and its key-up never is, yet the handler still prints "Script stopped by user." (pbobotplus.py:157-160). So the model's promise that every key-down is followed by its key-up does not hold of the program.
- JSON load and save are not modelled. `load_config` is the constructor's argument and each `save_config` call is recorded in `saved`. JSON numbers are integers only.
- MacGui.BotGui.constructor: requires a present `target_pokemons` to be a list of strings. Other shapes are malformed for the model.
- The constructor fills the defaults with `SetDefault`, one call per `if key not in config_data` test of the source.
- After the first edit, the source's `config_data["target_pokemons"]` and `self.target_pokemons` are the same list object. The model keeps them as values and states their agreement in `BotGui.Valid`.
- The Tk widgets are not modelled: window layout, Entry parsing of regions, the calibration canvas drawing, `on_move_press`, `mainloop`, `find_pbo_window`, `calibrate_regions`, `start_bot`, `pause_bot`, `stop_bot`, `_update_config_data`, `on_closing` and the log widget.
- The calibration window's `mainloop` (PBObotMac.py:383) is modelled as returning when the second release destroys the window (line 373), with the boxes drawn so far. In Tk, `mainloop` runs the whole application's event loop, and destroying a `Toplevel` does not by itself end it. So the source may return later than the model says, or not until the application quits. The model does not capture that delay.
- The `afplay` beep and its subprocess are left out; a beep is an event. `debug_save_image` is not modelled.
- The zero-size region check is left out, as in the source: neither calibration nor `start_bot` rejects zero-size regions.
- MacBot.Run: the passes are a finite sequence. When it runs out while the loop is still running, no stop line is logged, because the real loop would go on.
