/**
 The parts of `BotGUI` that hold state: the configuration dictionary and its
 defaults, the target list with its add/remove buttons, the read-only list
 display, the preferred move, and the log lines and configuration saves they
 produce.
 */
module MacGui {
  import Text

  /** A JSON value as `json.load` returns it (numbers restricted to integers). */
  datatype Json =
    | JNull
    | JBool(b: bool)
    | JNum(n: int)
    | JStr(s: string)
    | JArr(items: seq<Json>)
    | JObj(fields: map<string, Json>)

  type Config = map<string, Json>

  // ---------------------------------------------------------------------------
  // Defaults
  // ---------------------------------------------------------------------------

  /** The value `BotGUI.__init__` stores under each key the loaded file lacks. */
  const Defaults: Config := map[
    "pokeball_region" := JArr([JNum(1380), JNum(330), JNum(60), JNum(20)]),
    "name_region" := JArr([JNum(1224), JNum(339), JNum(145), JNum(20)]),
    "target_pokemons" := JArr([JStr("Electivire"), JStr("Xurkitree"), JStr("Garchomp")]),
    "preferred_move" := JStr("1")
  ]

  /** Defaulting: every key the loaded configuration has keeps its value, and the missing default keys are added. */
  function WithDefaults(loaded: Config): (r: Config)
    ensures r.Keys == loaded.Keys + Defaults.Keys
    ensures forall k :: k in loaded ==> r[k] == loaded[k]
    ensures forall k :: k in Defaults && k !in loaded ==> r[k] == Defaults[k]
  {
    map k | k in loaded.Keys + Defaults.Keys :: if k in loaded then loaded[k] else Defaults[k]
  }

  /** The keys `__init__` fills in. */
  lemma DefaultKeysListed()
    ensures Defaults.Keys == {"pokeball_region", "name_region", "target_pokemons", "preferred_move"}
  {
  }

  /** One `if key not in config_data` test of `__init__`. */
  function SetDefault(data: Config, key: string): (r: Config)
    requires key in Defaults
    ensures r.Keys == data.Keys + {key}
    ensures forall k :: k in data ==> r[k] == data[k]
    ensures key !in data ==> r[key] == Defaults[key]
  {
    if key in data then data else data[key := Defaults[key]]
  }

  /** The four tests of `__init__`, one after another, are the defaulting. */
  lemma FilledInOrder(loaded: Config)
    ensures SetDefault(SetDefault(SetDefault(SetDefault(loaded, "pokeball_region"), "name_region"),
                                  "target_pokemons"), "preferred_move") == WithDefaults(loaded)
  {
    DefaultKeysListed();
  }

  /** Defaulting twice is defaulting once. */
  lemma WithDefaultsIdempotent(loaded: Config)
    ensures WithDefaults(WithDefaults(loaded)) == WithDefaults(loaded)
  {
    var once := WithDefaults(loaded);
    assert WithDefaults(once).Keys == once.Keys;
  }

  /** A configuration that already has every key is left exactly as it was. */
  lemma CompleteConfigUnchanged(loaded: Config)
    requires Defaults.Keys <= loaded.Keys
    ensures WithDefaults(loaded) == loaded
  {
  }

  // ---------------------------------------------------------------------------
  // Target names
  // ---------------------------------------------------------------------------

  /** A JSON array of strings, the shape the target list must have. */
  predicate IsNameList(j: Json)
  {
    j.JArr? && forall i :: 0 <= i < |j.items| ==> j.items[i].JStr?
  }

  /** The list the target names are stored as in the configuration. */
  function AsJson(names: seq<string>): (j: Json)
    ensures IsNameList(j) && |j.items| == |names|
    ensures forall i :: 0 <= i < |names| ==> j.items[i] == JStr(names[i])
  {
    JArr(seq(|names|, i requires 0 <= i < |names| => JStr(names[i])))
  }

  /** `list(...)` of a stored target list. */
  function NamesOf(j: Json): (names: seq<string>)
    requires IsNameList(j)
    ensures |names| == |j.items|
    ensures forall i :: 0 <= i < |names| ==> j.items[i] == JStr(names[i])
  {
    seq(|j.items|, i requires 0 <= i < |j.items| => j.items[i].s)
  }

  /** Storing names and reading them back gives the same names, and the other way round. */
  lemma NamesRoundTrip(names: seq<string>, j: Json)
    requires IsNameList(j)
    ensures NamesOf(AsJson(names)) == names
    ensures AsJson(NamesOf(j)) == j
  {
  }

  /** The position of the first occurrence of `x`, as `list.index(x)` finds it. */
  function FirstIndex(s: seq<string>, x: string): (i: nat)
    requires x in s
    ensures i < |s| && s[i] == x && x !in s[..i]
  {
    if s[0] == x then 0
    else
      var j := FirstIndex(s[1..], x);
      assert s[..j + 1] == [s[0]] + s[1..][..j];
      j + 1
  }

  /** `list.remove(x)`: the first occurrence of `x` is dropped and nothing else changes. */
  function RemoveFirst(s: seq<string>, x: string): (r: seq<string>)
    requires x in s
    ensures var i := FirstIndex(s, x); r == s[..i] + s[i + 1..]
    ensures multiset(r) == multiset(s) - multiset{x}
    ensures |r| == |s| - 1
  {
    var i := FirstIndex(s, x);
    assert s == s[..i] + [s[i]] + s[i + 1..];
    s[..i] + s[i + 1..]
  }

  /** Adding a new name and removing it again restores the list. */
  lemma RemoveUndoesAppend(s: seq<string>, x: string)
    requires x !in s
    ensures RemoveFirst(s + [x], x) == s
  {
    assert (s + [x])[..|s|] == s;
  }

  /** The read-only list box: one name per line. */
  function Lines(names: seq<string>): (text: string)
    ensures |text| >= |names|
    ensures text == "" <==> names == []
    ensures names != [] ==> text[|text| - 1] == '\n'
  {
    if names == [] then [] else Lines(names[..|names| - 1]) + names[|names| - 1] + "\n"
  }

  /** A line break in the display ends each name, so adding a name adds a line at the end. */
  lemma LinesAppend(names: seq<string>, x: string)
    ensures Lines(names + [x]) == Lines(names) + x + "\n"
  {
    assert (names + [x])[..|names|] == names;
  }

  // ---------------------------------------------------------------------------
  // The GUI state
  // ---------------------------------------------------------------------------

  /** A line `BotGUI` puts on its log queue. */
  datatype GuiLog =
    | MoveChanged(choice: string)
    | AddedTarget(name: string)
    | RemovedTarget(name: string)
    | NotInList(name: string)

  class BotGui {
    var configData: Config
    var targetPokemons: seq<string>
    /** The text of the name entry field. */
    var entry: string
    /** The text of the target list display. */
    var displayed: string
    var logQueue: seq<GuiLog>
    /** Every configuration `save_config` has written, in order. */
    var saved: seq<Config>

    /**
     The configuration holds every default key, its target list is the GUI's
     target list, and the display shows that list.
     */
    ghost predicate Valid()
      reads this
    {
      && Defaults.Keys <= configData.Keys
      && configData["target_pokemons"] == AsJson(targetPokemons)
      && displayed == Lines(targetPokemons)
    }

    /** `BotGUI.__init__` on the dictionary `load_config` returned. */
    constructor (loaded: Config)
      requires "target_pokemons" in loaded ==> IsNameList(loaded["target_pokemons"])
      ensures Valid()
      ensures configData == WithDefaults(loaded)
      ensures targetPokemons == NamesOf(configData["target_pokemons"])
      ensures entry == [] && logQueue == [] && saved == []
    {
      var data := loaded;
      data := SetDefault(data, "pokeball_region");
      data := SetDefault(data, "name_region");
      data := SetDefault(data, "target_pokemons");
      data := SetDefault(data, "preferred_move");
      FilledInOrder(loaded);
      NamesRoundTrip(NamesOf(data["target_pokemons"]), data["target_pokemons"]);
      configData := data;
      targetPokemons := NamesOf(data["target_pokemons"]);
      entry := [];
      displayed := Lines(NamesOf(data["target_pokemons"]));
      logQueue := [];
      saved := [];
    }

    /** The user types into the name entry field. */
    method SetEntry(text: string)
      modifies this
      ensures entry == text
      ensures configData == old(configData) && targetPokemons == old(targetPokemons)
      ensures displayed == old(displayed) && logQueue == old(logQueue) && saved == old(saved)
    {
      entry := text;
    }

    /** `on_move_changed(choice)`: store the choice, save, log. */
    method OnMoveChanged(choice: string)
      requires Valid()
      modifies this
      ensures Valid()
      ensures configData == old(configData)["preferred_move" := JStr(choice)]
      ensures saved == old(saved) + [configData]
      ensures logQueue == old(logQueue) + [MoveChanged(choice)]
      ensures targetPokemons == old(targetPokemons) && entry == old(entry) && displayed == old(displayed)
    {
      configData := configData["preferred_move" := JStr(choice)];
      saved := saved + [configData];
      logQueue := logQueue + [MoveChanged(choice)];
    }

    /**
     The common tail of both buttons: redraw the list display, clear the entry,
     store the list in the configuration and save it.
     */
    method Store()
      requires Defaults.Keys <= configData.Keys
      modifies this
      ensures Valid()
      ensures entry == [] && displayed == Lines(targetPokemons)
      ensures configData == old(configData)["target_pokemons" := AsJson(targetPokemons)]
      ensures saved == old(saved) + [configData]
      ensures targetPokemons == old(targetPokemons) && logQueue == old(logQueue)
    {
      displayed := Lines(targetPokemons);
      entry := [];
      configData := configData["target_pokemons" := AsJson(targetPokemons)];
      saved := saved + [configData];
    }

    /**
     `add_pokemon`: a non-blank entry is appended, stripped, to the target list,
     logged, shown, cleared, stored and saved; a blank one changes nothing.
     */
    method AddPokemon()
      requires Valid()
      modifies this
      ensures Valid()
      ensures var name := Text.Strip(old(entry));
        if name == [] then
          && configData == old(configData) && targetPokemons == old(targetPokemons) && entry == old(entry)
          && displayed == old(displayed) && logQueue == old(logQueue) && saved == old(saved)
        else
          && targetPokemons == old(targetPokemons) + [name]
          && logQueue == old(logQueue) + [AddedTarget(name)]
          && entry == []
          && configData == old(configData)["target_pokemons" := AsJson(targetPokemons)]
          && saved == old(saved) + [configData]
    {
      var newPoke := Text.Strip(entry);
      if newPoke != [] {
        targetPokemons := targetPokemons + [newPoke];
        logQueue := logQueue + [AddedTarget(newPoke)];
        Store();
      }
    }

    /**
     `remove_pokemon`: a non-blank entry that is listed loses its first
     occurrence; one that is not listed leaves the list as it was and logs that.
     Either way the entry is cleared and the configuration stored and saved; a
     blank entry changes nothing.
     */
    method RemovePokemon()
      requires Valid()
      modifies this
      ensures Valid()
      ensures var name := Text.Strip(old(entry));
        if name == [] then
          && configData == old(configData) && targetPokemons == old(targetPokemons) && entry == old(entry)
          && displayed == old(displayed) && logQueue == old(logQueue) && saved == old(saved)
        else
          && (name in old(targetPokemons) ==>
                targetPokemons == RemoveFirst(old(targetPokemons), name)
                && logQueue == old(logQueue) + [RemovedTarget(name)])
          && (name !in old(targetPokemons) ==>
                targetPokemons == old(targetPokemons) && logQueue == old(logQueue) + [NotInList(name)])
          && entry == []
          && configData == old(configData)["target_pokemons" := AsJson(targetPokemons)]
          && saved == old(saved) + [configData]
    {
      var pokeToRemove := Text.Strip(entry);
      if pokeToRemove != [] {
        if pokeToRemove in targetPokemons {
          targetPokemons := RemoveFirst(targetPokemons, pokeToRemove);
          logQueue := logQueue + [RemovedTarget(pokeToRemove)];
        } else {
          logQueue := logQueue + [NotInList(pokeToRemove)];
        }
        Store();
      }
    }
  }
}
