/** The log suppression system: per-category verbosity levels changed by
    text commands such as `log LogFoo verbose, log global none`. A level
    is held in the low four bits of a byte (VerbosityMask); the top bit
    (BreakOnLog) asks the debugger to break on a message of that category.
    The command text is taken already split into sub-commands and their
    whitespace-separated parts. */
module LogSuppression {
  import opened Wrappers
  import opened Strings

  const NoLogging: bv8 := 0
  const Fatal: bv8 := 1
  const Error: bv8 := 2
  const Warning: bv8 := 3
  const Display: bv8 := 4
  const Log: bv8 := 5
  const Verbose: bv8 := 6
  const VeryVerbose: bv8 := 7
  const All: bv8 := 7
  const VerbosityMask: bv8 := 0x0f
  const BreakOnLog: bv8 := 0x80

  /** The level bits of a value, as a category stores them. */
  type LevelBits = v: bv8 | v <= 0x0f

  /** A name as the engine compares names: without regard to ASCII case.
      A name is kept in its lower-case form, so two texts name the same
      thing exactly when their lower-case forms are equal strings. */
  type Name = s: string | IsLowerCase(s)

  predicate IsLowerCase(s: string) {
    forall i :: 0 <= i < |s| ==> !('A' <= s[i] <= 'Z')
  }

  /** The name a text stands for. */
  function NameOf(text: string): (n: Name)
    ensures |n| == |text|
    ensures IsLowerCase(text) ==> n == text
  {
    ToLower(text)
  }

  /** The names the processor treats specially ("Global", "BootGlobal"
      and "Reset"). */
  const GlobalName: Name := "global"
  const BootGlobalName: Name := "bootglobal"
  const ResetName: Name := "reset"

  /** What a verbosity token asks for. */
  datatype Token = Level(level: bv8) | DefaultLevel | On | Break | Unrecognised

  /** Tokens are names, which compare without regard to case. */
  function Classify(token: string): (t: Token)
    ensures t.Level? ==> 1 <= t.level <= 7
  {
    var name := ToLower(token);
    if name == "none" || name == "fatal" || name == "off" then Level(Fatal)
    else if name == "error" then Level(Error)
    else if name == "warning" then Level(Warning)
    else if name == "log" then Level(Log)
    else if name == "display" then Level(Display)
    else if name == "verbose" then Level(Verbose)
    else if name == "veryverbose" || name == "all" then Level(VeryVerbose)
    else if name == "default" then DefaultLevel
    else if name == "on" then On
    else if name == "break" then Break
    else Unrecognised
  }

  /** The level `On` restores: the stored toggle value when there is a
      nonzero one, else All. */
  function OnLevel(toggle: Option<bv8>): bv8 {
    if toggle.Some? && toggle.value != 0 then toggle.value else All
  }

  /** The value after one token. `defaultVerbosity` is the first matching
      category's default when there is one and the command is not from
      boot; `toggle` is the category's stored toggle value. */
  function ApplyToken(value: bv8, token: string, defaultVerbosity: Option<bv8>, toggle: Option<bv8>): bv8 {
    match Classify(token)
    case Level(level) => (value & !VerbosityMask) | level
    case DefaultLevel => if defaultVerbosity.Some? then defaultVerbosity.value else value
    case On => (value & !VerbosityMask) | OnLevel(toggle)
    case Break => value ^ BreakOnLog
    case Unrecognised => value
  }

  /** The value after every token in turn. */
  function ApplyTokens(value: bv8, tokens: seq<string>, defaultVerbosity: Option<bv8>, toggle: Option<bv8>): bv8 {
    if tokens == [] then value
    else ApplyToken(ApplyTokens(value, tokens[..|tokens| - 1], defaultVerbosity, toggle), tokens[|tokens| - 1], defaultVerbosity, toggle)
  }

  /** A level token replaces the level bits and keeps the others. */
  lemma LevelTokenSetsLevel(value: bv8, token: string, defaultVerbosity: Option<bv8>, toggle: Option<bv8>)
    requires Classify(token).Level?
    ensures ApplyToken(value, token, defaultVerbosity, toggle) & VerbosityMask == Classify(token).level
    ensures ApplyToken(value, token, defaultVerbosity, toggle) & !VerbosityMask == value & !VerbosityMask
  {
  }

  /** "off" and "none", in any case, set the level to Fatal. */
  lemma OffAndNoneAreFatal(value: bv8, defaultVerbosity: Option<bv8>, toggle: Option<bv8>)
    ensures ApplyToken(value, "off", defaultVerbosity, toggle) & VerbosityMask == Fatal
    ensures ApplyToken(value, "None", defaultVerbosity, toggle) & VerbosityMask == Fatal
    ensures ApplyToken(value, "OFF", defaultVerbosity, toggle) & VerbosityMask == Fatal
  {
    assert ToLower("off") == "off";
    assert ToLower("None") == "none";
    assert ToLower("OFF") == "off";
  }

  /** "Break" flips the BreakOnLog bit and nothing else, so a second one
      undoes the first. */
  lemma BreakFlipsOnlyBreakBit(value: bv8, defaultVerbosity: Option<bv8>, toggle: Option<bv8>)
    ensures ApplyToken(value, "Break", defaultVerbosity, toggle) ^ value == BreakOnLog
    ensures ApplyToken(ApplyToken(value, "Break", defaultVerbosity, toggle), "Break", defaultVerbosity, toggle) == value
  {
    assert ToLower("Break") == "break";
    assert Classify("Break") == Break;
    assert ApplyToken(value, "Break", defaultVerbosity, toggle) == value ^ BreakOnLog;
  }

  /** A command naming only a category toggles it: a category that logs is
      switched off, and one that is off is switched to its stored toggle
      value, or All. */
  function ToggleCategory(value: bv8, toggle: Option<bv8>): (r: bv8)
    ensures value & VerbosityMask != 0 ==> r & VerbosityMask == 0
    ensures value & VerbosityMask == 0 ==> r & VerbosityMask == OnLevel(toggle) & VerbosityMask
    ensures OnLevel(toggle) & BreakOnLog == 0 ==> r & BreakOnLog == value & BreakOnLog
  {
    if value & VerbosityMask != 0 then value & !VerbosityMask
    else value | OnLevel(toggle)
  }

  /** Toggling a category off and back on with its level stored restores
      it. */
  lemma ToggleTwiceRestores(value: bv8)
    requires value & VerbosityMask != 0 && value & !VerbosityMask & !BreakOnLog == 0
    ensures ToggleCategory(ToggleCategory(value, None), Some(value & VerbosityMask)) == value
  {
  }

  /** The smaller and the larger of two levels. */
  function MinLevel(a: bv8, b: bv8): (r: bv8)
    ensures r <= a && r <= b && (r == a || r == b)
  {
    if a <= b then a else b
  }

  function MaxLevel(a: bv8, b: bv8): (r: bv8)
    ensures r >= a && r >= b && (r == a || r == b)
  {
    if a >= b then a else b
  }

  /** A log category as the suppression system holds it: the address that
      identifies the category object, its name, the most it was compiled
      to allow, its current level, whether to break on its messages and
      the value it resets to. */
  datatype LogCategory = LogCategory(
    id: nat,
    name: Name,
    compileTimeVerbosity: bv8,
    verbosity: LevelBits,
    debugBreakOnLog: bool,
    defaultVerbosity: bv8)
  {
    /** The level never exceeds what the category was compiled with. */
    predicate Regular() {
      verbosity <= compileTimeVerbosity
    }

    /** Only the level and the break flag change. */
    predicate SameCategory(other: LogCategory) {
      id == other.id && name == other.name && compileTimeVerbosity == other.compileTimeVerbosity &&
      defaultVerbosity == other.defaultVerbosity
    }

    /** Takes the level bits, capped at the compile-time level, and the
        break bit from `newVerbosity`. */
    function SetVerbosity(newVerbosity: bv8): (r: LogCategory)
      ensures r.Regular() && r.SameCategory(this)
      ensures r.verbosity <= newVerbosity & VerbosityMask
      ensures r.verbosity == newVerbosity & VerbosityMask || r.verbosity == compileTimeVerbosity
      ensures r.debugBreakOnLog <==> newVerbosity & BreakOnLog != 0
    {
      this.(verbosity := MinLevel(compileTimeVerbosity, newVerbosity & VerbosityMask),
            debugBreakOnLog := newVerbosity & BreakOnLog != 0)
    }

    /** The level and break flag are those the default value gives. */
    predicate AtDefault() {
      verbosity == MinLevel(compileTimeVerbosity, defaultVerbosity & VerbosityMask) &&
      debugBreakOnLog == (defaultVerbosity & BreakOnLog != 0)
    }

    function ResetFromDefault(): (r: LogCategory)
      ensures r.AtDefault() && r.Regular() && r.SameCategory(this)
    {
      SetVerbosity(defaultVerbosity)
    }

    /** The level and break bit as one byte. */
    function Value(): (r: bv8)
      ensures r & VerbosityMask == verbosity
      ensures r & BreakOnLog != 0 <==> debugBreakOnLog
    {
      verbosity | (if debugBreakOnLog then BreakOnLog else 0)
    }

    /** ApplyGlobalChanges' step for one category: the level follows the
        global level, and the break flag takes the global one when
        forced. */
    function FollowGlobal(global: LevelBits, goingUp: bool, goingDown: bool, forceBreak: bool, globalBreak: bool): (r: LogCategory)
      ensures Regular() ==> r.Regular()
      ensures r.SameCategory(this)
      ensures r.verbosity == GlobalAdjusted(verbosity, global, compileTimeVerbosity, goingUp, goingDown)
      ensures r.debugBreakOnLog == if forceBreak then globalBreak else debugBreakOnLog
    {
      this.(verbosity := GlobalAdjusted(verbosity, global, compileTimeVerbosity, goingUp, goingDown),
            debugBreakOnLog := if forceBreak then globalBreak else debugBreakOnLog)
    }
  }

  /** Setting a regular category to its own value changes nothing. */
  lemma ValueThenSetVerbosity(c: LogCategory)
    requires c.Regular()
    ensures c.SetVerbosity(c.Value()) == c
  {
  }

  /** A value whose level fits the compile-time level and which carries no
      bits besides the level and break bits is read back unchanged. */
  lemma SetVerbosityThenValue(c: LogCategory, v: bv8)
    requires v & VerbosityMask <= c.compileTimeVerbosity
    requires v & !VerbosityMask & !BreakOnLog == 0
    ensures c.SetVerbosity(v).Value() == v
  {
  }

  /** Resetting twice is resetting once. */
  lemma ResetIsIdempotent(c: LogCategory)
    ensures c.ResetFromDefault().ResetFromDefault() == c.ResetFromDefault()
  {
  }

  /** The boot-time value of a name: its own, else BootGlobal's. */
  function BootOverride(boot: map<Name, bv8>, name: Name): (r: Option<bv8>)
    ensures name in boot ==> r == Some(boot[name])
    ensures name !in boot && BootGlobalName in boot ==> r == Some(boot[BootGlobalName])
    ensures name !in boot && BootGlobalName !in boot ==> r == None
  {
    if name in boot then Some(boot[name])
    else if BootGlobalName in boot then Some(boot[BootGlobalName])
    else None
  }

  function Lookup(m: map<Name, bv8>, key: Name): (r: Option<bv8>)
    ensures r.Some? <==> key in m
    ensures r.Some? ==> r.value == m[key]
  {
    if key in m then Some(m[key]) else None
  }

  /** The index of the last category called `name`, or -1. */
  function LastIndexNamed(cats: seq<LogCategory>, name: Name): (r: int)
    ensures -1 <= r < |cats|
    ensures r >= 0 ==> cats[r].name == name
    ensures forall j :: r < j < |cats| ==> cats[j].name != name
  {
    if cats == [] then -1
    else if cats[|cats| - 1].name == name then |cats| - 1
    else LastIndexNamed(cats[..|cats| - 1], name)
  }

  /** The index of the first category called `name`, or -1. */
  function FirstIndexNamed(cats: seq<LogCategory>, name: Name): (r: int)
    ensures -1 <= r < |cats|
    ensures r >= 0 ==> cats[r].name == name
    ensures forall j :: 0 <= j < |cats| && (r < 0 || j < r) ==> cats[j].name != name
  {
    if cats == [] then -1
    else if cats[0].name == name then 0
    else
      var rest := FirstIndexNamed(cats[1..], name);
      if rest < 0 then -1 else rest + 1
  }

  /** The value the command processor reads for a name: that of the last
      category of that name visited, or 0 when there is none. */
  function NamedValue(cats: seq<LogCategory>, name: Name): bv8 {
    var last := LastIndexNamed(cats, name);
    if last >= 0 then cats[last].Value() else 0
  }

  /** The position of the category with address `id`, or -1. */
  function IndexOfId(cats: seq<LogCategory>, id: nat): (r: int)
    ensures -1 <= r < |cats|
    ensures r >= 0 ==> cats[r].id == id
    ensures r < 0 ==> forall k :: 0 <= k < |cats| ==> cats[k].id != id
  {
    if cats == [] then -1
    else if cats[|cats| - 1].id == id then |cats| - 1
    else IndexOfId(cats[..|cats| - 1], id)
  }

  /** With distinct addresses, a category's position is found from its
      address. */
  lemma {:induction false} IndexOfIdAt(cats: seq<LogCategory>, i: nat)
    requires DistinctIds(cats) && i < |cats|
    ensures IndexOfId(cats, cats[i].id) == i
  {
    if i < |cats| - 1 {
      IndexOfIdAt(cats[..|cats| - 1], i);
    }
  }

  /** No address is registered twice. */
  predicate DistinctIds(cats: seq<LogCategory>) {
    forall i, j :: 0 <= i < j < |cats| ==> cats[i].id != cats[j].id
  }

  /** The levels of the categories, in order. */
  function Levels(cats: seq<LogCategory>): (r: seq<LevelBits>)
    ensures |r| == |cats|
    ensures forall k :: 0 <= k < |cats| ==> r[k] == cats[k].verbosity
  {
    if cats == [] then [] else Levels(cats[..|cats| - 1]) + [cats[|cats| - 1].verbosity]
  }

  /** The toggle map after the first |levels| categories in turn store
      their nonzero levels, each under its own name or, when `key` is
      given, all under that one. */
  function RecordLevels(toggles: map<Name, bv8>, cats: seq<LogCategory>, levels: seq<LevelBits>, key: Option<Name>): map<Name, bv8>
    requires |levels| <= |cats|
  {
    if levels == [] then toggles
    else
      var n := |levels| - 1;
      var before := RecordLevels(toggles, cats, levels[..n], key);
      if levels[n] != 0 then before[(if key.Some? then key.value else cats[n].name) := levels[n]] else before
  }

  /** Recording one more category is one more map update. */
  lemma RecordLevelsStep(toggles: map<Name, bv8>, cats: seq<LogCategory>, levels: seq<LevelBits>, level: LevelBits, key: Option<Name>)
    requires |levels| < |cats|
    ensures RecordLevels(toggles, cats, levels + [level], key) ==
      var before := RecordLevels(toggles, cats, levels, key);
      if level != 0 then before[(if key.Some? then key.value else cats[|levels|].name) := level] else before
  {
    assert (levels + [level])[..|levels|] == levels;
  }

  /** Only the names of the categories matter to RecordLevels. */
  lemma {:induction false} RecordLevelsSameNames(toggles: map<Name, bv8>, cats: seq<LogCategory>, cats': seq<LogCategory>, levels: seq<LevelBits>, key: Option<Name>)
    requires |levels| <= |cats| == |cats'|
    requires forall k :: 0 <= k < |cats| ==> cats[k].name == cats'[k].name
    ensures RecordLevels(toggles, cats, levels, key) == RecordLevels(toggles, cats', levels, key)
  {
    if levels != [] {
      RecordLevelsSameNames(toggles, cats, cats', levels[..|levels| - 1], key);
    }
  }

  /** Stored under their own names, the nonzero levels of categories with
      distinct names can each be found under that name. */
  lemma {:induction false} RecordLevelsUnderOwnNames(toggles: map<Name, bv8>, cats: seq<LogCategory>, levels: seq<LevelBits>, k: nat)
    requires |levels| <= |cats| && k < |levels| && levels[k] != 0
    requires forall i, j :: 0 <= i < j < |levels| ==> cats[i].name != cats[j].name
    ensures cats[k].name in RecordLevels(toggles, cats, levels, None)
    ensures RecordLevels(toggles, cats, levels, None)[cats[k].name] == levels[k]
  {
    var n := |levels| - 1;
    if k < n {
      RecordLevelsUnderOwnNames(toggles, cats, levels[..n], k);
    }
  }

  /** Stored under one key, the levels change no other key's value. */
  lemma {:induction false} RecordLevelsUnderOneKey(toggles: map<Name, bv8>, cats: seq<LogCategory>, levels: seq<LevelBits>, key: Name)
    requires |levels| <= |cats|
    ensures RecordLevels(toggles, cats, levels, Some(key)).Keys <= toggles.Keys + {key}
    ensures forall other :: other != key && other in toggles ==>
      other in RecordLevels(toggles, cats, levels, Some(key)) && RecordLevels(toggles, cats, levels, Some(key))[other] == toggles[other]
  {
    if levels != [] {
      RecordLevelsUnderOneKey(toggles, cats, levels[..|levels| - 1], key);
    }
  }

  /** The level ApplyGlobalChanges gives a category: lowering the global
      level caps it at the global level, raising it lifts it to the global
      level within what the category was compiled with. */
  function GlobalAdjusted(own: LevelBits, global: LevelBits, compileTime: bv8, goingUp: bool, goingDown: bool): (r: LevelBits)
    ensures own <= compileTime ==> r <= compileTime
  {
    var lowered := if goingDown then MinLevel(global, own) else own;
    if goingUp then MinLevel(compileTime, MaxLevel(global, lowered)) else lowered
  }

  /** The global category itself keeps its level. */
  lemma GlobalAdjustedFixesGlobal(global: LevelBits, compileTime: bv8, goingUp: bool, goingDown: bool)
    requires global <= compileTime
    ensures GlobalAdjusted(global, global, compileTime, goingUp, goingDown) == global
  {
  }

  /** Lowering the global level leaves no category above it. */
  lemma LoweringCapsEveryCategory(own: LevelBits, global: LevelBits, compileTime: bv8)
    ensures GlobalAdjusted(own, global, compileTime, false, true) == MinLevel(global, own)
    ensures GlobalAdjusted(own, global, compileTime, false, true) <= global
  {
  }

  /** Raising the global level lifts every category to it, within its
      compile-time level. */
  lemma RaisingLiftsEveryCategory(own: LevelBits, global: LevelBits, compileTime: bv8)
    requires own <= compileTime
    ensures GlobalAdjusted(own, global, compileTime, true, false) >= own
    ensures global <= compileTime ==> GlobalAdjusted(own, global, compileTime, true, false) >= global
  {
  }

  /** The categories without the one at address `id`. */
  function WithoutId(cats: seq<LogCategory>, id: nat): seq<LogCategory> {
    if cats == [] then []
    else WithoutId(cats[..|cats| - 1], id) + (if cats[|cats| - 1].id == id then [] else [cats[|cats| - 1]])
  }

  /** Exactly the categories at other addresses are kept. */
  lemma {:induction false} WithoutIdMembers(cats: seq<LogCategory>, id: nat)
    ensures forall c :: c in WithoutId(cats, id) <==> c in cats && c.id != id
  {
    if cats != [] {
      var init, last := cats[..|cats| - 1], cats[|cats| - 1];
      WithoutIdMembers(init, id);
      assert cats == init + [last];
      assert WithoutId(cats, id) == WithoutId(init, id) + (if last.id == id then [] else [last]);
    }
  }

  /** Removing a category keeps the addresses distinct. */
  lemma {:induction false} WithoutIdKeepsDistinct(cats: seq<LogCategory>, id: nat)
    requires DistinctIds(cats)
    ensures DistinctIds(WithoutId(cats, id))
  {
    if cats != [] {
      var init := cats[..|cats| - 1];
      var last := cats[|cats| - 1];
      WithoutIdKeepsDistinct(init, id);
      WithoutIdMembers(init, id);
      var r := WithoutId(init, id);
      assert forall c :: c in init ==> c.id != last.id;
      assert forall i :: 0 <= i < |r| ==> r[i] in init;
      assert WithoutId(cats, id) == r + (if last.id == id then [] else [last]);
    }
  }

  /** Removing an address that is not registered changes nothing. */
  lemma {:induction false} WithoutAbsentId(cats: seq<LogCategory>, id: nat)
    requires IndexOfId(cats, id) < 0
    ensures WithoutId(cats, id) == cats
  {
    if cats != [] {
      var init := cats[..|cats| - 1];
      assert IndexOfId(init, id) == IndexOfId(cats, id);
      WithoutAbsentId(init, id);
    }
  }

  /** Removing a category other than the global proxy keeps the
      categories well formed, and the address is no longer registered. */
  lemma WithoutIdWellFormed(cats: seq<LogCategory>, globalId: nat, id: nat)
    requires WellFormed(cats, globalId) && id != globalId
    ensures WellFormed(WithoutId(cats, id), globalId)
    ensures IndexOfId(WithoutId(cats, id), id) < 0
  {
    var r := WithoutId(cats, id);
    WithoutIdKeepsDistinct(cats, id);
    WithoutIdMembers(cats, id);
    var g := cats[IndexOfId(cats, globalId)];
    assert g in r;
    var gi :| 0 <= gi < |r| && r[gi] == g;
    IndexOfIdAt(r, gi);
    forall k | 0 <= k < |r|
      ensures r[k].Regular()
    {
      assert r[k] in cats;
    }
  }

  /** The category a sub-command addresses: "Global" at boot is the boot
      global. */
  function CommandCategory(parts: seq<string>, fromBoot: bool): Name
    requires |parts| >= 1
  {
    var name := NameOf(parts[0]);
    if name == GlobalName && fromBoot then BootGlobalName else name
  }

  /** A sub-command whose first word is already a name addresses that
      name. */
  lemma CategoryOfName(parts: seq<string>, fromBoot: bool)
    requires |parts| >= 1 && IsLowerCase(parts[0])
    ensures CommandCategory(parts, fromBoot) == if parts[0] == GlobalName && fromBoot then BootGlobalName else parts[0]
  {
  }

  /** The value a sub-command starts from: at boot the value stored for the
      category or the boot global, else the value of the categories of
      that name. */
  function StartValue(cats: seq<LogCategory>, boot: map<Name, bv8>, category: Name, fromBoot: bool): bv8 {
    if fromBoot then (var b := BootOverride(boot, category); if b.Some? then b.value else 0)
    else NamedValue(cats, category)
  }

  /** The value a sub-command computes: a bare category toggles (except
      "Reset", and nothing at boot); otherwise the tokens apply in turn,
      "Default" taking the first category's default. */
  function CommandValue(cats: seq<LogCategory>, boot: map<Name, bv8>, toggles: map<Name, bv8>, parts: seq<string>, fromBoot: bool): bv8
    requires |parts| >= 1
  {
    var category := CommandCategory(parts, fromBoot);
    var start := StartValue(cats, boot, category, fromBoot);
    if |parts| == 1 then
      (if fromBoot || category == ResetName then start else ToggleCategory(start, Lookup(toggles, category)))
    else
      var first := FirstIndexNamed(cats, category);
      ApplyTokens(start, parts[1..], if first >= 0 && !fromBoot then Some(cats[first].defaultVerbosity) else None,
        Lookup(toggles, category))
  }

  /** Distinct addresses, every level within its compile-time level, and
      the global proxy category registered under its name. */
  predicate WellFormed(cats: seq<LogCategory>, globalId: nat) {
    DistinctIds(cats) &&
    (forall k :: 0 <= k < |cats| ==> cats[k].Regular()) &&
    IndexOfId(cats, globalId) >= 0 &&
    cats[IndexOfId(cats, globalId)].name == GlobalName
  }

  /** Changing only the levels and break flags, within the compile-time
      levels, keeps the categories well formed and the global where it
      was. */
  lemma SameCategoriesWellFormed(cats: seq<LogCategory>, cats': seq<LogCategory>, globalId: nat)
    requires WellFormed(cats, globalId) && |cats'| == |cats|
    requires forall k :: 0 <= k < |cats| ==> cats'[k].SameCategory(cats[k]) && cats'[k].Regular()
    ensures WellFormed(cats', globalId)
    ensures IndexOfId(cats', globalId) == IndexOfId(cats, globalId)
  {
    var gi := IndexOfId(cats, globalId);
    assert DistinctIds(cats');
    IndexOfIdAt(cats', gi);
  }

  /** Every category's level moved toward the global level, as
      ApplyGlobalChanges moves them. */
  function FollowGlobalCats(cats: seq<LogCategory>, global: LevelBits, goingUp: bool, goingDown: bool, forceBreak: bool, globalBreak: bool): seq<LogCategory> {
    seq(|cats|, k requires 0 <= k < |cats| => cats[k].FollowGlobal(global, goingUp, goingDown, forceBreak, globalBreak))
  }

  /** Every category reset to its default. */
  function ResetCats(cats: seq<LogCategory>): seq<LogCategory> {
    seq(|cats|, k requires 0 <= k < |cats| => cats[k].ResetFromDefault())
  }

  /** Every category called `name` set to `value`. */
  function SetNamedCats(cats: seq<LogCategory>, name: Name, value: bv8): seq<LogCategory> {
    seq(|cats|, k requires 0 <= k < |cats| => if cats[k].name == name then cats[k].SetVerbosity(value) else cats[k])
  }

  /** The toggle map after a command stores the level bits of `value`
      under `name` when they are nonzero. */
  function WithToggle(toggles: map<Name, bv8>, name: Name, value: bv8): (r: map<Name, bv8>)
    ensures value & VerbosityMask != 0 ==> name in r && r[name] == value & VerbosityMask
    ensures forall other :: other != name ==> (other in r <==> other in toggles)
    ensures forall other :: other != name && other in toggles ==> r[other] == toggles[other]
    ensures value & VerbosityMask == 0 ==> r == toggles
  {
    if value & VerbosityMask != 0 then toggles[name := value & VerbosityMask] else toggles
  }

  /** Everything the suppression system holds besides the category
      objects' identities: the registered categories, the boot-time
      values, the toggle values and what ApplyGlobalChanges last saw. */
  datatype SuppressionState = SuppressionState(
    cats: seq<LogCategory>,
    boot: map<Name, bv8>,
    toggles: map<Name, bv8>,
    lastGlobal: bv8,
    oldGlobalBreak: bool)

  /** The state ApplyGlobalChanges leaves: categories follow the global
      proxy's level, each nonzero level is stored for toggling, and the
      global level and break flag are remembered. */
  function GlobalChanges(s: SuppressionState, globalId: nat): (r: SuppressionState)
    requires WellFormed(s.cats, globalId)
    ensures WellFormed(r.cats, globalId)
    ensures r.cats[IndexOfId(r.cats, globalId)] == s.cats[IndexOfId(s.cats, globalId)]
    ensures |r.cats| == |s.cats| && forall k :: 0 <= k < |s.cats| ==> r.cats[k].SameCategory(s.cats[k])
    ensures r.boot == s.boot
  {
    var g := s.cats[IndexOfId(s.cats, globalId)];
    var goingUp := g.verbosity > s.lastGlobal;
    var goingDown := g.verbosity < s.lastGlobal;
    var cats := FollowGlobalCats(s.cats, g.verbosity, goingUp, goingDown, g.debugBreakOnLog != s.oldGlobalBreak, g.debugBreakOnLog);
    GlobalAdjustedFixesGlobal(g.verbosity, g.compileTimeVerbosity, goingUp, goingDown);
    SameCategoriesWellFormed(s.cats, cats, globalId);
    SuppressionState(cats, s.boot, RecordLevels(s.toggles, cats, Levels(cats), None), g.verbosity, g.debugBreakOnLog)
  }

  /** GlobalChanges spelled out for the categories and toggles its loop
      computes. */
  lemma GlobalChangesUnfold(s: SuppressionState, globalId: nat, cats: seq<LogCategory>, toggles: map<Name, bv8>)
    requires WellFormed(s.cats, globalId)
    requires var g := s.cats[IndexOfId(s.cats, globalId)];
      cats == FollowGlobalCats(s.cats, g.verbosity, g.verbosity > s.lastGlobal, g.verbosity < s.lastGlobal,
                               g.debugBreakOnLog != s.oldGlobalBreak, g.debugBreakOnLog)
    requires toggles == RecordLevels(s.toggles, cats, Levels(cats), None)
    ensures var g := s.cats[IndexOfId(s.cats, globalId)];
      GlobalChanges(s, globalId) == SuppressionState(cats, s.boot, toggles, g.verbosity, g.debugBreakOnLog)
    ensures WellFormed(cats, globalId)
  {
  }

  /** The state after a sub-command's value is stored for a category other
      than "Reset", before its toggle value is: at boot it becomes the
      category's boot value (the boot global first clears every other
      one); otherwise every category of that name is set to it, and all
      follow when it was "Global". */
  function Stored(s: SuppressionState, globalId: nat, category: Name, value: bv8, fromBoot: bool): (r: SuppressionState)
    requires WellFormed(s.cats, globalId)
    ensures WellFormed(r.cats, globalId)
    ensures |r.cats| == |s.cats| && forall k :: 0 <= k < |s.cats| ==> r.cats[k].SameCategory(s.cats[k])
    ensures fromBoot ==> r.cats == s.cats && r.toggles == s.toggles && r.lastGlobal == s.lastGlobal && r.oldGlobalBreak == s.oldGlobalBreak
    ensures fromBoot ==> category in r.boot && r.boot[category] == value
    ensures !fromBoot ==> r.boot == s.boot
  {
    if fromBoot then s.(boot := (if category == BootGlobalName then map[] else s.boot)[category := value])
    else
      var named := s.(cats := SetNamedCats(s.cats, category, value));
      SameCategoriesWellFormed(s.cats, named.cats, globalId);
      if category == GlobalName then GlobalChanges(named, globalId) else named
  }

  /** The stored value's nonzero level bits are then kept for toggling. */
  function Store(s: SuppressionState, globalId: nat, category: Name, value: bv8, fromBoot: bool): (r: SuppressionState)
    requires WellFormed(s.cats, globalId)
    ensures WellFormed(r.cats, globalId)
    ensures |r.cats| == |s.cats| && forall k :: 0 <= k < |s.cats| ==> r.cats[k].SameCategory(s.cats[k])
    ensures fromBoot ==> r.cats == s.cats
    ensures !fromBoot ==> r.boot == s.boot
  {
    var stored := Stored(s, globalId, category, value, fromBoot);
    stored.(toggles := WithToggle(stored.toggles, category, value))
  }

  /** The state after every category is reset to its default, with each
      nonzero level stored for toggling under its own name or, when `key`
      is given, all under that one. */
  function ResetState(s: SuppressionState, key: Option<Name>): (r: SuppressionState)
    ensures r.boot == s.boot && r.lastGlobal == s.lastGlobal && r.oldGlobalBreak == s.oldGlobalBreak
    ensures |r.cats| == |s.cats| && forall k :: 0 <= k < |s.cats| ==> r.cats[k].AtDefault() && r.cats[k].SameCategory(s.cats[k])
  {
    var cats := ResetCats(s.cats);
    s.(cats := cats, toggles := RecordLevels(s.toggles, cats, Levels(cats), key))
  }

  /** The state after one sub-command, given as its whitespace-separated
      parts. The one-word "Reset" resets every category and, as written,
      stores each nonzero level for toggling under the key "reset". */
  function SubCommand(s: SuppressionState, globalId: nat, parts: seq<string>, fromBoot: bool): (r: SuppressionState)
    requires WellFormed(s.cats, globalId)
    ensures WellFormed(r.cats, globalId)
    ensures |r.cats| == |s.cats| && forall k :: 0 <= k < |s.cats| ==> r.cats[k].SameCategory(s.cats[k])
    ensures fromBoot ==> r.cats == s.cats
    ensures !fromBoot ==> r.boot == s.boot
  {
    if parts == [] then s
    else
      var category := CommandCategory(parts, fromBoot);
      if category == ResetName then
        if |parts| == 1 && !fromBoot then
          SameCategoriesWellFormed(s.cats, ResetCats(s.cats), globalId);
          ResetState(s, Some(ResetName))
        else s
      else Store(s, globalId, category, CommandValue(s.cats, s.boot, s.toggles, parts, fromBoot), fromBoot)
  }

  /** The state after the sub-commands in turn. */
  function CmdString(s: SuppressionState, globalId: nat, subCommands: seq<seq<string>>, fromBoot: bool): (r: SuppressionState)
    requires WellFormed(s.cats, globalId)
    ensures WellFormed(r.cats, globalId)
    ensures fromBoot ==> r.cats == s.cats
    ensures !fromBoot ==> r.boot == s.boot
  {
    if subCommands == [] then s
    else SubCommand(CmdString(s, globalId, subCommands[..|subCommands| - 1], fromBoot), globalId, subCommands[|subCommands| - 1], fromBoot)
  }

  /** One more sub-command applies after the earlier ones. */
  lemma CmdStringSnoc(s: SuppressionState, globalId: nat, subCommands: seq<seq<string>>, i: nat, fromBoot: bool)
    requires WellFormed(s.cats, globalId) && i < |subCommands|
    ensures CmdString(s, globalId, subCommands[..i + 1], fromBoot) ==
      SubCommand(CmdString(s, globalId, subCommands[..i], fromBoot), globalId, subCommands[i], fromBoot)
  {
    assert subCommands[..i + 1][..i] == subCommands[..i];
  }

  /** "log Global <level>" at boot replaces every value set at boot so far
      with the boot global's. */
  lemma BootGlobalClearsBootValues(s: SuppressionState, globalId: nat, token: string)
    requires WellFormed(s.cats, globalId)
    ensures var r := SubCommand(s, globalId, [GlobalName, token], true);
      r.boot.Keys == {BootGlobalName} && r.cats == s.cats
  {
    CategoryOfName([GlobalName, token], true);
  }

  /** The value of "log <category> <level>" has those level bits. */
  lemma LevelCommandValue(s: SuppressionState, category: Name, token: string)
    requires Classify(token).Level?
    ensures CommandValue(s.cats, s.boot, s.toggles, [category, token], false) & VerbosityMask == Classify(token).level
  {
    var start := StartValue(s.cats, s.boot, category, false);
    var first := FirstIndexNamed(s.cats, category);
    var dflt := if first >= 0 then Some(s.cats[first].defaultVerbosity) else None;
    var parts := [category, token];
    assert parts[1..] == [token] && [token][..0] == [];
    CategoryOfName(parts, false);
    assert ApplyTokens(start, [token], dflt, Lookup(s.toggles, category)) == ApplyToken(start, token, dflt, Lookup(s.toggles, category));
    assert CommandValue(s.cats, s.boot, s.toggles, parts, false) ==
      ApplyTokens(start, parts[1..], dflt, Lookup(s.toggles, category));
    LevelTokenSetsLevel(start, token, dflt, Lookup(s.toggles, category));
  }

  /** "log <category> <level>" sets every category of that name to the
      level, within its compile-time level, leaves the others alone and
      stores the level for toggling. */
  lemma LevelCommandSetsNamedCategories(s: SuppressionState, globalId: nat, category: Name, token: string)
    requires WellFormed(s.cats, globalId)
    requires category != GlobalName && category != ResetName && Classify(token).Level?
    ensures var r := SubCommand(s, globalId, [category, token], false);
      |r.cats| == |s.cats| &&
      (forall k :: 0 <= k < |s.cats| && s.cats[k].name == category ==>
        r.cats[k].verbosity == MinLevel(s.cats[k].compileTimeVerbosity, Classify(token).level)) &&
      (forall k :: 0 <= k < |s.cats| && s.cats[k].name != category ==> r.cats[k] == s.cats[k]) &&
      category in r.toggles && r.toggles[category] == Classify(token).level
  {
    LevelCommandValue(s, category, token);
  }

  /** "log Global off" (or none, or fatal) when the global level was above
      Fatal lowers every category to Fatal or below. */
  lemma GlobalOffSilencesEveryCategory(s: SuppressionState, globalId: nat, token: string)
    requires WellFormed(s.cats, globalId)
    requires Classify(token) == Level(Fatal)
    requires s.lastGlobal > Fatal
    requires s.cats[IndexOfId(s.cats, globalId)].compileTimeVerbosity >= Fatal
    ensures var r := SubCommand(s, globalId, [GlobalName, token], false);
      forall k :: 0 <= k < |r.cats| ==> r.cats[k].verbosity <= Fatal
  {
    var value := CommandValue(s.cats, s.boot, s.toggles, [GlobalName, token], false);
    var named := s.(cats := SetNamedCats(s.cats, GlobalName, value));
    GlobalOffSetsProxy(s, globalId, token);
    GlobalLoweredToFatal(named, globalId);
    GlobalCommandCats(s, globalId, token);
  }

  /** "log Global off" sets the global proxy category itself to Fatal. */
  lemma GlobalOffSetsProxy(s: SuppressionState, globalId: nat, token: string)
    requires WellFormed(s.cats, globalId)
    requires Classify(token) == Level(Fatal)
    requires s.cats[IndexOfId(s.cats, globalId)].compileTimeVerbosity >= Fatal
    ensures var value := CommandValue(s.cats, s.boot, s.toggles, [GlobalName, token], false);
      var cats := SetNamedCats(s.cats, GlobalName, value);
      WellFormed(cats, globalId) && cats[IndexOfId(cats, globalId)].verbosity == Fatal
  {
    LevelCommandValue(s, GlobalName, token);
    var value := CommandValue(s.cats, s.boot, s.toggles, [GlobalName, token], false);
    SameCategoriesWellFormed(s.cats, SetNamedCats(s.cats, GlobalName, value), globalId);
  }

  /** A "Global" command sets the proxy category, then every category
      follows it. */
  lemma GlobalCommandCats(s: SuppressionState, globalId: nat, token: string)
    requires WellFormed(s.cats, globalId)
    ensures var value := CommandValue(s.cats, s.boot, s.toggles, [GlobalName, token], false);
      var named := s.(cats := SetNamedCats(s.cats, GlobalName, value));
      WellFormed(named.cats, globalId) &&
      SubCommand(s, globalId, [GlobalName, token], false).cats == GlobalChanges(named, globalId).cats
  {
    var value := CommandValue(s.cats, s.boot, s.toggles, [GlobalName, token], false);
    var named := s.(cats := SetNamedCats(s.cats, GlobalName, value));
    SameCategoriesWellFormed(s.cats, named.cats, globalId);
    CategoryOfName([GlobalName, token], false);
    assert SubCommand(s, globalId, [GlobalName, token], false) == Store(s, globalId, GlobalName, value, false);
  }

  /** Once the global proxy falls to Fatal from above, ApplyGlobalChanges
      leaves every category at Fatal or below. */
  lemma GlobalLoweredToFatal(s: SuppressionState, globalId: nat)
    requires WellFormed(s.cats, globalId)
    requires s.cats[IndexOfId(s.cats, globalId)].verbosity == Fatal && s.lastGlobal > Fatal
    ensures forall k :: 0 <= k < |s.cats| ==> GlobalChanges(s, globalId).cats[k].verbosity <= Fatal
  {
    forall k | 0 <= k < |s.cats|
      ensures GlobalChanges(s, globalId).cats[k].verbosity <= Fatal
    {
      LoweringCapsEveryCategory(s.cats[k].verbosity, Fatal, s.cats[k].compileTimeVerbosity);
    }
  }

  /** Only the names of the categories matter to LastIndexNamed. */
  lemma {:induction false} LastIndexNamedSameNames(cats: seq<LogCategory>, cats': seq<LogCategory>, name: Name)
    requires |cats| == |cats'|
    requires forall k :: 0 <= k < |cats| ==> cats[k].name == cats'[k].name
    ensures LastIndexNamed(cats, name) == LastIndexNamed(cats', name)
  {
    if cats != [] {
      LastIndexNamedSameNames(cats[..|cats| - 1], cats'[..|cats'| - 1], name);
    }
  }

  /** The break bit of a value, as a category's break flag gives it. */
  function BreakBit(breaks: bool): (r: bv8)
    ensures r & VerbosityMask == 0 && (r & BreakOnLog != 0 <==> breaks)
  {
    if breaks then BreakOnLog else 0
  }

  /** A one-word command for a category that logs switches every category
      of that name off, keeping the break bit of the last one, and stores
      nothing for toggling. */
  lemma ToggleOffStep(s: SuppressionState, globalId: nat, category: Name)
    requires WellFormed(s.cats, globalId)
    requires category != GlobalName && category != ResetName
    requires LastIndexNamed(s.cats, category) >= 0
    requires s.cats[LastIndexNamed(s.cats, category)].verbosity != 0
    ensures SubCommand(s, globalId, [category], false) ==
      s.(cats := SetNamedCats(s.cats, category, BreakBit(s.cats[LastIndexNamed(s.cats, category)].debugBreakOnLog)))
  {
    var c := s.cats[LastIndexNamed(s.cats, category)];
    CategoryOfName([category], false);
    var value := CommandValue(s.cats, s.boot, s.toggles, [category], false);
    assert value == c.Value() & !VerbosityMask;
    assert value == BreakBit(c.debugBreakOnLog);
  }

  /** The same command for a category that is off switches every category
      of that name back on at the level stored for toggling. */
  lemma ToggleOnStep(s: SuppressionState, globalId: nat, category: Name, level: LevelBits)
    requires WellFormed(s.cats, globalId)
    requires category != GlobalName && category != ResetName
    requires LastIndexNamed(s.cats, category) >= 0
    requires s.cats[LastIndexNamed(s.cats, category)].verbosity == 0
    requires category in s.toggles && s.toggles[category] == level && level != 0
    ensures SubCommand(s, globalId, [category], false) ==
      s.(cats := SetNamedCats(s.cats, category, level | BreakBit(s.cats[LastIndexNamed(s.cats, category)].debugBreakOnLog)))
  {
    ToggleOnValue(s, category, level);
    assert s.toggles[category := level] == s.toggles;
  }

  /** The value a bare category name computes for a category that is off:
      its stored level, with its break bit. */
  lemma ToggleOnValue(s: SuppressionState, category: Name, level: LevelBits)
    requires category != GlobalName && category != ResetName
    requires LastIndexNamed(s.cats, category) >= 0
    requires s.cats[LastIndexNamed(s.cats, category)].verbosity == 0
    requires category in s.toggles && s.toggles[category] == level && level != 0
    ensures var c := s.cats[LastIndexNamed(s.cats, category)];
      var value := CommandValue(s.cats, s.boot, s.toggles, [category], false);
      value == level | BreakBit(c.debugBreakOnLog) && value & VerbosityMask == level
  {
    var c := s.cats[LastIndexNamed(s.cats, category)];
    CategoryOfName([category], false);
    var value := CommandValue(s.cats, s.boot, s.toggles, [category], false);
    assert value == c.Value() | level;
    assert value == level | BreakBit(c.debugBreakOnLog);
  }

  /** Toggling a category off and on again with its level stored for
      toggling restores every category of that name as it was. */
  lemma ToggleOffAndOnRestores(s: SuppressionState, globalId: nat, category: Name)
    requires WellFormed(s.cats, globalId)
    requires category != GlobalName && category != ResetName
    requires LastIndexNamed(s.cats, category) >= 0
    requires var c := s.cats[LastIndexNamed(s.cats, category)];
      c.verbosity != 0 && category in s.toggles && s.toggles[category] == c.verbosity &&
      forall k :: 0 <= k < |s.cats| && s.cats[k].name == category ==>
        s.cats[k].verbosity == c.verbosity && s.cats[k].debugBreakOnLog == c.debugBreakOnLog
    ensures SubCommand(SubCommand(s, globalId, [category], false), globalId, [category], false) == s
  {
    var c := s.cats[LastIndexNamed(s.cats, category)];
    ToggleOffStep(s, globalId, category);
    var cats1 := SetNamedCats(s.cats, category, BreakBit(c.debugBreakOnLog));
    SwitchedOff(s.cats, globalId, category, c.debugBreakOnLog);
    ToggleOnStep(s.(cats := cats1), globalId, category, c.verbosity);
    SetOffThenOnRestores(s.cats, category, c.verbosity, c.debugBreakOnLog);
  }

  /** After the categories of one name are set to a bare break bit they
      are still well formed, found at the same place, and off. */
  lemma SwitchedOff(cats: seq<LogCategory>, globalId: nat, name: Name, breaks: bool)
    requires WellFormed(cats, globalId) && LastIndexNamed(cats, name) >= 0
    ensures var cats1 := SetNamedCats(cats, name, BreakBit(breaks));
      && WellFormed(cats1, globalId)
      && LastIndexNamed(cats1, name) == LastIndexNamed(cats, name)
      && cats1[LastIndexNamed(cats, name)].verbosity == 0
      && cats1[LastIndexNamed(cats, name)].debugBreakOnLog == breaks
  {
    var cats1 := SetNamedCats(cats, name, BreakBit(breaks));
    SameCategoriesWellFormed(cats, cats1, globalId);
    LastIndexNamedSameNames(cats, cats1, name);
  }

  /** Setting the categories of one name off, keeping the break bit, and
      then on at the level they had restores them. */
  lemma SetOffThenOnRestores(cats: seq<LogCategory>, name: Name, level: LevelBits, breaks: bool)
    requires level != 0
    requires forall k :: 0 <= k < |cats| && cats[k].name == name ==>
      cats[k].verbosity == level && cats[k].debugBreakOnLog == breaks && cats[k].Regular()
    ensures SetNamedCats(SetNamedCats(cats, name, BreakBit(breaks)), name, level | BreakBit(breaks)) == cats
  {
    assert (level | BreakBit(breaks)) & VerbosityMask == level;
    assert (level | BreakBit(breaks)) & BreakOnLog != 0 <==> breaks;
  }

  /** As written, the one-word "Reset" sends every category back to its
      default and stores each nonzero level under the key "reset" alone:
      no other name's toggle value changes. */
  lemma ResetStoresUnderResetKey(s: SuppressionState, globalId: nat)
    requires WellFormed(s.cats, globalId)
    ensures SubCommand(s, globalId, [ResetName], false) == ResetState(s, Some(ResetName))
    ensures var r := SubCommand(s, globalId, [ResetName], false);
      r.cats == ResetCats(s.cats) && r.boot == s.boot &&
      r.toggles.Keys <= s.toggles.Keys + {ResetName} &&
      forall other :: other != ResetName && other in s.toggles ==> other in r.toggles && r.toggles[other] == s.toggles[other]
  {
    var cats := ResetCats(s.cats);
    assert CommandCategory([ResetName], false) == ResetName;
    RecordLevelsUnderOneKey(s.toggles, cats, Levels(cats), ResetName);
  }

  /** With the levels stored under each category's own name instead (the
      evidently intended Reset), and distinct names, each category that
      logs is left at its default with that level stored for toggling
      under its own name. */
  lemma ResetStoresOwnLevels(s: SuppressionState, k: nat)
    requires k < |s.cats|
    requires forall i, j :: 0 <= i < j < |s.cats| ==> s.cats[i].name != s.cats[j].name
    requires ResetCats(s.cats)[k].verbosity != 0
    ensures var r := ResetState(s, None);
      r.cats[k] == s.cats[k].ResetFromDefault() &&
      s.cats[k].name in r.toggles && r.toggles[s.cats[k].name] == r.cats[k].verbosity
  {
    var cats := ResetCats(s.cats);
    RecordLevelsUnderOwnNames(s.toggles, cats, Levels(cats), k);
  }

  /** After that intended Reset, toggling a category whose name is unique
      off and on again gives back the reset state. */
  lemma ResetThenToggleRestores(s: SuppressionState, globalId: nat, k: nat)
    requires WellFormed(s.cats, globalId) && k < |s.cats|
    requires forall i, j :: 0 <= i < j < |s.cats| ==> s.cats[i].name != s.cats[j].name
    requires s.cats[k].name != GlobalName && s.cats[k].name != ResetName
    requires ResetCats(s.cats)[k].verbosity != 0
    ensures WellFormed(ResetState(s, None).cats, globalId)
    ensures var r := ResetState(s, None);
      SubCommand(SubCommand(r, globalId, [s.cats[k].name], false), globalId, [s.cats[k].name], false) == r
  {
    IntendedResetFindsOwnLevel(s, globalId, k);
    ToggleOffAndOnRestores(ResetState(s, None), globalId, s.cats[k].name);
  }

  /** After that intended Reset a category of unique name is the one its
      name finds, with its own level stored for toggling. */
  lemma IntendedResetFindsOwnLevel(s: SuppressionState, globalId: nat, k: nat)
    requires WellFormed(s.cats, globalId) && k < |s.cats|
    requires forall i, j :: 0 <= i < j < |s.cats| ==> s.cats[i].name != s.cats[j].name
    requires ResetCats(s.cats)[k].verbosity != 0
    ensures var r := ResetState(s, None);
      WellFormed(r.cats, globalId) && LastIndexNamed(r.cats, s.cats[k].name) == k &&
      r.cats[k].verbosity != 0 && s.cats[k].name in r.toggles && r.toggles[s.cats[k].name] == r.cats[k].verbosity &&
      forall j :: 0 <= j < |r.cats| && r.cats[j].name == s.cats[k].name ==> j == k
  {
    var r := ResetState(s, None);
    SameCategoriesWellFormed(s.cats, r.cats, globalId);
    ResetStoresOwnLevels(s, k);
    forall j | 0 <= j < |r.cats| ensures r.cats[j].name == s.cats[j].name {
      assert r.cats[j].SameCategory(s.cats[j]);
    }
    LastIndexNamedUnique(r.cats, s.cats[k].name, k);
  }

  /** The global proxy and "LogFoo", raised to VeryVerbose with default
      Log, with VeryVerbose stored for toggling. */
  function ResetExample(): (s: SuppressionState)
    ensures WellFormed(s.cats, 0) && |s.cats| == 2 && s.cats[1].name == "logfoo"
    ensures forall i, j :: 0 <= i < j < |s.cats| ==> s.cats[i].name != s.cats[j].name
  {
    var global := LogCategory(0, GlobalName, All, All, false, All);
    var foo := LogCategory(1, "logfoo", VeryVerbose, VeryVerbose, false, Log);
    SuppressionState([global, foo], map[], map[GlobalName := All, "logfoo" := VeryVerbose], All, false)
  }

  /** As written, "Reset" stores every level under the key "reset": a
      category raised to VeryVerbose and then reset to its default Log
      comes back at VeryVerbose when toggled off and on. */
  lemma ResetTogglesUnderResetKey()
    ensures var r := SubCommand(ResetExample(), 0, [ResetName], false);
      WellFormed(r.cats, 0) && r.cats[1].verbosity == Log &&
      SubCommand(SubCommand(r, 0, ["logfoo"], false), 0, ["logfoo"], false).cats[1].verbosity == VeryVerbose
  {
    var r := SubCommand(ResetExample(), 0, [ResetName], false);
    ExampleAfterReset();
    ToggleOffStep(r, 0, "logfoo");
    SwitchedOff(r.cats, 0, "logfoo", false);
    var off := r.(cats := SetNamedCats(r.cats, "logfoo", BreakBit(false)));
    ToggleOnStep(off, 0, "logfoo", VeryVerbose);
    assert SetNamedCats(off.cats, "logfoo", VeryVerbose | BreakBit(false))[1].verbosity == VeryVerbose;
  }

  /** What the as-written Reset leaves in the example. */
  lemma ExampleAfterReset()
    ensures var r := SubCommand(ResetExample(), 0, [ResetName], false);
      WellFormed(r.cats, 0) && |r.cats| == 2 && r.cats[1].verbosity == Log && !r.cats[1].debugBreakOnLog &&
      LastIndexNamed(r.cats, "logfoo") == 1 && "logfoo" in r.toggles && r.toggles["logfoo"] == VeryVerbose
  {
    var s := ResetExample();
    ResetStoresUnderResetKey(s, 0);
    var r := ResetState(s, Some(ResetName));
    SameCategoriesWellFormed(s.cats, r.cats, 0);
    LastIndexNamedUnique(r.cats, "logfoo", 1);
  }

  /** Storing under each category's own name instead brings the same
      category back at Log. */
  lemma IntendedResetTogglesBack()
    ensures var r := ResetState(ResetExample(), None);
      WellFormed(r.cats, 0) && r.cats[1].verbosity == Log &&
      SubCommand(SubCommand(r, 0, ["logfoo"], false), 0, ["logfoo"], false).cats[1].verbosity == Log
  {
    var s := ResetExample();
    assert s.cats[1].name != GlobalName && s.cats[1].name != ResetName;
    ResetThenToggleRestores(s, 0, 1);
  }

  /** Verbosity tokens are names too: tokens with the same lower-case
      form change a value alike. */
  lemma {:induction false} ApplyTokensIgnoreCase(value: bv8, tokens: seq<string>, tokens': seq<string>, defaultVerbosity: Option<bv8>, toggle: Option<bv8>)
    requires |tokens| == |tokens'| && forall i :: 0 <= i < |tokens| ==> ToLower(tokens[i]) == ToLower(tokens'[i])
    ensures ApplyTokens(value, tokens, defaultVerbosity, toggle) == ApplyTokens(value, tokens', defaultVerbosity, toggle)
  {
    if tokens != [] {
      var n := |tokens| - 1;
      ApplyTokensIgnoreCase(value, tokens[..n], tokens'[..n], defaultVerbosity, toggle);
      var v := ApplyTokens(value, tokens[..n], defaultVerbosity, toggle);
      SameClassSameEffect(v, tokens[n], tokens'[n], defaultVerbosity, toggle);
    }
  }

  lemma SameClassSameEffect(value: bv8, token: string, token': string, defaultVerbosity: Option<bv8>, toggle: Option<bv8>)
    requires ToLower(token) == ToLower(token')
    ensures ApplyToken(value, token, defaultVerbosity, toggle) == ApplyToken(value, token', defaultVerbosity, toggle)
  {
    assert Classify(token) == Classify(token');
  }

  /** The value a sub-command computes does not depend on the case of its
      words. */
  lemma CommandValueIgnoresCase(cats: seq<LogCategory>, boot: map<Name, bv8>, toggles: map<Name, bv8>, parts: seq<string>, parts': seq<string>, fromBoot: bool)
    requires |parts| == |parts'| >= 1 && forall i :: 0 <= i < |parts| ==> ToLower(parts[i]) == ToLower(parts'[i])
    ensures CommandCategory(parts, fromBoot) == CommandCategory(parts', fromBoot)
    ensures CommandValue(cats, boot, toggles, parts, fromBoot) == CommandValue(cats, boot, toggles, parts', fromBoot)
  {
    var category := CommandCategory(parts, fromBoot);
    assert NameOf(parts[0]) == NameOf(parts'[0]);
    var first := FirstIndexNamed(cats, category);
    ApplyTokensIgnoreCase(StartValue(cats, boot, category, fromBoot), parts[1..], parts'[1..],
      if first >= 0 && !fromBoot then Some(cats[first].defaultVerbosity) else None,
      Lookup(toggles, category));
  }

  /** A sub-command does not depend on the case of its words: "LOG
      logfoo VERBOSE" does what "Log LogFoo Verbose" does. */
  lemma CommandsIgnoreCase(s: SuppressionState, globalId: nat, parts: seq<string>, parts': seq<string>, fromBoot: bool)
    requires WellFormed(s.cats, globalId)
    requires |parts| == |parts'| && forall i :: 0 <= i < |parts| ==> ToLower(parts[i]) == ToLower(parts'[i])
    ensures SubCommand(s, globalId, parts, fromBoot) == SubCommand(s, globalId, parts', fromBoot)
  {
    if parts != [] {
      CommandValueIgnoresCase(s.cats, s.boot, s.toggles, parts, parts', fromBoot);
    }
  }

  class LogSuppressionSystem {
    /** The registered categories, in the order the system visits them. */
    var Associations: seq<LogCategory>
    /** Values set at boot time, by category name. */
    var BootAssociations: map<Name, bv8>
    /** The last nonzero level of each name, for toggling. */
    var ToggleAssociations: map<Name, bv8>
    /** The global level ApplyGlobalChanges last saw. */
    var LastGlobalVerbosity: bv8
    /** The global break flag ApplyGlobalChanges last saw. */
    var OldGlobalBreakValue: bool
    /** The address of the proxy category whose level changes every
        category. */
    const GlobalId: nat

    predicate Valid()
      reads this
    {
      WellFormed(Associations, GlobalId)
    }

    function State(): SuppressionState
      reads this
    {
      SuppressionState(Associations, BootAssociations, ToggleAssociations, LastGlobalVerbosity, OldGlobalBreakValue)
    }

    /** The proxy category called "Global". */
    function GlobalVerbosity(): (g: LogCategory)
      reads this
      requires Valid()
      ensures g in Associations && g.id == GlobalId && g.name == GlobalName && g.Regular()
    {
      Associations[IndexOfId(Associations, GlobalId)]
    }

    /** The system starts with the proxy global category registered, as
        AssociateSuppress registers it while nothing was set at boot. */
    constructor(global: LogCategory)
      requires global.Regular() && global.name == GlobalName
      ensures GlobalId == global.id && Associations == [global] && BootAssociations == map[]
      ensures ToggleAssociations == if global.verbosity != 0 then map[GlobalName := global.verbosity] else map[]
      ensures LastGlobalVerbosity == All && !OldGlobalBreakValue
      ensures Valid()
    {
      GlobalId := global.id;
      Associations, BootAssociations := [global], map[];
      ToggleAssociations := if global.verbosity != 0 then map[GlobalName := global.verbosity] else map[];
      LastGlobalVerbosity, OldGlobalBreakValue := All, false;
    }

    /** Takes over the boot-time value for the category, if any, as its
        default and resets to it; then stores its level for toggling when
        nonzero. */
    method SetupSuppress(destination: LogCategory, name: Name) returns (d: LogCategory)
      requires destination.Regular()
      modifies this`ToggleAssociations
      ensures var boot := BootOverride(BootAssociations, name);
        (boot.Some? ==> d == destination.(defaultVerbosity := boot.value).ResetFromDefault()) &&
        (boot.None? ==> d == destination)
      ensures ToggleAssociations == if d.verbosity != 0 then old(ToggleAssociations)[name := d.verbosity] else old(ToggleAssociations)
      ensures d.Regular() && d.id == destination.id && d.name == destination.name
    {
      d := destination;
      var boot := BootOverride(BootAssociations, name);
      if boot.Some? {
        d := d.(defaultVerbosity := boot.value).ResetFromDefault();
      }
      if d.verbosity != 0 {
        ToggleAssociations := ToggleAssociations[name := d.verbosity];
      }
    }

    /** The loop of AssociateSuppress over the categories of the same
        name: each copies its settings to `destination`, so the last one
        wins. */
    method CopyFromNamed(destination: LogCategory) returns (d: LogCategory, lastIndex: int)
      ensures lastIndex == LastIndexNamed(Associations, destination.name)
      ensures lastIndex >= 0 ==>
        d == destination.(verbosity := Associations[lastIndex].verbosity,
                          debugBreakOnLog := Associations[lastIndex].debugBreakOnLog,
                          defaultVerbosity := Associations[lastIndex].defaultVerbosity)
      ensures lastIndex < 0 ==> d == destination
    {
      d := destination;
      lastIndex := -1;
      var i := 0;
      while i < |Associations|
        invariant 0 <= i <= |Associations|
        invariant -1 <= lastIndex < i
        invariant lastIndex >= 0 ==> Associations[lastIndex].name == destination.name
        invariant forall j :: lastIndex < j < i ==> Associations[j].name != destination.name
        invariant lastIndex >= 0 ==>
          d == destination.(verbosity := Associations[lastIndex].verbosity,
                            debugBreakOnLog := Associations[lastIndex].debugBreakOnLog,
                            defaultVerbosity := Associations[lastIndex].defaultVerbosity)
        invariant lastIndex < 0 ==> d == destination
      {
        var existing := Associations[i];
        if existing.name == destination.name {
          d := d.(verbosity := existing.verbosity, debugBreakOnLog := existing.debugBreakOnLog,
                  defaultVerbosity := existing.defaultVerbosity);
          lastIndex := i;
        }
        i := i + 1;
      }
      LastIndexNamedUnique(Associations, destination.name, lastIndex);
    }

    /** Registers a category at a new address. One that shares its name
        with registered ones copies the settings of the last of them
        visited; a new name is set up from the boot-time values. Two
        categories of one name with different compile-time levels are a
        fatal error. */
    method AssociateSuppress(destination: LogCategory)
      requires Valid() && destination.Regular() && IndexOfId(Associations, destination.id) < 0
      requires forall k :: 0 <= k < |Associations| && Associations[k].name == destination.name ==>
        Associations[k].compileTimeVerbosity == destination.compileTimeVerbosity
      modifies this`Associations, this`ToggleAssociations
      ensures |Associations| == |old(Associations)| + 1 && Associations[..|old(Associations)|] == old(Associations)
      ensures var last := LastIndexNamed(old(Associations), destination.name);
        last >= 0 ==>
          Associations[|old(Associations)|] ==
            destination.(verbosity := old(Associations)[last].verbosity,
                         debugBreakOnLog := old(Associations)[last].debugBreakOnLog,
                         defaultVerbosity := old(Associations)[last].defaultVerbosity) &&
          ToggleAssociations == old(ToggleAssociations)
      ensures var boot := BootOverride(BootAssociations, destination.name);
        LastIndexNamed(old(Associations), destination.name) < 0 ==>
          (boot.Some? ==> Associations[|old(Associations)|] == destination.(defaultVerbosity := boot.value).ResetFromDefault()) &&
          (boot.None? ==> Associations[|old(Associations)|] == destination)
      ensures var d := Associations[|old(Associations)|];
        LastIndexNamed(old(Associations), destination.name) < 0 ==>
          ToggleAssociations == if d.verbosity != 0 then old(ToggleAssociations)[destination.name := d.verbosity] else old(ToggleAssociations)
      ensures Valid()
    {
      var d, lastIndex := CopyFromNamed(destination);
      if lastIndex < 0 {
        d := SetupSuppress(destination, destination.name);
      }
      ghost var gi := IndexOfId(Associations, GlobalId);
      Associations := Associations + [d];
      assert Associations[gi].id == GlobalId;
    }

    /** Unregisters the category at address `id`; one not registered is
        ignored. The proxy global category stays registered. */
    method DisassociateSuppress(id: nat)
      requires Valid() && id != GlobalId
      modifies this`Associations
      ensures Associations == WithoutId(old(Associations), id)
      ensures IndexOfId(Associations, id) < 0
      ensures Valid()
    {
      if IndexOfId(Associations, id) >= 0 {
        WithoutIdWellFormed(Associations, GlobalId, id);
        Associations := WithoutId(Associations, id);
      } else {
        WithoutAbsentId(Associations, id);
      }
    }

    /** After a change to the global proxy category: moves every
        category's level toward the new global level (down to it when the
        global level fell, up to it within the compile-time level when it
        rose), copies the global break flag when that flag changed, and
        stores each nonzero level for toggling. */
    method ApplyGlobalChanges()
      requires Valid()
      modifies this
      ensures State() == GlobalChanges(old(State()), GlobalId)
      ensures Valid()
    {
      var g := Associations[IndexOfId(Associations, GlobalId)];
      var goingUp := g.verbosity > LastGlobalVerbosity;
      var goingDown := g.verbosity < LastGlobalVerbosity;
      var forceBreak := g.debugBreakOnLog != OldGlobalBreakValue;
      var cats, toggles := FollowGlobalAll(Associations, ToggleAssociations, g.verbosity, goingUp, goingDown, forceBreak, g.debugBreakOnLog);
      GlobalChangesUnfold(State(), GlobalId, cats, toggles);
      Replace(SuppressionState(cats, BootAssociations, toggles, g.verbosity, g.debugBreakOnLog));
    }

    /** Assigns every field at once. */
    method Replace(next: SuppressionState)
      modifies this
      ensures State() == next
    {
      Associations, BootAssociations, ToggleAssociations := next.cats, next.boot, next.toggles;
      LastGlobalVerbosity, OldGlobalBreakValue := next.lastGlobal, next.oldGlobalBreak;
    }

    /** The one-word "Reset" command: every category goes back to its
        default, and each nonzero result is stored for toggling under
        `key`, which is the command's own category `Reset` as written. */
    method ResetAll(key: Option<Name>)
      requires Valid()
      modifies this
      ensures State() == ResetState(old(State()), key)
      ensures Valid()
    {
      var cats, toggles := ResetCategories(Associations, ToggleAssociations, key);
      SameCategoriesWellFormed(Associations, cats, GlobalId);
      Replace(State().(cats := cats, toggles := toggles));
    }

    /** Stores a sub-command's value for a category other than "Reset". */
    method StoreValue(category: Name, value: bv8, fromBoot: bool)
      requires Valid() && category != ResetName
      modifies this
      ensures State() == Store(old(State()), GlobalId, category, value, fromBoot)
      ensures Valid()
    {
      if fromBoot {
        StoreAtBoot(category, value);
      } else {
        SetNamed(category, value);
      }
      Replace(State().(toggles := WithToggle(ToggleAssociations, category, value)));
    }

    /** A boot-time value becomes the category's boot value; the boot
        global's first clears every other one. */
    method StoreAtBoot(category: Name, value: bv8)
      requires Valid()
      modifies this
      ensures State() == Stored(old(State()), GlobalId, category, value, true)
      ensures Valid()
    {
      var boot := if category == BootGlobalName then map[] else BootAssociations;
      Replace(State().(boot := boot[category := value]));
    }

    /** Every category of the name takes the value; all follow when it
        was the global proxy's. */
    method SetNamed(category: Name, value: bv8)
      requires Valid()
      modifies this
      ensures State() == Stored(old(State()), GlobalId, category, value, false)
      ensures Valid()
    {
      var cats := SetNamedAll(Associations, category, value);
      SameCategoriesWellFormed(Associations, cats, GlobalId);
      Replace(State().(cats := cats));
      if category == GlobalName {
        ApplyGlobalChanges();
      }
    }

    /** One sub-command: the one-word "Reset" resets every category;
        any other category's value is computed and stored. */
    method ProcessSubCommand(parts: seq<string>, fromBoot: bool)
      requires Valid()
      modifies this
      ensures State() == SubCommand(old(State()), GlobalId, parts, fromBoot)
      ensures Valid()
    {
      if parts == [] {
        return;
      }
      var category := CommandCategory(parts, fromBoot);
      if category == ResetName {
        if |parts| == 1 && !fromBoot {
          ResetAll(Some(ResetName));
        }
      } else {
        var value := ComputeValue(parts, fromBoot);
        StoreValue(category, value, fromBoot);
      }
    }

    /** A sub-command's value: the category's current value (at boot its
        boot value or the boot global's), toggled when the command names
        only the category, else changed by each verbosity token in turn. */
    method ComputeValue(parts: seq<string>, fromBoot: bool) returns (value: bv8)
      requires |parts| >= 1
      ensures value == CommandValue(Associations, BootAssociations, ToggleAssociations, parts, fromBoot)
    {
      var category := CommandCategory(parts, fromBoot);
      value := 0;
      var first := -1;
      if fromBoot {
        var boot := BootOverride(BootAssociations, category);
        if boot.Some? {
          value := boot.value;
        }
      } else {
        value, first := ReadNamed(Associations, category);
      }
      if |parts| == 1 {
        if !fromBoot && category != ResetName {
          value := ToggleCategory(value, Lookup(ToggleAssociations, category));
        }
      } else {
        var defaultVerbosity := if first >= 0 && !fromBoot then Some(Associations[first].defaultVerbosity) else None;
        value := ApplyTokensLoop(value, parts[1..], defaultVerbosity, Lookup(ToggleAssociations, category));
      }
    }

    /** The sub-commands of a command string in turn. */
    method ProcessCmdString(subCommands: seq<seq<string>>, fromBoot: bool)
      requires Valid()
      modifies this
      ensures State() == CmdString(old(State()), GlobalId, subCommands, fromBoot)
      ensures Valid()
    {
      var i := 0;
      while i < |subCommands|
        invariant 0 <= i <= |subCommands|
        invariant Valid()
        invariant State() == CmdString(old(State()), GlobalId, subCommands[..i], fromBoot)
      {
        CmdStringSnoc(old(State()), GlobalId, subCommands, i, fromBoot);
        ProcessSubCommand(subCommands[i], fromBoot);
        i := i + 1;
      }
      assert subCommands[..i] == subCommands;
    }
  }

  /** The loop of ApplyGlobalChanges: each category follows the global
      level in turn and its nonzero level is stored for toggling. */
  method FollowGlobalAll(cats: seq<LogCategory>, toggles: map<Name, bv8>, global: LevelBits,
                         goingUp: bool, goingDown: bool, forceBreak: bool, globalBreak: bool)
    returns (r: seq<LogCategory>, t: map<Name, bv8>)
    ensures r == FollowGlobalCats(cats, global, goingUp, goingDown, forceBreak, globalBreak)
    ensures t == RecordLevels(toggles, r, Levels(r), None)
  {
    r, t := cats, toggles;
    ghost var levels: seq<LevelBits> := [];
    var i := 0;
    while i < |cats|
      invariant 0 <= i <= |r| == |cats| && |levels| == i
      invariant forall k :: 0 <= k < |cats| ==>
        r[k] == if k < i then cats[k].FollowGlobal(global, goingUp, goingDown, forceBreak, globalBreak) else cats[k]
      invariant forall k :: 0 <= k < i ==> levels[k] == r[k].verbosity
      invariant t == RecordLevels(toggles, cats, levels, None)
    {
      var followed := r[i].FollowGlobal(global, goingUp, goingDown, forceBreak, globalBreak);
      assert followed.name == cats[i].name;
      RecordLevelsStep(toggles, cats, levels, followed.verbosity, None);
      levels := levels + [followed.verbosity];
      if followed.verbosity != 0 {
        t := t[followed.name := followed.verbosity];
      }
      r := r[i := followed];
      i := i + 1;
    }
    assert r == FollowGlobalCats(cats, global, goingUp, goingDown, forceBreak, globalBreak);
    RecordLevelsSameNames(toggles, cats, r, levels, None);
    assert levels == Levels(r);
  }

  /** The loop of the "Reset" command: each category resets to its
      default in turn and its nonzero level is stored for toggling. */
  method ResetCategories(cats: seq<LogCategory>, toggles: map<Name, bv8>, key: Option<Name>)
    returns (r: seq<LogCategory>, t: map<Name, bv8>)
    ensures r == ResetCats(cats)
    ensures t == RecordLevels(toggles, r, Levels(r), key)
  {
    r, t := cats, toggles;
    ghost var levels: seq<LevelBits> := [];
    var i := 0;
    while i < |cats|
      invariant 0 <= i <= |r| == |cats| && |levels| == i
      invariant forall k :: 0 <= k < |cats| ==> r[k] == if k < i then cats[k].ResetFromDefault() else cats[k]
      invariant forall k :: 0 <= k < i ==> levels[k] == r[k].verbosity
      invariant t == RecordLevels(toggles, cats, levels, key)
    {
      var reset := r[i].ResetFromDefault();
      RecordLevelsStep(toggles, cats, levels, reset.verbosity, key);
      levels := levels + [reset.verbosity];
      if reset.verbosity != 0 {
        t := t[(if key.Some? then key.value else reset.name) := reset.verbosity];
      }
      r := r[i := reset];
      i := i + 1;
    }
    RecordLevelsSameNames(toggles, cats, r, levels, key);
    assert levels == Levels(r);
  }

  /** The loop that sets every category of one name. */
  method SetNamedAll(cats: seq<LogCategory>, name: Name, value: bv8) returns (r: seq<LogCategory>)
    ensures r == SetNamedCats(cats, name, value)
  {
    r := cats;
    var i := 0;
    while i < |cats|
      invariant 0 <= i <= |r| == |cats|
      invariant forall k :: 0 <= k < |cats| ==>
        r[k] == if k < i && cats[k].name == name then cats[k].SetVerbosity(value) else cats[k]
    {
      if r[i].name == name {
        r := r[i := r[i].SetVerbosity(value)];
      }
      i := i + 1;
    }
  }

  /** The loop over the categories of one name: the value read is the last
      one's, and the first one's default serves the "Default" token. */
  method ReadNamed(cats: seq<LogCategory>, name: Name) returns (value: bv8, first: int)
    ensures value == NamedValue(cats, name)
    ensures first == FirstIndexNamed(cats, name)
  {
    value, first := 0, -1;
    var last := -1;
    var i := 0;
    while i < |cats|
      invariant 0 <= i <= |cats|
      invariant -1 <= last < i && -1 <= first < i
      invariant last >= 0 ==> cats[last].name == name && value == cats[last].Value()
      invariant last < 0 ==> value == 0
      invariant forall j :: last < j < i ==> cats[j].name != name
      invariant first >= 0 ==> cats[first].name == name
      invariant forall j :: 0 <= j < i && (first < 0 || j < first) ==> cats[j].name != name
    {
      if cats[i].name == name {
        value := cats[i].Value();
        last := i;
        if first < 0 {
          first := i;
        }
      }
      i := i + 1;
    }
    LastIndexNamedUnique(cats, name, last);
    FirstIndexNamedUnique(cats, name, first);
  }

  /** The loop over a sub-command's verbosity tokens. */
  method ApplyTokensLoop(value: bv8, tokens: seq<string>, defaultVerbosity: Option<bv8>, toggle: Option<bv8>) returns (r: bv8)
    ensures r == ApplyTokens(value, tokens, defaultVerbosity, toggle)
  {
    r := value;
    var i := 0;
    while i < |tokens|
      invariant 0 <= i <= |tokens|
      invariant r == ApplyTokens(value, tokens[..i], defaultVerbosity, toggle)
    {
      assert tokens[..i + 1][..i] == tokens[..i];
      r := ApplyToken(r, tokens[i], defaultVerbosity, toggle);
      i := i + 1;
    }
    assert tokens[..i] == tokens;
  }

  /** The first index called `name` is determined by those two facts. */
  lemma {:induction false} FirstIndexNamedUnique(cats: seq<LogCategory>, name: Name, r: int)
    requires -1 <= r < |cats|
    requires r >= 0 ==> cats[r].name == name
    requires forall j :: 0 <= j < |cats| && (r < 0 || j < r) ==> cats[j].name != name
    ensures r == FirstIndexNamed(cats, name)
  {
    if cats != [] && r != 0 {
      FirstIndexNamedUnique(cats[1..], name, if r < 0 then -1 else r - 1);
    }
  }

  /** The last index called `name` is determined by those two facts. */
  lemma LastIndexNamedUnique(cats: seq<LogCategory>, name: Name, r: int)
    requires -1 <= r < |cats|
    requires r >= 0 ==> cats[r].name == name
    requires forall j :: r < j < |cats| ==> cats[j].name != name
    ensures r == LastIndexNamed(cats, name)
  {
  }
}
