/** Assembling a board's configuration: `LEGACY_BOARD_INFO`,
    `resolve_legacy_board` and the non-filesystem part of `Board.__init__`
    in arduino_helpers/context.py.

    The installation is an input (`Installation`): the parsed `boards.txt`
    of every family in directory order, the parsed `platform.txt` of every
    family, the runtime layer and whether the IDE predates 1.5. The two
    filesystem questions the constructor asks become the oracle `Host`.
 */
module Boards {
  import opened Failures
  import opened Strings
  import opened Tree
  import opened Merging
  import opened Placeholders
  import opened Lookup
  import opened Substitution

  // ---------------------------------------------------------------------
  // `LEGACY_BOARD_INFO` and `resolve_legacy_board`
  // ---------------------------------------------------------------------

  /** One line of the table, split on `:`; the long name is not used. */
  datatype LegacyRow = LegacyRow(board: string, cpu: string, name10: string)

  /** The table, header line included: it is scanned like any other. */
  const LegacyBoardInfo: seq<LegacyRow> := [
    LegacyRow("board", "cpu", "name_1_0"),
    LegacyRow("atmegang", "atmega168", "atmega168"),
    LegacyRow("atmegang", "atmega8", "atmega8"),
    LegacyRow("bt", "atmega168", "bt"),
    LegacyRow("bt", "atmega238", "bt328"),
    LegacyRow("diecimila", "atmega168", "diecimila"),
    LegacyRow("diecimila", "atmega328", "atmega328"),
    LegacyRow("esplora", "", "esplora"),
    LegacyRow("ethernet", "", "ethernet"),
    LegacyRow("fio", "", "fio"),
    LegacyRow("leonardo", "", "leonardo"),
    LegacyRow("lilypad", "atmega168", "lilypad"),
    LegacyRow("lilypad", "atmega328", "lilypad328"),
    LegacyRow("lilypad", "", "LilyPadUSB"),
    LegacyRow("mega", "atmega1280", "mega"),
    LegacyRow("mega", "atmega2560", "mega2560"),
    LegacyRow("micro", "", "micro"),
    LegacyRow("mini", "atmega168", "mini"),
    LegacyRow("mini", "atmega328", "mini328"),
    LegacyRow("nano", "atmega168", "nano"),
    LegacyRow("nano", "atmega328", "nano328"),
    LegacyRow("pro", "atmega168", "pro"),
    LegacyRow("pro", "atmega328", "pro328"),
    LegacyRow("pro", "atmega168", "pro5v"),
    LegacyRow("pro", "atmega328", "pro5v328"),
    LegacyRow("robotControl", "", "robotControl"),
    LegacyRow("robotMotor", "", "robotMotor"),
    LegacyRow("uno", "", "uno")
  ]

  /** The `(board, cpu)` of the first row of `rows` from index `i` on
      whose pre-1.5 name is `name`; `None` stands for `(None, None)`. */
  function LegacyFrom(rows: seq<LegacyRow>, name: string, i: nat): (r: Option<(string, string)>)
    requires i <= |rows|
    ensures r.None? <==> forall k :: i <= k < |rows| ==> rows[k].name10 != name
    ensures r.Some? ==> exists k :: (i <= k < |rows| && rows[k].name10 == name
              && r.value == (rows[k].board, rows[k].cpu)
              && forall j :: i <= j < k ==> rows[j].name10 != name)
    decreases |rows| - i
  {
    if i == |rows| then None
    else if rows[i].name10 == name then Some((rows[i].board, rows[i].cpu))
    else LegacyFrom(rows, name, i + 1)
  }

  function ResolveLegacyBoard(name: string): Option<(string, string)> {
    LegacyFrom(LegacyBoardInfo, name, 0)
  }

  /** The first row naming the board decides. */
  lemma LegacyRowWins(name: string, k: nat)
    requires k < |LegacyBoardInfo| && LegacyBoardInfo[k].name10 == name
    requires forall j :: 0 <= j < k ==> LegacyBoardInfo[j].name10 != name
    ensures ResolveLegacyBoard(name) == Some((LegacyBoardInfo[k].board, LegacyBoardInfo[k].cpu))
  {
  }

  /** The header line is a row like any other. */
  lemma LegacyHeader()
    ensures ResolveLegacyBoard("name_1_0") == Some(("board", "cpu"))
  {
    LegacyRowWins("name_1_0", 0);
  }

  lemma LegacyBt328()
    ensures ResolveLegacyBoard("bt328") == Some(("bt", "atmega238"))
  {
    LegacyRowWins("bt328", 4);
  }

  /** A row whose cpu field is empty. */
  lemma LegacyUno()
    ensures ResolveLegacyBoard("uno") == Some(("uno", ""))
  {
    LegacyRowWins("uno", 27);
  }

  lemma LegacyUnknown()
    ensures ResolveLegacyBoard("teensy31") == None
  {
    assert forall k :: 0 <= k < |LegacyBoardInfo| ==> LegacyBoardInfo[k].name10 != "teensy31";
  }

  // ---------------------------------------------------------------------
  // Finding the board's family
  // ---------------------------------------------------------------------

  /** `get_board_data_by_family()`: each family's `boards.txt` tree, in the
      dictionary's order. */
  type Families = seq<(string, Config)>

  /** A dictionary holds each family once. */
  predicate FamiliesDistinct(fs: Families) {
    forall i, j :: 0 <= i < j < |fs| ==> fs[i].0 != fs[j].0
  }

  /** Family `i` lists board `name` among its top-level keys. */
  predicate Lists(fs: Families, i: nat, name: string)
    requires i < |fs|
  {
    name in fs[i].1
  }

  /** The loop over families without a `break`: the last family listing
      the board is the one kept. */
  function LastFamily(fs: Families, name: string): (r: Option<string>)
    ensures r.None? <==> forall i :: 0 <= i < |fs| ==> !Lists(fs, i, name)
    ensures r.Some? ==> exists i :: (0 <= i < |fs| && Lists(fs, i, name) && fs[i].0 == r.value
              && forall j :: i < j < |fs| ==> !Lists(fs, j, name))
    decreases |fs|
  {
    if |fs| == 0 then None
    else
      var n := |fs| - 1;
      if name in fs[n].1 then
        assert Lists(fs, n, name);
        Some(fs[n].0)
      else
        var r := LastFamily(fs[..n], name);
        assert forall i :: 0 <= i < n ==> (Lists(fs, i, name) <==> Lists(fs[..n], i, name));
        assert forall i :: 0 <= i < n ==> fs[..n][i] == fs[i];
        r
  }

  /** `board_configs_by_family[family]`. */
  function FamilyConfig(fs: Families, family: string): (r: Option<Config>)
    ensures r.None? <==> forall i :: 0 <= i < |fs| ==> fs[i].0 != family
    ensures r.Some? ==> exists i :: 0 <= i < |fs| && fs[i].0 == family && r.value == fs[i].1
  {
    if |fs| == 0 then None
    else if fs[0].0 == family then Some(fs[0].1)
    else
      var r := FamilyConfig(fs[1..], family);
      assert forall i :: 1 <= i < |fs| ==> fs[i] == fs[1..][i - 1];
      r
  }

  /** The family, board name and cpu the constructor settles on before it
      reads the board's configuration; `name` is `None` after a failed
      legacy lookup. */
  datatype Located = Located(family: string, name: Option<string>, cpu: Option<string>)

  /** The first part of `Board.__init__`: the pre-1.5 cpu check, the search
      over families and the legacy fallback. */
  function Locate(fs: Families, pre15: bool, board: string, cpu: Option<string>): (r: Result<Located>)
    ensures pre15 && cpu.Some? ==> r == Err(ValueError(CpuOnLegacyIde))
    ensures !(pre15 && cpu.Some?) && (exists i :: 0 <= i < |fs| && Lists(fs, i, board)) ==>
              r.Ok? && r.value.name == Some(board) && r.value.cpu == cpu
              && exists i :: (0 <= i < |fs| && Lists(fs, i, board) && fs[i].0 == r.value.family
                   && forall j :: i < j < |fs| ==> !Lists(fs, j, board))
    ensures (forall i :: 0 <= i < |fs| ==> !Lists(fs, i, board)) && !pre15 && cpu.Some? ==>
              r == Err(AssertionError)
    ensures (forall i :: 0 <= i < |fs| ==> !Lists(fs, i, board)) && cpu.None? ==>
              r == Ok(match ResolveLegacyBoard(board)
                      case Some(bc) => Located("avr", Some(bc.0), Some(bc.1))
                      case None => Located("avr", None, None))
  {
    if pre15 && cpu.Some? then Err(ValueError(CpuOnLegacyIde))
    else match LastFamily(fs, board)
      case Some(f) => Ok(Located(f, Some(board), cpu))
      case None =>
        if cpu.Some? then Err(AssertionError)
        else match ResolveLegacyBoard(board)
          case Some(bc) => Ok(Located("avr", Some(bc.0), Some(bc.1)))
          case None => Ok(Located("avr", None, None))
  }

  /** `board_configs_by_family[self.family][board_name]`. */
  function BoardConfig(fs: Families, loc: Located): (r: Result<Node>)
    ensures r.Err? <==> FamilyConfig(fs, loc.family).None? || loc.name.None?
                        || loc.name.value !in FamilyConfig(fs, loc.family).value
    ensures r.Err? ==> r.error.KeyError?
    ensures r.Ok? ==> loc.name.Some? && exists i :: (0 <= i < |fs| && fs[i].0 == loc.family
              && loc.name.value in fs[i].1 && r.value == fs[i].1[loc.name.value])
  {
    match FamilyConfig(fs, loc.family)
    case None => Err(KeyError(Some(loc.family)))
    case Some(boards) =>
      match loc.name
      case None => Err(KeyError(None))
      case Some(n) => if n in boards then Ok(boards[n]) else Err(KeyError(Some(n)))
  }

  // ---------------------------------------------------------------------
  // Layers
  // ---------------------------------------------------------------------

  /** `self.build_config`: `build.arch` and `build.system.path`. */
  function BuildConfig(home: string, family: string): (r: Config)
    ensures GetPath(Map(r), ["build", "arch"]) == Some(Leaf(Upper(family)))
    ensures GetPath(Map(r), ["build", "system", "path"])
         == Some(Leaf(PathJoin(PathJoin(PathJoin(PathJoin(home, "hardware"), "arduino"), Lower(family)), "system")))
  {
    var system := PathJoin(PathJoin(PathJoin(PathJoin(home, "hardware"), "arduino"), Lower(family)), "system");
    map["build" := Map(map["arch" := Leaf(Upper(family)), "system" := Map(map["path" := Leaf(system)])])]
  }

  /** The merges of `Board.__init__`, each keeping what is already there:
      the board's own configuration, then the runtime layer, then the
      platform, then the build layer. */
  function Layers(board: Config, runtime: Option<Config>, platform: Option<Config>, build: Config): Config {
    var withRuntime := if runtime.Some? then Merge(board, runtime.value) else board;
    var withPlatform := if platform.Some? then Merge(withRuntime, platform.value) else withRuntime;
    Merge(withPlatform, build)
  }

  /** A leaf survives the merges when no higher layer clashes with it: the
      board beats the runtime layer, which beats the platform, which beats
      the build layer. */
  lemma LayerPrecedence(board: Config, runtime: Option<Config>, platform: Option<Config>, build: Config,
                        p: seq<string>, v: string)
    ensures GetPath(Map(board), p) == Some(Leaf(v))
        ==> GetPath(Map(Layers(board, runtime, platform, build)), p) == Some(Leaf(v))
    ensures runtime.Some? && GetPath(Map(runtime.value), p) == Some(Leaf(v)) && Fits(board, p, v)
        ==> GetPath(Map(Layers(board, runtime, platform, build)), p) == Some(Leaf(v))
    ensures platform.Some? && GetPath(Map(platform.value), p) == Some(Leaf(v)) && Fits(board, p, v)
            && (runtime.Some? ==> Fits(runtime.value, p, v))
        ==> GetPath(Map(Layers(board, runtime, platform, build)), p) == Some(Leaf(v))
    ensures GetPath(Map(build), p) == Some(Leaf(v)) && Fits(board, p, v)
            && (runtime.Some? ==> Fits(runtime.value, p, v))
            && (platform.Some? ==> Fits(platform.value, p, v))
        ==> GetPath(Map(Layers(board, runtime, platform, build)), p) == Some(Leaf(v))
  {
    var r := if runtime.Some? then Merge(board, runtime.value) else board;
    var q := if platform.Some? then Merge(r, platform.value) else r;
    if GetPath(Map(board), p) == Some(Leaf(v)) {
      if runtime.Some? { LeftLeafKept(board, runtime.value, p, v); }
      if platform.Some? { LeftLeafKept(r, platform.value, p, v); }
      LeftLeafKept(q, build, p, v);
    }
    if runtime.Some? && GetPath(Map(runtime.value), p) == Some(Leaf(v)) && Fits(board, p, v) {
      RightLeafFills(board, runtime.value, p, v);
      if platform.Some? { LeftLeafKept(r, platform.value, p, v); }
      LeftLeafKept(q, build, p, v);
    }
    if platform.Some? && GetPath(Map(platform.value), p) == Some(Leaf(v)) && Fits(board, p, v)
       && (runtime.Some? ==> Fits(runtime.value, p, v)) {
      if runtime.Some? { FitsMerge(board, runtime.value, p, v); }
      RightLeafFills(r, platform.value, p, v);
      LeftLeafKept(q, build, p, v);
    }
    if GetPath(Map(build), p) == Some(Leaf(v)) && Fits(board, p, v)
       && (runtime.Some? ==> Fits(runtime.value, p, v))
       && (platform.Some? ==> Fits(platform.value, p, v)) {
      if runtime.Some? { FitsMerge(board, runtime.value, p, v); }
      if platform.Some? { FitsMerge(r, platform.value, p, v); }
      RightLeafFills(q, build, p, v);
    }
  }

  // ---------------------------------------------------------------------
  // The compiler path and the cpu check
  // ---------------------------------------------------------------------

  /** The filesystem as the constructor sees it: `path(p).expand()` and
      `path(p).isdir()`. */
  datatype Host = Host(expand: string -> string, isDir: string -> bool)

  /** The text handed to `resolve_recursive` for the compiler path. */
  function CompilerSpec(family: string): string {
    "{runtime.ide.path}/hardware/tools/" + Lower(family) + "/bin"
  }

  /** `self.combined_config.setdefault('compiler', {})['path'] = p`: an
      existing string under `compiler` cannot take an item. */
  function SetCompilerPath(c: Config, p: string): (r: Result<Config>)
    ensures r.Err? <==> "compiler" in c && c["compiler"].Leaf?
    ensures r.Err? ==> r.error == TypeError
    ensures r.Ok? ==> r.value.Keys == c.Keys + {"compiler"}
    ensures r.Ok? ==> GetPath(Map(r.value), ["compiler", "path"]) == Some(Leaf(p))
    ensures r.Ok? ==> forall k :: k in c && k != "compiler" ==> r.value[k] == c[k]
    ensures r.Ok? && "compiler" in c ==> forall k :: (k in c["compiler"].children && k != "path"
              ==> k in r.value["compiler"].children && r.value["compiler"].children[k] == c["compiler"].children[k])
  {
    if "compiler" in c then
      match c["compiler"]
      case Leaf(_) => Err(TypeError)
      case Map(m) => Ok(c["compiler" := Map(m["path" := Leaf(p)])])
    else Ok(c["compiler" := Map(map["path" := Leaf(p)])])
  }

  /** `'menu' in combined_config and 'cpu' in combined_config['menu']`;
      on a string, `in` asks for a substring. */
  predicate CpuMenu(c: Config) {
    && "menu" in c
    && match c["menu"]
       case Map(m) => "cpu" in m
       case Leaf(t) => Occurs(t, "cpu")
  }

  // ---------------------------------------------------------------------
  // `Board.__init__`
  // ---------------------------------------------------------------------

  /** What the constructor reads from `ArduinoContext`. */
  datatype Installation = Installation(
    pre15: bool,
    runtime: Option<Config>,
    home: string,
    families: Families,
    platforms: map<string, Config>)

  /** The attributes of a constructed `Board` that the model keeps. */
  datatype BoardState = BoardState(
    name: string,
    family: string,
    cpu: Option<string>,
    config: Config,
    platform: Option<Config>,
    combined: Config)

  /** `self.platform`: none before 1.5, else the family's `platform.txt`. */
  function PlatformOf(inst: Installation, family: string): (r: Result<Option<Config>>)
    ensures inst.pre15 ==> r == Ok(None)
    ensures !inst.pre15 && family in inst.platforms ==> r == Ok(Some(inst.platforms[family]))
    ensures !inst.pre15 && family !in inst.platforms ==> r == Err(KeyError(Some(family)))
  {
    if inst.pre15 then Ok(None)
    else if family in inst.platforms then Ok(Some(inst.platforms[family]))
    else Err(KeyError(Some(family)))
  }

  /** The combined configuration before the compiler path is set. */
  function Combined(inst: Installation, family: string, config: Config, platform: Option<Config>): Config {
    Layers(config, inst.runtime, platform, BuildConfig(inst.home, family))
  }

  /** The compiler-path step: `resolve_recursive` on the compiler's
      directory, expanded and given a trailing separator, stored under
      `compiler.path` when it is a directory. `Ok(None)` when the passes
      run out. Only the `compiler` key can change. */
  function CompilerStep(host: Host, combined: Config, family: string, cpu: Option<string>, fuel: nat)
    : (r: Result<Option<Config>>)
    ensures r.Ok? && r.value.Some? ==> forall k :: k in combined && k != "compiler" ==>
              k in r.value.value && r.value.value[k] == combined[k]
    ensures r.Ok? && r.value.Some? ==> r.value.value.Keys <= combined.Keys + {"compiler"}
    ensures var rr := ResolveRecursive([combined], cpu, CompilerSpec(family), fuel);
            && (rr.Err? ==> r == Err(rr.error))
            && (rr == Ok(None) ==> r == Ok(None))
            && (rr.Ok? && rr.value.Some? ==>
                  var dir := PathJoin(host.expand(rr.value.value.0), "");
                  && (!host.isDir(dir) ==> r == Ok(Some(combined)))
                  && (host.isDir(dir) ==>
                        && (r.Err? <==> "compiler" in combined && combined["compiler"].Leaf?)
                        && (r.Err? ==> r.error == TypeError)
                        && (r.Ok? ==> r.value.Some?)
                        && (r.Ok? ==> GetPath(Map(r.value.value), ["compiler", "path"]) == Some(Leaf(dir)))))
  {
    var compiler :- ResolveRecursive([combined], cpu, CompilerSpec(family), fuel);
    if compiler.None? then Ok(None)
    else
      var dir := PathJoin(host.expand(compiler.value.0), "");
      if host.isDir(dir) then
        var c :- SetCompilerPath(combined, dir);
        Ok(Some(c))
      else Ok(Some(combined))
  }

  /** `Board(arduino_context, board_name, cpu)`, with `resolve_recursive`
      allowed `fuel` passes after its first; `Ok(None)` when they run out. */
  function BuildBoard(inst: Installation, host: Host, board: string, cpu: Option<string>, fuel: nat)
    : (r: Result<Option<BoardState>>)
    requires FamiliesDistinct(inst.families)
    ensures inst.pre15 && cpu.Some? ==> r == Err(ValueError(CpuOnLegacyIde))
    ensures r.Ok? && r.value.Some? ==> var b := r.value.value;
              && Locate(inst.families, inst.pre15, board, cpu) == Ok(Located(b.family, Some(b.name), b.cpu))
              && (inst.pre15 <==> b.platform.None?)
              && PlatformOf(inst, b.family) == Ok(b.platform)
              && (!inst.pre15 && b.cpu.None? ==> !CpuMenu(b.combined))
              && BoardConfig(inst.families, Located(b.family, Some(b.name), b.cpu)) == Ok(Map(b.config))
              && CompilerStep(host, Combined(inst, b.family, b.config, b.platform), b.family, b.cpu, fuel)
                 == Ok(Some(b.combined))
  {
    var loc :- Locate(inst.families, inst.pre15, board, cpu);
    var node :- BoardConfig(inst.families, loc);
    var platform :- PlatformOf(inst, loc.family);
    if node.Leaf? then Err(TypeError)
    else
      var final :- CompilerStep(host, Combined(inst, loc.family, node.children, platform), loc.family, loc.cpu, fuel);
      if final.None? then Ok(None)
      else if !inst.pre15 && loc.cpu.None? && CpuMenu(final.value) then
        Err(ValueError(AmbiguousCpu(loc.name.value)))
      else
        Ok(Some(BoardState(loc.name.value, loc.family, loc.cpu, node.children, platform, final.value)))
  }

  // ---------------------------------------------------------------------
  // Properties of a build
  // ---------------------------------------------------------------------

  /** The converse of `BuildBoard`'s contract: when every step succeeds and
      the ambiguous-cpu check does not fire, the board is built from exactly
      those steps' results. */
  lemma BuildBoardBuilds(inst: Installation, host: Host, board: string, cpu: Option<string>, fuel: nat,
                         loc: Located, m: Config, p: Option<Config>, c: Config)
    requires FamiliesDistinct(inst.families)
    requires Locate(inst.families, inst.pre15, board, cpu) == Ok(loc) && loc.name.Some?
    requires BoardConfig(inst.families, loc) == Ok(Map(m))
    requires PlatformOf(inst, loc.family) == Ok(p)
    requires CompilerStep(host, Combined(inst, loc.family, m, p), loc.family, loc.cpu, fuel) == Ok(Some(c))
    requires !(!inst.pre15 && loc.cpu.None? && CpuMenu(c))
    ensures BuildBoard(inst, host, board, cpu, fuel)
         == Ok(Some(BoardState(loc.name.value, loc.family, loc.cpu, m, p, c)))
  {
  }

  /** A merge keeps a cpu menu of its left operand: a mapping under `menu`
      stays a mapping with at least its keys, and a string stays as is. */
  lemma MergeKeepsCpuMenu(a: Config, b: Config)
    requires CpuMenu(a)
    ensures CpuMenu(Merge(a, b))
  {
    var r := Merge(a, b);
    assert "menu" in r;
    if a["menu"].Map? && "menu" in b && b["menu"].Map? {
      assert r["menu"] == Map(Merge(a["menu"].children, b["menu"].children));
    } else {
      assert r["menu"] == a["menu"];
    }
  }

  /** The layering survives the compiler step: outside `compiler`, a built
      board's combined configuration holds every leaf of its own
      configuration, and each lower layer's leaf wherever no higher layer
      clashes with it. */
  lemma BuiltLayers(inst: Installation, host: Host, board: string, cpu: Option<string>, fuel: nat,
                    p: seq<string>, v: string)
    requires FamiliesDistinct(inst.families)
    requires BuildBoard(inst, host, board, cpu, fuel).Ok? && BuildBoard(inst, host, board, cpu, fuel).value.Some?
    requires |p| > 0 && p[0] != "compiler"
    ensures var b := BuildBoard(inst, host, board, cpu, fuel).value.value;
      GetPath(Map(b.config), p) == Some(Leaf(v)) ==> GetPath(Map(b.combined), p) == Some(Leaf(v))
    ensures var b := BuildBoard(inst, host, board, cpu, fuel).value.value;
      inst.runtime.Some? && GetPath(Map(inst.runtime.value), p) == Some(Leaf(v)) && Fits(b.config, p, v)
      ==> GetPath(Map(b.combined), p) == Some(Leaf(v))
    ensures var b := BuildBoard(inst, host, board, cpu, fuel).value.value;
      b.platform.Some? && GetPath(Map(b.platform.value), p) == Some(Leaf(v)) && Fits(b.config, p, v)
      && (inst.runtime.Some? ==> Fits(inst.runtime.value, p, v))
      ==> GetPath(Map(b.combined), p) == Some(Leaf(v))
    ensures var b := BuildBoard(inst, host, board, cpu, fuel).value.value;
      GetPath(Map(BuildConfig(inst.home, b.family)), p) == Some(Leaf(v)) && Fits(b.config, p, v)
      && (inst.runtime.Some? ==> Fits(inst.runtime.value, p, v))
      && (b.platform.Some? ==> Fits(b.platform.value, p, v))
      ==> GetPath(Map(b.combined), p) == Some(Leaf(v))
  {
    var b := BuildBoard(inst, host, board, cpu, fuel).value.value;
    var combined := Combined(inst, b.family, b.config, b.platform);
    LayerPrecedence(b.config, inst.runtime, b.platform, BuildConfig(inst.home, b.family), p, v);
    CompilerStepKeeps(host, combined, b.family, b.cpu, fuel, p);
  }

  /** The compiler step leaves every path outside `compiler` alone. */
  lemma CompilerStepKeeps(host: Host, combined: Config, family: string, cpu: Option<string>, fuel: nat,
                          p: seq<string>)
    requires |p| > 0 && p[0] != "compiler"
    requires CompilerStep(host, combined, family, cpu, fuel).Ok?
    requires CompilerStep(host, combined, family, cpu, fuel).value.Some?
    ensures GetPath(Map(CompilerStep(host, combined, family, cpu, fuel).value.value), p)
         == GetPath(Map(combined), p)
  {
    var c := CompilerStep(host, combined, family, cpu, fuel).value.value;
    assert p[0] in combined ==> p[0] in c && c[p[0]] == combined[p[0]];
    assert p[0] !in combined ==> p[0] !in c;
  }

  /** On 1.5+, a board found under its own name, given no cpu, whose
      `boards.txt` entry offers a cpu menu is never built. */
  lemma CpuMenuNeedsCpu(inst: Installation, host: Host, board: string, fuel: nat)
    requires FamiliesDistinct(inst.families) && !inst.pre15
    requires LastFamily(inst.families, board).Some?
    requires var fam := FamilyConfig(inst.families, LastFamily(inst.families, board).value);
      fam.Some? && board in fam.value && fam.value[board].Map? && CpuMenu(fam.value[board].children)
    ensures !(BuildBoard(inst, host, board, None, fuel).Ok? && BuildBoard(inst, host, board, None, fuel).value.Some?)
  {
    var f := LastFamily(inst.families, board).value;
    var m := FamilyConfig(inst.families, f).value[board].children;
    var r := BuildBoard(inst, host, board, None, fuel);
    if r.Ok? && r.value.Some? {
      var b := r.value.value;
      assert Locate(inst.families, inst.pre15, board, None) == Ok(Located(f, Some(board), None));
      assert b.config == m;
      BuiltKeepsCpuMenu(inst, host, board, None, fuel);
    }
  }

  /** A built board whose own configuration offers a cpu menu still
      offers it after the layering and the compiler step. */
  lemma BuiltKeepsCpuMenu(inst: Installation, host: Host, board: string, cpu: Option<string>, fuel: nat)
    requires FamiliesDistinct(inst.families)
    requires BuildBoard(inst, host, board, cpu, fuel).Ok? && BuildBoard(inst, host, board, cpu, fuel).value.Some?
    requires CpuMenu(BuildBoard(inst, host, board, cpu, fuel).value.value.config)
    ensures CpuMenu(BuildBoard(inst, host, board, cpu, fuel).value.value.combined)
  {
    var b := BuildBoard(inst, host, board, cpu, fuel).value.value;
    var combined := Combined(inst, b.family, b.config, b.platform);
    CombinedKeepsCpuMenu(inst, b.family, b.config, b.platform);
    assert "menu" in b.combined && b.combined["menu"] == combined["menu"];
  }

  /** A cpu menu of the board's own configuration survives the layering. */
  lemma CombinedKeepsCpuMenu(inst: Installation, family: string, config: Config, platform: Option<Config>)
    requires CpuMenu(config)
    ensures CpuMenu(Combined(inst, family, config, platform))
  {
    var withRuntime := if inst.runtime.Some? then Merge(config, inst.runtime.value) else config;
    if inst.runtime.Some? { MergeKeepsCpuMenu(config, inst.runtime.value); }
    var withPlatform := if platform.Some? then Merge(withRuntime, platform.value) else withRuntime;
    if platform.Some? { MergeKeepsCpuMenu(withRuntime, platform.value); }
    MergeKeepsCpuMenu(withPlatform, BuildConfig(inst.home, family));
  }

  /** A name that no family lists and the legacy table does not know ends
      in a `KeyError`: for the missing `avr` family, or for the board name
      `None`. */
  lemma UnknownBoard(inst: Installation, host: Host, board: string, fuel: nat)
    requires FamiliesDistinct(inst.families)
    requires forall i :: 0 <= i < |inst.families| ==> !Lists(inst.families, i, board)
    requires ResolveLegacyBoard(board).None?
    ensures BuildBoard(inst, host, board, None, fuel)
         == Err(KeyError(if FamilyConfig(inst.families, "avr").Some? then None else Some("avr")))
  {
    assert Locate(inst.families, inst.pre15, board, None) == Ok(Located("avr", None, None));
  }

  /** With the empty cpu of a legacy row such as `uno`, every lookup of the
      compiler path raises `ValueError`, so the text comes back unchanged
      with its placeholder unresolved. */
  lemma EmptyCpuCompilerPath(combined: Config, family: string, fuel: nat)
    requires fuel >= 1
    ensures var spec := CompilerSpec(family);
      ResolveRecursive([combined], Some(""), spec, fuel)
      == Ok(Some((Without(spec, '\''), Distinct(FindBraced(spec)))))
  {
    var look := BoardLookup([combined], Some(""));
    forall v ensures look(v).Err? && look(v).error.ValueError? {
      EmptyCpuFails([combined], v);
    }
    NothingResolves(look, CompilerSpec(family), fuel);
  }
}
