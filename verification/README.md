# arduino-helpers: configuration resolution, modelled in Dafny

arduino-helpers reads an Arduino installation's configuration files
(`boards.txt`, `platform.txt`) into nested dictionaries. It combines the
configuration of one board with the runtime, platform and build layers. It then
expands `{a.b.c}` placeholders in command templates against that combined
configuration, and it knows the register encodings of the Teensy PDB (programmable
delay block). This project models that core as pure Dafny functions over
immutable trees and proves what the code promises about it:

- `Tree`: a parsed configuration is a `Node`, either a `Leaf(text)` or a
  `Map(children)`. A nested dictionary is a `Config` (a `map<string, Node>`).
- `Strings`: `str.strip`, `sorted` (code-point order), `split`, `join`,
  `replace`, `upper`/`lower` (ASCII) and POSIX `path.joinpath`.
- `ConfigLines`, `Traversal`, `ConfigParser`: `parse_config` and `traverse`
  (hardware/__init__.py). Lines are filtered, stripped and sorted. Each is split
  at its first `=` and its key is split on `.`. The sorted entries are grouped
  into a tree.
- `BoardsParser`: `get_board_data_dict` (hardware/boards.py). It is the same
  pipeline, except that a line must contain exactly one `=`.
- `Merging`: `merge`, which merges the right tree into the left one. The left
  leaf wins, and a conflict is recorded at every differing leaf.
- `Placeholders`, `Lookup`: the placeholder grammars, `re.findall(r'{.*?}')`,
  `resolve` and `Board.resolve`. `Board.resolve` looks a key up under
  `menu.cpu.<cpu>` first and then plainly, in each dictionary in turn.
- `Substitution`: `resolve_arduino_vars` and `resolve_recursive`.
- `Boards`: `LEGACY_BOARD_INFO`, `resolve_legacy_board` and `Board.__init__`.
  That is: the family lookup, the legacy fallback, the layering of the
  configurations, the compiler path and the ambiguous-cpu check.
- `Pdb`: the `PDB_SC_*` flags, the field encoders, and a proof that the bitwise OR
  of the fields equals their sum.
- `Failures`: every Python exception that the core can raise is an `Error` value
  in a `Result`.

## Model

| member | source | states |
|---|---|---|
| Strings.StripSpec | arduino_helpers/hardware/__init__.py:38-39 | `strip` gives the empty text exactly for an all-whitespace line; otherwise its result neither starts nor ends with whitespace; a line with no whitespace at either end is unchanged |
| Strings.Sort | arduino_helpers/hardware/__init__.py:38-39 | sorting yields an ordered permutation of the kept lines |
| Strings.SortedUnique | arduino_helpers/hardware/__init__.py:38-39 | two ordered permutations of the same lines are equal, so the model's sort is Python's `sorted` |
| Strings.IndexOf | arduino_helpers/hardware/__init__.py:42-43 | `d.index('=')` finds the first `=`, and is absent exactly when the line has none |
| Strings.SplitCount | arduino_helpers/hardware/boards.py:24 | `split(sep)` yields one more part than there are separators |
| Strings.SplitJoin | arduino_helpers/context.py:85 | splitting a joined key on `.` gives back the segments, when no segment contains `.` |
| Strings.ReplaceNoOccurrence | arduino_helpers/context.py:328 | `str.replace` leaves a text in which the pattern does not occur unchanged |
| Strings.ReplaceBySelf | arduino_helpers/context.py:328 | replacing a pattern by itself leaves every text unchanged |
| Strings.ReplaceAtFirst | arduino_helpers/context.py:328 | `str.replace` keeps the text before the leftmost occurrence, puts the replacement there, and continues after that occurrence; together with ReplaceNoOccurrence, this fixes every result |
| Strings.FirstOccurrence | arduino_helpers/context.py:328 | a text in which the pattern occurs has a leftmost occurrence, with no occurrence starting before it |
| Strings.ReplaceCharByNothing | arduino_helpers/context.py:353 | replacing `'` by nothing removes every quote and keeps every other character |
| Strings.Upper | arduino_helpers/context.py:264 | `family.upper()` maps every character and keeps the length |
| Strings.Lower | arduino_helpers/context.py:266 | `family.lower()` maps every character and keeps the length |
| Strings.PathJoin | arduino_helpers/context.py:265-266 | `joinpath` keeps an absolute right part as is, and otherwise appends it after the left part |
| Failures.CollectOk | arduino_helpers/context.py:313-318 | a loop over results succeeds exactly when every step succeeds, and keeps their values in order |
| Failures.CollectFirstError | arduino_helpers/context.py:313-318 | a failing loop raises the error of its first failing step |
| Tree.ItemsAreLeaves | arduino_helpers/context.py:26-44 | `nested_dict_iter` yields `(keys, v)` exactly for the key paths that reach the leaf `v` |
| ConfigLines.KeptLinesMembers | arduino_helpers/hardware/__init__.py:38-39 | the kept lines are exactly the stripped non-blank lines that do not start with `#` (the `#` is looked for before stripping) |
| ConfigLines.SplitAtFirstEquals | arduino_helpers/hardware/__init__.py:41-46 | a line with no `=` is skipped; otherwise the key is the text before the first `=`, split on `.`, and the value is the rest, so the line is rebuilt from the entry |
| ConfigLines.LineRoundTrip | arduino_helpers/hardware/__init__.py:41-46 | a line written from a key without `=` parses back to that key and value |
| ConfigLines.ParseLinesMembers | arduino_helpers/hardware/__init__.py:40-46 | the entries are exactly the parses of the lines that contain `=` |
| ConfigLines.ParseLinesSorted | arduino_helpers/hardware/__init__.py:38-46 | entries parsed from sorted lines come in the order of their lines |
| ConfigLines.KeyLinePrefix | arduino_helpers/hardware/__init__.py:38-46 | a line starts with `q=` exactly when its key is `q`, and with `q.` exactly when `q` is a proper prefix of its key; this is why sorting groups keys |
| Traversal.Traverse | arduino_helpers/hardware/__init__.py:12-29 | `traverse` raises IndexError on no entries; otherwise it builds one child per distinct first segment |
| Traversal.TraverseNE | arduino_helpers/hardware/__init__.py:23-29 | the result is a leaf exactly when the first entry's key is used up |
| Traversal.GroupLoop | arduino_helpers/hardware/__init__.py:24-26 | the `groupby` loop has exactly the first segments as keys |
| Traversal.RunLength | arduino_helpers/hardware/__init__.py:24 | a `groupby` group is the maximal run of entries that share a first segment |
| Traversal.LaterRunWins | arduino_helpers/hardware/__init__.py:24-26 | when a first segment forms several runs, the last run's subtree is the one stored |
| Traversal.RestOverrides | arduino_helpers/hardware/__init__.py:24-26 | the groups after the first run override it in the result dictionary |
| Traversal.FirstLeafWinsNE | arduino_helpers/hardware/__init__.py:23-29 | when a path reaches a leaf, its value is the first sorted entry with that key, because `data[0][1]` is taken |
| Traversal.RoundTripNE | arduino_helpers/hardware/__init__.py:12-29 | on sorted entries whose keys are prefix-free, the leaves of the tree are exactly the entries |
| ConfigParser.ParseConfig | arduino_helpers/hardware/__init__.py:32-47 | `parse_config` raises IndexError exactly when no line has an `=`; otherwise it returns a dictionary keyed by the first key segments |
| ConfigParser.DuplicateKeySmallestLine | arduino_helpers/hardware/__init__.py:32-47 | every leaf comes from a line of the file; for a repeated key, it holds the smallest value in sort order |
| ConfigParser.ParseRoundTrip | arduino_helpers/hardware/__init__.py:32-47 | for files whose keys are prefix-free, `nested_dict_iter` of the parse gives back exactly the file's entries |
| ConfigParser.LaterGroupOverwritesExample | arduino_helpers/hardware/__init__.py:24-26 | `a.b=1`, `a0=2`, `a=3` parse to `{a: 3, a0: 2}`: the later `a` group replaces the earlier one |
| ConfigParser.CommentRuleExample | arduino_helpers/hardware/__init__.py:38-39 | an indented `#` line is kept, because the `#` is looked for before stripping; an unindented `#` line is dropped |
| BoardsParser.SplitLine | arduino_helpers/hardware/boards.py:24-25 | unpacking `d.split('=')` into `k, v` raises ValueError unless there is exactly one `=`; otherwise it gives the entry the line reads |
| BoardsParser.GetBoardDataDict | arduino_helpers/hardware/boards.py:17-26 | ValueError exactly when some kept line lacks a single `=`; IndexError exactly when no line is kept; otherwise the same tree as `parse_config` |
| BoardsParser.SmallestBadLine | arduino_helpers/hardware/boards.py:22-25 | the ValueError reports the part count of the smallest bad line in sort order |
| BoardsParser.BoardsAgreeWithConfig | arduino_helpers/hardware/boards.py:17-26 | on files where every line has one `=`, both parsers agree |
| BoardsParser.BoardsDuplicateKeySmallestLine | arduino_helpers/hardware/boards.py:17-26 | every leaf of `boards.txt` comes from one of its lines, and the smallest value of a repeated key wins |
| BoardsParser.ValueWithEqualsExample | arduino_helpers/hardware/boards.py:24-25 | `k=v=w` is read by `parse_config` as `{k: "v=w"}`, but makes `get_board_data_dict` raise ValueError (3 parts) |
| Merging.Merge | arduino_helpers/hardware/__init__.py:50-65 | the merged dictionary has exactly the keys of both operands |
| Merging.MergeLogged | arduino_helpers/hardware/__init__.py:54-64 | a key only on the right is copied; where the values are not both dictionaries, the left one is kept, and a conflict is logged exactly when they differ |
| Merging.ConflictsExactly | arduino_helpers/hardware/__init__.py:54-62 | a conflict is logged at a path exactly when both trees hold values there that differ and are not both dictionaries |
| Merging.LeftLeafKept | arduino_helpers/hardware/__init__.py:50-65 | every leaf of the left tree survives the merge unchanged |
| Merging.MergedLeafFromOperand | arduino_helpers/hardware/__init__.py:50-65 | every leaf of the merge comes from one of the operands |
| Merging.RightLeafFills | arduino_helpers/hardware/__init__.py:50-65 | a leaf of the right tree appears in the merge when the left tree leaves room for it |
| Merging.FitsIffNoConflict | arduino_helpers/hardware/__init__.py:55-62 | a right leaf has room exactly when no conflict is logged on its path |
| Merging.FitsMerge | arduino_helpers/hardware/__init__.py:50-65 | room for a leaf in both operands gives room in their merge, so the layers compose |
| Merging.MergeSelf | arduino_helpers/hardware/__init__.py:50-65 | merging a tree with itself changes nothing and logs nothing |
| Merging.MergeWithEmpty | arduino_helpers/hardware/__init__.py:50-65 | the empty dictionary is a unit on both sides, and never conflicts |
| Merging.MergeIdempotent | arduino_helpers/hardware/__init__.py:50-65 | merging the same right tree a second time changes nothing |
| Merging.RemergeSameConflicts | arduino_helpers/hardware/__init__.py:54-62 | a second merge of the same right tree logs the same conflicts again |
| Placeholders.ScanExactly | arduino_helpers/context.py:83 | the scanner stops at `n` exactly when the first `n` characters are a braced, dotted identifier |
| Placeholders.ScanMatches | arduino_helpers/context.py:83 | the scanner succeeds exactly when `re.match` of the placeholder grammar succeeds, that is, at a prefix |
| Placeholders.WordsSplit | arduino_helpers/context.py:83-85 | a dotted identifier is exactly a text whose `.`-parts are all identifiers |
| Placeholders.CloseAt | arduino_helpers/context.py:313 | the lazy `{.*?}` ends at the first `}` and never crosses a newline |
| Placeholders.FindBracedFrom | arduino_helpers/context.py:313 | every `re.findall(r'{.*?}')` match is a brace-delimited text with no newline |
| Placeholders.FindBracedEmpty | arduino_helpers/context.py:313 | `findall` finds nothing exactly when no `{` is followed by a `}` on the same line |
| Placeholders.FindBracedOccurs | arduino_helpers/context.py:313 | every match of `findall` is a piece of the scanned text |
| Placeholders.FindVariablesFrom | arduino_helpers/context.py:336-341 | every match of the letters-only pattern is a braced, dotted name of letters and `_` |
| Placeholders.FindVariablesEmpty | arduino_helpers/context.py:336-341 | the letters-only pattern finds nothing exactly when no position starts such a name |
| Placeholders.NoBraceNoMatch | arduino_helpers/context.py:313-341 | a text without `{` has no matches under either pattern |
| Lookup.KeyPath | arduino_helpers/context.py:85 | the keys are `var[1:-1]` split on `.`, and there is always at least one |
| Lookup.Resolve | arduino_helpers/context.py:70-92 | `resolve` raises ValueError, naming the variable, exactly when the text does not start with a placeholder |
| Lookup.LooseWalk | arduino_helpers/context.py:86-92 | the loose walk gives the value at the path or None; `.get` on a string leaf raises AttributeError |
| Lookup.StrictWalk | arduino_helpers/context.py:86-89 | the strict walk succeeds exactly when the path exists, and raises TypeError exactly when it indexes into a leaf |
| Lookup.StrictMissing | arduino_helpers/context.py:88-89 | any other strict failure is a KeyError naming the first missing key |
| Lookup.ResolveLoose | arduino_helpers/context.py:70-92 | for a valid variable, `resolve` returns the node at its key path, None if it is missing, or raises AttributeError on a leaf in the way |
| Lookup.ResolveStrict | arduino_helpers/context.py:70-92 | with `error_on_not_found`, a missing key raises KeyError naming one of the variable's keys, instead of giving None |
| Lookup.PrefixOnlyKey | arduino_helpers/context.py:83-85 | only a prefix must match: `{a}b}` resolves the key `a}b` |
| Lookup.BoardResolve | arduino_helpers/context.py:285-304 | with no dictionaries the result is None; it raises only AttributeError or ValueError |
| Lookup.BoardResolveFirstHit | arduino_helpers/context.py:294-304 | the result is the first dictionary's cpu-scoped value, else its plain value, else the same for the next dictionary |
| Lookup.ScopedFirst | arduino_helpers/context.py:297-299 | a `menu.cpu.<cpu>.<key>` value in the first dictionary wins |
| Lookup.EarlierPlainWins | arduino_helpers/context.py:300-304 | a plain value in an earlier dictionary beats a cpu-scoped one in a later dictionary |
| Lookup.EmptyCpuFails | arduino_helpers/context.py:297 | with cpu `""` every lookup raises ValueError, because `{menu.cpu..key}` is not a valid variable |
| Lookup.NoCpuScopesByNone | arduino_helpers/context.py:297 | with no cpu, the scoped key is `menu.cpu.None.<key>` |
| Lookup.ScopedKeyPath | arduino_helpers/context.py:295-297 | the scoped lookup walks `menu`, `cpu`, the cpu text, then the key's own segments |
| Substitution.Distinct | arduino_helpers/context.py:312-318 | `var_map` has each match once, and nothing else |
| Substitution.DistinctOrder | arduino_helpers/context.py:312-318 | `var_map` keeps the matches in order of first occurrence |
| Substitution.CatchAllOk | arduino_helpers/context.py:313-318 | the lookup loop succeeds exactly when no lookup raises anything but ValueError, which becomes None |
| Substitution.CatchAllError | arduino_helpers/context.py:313-318 | otherwise it raises the first escaping error |
| Substitution.Substitute | arduino_helpers/context.py:319-333 | the unresolved list holds exactly the variables whose value is not a string, in `var_map` order; with no string values the text is unchanged (its text in general is stated by SubstituteText) |
| Substitution.SubstituteText | arduino_helpers/context.py:319-328 | the text after the second loop is the command with `replace(var, value)` applied for each string value, one after the other, in `var_map` order |
| Substitution.PassText | arduino_helpers/context.py:306-333 | the text a pass returns is the pattern with every distinct match whose lookup gives a string replaced by that string, in first-occurrence order |
| Substitution.FirstSubstitution | arduino_helpers/context.py:319-328 | the first substitution of a pass hits a placeholder that occurs in the pattern: the text before its first occurrence is kept, that occurrence becomes the value, and the rest is replaced after it; the later substitutions act on that text |
| Substitution.SubstituteOnce | arduino_helpers/context.py:306-333 | the unresolved variables are distinct matches of the pattern; a pattern with no matches comes back unchanged |
| Substitution.PassFails | arduino_helpers/context.py:306-333 | `resolve_arduino_vars` raises exactly when some match's lookup raises a non-ValueError, and then raises that lookup's error |
| Substitution.PassUnresolved | arduino_helpers/context.py:306-333 | a variable is reported unresolved exactly when it is a match whose lookup gives no string |
| Substitution.Recursive | arduino_helpers/context.py:335-354 | a settled result never contains `'` |
| Substitution.RecursiveStops | arduino_helpers/context.py:340-354 | the loop stops at the first pass after which the letters-only matches equal those of the pass before; the result is that pass's text without quotes, with its unresolved list |
| Substitution.RecursiveSettles | arduino_helpers/context.py:340-354 | conversely, a loop whose scans first agree after pass `n`, within the fuel, returns that pass's text without quotes and its unresolved list; so `None` means exactly "not settled within the fuel" |
| Substitution.RecursiveFails | arduino_helpers/context.py:340-354 | a loop that is still moving when a pass raises, within the fuel, raises that pass's error |
| Substitution.MoreFuel | arduino_helpers/context.py:346-349 | once the loop settles, more passes change nothing |
| Substitution.SubstituteNoText | arduino_helpers/context.py:323-325 | when no value is a string, the text is unchanged and every variable is unresolved |
| Substitution.NothingResolves | arduino_helpers/context.py:306-354 | when every lookup raises ValueError, one pass keeps the text, and `resolve_recursive` returns it without quotes, with every match unresolved |
| Substitution.PassOverSingle | arduino_helpers/context.py:306-333 | a pattern that is one placeholder raises, becomes the value text, or stays unresolved, by its lookup |
| Substitution.NestedResolves | arduino_helpers/context.py:335-354 | `{x}` with `x` naming `{y}` and `y` naming a placeholder-free text settles on that text after three passes, and is not settled after two |
| Substitution.SelfReferenceStops | arduino_helpers/context.py:346-349 | a placeholder whose value is itself settles after two passes, with the text unchanged and nothing unresolved |
| Substitution.MissingStaysVerbatim | arduino_helpers/context.py:323-325 | a placeholder that resolves to nothing stays in the text and is reported unresolved |
| Substitution.Oscillates | arduino_helpers/context.py:346-349 | two placeholders that name each other never settle: the loop does not terminate |
| Boards.LegacyFrom | arduino_helpers/context.py:226-230 | the table lookup returns the `(board, cpu)` of the first row whose pre-1.5 name matches, and `(None, None)` exactly when no row matches |
| Boards.LegacyHeader | arduino_helpers/context.py:181-182 | the header line is scanned too: `name_1_0` maps to `("board", "cpu")` |
| Boards.LegacyBt328 | arduino_helpers/context.py:186 | `bt328` maps to `("bt", "atmega238")`, as the table spells it |
| Boards.LegacyUno | arduino_helpers/context.py:209 | `uno` maps to board `uno` with the empty cpu |
| Boards.LegacyUnknown | arduino_helpers/context.py:181-230 | a name that is not in the table maps to `(None, None)` |
| Boards.LastFamily | arduino_helpers/context.py:241-244 | the family is the last one, in iteration order, that lists the board; none exactly when no family lists it |
| Boards.FamilyConfig | arduino_helpers/context.py:251 | `board_configs_by_family[family]` is the family's entry, or missing |
| Boards.Locate | arduino_helpers/context.py:238-250 | a cpu on a pre-1.5 IDE raises ValueError; a listed board takes the last family and keeps its cpu; an unlisted board with a cpu fails the assertion; an unlisted board without a cpu falls back to the legacy table with family `avr` |
| Boards.BoardConfig | arduino_helpers/context.py:251 | the board's configuration is its entry in its family, and otherwise a KeyError |
| Boards.BuildConfig | arduino_helpers/context.py:264-269 | `build.arch` is the family in upper case; `build.system.path` is `<home>/hardware/arduino/<family lower>/system` |
| Boards.LayerPrecedence | arduino_helpers/context.py:262-274 | the board's leaves always survive; a runtime, platform or build leaf survives when every earlier layer leaves room for it |
| Boards.SetCompilerPath | arduino_helpers/context.py:278 | `setdefault('compiler', {})['path']` sets `compiler.path` and keeps everything else; it raises TypeError when `compiler` is a string |
| Boards.PlatformOf | arduino_helpers/context.py:252-255 | there is no platform before 1.5; otherwise it is the family's `platform.txt`, or a KeyError |
| Boards.CompilerStep | arduino_helpers/context.py:275-278 | a failing or unsettled `resolve_recursive` is passed on; otherwise the resolved text is expanded and given a trailing separator; when that is a directory, `compiler.path` becomes it (TypeError exactly when `compiler` is a string), and when it is not, the configuration is unchanged; in every case no top-level key except `compiler` changes |
| Boards.BuildBoard | arduino_helpers/context.py:233-283 | a constructed board has the located family, name and cpu, and its own config; its platform is the family's `platform.txt` from 1.5 on and none before; its combined config is the layers after the compiler step; and from 1.5 on, a board whose cpu is still None after the legacy fallback has no `menu.cpu` |
| Boards.BuildBoardBuilds | arduino_helpers/context.py:233-283 | conversely, when locating, the board entry, the platform and the compiler step all succeed and the ambiguous-cpu check does not fire, the board is built from exactly those results |
| Boards.BuiltLayers | arduino_helpers/context.py:262-278 | in a constructed board, the layer precedence holds for every key outside `compiler` |
| Boards.CpuMenuNeedsCpu | arduino_helpers/context.py:279-283 | from 1.5 on, a board with a cpu menu cannot be constructed without a cpu |
| Boards.BuiltKeepsCpuMenu | arduino_helpers/context.py:262-283 | a cpu menu in the board's own configuration is still in the combined configuration that the ambiguous-cpu check inspects |
| Boards.MergeKeepsCpuMenu | arduino_helpers/context.py:271-274 | merging never removes a `menu.cpu` dictionary |
| Boards.UnknownBoard | arduino_helpers/context.py:245-251 | an unknown board that is not in the legacy table raises KeyError: on `None`, or on `avr` if that family is missing |
| Boards.EmptyCpuCompilerPath | arduino_helpers/context.py:275 | with cpu `""`, the compiler template resolves to itself, with every placeholder unresolved |
| Pdb.OrBits | arduino_helpers/hardware/teensy/pdb.py:18-31 | a bit of `a \| b` is set exactly when it is set in `a` or in `b` |
| Pdb.OrDisjoint | arduino_helpers/hardware/teensy/pdb.py:18-31 | OR of a value below bit `k` with a multiple of `2^k` is their sum |
| Pdb.FieldRanges | arduino_helpers/hardware/teensy/pdb.py:18-31 | each field encoder only sets its own bits: TRGSEL 8-11, PRESCALER 12-14, MULT 2-3, LDMOD 18-19 |
| Pdb.FieldsDecode | arduino_helpers/hardware/teensy/pdb.py:18-31 | reading a field back gives the argument masked to its width (`n & mask`, also for negative `n`) |
| Pdb.FlagBits | arduino_helpers/hardware/teensy/pdb.py:5-12 | every `PDB_SC_*` flag is a single bit: 0, 1, 5, 6, 7, 15, 16 and 17 |
| Pdb.OrAllIsSum | arduino_helpers/hardware/teensy/pdb.py:5-31 | OR of values in increasing, disjoint bit ranges equals their sum |
| Pdb.RegisterOrIsSum | arduino_helpers/hardware/teensy/pdb.py:5-31 | any `PDB0_SC` value built by OR-ing the fields and flags equals their sum, and fits in 20 bits |

## Left out

- Reading files, directory listings and `expand`/`isdir`: the parsers take the file's lines as input. The installation is passed in as data (`Installation`), and the two filesystem queries of the constructor are the oracle `Host`.
- `get_board_data_by_family`, the `get_*_dir_by_family` getters and the directory attributes of `Board` (context.py:257-261): they only read directories. A missing family there would raise KeyError before the layers are built; the model does not raise it.
- `ArduinoContext.__init__`, the `revisions.txt` version check, `dump_nested_dict`, the sketchbook helpers, the uploader and the command-line tools: I/O and printing.
- `get_pdb_divide_params`: floating point and a pandas table.
- The ADC register tables (hardware/teensy/adc.py): not part of the modelled core.
- The order of `merge`'s logged conflicts: `Conflicts` is a set of key paths. The logger itself is not modelled.
- Aliasing: `merge` mutates its left operand and copies references to the right operand's sub-dictionaries. The model's trees are values, so the `deepcopy` of the board config is implicit.
- `upper`/`lower` map ASCII letters only; other Unicode case mappings are left out.
- `path.joinpath` is modelled as POSIX `posixpath.join`; Windows paths are left out.
- The `long_name` column of the legacy table is dropped: nothing reads it.
- `board_configs_by_family` is a sequence of `(family, boards)` pairs with distinct names. That is how Python dictionary iteration order appears in the model.
- `Board.resolve`'s `extra_dicts` are a sequence of `Config`s. The `default_value` of `resolve` is a `Node` or None.
- Merging into a string: a board whose every line in `boards.txt` is single-segment (such as `uno=x` with no `uno.<key>=` line) has a string as its own entry (context.py:251). A `uno.<key>=` line sorts before `uno=`, and `traverse` then drops the used-up key, so one such line keeps the entry a mapping. The first `merge` into that string then raises TypeError (hardware/__init__.py:54-64), because the build layer is never empty and a string supports neither `a[key]` nor item assignment. `BuildBoard` returns that TypeError directly, without modelling `merge` on a string.
- Substitution.Recursive: `resolve_recursive` loops until two successive passes have the same matches, which need not happen. The model bounds the passes with `fuel`, and `Ok(None)` means "not settled within the fuel" (RecursiveStops and RecursiveSettles). The contracts say nothing about inputs that never settle, except Substitution.Oscillates.
- Boards.BuildBoard: states the shape of a constructed board. It does not list every error the compiler step can raise; those are the lookup errors of `Substitution.PassFails`.
- Boards.CpuMenuNeedsCpu: states that such a board is never constructed. It does not say which error is raised: it is the ambiguous-cpu ValueError, unless an earlier step fails.
- Substitution.NestedResolves, SelfReferenceStops, MissingStaysVerbatim, Oscillates: stated for one-letter placeholder names and any lookup that gives the named values. The general laws are RecursiveStops and PassFails.
- Pdb: the `PDB0_IDLY`, `PDB0_MOD` and `PDB0_SC` addresses are constants only; nothing is proved about them.
