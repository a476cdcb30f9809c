/** Looking a placeholder up in configuration trees: `resolve` and
    `Board.resolve` of arduino_helpers/context.py.

    A looked-up value is an `Option<Node>`, `None` standing for Python's
    `None` (a missing value, or the caller's default).
 */
module Lookup {
  import opened Failures
  import opened Strings
  import opened Tree
  import opened Placeholders

  /** Python's `var[1:-1]`: the text without its first and last character,
      empty when there are fewer than two characters. */
  function Inside(v: string): (r: string)
    ensures |v| >= 2 ==> |r| == |v| - 2 && v == v[..1] + r + v[|v| - 1..]
    ensures |v| < 2 ==> r == ""
  {
    if |v| >= 2 then v[1..|v| - 1] else ""
  }

  /** The key path `resolve` walks: the inside of the whole text, split on
      dots, even when only a prefix of the text is a placeholder. */
  function KeyPath(v: string): (r: seq<string>)
    ensures |r| > 0 && Join(r, '.') == Inside(v)
  {
    Split(Inside(v), '.')
  }

  /** The loop of `resolve`. Strict mode indexes (`value[k]`); loose mode
      calls `value.get(k, default)` while the value is not `None`. */
  function Walk(v: Option<Node>, p: seq<string>, default: Option<Node>, strict: bool)
    : (r: Result<Option<Node>>)
    ensures r.Err? && strict ==> r.error == TypeError || r.error.KeyError?
    ensures r.Err? && !strict ==> r.error == AttributeError
    decreases |p|
  {
    if |p| == 0 then Ok(v)
    else if strict then
      match v
      case Some(Map(m)) =>
        if p[0] in m then Walk(Some(m[p[0]]), p[1..], default, strict)
        else Err(KeyError(Some(p[0])))
      case _ => Err(TypeError)
    else
      match v
      case None => Walk(None, p[1..], default, strict)
      case Some(Leaf(_)) => Err(AttributeError)
      case Some(Map(m)) =>
        Walk(if p[0] in m then Some(m[p[0]]) else default, p[1..], default, strict)
  }

  /** `resolve(config_dict, var, default_value, error_on_not_found)`. */
  function Resolve(c: Config, v: string, default: Option<Node>, strict: bool)
    : (r: Result<Option<Node>>)
    ensures r.Err? && r.error.ValueError? <==> !MatchesPrefix(Identifier, v)
    ensures r.Err? && r.error.ValueError? ==> r.error == ValueError(InvalidVariable(v))
  {
    ScanMatches(Identifier, v);
    if Scan(Identifier, v).None? then Err(ValueError(InvalidVariable(v)))
    else Walk(Some(Map(c)), KeyPath(v), default, strict)
  }

  // ---------------------------------------------------------------------
  // The walk against the tree's own paths
  // ---------------------------------------------------------------------

  /** Once the value is `None`, loose mode stays at `None`. */
  lemma {:induction false} WalkFromNone(p: seq<string>, default: Option<Node>)
    ensures Walk(None, p, default, false) == Ok(None)
    decreases |p|
  {
    if |p| > 0 {
      WalkFromNone(p[1..], default);
    }
  }

  /** Loose mode with no default: the node at the path, `None` when a
      segment is missing, and `AttributeError` when a string leaf is met
      with segments left. */
  lemma {:induction false} LooseWalk(n: Node, p: seq<string>)
    ensures Walk(Some(n), p, None, false)
         == if StepsIntoLeaf(n, p) then Err(AttributeError) else Ok(GetPath(n, p))
    decreases |p|
  {
    if |p| > 0 {
      match n
      case Leaf(_) =>
      case Map(m) =>
        if p[0] in m {
          LooseWalk(m[p[0]], p[1..]);
        } else {
          WalkFromNone(p[1..], None);
        }
    }
  }

  /** Strict mode: the node at the path, `TypeError` when a string leaf is
      met with segments left, and otherwise a `KeyError`. */
  lemma {:induction false} StrictWalk(n: Node, p: seq<string>, default: Option<Node>)
    ensures var r := Walk(Some(n), p, default, true);
      && (r.Ok? <==> GetPath(n, p).Some?)
      && (r.Ok? ==> r.value == GetPath(n, p))
      && (r == Err(TypeError) <==> StepsIntoLeaf(n, p))
    decreases |p|
  {
    if |p| > 0 {
      match n
      case Leaf(_) =>
      case Map(m) =>
        if p[0] in m {
          StrictWalk(m[p[0]], p[1..], default);
        }
    }
  }

  /** A strict `KeyError` names the first missing segment: the path up to
      it leads to a mapping that lacks it. */
  lemma {:induction false} StrictMissing(n: Node, p: seq<string>, default: Option<Node>)
    returns (j: nat)
    requires Walk(Some(n), p, default, true).Err?
    requires Walk(Some(n), p, default, true).error.KeyError?
    ensures j < |p| && GetPath(n, p[..j]).Some? && GetPath(n, p[..j]).value.Map?
    ensures p[j] !in GetPath(n, p[..j]).value.children
    ensures Walk(Some(n), p, default, true) == Err(KeyError(Some(p[j])))
    decreases |p|
  {
    var m := n.children;
    if p[0] in m {
      var i := StrictMissing(m[p[0]], p[1..], default);
      j := i + 1;
      assert p[..j][1..] == p[1..][..i];
    } else {
      j := 0;
    }
  }

  /** A present path is found in either mode, whatever the default. */
  lemma {:induction false} WalkFound(n: Node, p: seq<string>, default: Option<Node>, strict: bool)
    requires GetPath(n, p).Some?
    ensures Walk(Some(n), p, default, strict) == Ok(GetPath(n, p))
    decreases |p|
  {
    if |p| > 0 {
      WalkFound(n.children[p[0]], p[1..], default, strict);
    }
  }

  // ---------------------------------------------------------------------
  // `resolve`
  // ---------------------------------------------------------------------

  /** Loose `resolve` with no default, for a text that starts with a
      placeholder: the node at the key path, `None`, or `AttributeError`. */
  lemma ResolveLoose(c: Config, v: string)
    requires MatchesPrefix(Identifier, v)
    ensures Resolve(c, v, None, false)
         == if StepsIntoLeaf(Map(c), KeyPath(v)) then Err(AttributeError)
            else Ok(GetPath(Map(c), KeyPath(v)))
  {
    ScanMatches(Identifier, v);
    LooseWalk(Map(c), KeyPath(v));
  }

  /** Strict `resolve` for a text that starts with a placeholder: found
      exactly when the path is present, `TypeError` exactly when it runs
      into a string leaf, and a `KeyError` naming the first missing segment
      otherwise. */
  lemma ResolveStrict(c: Config, v: string, default: Option<Node>)
    requires MatchesPrefix(Identifier, v)
    ensures var r := Resolve(c, v, default, true);
      && (r.Ok? <==> GetPath(Map(c), KeyPath(v)).Some?)
      && (r.Ok? ==> r.value == GetPath(Map(c), KeyPath(v)))
      && (r == Err(TypeError) <==> StepsIntoLeaf(Map(c), KeyPath(v)))
      && (r.Err? && r.error != TypeError ==> exists j :: 0 <= j < |KeyPath(v)| && r == Err(KeyError(Some(KeyPath(v)[j]))))
  {
    ScanMatches(Identifier, v);
    var p := KeyPath(v);
    StrictWalk(Map(c), p, default);
    var r := Resolve(c, v, default, true);
    if r.Err? && r.error != TypeError {
      var j := StrictMissing(Map(c), p, default);
    }
  }

  /** When the whole text is a placeholder, the key path is its dotted
      identifiers. */
  lemma ResolveKeysAreWords(v: string)
    requires IsVariable(Identifier, v)
    ensures AllWords(Identifier, KeyPath(v))
  {
    WordsSplit(Identifier, Inside(v));
  }

  /** Only a prefix has to be a placeholder, and the key is cut from the
      whole text: `{a}b}` looks up the single key `a}b`. */
  lemma PrefixOnlyKey()
    ensures Resolve(map["a}b" := Leaf("x")], "{a}b}", None, false) == Ok(Some(Leaf("x")))
    ensures Resolve(map["a" := Leaf("x")], "{a}b}", None, false) == Ok(None)
  {
    var v := "{a}b}";
    assert ScanTail(Identifier, v, 2) == Some(3);
    assert Scan(Identifier, v) == Some(3);
    assert Inside(v) == "a}b";
    SplitNoSep("a}b", '.');
  }

  // ---------------------------------------------------------------------
  // `Board.resolve`
  // ---------------------------------------------------------------------

  /** The cpu as an f-string shows it: `None` prints as the text `None`. */
  function CpuText(cpu: Option<string>): string {
    match cpu
    case None => "None"
    case Some(t) => t
  }

  /** The cpu-scoped placeholder `{menu.cpu.<cpu>.<key>}`. */
  function ScopedVar(cpu: Option<string>, key: string): string {
    "{" + ("menu" + "." + ("cpu" + "." + (CpuText(cpu) + "." + key))) + "}"
  }

  /** The plain placeholder `{<key>}`. */
  function PlainVar(key: string): string {
    "{" + key + "}"
  }

  /** One dictionary's turn in `Board.resolve`: the scoped placeholder
      first, then the plain one if the scoped value is `None`. */
  function DictLookup(c: Config, cpu: Option<string>, key: string): (r: Result<Option<Node>>)
    ensures r.Err? ==> r.error == AttributeError || r.error.ValueError?
  {
    var scoped :- Resolve(c, ScopedVar(cpu, key), None, false);
    if scoped.Some? then Ok(scoped) else Resolve(c, PlainVar(key), None, false)
  }

  /** `Board.resolve(var, extra_dicts)` over the dictionaries
      `[combined_config] + extra_dicts`: the first value that is not `None`
      wins, and an error from `resolve` escapes. */
  function BoardResolve(dicts: seq<Config>, cpu: Option<string>, v: string)
    : (r: Result<Option<Node>>)
    ensures |dicts| == 0 ==> r == Ok(None)
    ensures r.Err? ==> r.error == AttributeError || r.error.ValueError?
    decreases |dicts|
  {
    if |dicts| == 0 then Ok(None)
    else
      var hit :- DictLookup(dicts[0], cpu, Inside(v));
      if hit.Some? then Ok(hit) else BoardResolve(dicts[1..], cpu, v)
  }

  /** What one dictionary holds for a placeholder, read off the tree: the
      scoped path if present, else the plain path. */
  function DictHit(c: Config, cpu: Option<string>, key: string): Option<Node> {
    var scoped := GetPath(Map(c), KeyPath(ScopedVar(cpu, key)));
    if scoped.Some? then scoped else GetPath(Map(c), KeyPath(PlainVar(key)))
  }

  /** The hit of the first dictionary that has one. */
  function FirstHit(dicts: seq<Config>, cpu: Option<string>, key: string): Option<Node>
    decreases |dicts|
  {
    if |dicts| == 0 then None
    else if DictHit(dicts[0], cpu, key).Some? then DictHit(dicts[0], cpu, key)
    else FirstHit(dicts[1..], cpu, key)
  }

  /** Neither lookup in `c` runs into a string leaf. */
  predicate NoLeafInWay(c: Config, cpu: Option<string>, key: string) {
    && !StepsIntoLeaf(Map(c), KeyPath(ScopedVar(cpu, key)))
    && !StepsIntoLeaf(Map(c), KeyPath(PlainVar(key)))
  }

  /** A dictionary's turn, read off the tree. */
  lemma DictLookupHit(c: Config, cpu: Option<string>, key: string)
    requires MatchesPrefix(Identifier, ScopedVar(cpu, key))
    requires MatchesPrefix(Identifier, PlainVar(key))
    requires NoLeafInWay(c, cpu, key)
    ensures DictLookup(c, cpu, key) == Ok(DictHit(c, cpu, key))
  {
    ResolveLoose(c, ScopedVar(cpu, key));
    ResolveLoose(c, PlainVar(key));
  }

  /** When both placeholders are well formed and no lookup runs into a
      string leaf, `Board.resolve` returns the first dictionary's hit. */
  lemma {:induction false} BoardResolveFirstHit(dicts: seq<Config>, cpu: Option<string>, v: string)
    requires MatchesPrefix(Identifier, ScopedVar(cpu, Inside(v)))
    requires MatchesPrefix(Identifier, PlainVar(Inside(v)))
    requires forall i :: 0 <= i < |dicts| ==> NoLeafInWay(dicts[i], cpu, Inside(v))
    ensures BoardResolve(dicts, cpu, v) == Ok(FirstHit(dicts, cpu, Inside(v)))
  {
    forall i | 0 <= i < |dicts|
      ensures DictLookup(dicts[i], cpu, Inside(v)) == Ok(DictHit(dicts[i], cpu, Inside(v)))
    {
      DictLookupHit(dicts[i], cpu, Inside(v));
    }
    EveryDictHits(dicts, cpu, v);
  }

  /** `Board.resolve` when each dictionary's turn gives its hit. */
  lemma {:induction false} EveryDictHits(dicts: seq<Config>, cpu: Option<string>, v: string)
    requires forall i :: 0 <= i < |dicts| ==> DictLookup(dicts[i], cpu, Inside(v)) == Ok(DictHit(dicts[i], cpu, Inside(v)))
    ensures BoardResolve(dicts, cpu, v) == Ok(FirstHit(dicts, cpu, Inside(v)))
    decreases |dicts|
  {
    if |dicts| > 0 {
      var rest := dicts[1..];
      assert forall i :: 0 <= i < |rest| ==> rest[i] == dicts[i + 1];
      EveryDictHits(rest, cpu, v);
    }
  }

  /** The scoped value of the first dictionary wins, whatever the plain
      value and the later dictionaries hold. */
  lemma ScopedFirst(dicts: seq<Config>, cpu: Option<string>, v: string, n: Node)
    requires |dicts| > 0 && MatchesPrefix(Identifier, ScopedVar(cpu, Inside(v)))
    requires GetPath(Map(dicts[0]), KeyPath(ScopedVar(cpu, Inside(v)))) == Some(n)
    ensures BoardResolve(dicts, cpu, v) == Ok(Some(n))
  {
    ScanMatches(Identifier, ScopedVar(cpu, Inside(v)));
    WalkFound(Map(dicts[0]), KeyPath(ScopedVar(cpu, Inside(v))), None, false);
  }

  /** A plain value in an earlier dictionary beats a scoped value in a
      later one. */
  lemma EarlierPlainWins(dicts: seq<Config>, cpu: Option<string>, v: string, n: Node)
    requires |dicts| > 0
    requires MatchesPrefix(Identifier, ScopedVar(cpu, Inside(v)))
    requires MatchesPrefix(Identifier, PlainVar(Inside(v)))
    requires NoLeafInWay(dicts[0], cpu, Inside(v))
    requires GetPath(Map(dicts[0]), KeyPath(ScopedVar(cpu, Inside(v)))).None?
    requires GetPath(Map(dicts[0]), KeyPath(PlainVar(Inside(v)))) == Some(n)
    ensures BoardResolve(dicts, cpu, v) == Ok(Some(n))
  {
    DictLookupHit(dicts[0], cpu, Inside(v));
  }

  /** No placeholder starts with `{menu.cpu..`: a word must follow each dot. */
  lemma EmptyScopeNeverScans(rest: string)
    ensures Scan(Identifier, "{menu.cpu.." + rest).None?
  {
    var s := "{menu.cpu.." + rest;
    var g := Identifier;
    assert s[10] == '.' && s[9] == '.' && s[8] == 'u' && s[7] == 'p' && s[6] == 'c';
    assert s[5] == '.' && s[4] == 'u' && s[3] == 'n' && s[2] == 'e' && s[1] == 'm' && s[0] == '{';
    assert ScanName(g, s, 10) == None;
    assert ScanTail(g, s, 9) == None;
    assert ScanTail(g, s, 8) == None;
    assert ScanTail(g, s, 7) == None;
    assert ScanName(g, s, 6) == None;
    assert ScanTail(g, s, 5) == None;
    assert ScanTail(g, s, 4) == None;
    assert ScanTail(g, s, 3) == None;
    assert ScanTail(g, s, 2) == None;
  }

  /** With the empty cpu of the legacy table, the scoped placeholder holds
      `..`, so it is never well formed and every `Board.resolve` raises
      `ValueError` before the plain placeholder is tried. */
  lemma EmptyCpuFails(dicts: seq<Config>, v: string)
    requires |dicts| > 0
    ensures BoardResolve(dicts, Some(""), v)
         == Err(ValueError(InvalidVariable(ScopedVar(Some(""), Inside(v)))))
  {
    var key := Inside(v);
    var s := ScopedVar(Some(""), key);
    EmptyScopeText(key);
    EmptyScopeNeverScans(key + "}");
    ScanMatches(Identifier, s);
    assert DictLookup(dicts[0], Some(""), key) == Err(ValueError(InvalidVariable(s)));
  }

  /** The empty cpu leaves two dots in a row. */
  lemma EmptyScopeText(key: string)
    ensures ScopedVar(Some(""), key) == "{menu.cpu.." + (key + "}")
  {
  }

  /** The plain placeholder looks up the key split on dots. */
  lemma PlainKeyPath(key: string)
    ensures KeyPath(PlainVar(key)) == Split(key, '.')
  {
    assert PlainVar(key)[1..|PlainVar(key)| - 1] == key;
  }

  /** Splitting text that begins with a dot-free piece. */
  lemma SplitAfterWord(t: string, rest: string)
    requires '.' !in t
    ensures Split(t + "." + rest, '.') == [t] + Split(rest, '.')
  {
    SplitCons(t, '.', rest);
  }

  /** Splitting text that begins with three dot-free pieces. */
  lemma SplitAfterThree(a: string, b: string, t: string, key: string)
    requires '.' !in a && '.' !in b && '.' !in t
    ensures Split(a + "." + (b + "." + (t + "." + key)), '.') == [a, b, t] + Split(key, '.')
  {
    var rest := b + "." + (t + "." + key);
    SplitAfterTwo(b, t, key);
    SplitAfterWord(a, rest);
    assert Split(a + "." + rest, '.') == [a] + ([b, t] + Split(key, '.'));
    assert [a] + ([b, t] + Split(key, '.')) == [a, b, t] + Split(key, '.');
  }

  lemma SplitAfterTwo(b: string, t: string, key: string)
    requires '.' !in b && '.' !in t
    ensures Split(b + "." + (t + "." + key), '.') == [b, t] + Split(key, '.')
  {
    SplitAfterWord(t, key);
    SplitAfterWord(b, t + "." + key);
    assert [b] + ([t] + Split(key, '.')) == [b, t] + Split(key, '.');
  }

  /** The scoped placeholder looks up `menu`, `cpu`, the cpu's text, then
      the key split on dots, when the cpu's text has no dot. */
  lemma ScopedKeyPath(cpu: Option<string>, key: string)
    requires '.' !in CpuText(cpu)
    ensures KeyPath(ScopedVar(cpu, key)) == ["menu", "cpu", CpuText(cpu)] + Split(key, '.')
  {
    var t := CpuText(cpu);
    PlainKeyPath("menu" + "." + ("cpu" + "." + (t + "." + key)));
    SplitAfterThree("menu", "cpu", t, key);
  }

  /** With no cpu, the scope segment is the text `None`: a value stored
      under `menu.cpu.None` is found first. */
  lemma NoCpuScopesByNone(dicts: seq<Config>, v: string, n: Node)
    requires |dicts| > 0 && MatchesPrefix(Identifier, ScopedVar(None, Inside(v)))
    requires GetPath(Map(dicts[0]), ["menu", "cpu", "None"] + Split(Inside(v), '.')) == Some(n)
    ensures BoardResolve(dicts, None, v) == Ok(Some(n))
  {
    ScopedKeyPath(None, Inside(v));
    ScopedFirst(dicts, None, v, n);
  }
}
