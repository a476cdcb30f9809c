/** Substituting placeholders in a text: `Board.resolve_arduino_vars` and
    `Board.resolve_recursive` of arduino_helpers/context.py.

    A pass finds the `{...}` matches of the text, looks each distinct one up
    with `Board.resolve`, replaces those that resolve to text and lists the
    others. The recursive form repeats passes until two consecutive scans
    for digit-free placeholders agree. Nothing bounds that loop in the
    code, so here it runs on fuel: `None` means the fuel ran out first.
 */
module Substitution {
  import opened Failures
  import opened Strings
  import opened Tree
  import opened Placeholders
  import opened Lookup

  // ---------------------------------------------------------------------
  // Distinct matches in first-occurrence order (the keys of `var_map`)
  // ---------------------------------------------------------------------

  /** The texts of `xs` without repeats, each where it first occurs. */
  function Distinct(xs: seq<string>): (r: seq<string>)
    ensures forall x :: x in r <==> x in xs
    ensures forall i, j :: 0 <= i < j < |r| ==> r[i] != r[j]
    decreases |xs|
  {
    if |xs| == 0 then []
    else
      var init := xs[..|xs| - 1];
      var d := Distinct(init);
      assert xs == init + [xs[|xs| - 1]];
      if xs[|xs| - 1] in d then d else d + [xs[|xs| - 1]]
  }

  /** Where `x` first occurs in `xs`. */
  function FirstIndex(xs: seq<string>, x: string): (k: nat)
    requires x in xs
    ensures k < |xs| && xs[k] == x && x !in xs[..k]
    decreases |xs|
  {
    var init := xs[..|xs| - 1];
    assert xs == init + [xs[|xs| - 1]];
    if x in init then
      var k := FirstIndex(init, x);
      assert xs[..k] == init[..k];
      k
    else |xs| - 1
  }

  /** `Distinct` keeps the order of first occurrences, as the keys of a
      Python dict keep their insertion order. */
  lemma {:induction false} DistinctOrder(xs: seq<string>, i: nat, j: nat)
    requires i < j < |Distinct(xs)|
    ensures FirstIndex(xs, Distinct(xs)[i]) < FirstIndex(xs, Distinct(xs)[j])
    decreases |xs|
  {
    var init := xs[..|xs| - 1];
    var d := Distinct(init);
    var r := Distinct(xs);
    assert xs == init + [xs[|xs| - 1]];
    if j < |d| {
      assert r[i] == d[i] && r[j] == d[j];
      DistinctOrder(init, i, j);
    } else {
      assert r[i] == d[i] && r[i] in init;
    }
  }

  // ---------------------------------------------------------------------
  // One pass: `resolve_arduino_vars`
  // ---------------------------------------------------------------------

  /** `try: value = self.resolve(var) except ValueError: value = None`. */
  function Catch(r: Result<Option<Node>>): Result<Option<Node>> {
    if r.Err? && r.error.ValueError? then Ok(None) else r
  }

  /** The lookup raises an error that `resolve_arduino_vars` lets through. */
  predicate Escapes(r: Result<Option<Node>>) {
    r.Err? && !r.error.ValueError?
  }

  /** What a lookup leaves in `var_map`: its value, `None` after a
      `ValueError`. */
  function Value(r: Result<Option<Node>>): Option<Node> {
    if r.Ok? then r.value else None
  }

  /** Catching `ValueError` in each lookup, in order; the first escaping
      error is raised. */
  function CatchAll(rs: seq<Result<Option<Node>>>): (r: Result<seq<Option<Node>>>)
    ensures r.Ok? ==> |r.value| == |rs|
  {
    Collect(seq(|rs|, k requires 0 <= k < |rs| => Catch(rs[k])))
  }

  /** The lookups go through exactly when none escapes, and then keep each
      lookup's value. */
  lemma CatchAllOk(rs: seq<Result<Option<Node>>>)
    ensures CatchAll(rs).Ok? <==> forall k :: 0 <= k < |rs| ==> !Escapes(rs[k])
    ensures CatchAll(rs).Ok? ==> forall k :: 0 <= k < |rs| ==> CatchAll(rs).value[k] == Value(rs[k])
  {
    var cs := seq(|rs|, k requires 0 <= k < |rs| => Catch(rs[k]));
    CollectOk(cs);
    assert forall k :: 0 <= k < |rs| ==> cs[k] == Catch(rs[k]);
  }

  /** A failure is the error of the first lookup that escapes. */
  lemma CatchAllError(rs: seq<Result<Option<Node>>>) returns (k: nat)
    requires CatchAll(rs).Err?
    ensures k < |rs| && Escapes(rs[k]) && CatchAll(rs).error == rs[k].error
    ensures forall j :: 0 <= j < k ==> !Escapes(rs[j])
  {
    var cs := seq(|rs|, k requires 0 <= k < |rs| => Catch(rs[k]));
    k := CollectFirstError(cs);
    assert cs[k] == Catch(rs[k]);
    assert forall j :: 0 <= j < k ==> cs[j] == Catch(rs[j]);
  }

  /** A way of looking a placeholder up; a pass uses `Board.resolve`. */
  type Resolver = string -> Result<Option<Node>>

  /** `self.resolve(var, extra_dicts)` as a resolver. */
  function BoardLookup(dicts: seq<Config>, cpu: Option<string>): Resolver {
    v => BoardResolve(dicts, cpu, v)
  }

  /** Looking each placeholder up in turn. */
  function Resolutions(look: Resolver, vars: seq<string>): (rs: seq<Result<Option<Node>>>)
    ensures |rs| == |vars|
    ensures forall k :: 0 <= k < |vars| ==> rs[k] == look(vars[k])
  {
    seq(|vars|, k requires 0 <= k < |vars| => look(vars[k]))
  }

  /** The first loop of `resolve_arduino_vars`. */
  function LookupAll(look: Resolver, vars: seq<string>): (r: Result<seq<Option<Node>>>)
    ensures r.Ok? ==> |r.value| == |vars|
  {
    CatchAll(Resolutions(look, vars))
  }

  /** The value is a string, so it is substituted. */
  predicate IsText(v: Option<Node>) {
    v.Some? && v.value.Leaf?
  }

  /** `a` is `b` with some elements left out, the rest in order. */
  predicate SubSeq(a: seq<string>, b: seq<string>)
    decreases |b|
  {
    if |a| == 0 then true
    else if |b| == 0 then false
    else if a[|a| - 1] == b[|b| - 1] && SubSeq(a[..|a| - 1], b[..|b| - 1]) then true
    else SubSeq(a, b[..|b| - 1])
  }

  /** The `(placeholder, text)` pairs of the values that are strings, in
      the order of the placeholders. */
  function TextSubs(vars: seq<string>, values: seq<Option<Node>>): (r: seq<(string, string)>)
    requires |vars| == |values|
    ensures |r| <= |vars|
    ensures forall j :: 0 <= j < |r| ==> r[j].0 in vars
    ensures (forall k :: 0 <= k < |vars| ==> !IsText(values[k])) <==> r == []
    decreases |vars|
  {
    if |vars| == 0 then []
    else
      var n := |vars| - 1;
      var prev := TextSubs(vars[..n], values[..n]);
      assert forall k :: 0 <= k < n ==> vars[..n][k] == vars[k] && values[..n][k] == values[k];
      if IsText(values[n]) then prev + [(vars[n], values[n].value.text)] else prev
  }

  /** `s.replace(p1, t1).replace(p2, t2)...`: each substitution, in order,
      replaces every occurrence in the text the previous ones left. */
  function ReplaceInOrder(s: string, subs: seq<(string, string)>): (r: string)
    requires forall j :: 0 <= j < |subs| ==> |subs[j].0| > 0
    ensures subs == [] ==> r == s
    decreases |subs|
  {
    if |subs| == 0 then s
    else ReplaceInOrder(ReplaceAll(s, subs[0].0, subs[0].1), subs[1..])
  }

  /** One more substitution at the end replaces in the text the others
      left. */
  lemma {:induction false} ReplaceInOrderSnoc(s: string, subs: seq<(string, string)>, last: (string, string))
    requires forall j :: 0 <= j < |subs| ==> |subs[j].0| > 0
    requires |last.0| > 0
    ensures ReplaceInOrder(s, subs + [last]) == ReplaceAll(ReplaceInOrder(s, subs), last.0, last.1)
    decreases |subs|
  {
    if |subs| > 0 {
      assert (subs + [last])[1..] == subs[1..] + [last];
      ReplaceInOrderSnoc(ReplaceAll(s, subs[0].0, subs[0].1), subs[1..], last);
    }
  }

  /** The second loop of `resolve_arduino_vars`: in order, a text value
      replaces every occurrence of its placeholder in the text so far, and
      any other value puts the placeholder on the unresolved list. */
  function Substitute(cmd: string, vars: seq<string>, values: seq<Option<Node>>)
    : (r: (string, seq<string>))
    requires |vars| == |values|
    requires forall k :: 0 <= k < |vars| ==> |vars[k]| > 0
    ensures SubSeq(r.1, vars)
    ensures forall x :: x in r.1 <==> exists k :: 0 <= k < |vars| && vars[k] == x && !IsText(values[k])
    ensures (forall k :: 0 <= k < |vars| ==> !IsText(values[k])) ==> r.0 == cmd
    decreases |vars|
  {
    if |vars| == 0 then (cmd, [])
    else
      var n := |vars| - 1;
      var prev := Substitute(cmd, vars[..n], values[..n]);
      assert forall k :: 0 <= k < n ==> vars[..n][k] == vars[k] && values[..n][k] == values[k];
      if IsText(values[n]) then (ReplaceAll(prev.0, vars[n], values[n].value.text), prev.1)
      else
        assert (prev.1 + [vars[n]])[..|prev.1|] == prev.1;
        (prev.0, prev.1 + [vars[n]])
  }

  /** The text after the second loop: the string values replace their
      placeholders one after the other, in the order of `var_map`. */
  lemma {:induction false} SubstituteText(cmd: string, vars: seq<string>, values: seq<Option<Node>>)
    requires |vars| == |values|
    requires forall k :: 0 <= k < |vars| ==> |vars[k]| > 0
    ensures Substitute(cmd, vars, values).0 == ReplaceInOrder(cmd, TextSubs(vars, values))
    decreases |vars|
  {
    if |vars| > 0 {
      var n := |vars| - 1;
      assert forall k :: 0 <= k < n ==> vars[..n][k] == vars[k] && values[..n][k] == values[k];
      SubstituteText(cmd, vars[..n], values[..n]);
      if IsText(values[n]) {
        ReplaceInOrderSnoc(cmd, TextSubs(vars[..n], values[..n]), (vars[n], values[n].value.text));
      }
    }
  }

  /** One pass of `resolve_arduino_vars` with resolver `look`. */
  function SubstituteOnce(look: Resolver, pattern: string): (r: Result<(string, seq<string>)>)
    ensures r.Ok? ==> forall i, j :: 0 <= i < j < |r.value.1| ==> r.value.1[i] != r.value.1[j]
    ensures r.Ok? ==> forall v :: v in r.value.1 ==> v in FindBraced(pattern) && Braced(v)
    ensures FindBraced(pattern) == [] ==> r == Ok((pattern, []))
  {
    var vars := Distinct(FindBraced(pattern));
    assert forall k :: 0 <= k < |vars| ==> vars[k] in FindBraced(pattern);
    var values :- LookupAll(look, vars);
    var r := Substitute(pattern, vars, values);
    SubSeqDistinct(r.1, vars);
    Ok(r)
  }

  /** What `var_map` holds after the first loop of a pass that goes
      through. */
  function PassValues(look: Resolver, vars: seq<string>): (r: seq<Option<Node>>)
    ensures |r| == |vars|
    ensures forall k :: 0 <= k < |vars| ==> r[k] == Value(look(vars[k]))
  {
    seq(|vars|, k requires 0 <= k < |vars| => Value(look(vars[k])))
  }

  /** The substitutions a pass makes: each distinct placeholder of the text
      whose lookup gives a string, with that string, in first-occurrence
      order. */
  function PassSubs(look: Resolver, pattern: string): (subs: seq<(string, string)>)
    ensures forall j :: 0 <= j < |subs| ==> subs[j].0 in FindBraced(pattern) && |subs[j].0| > 0
    ensures forall j :: 0 <= j < |subs| ==> Occurs(pattern, subs[j].0)
  {
    var vars := Distinct(FindBraced(pattern));
    var subs := TextSubs(vars, PassValues(look, vars));
    assert forall j :: 0 <= j < |subs| ==> subs[j].0 in FindBraced(pattern);
    forall j | 0 <= j < |subs| ensures Occurs(pattern, subs[j].0) {
      FindBracedOccurs(pattern, 0, subs[j].0);
    }
    subs
  }

  /** The text a pass produces: `cmd.replace(var, value)` for every
      placeholder whose lookup gives a string, in first-occurrence order. */
  lemma PassText(look: Resolver, pattern: string)
    requires SubstituteOnce(look, pattern).Ok?
    ensures SubstituteOnce(look, pattern).value.0 == ReplaceInOrder(pattern, PassSubs(look, pattern))
  {
    var vars := Distinct(FindBraced(pattern));
    assert forall k :: 0 <= k < |vars| ==> vars[k] in FindBraced(pattern);
    var rs := Resolutions(look, vars);
    CatchAllOk(rs);
    var values := LookupAll(look, vars).value;
    assert values == PassValues(look, vars);
    SubstituteText(pattern, vars, values);
  }

  /** The first substitution of a pass (whose text `PassText` gives), by
      the leftmost-occurrence law of `str.replace`: the placeholder occurs
      in the text, the text up to its first occurrence is kept, the
      occurrence becomes the value, and the replacing resumes after it; the
      later substitutions then work on that text. */
  lemma FirstSubstitution(look: Resolver, pattern: string) returns (i: nat)
    requires |PassSubs(look, pattern)| > 0
    ensures var subs := PassSubs(look, pattern);
            var v := subs[0].0;
            && i + |v| <= |pattern| && pattern[i..i + |v|] == v
            && (forall j :: 0 <= j < i ==> !StartsWith(pattern[j..], v))
            && ReplaceInOrder(pattern, subs)
               == ReplaceInOrder(pattern[..i] + subs[0].1 + ReplaceAll(pattern[i + |v|..], v, subs[0].1), subs[1..])
  {
    i := ReplaceFirstOccurring(pattern, PassSubs(look, pattern));
  }

  /** `ReplaceFirstInOrder` at the leftmost occurrence of the first
      pattern, which occurs in the text. */
  lemma ReplaceFirstOccurring(s: string, subs: seq<(string, string)>) returns (i: nat)
    requires |subs| > 0 && forall j :: 0 <= j < |subs| ==> |subs[j].0| > 0
    requires Occurs(s, subs[0].0)
    ensures i + |subs[0].0| <= |s| && s[i..i + |subs[0].0|] == subs[0].0
    ensures forall j :: 0 <= j < i ==> !StartsWith(s[j..], subs[0].0)
    ensures ReplaceInOrder(s, subs)
            == ReplaceInOrder(s[..i] + subs[0].1 + ReplaceAll(s[i + |subs[0].0|..], subs[0].0, subs[0].1), subs[1..])
  {
    i := FirstOccurrence(s, subs[0].0);
    ReplaceFirstInOrder(s, subs, i);
  }

  /** `ReplaceAtFirst` for the first of several substitutions. */
  lemma ReplaceFirstInOrder(s: string, subs: seq<(string, string)>, i: nat)
    requires |subs| > 0 && forall j :: 0 <= j < |subs| ==> |subs[j].0| > 0
    requires i + |subs[0].0| <= |s| && s[i..i + |subs[0].0|] == subs[0].0
    requires forall j :: 0 <= j < i ==> !StartsWith(s[j..], subs[0].0)
    ensures ReplaceInOrder(s, subs)
            == ReplaceInOrder(s[..i] + subs[0].1 + ReplaceAll(s[i + |subs[0].0|..], subs[0].0, subs[0].1), subs[1..])
  {
    ReplaceAtFirst(s, subs[0].0, subs[0].1, i);
    ReplaceInOrderCons(s, subs);
  }

  lemma ReplaceInOrderCons(s: string, subs: seq<(string, string)>)
    requires |subs| > 0 && forall j :: 0 <= j < |subs| ==> |subs[j].0| > 0
    ensures ReplaceInOrder(s, subs) == ReplaceInOrder(ReplaceAll(s, subs[0].0, subs[0].1), subs[1..])
  {
  }

  /** `resolve_arduino_vars(pattern, extra_dicts)` for the dictionaries
      `[combined_config] + extra_dicts`. */
  function ResolveArduinoVars(dicts: seq<Config>, cpu: Option<string>, pattern: string)
    : Result<(string, seq<string>)>
  {
    SubstituteOnce(BoardLookup(dicts, cpu), pattern)
  }

  /** A pass fails exactly when the lookup of one of the text's
      placeholders raises an error other than `ValueError`, and then with
      the error of such a placeholder. */
  lemma PassFails(look: Resolver, pattern: string)
    ensures SubstituteOnce(look, pattern).Err?
        <==> exists v :: v in FindBraced(pattern) && Escapes(look(v))
    ensures SubstituteOnce(look, pattern).Err? ==> exists v ::
              v in FindBraced(pattern) && Escapes(look(v))
              && SubstituteOnce(look, pattern).error == look(v).error
  {
    var vars := Distinct(FindBraced(pattern));
    var rs := Resolutions(look, vars);
    CatchAllOk(rs);
    if exists v :: v in FindBraced(pattern) && Escapes(look(v)) {
      var v :| v in FindBraced(pattern) && Escapes(look(v));
      var k := FirstIndex(vars, v);
      assert Escapes(rs[k]);
    }
    if CatchAll(rs).Err? {
      var k := CatchAllError(rs);
      assert vars[k] in FindBraced(pattern);
    }
  }

  /** Leaving elements out of a list without repeats gives a list without
      repeats. */
  lemma {:induction false} SubSeqDistinct(a: seq<string>, b: seq<string>)
    requires SubSeq(a, b)
    requires forall i, j :: 0 <= i < j < |b| ==> b[i] != b[j]
    ensures forall i, j :: 0 <= i < j < |a| ==> a[i] != a[j]
    ensures forall x :: x in a ==> x in b
    decreases |b|
  {
    if |a| > 0 {
      var b' := b[..|b| - 1];
      assert forall i, j :: 0 <= i < j < |b'| ==> b'[i] != b'[j];
      if a[|a| - 1] == b[|b| - 1] && SubSeq(a[..|a| - 1], b') {
        var a' := a[..|a| - 1];
        SubSeqDistinct(a', b');
        assert a == a' + [a[|a| - 1]];
        assert b[|b| - 1] !in b';
        forall i, j | 0 <= i < j < |a| ensures a[i] != a[j] {
          if j == |a| - 1 {
            assert a[i] == a'[i] && a'[i] in b';
          } else {
            assert a[i] == a'[i] && a[j] == a'[j];
          }
        }
      } else {
        SubSeqDistinct(a, b');
      }
    }
  }

  /** A placeholder of the text is left unresolved exactly when its lookup
      does not give a string: it is missing, a mapping, or not well formed. */
  lemma PassUnresolved(look: Resolver, pattern: string, v: string)
    requires SubstituteOnce(look, pattern).Ok?
    ensures v in SubstituteOnce(look, pattern).value.1
        <==> v in FindBraced(pattern) && !IsText(Value(look(v)))
  {
    var vars := Distinct(FindBraced(pattern));
    CatchAllOk(Resolutions(look, vars));
    var values := LookupAll(look, vars).value;
    if v in FindBraced(pattern) {
      var k := FirstIndex(vars, v);
      assert values[k] == Value(look(v));
    }
  }

  // ---------------------------------------------------------------------
  // Repeated passes: `resolve_recursive`
  // ---------------------------------------------------------------------

  /** One substitution pass, as a function of the text. */
  type Pass = string -> Result<(string, seq<string>)>

  /** `resolve_arduino_vars` with the resolver fixed. */
  function PassWith(look: Resolver): Pass {
    p => SubstituteOnce(look, p)
  }

  /** The `while` loop of `resolve_recursive`, from text `s` with its
      unresolved list `u` and the previous scan `prev` (`None` before the
      loop's first round), with `fuel` more passes allowed. */
  function Settle(pass: Pass, s: string, u: seq<string>, prev: Option<seq<string>>, fuel: nat)
    : (r: Result<Option<(string, seq<string>)>>)
    decreases fuel
  {
    if prev == Some(FindVariables(s)) then Ok(Some((s, u)))
    else if fuel == 0 then Ok(None)
    else
      var next :- pass(s);
      Settle(pass, next.0, next.1, Some(FindVariables(s)), fuel - 1)
  }

  /** The body of `resolve_recursive` for a given pass, allowed `fuel`
      passes after the first; `None` when the loop had not stopped by then.
      The quotes are removed from the final text. */
  function Recursive(pass: Pass, s: string, fuel: nat): (r: Result<Option<(string, seq<string>)>>)
    ensures r.Ok? && r.value.Some? ==> '\'' !in r.value.value.0
  {
    var first :- pass(s);
    var settled :- Settle(pass, first.0, first.1, None, fuel);
    match settled
    case None => Ok(None)
    case Some(p) =>
      ReplaceCharByNothing(p.0, '\'');
      Ok(Some((ReplaceAll(p.0, "'", ""), p.1)))
  }

  /** `resolve_recursive(config_str, extra_dicts)` for the dictionaries
      `[combined_config] + extra_dicts`. */
  function ResolveRecursive(dicts: seq<Config>, cpu: Option<string>, s: string, fuel: nat)
    : Result<Option<(string, seq<string>)>>
  {
    Recursive(PassWith(BoardLookup(dicts, cpu)), s, fuel)
  }

  /** The text and unresolved list after `n` passes. */
  function Passes(pass: Pass, s: string, n: nat): Result<(string, seq<string>)> {
    if n == 0 then Ok((s, []))
    else
      var p :- Passes(pass, s, n - 1);
      pass(p.0)
  }

  /** Passes `m - 1` and `m` both succeed and their scans for digit-free
      placeholders differ, so the loop goes on after pass `m`. */
  predicate Moves(pass: Pass, s: string, m: nat)
    requires m >= 1
  {
    && Passes(pass, s, m - 1).Ok? && Passes(pass, s, m).Ok?
    && FindVariables(Passes(pass, s, m).value.0) != FindVariables(Passes(pass, s, m - 1).value.0)
  }

  /** The loop's previous scan after pass `k`, where `k >= 1`. */
  function Previous(pass: Pass, s: string, k: nat): Option<seq<string>>
    requires k >= 1 && Passes(pass, s, k - 1).Ok?
  {
    if k == 1 then None else Some(FindVariables(Passes(pass, s, k - 1).value.0))
  }

  /** The loop, entered after pass `k`, stops at the first later pass whose
      scan equals the one before. */
  lemma {:induction false} SettleStops(pass: Pass, s: string, k: nat, fuel: nat) returns (n: nat)
    requires k >= 1 && Passes(pass, s, k).Ok?
    requires forall m :: 2 <= m < k ==> Moves(pass, s, m)
    requires var p := Passes(pass, s, k).value;
      Settle(pass, p.0, p.1, Previous(pass, s, k), fuel).Ok?
    requires var p := Passes(pass, s, k).value;
      Settle(pass, p.0, p.1, Previous(pass, s, k), fuel).value.Some?
    ensures 2 <= n && k <= n <= k + fuel && Passes(pass, s, n).Ok? && Passes(pass, s, n - 1).Ok?
    ensures FindVariables(Passes(pass, s, n).value.0) == FindVariables(Passes(pass, s, n - 1).value.0)
    ensures forall m :: 2 <= m < n ==> Moves(pass, s, m)
    ensures var p := Passes(pass, s, k).value;
      Settle(pass, p.0, p.1, Previous(pass, s, k), fuel) == Ok(Some(Passes(pass, s, n).value))
    decreases fuel
  {
    var p := Passes(pass, s, k).value;
    var prev := Previous(pass, s, k);
    if prev == Some(FindVariables(p.0)) {
      n := k;
    } else {
      var next := pass(p.0).value;
      assert Passes(pass, s, k + 1) == Ok(next);
      n := SettleStops(pass, s, k + 1, fuel - 1);
    }
  }

  /** A run that stops has made `n >= 2` passes: the scans after passes
      `n - 1` and `n` agree, no two earlier consecutive scans do, and the
      result is the text of pass `n` without quotes together with the
      unresolved list of pass `n`. */
  lemma RecursiveStops(pass: Pass, s: string, fuel: nat) returns (n: nat)
    requires Recursive(pass, s, fuel).Ok? && Recursive(pass, s, fuel).value.Some?
    ensures 2 <= n <= fuel + 1 && Passes(pass, s, n).Ok? && Passes(pass, s, n - 1).Ok?
    ensures FindVariables(Passes(pass, s, n).value.0) == FindVariables(Passes(pass, s, n - 1).value.0)
    ensures forall m :: 2 <= m < n ==> Moves(pass, s, m)
    ensures Recursive(pass, s, fuel).value.value
         == (Without(Passes(pass, s, n).value.0, '\''), Passes(pass, s, n).value.1)
  {
    assert Passes(pass, s, 1) == pass(s);
    n := SettleStops(pass, s, 1, fuel);
    ReplaceCharByNothing(Passes(pass, s, n).value.0, '\'');
  }

  /** The converse of `SettleStops`: entered after pass `k`, a loop whose
      passes keep moving until pass `n`, where the scans agree, stops there
      and returns pass `n`, provided the fuel reaches it. */
  lemma {:induction false} SettleReaches(pass: Pass, s: string, k: nat, n: nat, fuel: nat)
    requires 1 <= k <= n && 2 <= n && n <= k + fuel
    requires Passes(pass, s, k).Ok? && Passes(pass, s, n).Ok? && Passes(pass, s, n - 1).Ok?
    requires FindVariables(Passes(pass, s, n).value.0) == FindVariables(Passes(pass, s, n - 1).value.0)
    requires forall m :: 2 <= m < n ==> Moves(pass, s, m)
    ensures var p := Passes(pass, s, k).value;
      Settle(pass, p.0, p.1, Previous(pass, s, k), fuel) == Ok(Some(Passes(pass, s, n).value))
    decreases n - k
  {
    if k < n {
      var p := Passes(pass, s, k).value;
      if k >= 2 {
        assert Moves(pass, s, k);
      }
      assert Passes(pass, s, k + 1) == pass(p.0);
      if k + 1 < n {
        assert Moves(pass, s, k + 1);
      }
      SettleReaches(pass, s, k + 1, n, fuel - 1);
    }
  }

  /** A run whose scans first agree after pass `n`, within the fuel, returns
      the text of pass `n` without quotes and its unresolved list. With
      `RecursiveStops`, `Some` means exactly that the loop stopped within
      the fuel. */
  lemma RecursiveSettles(pass: Pass, s: string, fuel: nat, n: nat)
    requires 2 <= n <= fuel + 1 && Passes(pass, s, n).Ok? && Passes(pass, s, n - 1).Ok?
    requires FindVariables(Passes(pass, s, n).value.0) == FindVariables(Passes(pass, s, n - 1).value.0)
    requires forall m :: 2 <= m < n ==> Moves(pass, s, m)
    ensures Recursive(pass, s, fuel)
         == Ok(Some((Without(Passes(pass, s, n).value.0, '\''), Passes(pass, s, n).value.1)))
  {
    assert Passes(pass, s, 1) == pass(s);
    if n > 2 {
      assert Moves(pass, s, 2);
    }
    SettleReaches(pass, s, 1, n, fuel);
    ReplaceCharByNothing(Passes(pass, s, n).value.0, '\'');
  }

  /** Entered after pass `k`, a loop whose passes keep moving fails with the
      error of pass `n` when that pass fails within the fuel. */
  lemma {:induction false} SettleFails(pass: Pass, s: string, k: nat, n: nat, fuel: nat)
    requires 1 <= k < n <= k + fuel
    requires Passes(pass, s, k).Ok? && Passes(pass, s, n).Err?
    requires forall m :: 2 <= m < n ==> Moves(pass, s, m)
    ensures var p := Passes(pass, s, k).value;
      Settle(pass, p.0, p.1, Previous(pass, s, k), fuel) == Err(Passes(pass, s, n).error)
    decreases n - k
  {
    var p := Passes(pass, s, k).value;
    if k >= 2 {
      assert Moves(pass, s, k);
    }
    assert Passes(pass, s, k + 1) == pass(p.0);
    if k + 1 < n {
      assert Moves(pass, s, k + 1);
      SettleFails(pass, s, k + 1, n, fuel - 1);
    }
  }

  /** A run whose passes keep moving until pass `n`, the first to fail,
      within the fuel, raises the error of that pass. */
  lemma RecursiveFails(pass: Pass, s: string, fuel: nat, n: nat)
    requires 1 <= n <= fuel + 1 && Passes(pass, s, n - 1).Ok? && Passes(pass, s, n).Err?
    requires forall m :: 2 <= m < n ==> Moves(pass, s, m)
    ensures Recursive(pass, s, fuel) == Err(Passes(pass, s, n).error)
  {
    assert Passes(pass, s, 1) == pass(s);
    if n > 1 {
      if n > 2 {
        assert Moves(pass, s, 2);
      }
      SettleFails(pass, s, 1, n, fuel);
    }
  }

  /** More fuel does not change a loop that stops. */
  lemma {:induction false} SettleMoreFuel(pass: Pass, s: string, u: seq<string>,
                                          prev: Option<seq<string>>, fuel: nat, more: nat)
    requires Settle(pass, s, u, prev, fuel).Ok? && Settle(pass, s, u, prev, fuel).value.Some?
    requires fuel <= more
    ensures Settle(pass, s, u, prev, more) == Settle(pass, s, u, prev, fuel)
    decreases fuel
  {
    if prev != Some(FindVariables(s)) {
      var next := pass(s).value;
      SettleMoreFuel(pass, next.0, next.1, Some(FindVariables(s)), fuel - 1, more - 1);
    }
  }

  /** More fuel does not change a run that stops. */
  lemma MoreFuel(pass: Pass, s: string, fuel: nat, more: nat)
    requires Recursive(pass, s, fuel).Ok? && Recursive(pass, s, fuel).value.Some?
    requires fuel <= more
    ensures Recursive(pass, s, more) == Recursive(pass, s, fuel)
  {
    var first := pass(s).value;
    SettleMoreFuel(pass, first.0, first.1, None, fuel, more);
  }

  /** With no text values, a pass changes nothing and lists every
      placeholder. */
  lemma {:induction false} SubstituteNoText(cmd: string, vars: seq<string>, values: seq<Option<Node>>)
    requires |vars| == |values|
    requires forall k :: 0 <= k < |vars| ==> |vars[k]| > 0
    requires forall k :: 0 <= k < |values| ==> !IsText(values[k])
    ensures Substitute(cmd, vars, values) == (cmd, vars)
    decreases |vars|
  {
    if |vars| > 0 {
      var n := |vars| - 1;
      SubstituteNoText(cmd, vars[..n], values[..n]);
      assert vars[..n] + [vars[n]] == vars;
    }
  }

  /** When every lookup raises `ValueError` (as with cpu `""`, see
      `Lookup.EmptyCpuFails`), a run stops after two passes with the text
      unchanged but for its quotes and every placeholder unresolved. */
  lemma NothingResolves(look: Resolver, s: string, fuel: nat)
    requires forall v :: look(v).Err? && look(v).error.ValueError?
    requires fuel >= 1
    ensures SubstituteOnce(look, s) == Ok((s, Distinct(FindBraced(s))))
    ensures Recursive(PassWith(look), s, fuel) == Ok(Some((Without(s, '\''), Distinct(FindBraced(s)))))
  {
    var vars := Distinct(FindBraced(s));
    assert forall k :: 0 <= k < |vars| ==> vars[k] in FindBraced(s);
    var rs := Resolutions(look, vars);
    CatchAllOk(rs);
    SubstituteNoText(s, vars, LookupAll(look, vars).value);
    var pass := PassWith(look);
    assert pass(s) == Ok((s, vars));
    assert Settle(pass, s, vars, Some(FindVariables(s)), fuel - 1) == Ok(Some((s, vars)));
    assert Settle(pass, s, vars, None, fuel) == Ok(Some((s, vars)));
    ReplaceCharByNothing(s, '\'');
  }

  // ---------------------------------------------------------------------
  // Worked examples, for any resolver with the stated lookups
  // ---------------------------------------------------------------------

  /** The text `{x}`. */
  function Single(x: char): string {
    ['{', x, '}']
  }

  /** A text that is a single placeholder `{x}`: both patterns see it. */
  lemma SinglePlaceholder(x: char)
    requires 'a' <= x <= 'z'
    ensures FindBraced(Single(x)) == [Single(x)]
    ensures FindVariables(Single(x)) == [Single(x)]
  {
    var v := Single(x);
    assert CloseAt(v, 2) == Some(2);
    assert CloseAt(v, 1) == Some(2);
    assert v[0..3] == v && v[0..] == v;
    assert FindBracedFrom(v, 0) == [v] + FindBracedFrom(v, 3);
    assert ScanTail(LettersOnly, v, 2) == Some(3);
    assert Scan(LettersOnly, v) == Some(3);
    assert FindVariablesFrom(v, 0) == [v] + FindVariablesFrom(v, 3);
  }

  /** One pass over a single placeholder `{x}`. */
  lemma PassOverSingle(look: Resolver, x: char)
    requires 'a' <= x <= 'z'
    ensures var v := Single(x);
      SubstituteOnce(look, v) == (
        if Escapes(look(v)) then Err(look(v).error)
        else if IsText(Value(look(v))) then Ok((Value(look(v)).value.text, []))
        else Ok((v, [v])))
  {
    var v := Single(x);
    SinglePlaceholder(x);
    assert Distinct([v]) == [v];
    CatchAllOk(Resolutions(look, [v]));
    if !Escapes(look(v)) && IsText(Value(look(v))) {
      ReplaceWhole(v, Value(look(v)).value.text);
    }
  }

  /** A text without placeholders is a fixed point of every pass. */
  lemma PassOverPlain(look: Resolver, d: string)
    requires '{' !in d
    ensures SubstituteOnce(look, d) == Ok((d, [])) && FindVariables(d) == []
  {
    NoBraceNoMatch(d);
  }

  /** `{x}` with x -> `{y}` and y -> a text `d` without placeholders (say
      a -> `{b}`, b -> `done`) settles on `d` with nothing unresolved
      after three passes, and not before. */
  lemma NestedResolves(look: Resolver, x: char, y: char, d: string)
    requires 'a' <= x <= 'z' && 'a' <= y <= 'z'
    requires '{' !in d && '\'' !in d
    requires look(Single(x)) == Ok(Some(Leaf(Single(y))))
    requires look(Single(y)) == Ok(Some(Leaf(d)))
    ensures Recursive(PassWith(look), Single(x), 2) == Ok(Some((d, [])))
    ensures Recursive(PassWith(look), Single(x), 1) == Ok(None)
  {
    var pass := PassWith(look);
    PassOverSingle(look, x);
    PassOverSingle(look, y);
    PassOverPlain(look, d);
    SinglePlaceholder(y);
    assert pass(Single(x)) == Ok((Single(y), []));
    assert pass(Single(y)) == Ok((d, []));
    assert Settle(pass, d, [], Some([]), 0) == Ok(Some((d, [])));
    assert Settle(pass, d, [], Some([Single(y)]), 1) == Ok(Some((d, [])));
    assert Settle(pass, d, [], Some([Single(y)]), 0) == Ok(None);
    assert Settle(pass, Single(y), [], None, 2) == Ok(Some((d, [])));
    assert Settle(pass, Single(y), [], None, 1) == Ok(None);
    ReplaceCharByNothing(d, '\'');
  }

  /** `{x}` with x -> `{x}` stops after two passes with the text unchanged. */
  lemma SelfReferenceStops(look: Resolver, x: char)
    requires 'a' <= x <= 'z'
    requires look(Single(x)) == Ok(Some(Leaf(Single(x))))
    ensures Recursive(PassWith(look), Single(x), 1) == Ok(Some((Single(x), [])))
  {
    var pass := PassWith(look);
    PassOverSingle(look, x);
    SinglePlaceholder(x);
    assert pass(Single(x)) == Ok((Single(x), []));
    assert Settle(pass, Single(x), [], Some(FindVariables(Single(x))), 0) == Ok(Some((Single(x), [])));
    ReplaceCharByNothing(Single(x), '\'');
  }

  /** A placeholder whose path is missing stays verbatim and is reported. */
  lemma MissingStaysVerbatim(look: Resolver, x: char)
    requires 'a' <= x <= 'z'
    requires look(Single(x)) == Ok(None)
    ensures Recursive(PassWith(look), Single(x), 1) == Ok(Some((Single(x), [Single(x)])))
  {
    var pass := PassWith(look);
    PassOverSingle(look, x);
    SinglePlaceholder(x);
    assert pass(Single(x)) == Ok((Single(x), [Single(x)]));
    assert Settle(pass, Single(x), [Single(x)], Some(FindVariables(Single(x))), 0)
        == Ok(Some((Single(x), [Single(x)])));
    ReplaceCharByNothing(Single(x), '\'');
  }

  /** With x -> `{y}` and y -> `{x}` for two letters, the scans alternate
      forever: no amount of fuel lets the loop stop. */
  lemma Oscillates(look: Resolver, x: char, y: char, fuel: nat)
    requires 'a' <= x <= 'z' && 'a' <= y <= 'z' && x != y
    requires look(Single(x)) == Ok(Some(Leaf(Single(y))))
    requires look(Single(y)) == Ok(Some(Leaf(Single(x))))
    ensures Recursive(PassWith(look), Single(x), fuel) == Ok(None)
  {
    var pass := PassWith(look);
    PassOverSingle(look, x);
    SinglePlaceholder(x);
    assert pass(Single(x)) == Ok((Single(y), []));
    if fuel > 0 {
      Alternates(look, x, y, fuel - 1);
      Alternates(look, y, x, fuel);
    } else {
      Alternates(look, y, x, 0);
    }
  }

  /** One state of the oscillation: `{x}` after a scan that found `{y}`. */
  lemma {:induction false} Alternates(look: Resolver, x: char, y: char, fuel: nat)
    requires 'a' <= x <= 'z' && 'a' <= y <= 'z' && x != y
    requires look(Single(x)) == Ok(Some(Leaf(Single(y))))
    requires look(Single(y)) == Ok(Some(Leaf(Single(x))))
    ensures Settle(PassWith(look), Single(x), [], Some([Single(y)]), fuel) == Ok(None)
    ensures Settle(PassWith(look), Single(x), [], None, fuel) == Ok(None)
    decreases fuel
  {
    PassOverSingle(look, x);
    SinglePlaceholder(x);
    assert Single(x) != Single(y) by { assert Single(x)[1] != Single(y)[1]; }
    assert PassWith(look)(Single(x)) == Ok((Single(y), []));
    if fuel > 0 {
      Alternates(look, y, x, fuel - 1);
    }
  }
}
