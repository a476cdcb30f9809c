/** `merge` from arduino_helpers/hardware/__init__.py: a deep merge of two
    configuration dictionaries in which the left operand always wins.

    The source mutates its left argument and logs a warning per conflict;
    here the merged dictionary is a new value and the conflicts are returned
    as the set of key paths the warnings name (the dotted text of a warning
    is `Strings.Join(path, '.')`).
 */
module Merging {
  import opened Failures
  import opened Tree

  /** The dictionary `merge(a, b)` leaves in `a`. */
  function Merge(a: Config, b: Config): (r: Config)
    ensures r.Keys == a.Keys + b.Keys
    decreases Map(b)
  {
    map k | k in a.Keys + b.Keys ::
      if k !in a then b[k]
      else if k in b && a[k].Map? && b[k].Map? then Map(Merge(a[k].children, b[k].children))
      else a[k]
  }

  /** The key paths at which `merge(a, b)` logs a conflict: both sides hold
      a value there, the values differ, and they are not both mappings. */
  function Conflicts(a: Config, b: Config): set<seq<string>>
    decreases Map(b)
  {
    (set k | k in a && k in b && !(a[k].Map? && b[k].Map?) && a[k] != b[k] :: [k])
    + (set k, q | k in a && k in b && a[k].Map? && b[k].Map?
                  && q in Conflicts(a[k].children, b[k].children) :: [k] + q)
  }

  /** What a call of `merge` produces: the merged dictionary and the paths
      of its warnings. */
  datatype Merged = Merged(tree: Config, conflicts: set<seq<string>>)

  function MergeLogged(a: Config, b: Config): (r: Merged)
    ensures r.tree.Keys == a.Keys + b.Keys
    ensures forall k :: k in b && k !in a ==> r.tree[k] == b[k]
    ensures forall k :: k in a && k in b && !(a[k].Map? && b[k].Map?) ==>
              r.tree[k] == a[k] && (a[k] != b[k] <==> [k] in r.conflicts)
    ensures forall p :: p in r.conflicts ==> |p| > 0 && p[0] in a && p[0] in b
  {
    assert forall k :: k in a && k in b && !(a[k].Map? && b[k].Map?) ==>
             (a[k] != b[k] <==> [k] in Conflicts(a, b)) by {
      forall k | k in a && k in b && !(a[k].Map? && b[k].Map?)
        ensures a[k] != b[k] <==> [k] in Conflicts(a, b)
      {
        ConflictsHead(a, b, k, []);
      }
    }
    assert forall p :: p in Conflicts(a, b) ==> |p| > 0 && p[0] in a && p[0] in b by {
      forall p | p in Conflicts(a, b) ensures |p| > 0 && p[0] in a && p[0] in b {
        ConflictsHeadOf(a, b, p);
      }
    }
    Merged(Merge(a, b), Conflicts(a, b))
  }

  // ---------------------------------------------------------------------
  // Reference characterisations
  // ---------------------------------------------------------------------

  /** Both operands hold a value at `p`, the values differ, and they are not
      both mappings. */
  ghost predicate ConflictAt(a: Config, b: Config, p: seq<string>) {
    && |p| > 0
    && GetPath(Map(a), p).Some? && GetPath(Map(b), p).Some?
    && GetPath(Map(a), p).value != GetPath(Map(b), p).value
    && !(GetPath(Map(a), p).value.Map? && GetPath(Map(b), p).value.Map?)
  }

  /** Leaf `v` at `p` can be added to `a` without clashing: the walk along
      `p` leaves `a`, or meets only mappings and ends on that same leaf. */
  predicate Fits(a: Config, p: seq<string>, v: string)
    decreases |p|
  {
    |p| > 0 ==>
      || p[0] !in a
      || (|p| == 1 && a[p[0]] == Leaf(v))
      || (|p| > 1 && a[p[0]].Map? && Fits(a[p[0]].children, p[1..], v))
  }

  // ---------------------------------------------------------------------
  // Properties
  // ---------------------------------------------------------------------

  /** Every logged path starts with a key both operands hold. */
  lemma ConflictsHeadOf(a: Config, b: Config, p: seq<string>)
    requires p in Conflicts(a, b)
    ensures |p| > 0 && p[0] in a && p[0] in b
  {
    if !exists k :: k in a && k in b && !(a[k].Map? && b[k].Map?) && a[k] != b[k] && p == [k] {
      var k, q :| k in a && k in b && a[k].Map? && b[k].Map?
                  && q in Conflicts(a[k].children, b[k].children) && p == [k] + q;
    }
  }

  /** How a logged path decomposes at its first key. */
  lemma ConflictsHead(a: Config, b: Config, k: string, q: seq<string>)
    ensures [k] + q in Conflicts(a, b) <==>
      && k in a && k in b
      && (|| (q == [] && !(a[k].Map? && b[k].Map?) && a[k] != b[k])
          || (a[k].Map? && b[k].Map? && q in Conflicts(a[k].children, b[k].children)))
  {
    var p := [k] + q;
    if p in Conflicts(a, b) {
      if exists k' :: k' in a && k' in b && !(a[k'].Map? && b[k'].Map?) && a[k'] != b[k'] && p == [k'] {
        var k' :| k' in a && k' in b && !(a[k'].Map? && b[k'].Map?) && a[k'] != b[k'] && p == [k'];
        assert k' == p[0] == k;
        assert q == p[1..] == [];
      } else {
        var k', q' :| k' in a && k' in b && a[k'].Map? && b[k'].Map?
                      && q' in Conflicts(a[k'].children, b[k'].children) && p == [k'] + q';
        assert k' == p[0] == k;
        assert q' == p[1..] == q;
      }
    } else if k in a && k in b {
      if a[k].Map? && b[k].Map? {
        assert q !in Conflicts(a[k].children, b[k].children);
      } else if q == [] {
        assert p == [k];
      }
    }
  }

  /** A conflict is logged exactly at the paths where the operands clash. */
  lemma {:induction false} ConflictsExactly(a: Config, b: Config, p: seq<string>)
    ensures p in Conflicts(a, b) <==> ConflictAt(a, b, p)
    decreases |p|
  {
    if |p| == 0 {
      if p in Conflicts(a, b) { ConflictsHeadOf(a, b, p); }
    } else {
      var k, q := p[0], p[1..];
      assert p == [k] + q;
      ConflictsHead(a, b, k, q);
      if k in a && k in b {
        assert GetPath(Map(a), p) == GetPath(a[k], q);
        assert GetPath(Map(b), p) == GetPath(b[k], q);
        if a[k].Map? && b[k].Map? {
          ConflictsExactly(a[k].children, b[k].children, q);
        }
      }
    }
  }

  /** The left operand wins: a leaf of `a` is still there after merging. */
  lemma {:induction false} LeftLeafKept(a: Config, b: Config, p: seq<string>, v: string)
    requires GetPath(Map(a), p) == Some(Leaf(v))
    ensures GetPath(Map(Merge(a, b)), p) == Some(Leaf(v))
    decreases |p|
  {
    var k := p[0];
    var r := Merge(a, b);
    if k in b && a[k].Map? && b[k].Map? {
      LeftLeafKept(a[k].children, b[k].children, p[1..], v);
    }
  }

  /** Nothing is invented: every leaf of the result comes from an operand. */
  lemma {:induction false} MergedLeafFromOperand(a: Config, b: Config, p: seq<string>, v: string)
    requires GetPath(Map(Merge(a, b)), p) == Some(Leaf(v))
    ensures GetPath(Map(a), p) == Some(Leaf(v)) || GetPath(Map(b), p) == Some(Leaf(v))
    decreases |p|
  {
    var k := p[0];
    if k in a && k in b && a[k].Map? && b[k].Map? {
      MergedLeafFromOperand(a[k].children, b[k].children, p[1..], v);
    }
  }

  /** The right operand fills gaps: a leaf of `b` that fits `a` arrives. */
  lemma {:induction false} RightLeafFills(a: Config, b: Config, p: seq<string>, v: string)
    requires GetPath(Map(b), p) == Some(Leaf(v))
    requires Fits(a, p, v)
    ensures GetPath(Map(Merge(a, b)), p) == Some(Leaf(v))
    decreases |p|
  {
    var k := p[0];
    if k in a && |p| > 1 {
      RightLeafFills(a[k].children, b[k].children, p[1..], v);
    }
  }

  /** A leaf of `b` fails to fit `a` exactly when a conflict is logged on
      its path. */
  lemma {:induction false} FitsIffNoConflict(a: Config, b: Config, p: seq<string>, v: string)
    requires GetPath(Map(b), p) == Some(Leaf(v))
    ensures Fits(a, p, v) <==> forall i :: 1 <= i <= |p| ==> p[..i] !in Conflicts(a, b)
    decreases |p|
  {
    var k, q := p[0], p[1..];
    if k in a && a[k].Map? && b[k].Map? {
      assert GetPath(Map(b[k].children), q) == Some(Leaf(v));
      FitsIffNoConflict(a[k].children, b[k].children, q, v);
      NoConflictsBelow(a, b, p);
    } else if k in a {
      ConflictsHead(a, b, k, []);
      assert p[..1] == [k];
      if |q| == 0 {
        assert b[k] == Leaf(v);
      } else {
        assert b[k].Map?;
      }
    } else {
      forall i | 1 <= i <= |p| ensures p[..i] !in Conflicts(a, b) {
        if p[..i] in Conflicts(a, b) { ConflictsHeadOf(a, b, p[..i]); }
      }
    }
  }

  /** Below a key where both operands hold mappings, the prefixes of a path
      that are logged are the prefixes logged by the merge of the children. */
  lemma NoConflictsBelow(a: Config, b: Config, p: seq<string>)
    requires |p| > 0 && p[0] in a && p[0] in b && a[p[0]].Map? && b[p[0]].Map?
    ensures (forall i :: 1 <= i <= |p| ==> p[..i] !in Conflicts(a, b))
        <==> (forall i :: 1 <= i <= |p| - 1 ==>
                p[1..][..i] !in Conflicts(a[p[0]].children, b[p[0]].children))
  {
    var k, q := p[0], p[1..];
    forall i | 1 <= i <= |p|
      ensures p[..i] in Conflicts(a, b) <==> q[..i - 1] in Conflicts(a[k].children, b[k].children)
    {
      ConflictBelow(a, b, p, i);
    }
    if forall i :: 1 <= i <= |q| ==> q[..i] !in Conflicts(a[k].children, b[k].children) {
      forall i | 1 <= i <= |p| ensures p[..i] !in Conflicts(a, b) {
        if i >= 2 { assert q[..i - 1] !in Conflicts(a[k].children, b[k].children); }
      }
    } else {
      var i :| 1 <= i <= |q| && q[..i] in Conflicts(a[k].children, b[k].children);
      assert p[..i + 1] in Conflicts(a, b);
    }
  }

  lemma ConflictBelow(a: Config, b: Config, p: seq<string>, i: nat)
    requires |p| > 0 && p[0] in a && p[0] in b && a[p[0]].Map? && b[p[0]].Map?
    requires 1 <= i <= |p|
    ensures p[..i] in Conflicts(a, b) <==> p[1..][..i - 1] in Conflicts(a[p[0]].children, b[p[0]].children)
  {
    var q' := p[1..][..i - 1];
    assert p[..i] == [p[0]] + q';
    ConflictsHead(a, b, p[0], q');
  }

  /** A leaf that fits both operands fits their merge. */
  lemma {:induction false} FitsMerge(a: Config, b: Config, p: seq<string>, v: string)
    requires Fits(a, p, v) && Fits(b, p, v)
    ensures Fits(Merge(a, b), p, v)
    decreases |p|
  {
    if |p| > 1 {
      var k := p[0];
      if k in a && k in b && a[k].Map? && b[k].Map? {
        FitsMerge(a[k].children, b[k].children, p[1..], v);
      }
    }
  }

  /** Merging a dictionary into itself changes nothing and logs nothing. */
  lemma {:induction false} MergeSelf(x: Config)
    ensures Merge(x, x) == x
    ensures Conflicts(x, x) == {}
    decreases Map(x)
  {
    var r := Merge(x, x);
    forall k | k in x && x[k].Map?
      ensures Merge(x[k].children, x[k].children) == x[k].children
      ensures Conflicts(x[k].children, x[k].children) == {}
    {
      MergeSelf(x[k].children);
    }
    assert forall k :: k in x ==> r[k] == x[k];
  }

  /** `merge(a, {})` and `merge({}, b)` return the other operand unchanged
      and log nothing. */
  lemma MergeWithEmpty(a: Config, b: Config)
    ensures Merge(a, map[]) == a && Conflicts(a, map[]) == {}
    ensures Merge(map[], b) == b && Conflicts(map[], b) == {}
  {
    MergeEmptyRight(a);
    MergeEmptyLeft(b);
    NoConflictsWithEmpty(a, b);
  }

  lemma MergeEmptyRight(a: Config)
    ensures Merge(a, map[]) == a
  {
    var r := Merge(a, map[]);
    assert forall k :: k in a ==> r[k] == a[k];
  }

  lemma MergeEmptyLeft(b: Config)
    ensures Merge(map[], b) == b
  {
    var r := Merge(map[], b);
    assert forall k :: k in b ==> r[k] == b[k];
  }

  lemma NoConflictsWithEmpty(a: Config, b: Config)
    ensures Conflicts(a, map[]) == {} && Conflicts(map[], b) == {}
  {
    forall p | p in Conflicts(a, map[]) ensures false { ConflictsHeadOf(a, map[], p); }
    forall p | p in Conflicts(map[], b) ensures false { ConflictsHeadOf(map[], b, p); }
  }

  /** Merging the same right operand a second time changes nothing. */
  lemma {:induction false} MergeIdempotent(a: Config, b: Config)
    ensures Merge(Merge(a, b), b) == Merge(a, b)
    decreases Map(b)
  {
    var r := Merge(a, b);
    var r2 := Merge(r, b);
    forall k | k in r
      ensures r2[k] == r[k]
    {
      if k in a && k in b && a[k].Map? && b[k].Map? {
        MergeIdempotent(a[k].children, b[k].children);
      } else if k in b && k !in a && b[k].Map? {
        MergeSelf(b[k].children);
      }
    }
  }

  /** Merging the same right operand a second time logs exactly the
      conflicts logged the first time. */
  lemma {:induction false} RemergeSameConflicts(a: Config, b: Config)
    ensures Conflicts(Merge(a, b), b) == Conflicts(a, b)
    decreases Map(b)
  {
    var r := Merge(a, b);
    forall p | p in Conflicts(r, b) || p in Conflicts(a, b)
      ensures p in Conflicts(r, b) <==> p in Conflicts(a, b)
    {
      if p in Conflicts(r, b) { ConflictsHeadOf(r, b, p); } else { ConflictsHeadOf(a, b, p); }
      var k, q := p[0], p[1..];
      assert p == [k] + q;
      ConflictsHead(r, b, k, q);
      ConflictsHead(a, b, k, q);
      if k in a && k in b && a[k].Map? && b[k].Map? {
        RemergeSameConflicts(a[k].children, b[k].children);
      } else if k !in a && b[k].Map? {
        MergeSelf(b[k].children);
      }
    }
  }
}
