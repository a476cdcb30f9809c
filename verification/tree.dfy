/** Nested configuration trees: the `dict`-of-`dict`-of-`str` values the
    configuration code builds (arduino_helpers/hardware/__init__.py) and walks
    (`nested_dict_iter`, arduino_helpers/context.py).
 */
module Tree {
  import opened Failures

  /** A configuration value: a string leaf or a mapping from key segment to
      child value. */
  datatype Node = Leaf(text: string) | Map(children: map<string, Node>)

  /** A top-level configuration dictionary. */
  type Config = map<string, Node>

  /** The node reached by following key path `p` from `n`, if every step
      lands on a mapping that holds the next segment. */
  function GetPath(n: Node, p: seq<string>): Option<Node>
    decreases |p|
  {
    if |p| == 0 then Some(n)
    else match n
      case Leaf(_) => None
      case Map(m) => if p[0] in m then GetPath(m[p[0]], p[1..]) else None
  }

  /** Following `p` from `n` reaches a leaf while segments remain, every
      earlier segment being present. */
  predicate StepsIntoLeaf(n: Node, p: seq<string>)
    decreases |p|
  {
    |p| > 0 &&
    match n
    case Leaf(_) => true
    case Map(m) => p[0] in m && StepsIntoLeaf(m[p[0]], p[1..])
  }

  /** Every (key path, leaf value) pair below `n`, the path relative to `n`. */
  function Items(n: Node): set<(seq<string>, string)>
  {
    match n
    case Leaf(v) => {([], v)}
    case Map(m) => set k, e | k in m && e in Items(m[k]) :: ([k] + e.0, e.1)
  }

  /** `nested_dict_iter(d)`: the pairs it yields, as a set. */
  function NestedItems(d: Config): (r: set<(seq<string>, string)>)
    ensures forall e :: e in r ==> |e.0| > 0
  {
    Items(Map(d))
  }

  /** A pair is yielded exactly when its path leads to that leaf. */
  lemma {:induction false} ItemsAreLeaves(n: Node, p: seq<string>, v: string)
    ensures (p, v) in Items(n) <==> GetPath(n, p) == Some(Leaf(v))
    decreases |p|
  {
    match n
    case Leaf(w) =>
    case Map(m) =>
      if |p| > 0 {
        if p[0] in m {
          ItemsAreLeaves(m[p[0]], p[1..], v);
          assert p == [p[0]] + p[1..];
        }
        if (p, v) in Items(n) {
          var k, e :| k in m && e in Items(m[k]) && (p, v) == ([k] + e.0, e.1);
          assert p[1..] == e.0;
          ItemsAreLeaves(m[k], e.0, v);
        }
      }
  }

  /** The pairs of a mapping whose children are split into a single key `h`
      and the rest. */
  lemma ItemsOfUnion(h: string, t: Node, m: Config)
    requires h !in m
    ensures Items(Map(map[h := t] + m))
         == (set e | e in Items(t) :: ([h] + e.0, e.1)) + Items(Map(m))
  {
    var u := map[h := t] + m;
    assert forall k :: k in m ==> u[k] == m[k];
    assert u[h] == t;
  }
}
