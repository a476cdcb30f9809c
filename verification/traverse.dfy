/** `traverse` (arduino_helpers/hardware/__init__.py:12-29; textually the
    same in arduino_helpers/hardware/boards.py:5-14): turning parsed
    entries into a nested tree with `itertools.groupby`.
 */
module Traversal {
  import opened Failures
  import opened Strings
  import opened Tree
  import opened ConfigLines

  /** Total number of key segments; it shrinks on every recursive call. */
  function KeySize(d: seq<Entry>): nat {
    if |d| == 0 then 0 else |d[0].key| + KeySize(d[1..])
  }

  lemma {:induction false} KeySizeSplit(d: seq<Entry>, n: nat)
    requires n <= |d|
    ensures KeySize(d) == KeySize(d[..n]) + KeySize(d[n..])
  {
    if n > 0 {
      KeySizeSplit(d[1..], n - 1);
      assert d[..n][1..] == d[1..][..n - 1];
      assert d[n..] == d[1..][n - 1..];
    }
  }

  /** Every key still has a segment. */
  predicate AllLive(d: seq<Entry>) {
    forall i :: 0 <= i < |d| ==> |d[i].key| > 0
  }

  /** The first segments present in `d`. */
  function Heads(d: seq<Entry>): set<string> {
    set i | 0 <= i < |d| && |d[i].key| > 0 :: d[i].key[0]
  }

  /** `[(item[0][1:], item[1]) for item in group_data]`. */
  function Tails(d: seq<Entry>): (r: seq<Entry>)
    requires AllLive(d)
    ensures |r| == |d|
    ensures forall i :: 0 <= i < |d| ==> r[i] == Entry(d[i].key[1..], d[i].value)
  {
    if |d| == 0 then [] else [Entry(d[0].key[1..], d[0].value)] + Tails(d[1..])
  }

  lemma {:induction false} TailsSize(d: seq<Entry>)
    requires AllLive(d)
    ensures KeySize(Tails(d)) + |d| == KeySize(d)
  {
    if |d| > 0 {
      TailsSize(d[1..]);
      assert Tails(d)[1..] == Tails(d[1..]);
    }
  }

  /** `[d for d in data if d[0]]`: the entries whose key is not used up. */
  function Live(d: seq<Entry>): (r: seq<Entry>)
    ensures AllLive(r)
    ensures KeySize(r) == KeySize(d)
    ensures forall e :: e in r <==> e in d && |e.key| > 0
  {
    if |d| == 0 then []
    else
      assert forall e :: e in d <==> e == d[0] || e in d[1..];
      if |d[0].key| == 0 then Live(d[1..]) else [d[0]] + Live(d[1..])
  }

  /** The length of the run at the front of `d` whose first segment is `h`:
      one group of `groupby`. */
  function RunLength(d: seq<Entry>, h: string): (n: nat)
    requires AllLive(d)
    ensures n <= |d|
    ensures forall i :: 0 <= i < n ==> d[i].key[0] == h
    ensures n < |d| ==> d[n].key[0] != h
  {
    if |d| == 0 || d[0].key[0] != h then 0 else 1 + RunLength(d[1..], h)
  }

  /** The `for key, group in groupby(...)` loop: each run of equal first
      segments becomes one child, a later run overwriting an earlier one. */
  function GroupLoop(d: seq<Entry>): (r: map<string, Node>)
    requires AllLive(d)
    ensures r.Keys == Heads(d)
    decreases KeySize(d), 0, |d|
  {
    if |d| == 0 then map[]
    else
      var h := d[0].key[0];
      var n := RunLength(d, h);
      KeySizeSplit(d, n);
      TailsSize(d[..n]);
      HeadsSplit(d, n);
      map[h := TraverseNE(Tails(d[..n]))] + GroupLoop(d[n..])
  }

  /** The first segments of `d` are those of its first run and of the rest. */
  lemma HeadsSplit(d: seq<Entry>, n: nat)
    requires AllLive(d) && 0 < n <= |d|
    requires forall i :: 0 <= i < n ==> d[i].key[0] == d[0].key[0]
    ensures Heads(d) == {d[0].key[0]} + Heads(d[n..])
  {
    var h := d[0].key[0];
    forall x | x in Heads(d) ensures x in {h} + Heads(d[n..]) {
      var i :| 0 <= i < |d| && |d[i].key| > 0 && d[i].key[0] == x;
      if i >= n { assert d[n..][i - n] == d[i]; }
    }
    forall x | x in Heads(d[n..]) ensures x in Heads(d) {
      var i :| 0 <= i < |d[n..]| && |d[n..][i].key| > 0 && d[n..][i].key[0] == x;
      assert d[n..][i] == d[i + n];
    }
  }

  /** `traverse(data)` on a nonempty list. */
  function TraverseNE(d: seq<Entry>): (r: Node)
    requires |d| > 0
    ensures r.Leaf? <==> |d[0].key| == 0
    decreases KeySize(d), 1, 0
  {
    if |d[0].key| == 0 then Leaf(d[0].value) else Map(GroupLoop(Live(d)))
  }

  /** `traverse(data)`: `data[0]` raises `IndexError` on an empty list. */
  function Traverse(d: seq<Entry>): (r: Result<Node>)
    ensures r.Err? <==> |d| == 0
    ensures r.Err? ==> r.error == IndexError
    ensures r.Ok? && AllLive(d) ==> r.value.Map? && r.value.children.Keys == Heads(d)
  {
    if |d| == 0 then Err(IndexError) else Ok(TraverseNE(d))
  }

  /** One entry with a one-segment key becomes one leaf. */
  lemma SingleLeafGroup(h: string, v: string)
    ensures GroupLoop([Entry([h], v)]) == map[h := Leaf(v)]
  {
    var e := Entry([h], v);
    var n := FirstGroup([e]);
    assert [e][..1] == [e] && [e][1..] == [];
    assert Tails([e]) == [Entry([], v)];
  }

  // ---------------------------------------------------------------------
  // Which run a child comes from
  // ---------------------------------------------------------------------

  /** `d[i..i + n]` is the last maximal run of entries whose first segment
      is `h`. */
  ghost predicate IsLastRun(d: seq<Entry>, h: string, i: nat, n: nat) {
    && AllLive(d)
    && n > 0 && i + n <= |d|
    && (forall j :: i <= j < i + n ==> d[j].key[0] == h)
    && (i == 0 || d[i - 1].key[0] != h)
    && (forall j :: i + n <= j < |d| ==> d[j].key[0] != h)
  }

  /** One step of the group loop: the first run `d[..n]` becomes the
      child under its first segment, the rest is grouped on. */
  lemma FirstGroup(d: seq<Entry>) returns (n: nat)
    requires AllLive(d) && |d| > 0
    ensures 0 < n <= |d|
    ensures forall j :: 0 <= j < n ==> d[j].key[0] == d[0].key[0]
    ensures n < |d| ==> d[n].key[0] != d[0].key[0]
    ensures GroupLoop(d) == map[d[0].key[0] := TraverseNE(Tails(d[..n]))] + GroupLoop(d[n..])
    ensures KeySize(Tails(d[..n])) < KeySize(d) && KeySize(d[n..]) <= KeySize(d)
  {
    n := RunLength(d, d[0].key[0]);
    KeySizeSplit(d, n);
    TailsSize(d[..n]);
  }

  /** A run that starts the list and ends where its first segment ends. */
  lemma {:induction false} RunIsFirstGroup(d: seq<Entry>, h: string, n: nat, n0: nat)
    requires AllLive(d) && 0 < n <= |d| && 0 < n0 <= |d|
    requires forall j :: 0 <= j < n ==> d[j].key[0] == h
    requires n == |d| || d[n].key[0] != h
    requires forall j :: 0 <= j < n0 ==> d[j].key[0] == h
    requires n0 == |d| || d[n0].key[0] != h
    ensures n == n0
  {
  }

  /** A last run that starts the list is the first group, and nothing
      after it has the same first segment. */
  lemma LastRunAtFront(d: seq<Entry>, h: string, n: nat, n0: nat)
    requires IsLastRun(d, h, 0, n)
    requires 0 < n0 <= |d| && (n0 == |d| || d[n0].key[0] != h)
    requires forall j :: 0 <= j < n0 ==> d[j].key[0] == h
    ensures n0 == n
    ensures h !in Heads(d[n..])
  {
    RunIsFirstGroup(d, h, n, n0);
    forall j | 0 <= j < |d[n..]| ensures d[n..][j].key[0] != h {
      assert d[n..][j] == d[j + n];
    }
  }

  /** A last run that does not start the list lies after the first group. */
  lemma LastRunLater(d: seq<Entry>, h: string, i: nat, n: nat, n0: nat, g: seq<Entry>)
    requires IsLastRun(d, h, i, n) && i > 0 && g == d[i..i + n]
    requires 0 < n0 <= |d|
    requires forall j :: 0 <= j < n0 ==> d[j].key[0] == d[0].key[0]
    requires n0 < |d| ==> d[n0].key[0] != d[0].key[0]
    ensures i >= n0
    ensures IsLastRun(d[n0..], h, i - n0, n)
    ensures g == d[n0..][i - n0..i - n0 + n]
  {
    var d' := d[n0..];
    assert d[i].key[0] == h && d[i - 1].key[0] != h;
    assert i >= n0;
    assert forall j :: 0 <= j < |d'| ==> d'[j] == d[j + n0];
  }

  lemma MapUnionRight<K, V>(a: map<K, V>, b: map<K, V>)
    ensures forall k :: k in b ==> k in a + b && (a + b)[k] == b[k]
  {
  }

  /** The child built from a last run at the front of the list. */
  lemma FrontGroupWins(d: seq<Entry>, h: string, n: nat, g: seq<Entry>)
    requires IsLastRun(d, h, 0, n) && g == d[..n]
    ensures AllLive(g) && |g| > 0
    ensures h in GroupLoop(d)
    ensures GroupLoop(d)[h] == TraverseNE(Tails(g))
  {
    var n0 := FirstGroup(d);
    LastRunAtFront(d, h, n, n0);
    assert h !in GroupLoop(d[n0..]);
  }

  /** `groupby` groups only consecutive entries, and `results[key] = ...`
      keeps the last group: the child under `h` is built from the last run
      of `h` alone. */
  lemma {:induction false} LaterGroupWins(d: seq<Entry>, h: string, i: nat, n: nat, g: seq<Entry>)
    requires IsLastRun(d, h, i, n) && g == d[i..i + n]
    ensures AllLive(g) && |g| > 0
    ensures h in GroupLoop(d)
    ensures GroupLoop(d)[h] == TraverseNE(Tails(g))
    decreases |d|, 1
  {
    if i == 0 {
      FrontGroupWins(d, h, n, g);
    } else {
      assert AllLive(g) && |g| > 0;
      LaterRunWins(d, h, i, n, g);
    }
  }

  /** A last run after the first group: the first group's child is
      overwritten, or belongs to another first segment. */
  lemma {:induction false} LaterRunWins(d: seq<Entry>, h: string, i: nat, n: nat, g: seq<Entry>)
    requires IsLastRun(d, h, i, n) && g == d[i..i + n] && i > 0
    requires AllLive(g) && |g| > 0
    ensures h in GroupLoop(d)
    ensures GroupLoop(d)[h] == TraverseNE(Tails(g))
    decreases |d|, 0
  {
    var n0 := RestOverrides(d);
    LastRunLater(d, h, i, n, n0, g);
    var rest := d[n0..];
    var i': nat := i - n0;
    assert IsLastRun(rest, h, i', n) && g == rest[i'..i' + n];
    LaterGroupWins(rest, h, i', n, g);
  }

  /** Every child grouped from the entries after the first group is a child
      of the whole loop. */
  lemma RestOverrides(d: seq<Entry>) returns (n: nat)
    requires AllLive(d) && |d| > 0
    ensures 0 < n <= |d|
    ensures forall j :: 0 <= j < n ==> d[j].key[0] == d[0].key[0]
    ensures n < |d| ==> d[n].key[0] != d[0].key[0]
    ensures forall x :: x in GroupLoop(d[n..]) ==> x in GroupLoop(d) && GroupLoop(d)[x] == GroupLoop(d[n..])[x]
  {
    n := FirstGroup(d);
    MapUnionRight(map[d[0].key[0] := TraverseNE(Tails(d[..n]))], GroupLoop(d[n..]));
  }

  // ---------------------------------------------------------------------
  // The first entry of a key
  // ---------------------------------------------------------------------

  /** The value of the first entry whose key is `k`. */
  function FirstValue(d: seq<Entry>, k: seq<string>): (r: Option<string>)
    ensures r.None? <==> forall i :: 0 <= i < |d| ==> d[i].key != k
    ensures r.Some? ==> Entry(k, r.value) in d
  {
    if |d| == 0 then None
    else if d[0].key == k then Some(d[0].value)
    else
      var r := FirstValue(d[1..], k);
      assert forall i :: 1 <= i < |d| ==> d[i] == d[1..][i - 1];
      r
  }

  /** Where the first entry of a key sits. */
  lemma {:induction false} FirstValueIndex(d: seq<Entry>, k: seq<string>) returns (i: nat)
    requires FirstValue(d, k).Some?
    ensures i < |d| && d[i] == Entry(k, FirstValue(d, k).value)
    ensures forall j :: 0 <= j < i ==> d[j].key != k
  {
    if d[0].key == k {
      i := 0;
    } else {
      var i' := FirstValueIndex(d[1..], k);
      i := i' + 1;
      assert d[i] == d[1..][i'];
      assert forall j :: 1 <= j < i ==> d[j] == d[1..][j - 1];
    }
  }

  lemma {:induction false} FirstValueAppend(a: seq<Entry>, b: seq<Entry>, k: seq<string>)
    ensures FirstValue(a + b, k) == if FirstValue(a, k).Some? then FirstValue(a, k) else FirstValue(b, k)
  {
    if |a| > 0 {
      FirstValueAppend(a[1..], b, k);
      assert (a + b)[1..] == a[1..] + b;
    } else {
      assert a + b == b;
    }
  }

  lemma {:induction false} FirstValueLive(d: seq<Entry>, k: seq<string>)
    requires |k| > 0
    ensures FirstValue(Live(d), k) == FirstValue(d, k)
  {
    if |d| > 0 {
      FirstValueLive(d[1..], k);
      if |d[0].key| > 0 {
        assert ([d[0]] + Live(d[1..]))[1..] == Live(d[1..]);
      }
    }
  }

  lemma {:induction false} FirstValueTails(d: seq<Entry>, h: string, k: seq<string>)
    requires AllLive(d) && forall i :: 0 <= i < |d| ==> d[i].key[0] == h
    ensures FirstValue(Tails(d), k) == FirstValue(d, [h] + k)
  {
    if |d| > 0 {
      assert d[0].key == [h] + d[0].key[1..];
      assert Tails(d)[1..] == Tails(d[1..]);
      FirstValueTails(d[1..], h, k);
    }
  }

  // ---------------------------------------------------------------------
  // Invariants kept by the recursion
  // ---------------------------------------------------------------------

  lemma SliceKeeps(p: seq<string>, d: seq<Entry>, a: nat, b: nat)
    requires a <= b <= |d|
    requires SortedFrom(p, d) && WellFormedFrom(p, d)
    ensures SortedFrom(p, d[a..b]) && WellFormedFrom(p, d[a..b])
  {
    assert forall i :: 0 <= i < b - a ==> d[a..b][i] == d[a + i];
  }

  lemma {:induction false} LiveKeeps(p: seq<string>, d: seq<Entry>)
    requires SortedFrom(p, d) && WellFormedFrom(p, d)
    ensures SortedFrom(p, Live(d)) && WellFormedFrom(p, Live(d))
  {
    if |d| > 0 {
      SliceKeeps(p, d, 1, |d|);
      LiveKeeps(p, d[1..]);
      if |d[0].key| > 0 {
        HeadBelowLive(p, d);
        ConsKeeps(p, d[0], Live(d[1..]));
      }
    }
  }

  /** The first line is at most every line still live after it. */
  lemma HeadBelowLive(p: seq<string>, d: seq<Entry>)
    requires |d| > 0 && SortedFrom(p, d)
    ensures forall e :: e in Live(d[1..]) ==> LexLe(FullLine(p, d[0]), FullLine(p, e))
  {
    forall e | e in Live(d[1..]) ensures LexLe(FullLine(p, d[0]), FullLine(p, e)) {
      var m :| 0 <= m < |d[1..]| && d[1..][m] == e;
      assert d[m + 1] == e;
    }
  }

  /** Putting a line in front of sorted lines that are all at least it. */
  lemma ConsKeeps(p: seq<string>, x: Entry, r: seq<Entry>)
    requires SortedFrom(p, r) && WellFormedFrom(p, r)
    requires |p + x.key| > 0 && PlainKey(p + x.key)
    requires forall e :: e in r ==> LexLe(FullLine(p, x), FullLine(p, e))
    ensures SortedFrom(p, [x] + r) && WellFormedFrom(p, [x] + r)
  {
    var l := [x] + r;
    assert forall j :: 1 <= j < |l| ==> l[j] == r[j - 1];
  }

  lemma ConsumedHead(p: seq<string>, k: seq<string>, h: string)
    requires |k| > 0 && k[0] == h
    ensures (p + [h]) + k[1..] == p + k
  {
    assert k == [h] + k[1..];
  }

  lemma TailsKeep(p: seq<string>, g: seq<Entry>, h: string)
    requires AllLive(g) && forall i :: 0 <= i < |g| ==> g[i].key[0] == h
    requires SortedFrom(p, g) && WellFormedFrom(p, g)
    ensures SortedFrom(p + [h], Tails(g)) && WellFormedFrom(p + [h], Tails(g))
  {
    var t := Tails(g);
    forall i | 0 <= i < |g|
      ensures FullLine(p + [h], t[i]) == FullLine(p, g[i])
      ensures (p + [h]) + t[i].key == p + g[i].key
    {
      ConsumedHead(p, g[i].key, h);
    }
  }

  // ---------------------------------------------------------------------
  // The smallest line of a key wins
  // ---------------------------------------------------------------------

  /** In a tree built from sorted lines, a leaf at key path `k` holds the
      value of the first entry with key `k`. */
  lemma {:induction false} FirstLeafWinsNE(p: seq<string>, d: seq<Entry>, k: seq<string>, v: string)
    requires |d| > 0 && SortedFrom(p, d) && WellFormedFrom(p, d)
    requires GetPath(TraverseNE(d), k) == Some(Leaf(v))
    ensures FirstValue(d, k) == Some(v)
    decreases KeySize(d), 1, 0, 0
  {
    if |d[0].key| > 0 {
      LiveKeeps(p, d);
      FirstLeafWinsGroups(p, Live(d), k, v);
      FirstValueLive(d, k);
    }
  }

  lemma {:induction false} FirstLeafWinsGroups(p: seq<string>, d: seq<Entry>, k: seq<string>, v: string)
    requires AllLive(d) && SortedFrom(p, d) && WellFormedFrom(p, d)
    requires GetPath(Map(GroupLoop(d)), k) == Some(Leaf(v))
    ensures |k| > 0 && FirstValue(d, k) == Some(v)
    decreases KeySize(d), 0, |d|, 1
  {
    var n := FirstGroup(d);
    if k[0] in GroupLoop(d[n..]) {
      FirstLeafWinsLater(p, d, n, k, v);
    } else {
      FirstLeafWinsFirst(p, d, n, k, v);
    }
  }

  /** A leaf below the child that the first group built. */
  lemma {:induction false} FirstLeafWinsFirst(p: seq<string>, d: seq<Entry>, n: nat, k: seq<string>, v: string)
    requires AllLive(d) && SortedFrom(p, d) && WellFormedFrom(p, d)
    requires 0 < n <= |d|
    requires forall j :: 0 <= j < n ==> d[j].key[0] == d[0].key[0]
    requires KeySize(Tails(d[..n])) < KeySize(d)
    requires |k| > 0 && k[0] == d[0].key[0]
    requires GetPath(TraverseNE(Tails(d[..n])), k[1..]) == Some(Leaf(v))
    ensures FirstValue(d, k) == Some(v)
    decreases KeySize(d), 0, |d|, 0
  {
    var g := d[..n];
    var h := d[0].key[0];
    FrontKeeps(p, d, n);
    FirstLeafWinsGroup(p, g, h, k, v);
    FirstValueAppend(g, d[n..], k);
    assert d == g + d[n..];
  }

  /** A leaf below a child that a later group built. */
  lemma {:induction false} FirstLeafWinsLater(p: seq<string>, d: seq<Entry>, n: nat, k: seq<string>, v: string)
    requires AllLive(d) && SortedFrom(p, d) && WellFormedFrom(p, d)
    requires 0 < n <= |d|
    requires forall j :: 0 <= j < n ==> d[j].key[0] == d[0].key[0]
    requires n < |d| ==> d[n].key[0] != d[0].key[0]
    requires KeySize(d[n..]) <= KeySize(d)
    requires |k| > 0 && k[0] in GroupLoop(d[n..])
    requires GetPath(Map(GroupLoop(d[n..])), k) == Some(Leaf(v))
    ensures FirstValue(d, k) == Some(v)
    decreases KeySize(d), 0, |d|, 0
  {
    SliceKeeps(p, d, n, |d|);
    FirstLeafWinsGroups(p, d[n..], k, v);
    KeyOnlyLater(p, d, n, k, v);
  }

  /** The first group of a list keeps what the list meets. */
  lemma FrontKeeps(p: seq<string>, d: seq<Entry>, n: nat)
    requires AllLive(d) && SortedFrom(p, d) && WellFormedFrom(p, d)
    requires 0 < n <= |d| && forall j :: 0 <= j < n ==> d[j].key[0] == d[0].key[0]
    ensures |d[..n]| > 0 && AllLive(d[..n]) && forall i :: 0 <= i < n ==> d[..n][i].key[0] == d[0].key[0]
    ensures SortedFrom(p, d[..n]) && WellFormedFrom(p, d[..n])
  {
    SliceKeeps(p, d, 0, n);
    assert d[0..n] == d[..n];
  }

  /** A leaf below the child built from one group `g` of first segment
      `h`. */
  lemma {:induction false} FirstLeafWinsGroup(p: seq<string>, g: seq<Entry>, h: string, k: seq<string>, v: string)
    requires |g| > 0 && AllLive(g) && forall i :: 0 <= i < |g| ==> g[i].key[0] == h
    requires SortedFrom(p, g) && WellFormedFrom(p, g)
    requires |k| > 0 && k[0] == h && GetPath(TraverseNE(Tails(g)), k[1..]) == Some(Leaf(v))
    ensures FirstValue(g, k) == Some(v)
    decreases KeySize(Tails(g)), 2, 0, 0
  {
    TailsKeep(p, g, h);
    FirstLeafWinsNE(p + [h], Tails(g), k[1..], v);
    FirstValueTails(g, h, k[1..]);
    assert k == [h] + k[1..];
  }

  /** A key found after the first group of sorted entries does not occur
      in that group, so its first value is found after it. */
  lemma KeyOnlyLater(p: seq<string>, d: seq<Entry>, n: nat, k: seq<string>, v: string)
    requires SortedFrom(p, d) && WellFormedFrom(p, d)
    requires 0 < n <= |d|
    requires FirstValue(d[n..], k) == Some(v)
    requires AllLive(d) && forall j :: 0 <= j < n ==> d[j].key[0] == d[0].key[0]
    requires n < |d| ==> d[n].key[0] != d[0].key[0]
    ensures FirstValue(d, k) == Some(v)
  {
    var e := d[n..];
    var j := FirstValueIndex(e, k);
    assert d[n + j] == e[j];
    forall i | 0 <= i < n ensures d[i].key != k {
      SameKeyBetween(p, d, i, n, n + j);
    }
    FirstValueSkip(d, n, k);
  }

  /** Entries before `n` that lack key `k` do not change its first value. */
  lemma FirstValueSkip(d: seq<Entry>, n: nat, k: seq<string>)
    requires n <= |d| && forall i :: 0 <= i < n ==> d[i].key != k
    ensures FirstValue(d, k) == FirstValue(d[n..], k)
  {
    var g := d[..n];
    assert d == g + d[n..];
    assert forall i :: 0 <= i < |g| ==> g[i].key != k;
    FirstValueAppend(g, d[n..], k);
  }

  // ---------------------------------------------------------------------
  // Round trip through `nested_dict_iter`
  // ---------------------------------------------------------------------

  /** The (key, value) pairs of `d`. */
  function EntrySet(d: seq<Entry>): set<(seq<string>, string)> {
    set i | 0 <= i < |d| :: (d[i].key, d[i].value)
  }

  predicate IsPrefix(a: seq<string>, b: seq<string>) {
    |a| <= |b| && b[..|a|] == a
  }

  /** No key is a segment prefix of the key of a different entry (so keys
      are distinct, though a line may be repeated verbatim). */
  predicate PrefixFree(d: seq<Entry>) {
    forall i, j :: 0 <= i < |d| && 0 <= j < |d| && d[i] != d[j] ==> !IsPrefix(d[i].key, d[j].key)
  }

  /** Without prefix keys, two different entries sharing a first segment
      both have a second one. */
  lemma SharedHeadLong(d: seq<Entry>, i: nat, k: nat)
    requires AllLive(d) && PrefixFree(d)
    requires i < |d| && k < |d| && d[i] != d[k] && d[i].key[0] == d[k].key[0]
    ensures |d[i].key| > 1 && |d[k].key| > 1
  {
    assert d[i].key[..1] == d[k].key[..1];
    assert d[i].key == d[i].key[..1] + d[i].key[1..];
    assert d[k].key == d[k].key[..1] + d[k].key[1..];
  }

  /** Without prefix keys, the entries of one first segment are
      consecutive. */
  lemma HeadBetween(p: seq<string>, d: seq<Entry>, i: nat, j: nat, k: nat)
    requires AllLive(d) && SortedFrom(p, d) && WellFormedFrom(p, d) && PrefixFree(d)
    requires i <= j <= k < |d|
    ensures d[i].key[0] == d[k].key[0] ==> d[j].key[0] == d[k].key[0]
  {
    if d[i] == d[k] {
      SameKeyBetween(p, d, i, j, k);
    } else if d[i].key[0] == d[k].key[0] {
      var h := d[i].key[0];
      SharedHeadLong(d, i, k);
      var q := p + [h];
      assert PlainKey(q) by {
        assert forall m :: 0 <= m < |q| ==> q[m] == (p + d[i].key)[m];
      }
      assert (p + d[i].key)[..|q|] == q by { assert d[i].key[..1] == [h]; }
      assert (p + d[k].key)[..|q|] == q by { assert d[k].key[..1] == [h]; }
      ExtensionBetween(p, d, q, i, j, k);
      assert (p + d[j].key)[|p|] == d[j].key[0];
    }
  }

  lemma EntrySetSplit(d: seq<Entry>, n: nat)
    requires n <= |d|
    ensures EntrySet(d) == EntrySet(d[..n]) + EntrySet(d[n..])
  {
    forall x | x in EntrySet(d) ensures x in EntrySet(d[..n]) + EntrySet(d[n..]) {
      var i :| 0 <= i < |d| && x == (d[i].key, d[i].value);
      if i < n { assert d[..n][i] == d[i]; } else { assert d[n..][i - n] == d[i]; }
    }
    forall x | x in EntrySet(d[..n]) ensures x in EntrySet(d) {
      var i :| 0 <= i < n && x == (d[..n][i].key, d[..n][i].value);
      assert d[..n][i] == d[i];
    }
    forall x | x in EntrySet(d[n..]) ensures x in EntrySet(d) {
      var i :| 0 <= i < |d| - n && x == (d[n..][i].key, d[n..][i].value);
      assert d[n..][i] == d[n + i];
    }
  }

  lemma TailAt(g: seq<Entry>, h: string, i: nat)
    requires AllLive(g) && i < |g| && g[i].key[0] == h
    ensures g[i].key == [h] + Tails(g)[i].key && g[i].value == Tails(g)[i].value
  {
    var t := Tails(g)[i];
    assert t == Entry(g[i].key[1..], g[i].value);
    HeadCons(g[i].key, h);
  }

  lemma HeadCons(k: seq<string>, h: string)
    requires |k| > 0 && k[0] == h
    ensures k == [h] + k[1..]
  {
  }

  /** Putting the consumed first segment back in front of every key. */
  function Prefixed(h: string, s: set<(seq<string>, string)>): set<(seq<string>, string)> {
    set e | e in s :: ([h] + e.0, e.1)
  }

  lemma PrefixedTailsWithin(g: seq<Entry>, h: string)
    requires AllLive(g) && forall i :: 0 <= i < |g| ==> g[i].key[0] == h
    ensures Prefixed(h, EntrySet(Tails(g))) <= EntrySet(g)
  {
    forall x | x in Prefixed(h, EntrySet(Tails(g))) ensures x in EntrySet(g) {
      PrefixedTailWithin(g, h, x);
    }
  }

  lemma PrefixedTailWithin(g: seq<Entry>, h: string, x: (seq<string>, string))
    requires AllLive(g) && forall i :: 0 <= i < |g| ==> g[i].key[0] == h
    requires x in Prefixed(h, EntrySet(Tails(g)))
    ensures x in EntrySet(g)
  {
    var t := Tails(g);
    var e :| e in EntrySet(t) && x == ([h] + e.0, e.1);
    var i := EntryIndex(t, e);
    TailAt(g, h, i);
    InEntrySet(g, i);
  }

  lemma EntryIndex(d: seq<Entry>, e: (seq<string>, string)) returns (i: nat)
    requires e in EntrySet(d)
    ensures i < |d| && e == (d[i].key, d[i].value)
  {
    i :| 0 <= i < |d| && e == (d[i].key, d[i].value);
  }

  lemma InEntrySet(d: seq<Entry>, i: nat)
    requires i < |d|
    ensures (d[i].key, d[i].value) in EntrySet(d)
  {
  }

  lemma EntriesWithinPrefixedTails(g: seq<Entry>, h: string)
    requires AllLive(g) && forall i :: 0 <= i < |g| ==> g[i].key[0] == h
    ensures EntrySet(g) <= Prefixed(h, EntrySet(Tails(g)))
  {
    var t := Tails(g);
    forall x | x in EntrySet(g) ensures x in Prefixed(h, EntrySet(t)) {
      var i :| 0 <= i < |g| && x == (g[i].key, g[i].value);
      TailAt(g, h, i);
      var e := (t[i].key, t[i].value);
      assert e in EntrySet(t);
      assert x == ([h] + e.0, e.1);
    }
  }

  lemma EntrySetTails(g: seq<Entry>, h: string)
    requires AllLive(g) && forall i :: 0 <= i < |g| ==> g[i].key[0] == h
    ensures Prefixed(h, EntrySet(Tails(g))) == EntrySet(g)
  {
    PrefixedTailsWithin(g, h);
    EntriesWithinPrefixedTails(g, h);
  }

  lemma PrefixCons(h: string, a: seq<string>, b: seq<string>)
    ensures IsPrefix([h] + a, [h] + b) <==> IsPrefix(a, b)
  {
    if |a| <= |b| {
      assert ([h] + b)[..|a| + 1] == [h] + b[..|a|];
    }
    if IsPrefix([h] + a, [h] + b) {
      assert a == ([h] + a)[1..] == ([h] + b)[..|a| + 1][1..] == b[..|a|];
    }
  }

  lemma TailsPrefixFree(g: seq<Entry>, h: string)
    requires AllLive(g) && forall i :: 0 <= i < |g| ==> g[i].key[0] == h
    requires PrefixFree(g)
    ensures PrefixFree(Tails(g))
  {
    var t := Tails(g);
    forall i, j | 0 <= i < |t| && 0 <= j < |t| && t[i] != t[j]
      ensures !IsPrefix(t[i].key, t[j].key)
    {
      TailAt(g, h, i);
      TailAt(g, h, j);
      PrefixCons(h, t[i].key, t[j].key);
    }
  }

  /** For prefix-free sorted entries, flattening the tree gives back
      exactly the entries. */
  lemma {:induction false} RoundTripNE(p: seq<string>, d: seq<Entry>)
    requires |d| > 0 && SortedFrom(p, d) && WellFormedFrom(p, d) && PrefixFree(d)
    ensures Items(TraverseNE(d)) == EntrySet(d)
    decreases KeySize(d), 1, 0
  {
    if |d[0].key| == 0 {
      forall e | e in d ensures e == d[0] {
        assert IsPrefix(d[0].key, e.key);
      }
      assert EntrySet(d) == {(d[0].key, d[0].value)};
    } else {
      forall i | 0 <= i < |d| ensures |d[i].key| > 0 {
        assert d[i] in d && d[0] in d;
        assert |d[i].key| == 0 ==> IsPrefix(d[i].key, d[0].key);
      }
      LiveAll(d);
      RoundTripGroups(p, d);
    }
  }

  lemma {:induction false} LiveAll(d: seq<Entry>)
    requires AllLive(d)
    ensures Live(d) == d
  {
    if |d| > 0 {
      LiveAll(d[1..]);
      assert d == [d[0]] + d[1..];
    }
  }

  lemma {:induction false} RoundTripGroups(p: seq<string>, d: seq<Entry>)
    requires AllLive(d) && SortedFrom(p, d) && WellFormedFrom(p, d) && PrefixFree(d)
    ensures Items(Map(GroupLoop(d))) == EntrySet(d)
    decreases KeySize(d), 0, |d|
  {
    if |d| > 0 {
      var n := GroupItemsSplit(p, d);
      var rest := d[n..];
      RestKeeps(p, d, n);
      RoundTripGroup(p, d, n);
      RoundTripGroups(p, rest);
      EntrySetSplit(d, n);
    }
  }

  /** The pairs below the group loop: those below the first group's child,
      under its first segment, and those below the rest. */
  lemma GroupItemsSplit(p: seq<string>, d: seq<Entry>) returns (n: nat)
    requires AllLive(d) && SortedFrom(p, d) && WellFormedFrom(p, d) && PrefixFree(d)
    requires |d| > 0
    ensures 0 < n <= |d| && forall j :: 0 <= j < n ==> d[j].key[0] == d[0].key[0]
    ensures KeySize(Tails(d[..n])) < KeySize(d) && KeySize(d[n..]) <= KeySize(d)
    ensures Items(Map(GroupLoop(d)))
         == Prefixed(d[0].key[0], Items(TraverseNE(Tails(d[..n])))) + Items(Map(GroupLoop(d[n..])))
  {
    n := FirstGroup(d);
    HeadOnlyInFirstGroup(p, d, n);
    ItemsOfUnion(d[0].key[0], TraverseNE(Tails(d[..n])), GroupLoop(d[n..]));
  }

  /** Without prefix keys, the first segment of the first group occurs in
      no later entry. */
  lemma HeadOnlyInFirstGroup(p: seq<string>, d: seq<Entry>, n: nat)
    requires AllLive(d) && SortedFrom(p, d) && WellFormedFrom(p, d) && PrefixFree(d)
    requires 0 < n <= |d| && (n < |d| ==> d[n].key[0] != d[0].key[0])
    ensures d[0].key[0] !in Heads(d[n..])
  {
    forall j | 0 <= j < |d[n..]| ensures d[n..][j].key[0] != d[0].key[0] {
      assert d[n..][j] == d[n + j];
      HeadBetween(p, d, 0, n, n + j);
    }
  }

  /** What the round trip assumes of a list holds for what follows its
      first group. */
  lemma RestKeeps(p: seq<string>, d: seq<Entry>, n: nat)
    requires AllLive(d) && SortedFrom(p, d) && WellFormedFrom(p, d) && PrefixFree(d)
    requires n <= |d|
    ensures AllLive(d[n..]) && SortedFrom(p, d[n..]) && WellFormedFrom(p, d[n..]) && PrefixFree(d[n..])
  {
    SliceKeeps(p, d, n, |d|);
    PrefixFreeSlice(d, n, |d|);
    assert d[n..|d|] == d[n..];
    assert forall j :: 0 <= j < |d| - n ==> d[n..][j] == d[n + j];
  }

  lemma PrefixFreeSlice(d: seq<Entry>, a: nat, b: nat)
    requires a <= b <= |d| && PrefixFree(d)
    ensures PrefixFree(d[a..b])
  {
    assert forall i :: 0 <= i < b - a ==> d[a..b][i] == d[a + i];
  }

  /** The pairs below the child built from the first group are that
      group's entries. */
  lemma {:induction false} RoundTripGroup(p: seq<string>, d: seq<Entry>, n: nat)
    requires AllLive(d) && SortedFrom(p, d) && WellFormedFrom(p, d) && PrefixFree(d)
    requires 0 < n <= |d| && forall j :: 0 <= j < n ==> d[j].key[0] == d[0].key[0]
    requires KeySize(Tails(d[..n])) < KeySize(d)
    ensures Prefixed(d[0].key[0], Items(TraverseNE(Tails(d[..n])))) == EntrySet(d[..n])
    decreases KeySize(d), 0, 0
  {
    var g := d[..n];
    var h := d[0].key[0];
    SliceKeeps(p, d, 0, n);
    PrefixFreeSlice(d, 0, n);
    TailsKeep(p, g, h);
    TailsPrefixFree(g, h);
    RoundTripNE(p + [h], Tails(g));
    EntrySetTails(g, h);
  }
}
