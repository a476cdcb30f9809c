/** The line handling shared by `parse_config`
    (arduino_helpers/hardware/__init__.py) and `get_board_data_dict`
    (arduino_helpers/hardware/boards.py): which raw lines are kept, how a
    kept line splits into a dotted key and a value, and the code-point
    order of the lines that `traverse` relies on.
 */
module ConfigLines {
  import opened Failures
  import opened Strings

  /** One parsed line: the key split on `.` and the text after the `=`. */
  datatype Entry = Entry(key: seq<string>, value: string)

  /** No segment holds a `.` or an `=`, as for every key a parser builds. */
  predicate PlainKey(k: seq<string>) {
    forall i :: 0 <= i < |k| ==> '.' !in k[i] && '=' !in k[i]
  }

  /** The stripped line that parses to key `k` and value `v`. */
  function Line(k: seq<string>, v: string): string {
    Join(k, '.') + "=" + v
  }

  /** A raw line is ignored when it is blank once stripped, or when the
      raw (unstripped) text starts with `#`. */
  predicate Dropped(raw: string) {
    |Strip(raw)| == 0 || StartsWith(raw, "#")
  }

  /** The stripped text of every line that is not dropped, in file order. */
  function KeptLines(lines: seq<string>): (r: seq<string>)
    ensures |r| <= |lines|
  {
    if |lines| == 0 then []
    else (if Dropped(lines[0]) then [] else [Strip(lines[0])]) + KeptLines(lines[1..])
  }

  /** A line is kept exactly when some raw line that is not dropped strips
      to it, and no kept line is empty. */
  lemma {:induction false} KeptLinesMembers(lines: seq<string>)
    ensures forall l :: l in KeptLines(lines) <==> exists raw :: raw in lines && !Dropped(raw) && l == Strip(raw)
    ensures forall l :: l in KeptLines(lines) ==> |l| > 0
  {
    if |lines| > 0 {
      KeptLinesMembers(lines[1..]);
      assert forall raw :: raw in lines <==> raw == lines[0] || raw in lines[1..];
    }
  }

  /** `d.index('=')` followed by `d[:i].split('.')` and `d[i + 1:]`, or
      `None` for a line without `=` (which `parse_config` skips). */
  function SplitAtFirstEquals(d: string): (r: Option<Entry>)
    ensures r.None? <==> '=' !in d
    ensures r.Some? ==> |r.value.key| > 0 && PlainKey(r.value.key)
    ensures r.Some? ==> Line(r.value.key, r.value.value) == d
  {
    match IndexOf(d, '=')
    case None => None
    case Some(i) =>
      SplitKeepsOut(d[..i], '.', '=');
      assert d == d[..i] + "=" + d[i + 1..];
      Some(Entry(Split(d[..i], '.'), d[i + 1..]))
  }

  /** The split is the only way to read a line: the key ends at the first
      `=`, and the value may itself hold `=`. */
  lemma LineRoundTrip(k: seq<string>, v: string)
    requires |k| > 0 && PlainKey(k)
    ensures SplitAtFirstEquals(Line(k, v)) == Some(Entry(k, v))
  {
    var j := Join(k, '.');
    JoinKeepsOut(k, '.', '=');
    FirstCut(j, '=', v);
    SplitJoin(k, '.');
  }

  /** The entries of the lines that hold `=`, in order. */
  function ParseLines(ds: seq<string>): (r: seq<Entry>)
    ensures |r| <= |ds|
  {
    if |ds| == 0 then []
    else
      match SplitAtFirstEquals(ds[0])
      case None => ParseLines(ds[1..])
      case Some(e) => [e] + ParseLines(ds[1..])
  }

  /** An entry is parsed exactly when one of the lines splits into it, and
      every parsed key is a nonempty plain key. */
  lemma {:induction false} ParseLinesMembers(ds: seq<string>)
    ensures forall e :: e in ParseLines(ds) <==> exists d :: d in ds && SplitAtFirstEquals(d) == Some(e)
    ensures forall e :: e in ParseLines(ds) ==> |e.key| > 0 && PlainKey(e.key)
  {
    if |ds| > 0 {
      ParseLinesMembers(ds[1..]);
      assert forall d :: d in ds <==> d == ds[0] || d in ds[1..];
    }
  }

  /** A line `d` whose key is a single plain segment. */
  lemma SingleSegmentLine(k: string, v: string, d: string)
    requires '.' !in k && '=' !in k && d == k + "=" + v
    ensures SplitAtFirstEquals(d) == Some(Entry([k], v))
  {
    assert Line([k], v) == d;
    LineRoundTrip([k], v);
  }

  /** Lines that all hold `=` parse one entry each, in order. */
  lemma {:induction false} ParseLinesAll(ds: seq<string>, es: seq<Entry>)
    requires |ds| == |es|
    requires forall i :: 0 <= i < |ds| ==> SplitAtFirstEquals(ds[i]) == Some(es[i])
    ensures ParseLines(ds) == es
  {
    if |ds| > 0 {
      ParseLinesAll(ds[1..], es[1..]);
      assert es == [es[0]] + es[1..];
    }
  }

  /** Lines without surrounding blanks that do not start with `#` are kept
      as they are. */
  lemma {:induction false} KeptLinesAll(lines: seq<string>)
    requires forall i :: 0 <= i < |lines| ==>
      |lines[i]| > 0 && !IsSpace(lines[i][0]) && !IsSpace(lines[i][|lines[i]| - 1]) && lines[i][0] != '#'
    ensures KeptLines(lines) == lines
  {
    if |lines| > 0 {
      KeptLinesAll(lines[1..]);
      StripSpec(lines[0]);
    }
  }

  // ---------------------------------------------------------------------
  // Lines below a key prefix
  // ---------------------------------------------------------------------

  /** The original line of an entry whose key has lost the prefix `p`. */
  function FullLine(p: seq<string>, e: Entry): string {
    Line(p + e.key, e.value)
  }

  /** The original lines of `d` (prefix `p` restored) are in code-point
      order. */
  ghost predicate SortedFrom(p: seq<string>, d: seq<Entry>) {
    forall i, j :: 0 <= i < j < |d| ==> LexLe(FullLine(p, d[i]), FullLine(p, d[j]))
  }

  /** Every full key of `d` (prefix `p` restored) is a nonempty plain key. */
  ghost predicate WellFormedFrom(p: seq<string>, d: seq<Entry>) {
    forall i :: 0 <= i < |d| ==> |p + d[i].key| > 0 && PlainKey(p + d[i].key)
  }

  /** Every parsed entry is read from one of the lines. */
  lemma ParsedLineIn(ds: seq<string>, e: Entry)
    requires e in ParseLines(ds)
    ensures Line(e.key, e.value) in ds
  {
    ParseLinesMembers(ds);
    var d :| d in ds && SplitAtFirstEquals(d) == Some(e);
  }

  /** Parsing keeps the order of sorted lines. */
  lemma {:induction false} ParseLinesSorted(ds: seq<string>)
    requires Sorted(ds)
    ensures var r := ParseLines(ds);
      forall i, j :: 0 <= i < j < |r| ==> LexLe(Line(r[i].key, r[i].value), Line(r[j].key, r[j].value))
  {
    if |ds| > 0 {
      SortedTail(ds);
      ParseLinesSorted(ds[1..]);
      var r := ParseLines(ds);
      var rest := ParseLines(ds[1..]);
      if SplitAtFirstEquals(ds[0]).Some? {
        assert r == [SplitAtFirstEquals(ds[0]).value] + rest;
        forall j | 0 < j < |r|
          ensures LexLe(Line(r[0].key, r[0].value), Line(r[j].key, r[j].value))
        {
          assert r[j] == rest[j - 1];
          ParsedLineIn(ds[1..], r[j]);
          SortedHeadLeast(ds, Line(r[j].key, r[j].value));
        }
      } else {
        assert r == rest;
      }
    }
  }

  /** The entries parsed from sorted lines meet the invariant `traverse`
      is proved under, with an empty key prefix. */
  lemma ParsedFromSorted(ds: seq<string>)
    requires Sorted(ds)
    ensures SortedFrom([], ParseLines(ds)) && WellFormedFrom([], ParseLines(ds))
  {
    var r := ParseLines(ds);
    ParseLinesSorted(ds);
    ParseLinesMembers(ds);
    forall i | 0 <= i < |r|
      ensures FullLine([], r[i]) == Line(r[i].key, r[i].value)
      ensures |[] + r[i].key| > 0 && PlainKey([] + r[i].key)
    {
      assert [] + r[i].key == r[i].key;
      assert r[i] in r;
    }
  }

  // ---------------------------------------------------------------------
  // Where one key's lines sit among the others
  // ---------------------------------------------------------------------

  /** The position of the first `.` or `=` in `s`, or `|s|`. */
  function FirstStop(s: string): (n: nat)
    ensures n <= |s|
  {
    if |s| == 0 || s[0] == '.' || s[0] == '=' then 0 else 1 + FirstStop(s[1..])
  }

  lemma {:induction false} FirstStopAfterPlain(a: string, c: char, r: string)
    requires c == '.' || c == '='
    requires '.' !in a && '=' !in a
    ensures FirstStop(a + [c] + r) == |a|
  {
    if |a| > 0 {
      FirstStopAfterPlain(a[1..], c, r);
      assert (a + [c] + r)[1..] == a[1..] + [c] + r;
    }
  }

  lemma {:induction false} FirstStopOfPrefix(x: string, y: string)
    requires StartsWith(x, y) && FirstStop(y) < |y|
    ensures FirstStop(x) == FirstStop(y)
  {
    if |y| > 0 && y[0] != '.' && y[0] != '=' {
      assert x[1..][..|y| - 1] == y[1..];
      FirstStopOfPrefix(x[1..], y[1..]);
    }
  }

  /** Splitting two lines at their first plain segment. */
  lemma SegmentCut(a: string, c: char, r: string, b: string, c2: char, r2: string)
    requires c == '.' || c == '='
    requires c2 == '.' || c2 == '='
    requires '.' !in a && '=' !in a && '.' !in b && '=' !in b
    ensures StartsWith(a + [c] + r, b + [c2] + r2) <==> a == b && c == c2 && StartsWith(r, r2)
  {
    var x := a + [c] + r;
    var y := b + [c2] + r2;
    FirstStopAfterPlain(a, c, r);
    FirstStopAfterPlain(b, c2, r2);
    assert a == b && c == c2 && StartsWith(r, r2) ==> x[..|y|] == a + [c] + r[..|r2|];
    if StartsWith(x, y) {
      FirstStopOfPrefix(x, y);
      assert a == x[..|a|] && b == y[..|b|];
      assert x[|a|] == y[|b|];
      assert r[..|r2|] == x[|a| + 1..|y|] == r2;
    }
  }

  /** A line begins with `Join(q) + "="` exactly when its key is `q`, and
      with `Join(q) + "."` exactly when `q` is a proper prefix of its key. */
  lemma {:induction false} KeyLinePrefix(k: seq<string>, q: seq<string>, v: string)
    requires |k| > 0 && |q| > 0 && PlainKey(k) && PlainKey(q)
    ensures StartsWith(Line(k, v), Join(q, '.') + "=") <==> k == q
    ensures StartsWith(Line(k, v), Join(q, '.') + ".") <==> |q| < |k| && k[..|q|] == q
    decreases |q|
  {
    var ck := if |k| == 1 then '=' else '.';
    var rk := if |k| == 1 then v else Line(k[1..], v);
    assert Line(k, v) == k[0] + [ck] + rk;
    var cq := if |q| == 1 then '=' else '.';
    var rq := if |q| == 1 then "" else Join(q[1..], '.') + "=";
    assert Join(q, '.') + "=" == q[0] + [cq] + rq;
    var rd := if |q| == 1 then "" else Join(q[1..], '.') + ".";
    assert Join(q, '.') + "." == q[0] + ['.'] + rd;
    SegmentCut(k[0], ck, rk, q[0], cq, rq);
    SegmentCut(k[0], ck, rk, q[0], '.', rd);
    assert k == [k[0]] + k[1..] && q == [q[0]] + q[1..];
    if |k| > 1 && |q| > 1 {
      KeyLinePrefix(k[1..], q[1..], v);
      if |q| <= |k| {
        assert k[..|q|] == [k[0]] + k[1..][..|q| - 1];
      }
    }
  }

  /** In sorted lines, the entries with one full key are consecutive. */
  lemma SameKeyBetween(p: seq<string>, d: seq<Entry>, i: nat, j: nat, k: nat)
    requires SortedFrom(p, d) && WellFormedFrom(p, d)
    requires i <= j <= k < |d|
    ensures d[i].key == d[k].key ==> d[j].key == d[k].key
  {
    if i < j < k {
      var q := p + d[k].key;
      var pre := Join(q, '.') + "=";
      assert StartsWith(FullLine(p, d[k]), pre);
      KeyLinePrefix(p + d[i].key, q, d[i].value);
      PrefixBetween(FullLine(p, d[i]), FullLine(p, d[j]), FullLine(p, d[k]), pre);
      KeyLinePrefix(p + d[j].key, q, d[j].value);
      assert d[i].key == (p + d[i].key)[|p|..];
      assert d[j].key == (p + d[j].key)[|p|..];
      assert d[k].key == q[|p|..];
    }
  }

  /** In sorted lines, the entries whose full key properly extends `q` are
      consecutive. */
  lemma ExtensionBetween(p: seq<string>, d: seq<Entry>, q: seq<string>, i: nat, j: nat, k: nat)
    requires SortedFrom(p, d) && WellFormedFrom(p, d)
    requires |q| > 0 && PlainKey(q)
    requires i <= j <= k < |d|
    ensures (&& |q| < |p + d[i].key| && (p + d[i].key)[..|q|] == q
             && |q| < |p + d[k].key| && (p + d[k].key)[..|q|] == q)
        ==> |q| < |p + d[j].key| && (p + d[j].key)[..|q|] == q
  {
    if i < j < k {
      var pre := Join(q, '.') + ".";
      KeyLinePrefix(p + d[i].key, q, d[i].value);
      KeyLinePrefix(p + d[k].key, q, d[k].value);
      PrefixBetween(FullLine(p, d[i]), FullLine(p, d[j]), FullLine(p, d[k]), pre);
      KeyLinePrefix(p + d[j].key, q, d[j].value);
    }
  }
}
