/** `get_board_data_dict` (arduino_helpers/hardware/boards.py:17-26): the
    `boards.txt` reader. It keeps and sorts lines exactly as `parse_config`
    does, but reads each line with `k, v = d.split('=')`, which demands
    exactly one `=`; its `traverse` (boards.py:5-14) is the same function as
    the one in arduino_helpers/hardware/__init__.py and is modelled once, as
    `Traversal.Traverse`.
 */
module BoardsParser {
  import opened Failures
  import opened Strings
  import opened Tree
  import opened ConfigLines
  import opened Traversal
  import opened ConfigParser

  /** `k, v = d.split('=')` followed by `(k.split('.'), v)`: unpacking into
      two names fails unless the split gives exactly two fields. */
  function SplitLine(d: string): (r: Result<Entry>)
    ensures r.Err? <==> multiset(d)['='] != 1
    ensures r.Err? ==> r.error == ValueError(UnpackMismatch(multiset(d)['='] + 1))
    ensures r.Ok? ==> |r.value.key| > 0 && PlainKey(r.value.key)
    ensures r.Ok? ==> Line(r.value.key, r.value.value) == d
  {
    var parts := Split(d, '=');
    SplitCount(d, '=');
    if |parts| != 2 then Err(ValueError(UnpackMismatch(|parts|)))
    else
      SplitKeepsOut(parts[0], '.', '=');
      Ok(Entry(Split(parts[0], '.'), parts[1]))
  }

  /** The two comprehensions over the sorted lines: every line is split
      first, then each split is unpacked in turn. */
  function SplitLines(ds: seq<string>): (r: Result<seq<Entry>>)
    ensures r.Ok? ==> |r.value| == |ds|
  {
    Collect(seq(|ds|, i requires 0 <= i < |ds| => SplitLine(ds[i])))
  }

  /** Every kept line of the file holds exactly one `=`. */
  predicate EqualsOnce(lines: seq<string>) {
    forall l :: l in KeptLines(lines) ==> multiset(l)['='] == 1
  }

  /** `get_board_data_dict(path)` on the lines of the file at `path`. */
  function GetBoardDataDict(lines: seq<string>): (r: Result<Node>)
    ensures (r.Err? && r.error.ValueError?) <==> !EqualsOnce(lines)
    ensures (r.Err? && r.error == IndexError) <==> |KeptLines(lines)| == 0
    ensures r.Ok? ==> r == ParseConfig(lines)
  {
    BoardsOutcome(lines);
    var d :- SplitLines(Sort(KeptLines(lines)));
    Traverse(d)
  }

  lemma BoardsOutcome(lines: seq<string>)
    ensures SplitLines(Sort(KeptLines(lines))).Ok? <==> EqualsOnce(lines)
    ensures SplitLines(Sort(KeptLines(lines))).Err? ==>
              SplitLines(Sort(KeptLines(lines))).error.ValueError?
    ensures SplitLines(Sort(KeptLines(lines))).Ok? ==>
              SplitLines(Sort(KeptLines(lines))).value == SortedEntries(lines)
              && (|SortedEntries(lines)| == 0 <==> |KeptLines(lines)| == 0)
  {
    var kept := KeptLines(lines);
    var ds := Sort(kept);
    SortMembers(kept);
    assert |ds| == |multiset(ds)| == |kept|;
    SameLinesSplit(ds, kept);
    SplitLinesOk(ds);
  }

  /** Lines in any order unpack exactly when each of them holds one `=`,
      and otherwise fail with a `ValueError`. */
  lemma SameLinesSplit(ds: seq<string>, kept: seq<string>)
    requires forall x :: x in ds <==> x in kept
    ensures SplitLines(ds).Ok? <==> forall l :: l in kept ==> multiset(l)['='] == 1
    ensures SplitLines(ds).Err? ==> SplitLines(ds).error.ValueError?
  {
    SplitLinesOk(ds);
    if SplitLines(ds).Err? {
      var i := FirstBadLine(ds);
      assert ds[i] in kept;
    } else {
      forall l | l in kept ensures multiset(l)['='] == 1 {
        var i :| 0 <= i < |ds| && ds[i] == l;
        assert SplitLine(ds[i]).Ok?;
      }
    }
  }

  // ---------------------------------------------------------------------
  // Properties
  // ---------------------------------------------------------------------

  /** A line that unpacks is read just as `parse_config` reads it. */
  lemma SplitLineAgrees(d: string)
    requires SplitLine(d).Ok?
    ensures SplitAtFirstEquals(d) == Some(SplitLine(d).value)
  {
    LineRoundTrip(SplitLine(d).value.key, SplitLine(d).value.value);
  }

  /** The lines unpack exactly when each one does, and then they give the
      entries `parse_config` gives. */
  lemma SplitLinesOk(ds: seq<string>)
    ensures SplitLines(ds).Ok? <==> forall i :: 0 <= i < |ds| ==> SplitLine(ds[i]).Ok?
    ensures SplitLines(ds).Ok? ==> SplitLines(ds).value == ParseLines(ds)
  {
    var rs := seq(|ds|, i requires 0 <= i < |ds| => SplitLine(ds[i]));
    CollectOk(rs);
    if SplitLines(ds).Ok? {
      var es := SplitLines(ds).value;
      forall i | 0 <= i < |ds| ensures SplitAtFirstEquals(ds[i]) == Some(es[i]) {
        assert rs[i] == SplitLine(ds[i]);
        SplitLineAgrees(ds[i]);
      }
      ParseLinesAll(ds, es);
    }
  }

  /** The error raised is that of the first line that fails to unpack. */
  lemma FirstBadLine(ds: seq<string>) returns (i: nat)
    requires SplitLines(ds).Err?
    ensures i < |ds| && SplitLine(ds[i]).Err?
    ensures SplitLines(ds).error == SplitLine(ds[i]).error
    ensures forall j :: 0 <= j < i ==> SplitLine(ds[j]).Ok?
  {
    var rs := seq(|ds|, i requires 0 <= i < |ds| => SplitLine(ds[i]));
    i := CollectFirstError(rs);
    assert forall j :: 0 <= j < |ds| ==> rs[j] == SplitLine(ds[j]);
  }

  /** With a line that does not hold exactly one `=`, the error reports the
      field count of the smallest such line. */
  lemma SmallestBadLine(lines: seq<string>) returns (l: string)
    requires !EqualsOnce(lines)
    ensures l in KeptLines(lines) && multiset(l)['='] != 1
    ensures GetBoardDataDict(lines) == Err(ValueError(UnpackMismatch(multiset(l)['='] + 1)))
    ensures forall l' :: l' in KeptLines(lines) && multiset(l')['='] != 1 ==> LexLe(l, l')
  {
    var kept := KeptLines(lines);
    var ds := Sort(kept);
    BoardsOutcome(lines);
    BoardsError(lines);
    SortMembers(kept);
    var i := FirstBadLine(ds);
    l := ds[i];
    forall l' | l' in kept && multiset(l')['='] != 1 ensures LexLe(l, l') {
      EarliestIsLeast(ds, i, l');
    }
  }

  lemma BoardsError(lines: seq<string>)
    requires SplitLines(Sort(KeptLines(lines))).Err?
    ensures GetBoardDataDict(lines) == Err(SplitLines(Sort(KeptLines(lines))).error)
  {
  }

  /** In sorted lines, a failing line is no smaller than the first one. */
  lemma EarliestIsLeast(ds: seq<string>, i: nat, l: string)
    requires Sorted(ds) && i < |ds| && l in ds && SplitLine(l).Err?
    requires forall j :: 0 <= j < i ==> SplitLine(ds[j]).Ok?
    ensures LexLe(ds[i], l)
  {
    var j :| 0 <= j < |ds| && ds[j] == l;
    if j == i { LexLeRefl(l); } else { assert i < j; }
  }

  /** When every kept line holds one `=`, `get_board_data_dict` and
      `parse_config` build the same tree. */
  lemma BoardsAgreeWithConfig(lines: seq<string>)
    requires EqualsOnce(lines)
    ensures GetBoardDataDict(lines) == ParseConfig(lines)
  {
    BoardsOutcome(lines);
  }

  /** For duplicate keys the value of the smallest line survives, as in
      `parse_config`. */
  lemma BoardsDuplicateKeySmallestLine(lines: seq<string>, k: seq<string>, v: string)
    requires GetBoardDataDict(lines).Ok?
    requires GetPath(GetBoardDataDict(lines).value, k) == Some(Leaf(v))
    ensures Entry(k, v) in ParsedEntries(lines)
    ensures forall e :: e in ParsedEntries(lines) && e.key == k ==> LexLe(v, e.value)
  {
    DuplicateKeySmallestLine(lines, k, v);
  }

  // ---------------------------------------------------------------------
  // Example: a value holding `=`
  // ---------------------------------------------------------------------

  /** `parse_config` keeps the text after the first `=` as the value, while
      `get_board_data_dict` fails to unpack the three fields. */
  lemma ValueWithEqualsExample()
    ensures ParseConfig(["k=v=w"]) == Ok(Map(map["k" := Leaf("v=w")]))
    ensures GetBoardDataDict(["k=v=w"]) == Err(ValueError(UnpackMismatch(3)))
  {
    KeptValueLine();
    SortOne("k=v=w");
    SingleSegmentLine("k", "v=w", "k=v=w");
    ParseOne("k=v=w", Entry(["k"], "v=w"));
    ParseConfigOf(["k=v=w"], [Entry(["k"], "v=w")]);
    SingleEntryTree("k", "v=w");
    EqualsTwice();
    SplitOneBad("k=v=w");
    BoardsError(["k=v=w"]);
  }

  lemma KeptValueLine()
    ensures KeptLines(["k=v=w"]) == ["k=v=w"]
  {
    KeptLinesAll(["k=v=w"]);
  }

  lemma EqualsTwice()
    ensures multiset("k=v=w")['='] == 2
  {
    TwoEquals('k', 'v', 'w');
  }

  lemma TwoEquals(a: char, b: char, c: char)
    requires a != '=' && b != '=' && c != '='
    ensures multiset([a, '=', b, '=', c])['='] == 2
  {
    assert multiset([a, '=', b, '=', c]) == multiset{a, b, c} + multiset{'=', '='};
  }

  lemma SplitOneBad(d: string)
    requires SplitLine(d).Err?
    ensures SplitLines([d]) == Err(SplitLine(d).error)
  {
    var rs := seq(1, i requires 0 <= i < 1 => SplitLine([d][i]));
    assert rs == [SplitLine(d)];
  }
}
