/** `parse_config` (arduino_helpers/hardware/__init__.py:32-47): the
    `platform.txt` reader. Lines are kept, stripped and sorted, split at
    their first `=`, and handed to `traverse`.
 */
module ConfigParser {
  import opened Failures
  import opened Strings
  import opened Tree
  import opened ConfigLines
  import opened Traversal

  /** The entries of a file's lines in file order (before sorting). */
  function ParsedEntries(lines: seq<string>): seq<Entry> {
    ParseLines(KeptLines(lines))
  }

  /** The entries in the order `traverse` sees them: from the sorted kept
      lines. */
  function SortedEntries(lines: seq<string>): seq<Entry> {
    ParseLines(Sort(KeptLines(lines)))
  }

  /** The first key segments that occur among the parsed entries. */
  function FirstSegments(lines: seq<string>): set<string> {
    set e | e in ParsedEntries(lines) && |e.key| > 0 :: e.key[0]
  }

  /** `parse_config(path)` on the lines of the file at `path`. */
  function ParseConfig(lines: seq<string>): (r: Result<Node>)
    ensures r.Err? <==> |ParsedEntries(lines)| == 0
    ensures r.Err? ==> r.error == IndexError
    ensures r.Ok? ==> r.value.Map? && r.value.children.Keys == FirstSegments(lines)
  {
    var d := SortedEntries(lines);
    SameEntries(lines);
    ParseLinesMembers(Sort(KeptLines(lines)));
    assert AllLive(d);
    assert |d| == 0 <==> |ParsedEntries(lines)| == 0 by {
      if |d| > 0 { assert d[0] in d; }
      if |ParsedEntries(lines)| > 0 { assert ParsedEntries(lines)[0] in ParsedEntries(lines); }
    }
    HeadsAreFirstSegments(lines);
    Traverse(d)
  }

  /** Sorting changes the order of the entries, not which entries there
      are. */
  lemma SameEntries(lines: seq<string>)
    ensures forall e :: e in SortedEntries(lines) <==> e in ParsedEntries(lines)
  {
    var kept := KeptLines(lines);
    var sorted := Sort(kept);
    ParseLinesMembers(kept);
    ParseLinesMembers(sorted);
    SortMembers(kept);
  }

  lemma HeadsAreFirstSegments(lines: seq<string>)
    requires forall e :: e in SortedEntries(lines) <==> e in ParsedEntries(lines)
    ensures Heads(SortedEntries(lines)) == FirstSegments(lines)
  {
    ParseLinesMembers(KeptLines(lines));
    SameHeads(SortedEntries(lines), ParsedEntries(lines));
  }

  /** Two lists with the same entries have the same first segments. */
  lemma SameHeads(d: seq<Entry>, es: seq<Entry>)
    requires forall e :: e in d <==> e in es
    requires forall e :: e in es ==> |e.key| > 0
    ensures Heads(d) == set e | e in es && |e.key| > 0 :: e.key[0]
  {
    forall h | h in Heads(d) ensures h in set e | e in es && |e.key| > 0 :: e.key[0] {
      var i :| 0 <= i < |d| && |d[i].key| > 0 && d[i].key[0] == h;
      assert d[i] in d;
    }
    forall h | h in (set e | e in es && |e.key| > 0 :: e.key[0]) ensures h in Heads(d) {
      var e :| e in es && |e.key| > 0 && e.key[0] == h;
      var i :| 0 <= i < |d| && d[i] == e;
    }
  }

  /** The sorted entries meet the invariant the traversal lemmas assume. */
  lemma SortedEntriesOrdered(lines: seq<string>)
    ensures SortedFrom([], SortedEntries(lines)) && WellFormedFrom([], SortedEntries(lines))
  {
    ParsedFromSorted(Sort(KeptLines(lines)));
  }

  /** When a key occurs on several lines, the tree holds the value of the
      smallest of those lines: the leaf's value is at most every value
      given for that key. */
  lemma DuplicateKeySmallestLine(lines: seq<string>, k: seq<string>, v: string)
    requires ParseConfig(lines).Ok?
    requires GetPath(ParseConfig(lines).value, k) == Some(Leaf(v))
    ensures Entry(k, v) in ParsedEntries(lines)
    ensures forall e :: e in ParsedEntries(lines) && e.key == k ==> LexLe(v, e.value)
  {
    var d := SortedEntries(lines);
    SameEntries(lines);
    SortedEntriesOrdered(lines);
    SmallestValueWins(d, k, v);
  }

  /** The same, for entries already in line order. */
  lemma SmallestValueWins(d: seq<Entry>, k: seq<string>, v: string)
    requires |d| > 0 && SortedFrom([], d) && WellFormedFrom([], d)
    requires GetPath(TraverseNE(d), k) == Some(Leaf(v))
    ensures Entry(k, v) in d
    ensures forall e :: e in d && e.key == k ==> LexLe(v, e.value)
  {
    FirstLeafWinsNE([], d, k, v);
    var i := FirstValueIndex(d, k);
    forall e | e in d && e.key == k ensures LexLe(v, e.value) {
      var j :| 0 <= j < |d| && d[j] == e;
      if j == i {
        LexLeRefl(v);
      } else {
        assert i < j;
        assert [] + k == k;
        assert LexLe(FullLine([], d[i]), FullLine([], d[j]));
        LexLeCommonPrefix(Join(k, '.') + "=", v, e.value);
      }
    }
  }

  /** Keys no entry's key extends, compared as sets of entries. */
  predicate KeysPrefixFree(es: seq<Entry>) {
    forall a, b :: a in es && b in es && a != b ==> !IsPrefix(a.key, b.key)
  }

  /** Round trip: when no key is a segment prefix of another entry's key,
      `nested_dict_iter` over the parsed tree yields exactly the (key,
      value) pairs of the file. */
  lemma ParseRoundTrip(lines: seq<string>)
    requires |ParsedEntries(lines)| > 0
    requires KeysPrefixFree(ParsedEntries(lines))
    ensures ParseConfig(lines).Ok?
    ensures NestedItems(ParseConfig(lines).value.children)
         == set e | e in ParsedEntries(lines) :: (e.key, e.value)
  {
    var d := SortedEntries(lines);
    SameEntries(lines);
    SortedEntriesOrdered(lines);
    assert ParsedEntries(lines)[0] in ParsedEntries(lines);
    RoundTripSorted(d, ParsedEntries(lines));
  }

  /** The same, for entries in line order with the entries of `es`. */
  lemma RoundTripSorted(d: seq<Entry>, es: seq<Entry>)
    requires |d| > 0 && SortedFrom([], d) && WellFormedFrom([], d)
    requires forall e :: e in d <==> e in es
    requires KeysPrefixFree(es)
    ensures Items(TraverseNE(d)) == set e | e in es :: (e.key, e.value)
  {
    PrefixFreeOfSame(d, es);
    RoundTripNE([], d);
    EntrySetOfSame(d, es);
  }

  lemma PrefixFreeOfSame(d: seq<Entry>, es: seq<Entry>)
    requires forall e :: e in d <==> e in es
    requires KeysPrefixFree(es)
    ensures PrefixFree(d)
  {
    forall i, j | 0 <= i < |d| && 0 <= j < |d| && d[i] != d[j]
      ensures !IsPrefix(d[i].key, d[j].key)
    {
      assert d[i] in d && d[j] in d;
    }
  }

  lemma EntrySetOfSame(d: seq<Entry>, es: seq<Entry>)
    requires forall e :: e in d <==> e in es
    ensures EntrySet(d) == set e | e in es :: (e.key, e.value)
  {
    var pairs := set e | e in es :: (e.key, e.value);
    forall x | x in EntrySet(d) ensures x in pairs {
      var i :| 0 <= i < |d| && x == (d[i].key, d[i].value);
      assert d[i] in d;
    }
    forall x | x in pairs ensures x in EntrySet(d) {
      var e :| e in es && x == (e.key, e.value);
      var i :| 0 <= i < |d| && d[i] == e;
    }
  }

  // ---------------------------------------------------------------------
  // Worked examples
  // ---------------------------------------------------------------------

  /** The result of `parse_config` once the sorted entries are known. */
  lemma ParseConfigOf(lines: seq<string>, d: seq<Entry>)
    requires SortedEntries(lines) == d && |d| > 0
    ensures ParseConfig(lines) == Ok(TraverseNE(d))
  {
  }

  /** `a.b=1`, `a0=2`, `a=3` sort in that order (`.` < `0` < `=`), so the
      group `a` is met twice and the leaf `a=3` replaces the subtree built
      from `a.b=1`. */
  lemma LaterGroupOverwritesExample()
    ensures ParseConfig(["a.b=1", "a0=2", "a=3"])
         == Ok(Map(map["a" := Leaf("3"), "a0" := Leaf("2")]))
  {
    var d := [Entry(["a", "b"], "1"), Entry(["a0"], "2"), Entry(["a"], "3")];
    OverwriteEntries();
    ParseConfigOf(["a.b=1", "a0=2", "a=3"], d);
    OverwriteTree();
  }

  lemma OverwriteEntries()
    ensures SortedEntries(["a.b=1", "a0=2", "a=3"])
         == [Entry(["a", "b"], "1"), Entry(["a0"], "2"), Entry(["a"], "3")]
  {
    OverwriteKept();
    OverwriteSorted();
    OverwriteParsed();
  }

  lemma OverwriteKept()
    ensures KeptLines(["a.b=1", "a0=2", "a=3"]) == ["a.b=1", "a0=2", "a=3"]
  {
    KeptLinesAll(["a.b=1", "a0=2", "a=3"]);
  }

  lemma OverwriteSorted()
    ensures Sort(["a.b=1", "a0=2", "a=3"]) == ["a.b=1", "a0=2", "a=3"]
  {
    var lines := ["a.b=1", "a0=2", "a=3"];
    assert Sorted(lines);
    SortedUnique(Sort(lines), lines);
  }

  lemma OverwriteParsed()
    ensures ParseLines(["a.b=1", "a0=2", "a=3"])
         == [Entry(["a", "b"], "1"), Entry(["a0"], "2"), Entry(["a"], "3")]
  {
    DottedLine();
    OverwriteLines();
    ParseThree("a.b=1", "a0=2", "a=3", Entry(["a", "b"], "1"), Entry(["a0"], "2"), Entry(["a"], "3"));
  }

  lemma ParseThree(d1: string, d2: string, d3: string, e1: Entry, e2: Entry, e3: Entry)
    requires SplitAtFirstEquals(d1) == Some(e1)
    requires SplitAtFirstEquals(d2) == Some(e2)
    requires SplitAtFirstEquals(d3) == Some(e3)
    ensures ParseLines([d1, d2, d3]) == [e1, e2, e3]
  {
    ParseLinesAll([d1, d2, d3], [e1, e2, e3]);
  }

  lemma ParseOne(d: string, e: Entry)
    requires SplitAtFirstEquals(d) == Some(e)
    ensures ParseLines([d]) == [e]
  {
    ParseLinesAll([d], [e]);
  }

  lemma OverwriteLines()
    ensures SplitAtFirstEquals("a0=2") == Some(Entry(["a0"], "2"))
    ensures SplitAtFirstEquals("a=3") == Some(Entry(["a"], "3"))
  {
    SingleSegmentLine("a0", "2", "a0=2");
    SingleSegmentLine("a", "3", "a=3");
  }

  lemma DottedLine()
    ensures SplitAtFirstEquals("a.b=1") == Some(Entry(["a", "b"], "1"))
  {
    assert Join(["b"], '.') == "b";
    assert Line(["a", "b"], "1") == "a.b=1";
    LineRoundTrip(["a", "b"], "1");
  }

  lemma OverwriteTree()
    ensures TraverseNE([Entry(["a", "b"], "1"), Entry(["a0"], "2"), Entry(["a"], "3")])
         == Map(map["a" := Leaf("3"), "a0" := Leaf("2")])
  {
    LiveAll([Entry(["a", "b"], "1"), Entry(["a0"], "2"), Entry(["a"], "3")]);
    OverwriteGroups();
  }

  lemma OverwriteGroups()
    ensures GroupLoop([Entry(["a", "b"], "1"), Entry(["a0"], "2"), Entry(["a"], "3")])
         == map["a" := Leaf("3"), "a0" := Leaf("2")]
  {
    var ab, a0, a := Entry(["a", "b"], "1"), Entry(["a0"], "2"), Entry(["a"], "3");
    var d := [ab, a0, a];
    var n := FirstGroup(d);
    assert d[1].key[0] != d[0].key[0];
    assert n == 1;
    assert d[1..] == [a0, a];
    LaterGroups();
    OverwriteMap(TraverseNE(Tails(d[..1])));
  }

  lemma OverwriteMap(first: Node)
    ensures map["a" := first] + map["a0" := Leaf("2"), "a" := Leaf("3")]
         == map["a" := Leaf("3"), "a0" := Leaf("2")]
  {
    assert "a0" != "a";
  }

  lemma LaterGroups()
    ensures GroupLoop([Entry(["a0"], "2"), Entry(["a"], "3")]) == map["a0" := Leaf("2"), "a" := Leaf("3")]
  {
    var a0, a := Entry(["a0"], "2"), Entry(["a"], "3");
    var n := FirstGroup([a0, a]);
    assert [a0, a][1].key[0] != [a0, a][0].key[0];
    assert n == 1;
    assert [a0, a][..1] == [a0] && [a0, a][1..] == [a];
    SingleLeafGroup("a", "3");
    assert Tails([a0]) == [Entry([], "2")];
    LaterMap();
  }

  lemma LaterMap()
    ensures map["a0" := Leaf("2")] + map["a" := Leaf("3")] == map["a0" := Leaf("2"), "a" := Leaf("3")]
  {
    assert "a0" != "a";
  }

  /** Only the raw text decides whether a line is a comment: an indented
      `#` line is kept and parsed, while a file of comments has no entries
      and `traverse` fails on the empty list. */
  lemma CommentRuleExample()
    ensures ParseConfig(["  #x=1"]) == Ok(Map(map["#x" := Leaf("1")]))
    ensures ParseConfig(["#x=1"]) == Err(IndexError)
  {
    IndentedCommentEntries();
    ParseConfigOf(["  #x=1"], [Entry(["#x"], "1")]);
    SingleEntryTree("#x", "1");
    CommentDropped();
  }

  lemma IndentedCommentEntries()
    ensures SortedEntries(["  #x=1"]) == [Entry(["#x"], "1")]
  {
    IndentedCommentKept();
    SortOne("#x=1");
    SingleSegmentLine("#x", "1", "#x=1");
    ParseOne("#x=1", Entry(["#x"], "1"));
  }

  lemma SortOne(x: string)
    ensures Sort([x]) == [x]
  {
    assert [x][1..] == [];
  }

  lemma IndentedCommentKept()
    ensures KeptLines(["  #x=1"]) == ["#x=1"]
  {
    assert StripStart("  #x=1") == "#x=1";
    assert StripEnd("#x=1") == "#x=1";
    assert !Dropped("  #x=1");
  }

  lemma SingleEntryTree(h: string, v: string)
    ensures TraverseNE([Entry([h], v)]) == Map(map[h := Leaf(v)])
  {
    LiveAll([Entry([h], v)]);
    SingleLeafGroup(h, v);
  }

  lemma CommentDropped()
    ensures ParseConfig(["#x=1"]) == Err(IndexError)
  {
    assert Dropped("#x=1");
    assert KeptLines(["#x=1"]) == [];
  }
}
