/** The Python string operations the configuration code relies on, written
    out over `seq<char>`: `str.isspace`/`str.strip`, code-point ordering and
    `sorted`, `str.split`/`str.join`, `str.index`, `str.replace`, ASCII case
    mapping and `posixpath.join`.
 */
module Strings {
  import opened Failures

  /** Python's `str.isspace` for a single code point. */
  predicate IsSpace(c: char) {
    var n := c as int;
    || (0x09 <= n <= 0x0D) || (0x1C <= n <= 0x20) || n == 0x85 || n == 0xA0
    || n == 0x1680 || (0x2000 <= n <= 0x200A) || n == 0x2028 || n == 0x2029
    || n == 0x202F || n == 0x205F || n == 0x3000
  }

  predicate StartsWith(s: string, p: string) {
    |p| <= |s| && s[..|p|] == p
  }

  /** `s.lstrip()`: leading whitespace removed. */
  function StripStart(s: string): (r: string)
    ensures |r| <= |s|
  {
    if |s| > 0 && IsSpace(s[0]) then StripStart(s[1..]) else s
  }

  /** `s.rstrip()`: trailing whitespace removed. */
  function StripEnd(s: string): (r: string)
    ensures |r| <= |s|
  {
    if |s| > 0 && IsSpace(s[|s| - 1]) then StripEnd(s[..|s| - 1]) else s
  }

  /** `str.strip()` with no argument: leading and trailing whitespace
      removed. */
  function Strip(s: string): (r: string)
    ensures |r| <= |s|
  {
    StripEnd(StripStart(s))
  }

  /** `lstrip` removes exactly the leading run of whitespace. */
  lemma {:induction false} StripStartSpec(s: string)
    ensures var r := StripStart(s);
      && r == s[|s| - |r|..]
      && (|r| == 0 || !IsSpace(r[0]))
      && (forall k :: 0 <= k < |s| - |r| ==> IsSpace(s[k]))
  {
    if |s| > 0 && IsSpace(s[0]) {
      StripStartSpec(s[1..]);
      var r := StripStart(s);
      forall k | 0 <= k < |s| - |r| ensures IsSpace(s[k]) {
        if k > 0 { assert s[k] == s[1..][k - 1]; }
      }
    }
  }

  /** `rstrip` removes exactly the trailing run of whitespace. */
  lemma {:induction false} StripEndSpec(s: string)
    ensures var r := StripEnd(s);
      && r == s[..|r|]
      && (|r| == 0 || !IsSpace(r[|r| - 1]))
      && (forall k :: |r| <= k < |s| ==> IsSpace(s[k]))
  {
    if |s| > 0 && IsSpace(s[|s| - 1]) {
      StripEndSpec(s[..|s| - 1]);
      var r := StripEnd(s);
      forall k | |r| <= k < |s| ensures IsSpace(s[k]) {
        if k < |s| - 1 { assert s[k] == s[..|s| - 1][k]; }
      }
    }
  }

  /** `strip` gives the empty string exactly for all-blank text, otherwise
      text that neither starts nor ends with whitespace, and leaves such
      text unchanged. */
  lemma StripSpec(s: string)
    ensures var r := Strip(s);
      && (|r| == 0 <==> forall k :: 0 <= k < |s| ==> IsSpace(s[k]))
      && (|r| > 0 ==> !IsSpace(r[0]) && !IsSpace(r[|r| - 1]))
      && ((|s| == 0 || (!IsSpace(s[0]) && !IsSpace(s[|s| - 1]))) ==> r == s)
  {
    var t := StripStart(s);
    var r := StripEnd(t);
    StripStartSpec(s);
    StripEndSpec(t);
    if |r| > 0 {
      assert r[0] == t[0];
    }
  }

  // ---------------------------------------------------------------------
  // Code-point order (Python's `<=` on `str`)
  // ---------------------------------------------------------------------

  predicate LexLe(a: string, b: string) {
    if |a| == 0 then true
    else if |b| == 0 then false
    else if a[0] != b[0] then a[0] < b[0]
    else LexLe(a[1..], b[1..])
  }

  lemma LexLeRefl(a: string)
    ensures LexLe(a, a)
  {
  }

  lemma LexLeTotal(a: string, b: string)
    ensures LexLe(a, b) || LexLe(b, a)
  {
  }

  lemma LexLeAntisym(a: string, b: string)
    requires LexLe(a, b) && LexLe(b, a)
    ensures a == b
  {
    if |a| > 0 && |b| > 0 {
      LexLeAntisym(a[1..], b[1..]);
      assert a == [a[0]] + a[1..] && b == [b[0]] + b[1..];
    }
  }

  lemma LexLeTrans(a: string, b: string, c: string)
    requires LexLe(a, b) && LexLe(b, c)
    ensures LexLe(a, c)
  {
    if |a| > 0 && |b| > 0 && |c| > 0 && a[0] == b[0] == c[0] {
      LexLeTrans(a[1..], b[1..], c[1..]);
    }
  }

  /** A common prefix does not change the order. */
  lemma {:induction false} LexLeCommonPrefix(p: string, x: string, y: string)
    ensures LexLe(p + x, p + y) <==> LexLe(x, y)
  {
    if |p| > 0 {
      LexLeCommonPrefix(p[1..], x, y);
      assert (p + x)[1..] == p[1..] + x && (p + y)[1..] == p[1..] + y;
    } else {
      assert p + x == x && p + y == y;
    }
  }

  /** Strings sharing a prefix form an interval of the code-point order. */
  lemma {:induction false} PrefixInterval(x: string, y: string, z: string, p: string)
    requires LexLe(x, y) && LexLe(y, z)
    requires StartsWith(x, p) && StartsWith(z, p)
    ensures StartsWith(y, p)
  {
    if |p| > 0 {
      assert x[0] == p[0] && z[0] == p[0];
      if |y| == 0 {
      } else {
        assert y[0] == p[0];
        assert StartsWith(x[1..], p[1..]) by { assert x[1..][..|p| - 1] == x[..|p|][1..]; }
        assert StartsWith(z[1..], p[1..]) by { assert z[1..][..|p| - 1] == z[..|p|][1..]; }
        PrefixInterval(x[1..], y[1..], z[1..], p[1..]);
        assert y[..|p|] == [y[0]] + y[1..][..|p| - 1];
      }
    }
  }

  /** `PrefixInterval` stated as an implication, so that it can be used
      before the prefixes are known. */
  lemma PrefixBetween(x: string, y: string, z: string, p: string)
    requires LexLe(x, y) && LexLe(y, z)
    ensures StartsWith(x, p) && StartsWith(z, p) ==> StartsWith(y, p)
  {
    if StartsWith(x, p) && StartsWith(z, p) {
      PrefixInterval(x, y, z, p);
    }
  }

  // ---------------------------------------------------------------------
  // `sorted` on a list of strings
  // ---------------------------------------------------------------------

  ghost predicate Sorted(s: seq<string>) {
    forall i, j :: 0 <= i < j < |s| ==> LexLe(s[i], s[j])
  }

  lemma SortedHeadLeast(s: seq<string>, x: string)
    requires Sorted(s) && x in s
    ensures LexLe(s[0], x)
  {
    var j :| 0 <= j < |s| && s[j] == x;
    if j == 0 { LexLeRefl(x); }
  }

  lemma SortedTail(s: seq<string>)
    requires Sorted(s) && |s| > 0
    ensures Sorted(s[1..])
  {
    forall i, j | 0 <= i < j < |s| - 1 ensures LexLe(s[1..][i], s[1..][j]) {
      assert s[1..][i] == s[i + 1] && s[1..][j] == s[j + 1];
    }
  }

  lemma ConsSorted(x: string, s: seq<string>)
    requires Sorted(s)
    requires forall j :: 0 <= j < |s| ==> LexLe(x, s[j])
    ensures Sorted([x] + s)
  {
    forall i, j | 0 <= i < j < |s| + 1 ensures LexLe(([x] + s)[i], ([x] + s)[j]) {
      if i > 0 {
        assert ([x] + s)[i] == s[i - 1] && ([x] + s)[j] == s[j - 1];
      }
    }
  }

  function Insert(x: string, s: seq<string>): (r: seq<string>)
    requires Sorted(s)
    ensures Sorted(r)
    ensures multiset(r) == multiset(s) + multiset{x}
  {
    if |s| == 0 then [x]
    else if LexLe(x, s[0]) then
      InsertFront(x, s);
      [x] + s
    else
      SortedTail(s);
      var rest := Insert(x, s[1..]);
      InsertBehind(x, s, rest);
      [s[0]] + rest
  }

  lemma InsertFront(x: string, s: seq<string>)
    requires Sorted(s) && |s| > 0 && LexLe(x, s[0])
    ensures Sorted([x] + s)
    ensures multiset([x] + s) == multiset(s) + multiset{x}
  {
    forall j | 0 <= j < |s| ensures LexLe(x, s[j]) {
      if j > 0 { LexLeTrans(x, s[0], s[j]); }
    }
    ConsSorted(x, s);
  }

  lemma InsertBehind(x: string, s: seq<string>, rest: seq<string>)
    requires Sorted(s) && |s| > 0 && !LexLe(x, s[0])
    requires Sorted(rest) && multiset(rest) == multiset(s[1..]) + multiset{x}
    ensures Sorted([s[0]] + rest)
    ensures multiset([s[0]] + rest) == multiset(s) + multiset{x}
  {
    assert s == [s[0]] + s[1..];
    LexLeTotal(x, s[0]);
    forall j | 0 <= j < |rest| ensures LexLe(s[0], rest[j]) {
      assert rest[j] in multiset(rest);
      if rest[j] != x {
        assert rest[j] in multiset(s[1..]);
        var k :| 0 <= k < |s[1..]| && s[1..][k] == rest[j];
        assert s[k + 1] == rest[j];
      }
    }
    ConsSorted(s[0], rest);
  }

  /** Python's `sorted` on strings: an insertion sort in code-point order. */
  function Sort(s: seq<string>): (r: seq<string>)
    ensures Sorted(r)
    ensures multiset(r) == multiset(s)
  {
    if |s| == 0 then []
    else
      assert s == [s[0]] + s[1..];
      Insert(s[0], Sort(s[1..]))
  }

  /** There is only one sorted arrangement of a list of strings, so `Sort`
      computes exactly what Python's `sorted` returns. */
  lemma {:induction false} SortedUnique(a: seq<string>, b: seq<string>)
    requires Sorted(a) && Sorted(b) && multiset(a) == multiset(b)
    ensures a == b
  {
    if |a| == 0 {
      assert |b| == |multiset(b)| == 0;
    } else {
      assert |b| == |multiset(b)| == |a|;
      assert a[0] in multiset(b) && b[0] in multiset(a);
      SortedHeadLeast(a, b[0]);
      SortedHeadLeast(b, a[0]);
      LexLeAntisym(a[0], b[0]);
      var a', b' := a[1..], b[1..];
      MultisetTail(a);
      MultisetTail(b);
      SortedTail(a);
      SortedTail(b);
      SortedUnique(a', b');
      HeadTail(a);
      HeadTail(b);
    }
  }

  /** Sorting keeps exactly the same strings. */
  lemma SortMembers(s: seq<string>)
    ensures forall x :: x in Sort(s) <==> x in s
  {
    forall x ensures x in Sort(s) <==> x in s {
      assert x in Sort(s) <==> x in multiset(Sort(s));
      assert x in s <==> x in multiset(s);
    }
  }

  lemma MultisetTail(s: seq<string>)
    requires |s| > 0
    ensures multiset(s[1..]) == multiset(s) - multiset{s[0]}
  {
    assert s == [s[0]] + s[1..];
  }

  lemma HeadTail(s: seq<string>)
    requires |s| > 0
    ensures s == [s[0]] + s[1..]
  {
  }

  // ---------------------------------------------------------------------
  // `str.index`, `str.split`, `str.join`
  // ---------------------------------------------------------------------

  /** The first position of `c` in `s` (`str.index`), if any. */
  function IndexOf(s: string, c: char): (r: Option<nat>)
    ensures r.None? <==> c !in s
    ensures r.Some? ==> r.value < |s| && s[r.value] == c && c !in s[..r.value]
  {
    if |s| == 0 then None
    else if s[0] == c then Some(0)
    else
      match IndexOf(s[1..], c)
      case None => None
      case Some(i) =>
        assert s[..i + 1] == [s[0]] + s[1..][..i];
        Some(i + 1)
  }

  /** Text cut at the first `c`: the part before it has no `c`. */
  lemma FirstCut(a: string, c: char, b: string)
    requires c !in a
    ensures IndexOf(a + [c] + b, c) == Some(|a|)
    ensures (a + [c] + b)[..|a|] == a && (a + [c] + b)[|a| + 1..] == b
  {
    var d := a + [c] + b;
    assert d[|a|] == c && d[..|a|] == a;
  }

  /** `sep.join(parts)`. */
  function Join(parts: seq<string>, sep: char): string {
    if |parts| == 0 then ""
    else if |parts| == 1 then parts[0]
    else parts[0] + [sep] + Join(parts[1..], sep)
  }

  /** `s.split(sep)` for a one-character separator: cutting at every
      occurrence of the separator. */
  function Split(s: string, sep: char): (r: seq<string>)
    ensures |r| > 0
    ensures forall k :: 0 <= k < |r| ==> sep !in r[k]
    ensures Join(r, sep) == s
  {
    match IndexOf(s, sep)
    case None => [s]
    case Some(i) =>
      var rest := Split(s[i + 1..], sep);
      assert s == s[..i] + [sep] + s[i + 1..];
      assert ([s[..i]] + rest)[1..] == rest;
      [s[..i]] + rest
  }

  /** There is one more piece than occurrences of the separator. */
  lemma {:induction false} SplitCount(s: string, sep: char)
    ensures |Split(s, sep)| == multiset(s)[sep] + 1
    decreases |s|
  {
    match IndexOf(s, sep)
    case None =>
      assert multiset(s)[sep] == 0;
    case Some(i) =>
      var a, b := s[..i], s[i + 1..];
      SplitCount(b, sep);
      assert Split(s, sep) == [a] + Split(b, sep);
      assert s == a + [sep] + b;
      assert sep !in multiset(a);
      assert multiset(s) == multiset(a) + multiset{sep} + multiset(b);
  }

  /** Splitting text that begins with a separator-free piece. */
  lemma SplitCons(a: string, sep: char, b: string)
    requires sep !in a
    ensures Split(a + [sep] + b, sep) == [a] + Split(b, sep)
  {
    var s := a + [sep] + b;
    assert s[|a|] == sep;
    var v := IndexOf(s, sep).value;
    assert forall k :: 0 <= k < |a| ==> s[k] == a[k];
    assert v >= |a|;
    assert s[..|a|] == a && s[|a| + 1..] == b;
  }

  lemma SplitNoSep(a: string, sep: char)
    requires sep !in a
    ensures Split(a, sep) == [a]
  {
  }

  /** Splitting a joined list gives the list back when no piece holds the
      separator. */
  lemma {:induction false} SplitJoin(parts: seq<string>, sep: char)
    requires |parts| > 0
    requires forall i :: 0 <= i < |parts| ==> sep !in parts[i]
    ensures Split(Join(parts, sep), sep) == parts
  {
    if |parts| == 1 {
      SplitNoSep(parts[0], sep);
    } else {
      SplitJoin(parts[1..], sep);
      SplitCons(parts[0], sep, Join(parts[1..], sep));
      assert parts == [parts[0]] + parts[1..];
    }
  }

  /** A character absent from the text is absent from every piece. */
  lemma {:induction false} SplitKeepsOut(s: string, sep: char, c: char)
    requires c !in s
    ensures forall k :: 0 <= k < |Split(s, sep)| ==> c !in Split(s, sep)[k]
    decreases |s|
  {
    match IndexOf(s, sep)
    case None =>
    case Some(i) =>
      assert s == s[..i] + [sep] + s[i + 1..];
      SplitKeepsOut(s[i + 1..], sep, c);
  }

  /** A character other than the separator that no piece holds is absent
      from the joined text. */
  lemma {:induction false} JoinKeepsOut(parts: seq<string>, sep: char, c: char)
    requires c != sep
    requires forall i :: 0 <= i < |parts| ==> c !in parts[i]
    ensures c !in Join(parts, sep)
  {
    if |parts| > 1 {
      JoinKeepsOut(parts[1..], sep, c);
    }
  }

  // ---------------------------------------------------------------------
  // `str.replace`
  // ---------------------------------------------------------------------

  /** `t` occurs somewhere in `s`. */
  predicate Occurs(s: string, t: string)
    decreases |s|
  {
    StartsWith(s, t) || (|s| > 0 && Occurs(s[1..], t))
  }

  /** A text that starts some suffix of `s` occurs in `s`. */
  lemma {:induction false} OccursAt(s: string, t: string, j: nat)
    requires j <= |s| && StartsWith(s[j..], t)
    ensures Occurs(s, t)
    decreases j
  {
    if j > 0 {
      assert s[1..][j - 1..] == s[j..];
      OccursAt(s[1..], t, j - 1);
    } else {
      assert s[0..] == s;
    }
  }

  /** `s.replace(pat, rep)`: every non-overlapping occurrence of `pat`,
      leftmost first, is replaced. */
  function ReplaceAll(s: string, pat: string, rep: string): (r: string)
    requires |pat| > 0
    decreases |s|
  {
    if |s| < |pat| then s
    else if s[..|pat|] == pat then
      assert s == pat + s[|pat|..];
      rep + ReplaceAll(s[|pat|..], pat, rep)
    else
      assert s == [s[0]] + s[1..];
      [s[0]] + ReplaceAll(s[1..], pat, rep)
  }

  /** A text in which `pat` does not occur is left as it is. */
  lemma {:induction false} ReplaceNoOccurrence(s: string, pat: string, rep: string)
    requires |pat| > 0 && !Occurs(s, pat)
    ensures ReplaceAll(s, pat, rep) == s
    decreases |s|
  {
    if |s| >= |pat| {
      assert s[..|pat|] != pat;
      ReplaceNoOccurrence(s[1..], pat, rep);
      assert s == [s[0]] + s[1..];
    }
  }

  /** Replacing a pattern by itself changes nothing. */
  lemma {:induction false} ReplaceBySelf(s: string, pat: string)
    requires |pat| > 0
    ensures ReplaceAll(s, pat, pat) == s
    decreases |s|
  {
    if |s| >= |pat| {
      if s[..|pat|] == pat {
        ReplaceBySelf(s[|pat|..], pat);
        assert s == pat + s[|pat|..];
      } else {
        ReplaceBySelf(s[1..], pat);
        assert s == [s[0]] + s[1..];
      }
    }
  }

  /** The leftmost-occurrence law of `str.replace`: when `pat` first occurs
      at `i`, the text before it is kept, that occurrence becomes `rep`, and
      the replacing resumes after it. With the identity on texts where
      `pat` does not occur, this determines `ReplaceAll` completely. */
  lemma ReplaceAtFirst(s: string, pat: string, rep: string, i: nat)
    requires |pat| > 0 && i + |pat| <= |s| && s[i..i + |pat|] == pat
    requires forall j :: 0 <= j < i ==> !StartsWith(s[j..], pat)
    ensures ReplaceAll(s, pat, rep) == s[..i] + rep + ReplaceAll(s[i + |pat|..], pat, rep)
  {
    NoneBeforeOf(s, pat, i);
    ReplaceAfterNone(s, pat, rep, i);
  }

  /** No occurrence of `pat` starts in the first `i` positions of `s`. */
  predicate NoneBefore(s: string, pat: string, i: nat)
    decreases i
  {
    i == 0 || (|s| > 0 && !StartsWith(s, pat) && NoneBefore(s[1..], pat, i - 1))
  }

  lemma {:induction false} NoneBeforeOf(s: string, pat: string, i: nat)
    requires i <= |s|
    requires forall j :: 0 <= j < i ==> !StartsWith(s[j..], pat)
    ensures NoneBefore(s, pat, i)
    decreases i
  {
    if i > 0 {
      assert !StartsWith(s[0..], pat);
      assert s[0..] == s;
      ShiftNoStart(s, pat, i);
      NoneBeforeOf(s[1..], pat, i - 1);
    }
  }

  /** `ReplaceAtFirst`, by induction on the position of the occurrence. */
  lemma {:induction false} ReplaceAfterNone(s: string, pat: string, rep: string, i: nat)
    requires |pat| > 0 && i + |pat| <= |s| && s[i..i + |pat|] == pat
    requires NoneBefore(s, pat, i)
    ensures ReplaceAll(s, pat, rep) == s[..i] + rep + ReplaceAll(s[i + |pat|..], pat, rep)
    decreases i
  {
    if i == 0 {
      ReplaceAtStart(s, pat, rep);
    } else {
      ShiftOccurrence(s, pat, i);
      ReplaceAfterNone(s[1..], pat, rep, i - 1);
      ReplaceStep(s, pat, rep, i);
    }
  }

  /** One step of `ReplaceAfterNone`: the law for `s[1..]` gives the law
      for `s` when `pat` does not start `s`. */
  lemma ReplaceStep(s: string, pat: string, rep: string, i: nat)
    requires |pat| > 0 && 0 < i && i + |pat| <= |s| && !StartsWith(s, pat)
    requires ReplaceAll(s[1..], pat, rep) == s[1..][..i - 1] + rep + ReplaceAll(s[1..][i - 1 + |pat|..], pat, rep)
    ensures ReplaceAll(s, pat, rep) == s[..i] + rep + ReplaceAll(s[i + |pat|..], pat, rep)
  {
    ReplaceSkip(s, pat, rep);
    ShiftSlices(s, i, |pat|);
    Regroup(ReplaceAll(s, pat, rep), s[0], ReplaceAll(s[1..], pat, rep), s[1..][..i - 1], s[..i],
            rep, ReplaceAll(s[i + |pat|..], pat, rep));
  }

  /** Where `pat` starts the text, it is replaced. */
  lemma ReplaceAtStart(s: string, pat: string, rep: string)
    requires |pat| > 0 && |pat| <= |s| && s[0..|pat|] == pat
    ensures ReplaceAll(s, pat, rep) == s[..0] + rep + ReplaceAll(s[|pat|..], pat, rep)
  {
    assert s[..|pat|] == pat;
    assert s[..0] + rep == rep;
  }

  /** Where `pat` does not start the text, its first character is kept. */
  lemma ReplaceSkip(s: string, pat: string, rep: string)
    requires |pat| > 0 && |pat| <= |s| && !StartsWith(s, pat)
    ensures ReplaceAll(s, pat, rep) == [s[0]] + ReplaceAll(s[1..], pat, rep)
  {
  }

  /** No occurrence before `i` in `s` means none before `i - 1` in `s[1..]`. */
  lemma ShiftNoStart(s: string, pat: string, i: nat)
    requires 0 < i <= |s|
    requires forall j :: 0 <= j < i ==> !StartsWith(s[j..], pat)
    ensures forall j :: 0 <= j < i - 1 ==> !StartsWith(s[1..][j..], pat)
  {
    forall j | 0 <= j < i - 1 ensures !StartsWith(s[1..][j..], pat) {
      assert s[1..][j..] == s[j + 1..];
    }
  }

  lemma ShiftSlices(s: string, i: nat, n: nat)
    requires 0 < i && i + n <= |s|
    ensures [s[0]] + s[1..][..i - 1] == s[..i]
    ensures s[1..][i - 1 + n..] == s[i + n..]
  {
  }

  lemma ShiftOccurrence(s: string, pat: string, i: nat)
    requires 0 < i && i + |pat| <= |s| && s[i..i + |pat|] == pat
    ensures s[1..][i - 1..i - 1 + |pat|] == pat
  {
    assert s[1..][i - 1..i - 1 + |pat|] == s[i..i + |pat|];
  }

  lemma Regroup(whole: string, c: char, tail: string, pre: string, spre: string, rep: string, rest: string)
    requires whole == [c] + tail && tail == pre + rep + rest && [c] + pre == spre
    ensures whole == spre + rep + rest
  {
  }

  /** A text in which `pat` occurs has a leftmost occurrence, the position
      `ReplaceAtFirst` splits at. */
  lemma {:induction false} FirstOccurrence(s: string, pat: string) returns (i: nat)
    requires Occurs(s, pat)
    ensures i + |pat| <= |s| && s[i..i + |pat|] == pat
    ensures forall j :: 0 <= j < i ==> !StartsWith(s[j..], pat)
    decreases |s|
  {
    if StartsWith(s, pat) {
      i := 0;
    } else {
      var k := FirstOccurrence(s[1..], pat);
      i := k + 1;
      assert s[i..i + |pat|] == s[1..][k..k + |pat|];
      forall j | 0 <= j < i ensures !StartsWith(s[j..], pat) {
        if j > 0 {
          assert s[j..] == s[1..][j - 1..];
        } else {
          assert s[0..] == s;
        }
      }
    }
  }

  /** Replacing a whole text gives the replacement. */
  lemma ReplaceWhole(s: string, rep: string)
    requires |s| > 0
    ensures ReplaceAll(s, s, rep) == rep
  {
    assert s[..|s|] == s && s[|s|..] == "";
  }

  /** `s` with every `c` removed and everything else kept in order. */
  function Without(s: string, c: char): (r: string)
    ensures c !in r
    ensures c !in s ==> r == s
  {
    if |s| == 0 then ""
    else
      assert s == [s[0]] + s[1..];
      (if s[0] == c then "" else [s[0]]) + Without(s[1..], c)
  }

  /** Replacing a one-character string by nothing deletes that character. */
  lemma {:induction false} ReplaceCharByNothing(s: string, c: char)
    ensures ReplaceAll(s, [c], "") == Without(s, c)
    decreases |s|
  {
    if |s| > 0 {
      ReplaceCharByNothing(s[1..], c);
    }
  }

  // ---------------------------------------------------------------------
  // Case mapping and paths
  // ---------------------------------------------------------------------

  function UpperChar(c: char): char {
    if 'a' <= c <= 'z' then (c as int - 32) as char else c
  }

  function LowerChar(c: char): char {
    if 'A' <= c <= 'Z' then (c as int + 32) as char else c
  }

  /** `str.upper()` restricted to ASCII letters. */
  function Upper(s: string): (r: string)
    ensures |r| == |s|
    ensures forall k :: 0 <= k < |s| ==> r[k] == UpperChar(s[k])
  {
    seq(|s|, k requires 0 <= k < |s| => UpperChar(s[k]))
  }

  /** `str.lower()` restricted to ASCII letters. */
  function Lower(s: string): (r: string)
    ensures |r| == |s|
    ensures forall k :: 0 <= k < |s| ==> r[k] == LowerChar(s[k])
  {
    seq(|s|, k requires 0 <= k < |s| => LowerChar(s[k]))
  }

  /** `posixpath.join(a, b)`: an absolute `b` replaces `a`; otherwise one
      `/` separates them unless `a` is empty or already ends with `/`. */
  function PathJoin(a: string, b: string): (r: string)
    ensures StartsWith(b, "/") ==> r == b
    ensures !StartsWith(b, "/") ==> StartsWith(r, a) && |r| >= |a| + |b| && r[|r| - |b|..] == b
  {
    if StartsWith(b, "/") then b
    else if |a| == 0 || a[|a| - 1] == '/' then a + b
    else a + "/" + b
  }
}
