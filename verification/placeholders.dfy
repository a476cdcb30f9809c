/** The three regular expressions of arduino_helpers/context.py, as
    hand-written scanners with declarative readings:

    - `{[a-zA-Z_][a-zA-Z_0-9]*(\.[a-zA-Z_][a-zA-Z_0-9]*)*}`, which `resolve`
      applies with `re.match` (a match at the start, not of the whole text);
    - `{.*?}`, which `resolve_arduino_vars` hands to `re.findall`;
    - `({[a-zA-Z_]+(\.[a-zA-Z_]+)*})`, the digit-free pattern
      `resolve_recursive` hands to `re.findall` to decide when to stop.
 */
module Placeholders {
  import opened Failures
  import opened Strings

  /** The two dotted-name grammars: identifiers may hold digits after their
      first character, the stop pattern's words hold letters and `_` only. */
  datatype Grammar = Identifier | LettersOnly

  predicate StartChar(c: char) {
    ('a' <= c <= 'z') || ('A' <= c <= 'Z') || c == '_'
  }

  predicate InnerChar(g: Grammar, c: char) {
    StartChar(c) || (g == Identifier && '0' <= c <= '9')
  }

  /** One word of the grammar: `[a-zA-Z_][a-zA-Z_0-9]*` or `[a-zA-Z_]+`. */
  predicate Word(g: Grammar, w: string) {
    |w| > 0 && StartChar(w[0]) && forall k :: 1 <= k < |w| ==> InnerChar(g, w[k])
  }

  /** Within `s[lo..hi]`: only dots and word characters, every dot
      followed by a word's first character, and no dot at the end. */
  predicate DottedIn(g: Grammar, s: string, lo: nat, hi: nat)
    requires lo <= hi <= |s|
  {
    && (forall k :: lo <= k < hi ==> s[k] == '.' || InnerChar(g, s[k]))
    && (forall k :: lo <= k < hi - 1 && s[k] == '.' ==> StartChar(s[k + 1]))
    && (lo < hi ==> s[hi - 1] != '.')
  }

  /** Words joined by single dots, `word(\.word)*`: a word's first
      character, then the rules of `DottedIn`. */
  predicate Words(g: Grammar, t: string) {
    |t| > 0 && StartChar(t[0]) && DottedIn(g, t, 0, |t|)
  }

  /** A whole placeholder: braces around dotted words. */
  predicate IsVariable(g: Grammar, v: string) {
    |v| >= 2 && v[0] == '{' && v[|v| - 1] == '}' && Words(g, v[1..|v| - 1])
  }

  /** Some prefix of `s` is a placeholder, which is what `re.match` asks. */
  ghost predicate MatchesPrefix(g: Grammar, s: string) {
    exists n :: 0 <= n <= |s| && IsVariable(g, s[..n])
  }

  // ---------------------------------------------------------------------
  // The scanner
  // ---------------------------------------------------------------------

  /** The length of the placeholder at the start of `s`, if there is one. */
  function Scan(g: Grammar, s: string): (r: Option<nat>)
    ensures r.Some? ==> 3 <= r.value <= |s|
  {
    if |s| > 0 && s[0] == '{' then ScanName(g, s, 1) else None
  }

  /** Expecting the first character of a word at `i`. */
  function ScanName(g: Grammar, s: string, i: nat): (r: Option<nat>)
    requires 0 < i <= |s|
    ensures r.Some? ==> i + 2 <= r.value <= |s|
    decreases |s| - i, 1
  {
    if i < |s| && StartChar(s[i]) then ScanTail(g, s, i + 1) else None
  }

  /** Inside a word, before position `i`. */
  function ScanTail(g: Grammar, s: string, i: nat): (r: Option<nat>)
    requires 0 < i <= |s|
    ensures r.Some? ==> i + 1 <= r.value <= |s|
    decreases |s| - i, 0
  {
    if i == |s| then None
    else if InnerChar(g, s[i]) then ScanTail(g, s, i + 1)
    else if s[i] == '.' then ScanName(g, s, i + 1)
    else if s[i] == '}' then Some(i + 1)
    else None
  }

  // ---------------------------------------------------------------------
  // Dotted words
  // ---------------------------------------------------------------------

  /** Dotted words within `s[lo..hi]`, read in place. */
  lemma WordsAt(g: Grammar, s: string, lo: nat, hi: nat)
    requires lo <= hi <= |s|
    ensures Words(g, s[lo..hi]) <==> lo < hi && StartChar(s[lo]) && DottedIn(g, s, lo, hi)
  {
    var t := s[lo..hi];
    assert forall k :: 0 <= k < |t| ==> t[k] == s[lo + k];
    if lo < hi && StartChar(s[lo]) && DottedIn(g, s, lo, hi) {
      forall k | 0 <= k < |t| - 1 && t[k] == '.' ensures StartChar(t[k + 1]) {
        assert t[k + 1] == s[lo + k + 1];
      }
    }
    if Words(g, t) {
      forall k | lo <= k < hi ensures s[k] == '.' || InnerChar(g, s[k]) {
        assert s[k] == t[k - lo];
      }
      forall k | lo <= k < hi - 1 && s[k] == '.' ensures StartChar(s[k + 1]) {
        assert s[k] == t[k - lo] && s[k + 1] == t[k - lo + 1];
      }
    }
  }

  /** A word followed by a dot and more text. */
  lemma WordsCons(g: Grammar, a: string, b: string)
    requires '.' !in a
    ensures Words(g, a + "." + b) <==> Word(g, a) && Words(g, b)
  {
    var t := a + "." + b;
    var n := |a|;
    assert t[n] == '.';
    assert forall k :: 0 <= k < n ==> t[k] == a[k];
    assert forall k :: n < k < |t| ==> t[k] == b[k - n - 1];
    if Word(g, a) && Words(g, b) {
      forall k | 0 <= k < |t| ensures t[k] == '.' || InnerChar(g, t[k]) {
        if k < n { assert t[k] == a[k]; } else if k > n { assert t[k] == b[k - n - 1]; }
      }
      forall k | 0 <= k < |t| - 1 && t[k] == '.' ensures StartChar(t[k + 1]) {
        if k < n { assert false; }
        else if k > n { assert t[k + 1] == b[k - n]; }
      }
    }
    if Words(g, t) {
      assert n > 0 by { if n == 0 { assert false; } }
      assert a[n - 1] == t[n - 1];
      forall k | 1 <= k < n ensures InnerChar(g, a[k]) {
        assert a[k] == t[k] && a[k] != '.';
      }
      assert b == t[n + 1..];
      WordsAt(g, t, n + 1, |t|);
      assert |b| > 0 by { if |b| == 0 { assert false; } }
    }
  }

  /** Text without a dot is dotted words exactly when it is one word. */
  lemma WordsSingle(g: Grammar, a: string)
    requires '.' !in a
    ensures Words(g, a) <==> Word(g, a)
  {
    if Word(g, a) {
      forall k | 0 <= k < |a| ensures a[k] == '.' || InnerChar(g, a[k]) {
        if k == 0 { assert StartChar(a[0]); }
      }
    }
  }

  /** Every text of `r` is a word. */
  predicate AllWords(g: Grammar, r: seq<string>) {
    forall k :: 0 <= k < |r| ==> Word(g, r[k])
  }

  lemma AllWordsCons(g: Grammar, a: string, r: seq<string>)
    ensures AllWords(g, [a] + r) <==> Word(g, a) && AllWords(g, r)
  {
    var u := [a] + r;
    assert u[0] == a;
    assert forall k :: 0 <= k < |r| ==> u[k + 1] == r[k];
    if AllWords(g, r) && Word(g, a) {
      forall k | 0 <= k < |u| ensures Word(g, u[k]) {
        if k > 0 { assert u[k] == r[k - 1]; }
      }
    }
  }

  /** Dotted words are the texts whose `.`-separated pieces are all words,
      so splitting a placeholder's inside on `.` gives its words. */
  lemma {:induction false} WordsSplit(g: Grammar, t: string)
    ensures Words(g, t) <==> AllWords(g, Split(t, '.'))
    decreases |t|
  {
    match IndexOf(t, '.')
    case None =>
      SplitNoSep(t, '.');
      WordsSingle(g, t);
      assert AllWords(g, [t]) <==> Word(g, t);
    case Some(i) =>
      var a, b := t[..i], t[i + 1..];
      assert t == a + "." + b;
      WordsCons(g, a, b);
      WordsSplit(g, b);
      SplitCons(a, '.', b);
      AllWordsCons(g, a, Split(b, '.'));
  }

  // ---------------------------------------------------------------------
  // The scanner finds exactly the placeholders
  // ---------------------------------------------------------------------

  lemma {:induction false} ScanNameSound(g: Grammar, s: string, i: nat)
    requires 0 < i <= |s| && ScanName(g, s, i).Some?
    ensures var n := ScanName(g, s, i).value;
      s[n - 1] == '}' && StartChar(s[i]) && DottedIn(g, s, i, n - 1)
    decreases |s| - i, 1
  {
    ScanTailSound(g, s, i + 1);
  }

  lemma {:induction false} ScanTailSound(g: Grammar, s: string, i: nat)
    requires 0 < i <= |s| && InnerChar(g, s[i - 1]) && ScanTail(g, s, i).Some?
    ensures var n := ScanTail(g, s, i).value; s[n - 1] == '}' && DottedIn(g, s, i - 1, n - 1)
    decreases |s| - i, 0
  {
    if InnerChar(g, s[i]) {
      ScanTailSound(g, s, i + 1);
    } else if s[i] == '.' {
      ScanNameSound(g, s, i + 1);
    }
  }

  lemma {:induction false} ScanNameComplete(g: Grammar, s: string, i: nat, n: nat)
    requires 0 < i < n - 1 && n <= |s| && s[n - 1] == '}'
    requires StartChar(s[i]) && DottedIn(g, s, i, n - 1)
    ensures ScanName(g, s, i) == Some(n)
    decreases |s| - i, 1
  {
    ScanTailComplete(g, s, i + 1, n);
  }

  lemma {:induction false} ScanTailComplete(g: Grammar, s: string, i: nat, n: nat)
    requires 0 < i < n <= |s| && s[n - 1] == '}'
    requires InnerChar(g, s[i - 1]) && DottedIn(g, s, i - 1, n - 1)
    ensures ScanTail(g, s, i) == Some(n)
    decreases |s| - i, 0
  {
    if i < n - 1 {
      if s[i] == '.' {
        ScanNameComplete(g, s, i + 1, n);
      } else {
        ScanTailComplete(g, s, i + 1, n);
      }
    }
  }

  /** The scanner reports `n` exactly when the first `n` characters form a
      placeholder. */
  lemma ScanExactly(g: Grammar, s: string, n: nat)
    requires n <= |s|
    ensures Scan(g, s) == Some(n) <==> IsVariable(g, s[..n])
  {
    if n >= 2 {
      assert s[..n][1..n - 1] == s[1..n - 1];
      WordsAt(g, s, 1, n - 1);
    }
    if Scan(g, s) == Some(n) {
      ScanNameSound(g, s, 1);
    }
    if IsVariable(g, s[..n]) {
      ScanNameComplete(g, s, 1, n);
    }
  }

  /** `re.match` succeeds exactly when the scanner finds a placeholder. */
  lemma ScanMatches(g: Grammar, s: string)
    ensures Scan(g, s).Some? <==> MatchesPrefix(g, s)
  {
    if Scan(g, s).Some? {
      ScanExactly(g, s, Scan(g, s).value);
    }
    if MatchesPrefix(g, s) {
      var n :| 0 <= n <= |s| && IsVariable(g, s[..n]);
      ScanExactly(g, s, n);
    }
  }

  // ---------------------------------------------------------------------
  // `re.findall(r'{.*?}', text)`
  // ---------------------------------------------------------------------

  /** A match of `{.*?}`: braces around text holding no `}` (the match is
      lazy) and no newline (`.` does not match one). */
  predicate Braced(m: string) {
    && |m| >= 2 && m[0] == '{' && m[|m| - 1] == '}'
    && forall k :: 1 <= k < |m| - 1 ==> m[k] != '}' && m[k] != '\n'
  }

  /** No newline strictly between positions `a` and `b`. */
  predicate Clear(s: string, a: nat, b: nat) {
    forall k :: a < k < b && k < |s| ==> s[k] != '\n'
  }

  /** Some `{` at or after `i` is followed by a `}` with no newline between,
      so that `{.*?}` has a match in `s[i..]`. */
  ghost predicate HasBraced(s: string, i: nat) {
    exists a, b :: i <= a < b < |s| && s[a] == '{' && s[b] == '}' && Clear(s, a, b)
  }

  /** The first `}` at or after `j`, unless a newline or the end comes first. */
  function CloseAt(s: string, j: nat): (r: Option<nat>)
    requires j <= |s|
    ensures r.Some? ==> j <= r.value < |s| && s[r.value] == '}'
    ensures r.Some? ==> forall k :: j <= k < r.value ==> s[k] != '}' && s[k] != '\n'
    ensures r.None? ==> forall b :: j <= b < |s| && s[b] == '}' ==> exists k :: j <= k < b && s[k] == '\n'
    decreases |s| - j
  {
    if j == |s| then None
    else if s[j] == '}' then Some(j)
    else if s[j] == '\n' then None
    else CloseAt(s, j + 1)
  }

  /** The matches of `{.*?}` in `s[i..]`, scanning left to right and
      resuming after each match. */
  function FindBracedFrom(s: string, i: nat): (r: seq<string>)
    requires i <= |s|
    ensures forall k :: 0 <= k < |r| ==> Braced(r[k])
    decreases |s| - i
  {
    if i == |s| then []
    else if s[i] == '{' && CloseAt(s, i + 1).Some? then
      var c := CloseAt(s, i + 1).value;
      [s[i..c + 1]] + FindBracedFrom(s, c + 1)
    else FindBracedFrom(s, i + 1)
  }

  function FindBraced(s: string): seq<string> {
    FindBracedFrom(s, 0)
  }

  /** Every match is a piece of the scanned text. */
  lemma {:induction false} FindBracedOccurs(s: string, i: nat, m: string)
    requires i <= |s| && m in FindBracedFrom(s, i)
    ensures Occurs(s, m)
    decreases |s| - i
  {
    if s[i] == '{' && CloseAt(s, i + 1).Some? {
      var c := CloseAt(s, i + 1).value;
      if m == s[i..c + 1] {
        assert s[i..][..|m|] == m;
        OccursAt(s, m, i);
      } else {
        FindBracedOccurs(s, c + 1, m);
      }
    } else {
      FindBracedOccurs(s, i + 1, m);
    }
  }

  /** The scan finds nothing exactly when no `{` is followed by a `}` on the
      same line. */
  lemma {:induction false} FindBracedEmpty(s: string, i: nat)
    requires i <= |s|
    ensures FindBracedFrom(s, i) == [] <==> !HasBraced(s, i)
    decreases |s| - i
  {
    if i < |s| {
      if s[i] == '{' && CloseAt(s, i + 1).Some? {
        var c := CloseAt(s, i + 1).value;
        assert Clear(s, i, c);
      } else {
        FindBracedEmpty(s, i + 1);
        if HasBraced(s, i) {
          var a, b :| i <= a < b < |s| && s[a] == '{' && s[b] == '}' && Clear(s, a, b);
          assert a != i;
        }
      }
    }
  }

  // ---------------------------------------------------------------------
  // `re.findall(r'({[a-zA-Z_]+(\.[a-zA-Z_]+)*})', text)`
  // ---------------------------------------------------------------------

  /** `s[a..a + n]` is a digit-free placeholder. */
  predicate VariableAt(s: string, a: nat, n: nat) {
    a + n <= |s| && IsVariable(LettersOnly, s[a..a + n])
  }

  /** The scanner, started at `a`, reports `n` exactly at a placeholder. */
  lemma ScanAt(s: string, a: nat, n: nat)
    requires a <= |s|
    ensures Scan(LettersOnly, s[a..]) == Some(n) <==> VariableAt(s, a, n)
  {
    if a + n <= |s| {
      assert s[a..][..n] == s[a..a + n];
      ScanExactly(LettersOnly, s[a..], n);
    } else if Scan(LettersOnly, s[a..]) == Some(n) {
      assert false;
    }
  }

  /** The digit-free placeholders in `s[i..]`, scanning left to right and
      resuming after each match. Python's `findall` reports a pair of
      groups per match; the second group is a function of the first, so
      two such lists are equal exactly when the whole matches are. */
  function FindVariablesFrom(s: string, i: nat): (r: seq<string>)
    requires i <= |s|
    ensures forall k :: 0 <= k < |r| ==> IsVariable(LettersOnly, r[k])
    decreases |s| - i
  {
    if i == |s| then []
    else match Scan(LettersOnly, s[i..])
      case Some(n) =>
        ScanAt(s, i, n);
        [s[i..i + n]] + FindVariablesFrom(s, i + n)
      case None => FindVariablesFrom(s, i + 1)
  }

  function FindVariables(s: string): seq<string> {
    FindVariablesFrom(s, 0)
  }

  /** Some stretch of `s[i..]` is a digit-free placeholder. */
  ghost predicate HasVariable(s: string, i: nat) {
    exists a: nat, n: nat :: i <= a && VariableAt(s, a, n)
  }

  /** The scan finds nothing exactly when no stretch of the text is a
      digit-free placeholder. */
  lemma {:induction false} FindVariablesEmpty(s: string, i: nat)
    requires i <= |s|
    ensures FindVariablesFrom(s, i) == [] <==> !HasVariable(s, i)
    decreases |s| - i
  {
    if i < |s| {
      match Scan(LettersOnly, s[i..])
      case Some(n) =>
        ScanAt(s, i, n);
      case None =>
        FindVariablesEmpty(s, i + 1);
        if HasVariable(s, i) {
          var a: nat, n: nat :| i <= a && VariableAt(s, a, n);
          ScanAt(s, i, n);
          assert a != i;
        }
    }
  }

  /** Without a `{` neither pattern finds anything. */
  lemma NoBraceNoMatch(s: string)
    requires '{' !in s
    ensures FindBraced(s) == [] && FindVariables(s) == []
  {
    FindBracedEmpty(s, 0);
    FindVariablesEmpty(s, 0);
    forall a: nat, n: nat ensures !VariableAt(s, a, n) {
      if a + n <= |s| && n >= 2 {
        assert s[a..a + n][0] == s[a];
      }
    }
  }
}
