/**
 * Cleaning of a completed run's latest message before it is returned
 * (core_functions.py, lines 135-137). Three passes, each written as a scanner:
 *   1. every span the pattern 【.*?†.*?】 matches is deleted, leftmost first;
 *   2. every run of the class [^\S\r\n] (whitespace other than a line break)
 *      becomes one space;
 *   3. the ends are stripped of whitespace.
 */
module ReplyCleaning {
  import opened Wrappers
  import opened PyStrings

  const CitationOpen: char := '\U{3010}'   // 【
  const CitationMark: char := '\U{2020}'   // †
  const CitationClose: char := '\U{3011}'  // 】

  // ------------------------------------------------------------------
  // Pass 1: citation spans
  // ------------------------------------------------------------------

  /**
   * `t` is matched in full by 【.*?†.*?】: an opening bracket, a dagger and a
   * closing bracket in that order, with no line feed anywhere (`.` matches
   * every character except a line feed).
   */
  ghost predicate IsCitation(t: string) {
    && 3 <= |t|
    && t[0] == CitationOpen
    && t[|t| - 1] == CitationClose
    && (forall i :: 0 <= i < |t| ==> t[i] != '\n')
    && (exists j :: 0 < j < |t| - 1 && t[j] == CitationMark)
  }

  /** Some slice of `t` is a citation span, so the pattern would still match in `t`. */
  ghost predicate HasCitation(t: string) {
    exists i, n :: 0 <= i <= n <= |t| && IsCitation(t[i..n])
  }

  /** The first index at or after `from` holding `c`, provided no line feed comes before it. */
  function FindOnLine(s: string, from: nat, c: char): (r: Option<nat>)
    requires from <= |s| && c != '\n'
    ensures r.Some? ==> from <= r.value < |s| && s[r.value] == c
    decreases |s| - from
  {
    if from == |s| || s[from] == '\n' then None
    else if s[from] == c then Some(from)
    else FindOnLine(s, from + 1, c)
  }

  /** What FindOnLine skips over is neither `c` nor a line feed. */
  lemma {:induction false} FindOnLineSkips(s: string, from: nat, c: char)
    requires from <= |s| && c != '\n'
    ensures var r := FindOnLine(s, from, c);
      r.Some? ==> forall m :: from <= m < r.value ==> s[m] != c && s[m] != '\n'
    decreases |s| - from
  {
    if from < |s| && s[from] != '\n' && s[from] != c {
      FindOnLineSkips(s, from + 1, c);
    }
  }

  /** FindOnLine misses no occurrence of `c` that is on the line it scans. */
  lemma {:induction false} FindOnLineFinds(s: string, from: nat, c: char, m: nat)
    requires from <= m < |s| && c != '\n' && s[m] == c
    requires forall p :: from <= p < m ==> s[p] != '\n'
    ensures FindOnLine(s, from, c).Some? && FindOnLine(s, from, c).value <= m
    decreases m - from
  {
    if s[from] != c {
      FindOnLineFinds(s, from + 1, c, m);
    }
  }

  /**
   * The length of the span the lazy pattern matches at the start of `s`:
   * the opening bracket, then the first dagger on the same line, then the
   * first closing bracket on the same line after that dagger.
   */
  function CitationLength(s: string): (r: Option<nat>)
    ensures r.Some? ==> 3 <= r.value <= |s|
  {
    if s == [] || s[0] != CitationOpen then None
    else match FindOnLine(s, 1, CitationMark)
      case None => None
      case Some(j) =>
        match FindOnLine(s, j + 1, CitationClose)
        case None => None
        case Some(k) => Some(k + 1)
  }

  /**
   * CitationLength finds a span of the pattern whenever the pattern matches at
   * the start of `s`, and the one it finds is the shortest: the span a lazy
   * match selects.
   */
  lemma CitationLengthIsShortestMatch(s: string)
    ensures CitationLength(s).Some? ==> IsCitation(s[..CitationLength(s).value])
    ensures forall n :: 0 <= n <= |s| && IsCitation(s[..n]) ==>
              CitationLength(s).Some? && CitationLength(s).value <= n
  {
    if CitationLength(s).Some? {
      var j := FindOnLine(s, 1, CitationMark).value;
      var k := FindOnLine(s, j + 1, CitationClose).value;
      FindOnLineSkips(s, 1, CitationMark);
      FindOnLineSkips(s, j + 1, CitationClose);
      var t := s[..k + 1];
      assert t[j] == CitationMark;
      forall i | 0 <= i < |t| ensures t[i] != '\n' {
        if i == 0 {
        } else if i < j {
        } else if i == j {
        } else if i < k {
        } else {
        }
      }
    }
    forall n | 0 <= n <= |s| && IsCitation(s[..n])
      ensures CitationLength(s).Some? && CitationLength(s).value <= n
    {
      var t := s[..n];
      var m :| 0 < m < n - 1 && t[m] == CitationMark;
      assert s[0] == t[0];
      assert forall p :: 0 <= p < n ==> s[p] == t[p];
      FindOnLineFinds(s, 1, CitationMark, m);
      var j := FindOnLine(s, 1, CitationMark).value;
      assert s[n - 1] == t[n - 1];
      FindOnLineFinds(s, j + 1, CitationClose, n - 1);
    }
  }

  /** `re.sub(r"【.*?†.*?】", '', s)`: scan left to right, deleting each span the pattern matches. */
  function StripCitations(s: string): (r: string)
    decreases |s|
  {
    if s == [] then []
    else match CitationLength(s)
      case Some(n) => StripCitations(s[n..])
      case None => [s[0]] + StripCitations(s[1..])
  }

  /** The deletion pass never lengthens the text. */
  lemma {:induction false} StripCitationsShortens(s: string)
    ensures |StripCitations(s)| <= |s|
    decreases |s|
  {
    if s != [] {
      match CitationLength(s)
      case Some(n) => StripCitationsShortens(s[n..]);
      case None => StripCitationsShortens(s[1..]);
    }
  }

  /** `a` can be obtained from `b` by deleting characters. */
  ghost predicate IsSubsequence(a: string, b: string)
    decreases |b|
  {
    if a == [] then true
    else if b == [] then false
    else (a[0] == b[0] && IsSubsequence(a[1..], b[1..])) || IsSubsequence(a, b[1..])
  }

  lemma {:induction false} SubsequenceOfSuffix(a: string, b: string, k: nat)
    requires k <= |b| && IsSubsequence(a, b[k..])
    ensures IsSubsequence(a, b)
    decreases k
  {
    if k > 0 {
      assert b[k..] == b[1..][k - 1..];
      SubsequenceOfSuffix(a, b[1..], k - 1);
      if a != [] {
        assert IsSubsequence(a, b[1..]);
      }
    }
  }

  /** Cleaning only deletes characters: the ones it keeps stay in their relative order. */
  lemma {:induction false} StripCitationsKeepsOrder(s: string)
    ensures IsSubsequence(StripCitations(s), s)
    decreases |s|
  {
    if s != [] {
      match CitationLength(s)
      case Some(n) =>
        StripCitationsKeepsOrder(s[n..]);
        SubsequenceOfSuffix(StripCitations(s), s, n);
      case None =>
        StripCitationsKeepsOrder(s[1..]);
    }
  }

  /** Text without an opening bracket is kept as it is, and scanning resumes after it. */
  lemma {:induction false} StripCitationsKeepsPlainPrefix(p: string, t: string)
    requires forall i :: 0 <= i < |p| ==> p[i] != CitationOpen
    ensures StripCitations(p + t) == p + StripCitations(t)
    decreases |p|
  {
    if p != [] {
      assert StripCitations(p + t) == [p[0]] + StripCitations(p[1..] + t) by {
        assert (p + t)[0] == p[0];
        assert (p + t)[1..] == p[1..] + t;
      }
      assert forall i :: 0 <= i < |p[1..]| ==> p[1..][i] == p[i + 1];
      StripCitationsKeepsPlainPrefix(p[1..], t);
      assert [p[0]] + (p[1..] + StripCitations(t)) == p + StripCitations(t) by {
        assert p == [p[0]] + p[1..];
      }
    } else {
      assert p + t == t;
    }
  }

  /** A span of the pattern never reaches past a line feed. */
  lemma CitationLengthStopsAtLineFeed(a: string, b: string)
    ensures CitationLength(a + ['\n'] + b) == CitationLength(a)
  {
    var s := a + ['\n'] + b;
    CitationLengthIsShortestMatch(s);
    CitationLengthIsShortestMatch(a);
    forall n | 0 <= n <= |a| ensures s[..n] == a[..n] { }
    forall n | |a| < n <= |s| ensures !IsCitation(s[..n]) {
      assert s[..n][|a|] == '\n';
    }
    if CitationLength(a).Some? {
      var v := CitationLength(a).value;
      assert IsCitation(s[..v]);
    }
    if CitationLength(s).Some? {
      var w := CitationLength(s).value;
      assert IsCitation(a[..w]);
    }
  }

  /** Each line is cleaned on its own: line feeds are kept and no span crosses one. */
  lemma {:induction false} StripCitationsByLine(a: string, b: string)
    ensures StripCitations(a + ['\n'] + b) == StripCitations(a) + ['\n'] + StripCitations(b)
    decreases |a|
  {
    var s := a + ['\n'] + b;
    if a == [] {
      assert s == ['\n'] + b;
      assert s[1..] == b;
    } else {
      CitationLengthStopsAtLineFeed(a, b);
      match CitationLength(a)
      case Some(n) =>
        assert s[n..] == a[n..] + ['\n'] + b;
        StripCitationsByLine(a[n..], b);
      case None =>
        assert s[1..] == a[1..] + ['\n'] + b;
        StripCitationsByLine(a[1..], b);
    }
  }

  /** A text without any span of the pattern comes out unchanged. */
  lemma {:induction false} StripCitationsIdentity(t: string)
    requires !HasCitation(t)
    ensures StripCitations(t) == t
    decreases |t|
  {
    if t != [] {
      forall n | 0 <= n <= |t| ensures !IsCitation(t[..n]) {
        assert t[..n] == t[0..n];
      }
      CitationLengthIsShortestMatch(t);
      forall i, n | 0 <= i <= n <= |t[1..]| ensures !IsCitation(t[1..][i..n]) {
        assert t[1..][i..n] == t[i + 1..n + 1];
      }
      StripCitationsIdentity(t[1..]);
    }
  }

  /** On a line that starts with an opening bracket, a span of the pattern anywhere extends back to the start. */
  lemma CitationExtendsBack(t: string, i: nat, n: nat)
    requires t != [] && t[0] == CitationOpen
    requires forall k :: 0 <= k < |t| ==> t[k] != '\n'
    requires i <= n <= |t| && IsCitation(t[i..n])
    ensures IsCitation(t[..n])
  {
    var c := t[i..n];
    var j :| 0 < j < |c| - 1 && c[j] == CitationMark;
    assert t[..n][i + j] == CitationMark;
    assert t[..n][n - 1] == c[|c| - 1];
  }

  /** On a single line, an opening bracket where the pattern fails blocks every later match on that line. */
  lemma FailedOpenBlocksLine(t: string)
    requires t != [] && t[0] == CitationOpen && CitationLength(t).None?
    requires forall i :: 0 <= i < |t| ==> t[i] != '\n'
    ensures !HasCitation(t)
  {
    forall i, n | 0 <= i <= n <= |t| && IsCitation(t[i..n]) ensures IsCitation(t[..n]) {
      CitationExtendsBack(t, i, n);
    }
    CitationLengthIsShortestMatch(t);
  }

  lemma {:induction false} StripLineLeavesNoCitation(t: string)
    requires forall i :: 0 <= i < |t| ==> t[i] != '\n'
    ensures !HasCitation(StripCitations(t))
    decreases |t|
  {
    if t != [] {
      match CitationLength(t)
      case Some(n) =>
        StripLineLeavesNoCitation(t[n..]);
      case None =>
        if t[0] == CitationOpen {
          FailedOpenIsKept(t);
        } else {
          assert forall i :: 0 <= i < |t[1..]| ==> t[1..][i] == t[i + 1];
          StripLineLeavesNoCitation(t[1..]);
          NoCitationAfterPlainChar(t[0], StripCitations(t[1..]));
        }
    }
  }

  /** An opening bracket that starts no citation, with no line feed after it, leaves the whole line as it is. */
  lemma FailedOpenIsKept(t: string)
    requires t != [] && t[0] == CitationOpen && CitationLength(t).None?
    requires forall i :: 0 <= i < |t| ==> t[i] != '\n'
    ensures !HasCitation(StripCitations(t))
  {
    FailedOpenBlocksLine(t);
    forall i, n | 0 <= i <= n <= |t[1..]| ensures !IsCitation(t[1..][i..n]) {
      assert t[1..][i..n] == t[i + 1..n + 1];
    }
    StripCitationsIdentity(t[1..]);
    assert StripCitations(t) == [t[0]] + StripCitations(t[1..]);
    assert [t[0]] + t[1..] == t;
  }

  /** A character other than an opening bracket cannot start a citation in front of a text free of them. */
  lemma NoCitationAfterPlainChar(c: char, rest: string)
    requires c != CitationOpen && !HasCitation(rest)
    ensures !HasCitation([c] + rest)
  {
    var r := [c] + rest;
    forall i, n | 0 <= i <= n <= |r| ensures !IsCitation(r[i..n]) {
      if i == 0 {
        assert r[i..n] == [] || r[i..n][0] == c;
      } else {
        assert r[i..n] == rest[i - 1..n - 1];
      }
    }
  }

  lemma HasCitationByLine(x: string, y: string)
    requires !HasCitation(x) && !HasCitation(y)
    ensures !HasCitation(x + ['\n'] + y)
  {
    var s := x + ['\n'] + y;
    forall i, n | 0 <= i <= n <= |s| ensures !IsCitation(s[i..n]) {
      if n <= |x| {
        assert s[i..n] == x[i..n];
      } else if i > |x| {
        assert s[i..n] == y[i - |x| - 1..n - |x| - 1];
      } else {
        assert s[i..n][|x| - i] == '\n';
      }
    }
  }

  /** After the deletion pass the pattern matches nowhere in the text. */
  lemma {:induction false} StripCitationsLeavesNoCitation(s: string)
    ensures !HasCitation(StripCitations(s))
    decreases |s|
  {
    if forall i :: 0 <= i < |s| ==> s[i] != '\n' {
      StripLineLeavesNoCitation(s);
    } else {
      var p :| 0 <= p < |s| && s[p] == '\n';
      var a, b := s[..p], s[p + 1..];
      assert s == a + ['\n'] + b;
      StripCitationsByLine(a, b);
      StripCitationsLeavesNoCitation(a);
      StripCitationsLeavesNoCitation(b);
      HasCitationByLine(StripCitations(a), StripCitations(b));
    }
  }

  /** Running the deletion pass a second time changes nothing. */
  lemma StripCitationsIdempotent(s: string)
    ensures StripCitations(StripCitations(s)) == StripCitations(s)
  {
    StripCitationsLeavesNoCitation(s);
    StripCitationsIdentity(StripCitations(s));
  }

  // ------------------------------------------------------------------
  // Pass 2: runs of whitespace other than a line break
  // ------------------------------------------------------------------

  /** The class [^\S\r\n]: whitespace, but neither a carriage return nor a line feed. */
  predicate IsBlank(c: char) {
    IsSpace(c) && c != '\r' && c != '\n'
  }

  predicate AllBlank(s: string) {
    forall i :: 0 <= i < |s| ==> IsBlank(s[i])
  }

  /** Drops the run of blanks at the start of `s`. */
  function SkipBlanks(s: string): (r: string)
    ensures |r| <= |s| && r == s[|s| - |r|..]
    ensures AllBlank(s[..|s| - |r|])
    ensures r == [] || !IsBlank(r[0])
    decreases |s|
  {
    if s != [] && IsBlank(s[0]) then SkipBlanks(s[1..]) else s
  }

  /** `re.sub(r'[^\S\r\n]+', ' ', s)` */
  function CollapseBlanks(s: string): (r: string)
    ensures |r| <= |s|
    ensures r == [] <==> s == []
    ensures r != [] ==> (IsBlank(r[0]) <==> IsBlank(s[0]))
    decreases |s|
  {
    if s == [] then []
    else if IsBlank(s[0]) then [' '] + CollapseBlanks(SkipBlanks(s))
    else [s[0]] + CollapseBlanks(s[1..])
  }

  /** Every blank is a plain space and no two blanks are adjacent. */
  ghost predicate IsCollapsed(t: string) {
    forall i :: 0 <= i < |t| && IsBlank(t[i]) ==> t[i] == ' ' && (i + 1 < |t| ==> !IsBlank(t[i + 1]))
  }

  /** The characters that are not blanks, in order. */
  function NonBlanks(s: string): string
    decreases |s|
  {
    if s == [] then [] else (if IsBlank(s[0]) then [] else [s[0]]) + NonBlanks(s[1..])
  }

  lemma {:induction false} CollapseBlanksIsCollapsed(s: string)
    ensures IsCollapsed(CollapseBlanks(s))
    decreases |s|
  {
    if s != [] {
      if IsBlank(s[0]) {
        CollapseBlanksIsCollapsed(SkipBlanks(s));
      } else {
        CollapseBlanksIsCollapsed(s[1..]);
      }
    }
  }

  /** A text that is already collapsed is left unchanged. */
  lemma {:induction false} CollapseBlanksKeepsCollapsed(t: string)
    requires IsCollapsed(t)
    ensures CollapseBlanks(t) == t
    decreases |t|
  {
    if t != [] {
      assert IsCollapsed(t[1..]) by {
        forall i | 0 <= i < |t[1..]| && IsBlank(t[1..][i])
          ensures t[1..][i] == ' ' && (i + 1 < |t[1..]| ==> !IsBlank(t[1..][i + 1]))
        {
          assert t[1..][i] == t[i + 1];
        }
      }
      if IsBlank(t[0]) {
        assert SkipBlanks(t) == t[1..] by {
          assert t[1..] == [] || !IsBlank(t[1]);
        }
      }
      CollapseBlanksKeepsCollapsed(t[1..]);
    }
  }

  lemma {:induction false} SkipBlanksOverRun(u: string, q: string)
    requires AllBlank(u)
    ensures SkipBlanks(u + q) == SkipBlanks(q)
    decreases |u|
  {
    if u != [] {
      assert (u + q)[0] == u[0];
      assert IsBlank(u[0]);
      assert (u + q)[1..] == u[1..] + q;
      assert AllBlank(u[1..]) by {
        forall i | 0 <= i < |u[1..]| ensures IsBlank(u[1..][i]) {
          assert u[1..][i] == u[i + 1];
        }
      }
      SkipBlanksOverRun(u[1..], q);
    } else {
      assert u + q == q;
    }
  }

  lemma {:induction false} SkipBlanksOfPrefix(p: string, x: string)
    requires SkipBlanks(p) != []
    ensures SkipBlanks(p + x) == SkipBlanks(p) + x
    decreases |p|
  {
    assert (p + x)[0] == p[0];
    if IsBlank(p[0]) {
      assert SkipBlanks(p + x) == SkipBlanks(p[1..] + x) by {
        assert (p + x)[1..] == p[1..] + x;
      }
      SkipBlanksOfPrefix(p[1..], x);
    }
  }

  /** A text that starts with a run of blanks collapses to one space followed by the rest. */
  lemma CollapseBlanksAfterRun(run: string, q: string)
    requires run != [] && AllBlank(run)
    ensures CollapseBlanks(run + q) == [' '] + CollapseBlanks(SkipBlanks(q))
  {
    assert (run + q)[0] == run[0];
    SkipBlanksOverRun(run, q);
  }

  lemma CollapseBlanksAfterBlankPrefix(p: string, x: string)
    requires p != [] && IsBlank(p[0]) && SkipBlanks(p) != []
    ensures CollapseBlanks(p + x) == [' '] + CollapseBlanks(SkipBlanks(p) + x)
  {
    assert (p + x)[0] == p[0];
    SkipBlanksOfPrefix(p, x);
  }

  lemma CollapseBlanksAfterBlankPrefix3(p: string, m: string, q: string)
    requires p != [] && IsBlank(p[0]) && SkipBlanks(p) != []
    ensures CollapseBlanks(p + m + q) == [' '] + CollapseBlanks(SkipBlanks(p) + m + q)
  {
    assert p + m + q == p + (m + q);
    CollapseBlanksAfterBlankPrefix(p, m + q);
    assert SkipBlanks(p) + (m + q) == SkipBlanks(p) + m + q;
  }

  /** The base case of CollapseBlanksRunIsOneSpace: only blanks come before the run. */
  lemma CollapseBlanksRunAfterBlanks(p: string, run: string, q: string)
    requires run != [] && AllBlank(run) && AllBlank(p)
    ensures CollapseBlanks(p + run + q) == CollapseBlanks(p + [' '] + q)
  {
    assert AllBlank(p + run);
    assert AllBlank(p + [' ']);
    assert p + run + q == (p + run) + q;
    assert p + [' '] + q == (p + [' ']) + q;
    CollapseBlanksAfterRun(p + run, q);
    CollapseBlanksAfterRun(p + [' '], q);
  }

  lemma CollapseBlanksAfterNonBlank(c: char, x: string)
    requires !IsBlank(c)
    ensures CollapseBlanks([c] + x) == [c] + CollapseBlanks(x)
  {
    assert ([c] + x)[1..] == x;
  }

  /**
   * Each run of blanks counts as one space, whatever its length and content:
   * replacing any non-empty run by a single space does not change the result.
   * With CollapseBlanksKeepsCollapsed this determines CollapseBlanks entirely.
   */
  lemma {:induction false} CollapseBlanksRunIsOneSpace(p: string, run: string, q: string)
    requires run != [] && AllBlank(run)
    ensures CollapseBlanks(p + run + q) == CollapseBlanks(p + [' '] + q)
    decreases |p|, 1
  {
    if AllBlank(p) {
      CollapseBlanksRunAfterBlanks(p, run, q);
    } else if !IsBlank(p[0]) {
      RunIsOneSpaceAfterNonBlank(p, run, q);
    } else {
      RunIsOneSpaceAfterBlank(p, run, q);
    }
  }

  lemma {:induction false} RunIsOneSpaceAfterNonBlank(p: string, run: string, q: string)
    requires run != [] && AllBlank(run) && p != [] && !IsBlank(p[0])
    ensures CollapseBlanks(p + run + q) == CollapseBlanks(p + [' '] + q)
    decreases |p|, 0
  {
    var p1 := p[1..];
    assert p + run + q == [p[0]] + (p1 + run + q);
    assert p + [' '] + q == [p[0]] + (p1 + [' '] + q);
    CollapseBlanksAfterNonBlank(p[0], p1 + run + q);
    CollapseBlanksAfterNonBlank(p[0], p1 + [' '] + q);
    CollapseBlanksRunIsOneSpace(p1, run, q);
  }

  lemma {:induction false} RunIsOneSpaceAfterBlank(p: string, run: string, q: string)
    requires run != [] && AllBlank(run) && p != [] && IsBlank(p[0]) && !AllBlank(p)
    ensures CollapseBlanks(p + run + q) == CollapseBlanks(p + [' '] + q)
    decreases |p|, 0
  {
    var p' := SkipBlanks(p);
    assert p[..|p|] == p;
    CollapseBlanksAfterBlankPrefix3(p, run, q);
    CollapseBlanksAfterBlankPrefix3(p, [' '], q);
    CollapseBlanksRunIsOneSpace(p', run, q);
  }

  lemma {:induction false} NonBlanksAppend(a: string, b: string)
    ensures NonBlanks(a + b) == NonBlanks(a) + NonBlanks(b)
    decreases |a|
  {
    if a != [] {
      assert (a + b)[0] == a[0];
      assert (a + b)[1..] == a[1..] + b;
      NonBlanksAppend(a[1..], b);
      assert NonBlanks(a + b) == (if IsBlank(a[0]) then [] else [a[0]]) + NonBlanks(a[1..] + b);
    } else {
      assert a + b == b;
    }
  }

  lemma {:induction false} NonBlanksOfRun(u: string)
    requires AllBlank(u)
    ensures NonBlanks(u) == []
    decreases |u|
  {
    if u != [] {
      NonBlanksOfRun(u[1..]);
    }
  }

  /** Every character that is not a blank, line breaks included, is kept, in order. */
  lemma {:induction false} CollapseBlanksKeepsNonBlanks(s: string)
    ensures NonBlanks(CollapseBlanks(s)) == NonBlanks(s)
    decreases |s|
  {
    if s != [] {
      if IsBlank(s[0]) {
        var k := |s| - |SkipBlanks(s)|;
        assert s == s[..k] + SkipBlanks(s);
        NonBlanksAppend(s[..k], SkipBlanks(s));
        NonBlanksOfRun(s[..k]);
        NonBlanksAppend([' '], CollapseBlanks(SkipBlanks(s)));
        CollapseBlanksKeepsNonBlanks(SkipBlanks(s));
      } else {
        CollapseBlanksKeepsNonBlanks(s[1..]);
      }
    }
  }

  // ------------------------------------------------------------------
  // The whole cleaning
  // ------------------------------------------------------------------

  lemma CollapsedSlice(t: string, a: nat, b: nat)
    requires IsCollapsed(t) && a <= b <= |t|
    ensures IsCollapsed(t[a..b])
  {
    forall i | 0 <= i < b - a && IsBlank(t[a..b][i])
      ensures t[a..b][i] == ' ' && (i + 1 < b - a ==> !IsBlank(t[a..b][i + 1]))
    {
      assert t[a..b][i] == t[a + i];
    }
  }

  /**
   * The reply text as the loop returns it: citations removed, blank runs
   * collapsed, then stripped.
   */
  function CleanReply(text: string): (r: string)
    ensures |r| <= |text|
  {
    StripCitationsShortens(text);
    Trim(CollapseBlanks(StripCitations(text)))
  }

  /**
   * The cleaned reply has no whitespace at either end and every remaining
   * blank is a single space between non-blanks; inside the stripped ends it is
   * the text of the collapsed reply as it was.
   */
  lemma CleanReplyIsClean(text: string)
    ensures var r := CleanReply(text); r == [] || (!IsSpace(r[0]) && !IsSpace(r[|r| - 1]))
    ensures IsCollapsed(CleanReply(text))
    ensures IsStrippedSlice(CollapseBlanks(StripCitations(text)), CleanReply(text),
                            LeadingSpaces(CollapseBlanks(StripCitations(text))))
  {
    var collapsed := CollapseBlanks(StripCitations(text));
    TrimIsStrippedSlice(collapsed);
    assert IsCollapsed(Trim(collapsed)) by {
      var a := LeadingSpaces(collapsed);
      CollapseBlanksIsCollapsed(StripCitations(text));
      CollapsedSlice(collapsed, a, a + |Trim(collapsed)|);
    }
  }
}
