/** The line-level regular expressions of the preprocessor
    (`structure_patterns` and the table-of-contents leader pattern), each
    written out as a predicate on characters.  Every pattern is applied with
    `re.match`, so it is anchored at the start of the line and may be
    followed by anything. */
module Patterns {
  import opened Text
  import opened Ordinals

  /** `^目\s*录`: "目", any whitespace, then "录". */
  predicate IsTocLine(line: string)
  {
    |line| >= 1 && line[0] == '目' &&
    var rest := TrimStart(line[1..]);
    |rest| >= 1 && rest[0] == '录'
  }

  /** `^【卷之[一二三四五六七八九十]+】`. */
  predicate IsVolumeLine(line: string)
  {
    StartsWith(line, "【卷之") &&
    var k := Span(line[3..], IsNumeral);
    k >= 1 && 3 + k < |line| && line[3 + k] == '】'
  }

  /** Python's `line[3:-1]` on a volume line: what lies between "【卷之" and
      the line's last character.  It opens with the heading's numerals, and
      it is nothing but numerals exactly when the "】" closing them ends the
      line; otherwise that "】" and the text after it are kept. */
  function VolumeOrdinal(line: string): (r: string)
    requires IsVolumeLine(line)
    ensures line == "【卷之" + r + [line[|line| - 1]]
    ensures var k := Span(line[3..], IsNumeral);
      && 1 <= k <= |r|
      && (forall i :: 0 <= i < k ==> IsNumeral(r[i]))
      && (k < |r| ==> r[k] == '】')
    ensures (forall i :: 0 <= i < |r| ==> IsNumeral(r[i])) <==> |line| == 3 + Span(line[3..], IsNumeral) + 1
  {
    var r := line[3..|line| - 1];
    var k := Span(line[3..], IsNumeral);
    assert line[..3] == "【卷之";
    assert line == line[..3] + r + [line[|line| - 1]];
    assert forall i :: 0 <= i < k ==> r[i] == line[3..][i];
    assert k < |r| ==> r[k] == line[3 + k] && !IsNumeral(r[k]);
    r
  }

  /** The index a volume heading gets: the decimal value of its numeral when
      the heading is exactly "【卷之" + one numeral + "】", and otherwise the
      ordinal text itself, as `chinese_numbers` only holds single numerals. */
  lemma {:induction false} VolumeIndex(line: string)
    requires IsVolumeLine(line)
    ensures |line| == 5 ==> IsNumeral(line[3]) && ChineseToNumber(VolumeOrdinal(line)) == Decimal(NumeralValue(line[3]))
    ensures |line| != 5 ==> ChineseToNumber(VolumeOrdinal(line)) == VolumeOrdinal(line)
  {
    var r := VolumeOrdinal(line);
    if |line| == 5 {
      assert r[0] == line[3];
      assert IsNumeralToken(r);
    } else {
      assert !IsNumeralToken(r);
    }
  }

  predicate NotDot(c: char)
  {
    c != '.'
  }

  /** `[^\.]+章` matched at the start of `s`: a "章" preceded by at least one
      character, with no "." before it. */
  predicate DotFreeThenZhang(s: string)
  {
    var p := s[..Span(s, NotDot)];
    |p| >= 2 && '章' in p[1..]
  }

  /** The class `[①②③④⑤⑥⑦⑧⑨⑩]`. */
  predicate IsCircledNumeral(c: char)
  {
    '①' <= c <= '⑩'
  }

  /** `^[一二三四五六七八九十]、[^\.]+章` */
  predicate ChapterShapeNumbered(line: string)
  {
    |line| >= 2 && IsNumeral(line[0]) && line[1] == '、' && DotFreeThenZhang(line[2..])
  }

  /** `^[^\.]+章` */
  predicate ChapterShapeBare(line: string)
  {
    DotFreeThenZhang(line)
  }

  /** `^[①②③④⑤⑥⑦⑧⑨⑩]、[^\.]+` */
  predicate ChapterShapeCircled(line: string)
  {
    |line| >= 3 && IsCircledNumeral(line[0]) && line[1] == '、' && line[2] != '.'
  }

  /** Any of the three chapter-heading patterns, tried in order. */
  predicate IsChapterLine(line: string)
  {
    ChapterShapeNumbered(line) || ChapterShapeBare(line) || ChapterShapeCircled(line)
  }

  /** The three annotation tags, `^\[乾按\].*`, `^\[注\].*` and `^\[居士按\].*`. */
  predicate IsAnnotationLine(line: string)
  {
    StartsWith(line, "[乾按]") || StartsWith(line, "[注]") || StartsWith(line, "[居士按]")
  }

  predicate IsDot(c: char)
  {
    c == '.'
  }

  /** `q+` matching the whole of `t`. */
  predicate Plus(t: string, q: char -> bool)
    decreases |t|
  {
    |t| >= 1 && q(t[0]) && (|t| == 1 || Plus(t[1..], q))
  }

  /** `p*q+` matching the whole of `t`. */
  predicate StarPlus(t: string, p: char -> bool, q: char -> bool)
    decreases |t|
  {
    Plus(t, q) || (|t| >= 1 && p(t[0]) && StarPlus(t[1..], p, q))
  }

  /** `a*b*c+` matching the whole of `t`. */
  predicate StarStarPlus(t: string, a: char -> bool, b: char -> bool, c: char -> bool)
    decreases |t|
  {
    StarPlus(t, b, c) || (|t| >= 1 && a(t[0]) && StarStarPlus(t[1..], a, b, c))
  }

  /** `\.{3,}\s*\d+` matching the whole of `t`: a dotted leader and the page
      number it points to. */
  predicate IsLeader(t: string)
  {
    |t| >= 3 && t[..3] == "..." && StarStarPlus(t[3..], IsDot, IsSpace, IsDigit)
  }

  /** Length of the match of `\.{3,}\s*\d+` at the very start of `s`, or 0
      when there is none: the longest leader at this position. */
  function LeaderLength(s: string): (m: nat)
    ensures m <= |s|
    ensures m > 0 ==> m >= 4 && StartsWith(s, "...")
    ensures m > 0 ==> IsLeader(s[..m]) && (m == |s| || !IsDigit(s[m]))
    ensures forall k :: m < k <= |s| ==> !IsLeader(s[..k])
  {
    LeaderClassesDisjoint();
    LeaderIff(s);
    RunsLength(s, 3, IsDot, IsSpace, IsDigit)
  }

  /** Dots, whitespace and digits are three disjoint classes. */
  lemma LeaderClassesDisjoint()
    ensures forall c :: IsDot(c) ==> !IsSpace(c) && !IsDigit(c)
    ensures forall c :: IsSpace(c) ==> !IsDigit(c)
  {
  }

  /** The first `n` characters of `s` are all of class `a`. */
  predicate Leads(s: string, n: nat, a: char -> bool)
  {
    n <= |s| && forall k :: 0 <= k < n ==> a(s[k])
  }

  /** A leader is three dots and then an `\.*\s*\d+` match. */
  lemma LeaderIff(s: string)
    ensures forall k :: 0 <= k <= |s| ==>
              (IsLeader(s[..k]) <==> 3 <= k && Leads(s, 3, IsDot) && StarStarPlus(s[3..k], IsDot, IsSpace, IsDigit))
    ensures Leads(s, 3, IsDot) ==> StartsWith(s, "...")
  {
    forall k | 0 <= k <= |s|
      ensures IsLeader(s[..k]) <==> 3 <= k && Leads(s, 3, IsDot) && StarStarPlus(s[3..k], IsDot, IsSpace, IsDigit)
    {
      if IsLeader(s[..k]) {
        LeaderShape(s, k);
      }
      if 3 <= k && Leads(s, 3, IsDot) && StarStarPlus(s[3..k], IsDot, IsSpace, IsDigit) {
        LeaderOf(s, k);
      }
    }
    if Leads(s, 3, IsDot) {
      assert s[..3] == "..." by {
        assert IsDot(s[0]) && IsDot(s[1]) && IsDot(s[2]);
      }
    }
  }

  lemma LeaderShape(s: string, k: nat)
    requires k <= |s| && IsLeader(s[..k])
    ensures 3 <= k && Leads(s, 3, IsDot) && StarStarPlus(s[3..k], IsDot, IsSpace, IsDigit)
  {
    var t := s[..k];
    assert t[..3] == "...";
    assert t[0] == '.' && t[1] == '.' && t[2] == '.';
    assert t[3..] == s[3..k];
  }

  lemma LeaderOf(s: string, k: nat)
    requires 3 <= k <= |s| && Leads(s, 3, IsDot)
    requires StarStarPlus(s[3..k], IsDot, IsSpace, IsDigit)
    ensures IsLeader(s[..k])
  {
    assert s[..3] == "..." by {
      assert IsDot(s[0]) && IsDot(s[1]) && IsDot(s[2]);
    }
    var t := s[..k];
    assert t[..3] == s[..3];
    assert t[3..] == s[3..k];
  }

  /** Length of the longest prefix of `s` that matches `a{n,}b*c+`, or 0 when
      no prefix does.  With disjoint classes backtracking cannot help: fewer
      characters of one class leave one where the next class is needed, so
      each part takes its longest run. */
  function RunsLength(s: string, n: nat, a: char -> bool, b: char -> bool, c: char -> bool): (m: nat)
    requires forall ch :: a(ch) ==> !b(ch) && !c(ch)
    requires forall ch :: b(ch) ==> !c(ch)
    ensures m <= |s|
    ensures m > 0 ==> n < m && Leads(s, n, a) && StarStarPlus(s[n..m], a, b, c) && (m == |s| || !c(s[m]))
    ensures forall k :: m < k <= |s| && n <= k && Leads(s, n, a) ==> !StarStarPlus(s[n..k], a, b, c)
  {
    var i := Span(s, a);
    var j := Span(s[i..], b);
    var l := Span(s[i + j..], c);
    var m := if i < n || l == 0 then 0 else i + j + l;
    GreedyRuns(s, a, b, c, i, j, l);
    RunsResult(s, n, a, b, c, i, j, l, m);
    m
  }

  /** The greedy runs give the longest `a{n,}b*c+` match, when there is one. */
  lemma RunsResult(s: string, n: nat, a: char -> bool, b: char -> bool, c: char -> bool,
                   i: nat, j: nat, l: nat, m: nat)
    requires forall ch :: a(ch) ==> !b(ch) && !c(ch)
    requires forall ch :: b(ch) ==> !c(ch)
    requires Greedy(s, 0, i, a) && Greedy(s, i, i + j, b) && Greedy(s, i + j, i + j + l, c)
    requires m == if i < n || l == 0 then 0 else i + j + l
    ensures m <= |s|
    ensures m > 0 ==> n < m && Leads(s, n, a) && StarStarPlus(s[n..m], a, b, c) && (m == |s| || !c(s[m]))
    ensures forall k :: m < k <= |s| && n <= k && Leads(s, n, a) ==> !StarStarPlus(s[n..k], a, b, c)
  {
    RunsLongest(s, n, a, b, c, i, j, l);
    if m > 0 {
      RunsFound(s, n, a, b, c, i, j, l);
    }
  }

  /** Every position from `lo` up to `hi` of `s` is in the class `p`. */
  predicate All(s: string, lo: nat, hi: nat, p: char -> bool)
  {
    hi <= |s| && forall k :: lo <= k < hi ==> p(s[k])
  }

  /** Positions `lo` up to `hi` are a longest run of `p` starting at `lo`. */
  predicate Greedy(s: string, lo: nat, hi: nat, p: char -> bool)
  {
    lo <= hi && All(s, lo, hi, p) && (hi < |s| ==> !p(s[hi]))
  }

  /** The three `Span`s, taken one after another, are longest runs. */
  lemma GreedyRuns(s: string, a: char -> bool, b: char -> bool, c: char -> bool, i: nat, j: nat, l: nat)
    requires i == Span(s, a) && i + j <= |s| && j == Span(s[i..], b) && l == Span(s[i + j..], c)
    ensures Greedy(s, 0, i, a) && Greedy(s, i, i + j, b) && Greedy(s, i + j, i + j + l, c)
  {
    assert s[0..] == s;
    SpanShifted(s, 0, a);
    SpanShifted(s, i, b);
    SpanShifted(s, i + j, c);
  }

  /** `Span` read back on the whole string: the run found after position `i`
      is a longest run of `p` there. */
  lemma SpanShifted(s: string, i: nat, p: char -> bool)
    requires i <= |s|
    ensures Greedy(s, i, i + Span(s[i..], p), p)
  {
    var n := Span(s[i..], p);
    forall k | i <= k < i + n
      ensures p(s[k])
    {
      assert s[i..][k - i] == s[k];
    }
    assert i + n < |s| ==> s[i..][n] == s[i + n];
  }

  /** No `a{n,}b*c+` match at the start of `s` reaches past the three greedy
      runs, and there is none without `n` characters of `a` and one of `c`. */
  lemma RunsLongest(s: string, n: nat, a: char -> bool, b: char -> bool, c: char -> bool,
                    i: nat, j: nat, l: nat)
    requires forall ch :: a(ch) ==> !b(ch) && !c(ch)
    requires forall ch :: b(ch) ==> !c(ch)
    requires Greedy(s, 0, i, a) && Greedy(s, i, i + j, b) && Greedy(s, i + j, i + j + l, c)
    ensures forall k :: n <= k <= |s| && Leads(s, n, a) && StarStarPlus(s[n..k], a, b, c) ==>
              i >= n && l >= 1 && k <= i + j + l
  {
    forall k | n <= k <= |s| && Leads(s, n, a) && StarStarPlus(s[n..k], a, b, c)
      ensures i >= n && l >= 1 && k <= i + j + l
    {
      RunsBound(s, k, n, a, b, c, i, j, l);
    }
  }

  /** The `n` leading characters of `a` extend an `a*b*c+` match to one that
      starts at the front, which the greedy runs then bound. */
  lemma RunsBound(s: string, k: nat, n: nat, a: char -> bool, b: char -> bool, c: char -> bool,
                  i: nat, j: nat, l: nat)
    requires forall ch :: a(ch) ==> !b(ch) && !c(ch)
    requires forall ch :: b(ch) ==> !c(ch)
    requires Greedy(s, 0, i, a) && Greedy(s, i, i + j, b) && Greedy(s, i + j, i + j + l, c)
    requires n <= k <= |s| && Leads(s, n, a) && StarStarPlus(s[n..k], a, b, c)
    ensures i >= n && l >= 1 && k <= i + j + l
  {
    if i < n {
      assert false;
    }
    PrependRun(s, n, k, a, b, c);
    assert s[0..k] == s[..k];
    StarStarPlusBound(s, 0, k, a, b, c, i, j, l);
  }

  /** Characters of `a` in front of an `a*b*c+` match keep it a match. */
  lemma {:induction false} PrependRun(s: string, n: nat, k: nat, a: char -> bool, b: char -> bool, c: char -> bool)
    requires n <= k <= |s| && Leads(s, n, a) && StarStarPlus(s[n..k], a, b, c)
    ensures StarStarPlus(s[..k], a, b, c)
    decreases n
  {
    if n == 0 {
      assert s[..k] == s[n..k];
    } else {
      var u := s[1..];
      assert Leads(u, n - 1, a) by {
        forall m | 0 <= m < n - 1
          ensures a(u[m])
        {
          assert u[m] == s[m + 1];
        }
      }
      assert u[n - 1..k - 1] == s[n..k];
      PrependRun(u, n - 1, k - 1, a, b, c);
      assert s[..k][1..] == u[..k - 1];
      assert a(s[..k][0]);
    }
  }

  /** The greedy runs of `a`, `b` and `c`, started `n` characters into the
      run of `a`, match `a*b*c+`. */
  lemma RunsFound(s: string, n: nat, a: char -> bool, b: char -> bool, c: char -> bool,
                  i: nat, j: nat, l: nat)
    requires Greedy(s, 0, i, a) && Greedy(s, i, i + j, b) && Greedy(s, i + j, i + j + l, c)
    requires n <= i && l >= 1
    ensures i + j + l <= |s| && StarStarPlus(s[n..i + j + l], a, b, c)
    ensures i + j + l < |s| ==> !c(s[i + j + l])
    ensures Leads(s, n, a)
  {
    RangeMatch(s, n, i, i + j, i + j + l, a, b, c);
  }

  /** Positions `lo` to `hi` of `s`, split at `m1` and `m2` into runs of `a`, `b`
      and a non-empty run of `c`, match `a*b*c+`. */
  lemma {:induction false} RangeMatch(s: string, lo: nat, m1: nat, m2: nat, hi: nat,
                                      a: char -> bool, b: char -> bool, c: char -> bool)
    requires lo <= m1 <= m2 < hi <= |s|
    requires All(s, lo, m1, a) && All(s, m1, m2, b) && All(s, m2, hi, c)
    ensures StarStarPlus(s[lo..hi], a, b, c)
    decreases m1 - lo
  {
    if lo == m1 {
      RangeMatchStarPlus(s, lo, m2, hi, b, c);
    } else {
      RangeMatch(s, lo + 1, m1, m2, hi, a, b, c);
      assert s[lo..hi][1..] == s[lo + 1..hi];
      assert a(s[lo..hi][0]);
    }
  }

  lemma {:induction false} RangeMatchStarPlus(s: string, lo: nat, mid: nat, hi: nat, b: char -> bool, c: char -> bool)
    requires lo <= mid < hi <= |s|
    requires All(s, lo, mid, b) && All(s, mid, hi, c)
    ensures StarPlus(s[lo..hi], b, c)
    decreases mid - lo
  {
    if lo == mid {
      RangeMatchPlus(s, lo, hi, c);
    } else {
      RangeMatchStarPlus(s, lo + 1, mid, hi, b, c);
      assert s[lo..hi][1..] == s[lo + 1..hi];
    }
  }

  lemma {:induction false} RangeMatchPlus(s: string, lo: nat, hi: nat, c: char -> bool)
    requires lo < hi <= |s|
    requires All(s, lo, hi, c)
    ensures Plus(s[lo..hi], c)
    decreases hi - lo
  {
    if hi - lo > 1 {
      RangeMatchPlus(s, lo + 1, hi, c);
      assert s[lo..hi][1..] == s[lo + 1..hi];
    }
  }

  /** A `c+` match from position `lo` ends within the longest run of `c`
      there, which is therefore not empty. */
  lemma {:induction false} PlusBound(s: string, lo: nat, k: nat, c: char -> bool, e: nat)
    requires lo <= k <= |s| && Plus(s[lo..k], c)
    requires lo <= e && (e < |s| ==> !c(s[e]))
    ensures lo < e && k <= e
    decreases k - lo
  {
    assert c(s[lo]);
    if k - lo > 1 {
      assert s[lo..k][1..] == s[lo + 1..k];
      if lo == e {
        assert false;
      }
      PlusBound(s, lo + 1, k, c, e);
    } else if e == lo {
      assert false;
    }
  }

  /** When no `b` character is a `c` character, a `b*c+` match from a position
      within the longest run of `b` ends within the run of `c` after it. */
  lemma {:induction false} StarPlusBound(s: string, lo: nat, k: nat, b: char -> bool, c: char -> bool,
                                         m: nat, e: nat)
    requires forall ch :: b(ch) ==> !c(ch)
    requires lo <= k <= |s| && StarPlus(s[lo..k], b, c)
    requires Greedy(s, lo, m, b) && m <= e && (e < |s| ==> !c(s[e]))
    ensures m < e && k <= e
    decreases k - lo
  {
    var t := s[lo..k];
    if Plus(t, c) {
      if lo < m {
        assert false;
      }
      PlusBound(s, lo, k, c, e);
    } else {
      assert b(s[lo]) && t[1..] == s[lo + 1..k];
      if lo == m {
        assert false;
      }
      StarPlusBound(s, lo + 1, k, b, c, m, e);
    }
  }

  /** When the three classes are disjoint, an `a*b*c+` match from a position
      within the longest run of `a` ends within the runs of `b` and `c` that
      follow it. */
  lemma {:induction false} StarStarPlusBound(s: string, lo: nat, k: nat, a: char -> bool, b: char -> bool, c: char -> bool,
                                              i: nat, j: nat, l: nat)
    requires forall ch :: a(ch) ==> !b(ch) && !c(ch)
    requires forall ch :: b(ch) ==> !c(ch)
    requires lo <= k <= |s| && StarStarPlus(s[lo..k], a, b, c)
    requires Greedy(s, lo, i, a) && Greedy(s, i, i + j, b) && Greedy(s, i + j, i + j + l, c)
    ensures l >= 1 && k <= i + j + l
    decreases k - lo
  {
    var t := s[lo..k];
    if StarPlus(t, b, c) {
      if lo < i {
        assert false;
      }
      StarPlusBound(s, lo, k, b, c, i + j, i + j + l);
    } else {
      assert a(s[lo]) && t[1..] == s[lo + 1..k];
      if lo == i {
        assert false;
      }
      StarStarPlusBound(s, lo + 1, k, a, b, c, i, j, l);
    }
  }

  /** `re.sub(r'\.{3,}\s*\d+', '', s)`: scanning left to right, every match
      is deleted and every other character is kept. */
  function RemoveLeaders(s: string): (r: string)
    decreases |s|
    ensures |r| <= |s|
    ensures !Contains(s, "...") ==> r == s
  {
    if s == [] then []
    else
      var m := LeaderLength(s);
      if m > 0 then RemoveLeaders(s[m..]) else [s[0]] + RemoveLeaders(s[1..])
  }

  /** `Span` is exactly `n` when the first `n` characters are in the class
      and the next one is not. */
  lemma {:induction false} SpanIs(s: string, p: char -> bool, n: nat)
    requires n < |s| && !p(s[n]) && forall i :: 0 <= i < n ==> p(s[i])
    ensures Span(s, p) == n
    decreases n
  {
    if n > 0 {
      SpanIs(s[1..], p, n - 1);
    }
  }

  /** `Span` covers any leading stretch of the class. */
  lemma {:induction false} SpanAtLeast(s: string, p: char -> bool, n: nat)
    requires n <= |s| && forall i :: 0 <= i < n ==> p(s[i])
    ensures Span(s, p) >= n
    decreases n
  {
    if n > 0 {
      SpanAtLeast(s[1..], p, n - 1);
    }
  }

  /** `^目\s*录` read as a regular expression: "目" first, then "录" at some
      position with only whitespace in between. */
  lemma TocLineMeaning(line: string)
    ensures IsTocLine(line) <==>
      |line| >= 2 && line[0] == '目' &&
      exists k :: 1 <= k < |line| && line[k] == '录' && forall i :: 1 <= i < k ==> IsSpace(line[i])
  {
    if |line| >= 1 && line[0] == '目' {
      var t := line[1..];
      var n := Span(t, IsSpace);
      assert TrimStart(t) == t[n..];
      if IsTocLine(line) {
        var k := 1 + n;
        assert line[k] == t[n] == '录';
        forall i | 1 <= i < k
          ensures IsSpace(line[i])
        {
          assert line[i] == t[i - 1];
        }
      }
      if exists k :: 1 <= k < |line| && line[k] == '录' && forall i :: 1 <= i < k ==> IsSpace(line[i]) {
        var k :| 1 <= k < |line| && line[k] == '录' && forall i :: 1 <= i < k ==> IsSpace(line[i]);
        assert t[k - 1] == '录';
        SpanIs(t, IsSpace, k - 1);
      }
    }
  }

  /** `^【卷之[一二三四五六七八九十]+】` read as a regular expression: the
      opening "【卷之", at least one numeral, then "】". */
  lemma VolumeLineMeaning(line: string)
    ensures IsVolumeLine(line) <==>
      StartsWith(line, "【卷之") &&
      exists e :: 4 <= e < |line| && line[e] == '】' && forall i :: 3 <= i < e ==> IsNumeral(line[i])
  {
    if StartsWith(line, "【卷之") {
      var t := line[3..];
      if IsVolumeLine(line) {
        var k := Span(t, IsNumeral);
        forall i | 3 <= i < 3 + k
          ensures IsNumeral(line[i])
        {
          assert line[i] == t[i - 3];
        }
        assert line[3 + k] == '】';
      }
      if exists e :: 4 <= e < |line| && line[e] == '】' && forall i :: 3 <= i < e ==> IsNumeral(line[i]) {
        var e :| 4 <= e < |line| && line[e] == '】' && forall i :: 3 <= i < e ==> IsNumeral(line[i]);
        assert t[e - 3] == '】' && !IsNumeral(t[e - 3]);
        SpanIs(t, IsNumeral, e - 3);
      }
    }
  }

  /** `^[^\.]+章` read as a regular expression, with its backtracking: some
      "章" after the first character with no "." before it. */
  lemma ChapterShapeBareMeaning(line: string)
    ensures ChapterShapeBare(line) <==>
      exists k :: 1 <= k < |line| && line[k] == '章' && forall i :: 0 <= i < k ==> line[i] != '.'
  {
    var n := Span(line, NotDot);
    var p := line[..n];
    if ChapterShapeBare(line) {
      var j :| 0 <= j < |p| - 1 && p[1..][j] == '章';
      var k := j + 1;
      assert line[k] == '章';
      forall i | 0 <= i < k
        ensures line[i] != '.'
      {
        assert NotDot(line[i]);
      }
    }
    if exists k :: 1 <= k < |line| && line[k] == '章' && forall i :: 0 <= i < k ==> line[i] != '.' {
      var k :| 1 <= k < |line| && line[k] == '章' && forall i :: 0 <= i < k ==> line[i] != '.';
      forall i | 0 <= i < k + 1
        ensures NotDot(line[i])
      {
      }
      SpanAtLeast(line, NotDot, k + 1);
      assert p[1..][k - 1] == '章';
    }
  }

  /** An annotation tag rules out the marker, the volume heading and the
      two numbered chapter shapes; only the bare "…章" shape can still
      match, as it does for "[注]此章". */
  lemma AnnotationLineShapes(line: string)
    requires IsAnnotationLine(line)
    ensures !IsTocLine(line) && !IsVolumeLine(line)
    ensures !ChapterShapeNumbered(line) && !ChapterShapeCircled(line)
    ensures IsChapterLine(line) <==> ChapterShapeBare(line)
  {
    assert line[0] == '[' by {
      if StartsWith(line, "[乾按]") {
        assert line[..4][0] == line[0];
      } else if StartsWith(line, "[注]") {
        assert line[..3][0] == line[0];
      } else {
        assert line[..5][0] == line[0];
      }
    }
  }

  /** An annotation that mentions "章" before any "." is a chapter heading. */
  lemma AnnotationTakenForChapter()
    ensures IsAnnotationLine("[注]此章") && IsChapterLine("[注]此章")
  {
    var line := "[注]此章";
    assert line[..3] == "[注]";
    ChapterShapeBareMeaning(line);
    assert line[4] == '章';
    assert forall i :: 0 <= i < 4 ==> line[i] != '.';
  }

  /** A table-of-contents marker is never a volume heading. */
  lemma VolumeLineIsNotTocLine(line: string)
    requires IsVolumeLine(line)
    ensures line != [] && !IsTocLine(line)
  {
    assert line[..3] == "【卷之";
    assert line[0] == '【';
  }

  /** The first chapter pattern only ever accepts lines the second one
      accepts as well. */
  lemma {:induction false} NumberedChapterIsBare(line: string)
    requires ChapterShapeNumbered(line)
    ensures ChapterShapeBare(line)
  {
    var s := line[2..];
    var p := s[..Span(s, NotDot)];
    var i :| 1 <= i < |p| && p[i] == '章';
    var q := line[..Span(line, NotDot)];
    assert Span(line, NotDot) == 2 + Span(s, NotDot) by {
      assert NotDot(line[0]) && NotDot(line[1]);
      assert line[1..][1..] == s;
    }
    assert q[i + 2] == '章';
    assert q[1..][i + 1] == '章';
  }
}
