/** Character classes and the handful of Python string operations the
    preprocessor relies on: `str.strip()`, `str.split('\n')`,
    `'\n'.join(...)`, the substring test `in`, and the regular-expression
    classes `\s` and `\d`.  Strings are sequences of Unicode scalar values,
    so `|s|` is Python's `len(s)`. */
module Text {

  /** Python's whitespace (`str.isspace`); `\s` and `strip()` use the same set. */
  predicate IsSpace(c: char)
  {
    c == ' ' || ('\t' <= c <= '\r') || ('\U{1C}' <= c <= '\U{1F}') ||
    c == '\U{85}' || c == '\U{A0}' || c == '\U{1680}' ||
    ('\U{2000}' <= c <= '\U{200A}') || c == '\U{2028}' || c == '\U{2029}' ||
    c == '\U{202F}' || c == '\U{205F}' || c == '\U{3000}'
  }

  /** The decimal digits `\d` stands for in this model: ASCII and fullwidth. */
  predicate IsDigit(c: char)
  {
    ('0' <= c <= '9') || ('\U{FF10}' <= c <= '\U{FF19}')
  }

  /** The class `[0-9]`. */
  predicate IsAsciiDigit(c: char)
  {
    '0' <= c <= '9'
  }

  /** `re.match(r'^\d+$', s)` on a string without a trailing newline. */
  predicate AllDigits(s: string)
  {
    |s| > 0 && forall i :: 0 <= i < |s| ==> IsDigit(s[i])
  }

  /** No leading and no trailing whitespace. */
  predicate Stripped(s: string)
  {
    s == [] || (!IsSpace(s[0]) && !IsSpace(s[|s| - 1]))
  }

  /** Every whitespace character is a plain space and none is followed by another. */
  ghost predicate Collapsed(s: string)
  {
    && (forall i :: 0 <= i < |s| && IsSpace(s[i]) ==> s[i] == ' ')
    && (forall i, j :: 0 <= i < j < |s| && j == i + 1 ==> !IsSpace(s[i]) || !IsSpace(s[j]))
  }

  predicate StartsWith(s: string, prefix: string)
  {
    |prefix| <= |s| && s[..|prefix|] == prefix
  }

  /** Python's `sub in s`. */
  predicate Contains(s: string, sub: string)
    decreases |s|
  {
    StartsWith(s, sub) || (|s| > 0 && Contains(s[1..], sub))
  }

  /** Length of the longest prefix of `s` whose characters all satisfy `p`. */
  function Span(s: string, p: char -> bool): (n: nat)
    ensures n <= |s|
    ensures forall i :: 0 <= i < n ==> p(s[i])
    ensures n < |s| ==> !p(s[n])
  {
    if |s| > 0 && p(s[0]) then 1 + Span(s[1..], p) else 0
  }

  /** Length of the longest suffix of `s` whose characters all satisfy `p`. */
  function SpanBack(s: string, p: char -> bool): (n: nat)
    ensures n <= |s|
    ensures forall i :: |s| - n <= i < |s| ==> p(s[i])
    ensures n < |s| ==> !p(s[|s| - 1 - n])
  {
    if |s| > 0 && p(s[|s| - 1]) then 1 + SpanBack(s[..|s| - 1], p) else 0
  }

  /** `s.lstrip()`. */
  function TrimStart(s: string): (r: string)
    ensures |r| <= |s|
    ensures r == [] || !IsSpace(r[0])
    ensures |s| > 0 && IsSpace(s[0]) ==> |r| < |s|
  {
    s[Span(s, IsSpace)..]
  }

  /** `s.strip()`. */
  function Strip(s: string): (r: string)
    ensures Stripped(r) && |r| <= |s|
    ensures Stripped(s) ==> r == s
  {
    var t := TrimStart(s);
    t[..|t| - SpanBack(t, IsSpace)]
  }

  /** Stripping leaves nothing exactly when the string is all whitespace. */
  lemma StripEmptyIff(s: string)
    ensures Strip(s) == [] <==> forall i :: 0 <= i < |s| ==> IsSpace(s[i])
  {
    var k := Span(s, IsSpace);
    var t := TrimStart(s);
    assert t == s[k..];
  }

  /** `re.sub(r'\s+', ' ', s)`: every maximal run of whitespace becomes one space. */
  function Collapse(s: string): (r: string)
    decreases |s|
    ensures |s| > 0 && !IsSpace(s[0]) ==> |r| > 0 && r[0] == s[0]
    ensures |s| > 0 && IsSpace(s[0]) ==> |r| > 0 && r[0] == ' '
    ensures |s| > 0 && !IsSpace(s[|s| - 1]) ==> |r| > 0 && r[|r| - 1] == s[|s| - 1]
  {
    if s == [] then []
    else if IsSpace(s[0]) then " " + Collapse(TrimStart(s))
    else [s[0]] + Collapse(s[1..])
  }

  /** The result of collapsing is in collapsed form. */
  lemma {:induction false} CollapseIsCollapsed(s: string)
    decreases |s|
    ensures Collapsed(Collapse(s))
  {
    if s != [] {
      if IsSpace(s[0]) {
        CollapseIsCollapsed(TrimStart(s));
      } else {
        CollapseIsCollapsed(s[1..]);
      }
    }
  }

  /** A string already in collapsed form is left alone. */
  lemma {:induction false} CollapseIdentity(s: string)
    requires Collapsed(s)
    ensures Collapse(s) == s
  {
    if s != [] {
      assert Collapsed(s[1..]);
      CollapseIdentity(s[1..]);
      if IsSpace(s[0]) {
        assert Span(s, IsSpace) == 1;
        assert TrimStart(s) == s[1..];
        assert " " + s[1..] == s;
      } else {
        assert [s[0]] + s[1..] == s;
      }
    }
  }

  /** Collapsing never removes whitespace altogether: a string with a
      whitespace character keeps one. */
  lemma {:induction false} CollapseKeepsSpace(s: string, i: nat)
    requires i < |s| && IsSpace(s[i])
    ensures ' ' in Collapse(s)
    decreases |s|
  {
    if IsSpace(s[0]) {
      assert Collapse(s)[0] == ' ';
    } else {
      assert i > 0;
      CollapseKeepsSpace(s[1..], i - 1);
      assert Collapse(s) == [s[0]] + Collapse(s[1..]);
    }
  }

  /** `s.split('\n')`: always at least one piece, `"".split('\n') == [""]`. */
  function SplitLines(s: string): (r: seq<string>)
    ensures |r| >= 1
  {
    if s == [] then [[]]
    else
      var rest := SplitLines(s[1..]);
      if s[0] == '\n' then [[]] + rest
      else [[s[0]] + rest[0]] + rest[1..]
  }

  /** `'\n'.join(ls)`. */
  function JoinLines(ls: seq<string>): string
  {
    if |ls| == 0 then []
    else if |ls| == 1 then ls[0]
    else ls[0] + "\n" + JoinLines(ls[1..])
  }

  predicate NoNewline(s: string)
  {
    '\n' !in s
  }

  lemma {:induction false} SplitLinesHaveNoNewline(s: string)
    ensures forall k :: 0 <= k < |SplitLines(s)| ==> NoNewline(SplitLines(s)[k])
  {
    if s != [] {
      SplitLinesHaveNoNewline(s[1..]);
    }
  }

  lemma {:induction false} SplitSingleLine(s: string)
    requires NoNewline(s)
    ensures SplitLines(s) == [s]
  {
    if s != [] {
      assert s[0] != '\n' && NoNewline(s[1..]);
      SplitSingleLine(s[1..]);
      assert [s[0]] + s[1..] == s;
    }
  }

  /** Splitting at a newline splits the pieces on either side independently. */
  lemma {:induction false} SplitAround(a: string, b: string)
    ensures SplitLines(a + "\n" + b) == SplitLines(a) + SplitLines(b)
  {
    if a == [] {
      assert a + "\n" + b == "\n" + b;
      assert ("\n" + b)[1..] == b;
    } else {
      assert (a + "\n" + b)[1..] == a[1..] + "\n" + b;
      SplitAround(a[1..], b);
    }
  }

  /** Joining then splitting gives back the lines, when none contains a newline. */
  lemma {:induction false} SplitJoin(ls: seq<string>)
    requires |ls| >= 1
    requires forall k :: 0 <= k < |ls| ==> NoNewline(ls[k])
    ensures SplitLines(JoinLines(ls)) == ls
  {
    if |ls| == 1 {
      SplitSingleLine(ls[0]);
    } else {
      SplitJoin(ls[1..]);
      SplitAround(ls[0], JoinLines(ls[1..]));
      SplitSingleLine(ls[0]);
    }
  }

  /** Splitting then joining gives back the text. */
  lemma {:induction false} JoinSplit(s: string)
    ensures JoinLines(SplitLines(s)) == s
  {
    if s != [] {
      JoinSplit(s[1..]);
      var rest := SplitLines(s[1..]);
      if s[0] == '\n' {
        assert JoinLines([[]] + rest) == "\n" + JoinLines(rest);
      } else if |rest| == 1 {
        assert JoinLines([[s[0]] + rest[0]]) == [s[0]] + rest[0];
      } else {
        assert ([[s[0]] + rest[0]] + rest[1..])[1..] == rest[1..];
      }
    }
  }

  lemma JoinSnoc(ls: seq<string>, x: string)
    requires ls != []
    ensures JoinLines(ls + [x]) == JoinLines(ls) + "\n" + x
  {
    if |ls| > 1 {
      assert (ls + [x])[1..] == ls[1..] + [x];
      JoinSnoc(ls[1..], x);
    }
  }

  /** Some element of `lines` satisfies `p`. */
  predicate AnyLine(lines: seq<string>, p: string -> bool)
  {
    exists i :: 0 <= i < |lines| && p(lines[i])
  }

  lemma AnyLineSnoc(lines: seq<string>, p: string -> bool)
    requires lines != []
    ensures AnyLine(lines, p) <==> AnyLine(lines[..|lines| - 1], p) || p(lines[|lines| - 1])
  {
    var prefix := lines[..|lines| - 1];
    if AnyLine(prefix, p) {
      var i :| 0 <= i < |prefix| && p(prefix[i]);
      assert lines[i] == prefix[i];
    }
  }

  /** Every element of `lines` satisfies `p`. */
  predicate AllLines(lines: seq<string>, p: string -> bool)
  {
    forall i :: 0 <= i < |lines| ==> p(lines[i])
  }

  lemma AllLinesPrefix(lines: seq<string>, p: string -> bool)
    requires lines != [] && AllLines(lines, p)
    ensures AllLines(lines[..|lines| - 1], p) && p(lines[|lines| - 1])
  {
  }

  /** Joining two stripped, non-empty strings with a newline gives a
      stripped, non-empty string. */
  lemma StrippedJoin(a: string, b: string)
    requires a != [] && Stripped(a) && b != [] && Stripped(b)
    ensures a + "\n" + b != [] && Stripped(a + "\n" + b)
  {
    var c := a + "\n" + b;
    assert c[0] == a[0];
    assert c[|c| - 1] == b[|b| - 1];
  }

  // Sequence identities, stated once so that larger proofs can cite them
  // instead of re-deriving them in a crowded context.

  /** Non-empty stripped lines joined by newlines are non-empty and stripped. */
  lemma {:induction false} JoinStripped(ls: seq<string>)
    requires ls != [] && forall a :: a in ls ==> a != [] && Stripped(a)
    ensures JoinLines(ls) != [] && Stripped(JoinLines(ls))
    decreases |ls|
  {
    assert ls[0] in ls;
    if |ls| > 1 {
      assert forall a :: a in ls[1..] ==> a in ls;
      JoinStripped(ls[1..]);
      StrippedJoin(ls[0], JoinLines(ls[1..]));
      assert JoinLines(ls) == ls[0] + "\n" + JoinLines(ls[1..]);
    }
  }

  lemma ConcatAssoc<T>(a: seq<T>, b: seq<T>, c: seq<T>)
    ensures (a + b) + c == a + (b + c)
  {
  }

  lemma SnocParts<T>(s: seq<T>)
    requires s != []
    ensures s[..|s| - 1] + [s[|s| - 1]] == s
  {
  }

  lemma AppendParts<T>(a: seq<T>, b: seq<T>)
    ensures (a + b)[..|a|] == a && (a + b)[|a|..] == b
    ensures a != [] ==> (a + b)[0] == a[0]
  {
  }
}
