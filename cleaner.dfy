/** Page cleaning (`_clean_page_text`) and the page-by-page assembly of the
    full text (the loop in `extract_text_from_pdf`, over page texts that are
    already extracted). */
module Cleaner {
  import opened Text
  import opened Wrappers
  import opened Patterns

  /** An isolated page number: `^\d+$` and shorter than four characters. */
  predicate IsPageNumber(line: string)
  {
    AllDigits(line) && |line| < 4
  }

  /** A line dropped as a page number, one to three digits, is never a
      table-of-contents marker, a volume or chapter heading, or an
      annotation, so page cleaning removes no line the parser looks for. */
  lemma PageNumberIsNotStructural(line: string)
    requires IsPageNumber(line)
    ensures 1 <= |line| <= 3
    ensures !IsTocLine(line) && !IsVolumeLine(line) && !IsChapterLine(line) && !IsAnnotationLine(line)
  {
    assert IsDigit(line[0]);
    ChapterShapeBareMeaning(line);
  }

  /** What every line the cleaner outputs looks like. */
  ghost predicate IsCleanLine(l: string)
  {
    l != [] && Stripped(l) && Collapsed(l) && !IsPageNumber(l)
  }

  lemma CleanLineHasNoNewline(l: string)
    requires IsCleanLine(l)
    ensures NoNewline(l)
  {
    if '\n' in l {
      var i :| 0 <= i < |l| && l[i] == '\n';
      assert IsSpace(l[i]);
    }
  }

  /** One pass of the loop body on a raw line: `None` when it is skipped. */
  function CleanLine(raw: string): Option<string>
  {
    var line := Strip(raw);
    if line == "" then None
    else if IsPageNumber(line) then None
    else Some(Collapse(line))
  }

  lemma CollapsedLineIsClean(line: string)
    requires line != [] && Stripped(line) && !IsPageNumber(line)
    ensures IsCleanLine(Collapse(line))
  {
    CollapseStripped(line);
    CollapseIsCollapsed(line);
    if i :| 0 <= i < |line| && IsSpace(line[i]) {
      CollapseKeepsSpace(line, i);
      SpaceIsNotDigit(Collapse(line));
    } else {
      assert Collapsed(line);
      CollapseIdentity(line);
    }
  }

  lemma CollapseStripped(line: string)
    requires line != [] && Stripped(line)
    ensures Collapse(line) != [] && Stripped(Collapse(line))
  {
  }

  lemma SpaceIsNotDigit(s: string)
    requires ' ' in s
    ensures !AllDigits(s)
  {
    var j :| 0 <= j < |s| && s[j] == ' ';
    assert !IsDigit(s[j]);
  }

  /** The kept lines, cleaned, in input order. */
  function CleanLines(lines: seq<string>): (r: seq<string>)
    ensures |r| <= |lines|
  {
    if lines == [] then []
    else
      var rest := CleanLines(lines[..|lines| - 1]);
      match CleanLine(lines[|lines| - 1])
      case None => rest
      case Some(l) => rest + [l]
  }

  /** Every line the cleaner keeps is non-empty, stripped, collapsed and not a
      page number. */
  lemma {:induction false} CleanLinesAreClean(lines: seq<string>)
    ensures forall k :: 0 <= k < |CleanLines(lines)| ==> IsCleanLine(CleanLines(lines)[k])
  {
    if lines != [] {
      CleanLinesAreClean(lines[..|lines| - 1]);
      var line := Strip(lines[|lines| - 1]);
      if line != "" && !IsPageNumber(line) {
        CollapsedLineIsClean(line);
      }
    }
  }

  /** The cleaned page: its kept lines joined with newlines. */
  function CleanText(text: string): string
  {
    JoinLines(CleanLines(SplitLines(text)))
  }

  /** `_clean_page_text`; its `page_num` argument is unused and left out. */
  method CleanPageText(text: string) returns (cleaned: string)
    ensures cleaned == CleanText(text)
  {
    var lines := SplitLines(text);
    var cleanedLines: seq<string> := [];
    for i := 0 to |lines|
      invariant cleanedLines == CleanLines(lines[..i])
    {
      assert lines[..i + 1][..i] == lines[..i];
      var line := Strip(lines[i]);
      if line == "" {
        continue;
      }
      if IsPageNumber(line) {
        continue;
      }
      line := Collapse(line);
      cleanedLines := cleanedLines + [line];
    }
    assert lines[..|lines|] == lines;
    cleaned := JoinLines(cleanedLines);
  }

  /** Cleaning is decided line by line: the lines of a concatenation are
      cleaned as the two parts are, in the same order. */
  lemma {:induction false} CleanLinesAppend(a: seq<string>, b: seq<string>)
    ensures CleanLines(a + b) == CleanLines(a) + CleanLines(b)
    decreases |b|
  {
    if b == [] {
      assert a + b == a;
    } else {
      assert (a + b)[..|a + b| - 1] == a + b[..|b| - 1];
      CleanLinesAppend(a, b[..|b| - 1]);
    }
  }

  lemma {:induction false} CleanLinesIdentity(lines: seq<string>)
    requires forall k :: 0 <= k < |lines| ==> IsCleanLine(lines[k])
    ensures CleanLines(lines) == lines
  {
    if lines != [] {
      CleanLinesIdentity(lines[..|lines| - 1]);
      CleanLineOfCleanLine(lines[|lines| - 1]);
      assert lines[..|lines| - 1] + [lines[|lines| - 1]] == lines;
    }
  }

  lemma CleanLineOfCleanLine(l: string)
    requires IsCleanLine(l)
    ensures CleanLine(l) == Some(l)
  {
    assert Strip(l) == l;
    CollapseIdentity(l);
  }

  /** Every line of a cleaned page is a clean line, unless the page cleaned to
      nothing at all. */
  lemma CleanTextLines(text: string)
    ensures CleanText(text) == [] ||
            forall k :: 0 <= k < |SplitLines(CleanText(text))| ==> IsCleanLine(SplitLines(CleanText(text))[k])
  {
    var ls := CleanLines(SplitLines(text));
    CleanLinesAreClean(SplitLines(text));
    if ls != [] {
      forall k | 0 <= k < |ls| ensures NoNewline(ls[k]) {
        CleanLineHasNoNewline(ls[k]);
      }
      SplitJoin(ls);
    }
  }

  /** Cleaning an already cleaned page changes nothing. */
  lemma CleanTextIdempotent(text: string)
    ensures CleanText(CleanText(text)) == CleanText(text)
  {
    var ls := CleanLines(SplitLines(text));
    if ls == [] {
      assert CleanText(text) == [];
      assert SplitLines([]) == [[]];
      assert CleanLines([[]]) == [];
    } else {
      CleanLinesAreClean(SplitLines(text));
      forall k | 0 <= k < |ls| ensures NoNewline(ls[k]) {
        CleanLineHasNoNewline(ls[k]);
      }
      SplitJoin(ls);
      CleanLinesIdentity(ls);
    }
  }

  /** One entry of `pages_content`. */
  datatype PageContent = PageContent(pageNumber: int, content: string)

  /** `full_text` after the given pages; a page whose extracted text is
      empty (or absent, written "") contributes nothing. */
  function FullText(pages: seq<string>): string
  {
    if pages == [] then []
    else
      var page := pages[|pages| - 1];
      FullText(pages[..|pages| - 1]) + (if page != [] then CleanText(page) + "\n" else [])
  }

  /** `pages_content` after the given pages: one record per page with text,
      numbered from one. */
  function PageRecords(pages: seq<string>): seq<PageContent>
  {
    if pages == [] then []
    else
      var page := pages[|pages| - 1];
      PageRecords(pages[..|pages| - 1]) +
        (if page != [] then [PageContent(|pages|, CleanText(page))] else [])
  }

  /** The page loop of `extract_text_from_pdf`, over page texts given in
      order. */
  method AssemblePages(pages: seq<string>) returns (fullText: string, contents: seq<PageContent>)
    ensures fullText == FullText(pages)
    ensures contents == PageRecords(pages)
  {
    fullText := [];
    contents := [];
    for pageIndex := 0 to |pages|
      invariant fullText == FullText(pages[..pageIndex])
      invariant contents == PageRecords(pages[..pageIndex])
    {
      AssembleOnePage(pages, pageIndex);
      var text := pages[pageIndex];
      if text != [] {
        var cleanedText := CleanPageText(text);
        fullText := fullText + (cleanedText + "\n");
        contents := contents + [PageContent(pageIndex + 1, cleanedText)];
      }
    }
    assert pages[..|pages|] == pages;
  }

  /** What one more page adds to the full text and to the records. */
  lemma AssembleOnePage(pages: seq<string>, i: nat)
    requires i < |pages|
    ensures FullText(pages[..i + 1]) ==
              FullText(pages[..i]) + (if pages[i] != [] then CleanText(pages[i]) + "\n" else [])
    ensures PageRecords(pages[..i + 1]) ==
              PageRecords(pages[..i]) + (if pages[i] != [] then [PageContent(i + 1, CleanText(pages[i]))] else [])
  {
    assert pages[..i + 1][..i] == pages[..i];
  }

  /** `record` is the entry of a non-empty page. */
  predicate RecordsPage(pages: seq<string>, record: PageContent)
  {
    1 <= record.pageNumber <= |pages| && pages[record.pageNumber - 1] != [] &&
    record.content == CleanText(pages[record.pageNumber - 1])
  }

  /** Each record names a page with text, numbered from one, and holds that
      page's cleaned text. */
  lemma {:induction false} PageRecordsFaithful(pages: seq<string>)
    ensures forall k :: 0 <= k < |PageRecords(pages)| ==> RecordsPage(pages, PageRecords(pages)[k])
  {
    if pages != [] {
      var prefix := pages[..|pages| - 1];
      var before := PageRecords(prefix);
      var after := PageRecords(pages);
      PageRecordsFaithful(prefix);
      assert forall k :: 0 <= k < |before| ==> after[k] == before[k];
      forall k | 0 <= k < |before| ensures RecordsPage(pages, after[k]) {
        assert RecordsPage(prefix, before[k]);
        assert pages[before[k].pageNumber - 1] == prefix[before[k].pageNumber - 1];
      }
    }
  }

  /** Every record's page number lies between one and the number of pages. */
  lemma {:induction false} PageRecordsInRange(pages: seq<string>)
    ensures forall k :: 0 <= k < |PageRecords(pages)| ==> 1 <= PageRecords(pages)[k].pageNumber <= |pages|
  {
    if pages != [] {
      PageRecordsInRange(pages[..|pages| - 1]);
    }
  }

  /** The records come in strictly increasing page order, so no page is
      recorded twice. */
  lemma {:induction false} PageRecordsOrdered(pages: seq<string>)
    ensures forall j, k :: 0 <= j < k < |PageRecords(pages)| ==>
              PageRecords(pages)[j].pageNumber < PageRecords(pages)[k].pageNumber
  {
    if pages != [] {
      var prefix := pages[..|pages| - 1];
      var before := PageRecords(prefix);
      var after := PageRecords(pages);
      PageRecordsOrdered(prefix);
      PageRecordsInRange(prefix);
      assert forall k :: 0 <= k < |before| ==> after[k] == before[k];
    }
  }

  /** Some record carries page number `n`. */
  predicate HasRecordFor(records: seq<PageContent>, n: int)
  {
    exists k :: 0 <= k < |records| && records[k].pageNumber == n
  }

  /** Every page with text has a record. */
  lemma {:induction false} PageRecordsComplete(pages: seq<string>)
    ensures forall i :: 0 <= i < |pages| && pages[i] != [] ==> HasRecordFor(PageRecords(pages), i + 1)
  {
    if pages != [] {
      var prefix := pages[..|pages| - 1];
      var before := PageRecords(prefix);
      var after := PageRecords(pages);
      PageRecordsComplete(prefix);
      forall i | 0 <= i < |pages| && pages[i] != []
        ensures HasRecordFor(after, i + 1)
      {
        if i == |pages| - 1 {
          assert after[|before|].pageNumber == i + 1;
        } else {
          assert prefix[i] == pages[i];
          assert HasRecordFor(before, i + 1);
          var k :| 0 <= k < |before| && before[k].pageNumber == i + 1;
          assert after[k] == before[k];
        }
      }
    }
  }

  /** Every line of the assembled text is empty or a clean line. */
  ghost predicate LinesClean(s: string)
  {
    forall k :: 0 <= k < |SplitLines(s)| ==> SplitLines(s)[k] == [] || IsCleanLine(SplitLines(s)[k])
  }

  lemma LinesCleanAround(a: string, b: string)
    requires LinesClean(a) && LinesClean(b)
    ensures LinesClean(a + "\n" + b)
  {
    SplitAround(a, b);
  }

  lemma LinesCleanBefore(a: string, b: string)
    requires LinesClean(a + "\n" + b)
    ensures LinesClean(a)
  {
    SplitAround(a, b);
    var all := SplitLines(a + "\n" + b);
    forall k | 0 <= k < |SplitLines(a)|
      ensures SplitLines(a)[k] == [] || IsCleanLine(SplitLines(a)[k])
    {
      assert SplitLines(a)[k] == all[k];
    }
  }

  lemma CleanTextLinesClean(text: string)
    ensures LinesClean(CleanText(text))
  {
    CleanTextLines(text);
    assert SplitLines([]) == [[]];
  }

  /** Appending one cleaned page and its newline keeps every line clean. */
  lemma AppendPageLinesClean(f: string, c: string)
    requires LinesClean(f) && (f == [] || f[|f| - 1] == '\n')
    requires LinesClean(c)
    ensures LinesClean(f + c + "\n")
  {
    assert LinesClean([]) by { assert SplitLines([]) == [[]]; }
    if f == [] {
      assert f + c + "\n" == c + "\n" + [];
      LinesCleanAround(c, []);
    } else {
      var f' := f[..|f| - 1];
      assert f == f' + "\n" + [];
      LinesCleanBefore(f', []);
      LinesCleanAround(f', c);
      assert f + c + "\n" == (f' + "\n" + c) + "\n" + [];
      LinesCleanAround(f' + "\n" + c, []);
    }
  }

  lemma {:induction false} FullTextEndsWithNewline(pages: seq<string>)
    ensures FullText(pages) == [] || FullText(pages)[|FullText(pages)| - 1] == '\n'
  {
    if pages != [] {
      var page := pages[|pages| - 1];
      FullTextEndsWithNewline(pages[..|pages| - 1]);
      EndsWithNewlineAppend(FullText(pages[..|pages| - 1]), if page != [] then CleanText(page) + "\n" else []);
    }
  }

  lemma EndsWithNewlineAppend(a: string, b: string)
    requires a == [] || a[|a| - 1] == '\n'
    requires b == [] || b[|b| - 1] == '\n'
    ensures a + b == [] || (a + b)[|a + b| - 1] == '\n'
  {
  }

  /** The structure parser sees only clean lines and blank ones: each line of
      the full text is empty or a clean line, so its `strip()` is the line
      itself. */
  lemma {:induction false} FullTextLinesClean(pages: seq<string>)
    ensures LinesClean(FullText(pages))
  {
    if pages == [] {
      assert SplitLines([]) == [[]];
    } else {
      var prefix := pages[..|pages| - 1];
      var page := pages[|pages| - 1];
      var f := FullText(prefix);
      FullTextLinesClean(prefix);
      FullTextEndsWithNewline(prefix);
      if page == [] {
        assert FullText(pages) == f;
      } else {
        var c := CleanText(page);
        CleanTextLinesClean(page);
        AppendPageLinesClean(f, c);
        assert FullText(pages) == f + c + "\n";
      }
    }
  }
}
