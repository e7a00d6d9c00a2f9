/** Chunk emission (`create_semantic_chunks` and its helpers): the parsed
    structure and the full text become a list of retrieval chunks, each a
    text with a metadata record. */
module Chunker {
  import opened Text
  import opened Wrappers
  import opened Ordinals
  import opened Patterns
  import opened Structure
  import opened Splitter

  /** A metadata value: the source stores strings, and one integer
      (`paragraph_index`). */
  datatype MetaValue = Str(s: string) | Int(n: int)

  /** A retrieval chunk: `page_content` and `metadata`. */
  datatype Chunk = Chunk(content: string, metadata: map<string, MetaValue>)

  const LanguageStyle: string := "文言文"
  const Era: string := "清代"

  /** The chunk for the preface. */
  function PrefaceChunk(preface: Preface): Chunk
  {
    Chunk(preface.title + "\n\n" + preface.content,
          map["content_type" := Str("序言"), "block_type" := Str("preface"),
              "volume_title" := Str("序言"), "volume_index" := Str("0"),
              "chapter_title" := Str(PrefaceTitle), "chapter_index" := Str("0"),
              "language_style" := Str(LanguageStyle), "era" := Str(Era)])
  }

  // ---------------------------------------------------------------------
  // Table of contents

  /** The heading placed above the table-of-contents entries. */
  const TocHeader: string := "《增删卜易》目录\n\n"

  /** A table-of-contents line with its dot leader and page number removed,
      kept when it is longer than one character and not a bare number. */
  function TocEntry(line: string): Option<string>
  {
    var cleaned := Strip(RemoveLeaders(line));
    if cleaned != [] && |cleaned| > 1 && !AllDigits(cleaned) then Some(cleaned) else None
  }

  /** The entries collected from the remaining lines, with `inToc` the flag
      of the loop: skips blank lines, switches on at a table-of-contents
      marker, and stops at the first volume heading once switched on. */
  function TocLines(lines: seq<string>, inToc: bool): seq<string>
    decreases |lines|
  {
    if lines == [] then []
    else
      var line := Strip(lines[0]);
      if line == [] then TocLines(lines[1..], inToc)
      else if IsTocLine(line) then TocLines(lines[1..], true)
      else if inToc && IsVolumeLine(line) then []
      else if inToc then
        EntryList(line) + TocLines(lines[1..], inToc)
      else TocLines(lines[1..], inToc)
  }

  /** The entries a line inside the table of contents contributes. */
  function EntryList(line: string): seq<string>
  {
    match TocEntry(line) case Some(e) => [e] case None => []
  }

  /** One step of `TocLines` at position `i`. */
  lemma TocLinesAt(lines: seq<string>, i: nat, inToc: bool)
    requires i < |lines|
    ensures var line := Strip(lines[i]);
      TocLines(lines[i..], inToc) ==
        if line == [] then TocLines(lines[i + 1..], inToc)
        else if IsTocLine(line) then TocLines(lines[i + 1..], true)
        else if inToc && IsVolumeLine(line) then []
        else if inToc then
          EntryList(line) + TocLines(lines[i + 1..], inToc)
        else TocLines(lines[i + 1..], inToc)
  {
    assert lines[i..][0] == lines[i];
    assert lines[i..][1..] == lines[i + 1..];
  }

  const TocMetadata: map<string, MetaValue> :=
    map["content_type" := Str("目录"), "block_type" := Str("table_of_contents"),
        "volume_title" := Str("全书目录"), "volume_index" := Str("0"),
        "chapter_title" := Str("目录"), "chapter_index" := Str("0")]

  /** The value of `_create_toc_chunks`. */
  function TocChunks(fullText: string): seq<Chunk>
  {
    var entries := TocLines(SplitLines(fullText), false);
    if entries == [] then [] else [Chunk(TocHeader + JoinLines(entries), TocMetadata)]
  }

  /** `_create_toc_chunks`. */
  method CreateTocChunks(fullText: string) returns (chunks: seq<Chunk>)
    ensures chunks == TocChunks(fullText)
  {
    var lines := SplitLines(fullText);
    var tocLines: seq<string> := [];
    var inToc := false;
    var i := 0;
    while i < |lines|
      invariant 0 <= i <= |lines|
      invariant tocLines + TocLines(lines[i..], inToc) == TocLines(lines, false)
    {
      TocLinesAt(lines, i, inToc);
      var line := Strip(lines[i]);
      if line == [] {
        i := i + 1;
        continue;
      }
      if IsTocLine(line) {
        inToc := true;
        i := i + 1;
        continue;
      }
      if inToc && IsVolumeLine(line) {
        break;
      }
      if inToc && line != [] {
        var cleanedLine := Strip(RemoveLeaders(line));
        if cleanedLine != [] && |cleanedLine| > 1 && !AllDigits(cleanedLine) {
          ConcatAssoc(tocLines, [cleanedLine], TocLines(lines[i + 1..], inToc));
          tocLines := tocLines + [cleanedLine];
        } else {
          assert EntryList(line) == [];
          assert [] + TocLines(lines[i + 1..], inToc) == TocLines(lines[i + 1..], inToc);
        }
      }
      i := i + 1;
    }
    assert tocLines == TocLines(lines, false) by {
      if i == |lines| {
        assert lines[i..] == [];
        assert tocLines + [] == tocLines;
      } else {
        TocLinesAt(lines, i, inToc);
        assert TocLines(lines[i..], inToc) == [];
        assert tocLines + [] == tocLines;
      }
    }
    if tocLines != [] {
      var tocContent := TocHeader + JoinLines(tocLines);
      chunks := [Chunk(tocContent, TocMetadata)];
    } else {
      chunks := [];
    }
  }

  // ---------------------------------------------------------------------
  // Volumes and chapters

  /** The chunk holding a volume's title. */
  function VolumeTitleChunk(volume: Volume): Chunk
  {
    Chunk(volume.title,
          map["content_type" := Str("卷标题"), "block_type" := Str("volume_title"),
              "volume_title" := Str(volume.title), "volume_index" := Str(volume.volumeIndex),
              "chapter_title" := Str("卷标题"), "chapter_index" := Str("0")])
  }

  /** `_build_chapter_content`: title, a blank line, the content, and the
      annotations after another blank line when there are any, stripped. */
  function BuildChapterContent(chapter: Chapter): string
  {
    Strip(chapter.title + "\n\n" + chapter.content +
          (if chapter.annotations != [] then "\n\n" + JoinLines(chapter.annotations) else []))
  }

  /** Chapters whose built content is longer than this are split. */
  const ChapterLimit: nat := 1500

  /** Paragraphs of a split chapter with this many characters or fewer,
      once stripped, are dropped. */
  const ParagraphMinimum: nat := 50

  /** The chunk for a whole chapter. */
  function ChapterChunk(content: string, chapter: Chapter, volume: Volume): Chunk
  {
    Chunk(content,
          map["content_type" := Str("章节"), "block_type" := Str("chapter"),
              "volume_title" := Str(volume.title), "volume_index" := Str(volume.volumeIndex),
              "chapter_title" := Str(chapter.title),
              "chapter_index" := Str(ExtractChapterIndex(chapter.title)),
              "language_style" := Str(LanguageStyle), "era" := Str(Era)])
  }

  /** The chunk for the paragraph at position `index` (counted from one) of
      a split chapter. */
  function ParagraphChunk(para: string, index: int, chapter: Chapter, volume: Volume): Chunk
  {
    Chunk(para,
          map["content_type" := Str("章节段落"), "block_type" := Str("chapter_paragraph"),
              "volume_title" := Str(volume.title), "volume_index" := Str(volume.volumeIndex),
              "chapter_title" := Str(chapter.title),
              "chapter_index" := Str(ExtractChapterIndex(chapter.title)),
              "paragraph_index" := Int(index),
              "language_style" := Str(LanguageStyle), "era" := Str(Era)])
  }

  /** The chunks for the given paragraphs of a split chapter. */
  function ParagraphChunks(paras: seq<string>, chapter: Chapter, volume: Volume): seq<Chunk>
  {
    if paras == [] then []
    else
      var para := Strip(paras[|paras| - 1]);
      ParagraphChunks(paras[..|paras| - 1], chapter, volume) +
        (if para != [] && |para| > ParagraphMinimum
         then [ParagraphChunk(para, |paras|, chapter, volume)] else [])
  }

  /** `_split_large_chapter`. */
  method SplitLargeChapter(content: string, chapter: Chapter, volume: Volume) returns (chunks: seq<Chunk>)
    ensures chunks == ParagraphChunks(ClassicalParagraphs(content), chapter, volume)
  {
    var paragraphs := SplitClassicalParagraphs(content);
    chunks := [];
    for i := 0 to |paragraphs|
      invariant chunks == ParagraphChunks(paragraphs[..i], chapter, volume)
    {
      ParagraphChunksAt(paragraphs, i, chapter, volume);
      var para := paragraphs[i];
      if Strip(para) != [] && |Strip(para)| > ParagraphMinimum {
        chunks := chunks + [ParagraphChunk(Strip(para), i + 1, chapter, volume)];
      }
    }
    assert paragraphs[..|paragraphs|] == paragraphs;
  }

  /** The value of `_process_chapter_semantic`. */
  function ChapterChunks(chapter: Chapter, volume: Volume): seq<Chunk>
  {
    var content := BuildChapterContent(chapter);
    if |content| > ChapterLimit then ParagraphChunks(ClassicalParagraphs(content), chapter, volume)
    else [ChapterChunk(content, chapter, volume)]
  }

  /** `_process_chapter_semantic`. */
  method ProcessChapterSemantic(chapter: Chapter, volume: Volume) returns (chunks: seq<Chunk>)
    ensures chunks == ChapterChunks(chapter, volume)
  {
    chunks := [];
    var chapterContent := BuildChapterContent(chapter);
    if |chapterContent| > ChapterLimit {
      var subChunks := SplitLargeChapter(chapterContent, chapter, volume);
      chunks := chunks + subChunks;
    } else {
      chunks := chunks + [ChapterChunk(chapterContent, chapter, volume)];
    }
  }

  /** The chunks of the given chapters of a volume, in order. */
  function ChaptersChunks(chapters: seq<Chapter>, volume: Volume): seq<Chunk>
  {
    if chapters == [] then []
    else ChaptersChunks(chapters[..|chapters| - 1], volume) + ChapterChunks(chapters[|chapters| - 1], volume)
  }

  /** The value of `_process_volume_semantic`. */
  function VolumeChunks(volume: Volume): seq<Chunk>
  {
    [VolumeTitleChunk(volume)] + ChaptersChunks(volume.chapters, volume)
  }

  /** `_process_volume_semantic`. */
  method ProcessVolumeSemantic(volume: Volume) returns (chunks: seq<Chunk>)
    ensures chunks == VolumeChunks(volume)
  {
    chunks := [VolumeTitleChunk(volume)];
    ghost var head := chunks;
    for i := 0 to |volume.chapters|
      invariant chunks == head + ChaptersChunks(volume.chapters[..i], volume)
    {
      ChaptersChunksSnoc(volume.chapters, i, volume);
      var chapterChunks := ProcessChapterSemantic(volume.chapters[i], volume);
      ghost var done := ChaptersChunks(volume.chapters[..i], volume);
      ConcatAssoc(head, done, chapterChunks);
      chunks := chunks + chapterChunks;
    }
    assert volume.chapters[..|volume.chapters|] == volume.chapters;
  }

  lemma ChaptersChunksSnoc(chapters: seq<Chapter>, i: nat, volume: Volume)
    requires i < |chapters|
    ensures ChaptersChunks(chapters[..i + 1], volume) ==
            ChaptersChunks(chapters[..i], volume) + ChapterChunks(chapters[i], volume)
  {
    assert chapters[..i + 1][..i] == chapters[..i];
  }

  /** The chunks of the given volumes, in order. */
  function VolumesChunks(volumes: seq<Volume>): seq<Chunk>
  {
    if volumes == [] then []
    else VolumesChunks(volumes[..|volumes| - 1]) + VolumeChunks(volumes[|volumes| - 1])
  }

  lemma VolumesChunksSnoc(volumes: seq<Volume>, i: nat)
    requires i < |volumes|
    ensures VolumesChunks(volumes[..i + 1]) == VolumesChunks(volumes[..i]) + VolumeChunks(volumes[i])
  {
    assert volumes[..i + 1][..i] == volumes[..i];
  }

  /** The chunks placed before the volumes: the preface chunk when there is
      a preface, then the table-of-contents chunk when one was detected. */
  function FrontChunks(structure: DocumentStructure, fullText: string): seq<Chunk>
  {
    (match structure.preface case Some(p) => [PrefaceChunk(p)] case None => []) +
    (if structure.hasToc then TocChunks(fullText) else [])
  }

  /** The value of `create_semantic_chunks` on a structure and the full text
      it was parsed from. */
  function SemanticChunks(structure: DocumentStructure, fullText: string): seq<Chunk>
  {
    FrontChunks(structure, fullText) + VolumesChunks(structure.volumes)
  }

  /** `create_semantic_chunks`. */
  method CreateSemanticChunks(structure: DocumentStructure, fullText: string) returns (chunks: seq<Chunk>)
    ensures chunks == SemanticChunks(structure, fullText)
  {
    chunks := [];
    if structure.preface.Some? {
      var prefaceChunk := PrefaceChunk(structure.preface.value);
      chunks := chunks + [prefaceChunk];
    }
    if structure.hasToc {
      var tocChunks := CreateTocChunks(fullText);
      chunks := chunks + tocChunks;
    }
    ghost var front := FrontChunks(structure, fullText);
    assert chunks == front;
    for i := 0 to |structure.volumes|
      invariant chunks == front + VolumesChunks(structure.volumes[..i])
    {
      VolumesChunksSnoc(structure.volumes, i);
      var volumeChunks := ProcessVolumeSemantic(structure.volumes[i]);
      ConcatAssoc(front, VolumesChunks(structure.volumes[..i]), volumeChunks);
      chunks := chunks + volumeChunks;
    }
    assert structure.volumes[..|structure.volumes|] == structure.volumes;
  }

  // ---------------------------------------------------------------------
  // Reading chunks back

  /** The `block_type` a chunk carries, or the empty string. */
  function BlockType(c: Chunk): string
  {
    if "block_type" in c.metadata && c.metadata["block_type"].Str? then c.metadata["block_type"].s else []
  }

  /** The string stored under `key`, or the empty string. */
  function MetaString(c: Chunk, key: string): string
  {
    if key in c.metadata && c.metadata[key].Str? then c.metadata[key].s else []
  }

  /** The `paragraph_index` a chunk carries, or 0. */
  function ParagraphIndex(c: Chunk): int
  {
    if "paragraph_index" in c.metadata && c.metadata["paragraph_index"].Int? then c.metadata["paragraph_index"].n else 0
  }

  /** A chunk that belongs to a chapter: a whole chapter or one of its paragraphs. */
  predicate IsChapterBlock(c: Chunk)
  {
    BlockType(c) == "chapter" || BlockType(c) == "chapter_paragraph"
  }

  /** The preface chunk files the preface under volume and chapter "0" with
      the preface title, and its text gives back the preface's title and
      content on either side of a blank line. */
  lemma PrefaceChunkFields(preface: Preface)
    ensures var c := PrefaceChunk(preface);
      && BlockType(c) == "preface" && MetaString(c, "content_type") == "序言"
      && MetaString(c, "volume_title") == "序言" && MetaString(c, "volume_index") == "0"
      && MetaString(c, "chapter_title") == PrefaceTitle && MetaString(c, "chapter_index") == "0"
      && |c.content| == |preface.title| + 2 + |preface.content|
      && c.content[..|preface.title|] == preface.title
      && c.content[|preface.title|..|preface.title| + 2] == "\n\n"
      && c.content[|preface.title| + 2..] == preface.content
  {
  }

  lemma PrefaceChunkIsPreface(preface: Preface)
    ensures BlockType(PrefaceChunk(preface)) == "preface"
  {
  }

  lemma TocChunkFields(content: string)
    ensures BlockType(Chunk(content, TocMetadata)) == "table_of_contents"
  {
  }

  lemma VolumeTitleChunkFields(volume: Volume)
    ensures var c := VolumeTitleChunk(volume);
      BlockType(c) == "volume_title" && MetaString(c, "volume_title") == volume.title == c.content
  {
  }

  lemma ChapterChunkFields(content: string, chapter: Chapter, volume: Volume)
    ensures var c := ChapterChunk(content, chapter, volume);
      BlockType(c) == "chapter" && MetaString(c, "volume_title") == volume.title &&
      MetaString(c, "chapter_index") == ExtractChapterIndex(chapter.title)
  {
    var m := ChapterChunk(content, chapter, volume).metadata;
    assert m["block_type"] == Str("chapter");
    assert m["volume_title"] == Str(volume.title);
    assert m["chapter_index"] == Str(ExtractChapterIndex(chapter.title));
  }

  lemma ParagraphChunkFields(para: string, index: int, chapter: Chapter, volume: Volume)
    ensures var c := ParagraphChunk(para, index, chapter, volume);
      BlockType(c) == "chapter_paragraph" && MetaString(c, "volume_title") == volume.title &&
      ParagraphIndex(c) == index
  {
  }

  // ---------------------------------------------------------------------
  // Properties of the table of contents

  /** What every kept entry looks like. */
  predicate IsTocEntry(e: string)
  {
    Stripped(e) && |e| > 1 && !AllDigits(e)
  }

  /** Every entry the scan keeps is stripped, longer than one character and
      not a bare number. */
  lemma {:induction false} TocLinesShape(lines: seq<string>, inToc: bool)
    ensures forall e :: e in TocLines(lines, inToc) ==> IsTocEntry(e)
    decreases |lines|
  {
    if lines != [] {
      var line := Strip(lines[0]);
      TocLinesShape(lines[1..], inToc);
      TocLinesShape(lines[1..], true);
      EntryListShape(line);
      EntriesAppendShape(EntryList(line), TocLines(lines[1..], inToc));
    }
  }

  lemma EntryListShape(line: string)
    ensures forall e :: e in EntryList(line) ==> IsTocEntry(e)
  {
  }

  lemma EntriesAppendShape(a: seq<string>, b: seq<string>)
    requires forall e :: e in a ==> IsTocEntry(e)
    requires forall e :: e in b ==> IsTocEntry(e)
    ensures forall e :: e in a + b ==> IsTocEntry(e)
  {
  }

  /** The lines after the first table-of-contents marker; none when there is
      no marker. */
  function AfterFirstToc(lines: seq<string>): seq<string>
    decreases |lines|
  {
    if lines == [] then []
    else if IsTocLine(Strip(lines[0])) then lines[1..]
    else AfterFirstToc(lines[1..])
  }

  /** The lines before the first volume heading; all of them when there is
      none. */
  function BeforeVolume(lines: seq<string>): seq<string>
    decreases |lines|
  {
    if lines == [] then []
    else if IsVolumeLine(Strip(lines[0])) then []
    else [lines[0]] + BeforeVolume(lines[1..])
  }

  /** The entries of a region of the table of contents: every non-blank
      line that is not itself a marker, leaders removed, kept when it is an
      entry. */
  function Entries(lines: seq<string>): seq<string>
    decreases |lines|
  {
    if lines == [] then []
    else
      var line := Strip(lines[0]);
      (if line == [] || IsTocLine(line) then [] else EntryList(line)) + Entries(lines[1..])
  }

  /** Before the first marker nothing is collected. */
  lemma {:induction false} TocLinesSkipToMarker(lines: seq<string>)
    ensures TocLines(lines, false) == TocLines(AfterFirstToc(lines), true)
    decreases |lines|
  {
    if lines != [] {
      TocLinesSkipToMarker(lines[1..]);
    }
  }

  /** After the marker, entries are collected up to the first volume
      heading, later markers being skipped. */
  lemma {:induction false} TocLinesInside(lines: seq<string>)
    ensures TocLines(lines, true) == Entries(BeforeVolume(lines))
    decreases |lines|
  {
    if lines != [] {
      var line := Strip(lines[0]);
      TocLinesInside(lines[1..]);
      if IsVolumeLine(line) {
        VolumeLineIsNotTocLine(line);
      } else {
        var rest := BeforeVolume(lines[1..]);
        assert ([lines[0]] + rest)[0] == lines[0];
        assert ([lines[0]] + rest)[1..] == rest;
      }
    }
  }

  /** The table of contents is read only from the lines after the first
      marker and before the next volume heading. */
  lemma TocRegion(lines: seq<string>)
    ensures TocLines(lines, false) == Entries(BeforeVolume(AfterFirstToc(lines)))
  {
    TocLinesSkipToMarker(lines);
    TocLinesInside(AfterFirstToc(lines));
  }

  /** Some line of `lines`, stripped, with leaders removed and stripped
      again, is `e`. */
  predicate CleanedFrom(e: string, lines: seq<string>)
  {
    exists k :: 0 <= k < |lines| && e == Strip(RemoveLeaders(Strip(lines[k])))
  }

  /** Every entry is a line of its region with its leaders removed. */
  lemma {:induction false} EntriesCleanedFrom(lines: seq<string>)
    ensures forall e :: e in Entries(lines) ==> CleanedFrom(e, lines)
    decreases |lines|
  {
    if lines != [] {
      var line := Strip(lines[0]);
      EntriesCleanedFrom(lines[1..]);
      EntryListCleaned(line);
      CleanedFromCons(lines, if line == [] || IsTocLine(line) then [] else EntryList(line), Entries(lines[1..]));
    }
  }

  lemma EntryListCleaned(line: string)
    ensures forall e :: e in EntryList(line) ==> e == Strip(RemoveLeaders(line))
  {
  }

  lemma CleanedFromCons(lines: seq<string>, head: seq<string>, rest: seq<string>)
    requires lines != []
    requires forall e :: e in head ==> e == Strip(RemoveLeaders(Strip(lines[0])))
    requires forall e :: e in rest ==> CleanedFrom(e, lines[1..])
    ensures forall e :: e in head + rest ==> CleanedFrom(e, lines)
  {
    forall e | e in head + rest ensures CleanedFrom(e, lines) {
      if e in head {
        assert e == Strip(RemoveLeaders(Strip(lines[0])));
      } else {
        var k :| 0 <= k < |lines[1..]| && e == Strip(RemoveLeaders(Strip(lines[1..][k])));
        assert lines[1..][k] == lines[k + 1];
      }
    }
  }

  /** `_create_toc_chunks` yields at most one chunk: the heading followed by
      the entries of the region between the first marker and the next volume
      heading, one per line, when there are any; each entry is a line of
      that region with its leaders removed, and is stripped, longer than one
      character and not a bare number. */
  lemma TocChunksSpec(fullText: string)
    ensures var region := BeforeVolume(AfterFirstToc(SplitLines(fullText)));
      var entries := Entries(region);
      var r := TocChunks(fullText);
      && |r| <= 1
      && (r != [] <==> entries != [])
      && (r != [] ==> r[0].content == TocHeader + JoinLines(entries) && BlockType(r[0]) == "table_of_contents")
      && (forall e :: e in entries ==> IsTocEntry(e) && CleanedFrom(e, region))
  {
    var lines := SplitLines(fullText);
    TocRegion(lines);
    TocLinesShape(lines, false);
    EntriesCleanedFrom(BeforeVolume(AfterFirstToc(lines)));
    TocChunkFields(TocHeader + JoinLines(TocLines(lines, false)));
  }

  // ---------------------------------------------------------------------
  // Properties of chapter chunks

  /** Stripping a text that opens with a non-empty stripped piece keeps that
      piece at its head. */
  lemma StripKeepsHead(a: string, b: string)
    requires a != [] && Stripped(a)
    ensures StartsWith(Strip(a + b), a)
  {
    var s := a + b;
    assert s[0] == a[0];
    assert TrimStart(s) == s;
    var n := SpanBack(s, IsSpace);
    assert s[|a| - 1] == a[|a| - 1];
    assert n <= |b|;
    assert Strip(s) == s[..|s| - n];
    assert Strip(s)[..|a|] == s[..|a|];
  }

  /** A chapter's built text is stripped and opens with its title. */
  lemma ChapterContentLeadsWithTitle(chapter: Chapter)
    requires chapter.title != [] && Stripped(chapter.title)
    ensures var c := BuildChapterContent(chapter);
      Stripped(c) && StartsWith(c, chapter.title) && c != []
  {
    var tail := "\n\n" + chapter.content +
      (if chapter.annotations != [] then "\n\n" + JoinLines(chapter.annotations) else []);
    assert chapter.title + "\n\n" + chapter.content +
      (if chapter.annotations != [] then "\n\n" + JoinLines(chapter.annotations) else []) == chapter.title + tail;
    StripKeepsHead(chapter.title, tail);
  }

  /** With annotations, which are non-empty stripped lines, nothing of a
      chapter's built text is stripped away: it is exactly the title, a
      blank line, the body, a blank line and the annotations, one per line. */
  lemma ChapterContentWithAnnotations(chapter: Chapter)
    requires chapter.title != [] && Stripped(chapter.title)
    requires chapter.annotations != []
    requires forall a :: a in chapter.annotations ==> a != [] && Stripped(a)
    ensures BuildChapterContent(chapter) ==
      chapter.title + "\n\n" + chapter.content + "\n\n" + JoinLines(chapter.annotations)
  {
    var notes := JoinLines(chapter.annotations);
    JoinStripped(chapter.annotations);
    var whole := chapter.title + "\n\n" + chapter.content + "\n\n" + notes;
    assert whole[0] == chapter.title[0];
    assert whole[|whole| - 1] == notes[|notes| - 1];
    assert Stripped(whole);
  }

  /** The paragraph chunk `c` holds paragraph number `ParagraphIndex(c)`
      (counted from one), stripped and longer than the minimum. */
  predicate HoldsParagraph(paras: seq<string>, c: Chunk)
  {
    && 1 <= ParagraphIndex(c) <= |paras|
    && c.content == Strip(paras[ParagraphIndex(c) - 1])
    && |c.content| > ParagraphMinimum
    && BlockType(c) == "chapter_paragraph"
  }

  lemma ParagraphChunksSnoc(paras: seq<string>, chapter: Chapter, volume: Volume)
    requires paras != []
    ensures var para := Strip(paras[|paras| - 1]);
      && ParagraphChunks(paras, chapter, volume) ==
           ParagraphChunks(paras[..|paras| - 1], chapter, volume) +
           (if para != [] && |para| > ParagraphMinimum then [ParagraphChunk(para, |paras|, chapter, volume)] else [])
      && (para != [] && |para| > ParagraphMinimum ==>
            HoldsParagraph(paras, ParagraphChunk(para, |paras|, chapter, volume)))
  {
    var para := Strip(paras[|paras| - 1]);
    ParagraphChunkFields(para, |paras|, chapter, volume);
  }

  /** One more paragraph is one more step of `ParagraphChunks`. */
  lemma ParagraphChunksAt(paras: seq<string>, i: nat, chapter: Chapter, volume: Volume)
    requires i < |paras|
    ensures var para := Strip(paras[i]);
      ParagraphChunks(paras[..i + 1], chapter, volume) ==
        ParagraphChunks(paras[..i], chapter, volume) +
        (if para != [] && |para| > ParagraphMinimum then [ParagraphChunk(para, i + 1, chapter, volume)] else [])
  {
    assert paras[..i + 1][..i] == paras[..i];
  }

  /** Each paragraph chunk holds the stripped paragraph its index names,
      and that paragraph is longer than the minimum. */
  lemma {:induction false} ParagraphChunksFaithful(paras: seq<string>, chapter: Chapter, volume: Volume)
    ensures var r := ParagraphChunks(paras, chapter, volume);
      forall k :: 0 <= k < |r| ==> HoldsParagraph(paras, r[k])
  {
    if paras != [] {
      var prefix := paras[..|paras| - 1];
      var para := Strip(paras[|paras| - 1]);
      ParagraphChunksFaithful(prefix, chapter, volume);
      ParagraphChunksSnoc(paras, chapter, volume);
      HoldsSnoc(prefix, paras, ParagraphChunks(prefix, chapter, volume),
        if para != [] && |para| > ParagraphMinimum then [ParagraphChunk(para, |paras|, chapter, volume)] else []);
    }
  }

  lemma HoldsSnoc(prefix: seq<string>, paras: seq<string>, before: seq<Chunk>, extra: seq<Chunk>)
    requires paras != [] && prefix == paras[..|paras| - 1]
    requires forall k :: 0 <= k < |before| ==> HoldsParagraph(prefix, before[k])
    requires forall k :: 0 <= k < |extra| ==> HoldsParagraph(paras, extra[k])
    ensures forall k :: 0 <= k < |before + extra| ==> HoldsParagraph(paras, (before + extra)[k])
  {
    forall k | 0 <= k < |before + extra| ensures HoldsParagraph(paras, (before + extra)[k]) {
      if k < |before| {
        var c := before[k];
        assert HoldsParagraph(prefix, c);
        assert prefix[ParagraphIndex(c) - 1] == paras[ParagraphIndex(c) - 1];
      } else {
        assert (before + extra)[k] == extra[k - |before|];
      }
    }
  }

  /** Paragraph indexes strictly increase along the chunks (gaps are left
      where short paragraphs were dropped). */
  lemma {:induction false} ParagraphChunksOrdered(paras: seq<string>, chapter: Chapter, volume: Volume)
    ensures var r := ParagraphChunks(paras, chapter, volume);
      forall j, k :: 0 <= j < k < |r| ==> ParagraphIndex(r[j]) < ParagraphIndex(r[k])
  {
    if paras != [] {
      var prefix := paras[..|paras| - 1];
      var para := Strip(paras[|paras| - 1]);
      var before := ParagraphChunks(prefix, chapter, volume);
      ParagraphChunksOrdered(prefix, chapter, volume);
      ParagraphChunksFaithful(prefix, chapter, volume);
      ParagraphChunksSnoc(paras, chapter, volume);
      ParagraphChunkFields(para, |paras|, chapter, volume);
      IncreasingSnoc(prefix, before,
        if para != [] && |para| > ParagraphMinimum then [ParagraphChunk(para, |paras|, chapter, volume)] else [],
        |paras|);
    }
  }

  lemma IncreasingSnoc(prefix: seq<string>, before: seq<Chunk>, extra: seq<Chunk>, n: int)
    requires forall j, k :: 0 <= j < k < |before| ==> ParagraphIndex(before[j]) < ParagraphIndex(before[k])
    requires forall k :: 0 <= k < |before| ==> HoldsParagraph(prefix, before[k])
    requires |prefix| < n
    requires |extra| <= 1 && forall k :: 0 <= k < |extra| ==> ParagraphIndex(extra[k]) == n
    ensures forall j, k :: 0 <= j < k < |before + extra| ==>
              ParagraphIndex((before + extra)[j]) < ParagraphIndex((before + extra)[k])
  {
    forall j, k | 0 <= j < k < |before + extra|
      ensures ParagraphIndex((before + extra)[j]) < ParagraphIndex((before + extra)[k])
    {
      assert (before + extra)[j] == before[j];
      if k >= |before| {
        assert HoldsParagraph(prefix, before[j]);
        assert (before + extra)[k] == extra[k - |before|];
      }
    }
  }

  /** Some chunk carries paragraph index `n`. */
  predicate HasParagraph(chunks: seq<Chunk>, n: int)
  {
    exists k :: 0 <= k < |chunks| && ParagraphIndex(chunks[k]) == n
  }

  /** Every paragraph longer than the minimum once stripped has its chunk. */
  lemma {:induction false} ParagraphChunksComplete(paras: seq<string>, chapter: Chapter, volume: Volume)
    ensures var r := ParagraphChunks(paras, chapter, volume);
      forall i :: 0 <= i < |paras| && |Strip(paras[i])| > ParagraphMinimum ==> HasParagraph(r, i + 1)
  {
    if paras != [] {
      var prefix := paras[..|paras| - 1];
      var para := Strip(paras[|paras| - 1]);
      ParagraphChunksComplete(prefix, chapter, volume);
      ParagraphChunksSnoc(paras, chapter, volume);
      ParagraphChunkFields(para, |paras|, chapter, volume);
      CompleteSnoc(prefix, paras, ParagraphChunks(prefix, chapter, volume),
        if para != [] && |para| > ParagraphMinimum then [ParagraphChunk(para, |paras|, chapter, volume)] else []);
    }
  }

  lemma CompleteSnoc(prefix: seq<string>, paras: seq<string>, before: seq<Chunk>, extra: seq<Chunk>)
    requires paras != [] && prefix == paras[..|paras| - 1]
    requires forall i :: 0 <= i < |prefix| && |Strip(prefix[i])| > ParagraphMinimum ==> HasParagraph(before, i + 1)
    requires |Strip(paras[|paras| - 1])| > ParagraphMinimum ==> |extra| == 1 && ParagraphIndex(extra[0]) == |paras|
    ensures forall i :: 0 <= i < |paras| && |Strip(paras[i])| > ParagraphMinimum ==> HasParagraph(before + extra, i + 1)
  {
    forall i | 0 <= i < |paras| && |Strip(paras[i])| > ParagraphMinimum
      ensures HasParagraph(before + extra, i + 1)
    {
      if i == |paras| - 1 {
        assert (before + extra)[|before|] == extra[0];
      } else {
        assert prefix[i] == paras[i];
        var k :| 0 <= k < |before| && ParagraphIndex(before[k]) == i + 1;
        assert (before + extra)[k] == before[k];
      }
    }
  }

  /** A chapter becomes exactly one whole-chapter chunk holding its built
      text precisely when that text is at most the limit; otherwise it
      becomes the chunks of its merged paragraphs longer than the minimum,
      numbered by their position among the merged paragraphs. */
  lemma ChapterChunksSpec(chapter: Chapter, volume: Volume)
    ensures var content := BuildChapterContent(chapter);
      var r := ChapterChunks(chapter, volume);
      && (|content| <= ChapterLimit <==>
            |r| == 1 && r[0].content == content && BlockType(r[0]) == "chapter")
      && (|content| <= ChapterLimit ==>
            MetaString(r[0], "chapter_index") == ExtractChapterIndex(chapter.title))
      && (|content| > ChapterLimit ==>
            forall k :: 0 <= k < |r| ==> HoldsParagraph(ClassicalParagraphs(content), r[k]))
  {
    var content := BuildChapterContent(chapter);
    WholeOrSplit(content, ClassicalParagraphs(content), ChapterChunks(chapter, volume), chapter, volume);
  }

  lemma WholeOrSplit(content: string, paras: seq<string>, r: seq<Chunk>, chapter: Chapter, volume: Volume)
    requires r == if |content| > ChapterLimit then ParagraphChunks(paras, chapter, volume)
                  else [ChapterChunk(content, chapter, volume)]
    ensures && (|content| <= ChapterLimit <==>
                  |r| == 1 && r[0].content == content && BlockType(r[0]) == "chapter")
            && (|content| <= ChapterLimit ==>
                  MetaString(r[0], "chapter_index") == ExtractChapterIndex(chapter.title))
            && (|content| > ChapterLimit ==> forall k :: 0 <= k < |r| ==> HoldsParagraph(paras, r[k]))
  {
    if |content| <= ChapterLimit {
      ChapterChunkFields(content, chapter, volume);
    } else {
      ParagraphChunksFaithful(paras, chapter, volume);
      ParagraphChunksAreNotWhole(paras, chapter, volume);
    }
  }

  lemma ParagraphChunksAreNotWhole(paras: seq<string>, chapter: Chapter, volume: Volume)
    ensures var r := ParagraphChunks(paras, chapter, volume);
      forall k :: 0 <= k < |r| ==> BlockType(r[k]) != "chapter"
  {
    var r := ParagraphChunks(paras, chapter, volume);
    ParagraphChunksFaithful(paras, chapter, volume);
    forall k | 0 <= k < |r| ensures BlockType(r[k]) != "chapter" {
      assert HoldsParagraph(paras, r[k]);
      assert |BlockType(r[k])| != |"chapter"|;
    }
  }

  // ---------------------------------------------------------------------
  // Order of the chunks

  /** The content of the latest volume-title chunk, if any. */
  function CurrentVolume(chunks: seq<Chunk>): Option<string>
  {
    if chunks == [] then None
    else if BlockType(chunks[|chunks| - 1]) == "volume_title" then Some(chunks[|chunks| - 1].content)
    else CurrentVolume(chunks[..|chunks| - 1])
  }

  /** Every chunk is either a volume-title chunk naming its own title, or a
      chapter chunk tagged with the title of the latest volume-title chunk
      before it. */
  predicate Grouped(chunks: seq<Chunk>)
  {
    chunks == [] ||
    var prefix := chunks[..|chunks| - 1];
    var c := chunks[|chunks| - 1];
    && Grouped(prefix)
    && ((BlockType(c) == "volume_title" && MetaString(c, "volume_title") == c.content) ||
        (IsChapterBlock(c) && CurrentVolume(prefix) == Some(MetaString(c, "volume_title"))))
  }

  /** The contents of the volume-title chunks, in order. */
  function TitlesOf(chunks: seq<Chunk>): seq<string>
  {
    if chunks == [] then []
    else
      var c := chunks[|chunks| - 1];
      TitlesOf(chunks[..|chunks| - 1]) + (if BlockType(c) == "volume_title" then [c.content] else [])
  }

  lemma {:induction false} TitlesOfAppend(a: seq<Chunk>, b: seq<Chunk>)
    ensures TitlesOf(a + b) == TitlesOf(a) + TitlesOf(b)
    decreases |b|
  {
    if b == [] {
      assert a + b == a;
    } else {
      var b' := b[..|b| - 1];
      assert (a + b)[..|a + b| - 1] == a + b';
      TitlesOfAppend(a, b');
    }
  }

  lemma {:induction false} CurrentVolumeAppend(a: seq<Chunk>, b: seq<Chunk>)
    requires CurrentVolume(b).Some?
    ensures CurrentVolume(a + b) == CurrentVolume(b)
    decreases |b|
  {
    var b' := b[..|b| - 1];
    assert (a + b)[..|a + b| - 1] == a + b';
    if BlockType(b[|b| - 1]) != "volume_title" {
      CurrentVolumeAppend(a, b');
    }
  }

  /** Two grouped runs stay grouped when joined, provided the second opens
      with a volume title. */
  lemma {:induction false} GroupedAppend(a: seq<Chunk>, b: seq<Chunk>)
    requires Grouped(a) && Grouped(b)
    requires b != [] ==> BlockType(b[0]) == "volume_title"
    ensures Grouped(a + b)
    decreases |b|
  {
    if b == [] {
      assert a + b == a;
    } else {
      var b' := b[..|b| - 1];
      var c := b[|b| - 1];
      assert (a + b)[..|a + b| - 1] == a + b';
      assert (a + b)[|a + b| - 1] == c;
      if b' != [] {
        assert b'[0] == b[0];
      }
      GroupedAppend(a, b');
      if CurrentVolume(b').Some? {
        CurrentVolumeAppend(a, b');
      }
    }
  }

  /** Every chunk is a chapter chunk tagged with the volume title `name`. */
  predicate TaggedWith(chunks: seq<Chunk>, name: string)
  {
    forall k :: 0 <= k < |chunks| ==> IsChapterBlock(chunks[k]) && MetaString(chunks[k], "volume_title") == name
  }

  lemma TaggedAppend(a: seq<Chunk>, b: seq<Chunk>, name: string)
    requires TaggedWith(a, name) && TaggedWith(b, name)
    ensures TaggedWith(a + b, name)
  {
    forall k | 0 <= k < |a + b| ensures IsChapterBlock((a + b)[k]) && MetaString((a + b)[k], "volume_title") == name {
      if k < |a| {
        assert (a + b)[k] == a[k];
      } else {
        assert (a + b)[k] == b[k - |a|];
      }
    }
  }

  /** Every chunk of a volume's chapters is a chapter chunk tagged with the
      volume's title, and none is a volume-title chunk. */
  lemma {:induction false} ChaptersChunksTagged(chapters: seq<Chapter>, volume: Volume)
    ensures TaggedWith(ChaptersChunks(chapters, volume), volume.title)
  {
    if chapters != [] {
      var prefix := chapters[..|chapters| - 1];
      var chapter := chapters[|chapters| - 1];
      var before := ChaptersChunks(prefix, volume);
      var mine := ChapterChunks(chapter, volume);
      var after := ChaptersChunks(chapters, volume);
      assert after == before + mine;
      ChaptersChunksTagged(prefix, volume);
      ChapterChunkTagged(chapter, volume);
      TaggedAppend(before, mine, volume.title);
    }
  }

  lemma ChapterChunkTagged(chapter: Chapter, volume: Volume)
    ensures TaggedWith(ChapterChunks(chapter, volume), volume.title)
  {
    var content := BuildChapterContent(chapter);
    ChunkTaggedBy(content, ClassicalParagraphs(content), ChapterChunks(chapter, volume), chapter, volume);
  }

  lemma ChunkTaggedBy(content: string, paras: seq<string>, r: seq<Chunk>, chapter: Chapter, volume: Volume)
    requires r == if |content| > ChapterLimit then ParagraphChunks(paras, chapter, volume)
                  else [ChapterChunk(content, chapter, volume)]
    ensures TaggedWith(r, volume.title)
  {
    if |content| <= ChapterLimit {
      ChapterChunkFields(content, chapter, volume);
    } else {
      ParagraphChunksTagged(paras, chapter, volume);
    }
  }

  lemma {:induction false} ParagraphChunksTagged(paras: seq<string>, chapter: Chapter, volume: Volume)
    ensures TaggedWith(ParagraphChunks(paras, chapter, volume), volume.title)
  {
    if paras != [] {
      var para := Strip(paras[|paras| - 1]);
      var before := ParagraphChunks(paras[..|paras| - 1], chapter, volume);
      var after := ParagraphChunks(paras, chapter, volume);
      ParagraphChunksTagged(paras[..|paras| - 1], chapter, volume);
      ParagraphChunksSnoc(paras, chapter, volume);
      ParagraphChunkFields(para, |paras|, chapter, volume);
      forall k | 0 <= k < |after|
        ensures IsChapterBlock(after[k]) && MetaString(after[k], "volume_title") == volume.title
      {
        if k < |before| {
          assert after[k] == before[k];
        } else {
          assert after[k] == ParagraphChunk(para, |paras|, chapter, volume);
        }
      }
    }
  }

  /** A title chunk followed by chapter chunks tagged with that title is
      grouped, shows that title as current, and lists only that title. */
  lemma {:induction false} TaggedRunGrouped(title: Chunk, rest: seq<Chunk>, name: string)
    requires BlockType(title) == "volume_title" && MetaString(title, "volume_title") == title.content == name
    requires TaggedWith(rest, name)
    ensures Grouped([title] + rest) && CurrentVolume([title] + rest) == Some(name)
    ensures TitlesOf([title] + rest) == [name]
    decreases |rest|
  {
    var run := [title] + rest;
    if rest == [] {
      assert run[..0] == [];
      assert run == [title];
    } else {
      var rest' := rest[..|rest| - 1];
      assert run[..|run| - 1] == [title] + rest';
      assert run[|run| - 1] == rest[|rest| - 1];
      assert IsChapterBlock(rest[|rest| - 1]);
      TaggedRunGrouped(title, rest', name);
    }
  }

  /** A volume's chunks: its title chunk first, then its chapter chunks,
      each tagged with the volume's title. */
  lemma VolumeChunksGrouped(volume: Volume)
    ensures var r := VolumeChunks(volume);
      && r != [] && BlockType(r[0]) == "volume_title"
      && Grouped(r) && TitlesOf(r) == [volume.title]
  {
    VolumeTitleChunkFields(volume);
    ChaptersChunksTagged(volume.chapters, volume);
    TaggedRunGrouped(VolumeTitleChunk(volume), ChaptersChunks(volume.chapters, volume), volume.title);
  }

  /** The chunks of the volumes are grouped under their volume titles, which
      appear in volume order. */
  lemma {:induction false} VolumesChunksGrouped(volumes: seq<Volume>)
    ensures var r := VolumesChunks(volumes);
      && Grouped(r) && TitlesOf(r) == VolumeTitles(volumes)
      && (volumes != [] ==> r != [] && BlockType(r[0]) == "volume_title")
  {
    if volumes != [] {
      var prefix := volumes[..|volumes| - 1];
      var last := volumes[|volumes| - 1];
      var before := VolumesChunks(prefix);
      var mine := VolumeChunks(last);
      VolumesChunksGrouped(prefix);
      VolumeChunksGrouped(last);
      GroupedAppend(before, mine);
      TitlesOfAppend(before, mine);
      VolumeTitlesSnoc(prefix, last);
      SnocParts(volumes);
      if prefix != [] {
        assert (before + mine)[0] == before[0];
      } else {
        assert before + mine == mine;
      }
    }
  }

  /** The block types of some chunks, in order. */
  function BlockTypes(chunks: seq<Chunk>): (r: seq<string>)
    ensures |r| == |chunks| && forall k :: 0 <= k < |chunks| ==> r[k] == BlockType(chunks[k])
  {
    seq(|chunks|, k requires 0 <= k < |chunks| => BlockType(chunks[k]))
  }

  /** The chunks before the volumes: the preface chunk when there is a
      preface, then the table-of-contents chunk when one was detected and it
      has entries; no volume title among them. */
  lemma FrontChunksSpec(structure: DocumentStructure, fullText: string)
    ensures var front := FrontChunks(structure, fullText);
      && BlockTypes(front) ==
           (if structure.preface.Some? then ["preface"] else []) +
           (if structure.hasToc && TocChunks(fullText) != [] then ["table_of_contents"] else [])
      && (structure.preface.Some? ==> front[0] == PrefaceChunk(structure.preface.value))
      && TitlesOf(front) == []
  {
    var prefaceChunks := match structure.preface case Some(p) => [PrefaceChunk(p)] case None => [];
    var tocChunks := if structure.hasToc then TocChunks(fullText) else [];
    assert FrontChunks(structure, fullText) == prefaceChunks + tocChunks;
    PrefaceFront(structure.preface);
    TocFront(fullText, structure.hasToc);
    BlockTypesAppend(prefaceChunks, tocChunks);
    TitlesOfAppend(prefaceChunks, tocChunks);
  }

  /** The preface part of the front: the preface chunk when there is a
      preface, naming no volume. */
  lemma PrefaceFront(preface: Option<Preface>)
    ensures var p := match preface case Some(q) => [PrefaceChunk(q)] case None => [];
      && BlockTypes(p) == (if preface.Some? then ["preface"] else [])
      && (preface.Some? ==> p[0] == PrefaceChunk(preface.value))
      && TitlesOf(p) == []
  {
    if preface.Some? {
      var c := PrefaceChunk(preface.value);
      PrefaceChunkIsPreface(preface.value);
      assert TitlesOf([c]) == TitlesOf([]) + [];
    }
  }

  /** The table-of-contents part of the front: at most one chunk, of type
      "table_of_contents", naming no volume. */
  lemma TocFront(fullText: string, hasToc: bool)
    ensures var t := if hasToc then TocChunks(fullText) else [];
      && BlockTypes(t) == (if hasToc && TocChunks(fullText) != [] then ["table_of_contents"] else [])
      && TitlesOf(t) == []
  {
    var t := if hasToc then TocChunks(fullText) else [];
    if t != [] {
      TocChunkFields(t[0].content);
      assert t == [t[0]];
      assert TitlesOf(t) == TitlesOf([]) + [];
    }
  }

  lemma BlockTypesAppend(a: seq<Chunk>, b: seq<Chunk>)
    ensures BlockTypes(a + b) == BlockTypes(a) + BlockTypes(b)
  {
  }

  /** `create_semantic_chunks` emits the preface chunk (when there is a
      preface), then the table-of-contents chunk (when one was detected and
      it has entries), and then, volume by volume, each volume's title chunk
      followed by chunks of its chapters, each tagged with that volume's
      title; the volume titles come in the order the volumes were read. */
  lemma ChunkOrder(structure: DocumentStructure, fullText: string)
    ensures var r := SemanticChunks(structure, fullText);
      var n := |FrontChunks(structure, fullText)|;
      && n <= |r|
      && BlockTypes(r[..n]) ==
           (if structure.preface.Some? then ["preface"] else []) +
           (if structure.hasToc && TocChunks(fullText) != [] then ["table_of_contents"] else [])
      && (structure.preface.Some? ==> r[0] == PrefaceChunk(structure.preface.value))
      && Grouped(r[n..])
      && (structure.volumes != [] ==> n < |r| && BlockType(r[n]) == "volume_title")
      && TitlesOf(r) == VolumeTitles(structure.volumes)
  {
    var front := FrontChunks(structure, fullText);
    var rest := VolumesChunks(structure.volumes);
    FrontChunksSpec(structure, fullText);
    VolumesChunksGrouped(structure.volumes);
    TitlesOfAppend(front, rest);
    AppendParts(front, rest);
  }

  // ---------------------------------------------------------------------
  // No chunk is empty

  predicate NonEmptyContents(chunks: seq<Chunk>)
  {
    forall k :: 0 <= k < |chunks| ==> chunks[k].content != []
  }

  lemma NonEmptyAppend(a: seq<Chunk>, b: seq<Chunk>)
    requires NonEmptyContents(a) && NonEmptyContents(b)
    ensures NonEmptyContents(a + b)
  {
    forall k | 0 <= k < |a + b| ensures (a + b)[k].content != [] {
      if k < |a| {
        assert (a + b)[k] == a[k];
      } else {
        assert (a + b)[k] == b[k - |a|];
      }
    }
  }

  lemma NonEmptyBy(content: string, paras: seq<string>, r: seq<Chunk>, chapter: Chapter, volume: Volume)
    requires content != []
    requires r == if |content| > ChapterLimit then ParagraphChunks(paras, chapter, volume)
                  else [ChapterChunk(content, chapter, volume)]
    ensures NonEmptyContents(r)
  {
    if |content| > ChapterLimit {
      ParagraphChunksFaithful(paras, chapter, volume);
    }
  }

  lemma ChapterChunksNonEmpty(chapter: Chapter, volume: Volume)
    requires ChapterWellFormed(chapter)
    ensures NonEmptyContents(ChapterChunks(chapter, volume))
  {
    var content := BuildChapterContent(chapter);
    ChapterContentLeadsWithTitle(chapter);
    NonEmptyBy(content, ClassicalParagraphs(content), ChapterChunks(chapter, volume), chapter, volume);
  }

  lemma {:induction false} ChaptersChunksNonEmpty(chapters: seq<Chapter>, volume: Volume)
    requires forall ch :: ch in chapters ==> ChapterWellFormed(ch)
    ensures NonEmptyContents(ChaptersChunks(chapters, volume))
  {
    if chapters != [] {
      var prefix := chapters[..|chapters| - 1];
      var chapter := chapters[|chapters| - 1];
      assert forall ch :: ch in prefix ==> ch in chapters;
      ChaptersChunksNonEmpty(prefix, volume);
      ChapterChunksNonEmpty(chapter, volume);
      NonEmptyAppend(ChaptersChunks(prefix, volume), ChapterChunks(chapter, volume));
    }
  }

  lemma VolumeChunksNonEmpty(volume: Volume)
    requires VolumeWellFormed(volume)
    ensures NonEmptyContents(VolumeChunks(volume))
  {
    VolumeLineIsNotTocLine(volume.title);
    ChaptersChunksNonEmpty(volume.chapters, volume);
    NonEmptyAppend([VolumeTitleChunk(volume)], ChaptersChunks(volume.chapters, volume));
  }

  lemma {:induction false} VolumesChunksNonEmpty(volumes: seq<Volume>)
    requires VolumesWellFormed(volumes)
    ensures NonEmptyContents(VolumesChunks(volumes))
  {
    if volumes != [] {
      var prefix := volumes[..|volumes| - 1];
      var last := volumes[|volumes| - 1];
      assert forall v :: v in prefix ==> v in volumes;
      VolumesChunksNonEmpty(prefix);
      VolumeChunksNonEmpty(last);
      NonEmptyAppend(VolumesChunks(prefix), VolumeChunks(last));
    }
  }

  /** On a structure the parser can produce, every chunk has content. */
  lemma ChunksNonEmpty(structure: DocumentStructure, fullText: string)
    requires WellFormed(structure)
    ensures NonEmptyContents(SemanticChunks(structure, fullText))
  {
    var prefaceChunks := match structure.preface case Some(p) => [PrefaceChunk(p)] case None => [];
    var tocChunks := if structure.hasToc then TocChunks(fullText) else [];
    assert FrontChunks(structure, fullText) == prefaceChunks + tocChunks;
    NonEmptyAppend(prefaceChunks, tocChunks);
    VolumesChunksNonEmpty(structure.volumes);
    NonEmptyAppend(FrontChunks(structure, fullText), VolumesChunks(structure.volumes));
  }
}
