# 增删卜易 document preprocessor, modelled in Dafny

This project models the preprocessor that turns the page text of the
classical divination book 《增删卜易》 into retrieval chunks. The source is
class `ZengShanBuYiPreprocessor` in `app/utils/doc_preprocessor.py`. It
works in four stages:

1. **Page cleaning.** Each page's text is split into lines. Each line is
   stripped, and blank lines and bare page numbers are dropped. Runs of
   whitespace are collapsed to one space. The pages are then folded into one
   full text and a list of numbered page records.
2. **Structure parsing.** A single pass over the lines of the full text
   recognises the table-of-contents marker, the preface, the volume
   headings (`【卷之…】`), the chapter headings (three shapes), and body and
   annotation lines (`[乾按]`, `[注]`, `[居士按]`). The pass is driven by a
   mode and a cursor to the chapter being filled.
3. **Paragraph splitting.** A long chapter is cut after sentence
   punctuation once the buffer forms a semantic unit. The pieces are then
   merged greedily under an 800-character limit.
4. **Chunking.** The output is a preface chunk, a table-of-contents chunk
   rebuilt from the raw text, and then each volume's title chunk followed by
   its chapter chunks. A chapter longer than 1500 characters becomes
   paragraph chunks instead, keeping only paragraphs longer than 50
   characters.

The preprocessor object holds no state that its methods change: its fields
are the fixed pattern table and numeral table. So every stage is a module
of functions over values. Each loop of the source is a `method` with a
`while`/`for` loop, proved equal to the function that specifies it. These
are the modules:

- `Text`: strip, split, join and whitespace collapse.
- `Wrappers`: `Option`.
- `Ordinals`: the numeral table, `_chinese_to_number` and `_extract_chapter_index`.
- `Patterns`: the line patterns and the dotted-leader removal.
- `Cleaner`: page cleaning and the page fold.
- `Structure`: the parser.
- `Splitter`: the paragraph splitter.
- `Chunker`: chunk building.

## Model

| member | source | states |
|---|---|---|
| Ordinals.ChineseToNumber | app/utils/doc_preprocessor.py:439-441 | a single numeral 一…十 maps to the decimal text of its value 1…10; every other token comes back unchanged |
| Ordinals.NumeralTokenInTable | app/utils/doc_preprocessor.py:31-34 | every token the model treats as a numeral is a key of the numeral table |
| Ordinals.ExtractChapterIndex | app/utils/doc_preprocessor.py:443-456 | the result is never empty; "一、…" yields the numeral's value; "（一）…" yields the numeral itself, unconverted; "12.…" yields the leading digits; the result is 未知 exactly when none of the three shapes matches |
| Patterns.VolumeOrdinal | app/utils/doc_preprocessor.py:163 | `line[3:-1]`: the heading is 【卷之, the ordinal, then its last character; the ordinal opens with the heading's numerals and is nothing but numerals exactly when the 】 closing them ends the line, otherwise it keeps that 】 and the text after it |
| Patterns.VolumeIndex | app/utils/doc_preprocessor.py:163 | a heading that is exactly 【卷之 + one numeral + 】 gets the numeral's decimal value as its index; any other heading, such as 【卷之十一】 or one with text after the 】, keeps its ordinal text unconverted |
| Patterns.TocLineMeaning | app/utils/doc_preprocessor.py:15 | a line is a table-of-contents marker exactly when it starts with 目 and has 录 at some later position with only whitespace in between |
| Patterns.VolumeLineMeaning | app/utils/doc_preprocessor.py:16 | a line is a volume heading exactly when it starts with 【卷之 followed by one or more numerals 一…十 and then 】 |
| Patterns.ChapterShapeBareMeaning | app/utils/doc_preprocessor.py:19 | a line has the bare chapter shape exactly when some 章 after its first character has no "." before it |
| Patterns.AnnotationLineShapes | app/utils/doc_preprocessor.py:22-26 | a line with an annotation tag is never a table-of-contents marker, a volume heading or a numbered or circled chapter heading; it is a chapter heading exactly when it has the bare shape |
| Patterns.AnnotationTakenForChapter | app/utils/doc_preprocessor.py:171-193 | the chapter patterns are tried before the annotation tags, and "[注]此章" matches both, so an annotation that mentions 章 is read as a chapter heading |
| Patterns.LeaderLength | app/utils/doc_preprocessor.py:273 | the match of `\.{3,}\s*\d+` at a position: a positive length is a leader (three dots, more dots, whitespace, then digits) followed by no further digit, no longer prefix is a leader, and 0 means no prefix is one |
| Patterns.RemoveLeaders | app/utils/doc_preprocessor.py:273 | removing leaders never lengthens a line and leaves a line without "..." untouched |
| Patterns.VolumeLineIsNotTocLine | app/utils/doc_preprocessor.py:15-16 | a volume heading is non-blank and is never a table-of-contents marker |
| Patterns.NumberedChapterIsBare | app/utils/doc_preprocessor.py:18-19 | every "<numeral>、…章" heading also matches the bare "…章" shape |
| Text.CollapseIsCollapsed | app/utils/doc_preprocessor.py:103 | after collapsing, every whitespace character is a single space and no two spaces are adjacent |
| Text.CollapseIdentity | app/utils/doc_preprocessor.py:103 | collapsing already-collapsed text changes nothing |
| Text.SplitJoin | app/utils/doc_preprocessor.py:90-107 | joining newline-free lines with "\n" and splitting again gives back the lines |
| Text.JoinSplit | app/utils/doc_preprocessor.py:90-107 | splitting a text on "\n" and joining again gives back the text |
| Cleaner.PageNumberIsNotStructural | app/utils/doc_preprocessor.py:99 | a line dropped as a page number holds one to three digits and is never a table-of-contents marker, a volume or chapter heading, or an annotation |
| Cleaner.CleanPageText | app/utils/doc_preprocessor.py:79-107 | the loop over the page's lines computes `CleanText`: each line stripped, page-number lines and blank lines dropped, runs of whitespace collapsed to one space, the rest joined by "\n" |
| Cleaner.CollapsedLineIsClean | app/utils/doc_preprocessor.py:94-103 | a non-blank stripped line that is not a page number is still a clean line once collapsed |
| Cleaner.CleanLinesAreClean | app/utils/doc_preprocessor.py:93-105 | every kept line is non-blank, stripped, collapsed and not a bare page number |
| Cleaner.CleanLinesAppend | app/utils/doc_preprocessor.py:93-105 | cleaning is line by line: cleaning two stretches of lines is cleaning each, in order |
| Cleaner.CleanLinesIdentity | app/utils/doc_preprocessor.py:93-105 | lines that are already clean are kept unchanged |
| Cleaner.CleanLineOfCleanLine | app/utils/doc_preprocessor.py:93-105 | a clean line is kept exactly as it is |
| Cleaner.CleanTextLines | app/utils/doc_preprocessor.py:79-107 | a cleaned page is empty, or every one of its lines is clean |
| Cleaner.CleanTextIdempotent | app/utils/doc_preprocessor.py:79-107 | cleaning a cleaned page changes nothing |
| Cleaner.AssemblePages | app/utils/doc_preprocessor.py:53-62 | the page loop builds the full text and the page records defined by `FullText` and `PageRecords` |
| Cleaner.PageRecordsFaithful | app/utils/doc_preprocessor.py:56-62 | every record names a non-empty page, numbered from one, and holds that page cleaned |
| Cleaner.PageRecordsInRange | app/utils/doc_preprocessor.py:59-60 | every record's page number lies between 1 and the number of pages |
| Cleaner.PageRecordsOrdered | app/utils/doc_preprocessor.py:53-62 | record page numbers strictly increase |
| Cleaner.PageRecordsComplete | app/utils/doc_preprocessor.py:56-62 | every non-empty page has a record |
| Cleaner.FullTextEndsWithNewline | app/utils/doc_preprocessor.py:58 | the full text is empty or ends with a newline |
| Cleaner.FullTextLinesClean | app/utils/doc_preprocessor.py:53-62 | every line of the full text is either blank or a clean line |
| Structure.Step | app/utils/doc_preprocessor.py:131-198 | one line of the parser's loop keeps the parser state consistent: preface mode has an empty document, preface-content mode has a preface, and the chapter cursor points at the last chapter created, with no chapter in any later volume (a volume heading does not reset the cursor) |
| Structure.StepHasToc | app/utils/doc_preprocessor.py:137-140 | the table-of-contents flag is raised exactly by a marker line and is never lowered |
| Structure.HasTocIff | app/utils/doc_preprocessor.py:137-140 | after a run from the start, the flag is set if and only if some line is a table-of-contents marker |
| Structure.RunFromAppend | app/utils/doc_preprocessor.py:131-198 | running over two stretches of lines is running over the first, then the second |
| Structure.StepPreface | app/utils/doc_preprocessor.py:142-156 | the preface is opened only in preface mode by a line mentioning 增删卜易序, holding that line; once open, its title never changes and its content only grows by "\n" plus a line while its body is open; preface mode is never re-entered |
| Structure.PrefaceAccumulates | app/utils/doc_preprocessor.py:151-156 | while the preface is open, every non-blank line before a marker or volume heading is appended after a newline, and nothing else in the state changes |
| Structure.VolumeLineClosesPreface | app/utils/doc_preprocessor.py:151-156 | the volume heading that closes the preface is appended to the preface and opens no volume |
| Structure.StepVolumeTitles | app/utils/doc_preprocessor.py:158-169 | a line adds a volume title exactly when it reaches heading classification and is a volume heading; that title is the stripped line |
| Structure.VolumesInOrder | app/utils/doc_preprocessor.py:158-169 | in a text that never mentions the preface title, the volumes are the volume heading lines, one each, in text order |
| Structure.StepPhase | app/utils/doc_preprocessor.py:136-169 | one step moves the parser between before the preface, inside its body and past it as `NextPhase` says, and a line opens a volume exactly when `OpensVolume` holds for that phase |
| Structure.VolumesInOrderWithPreface | app/utils/doc_preprocessor.py:131-169 | for any text, with or without a preface, the volumes are the volume headings in text order, except one read inside the preface body, which closes the preface, and one holding the preface title before any preface, which opens it |
| Structure.StepWithoutPreface | app/utils/doc_preprocessor.py:136-149 | without a preface and without its title, no preface appears, and every non-blank non-marker line reaches heading classification |
| Structure.StepVolumeHeading | app/utils/doc_preprocessor.py:159-169 | a volume heading appends a new empty volume whose index is the ordinal converted by the numeral table; nothing else changes |
| Structure.StepChapterHeading | app/utils/doc_preprocessor.py:171-185 | with no volume, a chapter heading is ignored; otherwise it appends an empty chapter to the newest volume and moves the cursor to it, leaving other volumes, titles and indices unchanged |
| Structure.StepBodyLine | app/utils/doc_preprocessor.py:187-198 | with no open chapter, a body line is dropped; otherwise an annotation line is appended to the chapter's annotations and any other line to its content followed by "\n", and nothing else changes |
| Structure.StepWellFormed | app/utils/doc_preprocessor.py:131-198 | one step preserves well-formedness: chapter titles are chapter headings, annotations are annotation lines, volume indices are converted ordinals, and the preface is non-empty and stripped |
| Structure.RunWellFormed | app/utils/doc_preprocessor.py:109-200 | every document the parser builds from the start is well-formed |
| Structure.ParseDocumentStructure | app/utils/doc_preprocessor.py:109-200 | the loop computes `Parse`; the result has a table of contents exactly when some line is a marker, and it is well-formed |
| Structure.ParseLine | app/utils/doc_preprocessor.py:131-198 | one pass of the loop body over its local variables performs exactly the parser step whose invariants are the `Step*` lemmas above: blank lines change nothing, a marker raises the flag, the preface title opens the preface, and an open preface absorbs lines |
| Structure.ParseStructuralLine | app/utils/doc_preprocessor.py:158-198 | once a line reaches heading classification, it is handled as a volume heading, a chapter heading or a body line exactly as the parser step prescribes |
| Structure.AddBodyLine | app/utils/doc_preprocessor.py:187-198 | a body line lands in the chapter under the cursor and nowhere else: in its annotations when it is an annotation line, otherwise at the end of its content followed by a newline |
| Splitter.SeparatorChars | app/utils/doc_preprocessor.py:392 | the separators are exactly 。！？； and the newline |
| Splitter.ScanCovers | app/utils/doc_preprocessor.py:394-408 | the first pass loses no character: its pieces, in order, followed by the leftover buffer, spell the text |
| Splitter.ScanCutsFirst | app/utils/doc_preprocessor.py:397-437 | each piece is cut at the first separator where the buffer is a semantic unit (at least 20 characters with sentence punctuation), and the leftover holds no such place |
| Splitter.PiecesAreSemanticUnits | app/utils/doc_preprocessor.py:427-437 | every piece the first pass cuts is a semantic unit: at least 20 characters with one of 。！？；, ending with a separator |
| Splitter.SentenceGroupsStripped | app/utils/doc_preprocessor.py:400-408 | every sentence group is non-empty and stripped |
| Splitter.MergeAllSpec | app/utils/doc_preprocessor.py:411-425 | merging keeps the text joined by newlines, keeps every paragraph non-blank, produces no merged paragraph over 800 characters except an original one, and is empty exactly when its input is |
| Splitter.ClassicalParagraphsSpec | app/utils/doc_preprocessor.py:389-425 | the whole split keeps the sentence groups' joined text and produces non-blank paragraphs, each at most 800 characters unless it is a single group |
| Splitter.GroupsSpec | app/utils/doc_preprocessor.py:411-425 | the merge partitions the groups in order into runs that are greedy (a run is closed only when the next group would reach 800) and bounded (a run of two or more is at most 800) |
| Splitter.MergeAllGroups | app/utils/doc_preprocessor.py:411-425 | the merged paragraphs are exactly the newline-joined runs of that partition, and a group of 800 characters or more stands alone |
| Splitter.EmptyTextHasNoParagraphs | app/utils/doc_preprocessor.py:389-425 | empty content splits into no paragraphs |
| Splitter.SplitClassicalParagraphs | app/utils/doc_preprocessor.py:389-425 | the two loops compute `ClassicalParagraphs`, the merge of the sentence groups |
| Splitter.CutSentenceGroups | app/utils/doc_preprocessor.py:394-408 | the first loop and the final flush compute `SentenceGroups`: the stripped pieces of the first pass, then the stripped leftover when it is not blank |
| Splitter.MergeParagraphs | app/utils/doc_preprocessor.py:410-424 | the second loop and the final flush compute `MergeAll` of the groups |
| Chunker.CreateTocChunks | app/utils/doc_preprocessor.py:251-293 | the loop with its break computes `TocChunks` |
| Chunker.TocLinesShape | app/utils/doc_preprocessor.py:271-276 | every kept entry is stripped, longer than one character and not all digits |
| Chunker.TocRegion | app/utils/doc_preprocessor.py:257-269 | the entries come only from the lines after the first marker and before the next volume heading |
| Chunker.EntriesCleanedFrom | app/utils/doc_preprocessor.py:271-276 | every entry is a line of its region, stripped, with dotted leaders removed and stripped again |
| Chunker.TocChunksSpec | app/utils/doc_preprocessor.py:251-293 | there is at most one table-of-contents chunk, present exactly when some entry survives; it holds the book header followed by the entries joined by newlines |
| Chunker.PrefaceChunkFields | app/utils/doc_preprocessor.py:233-249 | the preface chunk is filed as block "preface", content type and volume title 序言, volume and chapter index "0", chapter title 增删卜易序; its text is the preface title, a blank line, and the preface content, each recoverable |
| Chunker.ChapterContentWithAnnotations | app/utils/doc_preprocessor.py:350-359 | with annotations, the built chapter text is exactly the title, a blank line, the body, a blank line and the annotations one per line: the final strip removes nothing |
| Chunker.ChapterContentLeadsWithTitle | app/utils/doc_preprocessor.py:350-359 | a chapter's built text is stripped, non-empty and begins with its title |
| Chunker.SplitLargeChapter | app/utils/doc_preprocessor.py:361-387 | the loop computes `ParagraphChunks` of the split paragraphs |
| Chunker.ParagraphChunksFaithful | app/utils/doc_preprocessor.py:369-385 | every paragraph chunk holds the stripped paragraph its index names, which is longer than 50 characters |
| Chunker.ParagraphChunksOrdered | app/utils/doc_preprocessor.py:369-385 | paragraph indices strictly increase along the chunks |
| Chunker.ParagraphChunksComplete | app/utils/doc_preprocessor.py:369-371 | every paragraph longer than 50 characters after stripping has a chunk with its index |
| Chunker.ParagraphChunksAreNotWhole | app/utils/doc_preprocessor.py:371-383 | no paragraph chunk is tagged as a whole chapter |
| Chunker.ChapterChunksSpec | app/utils/doc_preprocessor.py:320-348 | a chapter of at most 1500 characters gives exactly one whole-chapter chunk with its text and its extracted chapter index; a longer one gives only paragraph chunks of its split content |
| Chunker.ProcessChapterSemantic | app/utils/doc_preprocessor.py:320-348 | the method computes `ChapterChunks` |
| Chunker.ProcessVolumeSemantic | app/utils/doc_preprocessor.py:295-318 | the loop computes `VolumeChunks`: the title chunk, then each chapter's chunks |
| Chunker.VolumeChunksGrouped | app/utils/doc_preprocessor.py:295-318 | a volume's chunks open with its title chunk and all carry that volume's title |
| Chunker.VolumesChunksGrouped | app/utils/doc_preprocessor.py:226-228 | over all volumes, every chunk carries the title of the latest volume-title chunk before it, and the volume titles appear in volume order |
| Chunker.CreateSemanticChunks | app/utils/doc_preprocessor.py:202-231 | the loop computes `SemanticChunks` |
| Chunker.FrontChunksSpec | app/utils/doc_preprocessor.py:215-249 | the leading chunks are the preface chunk, if any, then the table-of-contents chunk, if any, and they name no volume |
| Chunker.ChunkOrder | app/utils/doc_preprocessor.py:202-231 | the output is the preface, then the table of contents, then the volumes' runs; each run opens with its title chunk and carries that title; the volume titles appear in document order |
| Chunker.ChunksNonEmpty | app/utils/doc_preprocessor.py:202-387 | for every document the parser can build, no chunk has empty content |

## Left out

- Reading the PDF (pdfplumber), logging and the exception handler of `extract_text_from_pdf` are I/O. The model starts from the list of page texts, and a page with no extracted text is the empty string.
- The `pages` argument of `_parse_document_structure` is never used by the source and is not modelled.
- The result dictionary's `current_volume` and `current_chapter` entries are parser scratch state. The model keeps them as the parser state's cursor, not in `DocumentStructure`.
- A langchain `Document` becomes the `Chunk` record: its content and a metadata map. The metadata values are copied from the source literals. Every key of the preface chunk is stated. For the other chunks, only `block_type`, `volume_title`, `chapter_index` and `paragraph_index` are reasoned about.
- `IsDigit`, the model of `\d`, covers the ASCII and fullwidth digits only. Python's `\d` also matches the decimal digits of other scripts (Unicode category Nd), which are not modelled. `IsSpace`, the model of `\s` and of `str.strip`, is exactly the set of characters for which Python's `str.isspace` holds.
- Patterns.RemoveLeaders: the model does not prove that the output contains no further leader match. The table-of-contents entries are stated as leader-removed lines of their region instead.
- Chunker.ChunksNonEmpty: only non-emptiness is proved. Strippedness of every chunk's content is not stated.
- The service, router, database, security and configuration modules of the application are not part of this model.
- A heading such as `卷之一` without the 【】 brackets is not a volume heading, because the pattern at app/utils/doc_preprocessor.py:16 requires the brackets. Such a line is treated like any other line.
- Paragraph chunks of a split chapter keep only paragraphs longer than 50 characters, so a paragraph of exactly 50 characters is dropped. `paragraph_index` is the paragraph's 1-based position before that filter, so the indices of a chapter can start above 1 and skip values.
