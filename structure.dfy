/** The structure parser (`_parse_document_structure`): one forward pass over
    the lines of the full text, driven by a mode and a cursor to the chapter
    that receives body lines.  Volumes and chapters live in sequences and
    the cursor is a pair of indices into them. */
module Structure {
  import opened Text
  import opened Wrappers
  import opened Ordinals
  import opened Patterns

  /** The title of the work's preface, also the marker that opens it. */
  const PrefaceTitle: string := "增删卜易序"

  datatype Preface = Preface(title: string, content: string)

  datatype Chapter = Chapter(title: string, content: string, annotations: seq<string>)

  datatype Volume = Volume(title: string, volumeIndex: string, chapters: seq<Chapter>)

  /** The `structure` dictionary the parser returns. */
  datatype DocumentStructure = DocumentStructure(hasToc: bool, preface: Option<Preface>, volumes: seq<Volume>)

  /** `current_section`: "preface", "preface_content", "toc", "volume" and
      "chapter_content". */
  datatype Mode = PrefaceMode | PrefaceContentMode | TocMode | VolumeMode | ChapterContentMode

  /** `current_chapter`, as the position of that chapter. */
  datatype Cursor = Cursor(volume: nat, chapter: nat)

  datatype ParserState = ParserState(doc: DocumentStructure, mode: Mode, chapter: Option<Cursor>)

  const EmptyDocument := DocumentStructure(false, None, [])

  const Initial := ParserState(EmptyDocument, PrefaceMode, None)

  /** The cursor names the chapter created last: the last chapter of its
      volume, with no chapter in any later volume; without a cursor there is
      no chapter at all. */
  ghost predicate CursorAtLatest(st: ParserState)
  {
    var volumes := st.doc.volumes;
    match st.chapter
    case None => forall v :: 0 <= v < |volumes| ==> volumes[v].chapters == []
    case Some(c) =>
      c.volume < |volumes| && c.chapter + 1 == |volumes[c.volume].chapters| &&
      forall v :: c.volume < v < |volumes| ==> volumes[v].chapters == []
  }

  /** What holds of every state the parser reaches. */
  ghost predicate Valid(st: ParserState)
  {
    (st.mode == PrefaceMode ==> st.doc == EmptyDocument && st.chapter == None) &&
    (st.mode == PrefaceContentMode ==> st.doc.preface.Some?) &&
    CursorAtLatest(st)
  }

  /** A line that gets past the TOC test, the preface tests and the
      preface-content branch, and so is classified as a heading or a body
      line. */
  predicate ReachesHeadings(st: ParserState, line: string)
  {
    line != [] && !IsTocLine(line) &&
    !(Contains(line, PrefaceTitle) && st.mode == PrefaceMode) &&
    st.mode != PrefaceContentMode
  }

  /** One iteration of the parser's loop. */
  function Step(st: ParserState, raw: string): (r: ParserState)
    requires Valid(st)
    ensures Valid(r)
  {
    var line := Strip(raw);
    if line == [] then st
    else if IsTocLine(line) then
      st.(doc := st.doc.(hasToc := true), mode := TocMode)
    else if Contains(line, PrefaceTitle) && st.mode == PrefaceMode then
      st.(doc := st.doc.(preface := Some(Preface(PrefaceTitle, line))), mode := PrefaceContentMode)
    else if st.mode == PrefaceContentMode then
      var p := st.doc.preface.value;
      st.(doc := st.doc.(preface := Some(p.(content := p.content + "\n" + line))),
          mode := if IsVolumeLine(line) then VolumeMode else PrefaceContentMode)
    else if IsVolumeLine(line) then
      var volume := Volume(line, ChineseToNumber(VolumeOrdinal(line)), []);
      st.(doc := st.doc.(volumes := st.doc.volumes + [volume]), mode := VolumeMode)
    else if IsChapterLine(line) then
      if |st.doc.volumes| > 0 then
        var last := |st.doc.volumes| - 1;
        var v := st.doc.volumes[last];
        var v' := v.(chapters := v.chapters + [Chapter(line, [], [])]);
        st.(doc := st.doc.(volumes := st.doc.volumes[last := v']),
            chapter := Some(Cursor(last, |v.chapters|)),
            mode := ChapterContentMode)
      else st
    else if st.chapter.Some? then
      var c := st.chapter.value;
      var v := st.doc.volumes[c.volume];
      var ch := v.chapters[c.chapter];
      var ch' := if IsAnnotationLine(line) then ch.(annotations := ch.annotations + [line])
                 else ch.(content := ch.content + line + "\n");
      st.(doc := st.doc.(volumes := st.doc.volumes[c.volume := v.(chapters := v.chapters[c.chapter := ch'])]))
    else st
  }

  /** The state after the given lines, starting from `st`. */
  function RunFrom(st: ParserState, lines: seq<string>): (r: ParserState)
    requires Valid(st)
    ensures Valid(r)
  {
    if lines == [] then st
    else Step(RunFrom(st, lines[..|lines| - 1]), lines[|lines| - 1])
  }

  /** One more line is one more step. */
  lemma RunFromSnoc(st: ParserState, lines: seq<string>, i: nat)
    requires Valid(st) && i < |lines|
    ensures RunFrom(st, lines[..i + 1]) == Step(RunFrom(st, lines[..i]), lines[i])
  {
    assert lines[..i + 1][..i] == lines[..i];
  }

  /** The structure parsed from a full text. */
  function Parse(text: string): DocumentStructure
  {
    RunFrom(Initial, SplitLines(text)).doc
  }


  /** A raw line whose stripped form is a table-of-contents marker. */
  predicate IsTocMarker(raw: string)
  {
    IsTocLine(Strip(raw))
  }

  /** Some line is a table-of-contents marker. */
  predicate HasTocLine(lines: seq<string>)
  {
    AnyLine(lines, IsTocMarker)
  }

  /** `_parse_document_structure` (its unused `pages` argument is left out). */
  method ParseDocumentStructure(text: string) returns (structure: DocumentStructure)
    ensures structure == Parse(text)
    ensures structure.hasToc <==> HasTocLine(SplitLines(text))
    ensures WellFormed(structure)
  {
    var lines := SplitLines(text);
    var hasToc := false;
    var preface: Option<Preface> := None;
    var volumes: seq<Volume> := [];
    var currentSection := PrefaceMode;
    var currentChapter: Option<Cursor> := None;
    for i := 0 to |lines|
      invariant ParserState(DocumentStructure(hasToc, preface, volumes), currentSection, currentChapter)
                == RunFrom(Initial, lines[..i])
    {
      RunFromSnoc(Initial, lines, i);
      hasToc, preface, volumes, currentSection, currentChapter :=
        ParseLine(hasToc, preface, volumes, currentSection, currentChapter, lines[i]);
    }
    assert lines[..|lines|] == lines;
    structure := DocumentStructure(hasToc, preface, volumes);
    HasTocIff(lines);
    RunWellFormed(lines);
  }

  /** The body of the parser's loop, on its local variables. */
  method ParseLine(hasToc: bool, preface: Option<Preface>, volumes: seq<Volume>, currentSection: Mode,
                   currentChapter: Option<Cursor>, raw: string)
    returns (hasToc': bool, preface': Option<Preface>, volumes': seq<Volume>, currentSection': Mode,
             currentChapter': Option<Cursor>)
    requires Valid(ParserState(DocumentStructure(hasToc, preface, volumes), currentSection, currentChapter))
    ensures ParserState(DocumentStructure(hasToc', preface', volumes'), currentSection', currentChapter') ==
            Step(ParserState(DocumentStructure(hasToc, preface, volumes), currentSection, currentChapter), raw)
  {
    hasToc', preface', volumes', currentSection', currentChapter' :=
      hasToc, preface, volumes, currentSection, currentChapter;
    var line := Strip(raw);
    if line == [] {
      return;
    }
    if IsTocLine(line) {
      hasToc' := true;
      currentSection' := TocMode;
      return;
    }
    if Contains(line, PrefaceTitle) && currentSection == PrefaceMode {
      preface' := Some(Preface(PrefaceTitle, line));
      currentSection' := PrefaceContentMode;
      return;
    }
    if currentSection == PrefaceContentMode {
      preface' := Some(preface.value.(content := preface.value.content + "\n" + line));
      if IsVolumeLine(line) {
        currentSection' := VolumeMode;
      }
      return;
    }
    var r := ParseStructuralLine(ParserState(DocumentStructure(hasToc, preface, volumes), currentSection, currentChapter), raw);
    volumes', currentSection', currentChapter' := r.doc.volumes, r.mode, r.chapter;
  }

  /** The part of the loop body that classifies a line as a volume heading,
      a chapter heading or a body line. */
  method ParseStructuralLine(st: ParserState, raw: string) returns (r: ParserState)
    requires Valid(st) && ReachesHeadings(st, Strip(raw))
    ensures r == Step(st, raw)
  {
    r := st;
    var line := Strip(raw);
    var volumes := st.doc.volumes;
    if IsVolumeLine(line) {
      StepVolumeCase(st, raw);
      r := st.(doc := st.doc.(volumes := volumes + [Volume(line, ChineseToNumber(VolumeOrdinal(line)), [])]),
               mode := VolumeMode);
    } else if IsChapterLine(line) {
      // A chapter heading outside any volume is recognised but dropped.
      if |volumes| == 0 {
        StepIgnoredCase(st, raw);
      } else {
        StepChapterCase(st, raw);
        var last := |volumes| - 1;
        r := ParserState(st.doc.(volumes := volumes[last := volumes[last].(chapters := volumes[last].chapters + [Chapter(line, [], [])])]),
                         ChapterContentMode, Some(Cursor(last, |volumes[last].chapters|)));
      }
    } else if st.chapter.Some? {
      StepBodyCase(st, raw);
      var volumes' := AddBodyLine(volumes, st.chapter.value, line);
      r := st.(doc := st.doc.(volumes := volumes'));
    } else {
      StepIgnoredCase(st, raw);
    }
  }

  /** A body line goes to the current chapter: to its annotations when it
      is an annotation line, otherwise to its content followed by a newline. */
  method AddBodyLine(volumes: seq<Volume>, c: Cursor, line: string) returns (volumes': seq<Volume>)
    requires c.volume < |volumes| && c.chapter < |volumes[c.volume].chapters|
    ensures var ch := volumes[c.volume].chapters[c.chapter];
      var ch' := if IsAnnotationLine(line) then ch.(annotations := ch.annotations + [line])
                 else ch.(content := ch.content + line + "\n");
      volumes' == volumes[c.volume := volumes[c.volume].(chapters := volumes[c.volume].chapters[c.chapter := ch'])]
  {
    var chapter := volumes[c.volume].chapters[c.chapter];
    if IsAnnotationLine(line) {
      chapter := chapter.(annotations := chapter.annotations + [line]);
    } else {
      chapter := chapter.(content := chapter.content + line + "\n");
    }
    volumes' := volumes[c.volume := volumes[c.volume].(chapters := volumes[c.volume].chapters[c.chapter := chapter])];
  }

  /** A volume heading, in closed form. */
  lemma StepVolumeCase(st: ParserState, raw: string)
    requires Valid(st)
    requires var line := Strip(raw); ReachesHeadings(st, line) && IsVolumeLine(line)
    ensures var line := Strip(raw);
      Step(st, raw) ==
        st.(doc := st.doc.(volumes := st.doc.volumes + [Volume(line, ChineseToNumber(VolumeOrdinal(line)), [])]),
            mode := VolumeMode)
  {
  }

  /** A chapter heading outside any volume, or a body line with no chapter
      open, changes nothing. */
  lemma StepIgnoredCase(st: ParserState, raw: string)
    requires Valid(st)
    requires var line := Strip(raw); ReachesHeadings(st, line) && !IsVolumeLine(line)
    requires var line := Strip(raw);
      (IsChapterLine(line) && st.doc.volumes == []) || (!IsChapterLine(line) && st.chapter.None?)
    ensures Step(st, raw) == st
  {
  }

  /** A chapter heading inside a volume, in closed form. */
  lemma StepChapterCase(st: ParserState, raw: string)
    requires Valid(st) && st.doc.volumes != []
    requires var line := Strip(raw); ReachesHeadings(st, line) && !IsVolumeLine(line) && IsChapterLine(line)
    ensures var volumes := st.doc.volumes; var last := |volumes| - 1;
      Step(st, raw) ==
        ParserState(st.doc.(volumes := volumes[last := volumes[last].(chapters := volumes[last].chapters + [Chapter(Strip(raw), [], [])])]),
                    ChapterContentMode, Some(Cursor(last, |volumes[last].chapters|)))
  {
  }

  /** A body line with a chapter open, in closed form. */
  lemma StepBodyCase(st: ParserState, raw: string)
    requires Valid(st) && st.chapter.Some?
    requires var line := Strip(raw); ReachesHeadings(st, line) && !IsVolumeLine(line) && !IsChapterLine(line)
    ensures var c := st.chapter.value; var volumes := st.doc.volumes; var line := Strip(raw);
      && c.volume < |volumes| && c.chapter < |volumes[c.volume].chapters|
      && var ch := volumes[c.volume].chapters[c.chapter];
         var ch' := if IsAnnotationLine(line) then ch.(annotations := ch.annotations + [line])
                    else ch.(content := ch.content + line + "\n");
         Step(st, raw) ==
           st.(doc := st.doc.(volumes := volumes[c.volume := volumes[c.volume].(chapters := volumes[c.volume].chapters[c.chapter := ch'])]))
  {
  }

  lemma StepHasToc(st: ParserState, raw: string)
    requires Valid(st)
    ensures Step(st, raw).doc.hasToc == (st.doc.hasToc || IsTocMarker(raw))
  {
  }

  /** `has_toc` is set exactly when some line is a table-of-contents marker. */
  lemma {:induction false} HasTocIff(lines: seq<string>)
    ensures RunFrom(Initial, lines).doc.hasToc <==> HasTocLine(lines)
  {
    if lines != [] {
      var prefix := lines[..|lines| - 1];
      HasTocIff(prefix);
      StepHasToc(RunFrom(Initial, prefix), lines[|lines| - 1]);
      AnyLineSnoc(lines, IsTocMarker);
    }
  }

  /** Running over two stretches of lines is running over the first, then
      the second. */
  lemma {:induction false} RunFromAppend(st: ParserState, a: seq<string>, b: seq<string>)
    requires Valid(st)
    ensures RunFrom(st, a + b) == RunFrom(RunFrom(st, a), b)
  {
    if b == [] {
      assert a + b == a;
    } else {
      assert (a + b)[..|a + b| - 1] == a + b[..|b| - 1];
      RunFromAppend(st, a, b[..|b| - 1]);
    }
  }

  /** The preface is opened once, only by a line holding its title read in
      the preface state, and afterwards only grows, a line at a time, while
      its content is being read; the parser never returns to the preface
      state. */
  lemma StepPreface(st: ParserState, raw: string)
    requires Valid(st)
    ensures var r := Step(st, raw); var line := Strip(raw);
      && (st.doc.preface.None? && r.doc.preface.Some? ==>
            st.mode == PrefaceMode && Contains(line, PrefaceTitle) && !IsTocLine(line) &&
            r.doc.preface == Some(Preface(PrefaceTitle, line)) && r.mode == PrefaceContentMode)
      && (st.doc.preface.Some? ==>
            r.doc.preface.Some? && r.doc.preface.value.title == st.doc.preface.value.title &&
            (r.doc.preface == st.doc.preface ||
             (st.mode == PrefaceContentMode &&
              r.doc.preface.value.content == st.doc.preface.value.content + "\n" + line)))
      && (st.mode != PrefaceMode ==> r.mode != PrefaceMode)
  {
  }

  /** A line that keeps the preface open: neither a table-of-contents marker
      nor a volume heading. */
  predicate InPrefaceBody(raw: string)
  {
    !IsTocLine(Strip(raw)) && !IsVolumeLine(Strip(raw))
  }

  /** What a stretch of lines adds to an open preface: each non-blank line,
      stripped, after a newline. */
  function PrefaceTail(lines: seq<string>): string
  {
    if lines == [] then []
    else
      var line := Strip(lines[|lines| - 1]);
      PrefaceTail(lines[..|lines| - 1]) + (if line == [] then [] else "\n" + line)
  }

  /** While the preface is open, every non-blank line up to the first
      table-of-contents marker or volume heading is appended to it, and
      nothing else changes. */
  lemma {:induction false} PrefaceAccumulates(st: ParserState, lines: seq<string>)
    requires Valid(st) && st.mode == PrefaceContentMode
    requires AllLines(lines, InPrefaceBody)
    ensures var p := st.doc.preface.value;
      RunFrom(st, lines) == st.(doc := st.doc.(preface := Some(p.(content := p.content + PrefaceTail(lines)))))
  {
    var p := st.doc.preface.value;
    if lines == [] {
      assert p.content + PrefaceTail(lines) == p.content;
    } else {
      var prefix := lines[..|lines| - 1];
      var raw := lines[|lines| - 1];
      AllLinesPrefix(lines, InPrefaceBody);
      PrefaceAccumulates(st, prefix);
      PrefaceLine(RunFrom(st, prefix), raw);
      var piece := if Strip(raw) == [] then [] else "\n" + Strip(raw);
      ConcatAssoc(p.content, PrefaceTail(prefix), piece);
    }
  }

  /** A line of the preface body appends itself, after a newline, to the
      open preface. */
  lemma PrefaceLine(st: ParserState, raw: string)
    requires Valid(st) && st.mode == PrefaceContentMode && InPrefaceBody(raw)
    ensures var p := st.doc.preface.value; var line := Strip(raw);
      Step(st, raw) ==
        st.(doc := st.doc.(preface := Some(p.(content := p.content + (if line == [] then [] else "\n" + line)))))
  {
    var p := st.doc.preface.value;
    if Strip(raw) == [] {
      assert p.content + [] == p.content;
    } else {
      ConcatAssoc(p.content, "\n", Strip(raw));
    }
  }

  /** The volume heading that closes an open preface is itself appended to
      the preface text and opens no volume. */
  lemma VolumeLineClosesPreface(st: ParserState, raw: string)
    requires Valid(st) && st.mode == PrefaceContentMode
    requires IsVolumeLine(Strip(raw))
    ensures var r := Step(st, raw); var p := st.doc.preface.value;
      && r.doc.volumes == st.doc.volumes
      && r.doc.preface == Some(p.(content := p.content + "\n" + Strip(raw)))
      && r.mode == VolumeMode
  {
    VolumeLineIsNotTocLine(Strip(raw));
  }

  function VolumeTitles(volumes: seq<Volume>): (r: seq<string>)
    ensures |r| == |volumes|
    ensures forall v :: 0 <= v < |volumes| ==> r[v] == volumes[v].title
  {
    seq(|volumes|, v requires 0 <= v < |volumes| => volumes[v].title)
  }

  /** Volumes are only ever appended, one per volume heading read outside
      the preface; nothing renames or removes one. */
  lemma StepVolumeTitles(st: ParserState, raw: string)
    requires Valid(st)
    ensures var line := Strip(raw);
      VolumeTitles(Step(st, raw).doc.volumes) ==
        VolumeTitles(st.doc.volumes) + (if ReachesHeadings(st, line) && IsVolumeLine(line) then [line] else [])
  {
    var line := Strip(raw);
    var r := Step(st, raw);
    var volumes := st.doc.volumes;
    if !ReachesHeadings(st, line) {
      assert r.doc.volumes == volumes;
    } else if IsVolumeLine(line) {
      StepVolumeHeading(st, raw);
      VolumeTitlesSnoc(volumes, Volume(line, ChineseToNumber(VolumeOrdinal(line)), []));
    } else if IsChapterLine(line) {
      ChapterHeadingKeepsTitles(st, raw);
    } else {
      StepBodyLine(st, raw);
      SameTitles(r.doc.volumes, volumes);
    }
  }

  lemma ChapterHeadingKeepsTitles(st: ParserState, raw: string)
    requires Valid(st)
    requires var line := Strip(raw); ReachesHeadings(st, line) && !IsVolumeLine(line) && IsChapterLine(line)
    ensures VolumeTitles(Step(st, raw).doc.volumes) == VolumeTitles(st.doc.volumes)
  {
    var r := Step(st, raw);
    var volumes := st.doc.volumes;
    StepChapterHeading(st, raw);
    if volumes != [] {
      var last := |volumes| - 1;
      forall v | 0 <= v < |volumes| ensures r.doc.volumes[v].title == volumes[v].title {
        if v < last {
          assert r.doc.volumes[..last][v] == volumes[..last][v];
        }
      }
      SameTitles(r.doc.volumes, volumes);
    }
  }

  lemma VolumeTitlesSnoc(volumes: seq<Volume>, v: Volume)
    ensures VolumeTitles(volumes + [v]) == VolumeTitles(volumes) + [v.title]
  {
  }

  lemma SameTitles(a: seq<Volume>, b: seq<Volume>)
    requires |a| == |b| && forall i :: 0 <= i < |a| ==> a[i].title == b[i].title
    ensures VolumeTitles(a) == VolumeTitles(b)
  {
  }

  /** A raw line that opens the preface wherever it occurs: it holds the
      preface title. */
  predicate MentionsPrefaceTitle(raw: string)
  {
    Contains(Strip(raw), PrefaceTitle)
  }

  /** Without a preface, a line that does not mention the preface title
      does not open one, and reaches the heading tests unless it is blank
      or a table-of-contents marker. */
  lemma StepWithoutPreface(st: ParserState, raw: string)
    requires Valid(st) && st.doc.preface == None && !MentionsPrefaceTitle(raw)
    ensures Step(st, raw).doc.preface == None
    ensures ReachesHeadings(st, Strip(raw)) <==> Strip(raw) != [] && !IsTocLine(Strip(raw))
  {
  }

  /** The stripped volume headings among the lines, in order. */
  function VolumeHeadings(lines: seq<string>): seq<string>
  {
    if lines == [] then []
    else
      var line := Strip(lines[|lines| - 1]);
      VolumeHeadings(lines[..|lines| - 1]) + (if IsVolumeLine(line) then [line] else [])
  }

  /** In a text whose preface title never occurs, the volumes are exactly
      the volume headings, in the order they appear. */
  lemma {:induction false} VolumesInOrder(lines: seq<string>)
    requires !AnyLine(lines, MentionsPrefaceTitle)
    ensures RunFrom(Initial, lines).doc.preface == None
    ensures VolumeTitles(RunFrom(Initial, lines).doc.volumes) == VolumeHeadings(lines)
  {
    if lines != [] {
      var prefix := lines[..|lines| - 1];
      AnyLineSnoc(lines, MentionsPrefaceTitle);
      VolumesInOrder(prefix);
      var st := RunFrom(Initial, prefix);
      var line := Strip(lines[|lines| - 1]);
      StepVolumeTitles(st, lines[|lines| - 1]);
      StepWithoutPreface(st, lines[|lines| - 1]);
      if IsVolumeLine(line) {
        VolumeLineIsNotTocLine(line);
      }
    }
  }

  /** Where a run stands with respect to the preface: before it (preface
      mode), inside its body, or past it (every other mode). */
  datatype PrefacePhase = BeforePreface | InPreface | PastPreface

  function PhaseOf(mode: Mode): PrefacePhase
  {
    match mode
    case PrefaceMode => BeforePreface
    case PrefaceContentMode => InPreface
    case _ => PastPreface
  }

  /** The phase after one stripped line: a marker or a volume heading ends
      the preface phases, the preface title opens the preface body, and any
      other line leaves the phase as it is. */
  function NextPhase(phase: PrefacePhase, line: string): PrefacePhase
  {
    if line == [] then phase
    else if IsTocLine(line) then PastPreface
    else if Contains(line, PrefaceTitle) && phase == BeforePreface then InPreface
    else if IsVolumeLine(line) then PastPreface
    else phase
  }

  function PhaseAfter(lines: seq<string>): PrefacePhase
  {
    if lines == [] then BeforePreface
    else NextPhase(PhaseAfter(lines[..|lines| - 1]), Strip(lines[|lines| - 1]))
  }

  /** A volume heading opens a volume unless it is read inside the preface
      body, where it closes the preface instead, or it holds the preface
      title before any preface, where it opens the preface. */
  predicate OpensVolume(phase: PrefacePhase, line: string)
  {
    IsVolumeLine(line) && phase != InPreface &&
    !(Contains(line, PrefaceTitle) && phase == BeforePreface)
  }

  /** The volume headings that open volumes, in order. */
  function VolumesOpened(lines: seq<string>): seq<string>
  {
    if lines == [] then []
    else
      var line := Strip(lines[|lines| - 1]);
      VolumesOpened(lines[..|lines| - 1]) + (if OpensVolume(PhaseAfter(lines[..|lines| - 1]), line) then [line] else [])
  }

  /** One parser step moves the preface phase as `NextPhase` says. */
  lemma StepPhase(st: ParserState, raw: string)
    requires Valid(st)
    ensures PhaseOf(Step(st, raw).mode) == NextPhase(PhaseOf(st.mode), Strip(raw))
    ensures ReachesHeadings(st, Strip(raw)) && IsVolumeLine(Strip(raw)) <==> OpensVolume(PhaseOf(st.mode), Strip(raw))
  {
    var line := Strip(raw);
    if line != [] && IsVolumeLine(line) {
      VolumeLineIsNotTocLine(line);
    }
  }

  /** For any text, preface or not, the volumes are the volume headings
      that `VolumesOpened` keeps, in text order: every heading except one
      read inside the preface body, which closes it, or one that holds the
      preface title before any preface, which opens it. */
  lemma {:induction false} VolumesInOrderWithPreface(lines: seq<string>)
    ensures PhaseOf(RunFrom(Initial, lines).mode) == PhaseAfter(lines)
    ensures VolumeTitles(RunFrom(Initial, lines).doc.volumes) == VolumesOpened(lines)
  {
    if lines != [] {
      var prefix := lines[..|lines| - 1];
      VolumesInOrderWithPreface(prefix);
      var st := RunFrom(Initial, prefix);
      StepVolumeTitles(st, lines[|lines| - 1]);
      StepPhase(st, lines[|lines| - 1]);
    }
  }

  /** A chapter heading read while a volume exists opens a new, empty
      chapter at the end of the last volume and points the cursor at it;
      read before any volume it is dropped. */
  lemma StepChapterHeading(st: ParserState, raw: string)
    requires Valid(st)
    requires var line := Strip(raw); ReachesHeadings(st, line) && !IsVolumeLine(line) && IsChapterLine(line)
    ensures var r := Step(st, raw); var volumes := st.doc.volumes;
      && (volumes == [] ==> r == st)
      && (volumes != [] ==>
            var last := |volumes| - 1;
            && r.doc.hasToc == st.doc.hasToc && r.doc.preface == st.doc.preface
            && |r.doc.volumes| == |volumes| && r.doc.volumes[..last] == volumes[..last]
            && r.doc.volumes[last].title == volumes[last].title
            && r.doc.volumes[last].volumeIndex == volumes[last].volumeIndex
            && r.doc.volumes[last].chapters == volumes[last].chapters + [Chapter(Strip(raw), [], [])]
            && r.chapter == Some(Cursor(last, |volumes[last].chapters|))
            && r.mode == ChapterContentMode)
  {
  }

  /** Any other line goes to the chapter under the cursor, which is the
      chapter opened last: an annotation is added to its annotations, any
      other line is added to its content followed by a newline.  Nothing
      else changes, and without a cursor the line is dropped. */
  lemma StepBodyLine(st: ParserState, raw: string)
    requires Valid(st)
    requires var line := Strip(raw); ReachesHeadings(st, line) && !IsVolumeLine(line) && !IsChapterLine(line)
    ensures st.chapter.None? ==> Step(st, raw) == st
    ensures st.chapter.Some? ==>
      var r := Step(st, raw); var c := st.chapter.value; var line := Strip(raw);
      var volumes := st.doc.volumes; var ch := volumes[c.volume].chapters[c.chapter];
      var ch' := r.doc.volumes[c.volume].chapters[c.chapter];
      && r.mode == st.mode && r.chapter == st.chapter
      && r.doc.hasToc == st.doc.hasToc && r.doc.preface == st.doc.preface
      && |r.doc.volumes| == |volumes|
      && (forall v :: 0 <= v < |volumes| && v != c.volume ==> r.doc.volumes[v] == volumes[v])
      && r.doc.volumes[c.volume].title == volumes[c.volume].title
      && r.doc.volumes[c.volume].volumeIndex == volumes[c.volume].volumeIndex
      && r.doc.volumes[c.volume].chapters[..c.chapter] == volumes[c.volume].chapters[..c.chapter]
      && |r.doc.volumes[c.volume].chapters| == c.chapter + 1
      && ch'.title == ch.title
      && (IsAnnotationLine(line) ==> ch'.annotations == ch.annotations + [line] && ch'.content == ch.content)
      && (!IsAnnotationLine(line) ==> ch'.content == ch.content + line + "\n" && ch'.annotations == ch.annotations)
  {
  }

  /** A volume heading read outside the preface appends a new volume with
      no chapters, whose index is its ordinal as `ChineseToNumber` renders
      it; the chapter cursor is kept, so lines read before the new volume's
      first chapter heading still go to the previous chapter. */
  lemma StepVolumeHeading(st: ParserState, raw: string)
    requires Valid(st)
    requires var line := Strip(raw); ReachesHeadings(st, line) && IsVolumeLine(line)
    ensures var r := Step(st, raw); var line := Strip(raw);
      && r.doc.volumes == st.doc.volumes + [Volume(line, ChineseToNumber(VolumeOrdinal(line)), [])]
      && r.chapter == st.chapter && r.mode == VolumeMode
      && r.doc.hasToc == st.doc.hasToc && r.doc.preface == st.doc.preface
  {
  }

  /** What every chapter the parser builds looks like: its title is a
      chapter heading, each annotation an annotation line, both stripped,
      and its content is a run of lines each ending in a newline. */
  ghost predicate ChapterWellFormed(ch: Chapter)
  {
    && IsChapterLine(ch.title) && Stripped(ch.title)
    && (forall a :: a in ch.annotations ==> IsAnnotationLine(a) && Stripped(a))
    && (ch.content == [] || ch.content[|ch.content| - 1] == '\n')
  }

  /** What every volume looks like: its title is a volume heading and its
      index is the heading's ordinal passed through `ChineseToNumber`. */
  ghost predicate VolumeWellFormed(v: Volume)
  {
    && IsVolumeLine(v.title) && Stripped(v.title)
    && v.volumeIndex == ChineseToNumber(VolumeOrdinal(v.title))
    && (forall ch :: ch in v.chapters ==> ChapterWellFormed(ch))
  }

  ghost predicate WellFormed(doc: DocumentStructure)
  {
    && (doc.preface.Some? ==>
          doc.preface.value.title == PrefaceTitle &&
          doc.preface.value.content != [] && Stripped(doc.preface.value.content))
    && (forall v :: v in doc.volumes ==> VolumeWellFormed(v))
  }

  ghost predicate VolumesWellFormed(volumes: seq<Volume>)
  {
    forall v :: v in volumes ==> VolumeWellFormed(v)
  }

  lemma AppendVolumeWellFormed(volumes: seq<Volume>, v: Volume)
    requires VolumesWellFormed(volumes) && VolumeWellFormed(v)
    ensures VolumesWellFormed(volumes + [v])
  {
    assert forall w :: w in volumes + [v] ==> w in volumes || w == v;
  }

  lemma ReplaceVolumeWellFormed(volumes: seq<Volume>, i: nat, v: Volume)
    requires VolumesWellFormed(volumes) && i < |volumes| && VolumeWellFormed(v)
    ensures VolumesWellFormed(volumes[i := v])
  {
    forall w | w in volumes[i := v] ensures VolumeWellFormed(w) {
      var j :| 0 <= j < |volumes| && volumes[i := v][j] == w;
      if j != i {
        assert volumes[j] in volumes;
      }
    }
  }

  lemma AddChapterWellFormed(v: Volume, ch: Chapter)
    requires VolumeWellFormed(v) && ChapterWellFormed(ch)
    ensures VolumeWellFormed(v.(chapters := v.chapters + [ch]))
  {
    assert forall x :: x in v.chapters + [ch] ==> x in v.chapters || x == ch;
  }

  lemma ReplaceChapterWellFormed(v: Volume, k: nat, ch: Chapter)
    requires VolumeWellFormed(v) && k < |v.chapters| && ChapterWellFormed(ch)
    ensures VolumeWellFormed(v.(chapters := v.chapters[k := ch]))
  {
    forall x | x in v.chapters[k := ch] ensures ChapterWellFormed(x) {
      var j :| 0 <= j < |v.chapters| && v.chapters[k := ch][j] == x;
      if j != k {
        assert v.chapters[j] in v.chapters;
      }
    }
  }

  lemma AddBodyLineWellFormed(ch: Chapter, line: string)
    requires ChapterWellFormed(ch) && Stripped(line)
    ensures IsAnnotationLine(line) ==> ChapterWellFormed(ch.(annotations := ch.annotations + [line]))
    ensures ChapterWellFormed(ch.(content := ch.content + line + "\n"))
  {
    assert forall a :: a in ch.annotations + [line] ==> a in ch.annotations || a == line;
    var c := ch.content + line + "\n";
    assert c[|c| - 1] == '\n';
  }

  /** Each step keeps the document well formed. */
  lemma StepWellFormed(st: ParserState, raw: string)
    requires Valid(st) && WellFormed(st.doc)
    ensures WellFormed(Step(st, raw).doc)
  {
    var line := Strip(raw);
    var volumes := st.doc.volumes;
    if line == [] || IsTocLine(line) {
    } else if Contains(line, PrefaceTitle) && st.mode == PrefaceMode {
    } else if st.mode == PrefaceContentMode {
      StrippedJoin(st.doc.preface.value.content, line);
    } else if IsVolumeLine(line) {
      assert VolumesWellFormed(volumes);
      AppendVolumeWellFormed(volumes, Volume(line, ChineseToNumber(VolumeOrdinal(line)), []));
    } else if IsChapterLine(line) {
      ChapterHeadingWellFormed(st, raw);
    } else if st.chapter.Some? {
      BodyLineWellFormed(st, raw);
    }
  }

  lemma ChapterHeadingWellFormed(st: ParserState, raw: string)
    requires Valid(st) && WellFormed(st.doc)
    requires var line := Strip(raw); ReachesHeadings(st, line) && !IsVolumeLine(line) && IsChapterLine(line)
    ensures WellFormed(Step(st, raw).doc)
  {
    var line := Strip(raw);
    var volumes := st.doc.volumes;
    if volumes != [] {
      var last := |volumes| - 1;
      assert VolumesWellFormed(volumes);
      assert volumes[last] in volumes;
      AddChapterWellFormed(volumes[last], Chapter(line, [], []));
      ReplaceVolumeWellFormed(volumes, last, volumes[last].(chapters := volumes[last].chapters + [Chapter(line, [], [])]));
    }
  }

  lemma BodyLineWellFormed(st: ParserState, raw: string)
    requires Valid(st) && WellFormed(st.doc)
    requires var line := Strip(raw); ReachesHeadings(st, line) && !IsVolumeLine(line) && !IsChapterLine(line)
    requires st.chapter.Some?
    ensures WellFormed(Step(st, raw).doc)
  {
    var line := Strip(raw);
    var volumes := st.doc.volumes;
    assert VolumesWellFormed(volumes);
    var c := st.chapter.value;
    var v := volumes[c.volume];
    var ch := v.chapters[c.chapter];
    assert v in volumes && ch in v.chapters;
    AddBodyLineWellFormed(ch, line);
    var ch' := if IsAnnotationLine(line) then ch.(annotations := ch.annotations + [line])
               else ch.(content := ch.content + line + "\n");
    ReplaceChapterWellFormed(v, c.chapter, ch');
    ReplaceVolumeWellFormed(volumes, c.volume, v.(chapters := v.chapters[c.chapter := ch']));
  }

  /** Every document the parser builds is well formed. */
  lemma {:induction false} RunWellFormed(lines: seq<string>)
    ensures WellFormed(RunFrom(Initial, lines).doc)
  {
    if lines != [] {
      RunWellFormed(lines[..|lines| - 1]);
      StepWellFormed(RunFrom(Initial, lines[..|lines| - 1]), lines[|lines| - 1]);
    }
  }
}
