/** The splitter for classical prose (`_split_classical_paragraphs` and
    `_is_semantic_unit`).  A first pass cuts the text, character by
    character, into sentence groups that end at a separator and form a
    semantic unit; a second pass merges consecutive groups, joined by
    newlines, while the merged text stays under the threshold. */
module Splitter {
  import opened Text

  /** The separator list; "\n\n" is two characters long, so a single
      character never equals it and it never takes part. */
  const Separators: seq<string> := ["\n\n", "。", "！", "？", "；", "\n"]

  /** `char in separators`. */
  predicate IsSeparator(c: char)
  {
    [c] in Separators
  }

  /** The separators a single character can match. */
  lemma SeparatorChars(c: char)
    ensures IsSeparator(c) <==> c == '。' || c == '！' || c == '？' || c == '；' || c == '\n'
  {
    if IsSeparator(c) {
      var k :| 0 <= k < |Separators| && Separators[k] == [c];
      assert k != 0 by {
        assert |Separators[0]| == 2;
      }
    }
    if c == '\n' {
      assert Separators[5] == [c];
    }
  }

  /** `_is_semantic_unit`: at least twenty characters, and one of the four
      sentence marks somewhere (each mark is one character, so the
      substring test is membership). */
  predicate IsSemanticUnit(text: string)
  {
    |text| >= 20 && ('。' in text || '！' in text || '？' in text || '；' in text)
  }

  /** The state of the first pass: the groups cut so far, raw, and
      `current_para`. */
  datatype Scan = Scan(pieces: seq<string>, current: string)

  /** The buffer is cut here: it ends with a separator, is not blank, and
      is a semantic unit. */
  predicate CutsHere(buffer: string)
  {
    |buffer| > 0 && IsSeparator(buffer[|buffer| - 1]) && Strip(buffer) != [] && IsSemanticUnit(buffer)
  }

  /** One character of the first pass. */
  function ScanChar(s: Scan, c: char): Scan
  {
    var buffer := s.current + [c];
    if CutsHere(buffer) then Scan(s.pieces + [buffer], []) else Scan(s.pieces, buffer)
  }

  /** The first pass over a prefix of the text. */
  function ScanText(text: string): Scan
  {
    if text == [] then Scan([], [])
    else ScanChar(ScanText(text[..|text| - 1]), text[|text| - 1])
  }

  /** Each element stripped. */
  function MapStrip(pieces: seq<string>): (r: seq<string>)
    ensures |r| == |pieces|
  {
    if pieces == [] then [] else MapStrip(pieces[..|pieces| - 1]) + [Strip(pieces[|pieces| - 1])]
  }

  lemma {:induction false} MapStripAt(pieces: seq<string>)
    ensures forall k :: 0 <= k < |pieces| ==> MapStrip(pieces)[k] == Strip(pieces[k])
  {
    if pieces != [] {
      MapStripAt(pieces[..|pieces| - 1]);
    }
  }

  /** `paragraphs` after the first pass, the non-blank remainder included. */
  function SentenceGroups(text: string): seq<string>
  {
    var s := ScanText(text);
    MapStrip(s.pieces) + (if Strip(s.current) != [] then [Strip(s.current)] else [])
  }

  /** Concatenation of a sequence of strings. */
  function Concat(pieces: seq<string>): string
  {
    if pieces == [] then [] else Concat(pieces[..|pieces| - 1]) + pieces[|pieces| - 1]
  }

  /** No prefix of `s` is a place to cut. */
  predicate NoCutIn(s: string)
  {
    forall k :: 0 < k <= |s| ==> !CutsHere(s[..k])
  }

  /** A piece is cut at the first place its buffer qualifies. */
  predicate FirstCut(piece: string)
  {
    CutsHere(piece) && NoCutIn(piece[..|piece| - 1])
  }

  /** One more character is one more step of the first pass. */
  lemma ScanTextSnoc(text: string, i: nat)
    requires i < |text|
    ensures ScanText(text[..i + 1]) == ScanChar(ScanText(text[..i]), text[i])
  {
    assert text[..i + 1][..i] == text[..i];
  }

  /** The first pass loses and reorders nothing: its pieces, followed by
      the remainder, spell out the text. */
  lemma {:induction false} ScanCovers(text: string)
    ensures Concat(ScanText(text).pieces) + ScanText(text).current == text
  {
    if text != [] {
      var prefix := text[..|text| - 1];
      ScanCovers(prefix);
      ScanCharCovers(ScanText(prefix), text[|text| - 1], prefix, ScanText(text));
      SnocParts(text);
    }
  }

  /** One character of the first pass moves into the pieces or the buffer. */
  lemma ScanCharCovers(s: Scan, c: char, before: string, t: Scan)
    requires Concat(s.pieces) + s.current == before
    requires t == ScanChar(s, c)
    ensures Concat(t.pieces) + t.current == before + [c]
  {
    var buffer := s.current + [c];
    ConcatAssoc(Concat(s.pieces), s.current, [c]);
    if CutsHere(buffer) {
      assert t == Scan(s.pieces + [buffer], []);
      ConcatSnoc(s.pieces, buffer);
    } else {
      assert t == Scan(s.pieces, buffer);
    }
  }

  lemma ConcatSnoc(pieces: seq<string>, x: string)
    ensures Concat(pieces + [x]) == Concat(pieces) + x
  {
    assert (pieces + [x])[..|pieces|] == pieces;
  }

  /** A buffer with no place to cut, extended by a character that does not
      complete one, still has none. */
  lemma ExtendNoCut(current: string, c: char)
    requires NoCutIn(current) && !CutsHere(current + [c])
    ensures NoCutIn(current + [c])
  {
    var buffer := current + [c];
    forall k | 0 < k <= |buffer| ensures !CutsHere(buffer[..k]) {
      if k < |buffer| {
        assert buffer[..k] == current[..k];
      } else {
        assert buffer[..k] == buffer;
      }
    }
  }

  /** Each piece ends at the first separator where the buffer is a
      non-blank semantic unit, and no prefix of the remainder is such a
      place. */
  lemma {:induction false} ScanCutsFirst(text: string)
    ensures forall k :: 0 <= k < |ScanText(text).pieces| ==> FirstCut(ScanText(text).pieces[k])
    ensures NoCutIn(ScanText(text).current)
  {
    if text != [] {
      var prefix := text[..|text| - 1];
      var c := text[|text| - 1];
      ScanCutsFirst(prefix);
      var s := ScanText(prefix);
      var buffer := s.current + [c];
      if CutsHere(buffer) {
        assert buffer[..|buffer| - 1] == s.current;
        assert FirstCut(buffer);
      } else {
        ExtendNoCut(s.current, c);
      }
    }
  }

  /** Every piece the first pass cuts is a semantic unit, at least twenty
      characters with one of the four sentence marks, and ends with a
      separator. */
  lemma PiecesAreSemanticUnits(text: string)
    ensures forall k :: 0 <= k < |ScanText(text).pieces| ==>
              var piece := ScanText(text).pieces[k];
              && |piece| >= 20
              && ('。' in piece || '！' in piece || '？' in piece || '；' in piece)
              && IsSeparator(piece[|piece| - 1])
  {
    ScanCutsFirst(text);
    forall k | 0 <= k < |ScanText(text).pieces|
      ensures CutsHere(ScanText(text).pieces[k])
    {
      assert FirstCut(ScanText(text).pieces[k]);
    }
  }

  /** Every group of the first pass is non-blank and stripped. */
  lemma SentenceGroupsStripped(text: string)
    ensures forall k :: 0 <= k < |SentenceGroups(text)| ==>
              SentenceGroups(text)[k] != [] && Stripped(SentenceGroups(text)[k])
  {
    var s := ScanText(text);
    ScanCutsFirst(text);
    MapStripAt(s.pieces);
    forall k | 0 <= k < |s.pieces| ensures Strip(s.pieces[k]) != [] {
      assert FirstCut(s.pieces[k]);
    }
  }

  /** The merge threshold. */
  const MergeLimit: nat := 800

  /** The state of the second pass: `merged_paragraphs` and `temp_para`. */
  datatype Merge = Merge(merged: seq<string>, temp: string)

  /** One group of the second pass.  The test measures the two texts side
      by side, without the newline that joins them. */
  function MergeStep(m: Merge, para: string): Merge
  {
    if |m.temp + para| < MergeLimit then
      Merge(m.merged, if m.temp != [] then m.temp + "\n" + para else para)
    else
      Merge(m.merged + (if m.temp != [] then [m.temp] else []), para)
  }

  function MergeRun(paras: seq<string>): Merge
  {
    if paras == [] then Merge([], [])
    else MergeStep(MergeRun(paras[..|paras| - 1]), paras[|paras| - 1])
  }

  lemma MergeRunSnoc(paras: seq<string>, j: nat)
    requires j < |paras|
    ensures MergeRun(paras[..j + 1]) == MergeStep(MergeRun(paras[..j]), paras[j])
  {
    assert paras[..j + 1][..j] == paras[..j];
  }

  /** The merged paragraphs, the last open one included. */
  function MergeAll(paras: seq<string>): seq<string>
  {
    var m := MergeRun(paras);
    m.merged + (if m.temp != [] then [m.temp] else [])
  }

  /** The value of `_split_classical_paragraphs`. */
  function ClassicalParagraphs(text: string): seq<string>
  {
    MergeAll(SentenceGroups(text))
  }

  predicate AllNonBlank(paras: seq<string>)
  {
    forall k :: 0 <= k < |paras| ==> paras[k] != [] && Stripped(paras[k])
  }

  /** The merge state joined back into one text. */
  function Flatten(m: Merge): string
  {
    JoinLines(m.merged + (if m.temp != [] then [m.temp] else []))
  }

  /** Invariant of the second pass: the output so far, joined by newlines,
      is the input so far joined by newlines; every paragraph is non-blank
      and stripped; and a paragraph longer than the threshold is one of the
      input groups, unmerged. */
  ghost predicate MergeInvariant(paras: seq<string>, m: Merge)
  {
    && Flatten(m) == JoinLines(paras)
    && (paras != [] ==> m.temp != [])
    && AllNonBlank(m.merged) && (m.temp == [] || Stripped(m.temp))
    && (forall k :: 0 <= k < |m.merged| ==> |m.merged[k]| <= MergeLimit || m.merged[k] in paras)
    && (|m.temp| <= MergeLimit || m.temp in paras)
  }

  /** One step of the second pass keeps its invariant. */
  lemma MergeStepInvariant(prefix: seq<string>, para: string, m: Merge)
    requires AllNonBlank(prefix) && para != [] && Stripped(para)
    requires MergeInvariant(prefix, m)
    ensures MergeInvariant(prefix + [para], MergeStep(m, para))
  {
    var paras := prefix + [para];
    var m' := MergeStep(m, para);
    assert forall x :: x in prefix ==> x in paras;
    if m.temp == [] {
      assert prefix == [];
      JoinLinesEmpty(m.merged);
      assert Flatten(m') == para;
    } else {
      JoinSnoc(prefix, para);
      if |m.temp + para| < MergeLimit {
        StrippedJoin(m.temp, para);
        JoinReplaceLast(m.merged, m.temp, para);
      } else {
        JoinSnoc(m.merged + [m.temp], para);
      }
    }
  }

  lemma {:induction false} MergeRunInvariant(paras: seq<string>)
    requires AllNonBlank(paras)
    ensures MergeInvariant(paras, MergeRun(paras))
  {
    if paras != [] {
      var prefix := paras[..|paras| - 1];
      assert AllNonBlank(prefix);
      MergeRunInvariant(prefix);
      assert prefix + [paras[|paras| - 1]] == paras;
      MergeStepInvariant(prefix, paras[|paras| - 1], MergeRun(prefix));
    }
  }

  /** Non-blank lines join to nothing only when there are none. */
  lemma JoinLinesEmpty(ls: seq<string>)
    requires AllNonBlank(ls)
    ensures JoinLines(ls) == [] <==> ls == []
  {
  }

  /** Extending the last line of a join. */
  lemma JoinReplaceLast(ls: seq<string>, last: string, x: string)
    ensures JoinLines(ls + [last + "\n" + x]) == JoinLines(ls + [last]) + "\n" + x
  {
    if ls == [] {
    } else {
      JoinSnoc(ls, last + "\n" + x);
      JoinSnoc(ls, last);
    }
  }

  /** The second pass: its paragraphs, joined by newlines, are its input
      joined by newlines, so nothing is lost, duplicated or reordered; each
      is non-blank and stripped; there are none only when there was no
      input; and one longer than the threshold is an input paragraph that
      nothing was merged into. */
  lemma MergeAllSpec(paras: seq<string>)
    requires AllNonBlank(paras)
    ensures var r := MergeAll(paras);
      && JoinLines(r) == JoinLines(paras)
      && AllNonBlank(r)
      && (forall k :: 0 <= k < |r| ==> |r[k]| <= MergeLimit || r[k] in paras)
      && (r == [] <==> paras == [])
  {
    MergeRunInvariant(paras);
    if paras == [] {
      assert MergeRun(paras) == Merge([], []);
    }
  }

  /** What `_split_classical_paragraphs` promises: the merge above applied
      to the sentence groups, which are themselves non-blank and stripped. */
  lemma ClassicalParagraphsSpec(text: string)
    ensures var groups := SentenceGroups(text); var r := ClassicalParagraphs(text);
      && JoinLines(r) == JoinLines(groups)
      && AllNonBlank(r)
      && (forall k :: 0 <= k < |r| ==> |r[k]| <= MergeLimit || r[k] in groups)
      && (r == [] <==> groups == [])
  {
    SentenceGroupsStripped(text);
    MergeAllSpec(SentenceGroups(text));
  }

  // The second pass as groups of sentence groups

  /** The second pass, keeping apart the sentence groups each output
      paragraph is made of: the next one joins the last group when the
      joined text and it, side by side, stay under the threshold. */
  function GroupStep(groups: seq<seq<string>>, para: string): seq<seq<string>>
  {
    if groups != [] && |JoinLines(groups[|groups| - 1]) + para| < MergeLimit
    then groups[..|groups| - 1] + [groups[|groups| - 1] + [para]]
    else groups + [[para]]
  }

  function Groups(paras: seq<string>): seq<seq<string>>
  {
    if paras == [] then [] else GroupStep(Groups(paras[..|paras| - 1]), paras[|paras| - 1])
  }

  /** The groups laid end to end. */
  function FlattenGroups(groups: seq<seq<string>>): seq<string>
  {
    if groups == [] then [] else FlattenGroups(groups[..|groups| - 1]) + groups[|groups| - 1]
  }

  /** Each group joined by newlines. */
  function JoinEach(groups: seq<seq<string>>): (r: seq<string>)
    ensures |r| == |groups| && forall i :: 0 <= i < |groups| ==> r[i] == JoinLines(groups[i])
  {
    seq(|groups|, i requires 0 <= i < |groups| => JoinLines(groups[i]))
  }

  /** The state of the second pass the groups stand for: every group but
      the last is closed, and the last is the open accumulator. */
  function MergeOf(groups: seq<seq<string>>): Merge
  {
    if groups == [] then Merge([], [])
    else Merge(JoinEach(groups[..|groups| - 1]), JoinLines(groups[|groups| - 1]))
  }

  predicate GroupsNonBlank(groups: seq<seq<string>>)
  {
    forall i :: 0 <= i < |groups| ==> groups[i] != [] && AllNonBlank(groups[i])
  }

  /** Greedy maximality: no group could have taken the first sentence group
      of the group after it. */
  predicate Greedy(groups: seq<seq<string>>)
  {
    forall i :: 0 < i < |groups| && groups[i] != [] ==>
      |JoinLines(groups[i - 1])| + |groups[i][0]| >= MergeLimit
  }

  /** A group of two or more sentence groups is at most the threshold long. */
  predicate Bounded(groups: seq<seq<string>>)
  {
    forall i :: 0 <= i < |groups| && |groups[i]| >= 2 ==> |JoinLines(groups[i])| <= MergeLimit
  }

  lemma GroupStepFlatten(groups: seq<seq<string>>, para: string)
    ensures FlattenGroups(GroupStep(groups, para)) == FlattenGroups(groups) + [para]
  {
    if groups != [] && |JoinLines(groups[|groups| - 1]) + para| < MergeLimit {
      var init := groups[..|groups| - 1];
      var last := groups[|groups| - 1];
      var g' := init + [last + [para]];
      assert g'[..|g'| - 1] == init;
      assert init + [last] == groups;
      assert FlattenGroups(groups) == FlattenGroups(init) + last;
    } else {
      assert (groups + [[para]])[..|groups|] == groups;
    }
  }

  lemma GroupStepShape(groups: seq<seq<string>>, para: string)
    requires para != [] && Stripped(para)
    requires GroupsNonBlank(groups) && Greedy(groups) && Bounded(groups)
    ensures var g' := GroupStep(groups, para);
      GroupsNonBlank(g') && Greedy(g') && Bounded(g')
  {
    var g' := GroupStep(groups, para);
    if groups != [] && |JoinLines(groups[|groups| - 1]) + para| < MergeLimit {
      var last := groups[|groups| - 1];
      JoinSnoc(last, para);
      assert |JoinLines(last + [para])| <= MergeLimit;
      assert forall i :: 0 <= i < |groups| - 1 ==> g'[i] == groups[i];
      assert g'[|groups| - 1] == last + [para];
      assert (last + [para])[0] == last[0];
    } else {
      assert forall i :: 0 <= i < |groups| ==> g'[i] == groups[i];
      assert g'[|groups|] == [para];
    }
  }

  lemma GroupStepMerge(groups: seq<seq<string>>, para: string)
    requires para != [] && GroupsNonBlank(groups)
    ensures MergeOf(GroupStep(groups, para)) == MergeStep(MergeOf(groups), para)
  {
    var g' := GroupStep(groups, para);
    if groups == [] {
      assert g' == [[para]];
      assert MergeOf(g') == Merge([], para);
    } else {
      var init := groups[..|groups| - 1];
      var last := groups[|groups| - 1];
      JoinLinesEmpty(last);
      if |JoinLines(last) + para| < MergeLimit {
        JoinSnoc(last, para);
        assert g'[..|g'| - 1] == init;
      } else {
        assert g'[..|g'| - 1] == groups;
        assert JoinEach(groups) == JoinEach(init) + [JoinLines(last)];
      }
    }
  }

  /** `groups` partition `paras` in order, are non-blank, greedy and
      bounded, and stand for the state the second pass reaches. */
  ghost predicate GroupsFor(paras: seq<string>, groups: seq<seq<string>>)
  {
    && FlattenGroups(groups) == paras
    && GroupsNonBlank(groups) && Greedy(groups) && Bounded(groups)
    && MergeOf(groups) == MergeRun(paras)
  }

  lemma GroupStepFor(prefix: seq<string>, para: string, groups: seq<seq<string>>)
    requires para != [] && Stripped(para)
    requires GroupsFor(prefix, groups)
    ensures GroupsFor(prefix + [para], GroupStep(groups, para))
  {
    GroupStepFlatten(groups, para);
    GroupStepShape(groups, para);
    GroupStepMerge(groups, para);
    assert (prefix + [para])[..|prefix|] == prefix;
  }

  lemma {:induction false} GroupsForAll(paras: seq<string>)
    requires AllNonBlank(paras)
    ensures GroupsFor(paras, Groups(paras))
  {
    if paras != [] {
      var prefix := paras[..|paras| - 1];
      var para := paras[|paras| - 1];
      assert AllNonBlank(prefix);
      GroupsForAll(prefix);
      GroupStepFor(prefix, para, Groups(prefix));
      assert prefix + [para] == paras;
    }
  }

  /** The groups partition the input in order, are non-blank, greedy and
      bounded, and stand for the state the second pass reaches. */
  lemma GroupsSpec(paras: seq<string>)
    requires AllNonBlank(paras)
    ensures var groups := Groups(paras);
      && FlattenGroups(groups) == paras
      && GroupsNonBlank(groups) && Greedy(groups) && Bounded(groups)
      && MergeOf(groups) == MergeRun(paras)
  {
    GroupsForAll(paras);
  }

  /** Two or more lines joined are longer than any one of them. */
  lemma {:induction false} JoinLinesLonger(ls: seq<string>, j: nat)
    requires |ls| >= 2 && j < |ls|
    ensures |JoinLines(ls)| > |ls[j]|
    decreases |ls|
  {
    if j > 0 && |ls| > 2 {
      JoinLinesLonger(ls[1..], j - 1);
    }
  }

  /** The second pass, group by group: its paragraphs are the groups joined
      by newlines; the groups are consecutive runs of the input that,
      laid end to end, give back the input; a group of two or more is at
      most the threshold long, so a sentence group of the threshold's length
      or more stands alone; and no group could have taken the first
      sentence group of the next. */
  lemma MergeAllGroups(paras: seq<string>)
    requires AllNonBlank(paras)
    ensures var groups := Groups(paras);
      && MergeAll(paras) == JoinEach(groups)
      && FlattenGroups(groups) == paras
      && (forall i :: 0 <= i < |groups| ==> groups[i] != [])
      && Bounded(groups) && Greedy(groups)
      && (forall i, j :: 0 <= i < |groups| && 0 <= j < |groups[i]| && |groups[i][j]| >= MergeLimit ==>
            |groups[i]| == 1)
  {
    var groups := Groups(paras);
    GroupsSpec(paras);
    MergeAllJoinEach(paras);
    assert forall i :: 0 <= i < |groups| ==> groups[i] != [];
    LongStandsAlone(groups);
  }

  lemma MergeAllJoinEach(paras: seq<string>)
    requires AllNonBlank(paras)
    ensures MergeAll(paras) == JoinEach(Groups(paras))
  {
    var groups := Groups(paras);
    GroupsSpec(paras);
    if groups != [] {
      var last := groups[|groups| - 1];
      JoinLinesEmpty(last);
      assert JoinEach(groups) == JoinEach(groups[..|groups| - 1]) + [JoinLines(last)];
    }
  }

  /** In bounded groups, a member of the threshold's length or more is alone. */
  lemma LongStandsAlone(groups: seq<seq<string>>)
    requires Bounded(groups) && forall i :: 0 <= i < |groups| ==> groups[i] != []
    ensures forall i, j :: 0 <= i < |groups| && 0 <= j < |groups[i]| && |groups[i][j]| >= MergeLimit ==>
              |groups[i]| == 1
  {
    forall i, j | 0 <= i < |groups| && 0 <= j < |groups[i]| && |groups[i][j]| >= MergeLimit
      ensures |groups[i]| == 1
    {
      if |groups[i]| >= 2 {
        JoinLinesLonger(groups[i], j);
      }
    }
  }

  /** An empty text has no paragraphs. */
  lemma EmptyTextHasNoParagraphs()
    ensures ClassicalParagraphs([]) == []
  {
    ClassicalParagraphsSpec([]);
  }

  /** `_split_classical_paragraphs`: the first pass, then the merge. */
  method SplitClassicalParagraphs(text: string) returns (mergedParagraphs: seq<string>)
    ensures mergedParagraphs == ClassicalParagraphs(text)
  {
    var paragraphs := CutSentenceGroups(text);
    mergedParagraphs := MergeParagraphs(paragraphs);
  }

  /** The first loop of `_split_classical_paragraphs` and the leftover
      buffer after it. */
  method CutSentenceGroups(text: string) returns (paragraphs: seq<string>)
    ensures paragraphs == SentenceGroups(text)
  {
    ghost var pieces: seq<string> := [];
    paragraphs := [];
    var currentPara: string := [];
    for i := 0 to |text|
      invariant ScanText(text[..i]) == Scan(pieces, currentPara)
      invariant paragraphs == MapStrip(pieces)
    {
      ScanTextSnoc(text, i);
      var c := text[i];
      currentPara := currentPara + [c];
      if IsSeparator(c) {
        if Strip(currentPara) != [] {
          if IsSemanticUnit(currentPara) {
            pieces := pieces + [currentPara];
            paragraphs := paragraphs + [Strip(currentPara)];
            currentPara := [];
          }
        }
      }
    }
    assert text[..|text|] == text;
    if Strip(currentPara) != [] {
      paragraphs := paragraphs + [Strip(currentPara)];
    }
  }

  /** The second loop of `_split_classical_paragraphs` and the flush of the
      last merged paragraph. */
  method MergeParagraphs(paragraphs: seq<string>) returns (mergedParagraphs: seq<string>)
    ensures mergedParagraphs == MergeAll(paragraphs)
  {
    mergedParagraphs := [];
    var tempPara: string := [];
    for j := 0 to |paragraphs|
      invariant MergeRun(paragraphs[..j]) == Merge(mergedParagraphs, tempPara)
    {
      MergeRunSnoc(paragraphs, j);
      var para := paragraphs[j];
      if |tempPara + para| < MergeLimit {
        tempPara := if tempPara != [] then tempPara + "\n" + para else para;
      } else {
        if tempPara != [] {
          mergedParagraphs := mergedParagraphs + [tempPara];
        }
        tempPara := para;
      }
    }
    assert paragraphs[..|paragraphs|] == paragraphs;
    if tempPara != [] {
      mergedParagraphs := mergedParagraphs + [tempPara];
    }
  }
}
