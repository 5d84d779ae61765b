/**
 * The reply layout that the analysis prompt asks the model for
 * (api/prompt_templates.py:28-37), run through the extractor.
 *
 * `LayoutOf` builds a reply in that layout from its variable parts: the
 * general analysis, then "Habits:", one habit block of four lines (a
 * numbered bold name and three indented labelled fields) and a closing
 * one-line block. `LayoutExtraction` states what the extractor makes of any
 * such reply; `TemplateExtraction` applies it to the template's own
 * placeholders: one habit comes out, named with its "1. " still in front and
 * with no implementation steps, since the template puts the steps on the
 * label line itself.
 */
module TemplateReply {
  import opened PyStr
  import opened Extractor

  /** The indentation of the three field lines. */
  const Indent: string := "   - "

  /** "1. **name**" */
  function NameLineOf(name: string): string {
    StepMarker + "**" + name + "**"
  }

  /** "   - key value" */
  function FieldLine(key: string, value: string): string {
    Indent + key + " " + value
  }

  /** The four lines of a habit block. */
  function BlockLinesOf(name: string, desc: string, steps: string, basis: string): seq<string> {
    [NameLineOf(name), FieldLine(DescriptionLabel, desc), FieldLine(ImplementationLabel, steps), FieldLine(BasisLabel, basis)]
  }

  function BlockOf(name: string, desc: string, steps: string, basis: string): string {
    NameLineOf(name) + "\n" + FieldLine(DescriptionLabel, desc) + "\n"
      + FieldLine(ImplementationLabel, steps) + "\n" + FieldLine(BasisLabel, basis)
  }

  /** The text after "Habits:": a line break, the habit block, a blank line
      and the closing line. */
  function AfterOf(name: string, desc: string, steps: string, basis: string, trailer: string): string {
    "\n" + BlockOf(name, desc, steps, basis) + "\n\n" + trailer
  }

  /** The text before "Habits:". */
  function BeforeOf(general: string): string {
    GeneralLabel + "\n" + general + "\n\n"
  }

  /** A whole reply in the template's layout. */
  function LayoutOf(general: string, name: string, desc: string, steps: string, basis: string, trailer: string): string {
    BeforeOf(general) + HabitsMarker + AfterOf(name, desc, steps, basis, trailer)
  }

  /** Non-empty, no whitespace at either end. */
  predicate Trimmed(s: string) {
    s != [] && !IsSpace(s[0]) && !IsSpace(s[|s| - 1])
  }

  /** The template's placeholders. The two long ones are written in halves,
      and their character facts below are proved half by half, which keeps
      each of those proofs small. */
  const GeneralText: string := "[Behavioral analysis, " + "more than 3 paragraphs]"
  const NameText: string := "[Habit name]"
  const DescriptionText: string := "[brief description]"
  const StepsText: string := "[detailed steps]"
  const BasisText: string := "[reference or evidence]"
  const RepeatLine: string := "[Repeat format " + "for each suggested habit]"

  /** The template reply. */
  const Reply: string := LayoutOf(GeneralText, NameText, DescriptionText, StepsText, BasisText, RepeatLine)

  /** Extracting the template reply: the general analysis is the placeholder
      paragraph, and the habit block gives exactly one habit whose name keeps
      the "1. " and whose step list is empty; the trailing "[Repeat …]" line
      is a block of one line and is skipped. */
  lemma TemplateExtraction()
    ensures FormatReply(Reply) == FormattedAnalysis(
      "[Behavioral analysis, more than 3 paragraphs]",
      [Habit("1. [Habit name]", "[brief description]", [], "[reference or evidence]")])
  {
    GeneralFits();
    NameFits();
    TextsFit();
    RepeatFits();
    LayoutExtraction(GeneralText, NameText, DescriptionText, StepsText, BasisText, RepeatLine);
  }

  /** Any reply in the template's layout gives its general analysis and
      exactly one habit: the name with its "1. " kept, the description and
      basis texts, and no steps. The parts may hold anything except a line
      break (the general analysis may hold those too), a "**", a stray
      "Habits:", or a "GENERAL:" in the general analysis; the general
      analysis, description, basis and closing line are stripped texts. */
  lemma LayoutExtraction(general: string, name: string, desc: string, steps: string, basis: string, trailer: string)
    requires Trimmed(general) && !Contains(general, HabitsMarker) && !Contains(general, GeneralLabel)
    requires '\n' !in name && !Contains(name, "**") && !Contains(name, HabitsMarker)
    requires Trimmed(desc) && '\n' !in desc && !Contains(desc, "**") && !Contains(desc, HabitsMarker)
    requires steps != [] && !IsSpace(steps[|steps| - 1]) && '\n' !in steps && !Contains(steps, HabitsMarker)
    requires Trimmed(basis) && '\n' !in basis && !Contains(basis, "**") && !Contains(basis, HabitsMarker)
    requires Trimmed(trailer) && '\n' !in trailer && !Contains(trailer, HabitsMarker)
    ensures FormatReply(LayoutOf(general, name, desc, steps, basis, trailer))
         == FormattedAnalysis(general, [Habit(StepMarker + name, desc, [], basis)])
  {
    var block := BlockOf(name, desc, steps, basis);
    var after := AfterOf(name, desc, steps, basis, trailer);
    GeneralOfLayout(general, after);
    AfterHasNoMarker(name, desc, steps, basis, trailer);
    HabitsFromBlocks(BeforeOf(general), after);
    BlocksOfLayout(name, desc, steps, basis, trailer);
    BlockGivesHabit(name, desc, steps, basis);
    TrailerIsSkipped(trailer);
    FlatMapAppend(HabitsOf, [block], [trailer]);
    FlatMapSingle(HabitsOf, block);
    FlatMapSingle(HabitsOf, trailer);
    assert [block, trailer] == [block] + [trailer];
  }

  // ---------------------------------------------------------------------
  // Character facts about the labels and the placeholders

  lemma MarkersPlain()
    ensures 'H' !in GeneralLabel && GeneralLabel[0] == 'G' && GeneralLabel[|GeneralLabel| - 1] == ':'
    ensures 'H' !in Indent && '\n' !in Indent && '*' !in Indent && Indent[0] == ' '
    ensures '*' !in StepMarker && '\n' !in StepMarker && StepMarker[0] == '1'
    ensures HabitsMarker[0] == 'H' && HabitsMarker[|HabitsMarker| - 1] == ':' && '\n' !in HabitsMarker
    ensures BlockSeparator == "\n\n" && LineSeparator == "\n"
  {
  }

  lemma DescriptionLabelPlain()
    ensures 'H' !in DescriptionLabel && '\n' !in DescriptionLabel && DescriptionLabel[..2] == "**"
  {
  }

  lemma ImplementationLabelPlain()
    ensures 'H' !in ImplementationLabel && '\n' !in ImplementationLabel
  {
  }

  lemma BasisLabelPlain()
    ensures 'H' !in BasisLabel && '\n' !in BasisLabel && BasisLabel[..2] == "**"
  {
  }

  /** A text without "H" holds no "Habits:". */
  lemma LacksMarker(s: string)
    requires 'H' !in s
    ensures !Contains(s, HabitsMarker)
  {
    assert HabitsMarker[0] == 'H';
    MissingChar(s, HabitsMarker, 0);
  }

  /** A text without "G" holds no "GENERAL:". */
  lemma LacksLabel(s: string)
    requires 'G' !in s
    ensures !Contains(s, GeneralLabel)
  {
    assert GeneralLabel[0] == 'G';
    MissingChar(s, GeneralLabel, 0);
  }

  /** A text without "*" holds no "**". */
  lemma LacksPair(s: string)
    requires '*' !in s
    ensures !Contains(s, "**")
  {
    MissingChar(s, "**", 0);
  }

  lemma GeneralFits()
    ensures Trimmed(GeneralText) && !Contains(GeneralText, HabitsMarker) && !Contains(GeneralText, GeneralLabel)
    ensures GeneralText == "[Behavioral analysis, more than 3 paragraphs]"
  {
    GeneralPlain();
    LacksMarker(GeneralText);
    LacksLabel(GeneralText);
  }

  lemma GeneralPlain()
    ensures Trimmed(GeneralText) && 'H' !in GeneralText && 'G' !in GeneralText
    ensures GeneralText == "[Behavioral analysis, more than 3 paragraphs]"
  {
    GeneralHeadPlain();
    GeneralTailPlain();
    GeneralWhole();
  }

  lemma GeneralHeadPlain()
    ensures 'H' !in "[Behavioral analysis, " && 'G' !in "[Behavioral analysis, "
  {
  }

  lemma GeneralTailPlain()
    ensures 'H' !in "more than 3 paragraphs]" && 'G' !in "more than 3 paragraphs]"
  {
  }

  lemma GeneralWhole()
    ensures GeneralText == "[Behavioral analysis, more than 3 paragraphs]"
  {
  }

  lemma NameFits()
    ensures '\n' !in NameText && !Contains(NameText, "**") && !Contains(NameText, HabitsMarker)
    ensures StepMarker + NameText == "1. [Habit name]"
  {
    NameCharsPlain();
    LacksPair(NameText);
    NameTextNoMarker();
    NameHeading();
  }

  lemma NameCharsPlain()
    ensures '\n' !in NameText && '*' !in NameText
  {
  }

  lemma NameHeading()
    ensures StepMarker + NameText == "1. [Habit name]"
  {
  }

  /** The name holds no "Habits:", since its line holds none. */
  lemma NameTextNoMarker()
    ensures !Contains(NameText, HabitsMarker)
  {
    NameLineNoMarker();
    assert NameLineOf(NameText) == (StepMarker + "**") + NameText + "**";
    assert Contains(NameText, HabitsMarker) ==> Contains(NameLineOf(NameText), HabitsMarker) by {
      if Contains(NameText, HabitsMarker) {
        ContainsExtend(StepMarker + "**", NameText, "**", HabitsMarker);
      }
    }
  }

  /** The only "H" of the name line is followed by "abit ", not by "abits:". */
  lemma NameLineNoMarker()
    ensures !Contains(NameLineOf(NameText), HabitsMarker)
  {
    MarkersPlain();
    var head := StepMarker + "**" + "[";
    var rest := "H" + "abit name]" + "**";
    assert NameLineOf(NameText) == head + rest;
    ContainsSkip(head, rest, HabitsMarker);
    assert rest[5] == ' ' && HabitsMarker[5] == 's';
    assert rest[..7][5] == rest[5];
    assert rest[1..] == "abit name]" + "**";
    MissingChar(rest[1..], HabitsMarker, 0);
  }

  lemma TextsFit()
    ensures Trimmed(DescriptionText) && '\n' !in DescriptionText
    ensures !Contains(DescriptionText, "**") && !Contains(DescriptionText, HabitsMarker)
    ensures StepsText != [] && !IsSpace(StepsText[|StepsText| - 1]) && '\n' !in StepsText
    ensures !Contains(StepsText, HabitsMarker)
    ensures Trimmed(BasisText) && '\n' !in BasisText
    ensures !Contains(BasisText, "**") && !Contains(BasisText, HabitsMarker)
  {
    DescriptionTextPlain();
    LacksPair(DescriptionText);
    LacksMarker(DescriptionText);
    StepsTextPlain();
    LacksMarker(StepsText);
    BasisTextPlain();
    LacksPair(BasisText);
    LacksMarker(BasisText);
  }

  lemma DescriptionTextPlain()
    ensures Trimmed(DescriptionText) && '\n' !in DescriptionText && '*' !in DescriptionText && 'H' !in DescriptionText
  {
  }

  lemma StepsTextPlain()
    ensures StepsText != [] && !IsSpace(StepsText[|StepsText| - 1]) && '\n' !in StepsText && 'H' !in StepsText
  {
  }

  lemma BasisTextPlain()
    ensures Trimmed(BasisText) && '\n' !in BasisText && '*' !in BasisText && 'H' !in BasisText
  {
  }

  lemma RepeatFits()
    ensures Trimmed(RepeatLine) && '\n' !in RepeatLine && !Contains(RepeatLine, HabitsMarker)
  {
    RepeatPlain();
    LacksMarker(RepeatLine);
  }

  lemma RepeatPlain()
    ensures Trimmed(RepeatLine) && '\n' !in RepeatLine && 'H' !in RepeatLine
  {
    assert 'H' !in "[Repeat format " && '\n' !in "[Repeat format ";
    assert 'H' !in "for each suggested habit]" && '\n' !in "for each suggested habit]";
  }

  // ---------------------------------------------------------------------
  // The general analysis

  lemma GeneralOfLayout(general: string, after: string)
    requires Trimmed(general) && !Contains(general, HabitsMarker) && !Contains(general, GeneralLabel)
    ensures !Contains(BeforeOf(general), HabitsMarker)
    ensures FormatReply(BeforeOf(general) + HabitsMarker + after).generalAnalysis == general
  {
    BeforeLacksMarker(general);
    GeneralBeforeMarker(BeforeOf(general), after);
    BeforeReplaced(general);
    BetweenBreaks(general);
  }

  /** Neither the label nor the line breaks around the paragraph can hold
      part of a "Habits:". */
  lemma BeforeLacksMarker(general: string)
    requires !Contains(general, HabitsMarker)
    ensures !Contains(BeforeOf(general), HabitsMarker)
  {
    MarkersPlain();
    assert BeforeOf(general) == (GeneralLabel + "\n") + (general + "\n\n");
    ContainsSkip(GeneralLabel + "\n", general + "\n\n", HabitsMarker);
    ContainsAppendMissing(general, "\n\n", HabitsMarker);
  }

  /** Removing "GENERAL:" leaves the paragraph between its line breaks. */
  lemma BeforeReplaced(general: string)
    requires !Contains(general, GeneralLabel)
    ensures ReplaceAll(BeforeOf(general), GeneralLabel, "") == "\n" + general + "\n\n"
  {
    MarkersPlain();
    var tail := "\n" + general + "\n\n";
    assert BeforeOf(general) == GeneralLabel + tail;
    ReplaceHere(tail, GeneralLabel, "");
    assert tail == "\n" + (general + "\n\n");
    ContainsSkip("\n", general + "\n\n", GeneralLabel);
    ContainsAppendMissing(general, "\n\n", GeneralLabel);
    ReplaceAbsent(tail, GeneralLabel, "");
    assert "" + tail == tail;
  }

  lemma BetweenBreaks(general: string)
    requires Trimmed(general)
    ensures Strip("\n" + general + "\n\n") == general
  {
    StripFrame("\n", general, "\n\n");
  }

  // ---------------------------------------------------------------------
  // The blocks after "Habits:"

  /** A field line holds no line break and no "Habits:" when its value holds
      neither: its head has no "H" for an occurrence to start at. */
  lemma FieldLinePlain(key: string, value: string)
    requires 'H' !in key && '\n' !in key && !Contains(value, HabitsMarker) && '\n' !in value
    ensures '\n' !in FieldLine(key, value)
    ensures !Contains(FieldLine(key, value), HabitsMarker)
  {
    MarkersPlain();
    var head := Indent + key + " ";
    assert FieldLine(key, value) == head + value;
    ContainsSkip(head, value, HabitsMarker);
  }

  /** The name line holds no "Habits:" when the name holds none. */
  lemma NameLineLacksMarker(name: string)
    requires !Contains(name, HabitsMarker)
    ensures !Contains(NameLineOf(name), HabitsMarker)
  {
    MarkersPlain();
    assert NameLineOf(name) == (StepMarker + "**") + (name + "**");
    ContainsSkip(StepMarker + "**", name + "**", HabitsMarker);
    ContainsAppendMissing(name, "**", HabitsMarker);
  }

  /** "Habits:" does not occur after the first one: it has no line break, so
      it would have to lie within one line, and no line holds it. */
  lemma AfterHasNoMarker(name: string, desc: string, steps: string, basis: string, trailer: string)
    requires !Contains(name, HabitsMarker)
    requires !Contains(desc, HabitsMarker) && '\n' !in desc && !Contains(steps, HabitsMarker) && '\n' !in steps
    requires !Contains(basis, HabitsMarker) && '\n' !in basis && !Contains(trailer, HabitsMarker)
    ensures !Contains(AfterOf(name, desc, steps, basis, trailer), HabitsMarker)
  {
    NameLineLacksMarker(name);
    var d := FieldLine(DescriptionLabel, desc);
    var i := FieldLine(ImplementationLabel, steps);
    var b := FieldLine(BasisLabel, basis);
    assert !Contains(d, HabitsMarker) by {
      DescriptionLabelPlain();
      FieldLinePlain(DescriptionLabel, desc);
    }
    assert !Contains(i, HabitsMarker) by {
      ImplementationLabelPlain();
      FieldLinePlain(ImplementationLabel, steps);
    }
    assert !Contains(b, HabitsMarker) by {
      BasisLabelPlain();
      FieldLinePlain(BasisLabel, basis);
    }
    assert '\n' !in HabitsMarker by {
      MarkersPlain();
    }
    LinesLackSub(NameLineOf(name), d, i, b, trailer, HabitsMarker);
  }

  /** A text made of lines each lacking `sub` lacks `sub` when `sub` has no line break. */
  lemma LinesLackSub(n: string, d: string, i: string, b: string, t: string, sub: string)
    requires '\n' !in sub
    requires !Contains(n, sub) && !Contains(d, sub) && !Contains(i, sub)
    requires !Contains(b, sub) && !Contains(t, sub)
    ensures !Contains("\n" + (n + "\n" + d + "\n" + i + "\n" + b) + "\n\n" + t, sub)
  {
    var block := n + "\n" + d + "\n" + i + "\n" + b;
    assert !Contains(block, sub) by {
      ContainsAcross(n, '\n', d, sub);
      ContainsAcross(n + "\n" + d, '\n', i, sub);
      ContainsAcross(n + "\n" + d + "\n" + i, '\n', b, sub);
    }
    FramedLacksSub(block, t, sub);
  }

  lemma FramedLacksSub(block: string, t: string, sub: string)
    requires '\n' !in sub && !Contains(block, sub) && !Contains(t, sub)
    ensures !Contains("\n" + block + "\n\n" + t, sub)
  {
    ShortNotContains("", sub);
    ContainsAcross("", '\n', block, sub);
    assert "" + "\n" + block == "\n" + block;
    ContainsAcross("\n" + block, '\n', "", sub);
    ContainsAcross("\n" + block + "\n" + "", '\n', t, sub);
    assert "\n" + block + "\n" + "" + "\n" + t == "\n" + block + "\n\n" + t;
  }

  /** The habit block is its four lines joined by line breaks, and splits
      back into them. */
  lemma BlockLines(name: string, desc: string, steps: string, basis: string)
    requires '\n' !in name && '\n' !in desc && '\n' !in steps && '\n' !in basis
    ensures Join(BlockLinesOf(name, desc, steps, basis), "\n") == BlockOf(name, desc, steps, basis)
    ensures Split(BlockOf(name, desc, steps, basis), LineSeparator) == BlockLinesOf(name, desc, steps, basis)
    ensures var lines := BlockLinesOf(name, desc, steps, basis);
      forall k :: 0 <= k < |lines| ==> lines[k] != [] && '\n' !in lines[k]
  {
    var n := NameLineOf(name);
    var d := FieldLine(DescriptionLabel, desc);
    var i := FieldLine(ImplementationLabel, steps);
    var b := FieldLine(BasisLabel, basis);
    assert n != [] && '\n' !in n by {
      MarkersPlain();
    }
    assert d != [] && '\n' !in d by {
      MarkersPlain();
      DescriptionLabelPlain();
    }
    assert i != [] && '\n' !in i by {
      MarkersPlain();
      ImplementationLabelPlain();
    }
    assert b != [] && '\n' !in b by {
      MarkersPlain();
      BasisLabelPlain();
    }
    assert LineSeparator == "\n" by {
      MarkersPlain();
    }
    FourLines(n, d, i, b);
  }

  /** Four non-empty lines without a line break, joined by line breaks, split back into them. */
  lemma FourLines(n: string, d: string, i: string, b: string)
    requires n != [] && d != [] && i != [] && b != []
    requires '\n' !in n && '\n' !in d && '\n' !in i && '\n' !in b
    ensures Join([n, d, i, b], "\n") == n + "\n" + d + "\n" + i + "\n" + b
    ensures Split(n + "\n" + d + "\n" + i + "\n" + b, "\n") == [n, d, i, b]
    ensures forall k :: 0 <= k < 4 ==> [n, d, i, b][k] != [] && '\n' !in [n, d, i, b][k]
  {
    var lines := [n, d, i, b];
    assert lines[1..][1..][1..] == [b];
    assert lines[1..][1..] == [i, b];
    assert lines[1..] == [d, i, b];
    assert Join([b], "\n") == b;
    assert Join([i, b], "\n") == i + "\n" + b;
    assert Join([d, i, b], "\n") == d + "\n" + (i + "\n" + b);
    assert Join(lines, "\n") == n + "\n" + d + "\n" + i + "\n" + b;
    SplitJoinedLines(lines, '\n');
  }

  /** The text after the marker, stripped, splits into the habit block and
      the closing line. */
  lemma BlocksOfLayout(name: string, desc: string, steps: string, basis: string, trailer: string)
    requires '\n' !in name && '\n' !in desc && '\n' !in steps && '\n' !in basis
    requires basis != [] && Trimmed(trailer) && '\n' !in trailer
    ensures Split(Strip(AfterOf(name, desc, steps, basis, trailer)), BlockSeparator)
         == [BlockOf(name, desc, steps, basis), trailer]
  {
    var block := BlockOf(name, desc, steps, basis);
    AfterStripped(name, desc, steps, basis, trailer);
    BlockClean(name, desc, steps, basis);
    assert BlockSeparator == "\n\n";
    assert BlockSeparator[..|BlockSeparator| - 1] == "\n";
    SplitAfterClean(block, trailer, BlockSeparator);
    MissingChar(trailer, BlockSeparator, 0);
    NoSepSplit(trailer, BlockSeparator);
  }

  /** Stripping the text after the marker only drops its leading line break. */
  lemma AfterStripped(name: string, desc: string, steps: string, basis: string, trailer: string)
    requires Trimmed(trailer)
    ensures Strip(AfterOf(name, desc, steps, basis, trailer)) == BlockOf(name, desc, steps, basis) + "\n\n" + trailer
  {
    MarkersPlain();
    var core := BlockOf(name, desc, steps, basis) + "\n\n" + trailer;
    assert AfterOf(name, desc, steps, basis, trailer) == "\n" + core + "";
    assert core[0] == '1';
    StripFrame("\n", core, "");
  }

  /** No blank line inside the habit block, nor at its end. */
  lemma BlockClean(name: string, desc: string, steps: string, basis: string)
    requires '\n' !in name && '\n' !in desc && '\n' !in steps && '\n' !in basis
    ensures !Contains(BlockOf(name, desc, steps, basis) + "\n", "\n\n")
  {
    BlockLines(name, desc, steps, basis);
    JoinLinesClean(BlockLinesOf(name, desc, steps, basis), '\n');
  }

  /** A closing line without a line break is a one-line block. */
  lemma TrailerIsSkipped(trailer: string)
    requires Trimmed(trailer) && '\n' !in trailer
    ensures HabitsOf(trailer) == []
  {
    StripKeepsTrimmed(trailer);
    MissingChar(trailer, LineSeparator, 0);
    NoSepSplit(trailer, LineSeparator);
    HabitOfLines(trailer, [trailer]);
  }

  // ---------------------------------------------------------------------
  // The habit block

  lemma BlockGivesHabit(name: string, desc: string, steps: string, basis: string)
    requires '\n' !in name && !Contains(name, "**")
    requires Trimmed(desc) && '\n' !in desc && !Contains(desc, "**")
    requires steps != [] && !IsSpace(steps[|steps| - 1]) && '\n' !in steps
    requires Trimmed(basis) && '\n' !in basis && !Contains(basis, "**")
    ensures HabitsOf(BlockOf(name, desc, steps, basis)) == [Habit(StepMarker + name, desc, [], basis)]
  {
    var block := BlockOf(name, desc, steps, basis);
    var lines := BlockLinesOf(name, desc, steps, basis);
    BlockSplitsIntoLines(name, desc, steps, basis);
    NameOfLine(name);
    DescriptionOfLine(desc);
    assert lines[2..] == [FieldLine(ImplementationLabel, steps), FieldLine(BasisLabel, basis)];
    StepsOfFieldLines(steps, basis);
    BasisOfLine(basis);
    HabitOfLines(block, lines);
  }

  /** The stripped block splits into its four lines. */
  lemma BlockSplitsIntoLines(name: string, desc: string, steps: string, basis: string)
    requires '\n' !in name && '\n' !in desc && '\n' !in steps
    requires Trimmed(basis) && '\n' !in basis
    ensures Split(Strip(BlockOf(name, desc, steps, basis)), LineSeparator) == BlockLinesOf(name, desc, steps, basis)
  {
    var block := BlockOf(name, desc, steps, basis);
    assert block[0] == '1' by {
      MarkersPlain();
    }
    assert block[|block| - 1] == basis[|basis| - 1];
    StripKeepsTrimmed(block);
    BlockLines(name, desc, steps, basis);
  }

  lemma DescriptionOfLine(desc: string)
    requires Trimmed(desc) && !Contains(desc, "**")
    ensures LabelledField(FieldLine(DescriptionLabel, desc), DescriptionLabel, NoDescription) == desc
  {
    DescriptionLabelPlain();
    FieldOfLine(DescriptionLabel, desc, NoDescription);
  }

  lemma BasisOfLine(basis: string)
    requires Trimmed(basis) && !Contains(basis, "**")
    ensures LabelledField(FieldLine(BasisLabel, basis), BasisLabel, NoBasis) == basis
  {
    BasisLabelPlain();
    FieldOfLine(BasisLabel, basis, NoBasis);
  }

  /** The name line loses its two "**" and keeps its "1. ". */
  lemma NameOfLine(name: string)
    requires !Contains(name, "**")
    ensures HabitName(NameLineOf(name)) == StepMarker + name
  {
    var line := NameLineOf(name);
    assert line[0] == '1' && line[|line| - 1] == '*' by {
      MarkersPlain();
    }
    StripKeepsTrimmed(line);
    assert '*' !in StepMarker by {
      MarkersPlain();
    }
    DropPairs(StepMarker, name);
  }

  /** `prefix + "**" + name + "**"` with every "**" removed is `prefix + name`. */
  lemma DropPairs(prefix: string, name: string)
    requires '*' !in prefix && !Contains(name, "**")
    ensures ReplaceAll(prefix + "**" + name + "**", "**", "") == prefix + name
  {
    assert "**" == ['*', '*'];
    ReplaceFramedPair(prefix, name, '*');
  }

  /** A field line `Indent + key + " " + value` gives `value` when the key
      starts with "**" and the value holds no "**". */
  lemma FieldOfLine(key: string, value: string, fallback: string)
    requires |key| >= 2 && key[..2] == "**"
    requires !Contains(value, "**") && Trimmed(value)
    ensures LabelledField(FieldLine(key, value), key, fallback) == value
  {
    MarkersPlain();
    var line := FieldLine(key, value);
    var sep := key + " ";
    ContainsItself(Indent, key, " " + value);
    assert Indent + key + (" " + value) == line;
    CleanByMissingFirst(Indent, sep);
    assert line == Indent + sep + value;
    SplitAfterClean(Indent, value, sep);
    assert !Contains(value, sep) by {
      assert sep == "**" + sep[2..];
      if Contains(value, sep) {
        ContainsLonger(value, "**", sep[2..]);
      }
    }
    NoSepSplit(value, sep);
    StripKeepsTrimmed(value);
  }

  /** A field line, once stripped, starts with the dash, so not with "1. ". */
  lemma FieldLineGivesNoStep(key: string, value: string)
    requires value != [] && !IsSpace(value[|value| - 1])
    ensures StepOf(FieldLine(key, value)) == []
  {
    MarkersPlain();
    var core := "- " + key + " " + value;
    assert FieldLine(key, value) == "   " + core + "";
    assert Strip(FieldLine(key, value)) == core by {
      StripFrame("   ", core, "");
    }
    FirstCharDiffers(core, StepMarker);
    StepOfLine(FieldLine(key, value));
  }

  /** Neither of the two last lines adds a step. */
  lemma StepsOfFieldLines(steps: string, basis: string)
    requires steps != [] && !IsSpace(steps[|steps| - 1])
    requires basis != [] && !IsSpace(basis[|basis| - 1])
    ensures Steps([FieldLine(ImplementationLabel, steps), FieldLine(BasisLabel, basis)]) == []
  {
    FieldLineGivesNoStep(ImplementationLabel, steps);
    FieldLineGivesNoStep(BasisLabel, basis);
    NoStepsInTwo(FieldLine(ImplementationLabel, steps), FieldLine(BasisLabel, basis));
  }

  lemma NoStepsInTwo(x: string, y: string)
    requires StepOf(x) == [] && StepOf(y) == []
    ensures Steps([x, y]) == []
  {
    FlatMapAppend(StepOf, [x], [y]);
    FlatMapSingle(StepOf, x);
    FlatMapSingle(StepOf, y);
    assert [x, y] == [x] + [y];
  }
}
