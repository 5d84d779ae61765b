/**
 * The reply extractor of the API service: the language model's free-text
 * reply is cut into a general analysis and a list of recommended habits by
 * plain string slicing (`format_ai_response` in api/api.py).
 *
 * `FormatReply` and the functions it is built from specify the extraction;
 * `FormatAiResponse` is the loop-based procedure of the source, proved equal
 * to it; the lemmas state what the extraction does and does not do.
 */
module Extractor {
  import opened Wrappers
  import opened PyStr

  /** One recommended habit (`Habit` in api/api.py). */
  datatype Habit = Habit(
    name: string,
    description: string,
    implementation: seq<string>,
    scientificBasis: string)

  /** The extractor's result (`FormattedAnalysis`): always both keys. */
  datatype FormattedAnalysis = FormattedAnalysis(
    generalAnalysis: string,
    recommendedHabits: seq<Habit>)

  const HabitsMarker: string := "Habits:"
  const GeneralLabel: string := "GENERAL:"
  const BlockSeparator: string := "\n\n"
  const LineSeparator: string := "\n"
  const DescriptionLabel: string := "**Description:**"
  const ImplementationLabel: string := "**Implementation:**"
  const BasisLabel: string := "**Scientific Basis:**"
  const StepMarker: string := "1. "
  const NoDescription: string := "No description provided"
  const NoBasis: string := "No scientific basis provided"

  /** The habit name: the block's first line, stripped, every "**" removed. */
  function HabitName(line: string): string {
    ReplaceAll(Strip(line), "**", "")
  }

  /** A labelled field: when `key` occurs in `line`, the stripped text after
      the last `key + " "` (the whole line when only the key without the
      space occurs); otherwise the fixed fallback. */
  function LabelledField(line: string, key: string, fallback: string): string {
    if Contains(line, key) then Strip(LastPiece(line, key + " ")) else fallback
  }

  /** What one line at index 2 or later adds to the implementation steps. */
  function StepOf(line: string): seq<string> {
    var t := Strip(line);
    if StartsWith(t, ImplementationLabel) then []
    else if StartsWith(t, StepMarker) then
      var pieces := SplitOnce(t, ". ");
      [pieces[|pieces| - 1]]
    else []
  }

  /** The implementation steps drawn from `lines`, in order. */
  function Steps(lines: seq<string>): seq<string> {
    FlatMap(StepOf, lines)
  }

  /** The habit a block yields, or None for a blank block or one with fewer
      than four lines. */
  function SectionHabit(section: string): Option<Habit> {
    if Strip(section) == "" then None
    else
      var lines := Split(Strip(section), LineSeparator);
      if |lines| < 4 then None
      else Some(Habit(
        HabitName(lines[0]),
        LabelledField(lines[1], DescriptionLabel, NoDescription),
        Steps(lines[2..]),
        LabelledField(lines[|lines| - 1], BasisLabel, NoBasis)))
  }

  /** The habits of a sequence of blocks, skipped blocks left out, in order. */
  function SectionHabits(sections: seq<string>): seq<Habit> {
    FlatMap(HabitsOf, sections)
  }

  /** A block's habit as a list of zero or one. */
  function HabitsOf(section: string): seq<Habit> {
    match SectionHabit(section) case Some(h) => [h] case None => []
  }

  /** `f` applied to each element, the results concatenated in order. */
  function FlatMap<T, U>(f: T -> seq<U>, xs: seq<T>): seq<U> {
    if xs == [] then [] else f(xs[0]) + FlatMap(f, xs[1..])
  }

  lemma SliceExtend<T>(s: seq<T>, i: nat, j: nat)
    requires i <= j < |s|
    ensures s[i..j + 1] == s[i..j] + [s[j]]
  {
  }

  lemma FlatMapSingle<T, U>(f: T -> seq<U>, x: T)
    ensures FlatMap(f, [x]) == f(x)
  {
    assert [x][1..] == [];
  }

  lemma {:induction false} FlatMapAppend<T, U>(f: T -> seq<U>, a: seq<T>, b: seq<T>)
    ensures FlatMap(f, a + b) == FlatMap(f, a) + FlatMap(f, b)
    decreases |a|
  {
    if a == [] {
      assert a + b == b;
    } else {
      FlatMapAppend(f, a[1..], b);
      assert (a + b)[1..] == a[1..] + b;
    }
  }

  /** The whole extraction. The `else` of the general analysis is unreachable:
      a split always has a first piece. */
  function FormatReply(content: string): FormattedAnalysis {
    var parts := Split(content, HabitsMarker);
    var general := if |parts| > 0 then Strip(ReplaceAll(parts[0], GeneralLabel, "")) else Strip(content);
    var habits := if |parts| > 1 then SectionHabits(Split(Strip(parts[1]), BlockSeparator)) else [];
    FormattedAnalysis(general, habits)
  }

  /** `format_ai_response`: the loop over the blocks, with the loop over a
      block's lines from index 2 on in `BlockSteps`. Every indexing is in
      range, so the source's exception handler never runs. */
  method FormatAiResponse(content: string) returns (r: FormattedAnalysis)
    ensures r == FormatReply(content)
  {
    var parts := Split(content, HabitsMarker);
    var general := if |parts| > 0 then Strip(ReplaceAll(parts[0], GeneralLabel, "")) else Strip(content);
    var habits: seq<Habit> := [];
    if |parts| > 1 {
      var sections := Split(Strip(parts[1]), BlockSeparator);
      for i := 0 to |sections|
        invariant habits == SectionHabits(sections[..i])
      {
        var found := BlockHabit(sections[i]);
        habits := habits + found;
        SectionHabitsExtend(sections, i);
      }
      assert sections[..|sections|] == sections;
    }
    r := FormattedAnalysis(general, habits);
  }

  /** The body of the loop over the blocks: the block's habit, if any. */
  method BlockHabit(section: string) returns (found: seq<Habit>)
    ensures found == HabitsOf(section)
    ensures |found| <= 1
  {
    found := [];
    if Strip(section) != "" {
      var lines := Split(Strip(section), LineSeparator);
      HabitOfLines(section, lines);
      if |lines| >= 4 {
        var name := HabitName(lines[0]);
        var description := LabelledField(lines[1], DescriptionLabel, NoDescription);
        var implementation := BlockSteps(lines);
        var basis := LabelledField(lines[|lines| - 1], BasisLabel, NoBasis);
        found := [Habit(name, description, implementation, basis)];
      }
    } else {
      BlankBlock(section);
    }
  }

  /** The loop over a block's lines from index 2 on. */
  method BlockSteps(lines: seq<string>) returns (implementation: seq<string>)
    requires |lines| >= 2
    ensures implementation == Steps(lines[2..])
  {
    implementation := [];
    for j := 2 to |lines|
      invariant implementation == Steps(lines[2..j])
    {
      StepsExtend(lines, 2, j);
      var line := Strip(lines[j]);
      if StartsWith(line, ImplementationLabel) {
        // the source skips the label line with `continue`
      } else if StartsWith(line, StepMarker) {
        var pieces := SplitOnce(line, ". ");
        implementation := implementation + [pieces[|pieces| - 1]];
      }
    }
    assert lines[2..|lines|] == lines[2..];
  }

  // ---------------------------------------------------------------------
  // The steps of a block

  lemma StepsAppend(a: seq<string>, b: seq<string>)
    ensures Steps(a + b) == Steps(a) + Steps(b)
  {
    FlatMapAppend(StepOf, a, b);
  }

  /** One more line of a slice adds that line's step, if any. */
  lemma StepsExtend(lines: seq<string>, i: nat, j: nat)
    requires i <= j < |lines|
    ensures Steps(lines[i..j + 1]) == Steps(lines[i..j]) + StepOf(lines[j])
  {
    SliceExtend(lines, i, j);
    StepsAppend(lines[i..j], [lines[j]]);
    FlatMapSingle(StepOf, lines[j]);
  }

  /** One line contributes exactly one step when its stripped form starts
      with "1. ", that text without the "1. "; any other line, the
      "**Implementation:**" key and "2. " lines included, contributes none. */
  lemma StepOfLine(line: string)
    ensures StepOf(line) == if StartsWith(Strip(line), StepMarker) then [Strip(line)[3..]] else []
  {
    var t := Strip(line);
    if StartsWith(t, StepMarker) {
      SplitOnceNumbered(t);
      assert !StartsWith(t, ImplementationLabel) by { assert t[0] == '1'; }
    }
  }

  /** The steps are exactly the lines whose stripped form starts with "1. ",
      each without that marker, and no more of them than there are lines. */
  lemma {:induction false} StepsMembers(lines: seq<string>)
    ensures |Steps(lines)| <= |lines|
    ensures forall s :: s in Steps(lines) <==>
      exists k :: 0 <= k < |lines| && StartsWith(Strip(lines[k]), StepMarker) && s == Strip(lines[k])[3..]
    decreases |lines|
  {
    if lines != [] {
      StepsMembers(lines[1..]);
      StepOfLine(lines[0]);
      forall s ensures s in Steps(lines) <==>
        exists k :: 0 <= k < |lines| && StartsWith(Strip(lines[k]), StepMarker) && s == Strip(lines[k])[3..]
      {
        if s in Steps(lines[1..]) {
          var k :| 0 <= k < |lines[1..]| && StartsWith(Strip(lines[1..][k]), StepMarker) && s == Strip(lines[1..][k])[3..];
          assert lines[1..][k] == lines[k + 1];
        }
        if k :| 0 <= k < |lines| && StartsWith(Strip(lines[k]), StepMarker) && s == Strip(lines[k])[3..] {
          if k > 0 {
            assert lines[1..][k - 1] == lines[k];
          }
        }
      }
    }
  }

  // ---------------------------------------------------------------------
  // Blocks and the habits list

  lemma SectionHabitsAppend(a: seq<string>, b: seq<string>)
    ensures SectionHabits(a + b) == SectionHabits(a) + SectionHabits(b)
  {
    FlatMapAppend(HabitsOf, a, b);
  }

  /** One more block adds that block's habit, if any. */
  lemma SectionHabitsExtend(sections: seq<string>, i: nat)
    requires i < |sections|
    ensures SectionHabits(sections[..i + 1]) == SectionHabits(sections[..i]) + HabitsOf(sections[i])
  {
    assert sections[..i + 1] == sections[..i] + [sections[i]];
    SectionHabitsAppend(sections[..i], [sections[i]]);
    FlatMapSingle(HabitsOf, sections[i]);
  }

  /** Every habit comes from one of the blocks, each block that yields a habit
      contributes it, and there are at most as many habits as blocks. */
  lemma {:induction false} SectionHabitsMembers(sections: seq<string>)
    ensures |SectionHabits(sections)| <= |sections|
    ensures forall h :: h in SectionHabits(sections) <==>
      exists k :: 0 <= k < |sections| && SectionHabit(sections[k]) == Some(h)
    decreases |sections|
  {
    if sections != [] {
      SectionHabitsMembers(sections[1..]);
      forall h ensures h in SectionHabits(sections) <==>
        exists k :: 0 <= k < |sections| && SectionHabit(sections[k]) == Some(h)
      {
        if h in SectionHabits(sections[1..]) {
          var k :| 0 <= k < |sections[1..]| && SectionHabit(sections[1..][k]) == Some(h);
          assert sections[1..][k] == sections[k + 1];
        }
        if k :| 0 <= k < |sections| && SectionHabit(sections[k]) == Some(h) {
          if k > 0 {
            assert sections[1..][k - 1] == sections[k];
          }
        }
      }
    }
  }

  /** The habit of a block, read off its lines. */
  lemma HabitOfLines(section: string, lines: seq<string>)
    requires Split(Strip(section), LineSeparator) == lines
    ensures |lines| < 4 ==> HabitsOf(section) == []
    ensures |lines| >= 4 ==> HabitsOf(section) == [Habit(
      HabitName(lines[0]),
      LabelledField(lines[1], DescriptionLabel, NoDescription),
      Steps(lines[2..]),
      LabelledField(lines[|lines| - 1], BasisLabel, NoBasis))]
  {
    if Strip(section) == "" {
      assert lines == [""];
    }
  }

  /** A blank block yields no habit. */
  lemma BlankBlock(section: string)
    requires Strip(section) == ""
    ensures HabitsOf(section) == []
  {
  }

  /** A block yields a habit exactly when its stripped text holds at least
      three line breaks, that is, at least four lines; a blank block never does. */
  lemma SectionHabitIff(section: string)
    ensures SectionHabit(section).Some? <==> CountChar(Strip(section), '\n') >= 3
  {
    SplitCharCount(Strip(section), '\n');
  }

  /** The fields of a habit: a name without "**", a step list no longer than
      the block's lines after the first two. */
  lemma SectionHabitShape(section: string)
    requires SectionHabit(section).Some?
    ensures var h := SectionHabit(section).value;
      && !Contains(h.name, "**")
      && |h.implementation| <= |Split(Strip(section), LineSeparator)| - 2
  {
    var lines := Split(Strip(section), LineSeparator);
    HabitNameSpec(lines[0]);
    StepsMembers(lines[2..]);
  }

  // ---------------------------------------------------------------------
  // The fields

  /** The name never holds "**", and a leading "1. " is kept. */
  lemma HabitNameSpec(line: string)
    ensures !Contains(HabitName(line), "**")
    ensures StartsWith(Strip(line), StepMarker) ==> StartsWith(HabitName(line), StepMarker)
  {
    RemoveDoubledGone(Strip(line), '*');
    var t := Strip(line);
    if StartsWith(t, StepMarker) {
      assert t == StepMarker + t[3..];
      ReplaceSkip(StepMarker, t[3..], "**", "");
    }
  }

  /** A labelled field is the fallback when the key is absent; the whole
      stripped line when only the key without its trailing space occurs;
      otherwise the stripped text that follows the last `key + " "`, which
      itself holds no `key + " "`. */
  lemma LabelledFieldSpec(line: string, key: string, fallback: string)
    ensures !Contains(line, key) ==> LabelledField(line, key, fallback) == fallback
    ensures Contains(line, key) && !Contains(line, key + " ") ==>
      LabelledField(line, key, fallback) == Strip(line)
    ensures Contains(line, key + " ") ==>
      var rest := LastPiece(line, key + " ");
      && EndsWith(line, key + " " + rest)
      && !Contains(rest, key + " ")
      && LabelledField(line, key, fallback) == Strip(rest)
  {
    LastPieceSpec(line, key + " ");
    if Contains(line, key + " ") {
      var rest := LastPiece(line, key + " ");
      ContainsIffOccurs(line, key + " ");
      var i :| OccursAt(line, key + " ", i);
      assert line[i..i + |key|] == line[i..i + |key| + 1][..|key|];
      assert (key + " ")[..|key|] == key;
      assert OccursAt(line, key, i);
      ContainsIffOccurs(line, key);
    }
  }

  // ---------------------------------------------------------------------
  // The reply as a whole

  /** Without any "Habits:" the list is empty and the general analysis is the
      whole reply, every "GENERAL:" removed, stripped. */
  lemma NoMarkerNoHabits(content: string)
    requires !Contains(content, HabitsMarker)
    ensures FormatReply(content) == FormattedAnalysis(Strip(ReplaceAll(content, GeneralLabel, "")), [])
  {
    NoSepSplit(content, HabitsMarker);
  }

  /** A habit is only ever found after a "Habits:". */
  lemma HabitsNeedMarker(content: string)
    ensures FormatReply(content).recommendedHabits != [] ==> Contains(content, HabitsMarker)
  {
    if !Contains(content, HabitsMarker) {
      NoMarkerNoHabits(content);
    }
  }

  /** "Habits:" cannot begin inside a text that does not contain it. */
  lemma MarkerClean(a: string)
    requires !Contains(a, HabitsMarker)
    ensures Clean(a, HabitsMarker)
  {
    assert HabitsMarker[..6] == "Habits";
    CleanByLastChar(a, HabitsMarker);
  }

  /** The general analysis is the text before the first "Habits:", every
      "GENERAL:" removed, stripped, whatever follows. */
  lemma GeneralBeforeMarker(a: string, rest: string)
    requires !Contains(a, HabitsMarker)
    ensures FormatReply(a + HabitsMarker + rest).generalAnalysis == Strip(ReplaceAll(a, GeneralLabel, ""))
  {
    MarkerClean(a);
    SplitAfterClean(a, rest, HabitsMarker);
  }

  /** Only the text between the first and the second "Habits:" is parsed:
      neither what comes before the first nor what follows the second makes
      any difference to the habits. */
  lemma OnlyFirstHabitsSection(a: string, b: string, c: string)
    requires !Contains(a, HabitsMarker) && !Contains(b, HabitsMarker)
    ensures FormatReply(a + HabitsMarker + b + HabitsMarker + c).recommendedHabits
         == FormatReply(HabitsMarker + b).recommendedHabits
         == SectionHabits(Split(Strip(b), BlockSeparator))
  {
    BetweenMarkers(a, b, c);
    AfterLoneMarker(b);
  }

  lemma BetweenMarkers(a: string, b: string, c: string)
    requires !Contains(a, HabitsMarker) && !Contains(b, HabitsMarker)
    ensures FormatReply(a + HabitsMarker + b + HabitsMarker + c).recommendedHabits
         == SectionHabits(Split(Strip(b), BlockSeparator))
  {
    MarkerClean(a);
    MarkerClean(b);
    SplitTwoClean(a, b, c, HabitsMarker);
    HabitsOfParts(a + HabitsMarker + b + HabitsMarker + c, [a, b] + Split(c, HabitsMarker));
  }

  lemma AfterLoneMarker(b: string)
    requires !Contains(b, HabitsMarker)
    ensures FormatReply(HabitsMarker + b).recommendedHabits == SectionHabits(Split(Strip(b), BlockSeparator))
  {
    MarkerClean("");
    SplitAfterClean("", b, HabitsMarker);
    assert "" + HabitsMarker + b == HabitsMarker + b;
    NoSepSplit(b, HabitsMarker);
    HabitsOfParts(HabitsMarker + b, [""] + [b]);
  }

  /** The habits of a reply whose pieces around "Habits:" are known. */
  lemma HabitsOfParts(content: string, parts: seq<string>)
    requires Split(content, HabitsMarker) == parts && |parts| > 1
    ensures FormatReply(content).recommendedHabits == SectionHabits(Split(Strip(parts[1]), BlockSeparator))
  {
  }

  /** With a single "Habits:", the habits are those of the blocks after it,
      in order, and there are no more of them than blocks. */
  lemma HabitsFromBlocks(a: string, b: string)
    requires !Contains(a, HabitsMarker) && !Contains(b, HabitsMarker)
    ensures var blocks := Split(Strip(b), BlockSeparator);
      && FormatReply(a + HabitsMarker + b).recommendedHabits == SectionHabits(blocks)
      && |FormatReply(a + HabitsMarker + b).recommendedHabits| <= |blocks|
  {
    MarkerClean(a);
    SplitAfterClean(a, b, HabitsMarker);
    NoSepSplit(b, HabitsMarker);
    SectionHabitsMembers(Split(Strip(b), BlockSeparator));
  }
}
