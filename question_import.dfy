/** The text grammar of the question importer. A text is read as its lines
    (split at line feeds). A line "Câu <number>: <text>" opens a question;
    the lines up to the next such header are its answer group. Within a
    group, a line "A." to "D." opens an answer, whose text runs up to the
    next label line; an answer whose text ends with `*` is a correct one,
    and the star is not part of its content. Question and answer texts are
    trimmed. */
module QuestionImport {
  import opened Common

  datatype ParsedAnswer = ParsedAnswer(content: string, isCorrect: bool)

  datatype ParsedQuestion = ParsedQuestion(content: string, answers: seq<ParsedAnswer>)

  // ---------------------------------------------------------------------------
  // Characters and trimming
  // ---------------------------------------------------------------------------

  /** The characters `\s` matches in a Java regular expression. */
  predicate IsRegexSpace(c: char) {
    c == ' ' || c == '\t' || c == '\n' || c == '\U{000B}' || c == '\U{000C}' || c == '\r'
  }

  /** The characters `String.trim` removes: every code point up to U+0020. */
  predicate IsBlank(c: char) {
    c <= ' '
  }

  predicate IsDigit(c: char) {
    '0' <= c <= '9'
  }

  /** `\s*`: drops the leading regex spaces. */
  function SkipSpaces(s: string): (r: string)
    ensures |r| <= |s| && r == s[|s| - |r|..]
    ensures r == [] || !IsRegexSpace(r[0])
  {
    if |s| > 0 && IsRegexSpace(s[0]) then SkipSpaces(s[1..]) else s
  }

  /** `\d*`: drops the leading digits. */
  function SkipDigits(s: string): (r: string)
    ensures |r| <= |s| && r == s[|s| - |r|..]
    ensures r == [] || !IsDigit(r[0])
  {
    if |s| > 0 && IsDigit(s[0]) then SkipDigits(s[1..]) else s
  }

  function TrimStart(s: string): (r: string)
    ensures |r| <= |s|
  {
    if |s| > 0 && IsBlank(s[0]) then TrimStart(s[1..]) else s
  }

  function TrimEnd(s: string): string {
    if |s| > 0 && IsBlank(s[|s| - 1]) then TrimEnd(s[..|s| - 1]) else s
  }

  /** `String.trim`. */
  function Trim(s: string): string {
    TrimEnd(TrimStart(s))
  }

  lemma {:induction false} TrimStartShape(s: string)
    ensures var r := TrimStart(s);
            |r| <= |s| && r == s[|s| - |r|..] && (r == [] || !IsBlank(r[0]))
            && forall i :: 0 <= i < |s| - |r| ==> IsBlank(s[i])
  {
    if |s| > 0 && IsBlank(s[0]) {
      TrimStartShape(s[1..]);
    }
  }

  lemma {:induction false} TrimEndShape(s: string)
    ensures var r := TrimEnd(s);
            |r| <= |s| && r == s[..|r|] && (r == [] || !IsBlank(r[|r| - 1]))
            && forall i :: |r| <= i < |s| ==> IsBlank(s[i])
  {
    if |s| > 0 && IsBlank(s[|s| - 1]) {
      TrimEndShape(s[..|s| - 1]);
    }
  }

  /** A trimmed text is a stretch of the original with only blanks cut off on
      either side, and neither starts nor ends with a blank. */
  lemma {:induction false} TrimShape(s: string)
    ensures var r := Trim(s);
            var a := |s| - |TrimStart(s)|;
            (r == [] || (!IsBlank(r[0]) && !IsBlank(r[|r| - 1])))
            && a + |r| <= |s| && r == s[a..a + |r|]
            && (forall i :: 0 <= i < a ==> IsBlank(s[i]))
            && (forall i :: a + |r| <= i < |s| ==> IsBlank(s[i]))
  {
    var t := TrimStart(s);
    TrimStartShape(s);
    TrimEndShape(t);
    var r := TrimEnd(t);
    var a := |s| - |t|;
    assert r == s[a..a + |r|];
    if r != [] {
      assert r[0] == t[0];
    }
  }

  /** `trim` skips a leading blank. */
  lemma {:induction false} TrimBlank(c: char, rest: string)
    requires IsBlank(c)
    ensures Trim([c] + rest) == Trim(rest)
  {
    assert ([c] + rest)[1..] == rest;
    assert TrimStart([c] + rest) == TrimStart(rest);
  }

  /** Text that neither starts nor ends with a blank is left as it is. */
  lemma {:induction false} TrimKeeps(s: string)
    requires s == [] || (!IsBlank(s[0]) && !IsBlank(s[|s| - 1]))
    ensures Trim(s) == s
  {
  }

  // ---------------------------------------------------------------------------
  // Lines that open a block
  // ---------------------------------------------------------------------------

  /** A line opening an answer: one of the letters A to D followed by a dot. */
  predicate IsAnswerLabel(line: string) {
    |line| >= 2 && (line[0] == 'A' || line[0] == 'B' || line[0] == 'C' || line[0] == 'D') && line[1] == '.'
  }

  /** For a header line "Câu", spaces, digits, optional spaces and a colon:
      what follows the colon. */
  function HeaderRest(line: string): Option<string> {
    if |line| < 3 || line[..3] != "Câu" then None else NumberRest(line[3..])
  }

  /** What follows the colon, in the text after the word "Câu". */
  function NumberRest(afterWord: string): Option<string> {
    var atNumber := SkipSpaces(afterWord);
    if |atNumber| == |afterWord| then None
    else
      var afterNumber := SkipDigits(atNumber);
      if |afterNumber| == |atNumber| then None else ColonRest(SkipSpaces(afterNumber))
  }

  /** What follows the colon, in the text from the colon on. */
  function ColonRest(atColon: string): Option<string> {
    if |atColon| == 0 || atColon[0] != ':' then None else Some(atColon[1..])
  }

  predicate IsQuestionHeader(line: string) {
    HeaderRest(line).Some?
  }

  // ---------------------------------------------------------------------------
  // Splitting lines into blocks
  // ---------------------------------------------------------------------------

  /** The lines grouped into blocks, each opened by a line `opens` accepts and
      running up to the next such line; lines before the first opening line
      belong to no block. Defined one line at a time, from the end. */
  function Blocks(opens: string -> bool, lines: seq<string>): seq<seq<string>>
    decreases |lines|
  {
    if |lines| == 0 then []
    else AddLine(opens, Blocks(opens, lines[..|lines| - 1]), lines[|lines| - 1])
  }

  /** One step of the split: an opening line starts a new block, any other
      line joins the last block, or is dropped before the first one. */
  function AddLine(opens: string -> bool, blocks: seq<seq<string>>, line: string): seq<seq<string>> {
    if opens(line) then blocks + [[line]]
    else if |blocks| == 0 then []
    else blocks[..|blocks| - 1] + [blocks[|blocks| - 1] + [line]]
  }

  lemma {:induction false} BlocksSnoc(opens: string -> bool, init: seq<string>, line: string)
    ensures Blocks(opens, init + [line]) == AddLine(opens, Blocks(opens, init), line)
  {
    assert (init + [line])[..|init|] == init;
  }

  /** A step after nonempty blocks only touches those blocks. */
  lemma {:induction false} AddLineAppend(opens: string -> bool, b: seq<seq<string>>, c: seq<seq<string>>, line: string)
    requires |c| > 0
    ensures AddLine(opens, b + c, line) == b + AddLine(opens, c, line)
  {
    if !opens(line) {
      assert (b + c)[..|b + c| - 1] == b + c[..|c| - 1];
      assert (b + c)[|b + c| - 1] == c[|c| - 1];
    }
  }

  /** The blocks laid end to end. */
  function Concat(blocks: seq<seq<string>>): seq<string> {
    if |blocks| == 0 then [] else Concat(blocks[..|blocks| - 1]) + blocks[|blocks| - 1]
  }

  /** The position of the first line that opens a block, or the number of lines. */
  function FirstStart(opens: string -> bool, lines: seq<string>): (r: nat)
    ensures r <= |lines|
    ensures r < |lines| ==> opens(lines[r])
    ensures forall k :: 0 <= k < r ==> !opens(lines[k])
  {
    if |lines| == 0 || opens(lines[0]) then 0 else 1 + FirstStart(opens, lines[1..])
  }

  predicate WellFormedBlock(opens: string -> bool, b: seq<string>) {
    |b| > 0 && opens(b[0]) && forall k :: 1 <= k < |b| ==> !opens(b[k])
  }

  lemma {:induction false} ConcatSnoc(blocks: seq<seq<string>>, b: seq<string>)
    ensures Concat(blocks + [b]) == Concat(blocks) + b
  {
    assert (blocks + [b])[..|blocks|] == blocks;
  }

  /** The first opening line of `init + [last]`. */
  lemma {:induction false} FirstStartSnoc(opens: string -> bool, init: seq<string>, last: string)
    ensures FirstStart(opens, init + [last])
            == if FirstStart(opens, init) < |init| || opens(last) then FirstStart(opens, init) else |init| + 1
    decreases |init|
  {
    if |init| > 0 && !opens(init[0]) {
      assert (init + [last])[1..] == init[1..] + [last];
      FirstStartSnoc(opens, init[1..], last);
    }
  }

  /** A step adds its line at the end of the blocks laid end to end, unless
      the line is dropped. */
  lemma {:induction false} ConcatAddLine(opens: string -> bool, blocks: seq<seq<string>>, line: string)
    ensures Concat(AddLine(opens, blocks, line))
            == if opens(line) || |blocks| > 0 then Concat(blocks) + [line] else []
  {
    var r := AddLine(opens, blocks, line);
    if opens(line) {
      assert r[..|r| - 1] == blocks;
    } else if |blocks| > 0 {
      var k := |blocks|;
      var pre := blocks[..k - 1];
      assert r[..|r| - 1] == pre;
      assert Concat(r) == Concat(pre) + (blocks[k - 1] + [line]);
    }
  }

  /** Blocks with a line each lay out no lines only when there are none. */
  lemma {:induction false} ConcatNonEmpty(opens: string -> bool, blocks: seq<seq<string>>)
    requires forall i :: 0 <= i < |blocks| ==> WellFormedBlock(opens, blocks[i])
    requires |blocks| > 0
    ensures |Concat(blocks)| > 0
  {
    assert WellFormedBlock(opens, blocks[|blocks| - 1]);
  }

  /** The first opening line of all lines, from that of all lines but the last. */
  lemma {:induction false} FirstStartLast(opens: string -> bool, lines: seq<string>)
    requires |lines| > 0
    ensures var f := FirstStart(opens, lines[..|lines| - 1]);
            FirstStart(opens, lines) == if f < |lines| - 1 || opens(lines[|lines| - 1]) then f else |lines|
  {
    var init := lines[..|lines| - 1];
    FirstStartSnoc(opens, init, lines[|lines| - 1]);
    assert lines == init + [lines[|lines| - 1]];
  }

  /** The covering property carries over from all lines but the last to all lines. */
  lemma {:induction false} BlocksCoverSnoc(opens: string -> bool, lines: seq<string>)
    requires |lines| > 0
    requires Concat(Blocks(opens, lines[..|lines| - 1])) == lines[..|lines| - 1][FirstStart(opens, lines[..|lines| - 1])..]
    ensures Concat(Blocks(opens, lines)) == lines[FirstStart(opens, lines)..]
  {
    var n := |lines|;
    var init := lines[..n - 1];
    var last := lines[n - 1];
    var prev := Blocks(opens, init);
    FirstStartLast(opens, lines);
    ConcatAddLine(opens, prev, last);
    if !opens(last) && FirstStart(opens, init) == n - 1 && |prev| > 0 {
      BlocksWellFormed(opens, init);
      ConcatNonEmpty(opens, prev);
      assert false;
    }
    if FirstStart(opens, lines) < n {
      SuffixSnoc(lines, FirstStart(opens, lines));
    }
  }

  /** The lines from `f` on are those of all lines but the last, then the last. */
  lemma {:induction false} SuffixSnoc(lines: seq<string>, f: nat)
    requires f < |lines|
    ensures lines[f..] == lines[..|lines| - 1][f..] + [lines[|lines| - 1]]
  {
  }

  /** Splitting loses nothing and invents nothing: the blocks laid end to end
      give back the lines from the first opening line on. */
  lemma {:induction false} BlocksCover(opens: string -> bool, lines: seq<string>)
    ensures Concat(Blocks(opens, lines)) == lines[FirstStart(opens, lines)..]
    decreases |lines|
  {
    if |lines| > 0 {
      BlocksCover(opens, lines[..|lines| - 1]);
      BlocksCoverSnoc(opens, lines);
    }
  }

  /** Every block starts with an opening line, and no other line of a block
      opens one. */
  lemma {:induction false} BlocksWellFormed(opens: string -> bool, lines: seq<string>)
    ensures forall i :: 0 <= i < |Blocks(opens, lines)| ==> WellFormedBlock(opens, Blocks(opens, lines)[i])
    decreases |lines|
  {
    if |lines| > 0 {
      var n := |lines|;
      BlocksWellFormed(opens, lines[..n - 1]);
      var prev := Blocks(opens, lines[..n - 1]);
      var blocks := Blocks(opens, lines);
      if !opens(lines[n - 1]) && |prev| > 0 {
        var k := |prev|;
        forall i | 0 <= i < |blocks| ensures WellFormedBlock(opens, blocks[i]) {
          if i < k - 1 {
            assert blocks[i] == prev[i];
          } else {
            assert WellFormedBlock(opens, prev[k - 1]);
          }
        }
      }
    }
  }

  /** Text that begins with an opening line splits into at least one block. */
  lemma {:induction false} BlocksNonEmpty(opens: string -> bool, lines: seq<string>)
    requires |lines| > 0 && opens(lines[0])
    ensures |Blocks(opens, lines)| > 0
    decreases |lines|
  {
    var n := |lines|;
    if n > 1 {
      var init := lines[..n - 1];
      assert init[0] == lines[0];
      BlocksNonEmpty(opens, init);
    }
  }

  /** Splitting text that begins with an opening line, after other text:
      the blocks of the two parts side by side. */
  lemma {:induction false} BlocksAppend(opens: string -> bool, xs: seq<string>, ys: seq<string>)
    requires |ys| > 0 && opens(ys[0])
    ensures Blocks(opens, xs + ys) == Blocks(opens, xs) + Blocks(opens, ys)
    decreases |ys|
  {
    var n := |ys|;
    var last := ys[n - 1];
    var init := ys[..n - 1];
    var all := xs + ys;
    assert all[..|all| - 1] == xs + init;
    var before := Blocks(opens, xs + init);
    assert Blocks(opens, all) == AddLine(opens, before, last);
    assert Blocks(opens, ys) == AddLine(opens, Blocks(opens, init), last);
    if n == 1 {
      assert xs + init == xs;
    } else {
      assert init[0] == ys[0];
      BlocksAppend(opens, xs, init);
      BlocksNonEmpty(opens, init);
      AddLineAppend(opens, Blocks(opens, xs), Blocks(opens, init), last);
    }
  }

  /** Imperative splitting, one line at a time, as the matcher loop scans. */
  method SplitBlocks(opens: string -> bool, lines: seq<string>) returns (blocks: seq<seq<string>>)
    ensures blocks == Blocks(opens, lines)
  {
    blocks := [];
    var i := 0;
    while i < |lines|
      invariant 0 <= i <= |lines|
      invariant blocks == Blocks(opens, lines[..i])
    {
      var line := lines[i];
      assert lines[..i + 1][..i] == lines[..i];
      if opens(line) {
        blocks := blocks + [[line]];
      } else if |blocks| > 0 {
        blocks := blocks[..|blocks| - 1] + [blocks[|blocks| - 1] + [line]];
      }
      i := i + 1;
    }
    assert lines[..i] == lines;
  }

  // ---------------------------------------------------------------------------
  // Answers
  // ---------------------------------------------------------------------------

  /** The lines joined with line feeds. */
  function Join(lines: seq<string>): string {
    if |lines| == 0 then ""
    else if |lines| == 1 then lines[0]
    else Join(lines[..|lines| - 1]) + "\n" + lines[|lines| - 1]
  }

  /** The answer an answer block yields. Its text is what follows the label,
      continuation lines included, with leading spaces skipped; when the
      block is the last of its group, one final line feed is not part of it.
      A text of at least two characters ending with a star is a correct
      answer without the star. An empty text yields no answer: the model
      drops the block, where the program's lazy match runs on into the next
      label and takes that whole block, label included, as this answer's text. */
  function AnswerOf(block: seq<string>, isLast: bool): Option<ParsedAnswer>
    requires |block| > 0 && |block[0]| >= 2
  {
    var kept := if isLast && |block| > 1 && block[|block| - 1] == "" then block[..|block| - 1] else block;
    ReadAnswer(SkipSpaces(Join([kept[0][2..]] + kept[1..])))
  }

  /** The answer an answer text denotes, its label and leading spaces gone. */
  function ReadAnswer(text: string): Option<ParsedAnswer> {
    if |text| == 0 then None
    else if |text| >= 2 && text[|text| - 1] == '*' then Some(ParsedAnswer(Trim(text[..|text| - 1]), true))
    else Some(ParsedAnswer(Trim(text), false))
  }

  /** The values present, in order. */
  function Present<T>(xs: seq<Option<T>>): seq<T> {
    if |xs| == 0 then []
    else Present(xs[..|xs| - 1]) + (if xs[|xs| - 1].Some? then [xs[|xs| - 1].value] else [])
  }

  lemma {:induction false} PresentSnoc<T>(xs: seq<Option<T>>, i: nat)
    requires i < |xs|
    ensures Present(xs[..i + 1]) == Present(xs[..i]) + (if xs[i].Some? then [xs[i].value] else [])
  {
    assert xs[..i + 1][..i] == xs[..i];
  }

  lemma {:induction false} PresentLength<T>(xs: seq<Option<T>>)
    ensures |Present(xs)| <= |xs|
    ensures |Present(xs)| == |xs| <==> forall i :: 0 <= i < |xs| ==> xs[i].Some?
  {
    if |xs| > 0 {
      PresentLength(xs[..|xs| - 1]);
      assert forall i :: 0 <= i < |xs| - 1 ==> xs[i] == xs[..|xs| - 1][i];
    }
  }

  function AnswerOptions(blocks: seq<seq<string>>): seq<Option<ParsedAnswer>>
    requires forall i :: 0 <= i < |blocks| ==> WellFormedBlock(IsAnswerLabel, blocks[i])
  {
    seq(|blocks|, i requires 0 <= i < |blocks| =>
      assert WellFormedBlock(IsAnswerLabel, blocks[i]); AnswerOf(blocks[i], i == |blocks| - 1))
  }

  /** parseAnswers on the lines of an answer group. */
  function ParseAnswersSpec(group: seq<string>): seq<ParsedAnswer> {
    var blocks := Blocks(IsAnswerLabel, group);
    BlocksWellFormed(IsAnswerLabel, group);
    Present(AnswerOptions(blocks))
  }

  /** parseAnswers, one block at a time, collecting the answers found. */
  method ParseAnswers(group: seq<string>) returns (answers: seq<ParsedAnswer>)
    ensures answers == ParseAnswersSpec(group)
  {
    var blocks := SplitBlocks(IsAnswerLabel, group);
    BlocksWellFormed(IsAnswerLabel, group);
    ghost var options := AnswerOptions(blocks);
    answers := [];
    var i := 0;
    while i < |blocks|
      invariant 0 <= i <= |blocks|
      invariant answers == Present(options[..i])
    {
      PresentSnoc(options, i);
      assert WellFormedBlock(IsAnswerLabel, blocks[i]);
      assert options[i] == AnswerOf(blocks[i], i == |blocks| - 1);
      var found := AnswerOf(blocks[i], i == |blocks| - 1);
      if found.Some? {
        answers := answers + [found.value];
      }
      i := i + 1;
    }
    assert options[..i] == options;
  }

  /** Every answer comes from its own label line: there are never more
      answers than label lines in the group. */
  lemma {:induction false} AnswersAtMostLabels(group: seq<string>)
    ensures |ParseAnswersSpec(group)| <= |Blocks(IsAnswerLabel, group)|
  {
    BlocksWellFormed(IsAnswerLabel, group);
    PresentLength(AnswerOptions(Blocks(IsAnswerLabel, group)));
  }

  // ---------------------------------------------------------------------------
  // Questions
  // ---------------------------------------------------------------------------

  /** The answer group of a question block: the lines after the header; for
      the last block, a final line feed of the text is not part of it. */
  function AnswerGroup(block: seq<string>, isLast: bool): seq<string>
    requires |block| > 0
  {
    var group := block[1..];
    if isLast && |group| > 0 && group[|group| - 1] == "" then group[..|group| - 1] else group
  }

  /** The question a question block yields: none when its answer group is
      empty text, otherwise the trimmed header text with the group's answers.
      Blocks from the split always open with a header; any other block
      yields none. A header with no answer text is dropped here, where the
      program's match, which needs at least one character after the header's
      line, merges the next block into it or, for a group of one line feed,
      yields the question with no answers. */
  function QuestionOf(block: seq<string>, isLast: bool): Option<ParsedQuestion>
    requires |block| > 0
  {
    match HeaderRest(block[0])
    case None => None
    case Some(rest) =>
      var group := AnswerGroup(block, isLast);
      if Join(group) == "" then None
      else Some(ParsedQuestion(Trim(rest), ParseAnswersSpec(group)))
  }

  function QuestionOptions(blocks: seq<seq<string>>): seq<Option<ParsedQuestion>>
    requires forall i :: 0 <= i < |blocks| ==> |blocks[i]| > 0
  {
    seq(|blocks|, i requires 0 <= i < |blocks| => QuestionOf(blocks[i], i == |blocks| - 1))
  }

  /** parseQuestions on the lines of the imported text. */
  function ParseQuestionsSpec(lines: seq<string>): seq<ParsedQuestion> {
    var blocks := Blocks(IsQuestionHeader, lines);
    BlocksWellFormed(IsQuestionHeader, lines);
    Present(QuestionOptions(blocks))
  }

  /** parseQuestions: the matcher loop over question blocks, parsing each
      block's answer group. */
  method ParseQuestions(lines: seq<string>) returns (questions: seq<ParsedQuestion>)
    ensures questions == ParseQuestionsSpec(lines)
  {
    var blocks := SplitBlocks(IsQuestionHeader, lines);
    BlocksWellFormed(IsQuestionHeader, lines);
    ghost var options := QuestionOptions(blocks);
    questions := [];
    var i := 0;
    while i < |blocks|
      invariant 0 <= i <= |blocks|
      invariant questions == Present(options[..i])
    {
      PresentSnoc(options, i);
      var block := blocks[i];
      var isLast := i == |blocks| - 1;
      assert WellFormedBlock(IsQuestionHeader, block);
      assert options[i] == QuestionOf(block, isLast);
      var group := AnswerGroup(block, isLast);
      if Join(group) != "" {
        var answers := ParseAnswers(group);
        var content := Trim(HeaderRest(block[0]).value);
        questions := questions + [ParsedQuestion(content, answers)];
      }
      i := i + 1;
    }
    assert options[..i] == options;
  }

  // ---------------------------------------------------------------------------
  // Round trip
  // ---------------------------------------------------------------------------

  /** Text that survives the importer unchanged: one line, not empty, no
      blank at either end, and not ending with a star. */
  predicate Importable(s: string) {
    |s| > 0 && !IsBlank(s[0]) && !IsBlank(s[|s| - 1]) && s[|s| - 1] != '*'
    && forall i :: 0 <= i < |s| ==> s[i] != '\n'
  }

  function LabelLetter(i: nat): char {
    if i % 4 == 0 then 'A' else if i % 4 == 1 then 'B' else if i % 4 == 2 then 'C' else 'D'
  }

  /** An answer written out as the importer expects: "A. text", with a star
      after a correct one. */
  function AnswerLine(i: nat, a: ParsedAnswer): string {
    [LabelLetter(i), '.', ' '] + a.content + (if a.isCorrect then "*" else "")
  }

  function AnswerLines(answers: seq<ParsedAnswer>): seq<string> {
    seq(|answers|, i requires 0 <= i < |answers| => AnswerLine(i, answers[i]))
  }

  /** A text that starts with no regex space is left as it is by `\s*`. */
  lemma {:induction false} SkipSpacesStop(s: string)
    requires s == [] || !IsRegexSpace(s[0])
    ensures SkipSpaces(s) == s
  {
  }

  /** `\s*` skips a leading regex space. */
  lemma {:induction false} SkipSpacesOne(c: char, rest: string)
    requires IsRegexSpace(c)
    ensures SkipSpaces([c] + rest) == SkipSpaces(rest)
  {
    assert ([c] + rest)[1..] == rest;
  }

  /** `\d*` skips a leading digit, and stops at anything else. */
  lemma {:induction false} SkipDigitsOne(c: char, rest: string)
    requires IsDigit(c) && (rest == [] || !IsDigit(rest[0]))
    ensures SkipDigits([c] + rest) == rest
  {
    assert ([c] + rest)[1..] == rest;
  }

  /** One space after the label is skipped, and no more when the text starts
      with a visible character. */
  lemma {:induction false} SkipOneSpace(rest: string)
    requires |rest| > 0 && !IsBlank(rest[0])
    ensures SkipSpaces([' '] + rest) == rest
  {
    SkipSpacesOne(' ', rest);
    SkipSpacesStop(rest);
  }

  /** The text of an answer, a star after a correct one, reads back as the answer. */
  lemma {:induction false} ReadAnswerOf(a: ParsedAnswer)
    requires Importable(a.content)
    ensures ReadAnswer(a.content + (if a.isCorrect then "*" else "")) == Some(a)
  {
    var text := a.content + (if a.isCorrect then "*" else "");
    TrimKeeps(a.content);
    if a.isCorrect {
      assert text[..|text| - 1] == a.content;
    } else {
      assert text == a.content;
    }
  }

  /** A written-out answer line opens an answer block and opens no question. */
  lemma {:induction false} AnswerLineLabel(i: nat, a: ParsedAnswer)
    ensures IsAnswerLabel(AnswerLine(i, a))
    ensures |AnswerLine(i, a)| >= 3 && AnswerLine(i, a)[1] == '.'
  {
  }

  /** A block of one line reads as the text after its label. */
  lemma {:induction false} AnswerOfSingle(line: string, isLast: bool)
    requires IsAnswerLabel(line)
    ensures AnswerOf([line], isLast) == ReadAnswer(SkipSpaces(line[2..]))
  {
    var block := [line];
    assert [block[0][2..]] + block[1..] == [line[2..]];
  }

  lemma {:induction false} AnswerLineParses(i: nat, a: ParsedAnswer, isLast: bool)
    requires Importable(a.content)
    ensures IsAnswerLabel(AnswerLine(i, a))
    ensures AnswerOf([AnswerLine(i, a)], isLast) == Some(a)
  {
    AnswerLineLabel(i, a);
    var line := AnswerLine(i, a);
    var text := a.content + (if a.isCorrect then "*" else "");
    assert line[2..] == [' '] + text;
    SkipOneSpace(text);
    AnswerOfSingle(line, isLast);
    ReadAnswerOf(a);
  }

  /** Each written-out answer line is a block of its own. */
  function SingletonBlocks(lines: seq<string>): seq<seq<string>> {
    seq(|lines|, i requires 0 <= i < |lines| => [lines[i]])
  }

  lemma {:induction false} LabelLinesBlocks(lines: seq<string>)
    requires forall i :: 0 <= i < |lines| ==> IsAnswerLabel(lines[i])
    ensures Blocks(IsAnswerLabel, lines) == SingletonBlocks(lines)
    decreases |lines|
  {
    var n := |lines|;
    if n > 0 {
      var init := lines[..n - 1];
      LabelLinesBlocks(init);
      assert IsAnswerLabel(lines[n - 1]);
      assert Blocks(IsAnswerLabel, lines) == SingletonBlocks(init) + [[lines[n - 1]]];
      assert SingletonBlocks(lines) == SingletonBlocks(init) + [[lines[n - 1]]];
    }
  }

  /** Answers written out one per line, labels A to D in turn and a star
      after each correct one, are read back as they were. */
  lemma {:induction false} AnswersRoundTrip(answers: seq<ParsedAnswer>)
    requires forall i :: 0 <= i < |answers| ==> Importable(answers[i].content)
    ensures ParseAnswersSpec(AnswerLines(answers)) == answers
  {
    var lines := AnswerLines(answers);
    forall i | 0 <= i < |lines| ensures IsAnswerLabel(lines[i]) {
      AnswerLineParses(i, answers[i], false);
    }
    LabelLinesBlocks(lines);
    var blocks := Blocks(IsAnswerLabel, lines);
    BlocksWellFormed(IsAnswerLabel, lines);
    var options := AnswerOptions(blocks);
    forall i | 0 <= i < |answers| ensures options[i] == Some(answers[i]) {
      AnswerLineParses(i, answers[i], i == |blocks| - 1);
    }
    PresentAllSome(options, answers);
  }

  lemma {:induction false} PresentAllSome<T>(xs: seq<Option<T>>, ys: seq<T>)
    requires |xs| == |ys| && forall i :: 0 <= i < |xs| ==> xs[i] == Some(ys[i])
    ensures Present(xs) == ys
  {
    if |xs| > 0 {
      PresentAllSome(xs[..|xs| - 1], ys[..|ys| - 1]);
      assert ys == ys[..|ys| - 1] + [ys[|ys| - 1]];
    }
  }

  /** A question written out as the importer expects: its header line
      "Câu 1: text", then its answers one per line. */
  function QuestionLines(q: ParsedQuestion): seq<string> {
    ["Câu 1: " + q.content] + AnswerLines(q.answers)
  }

  /** The questions written out one after another. */
  function AllLines(qs: seq<ParsedQuestion>): seq<string> {
    Concat(QuestionBlocks(qs))
  }

  function QuestionBlocks(qs: seq<ParsedQuestion>): seq<seq<string>> {
    seq(|qs|, i requires 0 <= i < |qs| => QuestionLines(qs[i]))
  }

  /** A question the importer can read back: importable text and at least
      one answer, all with importable text. */
  predicate ImportableQuestion(q: ParsedQuestion) {
    Importable(q.content) && |q.answers| > 0
    && forall j :: 0 <= j < |q.answers| ==> Importable(q.answers[j].content)
  }

  lemma {:induction false} HeaderParses(content: string)
    requires Importable(content)
    ensures HeaderRest("Câu 1: " + content) == Some([' '] + content)
  {
    var line := "Câu 1: " + content;
    assert line[..3] == "Câu";
    assert line[3..] == [' ', '1', ':', ' '] + content;
    NumberParses(content);
  }

  /** The text after the word of a written-out header. */
  lemma {:induction false} NumberParses(content: string)
    requires Importable(content)
    ensures NumberRest([' ', '1', ':', ' '] + content) == Some([' '] + content)
  {
    var atNumber := ['1', ':', ' '] + content;
    assert [' ', '1', ':', ' '] + content == [' '] + atNumber;
    SkipSpacesOne(' ', atNumber);
    SkipSpacesStop(atNumber);
    DigitParses(content);
    ColonParses(content);
  }

  lemma {:induction false} DigitParses(content: string)
    ensures SkipDigits(['1', ':', ' '] + content) == [':', ' '] + content
  {
    var atColon := [':', ' '] + content;
    assert ['1', ':', ' '] + content == ['1'] + atColon;
    SkipDigitsOne('1', atColon);
  }

  lemma {:induction false} ColonParses(content: string)
    ensures ColonRest(SkipSpaces([':', ' '] + content)) == Some([' '] + content)
  {
    var atColon := [':', ' '] + content;
    SkipSpacesStop(atColon);
    assert atColon[1..] == [' '] + content;
  }

  /** A block made of an opening line and lines that open nothing. */
  lemma {:induction false} OneBlock(opens: string -> bool, head: string, rest: seq<string>)
    requires opens(head)
    requires forall k :: 0 <= k < |rest| ==> !opens(rest[k])
    ensures Blocks(opens, [head] + rest) == [[head] + rest]
    decreases |rest|
  {
    var n := |rest|;
    if n == 0 {
      assert [head] + rest == [head];
      assert [head][..0] == [];
    } else {
      var lines := [head] + rest;
      OneBlock(opens, head, rest[..n - 1]);
      assert lines[..|lines| - 1] == [head] + rest[..n - 1];
      assert ([head] + rest[..n - 1]) + [rest[n - 1]] == [head] + rest;
    }
  }

  /** A line opening an answer opens no question. */
  lemma {:induction false} LabelNotHeader(line: string)
    requires IsAnswerLabel(line)
    ensures !IsQuestionHeader(line)
  {
    if |line| >= 3 {
      assert line[..3][1] == '.';
    }
  }

  lemma {:induction false} QuestionLinesBlock(q: ParsedQuestion)
    requires ImportableQuestion(q)
    ensures Blocks(IsQuestionHeader, QuestionLines(q)) == [QuestionLines(q)]
  {
    HeaderParses(q.content);
    var answers := AnswerLines(q.answers);
    forall k | 0 <= k < |answers| ensures !IsQuestionHeader(answers[k]) {
      AnswerLineLabel(k, q.answers[k]);
      LabelNotHeader(answers[k]);
    }
    OneBlock(IsQuestionHeader, "Câu 1: " + q.content, answers);
  }

  lemma {:induction false} HeaderTextParses(content: string)
    requires Importable(content)
    ensures HeaderRest("Câu 1: " + content).Some?
    ensures Trim(HeaderRest("Câu 1: " + content).value) == content
  {
    HeaderParses(content);
    TrimBlank(' ', content);
    TrimKeeps(content);
  }

  lemma {:induction false} AnswerLinesGroup(q: ParsedQuestion, isLast: bool)
    requires ImportableQuestion(q)
    ensures AnswerGroup(QuestionLines(q), isLast) == AnswerLines(q.answers)
    ensures Join(AnswerLines(q.answers)) != ""
  {
    var answers := AnswerLines(q.answers);
    assert QuestionLines(q)[1..] == answers;
    AnswerLineParses(|answers| - 1, q.answers[|answers| - 1], false);
    assert answers[|answers| - 1] != "";
    AnswerLineParses(0, q.answers[0], false);
    if |answers| == 1 {
      assert Join(answers) == answers[0];
    }
  }

  lemma {:induction false} QuestionLinesParse(q: ParsedQuestion, isLast: bool)
    requires ImportableQuestion(q)
    ensures WellFormedBlock(IsQuestionHeader, QuestionLines(q))
    ensures QuestionOf(QuestionLines(q), isLast) == Some(q)
  {
    var block := QuestionLines(q);
    QuestionLinesBlock(q);
    BlocksWellFormed(IsQuestionHeader, block);
    assert WellFormedBlock(IsQuestionHeader, Blocks(IsQuestionHeader, block)[0]);
    AnswerLinesGroup(q, isLast);
    HeaderTextParses(q.content);
    AnswersRoundTrip(q.answers);
  }

  /** Well-formed blocks laid end to end split back into the same blocks. */
  /** A well-formed block splits into itself. */
  lemma {:induction false} WellFormedBlockSplits(opens: string -> bool, b: seq<string>)
    requires WellFormedBlock(opens, b)
    ensures Blocks(opens, b) == [b]
  {
    assert [b[0]] + b[1..] == b;
    OneBlock(opens, b[0], b[1..]);
  }

  lemma {:induction false} BlocksOfConcat(opens: string -> bool, blocks: seq<seq<string>>)
    requires forall i :: 0 <= i < |blocks| ==> WellFormedBlock(opens, blocks[i])
    ensures Blocks(opens, Concat(blocks)) == blocks
    decreases |blocks|
  {
    var n := |blocks|;
    if n > 0 {
      var init := blocks[..n - 1];
      var last := blocks[n - 1];
      assert WellFormedBlock(opens, last);
      assert Concat(blocks) == Concat(init) + last;
      BlocksOfConcat(opens, init);
      BlocksAppend(opens, Concat(init), last);
      WellFormedBlockSplits(opens, last);
      assert blocks == init + [last];
    }
  }

  lemma {:induction false} AllLinesBlocks(qs: seq<ParsedQuestion>)
    requires forall i :: 0 <= i < |qs| ==> ImportableQuestion(qs[i])
    ensures Blocks(IsQuestionHeader, AllLines(qs)) == QuestionBlocks(qs)
  {
    var blocks := QuestionBlocks(qs);
    forall i | 0 <= i < |qs| ensures WellFormedBlock(IsQuestionHeader, blocks[i]) {
      QuestionLinesParse(qs[i], false);
    }
    BlocksOfConcat(IsQuestionHeader, blocks);
  }

  /** Questions written out header by header, each followed by its answers,
      are read back as they were. */
  lemma {:induction false} QuestionsRoundTrip(qs: seq<ParsedQuestion>)
    requires forall i :: 0 <= i < |qs| ==> ImportableQuestion(qs[i])
    ensures ParseQuestionsSpec(AllLines(qs)) == qs
  {
    var lines := AllLines(qs);
    AllLinesBlocks(qs);
    var blocks := Blocks(IsQuestionHeader, lines);
    BlocksWellFormed(IsQuestionHeader, lines);
    var options := QuestionOptions(blocks);
    forall i | 0 <= i < |qs| ensures options[i] == Some(qs[i]) {
      QuestionLinesParse(qs[i], i == |blocks| - 1);
    }
    PresentAllSome(options, qs);
  }
}
