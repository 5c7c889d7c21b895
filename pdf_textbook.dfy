/**
 * `PDFFileProcessor.parseTextbook`: the line-driven builder of the
 * Unit -> Lesson -> Word tree, and `processPDFText` around it.
 *
 * The builder is specified by `Scan`, a fold of `Step` over the classified
 * lines; the method `ParseTextbook` is the loop of the source, proved to
 * compute that fold.  The lemmas relate the fold to reference definitions
 * that say, line by line, which headings and word lines count.
 */
module PdfTextbook {
  import opened Wrappers
  import opened Text
  import opened Regex
  import opened Types
  import opened Seqs
  import opened PdfParser
  import opened TextbookDb

  // ---------------------------------------------------------------------
  // Lines and their classification
  // ---------------------------------------------------------------------

  /** `text.split('\n').map(line => line.trim()).filter(line => line)` on the pieces. */
  function NonBlank(parts: seq<string>): seq<string> {
    if parts == [] then []
    else
      var t := Trim(parts[|parts| - 1]);
      NonBlank(parts[..|parts| - 1]) + (if t != [] then [t] else [])
  }

  function Lines(text: string): seq<string> {
    NonBlank(Split(text, {'\n'}))
  }

  predicate Trimmed(s: string) {
    s != [] && Trim(s) == s
  }

  /** Every line kept is non-empty and trimmed. */
  lemma {:induction false} NonBlankTrimmed(parts: seq<string>)
    ensures forall k :: 0 <= k < |NonBlank(parts)| ==> Trimmed(NonBlank(parts)[k])
  {
    if parts != [] {
      var t := Trim(parts[|parts| - 1]);
      NonBlankTrimmed(parts[..|parts| - 1]);
      TrimIdempotent(parts[|parts| - 1]);
      assert t != [] ==> Trimmed(t);
    }
  }

  /** What the four patterns say about one line. */
  datatype LineInfo = LineInfo(
    text: string,
    startsWithUnit: bool,
    unit: Option<Heading>,
    lesson: Option<Heading>,
    word: Option<WordMatch>)

  function Classify(line: string): LineInfo {
    LineInfo(line, Exec(UnitStart, line).Some?, HeadingOf("unit", line), HeadingOf("lesson", line), WordLine(line))
  }

  function Infos(lines: seq<string>): (r: seq<LineInfo>)
    ensures |r| == |lines| && forall k :: 0 <= k < |r| ==> r[k] == Classify(lines[k])
  {
    seq(|lines|, k requires 0 <= k < |lines| => Classify(lines[k]))
  }

  // ---------------------------------------------------------------------
  // The builder
  // ---------------------------------------------------------------------

  const DefaultName := "未知教材"

  /** The loop's variables: the name, the finished units, the open unit and lesson, the unit number. */
  datatype Builder = Builder(
    name: string,
    units: seq<TextbookUnit>,
    unit: Option<TextbookUnit>,
    lesson: Option<TextbookLesson>,
    unitNumber: string)

  const Start := Builder(DefaultName, [], None, None, "")

  /** `currentUnit.lessons.push(currentLesson)` when both exist. */
  function Flush(unit: Option<TextbookUnit>, lesson: Option<TextbookLesson>): Option<TextbookUnit> {
    if unit.Some? && lesson.Some? then Some(unit.value.(lessons := unit.value.lessons + [lesson.value]))
    else unit
  }

  /** `units.push(currentUnit)` when it exists. */
  function Close(units: seq<TextbookUnit>, unit: Option<TextbookUnit>): seq<TextbookUnit> {
    if unit.Some? then units + [unit.value] else units
  }

  /** The units once the open lesson and unit are saved, as after the loop. */
  function Finish(b: Builder): seq<TextbookUnit> {
    Close(b.units, Flush(b.unit, b.lesson))
  }

  function UnitId(h: Heading): string { "unit-" + h.number }

  function UnitName(h: Heading): string { "Unit " + h.number + " " + Trim(h.title) }

  function LessonId(unitNumber: string, h: Heading): string { "lesson-" + unitNumber + "-" + h.number }

  function LessonName(h: Heading): string { "Lesson " + h.number + " " + Trim(h.title) }

  /** The word of a word line; `id` stands for the clock-and-random id. */
  function NewWord(id: string, m: WordMatch): Word {
    BareWord(id, Trim(m.english), Some(Trim(m.chinese)),
             if m.pronunciation.Some? then Some(Trim(m.pronunciation.value)) else None)
  }

  /** The first line is the name unless it starts with `Unit <digits>`. */
  predicate IsName(i: nat, x: LineInfo) {
    i == 0 && !x.startsWithUnit
  }

  /** One iteration of the loop over line `i`. */
  function Step(b: Builder, i: nat, x: LineInfo, wordId: nat -> string): Builder {
    if IsName(i, x) then b.(name := x.text)
    else if x.unit.Some? then
      var h := x.unit.value;
      Builder(b.name, Finish(b), Some(TextbookUnit(UnitId(h), UnitName(h), None, [])), None, h.number)
    else if x.lesson.Some? && b.unit.Some? then
      var h := x.lesson.value;
      b.(unit := Flush(b.unit, b.lesson),
         lesson := Some(TextbookLesson(LessonId(b.unitNumber, h), LessonName(h), None, [])))
    else if x.word.Some? && b.lesson.Some? then
      b.(lesson := Some(b.lesson.value.(words := b.lesson.value.words + [NewWord(wordId(i), x.word.value)])))
    else b
  }

  /** The loop run over all of `xs`. */
  function Scan(xs: seq<LineInfo>, wordId: nat -> string): Builder {
    if xs == [] then Start
    else Step(Scan(xs[..|xs| - 1], wordId), |xs| - 1, xs[|xs| - 1], wordId)
  }

  function Description(name: string, unitCount: nat): string {
    name + "包含" + NatToString(unitCount) + "个单元"
  }

  lemma DescriptionZero(name: string)
    ensures Description(name, 0) == name + "包含0个单元"
  {
    assert NatToString(0) == "0";
    Regroup3(name, "包含", "0");
    Regroup3(name, "包含" + "0", "个单元");
  }

  /** The returned record; `now` stands for `Date.now()`. */
  function Assemble(b: Builder, now: nat): TextbookData {
    var units := Finish(b);
    TextbookData(
      TextbookInfo("textbook-" + NatToString(now), b.name, "北京出版社", "三年级", "上册", "北京市",
                   Some(Description(b.name, |units|))),
      units)
  }

  function Build(text: string, now: nat, wordId: nat -> string): TextbookData {
    Assemble(Scan(Infos(Lines(text)), wordId), now)
  }

  // ---------------------------------------------------------------------
  // The loop
  // ---------------------------------------------------------------------

  lemma ScanPrefix(xs: seq<LineInfo>, i: nat, wordId: nat -> string)
    requires i < |xs|
    ensures Scan(xs[..i + 1], wordId) == Step(Scan(xs[..i], wordId), i, xs[i], wordId)
  {
    assert xs[..i + 1][..i] == xs[..i];
  }

  /** `parseTextbook`. */
  method ParseTextbook(text: string, now: nat, wordId: nat -> string) returns (textbook: TextbookData)
    ensures textbook == Build(text, now, wordId)
  {
    var lines := Lines(text);
    ghost var xs := Infos(lines);
    var name := DefaultName;
    var units: seq<TextbookUnit> := [];
    var unit: Option<TextbookUnit> := None;
    var lesson: Option<TextbookLesson> := None;
    var unitNumber := "";
    for i := 0 to |lines|
      invariant Builder(name, units, unit, lesson, unitNumber) == Scan(xs[..i], wordId)
    {
      ghost var b := Builder(name, units, unit, lesson, unitNumber);
      ScanPrefix(xs, i, wordId);
      var line := lines[i];
      assert xs[i] == Classify(line);
      if i == 0 && Exec(UnitStart, line).None? {
        name := line;
        continue;
      }
      var unitMatch := HeadingOf("unit", line);
      if unitMatch.Some? {
        if lesson.Some? && unit.Some? {
          unit := Some(unit.value.(lessons := unit.value.lessons + [lesson.value]));
        }
        if unit.Some? {
          units := units + [unit.value];
        }
        assert units == Finish(b);
        unitNumber := unitMatch.value.number;
        unit := Some(TextbookUnit("unit-" + unitMatch.value.number,
                                  "Unit " + unitMatch.value.number + " " + Trim(unitMatch.value.title), None, []));
        lesson := None;
        continue;
      }
      var lessonMatch := HeadingOf("lesson", line);
      if lessonMatch.Some? && unit.Some? {
        if lesson.Some? {
          unit := Some(unit.value.(lessons := unit.value.lessons + [lesson.value]));
        }
        assert unit == Flush(b.unit, b.lesson);
        lesson := Some(TextbookLesson("lesson-" + unitNumber + "-" + lessonMatch.value.number,
                                      "Lesson " + lessonMatch.value.number + " " + Trim(lessonMatch.value.title),
                                      None, []));
        continue;
      }
      var wordMatch := WordLine(line);
      if wordMatch.Some? && lesson.Some? {
        var m := wordMatch.value;
        var word := BareWord(wordId(i), Trim(m.english), Some(Trim(m.chinese)),
                             if m.pronunciation.Some? then Some(Trim(m.pronunciation.value)) else None);
        lesson := Some(lesson.value.(words := lesson.value.words + [word]));
      }
    }
    assert xs[..|lines|] == xs;
    ghost var b := Builder(name, units, unit, lesson, unitNumber);
    if lesson.Some? && unit.Some? {
      unit := Some(unit.value.(lessons := unit.value.lessons + [lesson.value]));
    }
    if unit.Some? {
      units := units + [unit.value];
    }
    assert units == Finish(b);
    textbook := TextbookData(
      TextbookInfo("textbook-" + NatToString(now), name, "北京出版社", "三年级", "上册", "北京市",
                   Some(name + "包含" + NatToString(|units|) + "个单元")),
      units);
  }

  /** The outcome of `processPDFText`. */
  datatype PdfResult = PdfResult(success: bool, textbook: Option<TextbookData>, error: Option<string>, rawText: Option<string>)

  /**
   * `processPDFText`: the builder throws on no input, so the result is
   * always a success carrying the tree, also for text without any Unit
   * heading.
   */
  method ProcessPDFText(text: string, now: nat, wordId: nat -> string) returns (r: PdfResult)
    ensures r.success && r.error.None? && r.rawText.None?
    ensures r.textbook == Some(Build(text, now, wordId))
  {
    var textbook := ParseTextbook(text, now, wordId);
    r := PdfResult(true, Some(textbook), None, None);
  }

  // ---------------------------------------------------------------------
  // Reference definitions: which lines count
  // ---------------------------------------------------------------------

  /** The name: the first line unless it starts with `Unit <digits>`, else `未知教材`. */
  function NameOf(xs: seq<LineInfo>): string {
    if xs != [] && IsName(0, xs[0]) then xs[0].text else DefaultName
  }

  /** The unit headings, in text order. */
  function UnitHeadings(xs: seq<LineInfo>): (hs: seq<Heading>)
    ensures |hs| <= |xs|
  {
    if xs == [] then []
    else
      var i := |xs| - 1;
      UnitHeadings(xs[..i]) + (if !IsName(i, xs[i]) && xs[i].unit.Some? then [xs[i].unit.value] else [])
  }

  /** Line `i` is a lesson heading that counts: it follows some unit heading. */
  predicate LessonLine(xs: seq<LineInfo>, i: nat)
    requires i < |xs|
  {
    !IsName(i, xs[i]) && xs[i].unit.None? && xs[i].lesson.Some? && UnitHeadings(xs[..i]) != []
  }

  /** A lesson is open after `xs`: the last heading that counts is a lesson heading. */
  predicate LessonOpen(xs: seq<LineInfo>) {
    if xs == [] then false
    else
      var i := |xs| - 1;
      if IsName(i, xs[i]) then LessonOpen(xs[..i])
      else if xs[i].unit.Some? then false
      else LessonLine(xs, i) || LessonOpen(xs[..i])
  }

  /** The words of the word lines that come while a lesson is open, in text order. */
  function KeptWords(xs: seq<LineInfo>, wordId: nat -> string): seq<Word> {
    if xs == [] then []
    else
      var i := |xs| - 1;
      var x := xs[i];
      KeptWords(xs[..i], wordId)
      + (if !IsName(i, x) && x.unit.None? && !LessonLine(xs, i) && x.word.Some? && LessonOpen(xs[..i])
         then [NewWord(wordId(i), x.word.value)] else [])
  }

  /**
   * The counted lesson headings, each with the number of the last unit
   * heading before it and the lesson id that number gives.
   */
  function LessonHeadings(xs: seq<LineInfo>): seq<(string, string)> {
    if xs == [] then []
    else
      var i := |xs| - 1;
      var hs := UnitHeadings(xs[..i]);
      LessonHeadings(xs[..i])
      + (if LessonLine(xs, i)
         then [(hs[|hs| - 1].number, LessonId(hs[|hs| - 1].number, xs[i].lesson.value))] else [])
  }

  // ---------------------------------------------------------------------
  // The tree
  // ---------------------------------------------------------------------

  /** Every lesson of the tree with the number its unit heading carries. */
  function UnitsLessons(us: seq<TextbookUnit>, hs: seq<Heading>): seq<(string, string)>
    requires |us| == |hs|
  {
    if us == [] then []
    else
      var u := us[|us| - 1];
      UnitsLessons(us[..|us| - 1], hs[..|hs| - 1])
      + LessonPairs(hs[|hs| - 1].number, u.lessons)
  }

  /** Unit `k` of `us` is the one of heading `k`: its id and name, and no description. */
  predicate Headed(us: seq<TextbookUnit>, hs: seq<Heading>) {
    |us| == |hs|
    && forall k :: 0 <= k < |us| ==>
         us[k].id == UnitId(hs[k]) && us[k].name == UnitName(hs[k]) && us[k].description.None?
  }

  lemma LessonsWordsSnoc(ls: seq<TextbookLesson>, l: TextbookLesson)
    ensures LessonsWords(ls + [l]) == LessonsWords(ls) + l.words
  {
    assert (ls + [l])[..|ls|] == ls;
  }

  lemma UnitsWordsSnoc(us: seq<TextbookUnit>, u: TextbookUnit)
    ensures UnitsWords(us + [u]) == UnitsWords(us) + LessonsWords(u.lessons)
  {
    assert (us + [u])[..|us|] == us;
  }

  function LessonPairs(n: string, ls: seq<TextbookLesson>): seq<(string, string)> {
    seq(|ls|, j requires 0 <= j < |ls| => (n, ls[j].id))
  }

  lemma LessonPairsSnoc(n: string, ls: seq<TextbookLesson>, l: TextbookLesson)
    ensures LessonPairs(n, ls + [l]) == LessonPairs(n, ls) + [(n, l.id)]
  {
  }

  lemma UnitsLessonsSnoc(us: seq<TextbookUnit>, hs: seq<Heading>, u: TextbookUnit, h: Heading)
    requires |us| == |hs|
    ensures UnitsLessons(us + [u], hs + [h]) == UnitsLessons(us, hs) + LessonPairs(h.number, u.lessons)
  {
    assert (us + [u])[..|us|] == us;
    assert (hs + [h])[..|hs|] == hs;
  }

  /** The pairs of units whose last one gets lessons `ls`. */
  lemma UnitsLessonsLast(us: seq<TextbookUnit>, u: TextbookUnit, ls: seq<TextbookLesson>, hs: seq<Heading>)
    requires |us| + 1 == |hs|
    ensures UnitsLessons(us + [u.(lessons := ls)], hs)
            == UnitsLessons(us, hs[..|us|]) + LessonPairs(hs[|us|].number, ls)
  {
    SplitLast(hs, |us|);
    UnitsLessonsSnoc(us, hs[..|us|], u.(lessons := ls), hs[|us|]);
  }

  // ---------------------------------------------------------------------
  // What the loop keeps
  // ---------------------------------------------------------------------

  lemma ScanStep(xs: seq<LineInfo>, wordId: nat -> string)
    requires xs != []
    ensures var i := |xs| - 1;
            Scan(xs, wordId) == Step(Scan(xs[..i], wordId), i, xs[i], wordId)
            && UnitHeadings(xs) == UnitHeadings(xs[..i]) + (if !IsName(i, xs[i]) && xs[i].unit.Some? then [xs[i].unit.value] else [])
  {
  }

  /** The name is the first line unless it starts with `Unit <digits>`; otherwise `未知教材`. */
  lemma {:induction false} ScanName(xs: seq<LineInfo>, wordId: nat -> string)
    ensures Scan(xs, wordId).name == NameOf(xs)
  {
    if xs != [] {
      var i := |xs| - 1;
      ScanName(xs[..i], wordId);
      if i > 0 {
        assert xs[..i][0] == xs[0];
      }
    }
  }

  /**
   * A unit is open once some unit heading came; a lesson is open exactly
   * when the last heading that counts is a lesson heading, and only inside a
   * unit; the unit number is the last unit heading's.
   */
  predicate Open(b: Builder, xs: seq<LineInfo>) {
    var hs := UnitHeadings(xs);
    (b.unit.Some? <==> hs != [])
    && (b.lesson.Some? <==> LessonOpen(xs))
    && (b.lesson.Some? ==> b.unit.Some?)
    && (hs != [] ==> b.unitNumber == hs[|hs| - 1].number)
  }

  lemma {:induction false} ScanOpen(xs: seq<LineInfo>, wordId: nat -> string)
    ensures Open(Scan(xs, wordId), xs)
  {
    if xs != [] {
      var i := |xs| - 1;
      ScanOpen(xs[..i], wordId);
      ScanStep(xs, wordId);
    }
  }

  lemma HeadedSnoc(us: seq<TextbookUnit>, hs: seq<Heading>, h: Heading)
    requires Headed(us, hs)
    ensures Headed(us + [TextbookUnit(UnitId(h), UnitName(h), None, [])], hs + [h])
  {
  }

  /** Changing the lessons of the last unit keeps the units headed. */
  lemma HeadedLast(us: seq<TextbookUnit>, u: TextbookUnit, ls: seq<TextbookLesson>, hs: seq<Heading>)
    requires Headed(us + [u], hs)
    ensures Headed(us + [u.(lessons := ls)], hs)
  {
    assert forall k :: 0 <= k < |us| ==> (us + [u.(lessons := ls)])[k] == (us + [u])[k];
  }

  /** How one step changes the finished units. */
  lemma {:induction false} FinishStep(b: Builder, i: nat, x: LineInfo, wordId: nat -> string)
    requires b.lesson.Some? ==> b.unit.Some?
    ensures var b' := Step(b, i, x, wordId);
            if IsName(i, x) then Finish(b') == Finish(b)
            else if x.unit.Some? then
              Finish(b') == Finish(b) + [TextbookUnit(UnitId(x.unit.value), UnitName(x.unit.value), None, [])]
            else if x.lesson.Some? && b.unit.Some? then
              var u := Flush(b.unit, b.lesson).value;
              Finish(b) == b.units + [u] && Finish(b') == b.units + [u.(lessons := u.lessons + [b'.lesson.value])]
            else if x.word.Some? && b.lesson.Some? then
              var u := b.unit.value;
              Finish(b) == b.units + [u.(lessons := u.lessons + [b.lesson.value])]
              && Finish(b') == b.units + [u.(lessons := u.lessons + [b'.lesson.value])]
              && b'.lesson.value == b.lesson.value.(words := b.lesson.value.words + [NewWord(wordId(i), x.word.value)])
            else Finish(b') == Finish(b)
  {
  }

  /** Units appear in text order, one per unit heading, with its id and name; empty units too. */
  lemma {:induction false} ScanUnits(xs: seq<LineInfo>, wordId: nat -> string)
    ensures Headed(Finish(Scan(xs, wordId)), UnitHeadings(xs))
  {
    if xs != [] {
      var i := |xs| - 1;
      var b := Scan(xs[..i], wordId);
      var hs := UnitHeadings(xs[..i]);
      ScanUnits(xs[..i], wordId);
      ScanOpen(xs[..i], wordId);
      ScanStep(xs, wordId);
      var x := xs[i];
      FinishStep(b, i, x, wordId);
      if !IsName(i, x) && x.unit.Some? {
        HeadedSnoc(Finish(b), hs, x.unit.value);
      } else if !IsName(i, x) && x.lesson.Some? && b.unit.Some? {
        var u := Flush(b.unit, b.lesson).value;
        HeadedLast(b.units, u, u.lessons + [Scan(xs, wordId).lesson.value], hs);
      } else if !IsName(i, x) && x.word.Some? && b.lesson.Some? {
        var u := b.unit.value;
        var u1 := u.(lessons := u.lessons + [b.lesson.value]);
        HeadedLast(b.units, u1, u.lessons + [Scan(xs, wordId).lesson.value], hs);
        assert u1.(lessons := u.lessons + [Scan(xs, wordId).lesson.value]) == u.(lessons := u.lessons + [Scan(xs, wordId).lesson.value]);
      }
    }
  }

  /** A new lesson moves the open lesson into its unit: the words stay as they were. */
  lemma {:induction false} WordsStepLesson(b: Builder, i: nat, x: LineInfo, wordId: nat -> string)
    requires b.lesson.Some? ==> b.unit.Some?
    requires b.unit.Some? && !IsName(i, x) && x.unit.None? && x.lesson.Some?
    ensures UnitsWords(Finish(Step(b, i, x, wordId))) == UnitsWords(Finish(b))
  {
    var b' := Step(b, i, x, wordId);
    FinishStep(b, i, x, wordId);
    var u := Flush(b.unit, b.lesson).value;
    var l' := b'.lesson.value;
    LessonsWordsSnoc(u.lessons, l');
    assert l'.words == [] && LessonsWords(u.lessons) + [] == LessonsWords(u.lessons);
    UnitsWordsSnoc(b.units, u);
    UnitsWordsSnoc(b.units, u.(lessons := u.lessons + [l']));
  }

  /** A word line inside a lesson adds its word at the end. */
  lemma {:induction false} WordsStepWord(b: Builder, i: nat, x: LineInfo, wordId: nat -> string)
    requires b.lesson.Some? && b.unit.Some? && !IsName(i, x) && x.unit.None? && x.lesson.None? && x.word.Some?
    ensures UnitsWords(Finish(Step(b, i, x, wordId))) == UnitsWords(Finish(b)) + [NewWord(wordId(i), x.word.value)]
  {
    var b' := Step(b, i, x, wordId);
    FinishStep(b, i, x, wordId);
    var u := b.unit.value;
    LessonsWordsSnoc(u.lessons, b.lesson.value);
    LessonsWordsSnoc(u.lessons, b'.lesson.value);
    UnitsWordsSnoc(b.units, u.(lessons := u.lessons + [b.lesson.value]));
    UnitsWordsSnoc(b.units, u.(lessons := u.lessons + [b'.lesson.value]));
    var w := NewWord(wordId(i), x.word.value);
    var a, c, d := UnitsWords(b.units), LessonsWords(u.lessons), b.lesson.value.words;
    assert b'.lesson.value.words == d + [w];
    Regroup4(a, c, d, [w]);
  }

  /** One step on the words: only a word line inside an open lesson adds one. */
  lemma {:induction false} WordsStep(b: Builder, i: nat, x: LineInfo, wordId: nat -> string)
    requires b.lesson.Some? ==> b.unit.Some?
    ensures UnitsWords(Finish(Step(b, i, x, wordId)))
            == UnitsWords(Finish(b))
               + (if !IsName(i, x) && x.unit.None? && !(x.lesson.Some? && b.unit.Some?) && x.word.Some? && b.lesson.Some?
                  then [NewWord(wordId(i), x.word.value)] else [])
  {
    assert UnitsWords(Finish(b)) + [] == UnitsWords(Finish(b));
    if IsName(i, x) {
      assert Finish(Step(b, i, x, wordId)) == Finish(b);
    } else if x.unit.Some? {
      var u := TextbookUnit(UnitId(x.unit.value), UnitName(x.unit.value), None, []);
      assert Finish(Step(b, i, x, wordId)) == Finish(b) + [u];
      UnitsWordsSnoc(Finish(b), u);
    } else if x.lesson.Some? && b.unit.Some? {
      WordsStepLesson(b, i, x, wordId);
    } else if x.word.Some? && b.lesson.Some? {
      WordsStepWord(b, i, x, wordId);
    } else {
      assert Finish(Step(b, i, x, wordId)) == Finish(b);
    }
  }

  /**
   * The words of the tree, units then lessons, are the word lines that come
   * while a lesson is open: word lines before any unit or between a unit
   * heading and its first lesson are dropped, no other is.
   */
  lemma {:induction false} ScanWords(xs: seq<LineInfo>, wordId: nat -> string)
    ensures UnitsWords(Finish(Scan(xs, wordId))) == KeptWords(xs, wordId)
  {
    if xs != [] {
      var i := |xs| - 1;
      ScanWords(xs[..i], wordId);
      ScanOpen(xs[..i], wordId);
      ScanStep(xs, wordId);
      WordsStep(Scan(xs[..i], wordId), i, xs[i], wordId);
    }
  }

  /** A lesson heading inside a unit adds the pair of the unit number and the new lesson's id. */
  lemma {:induction false} LessonsStepLesson(b: Builder, i: nat, x: LineInfo, wordId: nat -> string, hs: seq<Heading>)
    requires b.lesson.Some? ==> b.unit.Some?
    requires b.unit.Some? && !IsName(i, x) && x.unit.None? && x.lesson.Some?
    requires hs != [] && b.unitNumber == hs[|hs| - 1].number
    requires |Finish(b)| == |hs|
    ensures var b' := Step(b, i, x, wordId);
            |Finish(b')| == |hs|
            && UnitsLessons(Finish(b'), hs)
               == UnitsLessons(Finish(b), hs) + [(hs[|hs| - 1].number, LessonId(hs[|hs| - 1].number, x.lesson.value))]
  {
    var b' := Step(b, i, x, wordId);
    FinishStep(b, i, x, wordId);
    var u := Flush(b.unit, b.lesson).value;
    var l' := b'.lesson.value;
    UnitsLessonsLast(b.units, u, u.lessons, hs);
    UnitsLessonsLast(b.units, u, u.lessons + [l'], hs);
    LessonPairsSnoc(hs[|hs| - 1].number, u.lessons, l');
    Regroup3(UnitsLessons(b.units, hs[..|b.units|]), LessonPairs(hs[|hs| - 1].number, u.lessons), [(hs[|hs| - 1].number, l'.id)]);
  }

  /** A word line inside a lesson leaves the lesson pairs alone. */
  lemma {:induction false} LessonsStepWord(b: Builder, i: nat, x: LineInfo, wordId: nat -> string, hs: seq<Heading>)
    requires b.lesson.Some? && b.unit.Some? && !IsName(i, x) && x.unit.None? && x.lesson.None? && x.word.Some?
    requires |Finish(b)| == |hs|
    ensures var b' := Step(b, i, x, wordId);
            |Finish(b')| == |hs| && UnitsLessons(Finish(b'), hs) == UnitsLessons(Finish(b), hs)
  {
    var b' := Step(b, i, x, wordId);
    FinishStep(b, i, x, wordId);
    var u := b.unit.value;
    UnitsLessonsLast(b.units, u, u.lessons + [b.lesson.value], hs);
    UnitsLessonsLast(b.units, u, u.lessons + [b'.lesson.value], hs);
    LessonPairsSnoc(hs[|hs| - 1].number, u.lessons, b'.lesson.value);
    LessonPairsSnoc(hs[|hs| - 1].number, u.lessons, b.lesson.value);
  }

  /** One step on the lesson pairs: a lesson heading inside a unit adds one pair, nothing else does. */
  lemma {:induction false} LessonsStep(b: Builder, i: nat, x: LineInfo, wordId: nat -> string, hs: seq<Heading>)
    requires b.lesson.Some? ==> b.unit.Some?
    requires b.unit.Some? <==> hs != []
    requires hs != [] ==> b.unitNumber == hs[|hs| - 1].number
    requires |Finish(b)| == |hs|
    ensures var b' := Step(b, i, x, wordId);
            var hs' := hs + (if !IsName(i, x) && x.unit.Some? then [x.unit.value] else []);
            |Finish(b')| == |hs'|
            && UnitsLessons(Finish(b'), hs') == UnitsLessons(Finish(b), hs)
               + (if !IsName(i, x) && x.unit.None? && x.lesson.Some? && hs != []
                  then [(hs[|hs| - 1].number, LessonId(hs[|hs| - 1].number, x.lesson.value))] else [])
  {
    assert hs + [] == hs && UnitsLessons(Finish(b), hs) + [] == UnitsLessons(Finish(b), hs);
    if IsName(i, x) {
      assert Finish(Step(b, i, x, wordId)) == Finish(b);
    } else if x.unit.Some? {
      var u := TextbookUnit(UnitId(x.unit.value), UnitName(x.unit.value), None, []);
      assert Finish(Step(b, i, x, wordId)) == Finish(b) + [u];
      UnitsLessonsSnoc(Finish(b), hs, u, x.unit.value);
    } else if x.lesson.Some? && b.unit.Some? {
      LessonsStepLesson(b, i, x, wordId, hs);
    } else if x.word.Some? && b.lesson.Some? {
      LessonsStepWord(b, i, x, wordId, hs);
    } else {
      assert Finish(Step(b, i, x, wordId)) == Finish(b);
    }
  }

  /**
   * The lessons of the tree, paired with the number of the unit holding
   * them, are the counted lesson headings paired with the last unit number
   * before them: a lesson belongs to the most recent unit, carries that
   * unit's number in its id, and lessons without words are kept.
   */
  lemma {:induction false} ScanLessons(xs: seq<LineInfo>, wordId: nat -> string)
    ensures var us := Finish(Scan(xs, wordId));
            |us| == |UnitHeadings(xs)| && UnitsLessons(us, UnitHeadings(xs)) == LessonHeadings(xs)
  {
    ScanUnits(xs, wordId);
    if xs != [] {
      var i := |xs| - 1;
      var b := Scan(xs[..i], wordId);
      ScanLessons(xs[..i], wordId);
      ScanOpen(xs[..i], wordId);
      ScanStep(xs, wordId);
      LessonsStep(b, i, xs[i], wordId, UnitHeadings(xs[..i]));
    }
  }

  // ---------------------------------------------------------------------
  // What parseTextbook returns
  // ---------------------------------------------------------------------

  /**
   * The returned textbook: its name, its units (one per unit heading, in
   * order, empty ones kept), the words kept and where each lesson went; the
   * fixed publisher fields and the description counting the units.
   */
  lemma BuildTree(text: string, now: nat, wordId: nat -> string)
    ensures var t := Build(text, now, wordId);
            var xs := Infos(Lines(text));
            var hs := UnitHeadings(xs);
            && t.info.id == "textbook-" + NatToString(now)
            && t.info.name == NameOf(xs)
            && t.info.publisher == "北京出版社" && t.info.grade == "三年级" && t.info.semester == "上册"
            && t.info.region == "北京市"
            && t.info.description == Some(NameOf(xs) + "包含" + NatToString(|hs|) + "个单元")
            && Headed(t.units, hs)
            && UnitsWords(t.units) == KeptWords(xs, wordId)
            && UnitsLessons(t.units, hs) == LessonHeadings(xs)
  {
    var xs := Infos(Lines(text));
    ScanName(xs, wordId);
    ScanUnits(xs, wordId);
    ScanWords(xs, wordId);
    ScanLessons(xs, wordId);
  }

  lemma {:induction false} NoHeadings(xs: seq<LineInfo>)
    requires forall k :: 0 <= k < |xs| ==> xs[k].unit.None?
    ensures UnitHeadings(xs) == [] && LessonHeadings(xs) == []
  {
    if xs != [] {
      NoHeadings(xs[..|xs| - 1]);
    }
  }

  /** Only unit headings make units: with none, no unit, and no word or lesson is kept. */
  lemma NoUnitHeadings(xs: seq<LineInfo>, wordId: nat -> string)
    requires forall k :: 0 <= k < |xs| ==> xs[k].unit.None?
    ensures UnitHeadings(xs) == [] && Finish(Scan(xs, wordId)) == [] && KeptWords(xs, wordId) == []
  {
    NoHeadings(xs);
    ScanUnits(xs, wordId);
    ScanWords(xs, wordId);
  }

  /** A text without unit headings still gives a textbook, with no units and `…包含0个单元`. */
  lemma EmptyTextbook(text: string, now: nat, wordId: nat -> string)
    requires forall k :: 0 <= k < |Lines(text)| ==> HeadingOf("unit", Lines(text)[k]).None?
    ensures var t := Build(text, now, wordId);
            t.units == [] && t.info.description == Some(t.info.name + "包含0个单元")
  {
    var xs := Infos(Lines(text));
    assert forall k :: 0 <= k < |xs| ==> xs[k].unit == HeadingOf("unit", Lines(text)[k]);
    NoUnitHeadings(xs, wordId);
    DescriptionZero(Scan(xs, wordId).name);
  }
}
