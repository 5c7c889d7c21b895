/**
 * `data/textbookDatabase.ts`: the module-level textbook table, keyed by
 * the textbook's id, and the word getters that walk a textbook's units and
 * lessons.
 */
module TextbookDb {
  import opened Wrappers
  import opened Seqs
  import opened Types

  /** The words of the lessons, lesson after lesson. */
  function LessonsWords(lessons: seq<TextbookLesson>): seq<Word> {
    if lessons == [] then [] else LessonsWords(lessons[..|lessons| - 1]) + lessons[|lessons| - 1].words
  }

  /** The words of the units, unit after unit, each lesson after lesson. */
  function UnitsWords(units: seq<TextbookUnit>): seq<Word> {
    if units == [] then [] else UnitsWords(units[..|units| - 1]) + LessonsWords(units[|units| - 1].lessons)
  }

  /** Lesson `j`'s list sits unchanged, as one run, inside the words of its lessons. */
  lemma {:induction false} LessonInLessons(lessons: seq<TextbookLesson>, j: nat) returns (a: nat)
    requires j < |lessons|
    ensures a + |lessons[j].words| <= |LessonsWords(lessons)|
    ensures LessonsWords(lessons)[a..a + |lessons[j].words|] == lessons[j].words
  {
    var init := lessons[..|lessons| - 1];
    var prev := LessonsWords(init);
    if j == |lessons| - 1 {
      a := |prev|;
    } else {
      assert init[j] == lessons[j];
      a := LessonInLessons(init, j);
      SliceOfPrefix(prev, lessons[|lessons| - 1].words, a, a + |lessons[j].words|);
    }
  }

  /** Unit `i`'s words sit unchanged, as one run, inside the words of all units. */
  lemma {:induction false} UnitInUnits(units: seq<TextbookUnit>, i: nat) returns (a: nat)
    requires i < |units|
    ensures a + |LessonsWords(units[i].lessons)| <= |UnitsWords(units)|
    ensures UnitsWords(units)[a..a + |LessonsWords(units[i].lessons)|] == LessonsWords(units[i].lessons)
  {
    var init := units[..|units| - 1];
    var prev := UnitsWords(init);
    if i == |units| - 1 {
      a := |prev|;
    } else {
      assert init[i] == units[i];
      a := UnitInUnits(init, i);
      SliceOfPrefix(prev, LessonsWords(units[|units| - 1].lessons), a, a + |LessonsWords(units[i].lessons)|);
    }
  }

  lemma SliceOfPrefix<T>(p: seq<T>, q: seq<T>, a: nat, b: nat)
    requires a <= b <= |p|
    ensures (p + q)[a..b] == p[a..b]
  {
  }

  /** A word is among the units' words exactly when some lesson of some unit holds it. */
  lemma {:induction false} UnitsWordsMember(units: seq<TextbookUnit>, w: Word)
    ensures w in UnitsWords(units) <==>
            exists i, j :: 0 <= i < |units| && 0 <= j < |units[i].lessons| && w in units[i].lessons[j].words
  {
    if units != [] {
      var n := |units| - 1;
      var init, last := units[..n], units[n];
      assert UnitsWords(units) == UnitsWords(init) + LessonsWords(last.lessons);
      UnitsWordsMember(init, w);
      LessonsWordsMember(last.lessons, w);
      forall i | 0 <= i < n ensures units[i] == init[i] { }
      if w in UnitsWords(init) {
        var i, j :| 0 <= i < n && 0 <= j < |init[i].lessons| && w in init[i].lessons[j].words;
        assert 0 <= i < |units| && 0 <= j < |units[i].lessons| && w in units[i].lessons[j].words;
      } else if w in LessonsWords(last.lessons) {
        var j :| 0 <= j < |last.lessons| && w in last.lessons[j].words;
        assert 0 <= n < |units| && 0 <= j < |units[n].lessons| && w in units[n].lessons[j].words;
      } else {
        forall i, j | 0 <= i < |units| && 0 <= j < |units[i].lessons|
          ensures w !in units[i].lessons[j].words
        {
          if i < n {
            assert units[i] == init[i];
          }
        }
      }
    }
  }

  lemma {:induction false} LessonsWordsMember(lessons: seq<TextbookLesson>, w: Word)
    ensures w in LessonsWords(lessons) <==> exists j :: 0 <= j < |lessons| && w in lessons[j].words
  {
    if lessons != [] {
      var init := lessons[..|lessons| - 1];
      LessonsWordsMember(init, w);
      if w in LessonsWords(init) {
        var j :| 0 <= j < |init| && w in init[j].words;
        assert lessons[j] == init[j];
      }
      forall j | 0 <= j < |init| ensures lessons[j] == init[j] { }
    }
  }

  /** `unit.lessons.forEach(lesson => words.push(...lesson.words))` */
  method PushLessons(start: seq<Word>, lessons: seq<TextbookLesson>) returns (words: seq<Word>)
    ensures words == start + LessonsWords(lessons)
  {
    words := start;
    for j := 0 to |lessons|
      invariant words == start + LessonsWords(lessons[..j])
    {
      assert lessons[..j + 1][..j] == lessons[..j];
      words := words + lessons[j].words;
    }
    assert lessons[..|lessons|] == lessons;
  }

  /** `u => u.id === unitId` */
  function UnitIs(unitId: string): TextbookUnit -> bool {
    (u: TextbookUnit) => u.id == unitId
  }

  /** `l => l.id === lessonId` */
  function LessonIs(lessonId: string): TextbookLesson -> bool {
    (l: TextbookLesson) => l.id == lessonId
  }

  /**
   * The table `textbookDatabase`.  `keys` is the object's key order, the
   * order `Object.values` reports.  For keys that are not integer-like, as
   * every textbook id is, that is the order in which each key was first
   * added; JavaScript would list integer-like keys first, in ascending
   * order, and the model does not cover such ids.
   */
  class Catalog {
    var keys: seq<string>
    var books: map<string, TextbookData>

    ghost predicate Valid()
      reads this
    {
      (forall i, j :: 0 <= i < j < |keys| ==> keys[i] != keys[j])
      && (forall k :: k in books <==> k in keys)
    }

    /** The table holding the given textbooks under their ids, in that order. */
    constructor (initial: seq<TextbookData>)
      requires forall i, j :: 0 <= i < j < |initial| ==> initial[i].info.id != initial[j].info.id
      ensures Valid()
      ensures |keys| == |initial| && forall i :: 0 <= i < |initial| ==> keys[i] == initial[i].info.id && books[keys[i]] == initial[i]
    {
      var ks: seq<string> := [];
      var bs: map<string, TextbookData> := map[];
      for i := 0 to |initial|
        invariant |ks| == i
        invariant forall k :: 0 <= k < i ==> ks[k] == initial[k].info.id
        invariant forall k :: k in bs <==> k in ks
        invariant forall k :: 0 <= k < i ==> bs[ks[k]] == initial[k]
      {
        ks := ks + [initial[i].info.id];
        bs := bs[initial[i].info.id := initial[i]];
      }
      keys := ks;
      books := bs;
    }

    /** `getTextbookById`: the textbook stored under `id`, if any. */
    function GetTextbookById(id: string): (r: Option<TextbookData>)
      reads this
      ensures r.Some? <==> id in books
      ensures r.Some? ==> r.value == books[id]
    {
      if id in books then Some(books[id]) else None
    }

    /** `addPDFTextbook`: stores the textbook under its id, replacing any previous one in place. */
    method AddPDFTextbook(textbook: TextbookData)
      requires Valid()
      modifies this
      ensures Valid()
      ensures books == old(books)[textbook.info.id := textbook]
      ensures keys == if textbook.info.id in old(books) then old(keys) else old(keys) + [textbook.info.id]
      ensures GetTextbookById(textbook.info.id) == Some(textbook)
      ensures forall id :: id != textbook.info.id ==> GetTextbookById(id) == old(GetTextbookById(id))
    {
      if textbook.info.id !in books {
        keys := keys + [textbook.info.id];
      }
      books := books[textbook.info.id := textbook];
    }

    /** `getAvailableTextbooks`: every stored textbook once, in key order. */
    method GetAvailableTextbooks() returns (r: seq<TextbookData>)
      requires Valid()
      ensures |r| == |keys| && forall i :: 0 <= i < |r| ==> r[i] == books[keys[i]]
      ensures forall id :: id in books ==> books[id] in r
    {
      r := [];
      for i := 0 to |keys|
        invariant |r| == i && forall k :: 0 <= k < i ==> r[k] == books[keys[k]]
      {
        r := r + [books[keys[i]]];
      }
      forall id | id in books ensures books[id] in r {
        var i :| 0 <= i < |keys| && keys[i] == id;
        assert r[i] == books[id];
      }
    }

    /** `getAllWordsFromTextbook`: `[]` for an unknown id, else every lesson's words, units then lessons. */
    method GetAllWordsFromTextbook(textbookId: string) returns (words: seq<Word>)
      ensures textbookId !in books ==> words == []
      ensures textbookId in books ==> words == UnitsWords(books[textbookId].units)
    {
      if textbookId !in books {
        return [];
      }
      var textbook := books[textbookId];
      words := [];
      for i := 0 to |textbook.units|
        invariant words == UnitsWords(textbook.units[..i])
      {
        assert textbook.units[..i + 1][..i] == textbook.units[..i];
        words := PushLessons(words, textbook.units[i].lessons);
      }
      assert textbook.units[..|textbook.units|] == textbook.units;
    }

    /** Unit `i` of the textbook is the first one with that id. */
    predicate FirstUnitAt(textbookId: string, unitId: string, i: nat)
      reads this
    {
      textbookId in books && i < |books[textbookId].units|
      && books[textbookId].units[i].id == unitId
      && forall k :: 0 <= k < i ==> books[textbookId].units[k].id != unitId
    }

    /** Lesson `j` of the first unit `i` with that id is that unit's first lesson with its id. */
    predicate FirstLessonAt(textbookId: string, unitId: string, i: nat, lessonId: string, j: nat)
      reads this
    {
      FirstUnitAt(textbookId, unitId, i) && j < |books[textbookId].units[i].lessons|
      && books[textbookId].units[i].lessons[j].id == lessonId
      && forall k :: 0 <= k < j ==> books[textbookId].units[i].lessons[k].id != lessonId
    }

    /** The words `getWordsFromUnit` returns, as a value. */
    function UnitWords(textbookId: string, unitId: string): seq<Word>
      reads this
    {
      if textbookId !in books then []
      else match FindFirst(books[textbookId].units, UnitIs(unitId))
        case None => []
        case Some(i) => LessonsWords(books[textbookId].units[i].lessons)
    }

    /** `getWordsFromUnit`: `[]` if the textbook or the unit is missing, else the first such unit's lessons' words. */
    method GetWordsFromUnit(textbookId: string, unitId: string) returns (words: seq<Word>)
      ensures words == UnitWords(textbookId, unitId)
    {
      if textbookId !in books {
        return [];
      }
      var textbook := books[textbookId];
      var unit := FindFirst(textbook.units, UnitIs(unitId));
      if unit.None? {
        return [];
      }
      words := PushLessons([], textbook.units[unit.value].lessons);
    }

    /**
     * `getWordsFromLesson`: the list of the first lesson with that id inside
     * the first unit with that id, or `[]` when any of the three is missing.
     * Lesson ids repeat across units, so the lookup is always inside one unit.
     */
    function GetWordsFromLesson(textbookId: string, unitId: string, lessonId: string): seq<Word>
      reads this
    {
      if textbookId !in books then []
      else match FindFirst(books[textbookId].units, UnitIs(unitId))
        case None => []
        case Some(i) =>
          match FindFirst(books[textbookId].units[i].lessons, LessonIs(lessonId))
          case None => []
          case Some(j) => books[textbookId].units[i].lessons[j].words
    }

    /**
     * The unit lookup gives the words of the first unit with the id, and
     * `[]` when the textbook or the unit is missing.
     */
    lemma UnitLookup(textbookId: string, unitId: string)
      ensures textbookId !in books ==> UnitWords(textbookId, unitId) == []
      ensures textbookId in books && (forall i :: 0 <= i < |books[textbookId].units| ==> books[textbookId].units[i].id != unitId)
              ==> UnitWords(textbookId, unitId) == []
      ensures forall i: nat :: FirstUnitAt(textbookId, unitId, i)
                ==> UnitWords(textbookId, unitId) == LessonsWords(books[textbookId].units[i].lessons)
    {
    }

    /**
     * The lesson lookup finds the first lesson with the id inside the first
     * unit with the id, and gives `[]` when the textbook, the unit or the
     * lesson is missing.
     */
    lemma LessonLookup(textbookId: string, unitId: string, lessonId: string)
      ensures textbookId !in books ==> GetWordsFromLesson(textbookId, unitId, lessonId) == []
      ensures forall i: nat, j: nat :: FirstLessonAt(textbookId, unitId, i, lessonId, j)
                ==> GetWordsFromLesson(textbookId, unitId, lessonId) == books[textbookId].units[i].lessons[j].words
      ensures GetWordsFromLesson(textbookId, unitId, lessonId) != [] ==>
                exists i: nat, j: nat :: FirstLessonAt(textbookId, unitId, i, lessonId, j)
                  && GetWordsFromLesson(textbookId, unitId, lessonId) == books[textbookId].units[i].lessons[j].words
    {
    }

    /**
     * A lesson's words are one unchanged run of its unit's words, which are
     * one run of the whole textbook's words.
     */
    lemma LessonWithinUnitWithinBook(textbookId: string, unitId: string, lessonId: string) returns (a: nat, b: nat)
      requires textbookId in books
      ensures var lesson := GetWordsFromLesson(textbookId, unitId, lessonId);
              var unit := UnitWords(textbookId, unitId);
              var all := UnitsWords(books[textbookId].units);
              a + |lesson| <= |unit| && unit[a..a + |lesson|] == lesson
              && b + |unit| <= |all| && all[b..b + |unit|] == unit
    {
      var units := books[textbookId].units;
      a, b := 0, 0;
      var i := FindFirst(units, UnitIs(unitId));
      if i.Some? {
        b := UnitInUnits(units, i.value);
        var j := FindFirst(units[i.value].lessons, LessonIs(lessonId));
        if j.Some? {
          a := LessonInLessons(units[i.value].lessons, j.value);
        }
      }
    }
  }
}
