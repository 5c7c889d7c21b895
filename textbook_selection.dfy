/**
 * `components/TextbookSelection.tsx`: the chosen textbook, unit and lesson,
 * the set of expanded units, and the words a "start learning" button hands on.
 */
module TextbookSelection {
  import opened Wrappers
  import opened Types
  import opened TextbookDb

  /** `scope`: `'textbook' | 'unit' | 'lesson'`. */
  datatype Scope = WholeTextbook | OneUnit | OneLesson

  /** The set with `x`'s membership flipped. */
  function Toggle(s: set<string>, x: string): set<string> {
    if x in s then s - {x} else s + {x}
  }

  /** Toggling flips `x` alone, and toggling twice restores the set. */
  lemma ToggleFlipsOne(s: set<string>, x: string)
    ensures x in Toggle(s, x) <==> x !in s
    ensures forall y :: y != x ==> (y in Toggle(s, x) <==> y in s)
    ensures Toggle(Toggle(s, x), x) == s
  {
  }

  /** `a || b` on two optional objects. */
  function Or<T>(a: Option<T>, b: Option<T>): Option<T> {
    if a.Some? then a else b
  }

  /** `words.length > 0` decides whether the words are handed on. */
  function Emitted(words: seq<Word>): (r: Option<seq<Word>>)
    ensures r.Some? <==> words != []
    ensures r.Some? ==> r.value == words
  {
    if |words| > 0 then Some(words) else None
  }

  class Selector {
    var selectedTextbook: Option<TextbookData>
    var selectedUnit: Option<TextbookUnit>
    var selectedLesson: Option<TextbookLesson>
    var expandedUnits: set<string>

    constructor ()
      ensures selectedTextbook == None && selectedUnit == None && selectedLesson == None && expandedUnits == {}
    {
      selectedTextbook, selectedUnit, selectedLesson, expandedUnits := None, None, None, {};
    }

    /** `toggleUnit` */
    method ToggleUnit(unitId: string)
      modifies this
      ensures expandedUnits == Toggle(old(expandedUnits), unitId)
      ensures selectedTextbook == old(selectedTextbook) && selectedUnit == old(selectedUnit)
      ensures selectedLesson == old(selectedLesson)
    {
      var newExpanded := expandedUnits;
      if unitId in newExpanded {
        newExpanded := newExpanded - {unitId};
      } else {
        newExpanded := newExpanded + {unitId};
      }
      expandedUnits := newExpanded;
    }

    /** `handleTextbookSelect`: a new textbook clears the unit, the lesson and the expanded set. */
    method HandleTextbookSelect(textbook: TextbookData)
      modifies this
      ensures selectedTextbook == Some(textbook) && selectedUnit == None && selectedLesson == None
      ensures expandedUnits == {}
    {
      selectedTextbook := Some(textbook);
      selectedUnit := None;
      selectedLesson := None;
      expandedUnits := {};
    }

    /** `handleUnitSelect`: a new unit clears the lesson. */
    method HandleUnitSelect(unit: TextbookUnit)
      modifies this
      ensures selectedUnit == Some(unit) && selectedLesson == None
      ensures selectedTextbook == old(selectedTextbook) && expandedUnits == old(expandedUnits)
    {
      selectedUnit := Some(unit);
      selectedLesson := None;
    }

    /** `handleLessonSelect` */
    method HandleLessonSelect(lesson: TextbookLesson)
      modifies this
      ensures selectedLesson == Some(lesson)
      ensures selectedTextbook == old(selectedTextbook) && selectedUnit == old(selectedUnit)
      ensures expandedUnits == old(expandedUnits)
    {
      selectedLesson := Some(lesson);
    }

    /** `goBack`: clears the deepest selection that is set, and only that one. */
    method GoBack()
      modifies this
      ensures old(selectedLesson).Some? ==>
                selectedLesson == None && selectedUnit == old(selectedUnit) && selectedTextbook == old(selectedTextbook)
      ensures old(selectedLesson).None? && old(selectedUnit).Some? ==>
                selectedLesson == None && selectedUnit == None && selectedTextbook == old(selectedTextbook)
      ensures old(selectedLesson).None? && old(selectedUnit).None? ==>
                selectedLesson == None && selectedUnit == None && selectedTextbook == None
      ensures expandedUnits == old(expandedUnits)
    {
      if selectedLesson.Some? {
        selectedLesson := None;
      } else if selectedUnit.Some? {
        selectedUnit := None;
      } else if selectedTextbook.Some? {
        selectedTextbook := None;
      }
    }

    /**
     * The words a scope asks the catalog for, the unit and lesson given as
     * arguments taking precedence over the selected ones.
     */
    function ScopeWords(catalog: Catalog, textbookId: string, scope: Scope, unit: Option<TextbookUnit>, lesson: Option<TextbookLesson>): seq<Word>
      reads this, catalog
    {
      var unitToUse := Or(unit, selectedUnit);
      var lessonToUse := Or(lesson, selectedLesson);
      match scope
      case WholeTextbook => if textbookId in catalog.books then UnitsWords(catalog.books[textbookId].units) else []
      case OneUnit => if unitToUse.Some? then catalog.UnitWords(textbookId, unitToUse.value.id) else []
      case OneLesson =>
        if unitToUse.Some? && lessonToUse.Some?
        then catalog.GetWordsFromLesson(textbookId, unitToUse.value.id, lessonToUse.value.id)
        else []
    }

    /**
     * `handleStartLearning`: nothing without a selected textbook; otherwise
     * the scope's words, looked up by the selected textbook's id, handed on
     * only when there are some.
     */
    method HandleStartLearning(catalog: Catalog, scope: Scope, unit: Option<TextbookUnit>, lesson: Option<TextbookLesson>)
      returns (emitted: Option<seq<Word>>)
      ensures selectedTextbook.None? ==> emitted == None
      ensures selectedTextbook.Some? ==>
                emitted == Emitted(ScopeWords(catalog, selectedTextbook.value.info.id, scope, unit, lesson))
      ensures emitted.Some? ==> emitted.value != []
    {
      if selectedTextbook.None? {
        return None;
      }
      var id := selectedTextbook.value.info.id;
      var words: seq<Word> := [];
      match scope {
        case WholeTextbook =>
          words := catalog.GetAllWordsFromTextbook(id);
        case OneUnit =>
          var unitToUse := Or(unit, selectedUnit);
          if unitToUse.Some? {
            words := catalog.GetWordsFromUnit(id, unitToUse.value.id);
          }
        case OneLesson =>
          var unitForLesson := Or(unit, selectedUnit);
          var lessonToUse := Or(lesson, selectedLesson);
          if unitForLesson.Some? && lessonToUse.Some? {
            words := catalog.GetWordsFromLesson(id, unitForLesson.value.id, lessonToUse.value.id);
          }
      }
      emitted := Emitted(words);
    }
  }
}
