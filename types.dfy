/** The records of `types.ts`: words and the textbook tree. */
module Types {
  import opened Wrappers
  import opened Seqs

  /**
   * A vocabulary word.  Optional fields are `None` when the record has no
   * such property (`undefined`).  `level` is a string because imported JSON
   * may hold any value there.
   */
  datatype Word = Word(
    id: string,
    english: string,
    chinese: Option<string>,
    pronunciation: Option<string>,
    level: Option<string>,
    category: Option<string>,
    textbook: Option<string>,
    unit: Option<string>,
    lesson: Option<string>)

  datatype TextbookInfo = TextbookInfo(
    id: string,
    name: string,
    publisher: string,
    grade: string,
    semester: string,
    region: string,
    description: Option<string>)

  datatype TextbookLesson = TextbookLesson(id: string, name: string, description: Option<string>, words: seq<Word>)

  datatype TextbookUnit = TextbookUnit(id: string, name: string, description: Option<string>, lessons: seq<TextbookLesson>)

  datatype TextbookData = TextbookData(info: TextbookInfo, units: seq<TextbookUnit>)

  /** A word with only the given properties set. */
  function BareWord(id: string, english: string, chinese: Option<string>, pronunciation: Option<string>): Word {
    Word(id, english, chinese, pronunciation, None, None, None, None, None)
  }

  /** No two words of the list share an id. */
  predicate UniqueIds(ws: seq<Word>) {
    forall i, j :: 0 <= i < j < |ws| ==> ws[i].id != ws[j].id
  }

  /** Each part holds at most one word, and the word of part `k` has id `ids[k]`. */
  predicate IdentifiedParts(rs: seq<seq<Word>>, ids: seq<string>) {
    |rs| == |ids|
    && forall k :: 0 <= k < |rs| ==> |rs[k]| <= 1 && forall w: Word :: w in rs[k] ==> w.id == ids[k]
  }

  /** Parts numbered by distinct ids flatten to a list with unique ids. */
  lemma {:induction false} FlattenUniqueIds(rs: seq<seq<Word>>, ids: seq<string>)
    requires IdentifiedParts(rs, ids)
    requires forall i, j :: 0 <= i < j < |ids| ==> ids[i] != ids[j]
    ensures UniqueIds(Flatten(rs))
  {
    if rs != [] {
      var init, last := rs[..|rs| - 1], rs[|rs| - 1];
      var ids' := ids[..|ids| - 1];
      assert IdentifiedParts(init, ids') by {
        forall k | 0 <= k < |init| ensures init[k] == rs[k] && ids'[k] == ids[k] { }
      }
      FlattenUniqueIds(init, ids');
      var prev := Flatten(init);
      var ws := Flatten(rs);
      assert ws == prev + last;
      forall i, j | 0 <= i < j < |ws|
        ensures ws[i].id != ws[j].id
      {
        if j >= |prev| {
          assert ws[j] == last[j - |prev|] && ws[i] == prev[i];
          assert ws[j] in last;
          var k := FlattenMember(init, prev[i]);
          assert init[k] == rs[k];
          assert ws[i].id == ids[k] && ws[j].id == ids[|rs| - 1];
        } else {
          assert ws[i] == prev[i] && ws[j] == prev[j];
        }
      }
    }
  }
}
