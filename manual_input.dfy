/**
 * `components/ManualInput.tsx`: the list of hand-typed words and the three
 * input boxes.  The id's `Date.now()` and `Math.random()` parts are the
 * `now` and `random` parameters.
 */
module ManualInput {
  import opened Wrappers
  import opened Seqs
  import opened Text
  import opened Types

  /** `s.trim() || undefined` */
  function Optional(s: string): (r: Option<string>)
    ensures r != Some([])
  {
    var t := Trim(s);
    if t == [] then None else Some(t)
  }

  /** The word `addWord` builds from the three inputs. */
  function TypedWord(english: string, chinese: string, pronunciation: string, now: nat, random: string): Word {
    Word("manual-" + NatToString(now) + "-" + random, Trim(english), Optional(chinese), Optional(pronunciation),
         Some("beginner"), None, None, None, None)
  }

  /**
   * A typed word's english is non-empty and trimmed, its other texts are
   * trimmed and absent rather than empty, and its level is `beginner`.
   */
  lemma TypedWordShape(english: string, chinese: string, pronunciation: string, now: nat, random: string)
    requires !AllSpace(english)
    ensures var w := TypedWord(english, chinese, pronunciation, now, random);
            w.english != [] && Trim(w.english) == w.english
            && (w.chinese == None <==> AllSpace(chinese))
            && (w.chinese.Some? ==> Trim(w.chinese.value) == w.chinese.value)
            && (w.pronunciation == None <==> AllSpace(pronunciation))
            && (w.pronunciation.Some? ==> Trim(w.pronunciation.value) == w.pronunciation.value)
            && w.level == Some("beginner")
  {
    TrimEmptyIffAllSpace(english);
    TrimEmptyIffAllSpace(chinese);
    TrimEmptyIffAllSpace(pronunciation);
    TrimIdempotent(english);
    TrimIdempotent(chinese);
    TrimIdempotent(pronunciation);
  }

  /** `word => word.id !== id` */
  function OtherWord(id: string): Word -> bool {
    (w: Word) => w.id != id
  }

  /** Removing by id leaves exactly the words with other ids, in their order. */
  lemma RemoveExact(words: seq<Word>, id: string)
    ensures var r := Filter(words, OtherWord(id));
            Subseq(r, words)
            && (forall w :: w in r <==> w in words && w.id != id)
            && Filter(r, OtherWord(id)) == r
  {
    FilterKeeps(words, OtherWord(id));
    FilterTwice(words, OtherWord(id));
  }

  class Editor {
    var words: seq<Word>
    var english: string
    var chinese: string
    var pronunciation: string

    constructor ()
      ensures words == [] && english == [] && chinese == [] && pronunciation == []
    {
      words, english, chinese, pronunciation := [], [], [], [];
    }

    /** `addWord`: a blank english changes nothing; otherwise the word is appended and the inputs cleared. */
    method AddWord(now: nat, random: string)
      modifies this
      ensures AllSpace(old(english)) ==>
                words == old(words) && english == old(english) && chinese == old(chinese)
                && pronunciation == old(pronunciation)
      ensures !AllSpace(old(english)) ==>
                words == old(words) + [TypedWord(old(english), old(chinese), old(pronunciation), now, random)]
                && english == [] && chinese == [] && pronunciation == []
    {
      TrimEmptyIffAllSpace(english);
      if Trim(english) != [] {
        var newWord := TypedWord(english, chinese, pronunciation, now, random);
        words := words + [newWord];
        english, chinese, pronunciation := [], [], [];
      }
    }

    /** `removeWord(id)` */
    method RemoveWord(id: string)
      modifies this
      ensures words == Filter(old(words), OtherWord(id))
      ensures english == old(english) && chinese == old(chinese) && pronunciation == old(pronunciation)
    {
      words := Filter(words, OtherWord(id));
    }

    /** `handleSubmit`: hands the list on and empties it, only when it is not empty. */
    method HandleSubmit() returns (emitted: Option<seq<Word>>)
      modifies this
      ensures old(words) == [] ==> emitted == None && words == []
      ensures old(words) != [] ==> emitted == Some(old(words)) && words == []
      ensures english == old(english) && chinese == old(chinese) && pronunciation == old(pronunciation)
    {
      if |words| > 0 {
        emitted := Some(words);
        words := [];
      } else {
        emitted := None;
      }
    }

    /** `handleKeyPress`: Enter adds the word, as `addWord` does; any other key changes nothing. */
    method HandleKeyPress(key: string, now: nat, random: string)
      modifies this
      ensures key != "Enter" || AllSpace(old(english)) ==>
                words == old(words) && english == old(english) && chinese == old(chinese)
                && pronunciation == old(pronunciation)
      ensures key == "Enter" && !AllSpace(old(english)) ==>
                words == old(words) + [TypedWord(old(english), old(chinese), old(pronunciation), now, random)]
                && english == [] && chinese == [] && pronunciation == []
    {
      if key == "Enter" {
        AddWord(now, random);
      }
    }
  }
}
