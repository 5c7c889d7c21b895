/**
 * `data/wordDatabase.ts`: the three level pools and `getRandomWords`.  The
 * pools are parameters (the catalog itself is data), and every
 * `Math.random()` shuffle is an index permutation given by the caller.
 */
module WordDb {
  import opened Wrappers
  import opened Seqs
  import opened Types

  datatype Level = Beginner | Intermediate | Advanced {
    /** The pool's key, which its words carry as their `level`. */
    function Key(): string {
      match this
      case Beginner => "beginner"
      case Intermediate => "intermediate"
      case Advanced => "advanced"
    }
  }

  /** `level`: one pool, or `'mixed'`. */
  datatype Choice = Single(level: Level) | Mixed

  /** `wordDatabase`: a word list per level. */
  datatype Pools = Pools(beginner: seq<Word>, intermediate: seq<Word>, advanced: seq<Word>) {
    function Of(level: Level): seq<Word> {
      match level
      case Beginner => beginner
      case Intermediate => intermediate
      case Advanced => advanced
    }
  }

  /** The shape of the shipped catalog: each word's level is its pool's key and no id repeats. */
  predicate CatalogShape(pools: Pools) {
    (forall l: Level, w :: w in pools.Of(l) ==> w.level == Some(l.Key()))
    && UniqueIds(pools.beginner + pools.intermediate + pools.advanced)
  }

  /** The outcome of one pool's `[...levelWords].sort(() => Math.random() - 0.5)` for each level. */
  datatype Shuffles = Shuffles(beginner: seq<nat>, intermediate: seq<nat>, advanced: seq<nat>) {
    function Of(level: Level): seq<nat> {
      match level
      case Beginner => beginner
      case Intermediate => intermediate
      case Advanced => advanced
    }
  }

  predicate ShufflesFit(pools: Pools, shuffles: Shuffles) {
    forall l: Level :: IsPermutation(shuffles.Of(l), |pools.Of(l)|)
  }

  /** `['beginner', 'intermediate', 'advanced'][index]` */
  function LevelAt(index: nat): Level
    requires index < 3
  {
    if index == 0 then Beginner else if index == 1 then Intermediate else Advanced
  }

  /** In mixed mode, level `index` asks for a third of `count`, the first `count % 3` levels one more. */
  function Share(count: nat, index: nat): nat {
    count / 3 + (if index < count % 3 then 1 else 0)
  }

  lemma SharesAddUp(count: nat)
    ensures Share(count, 0) + Share(count, 1) + Share(count, 2) == count
  {
  }

  function Min(a: nat, b: nat): nat {
    if a < b then a else b
  }

  /** The words level `index` contributes in mixed mode: the first `Share` of its shuffled pool. */
  function Contribution(pools: Pools, shuffles: Shuffles, count: nat, index: nat): seq<Word>
    requires ShufflesFit(pools, shuffles) && index < 3
  {
    var level := LevelAt(index);
    Take(Permute(pools.Of(level), shuffles.Of(level)), Share(count, index))
  }

  /** The contributions of the first `index` levels, in level order. */
  function MixedPrefix(pools: Pools, shuffles: Shuffles, count: nat, index: nat): (r: seq<Word>)
    requires ShufflesFit(pools, shuffles) && index <= 3
    ensures |r| == (if index > 0 then Min(Share(count, 0), |pools.beginner|) else 0)
                   + (if index > 1 then Min(Share(count, 1), |pools.intermediate|) else 0)
                   + (if index > 2 then Min(Share(count, 2), |pools.advanced|) else 0)
  {
    if index == 0 then []
    else MixedPrefix(pools, shuffles, count, index - 1) + Contribution(pools, shuffles, count, index - 1)
  }

  /** The words chosen before the final shuffle. */
  function Selection(pools: Pools, choice: Choice, count: nat, shuffles: Shuffles): (r: seq<Word>)
    requires ShufflesFit(pools, shuffles)
    ensures |r| == SelectionSize(pools, choice, count)
  {
    match choice
    case Single(level) =>
      Take(Permute(pools.Of(level), shuffles.Of(level)), Min(count, |pools.Of(level)|))
    case Mixed => MixedPrefix(pools, shuffles, count, 3)
  }

  /** How many words are chosen; it does not depend on the shuffles. */
  function SelectionSize(pools: Pools, choice: Choice, count: nat): nat
  {
    match choice
    case Single(level) => Min(count, |pools.Of(level)|)
    case Mixed =>
      Min(Share(count, 0), |pools.beginner|) + Min(Share(count, 1), |pools.intermediate|)
      + Min(Share(count, 2), |pools.advanced|)
  }

  /** `getRandomWords(level, count)`. */
  method GetRandomWords(pools: Pools, choice: Choice, count: nat, shuffles: Shuffles, final: seq<nat>)
    returns (words: seq<Word>)
    requires ShufflesFit(pools, shuffles)
    requires IsPermutation(final, SelectionSize(pools, choice, count))
    ensures |words| == SelectionSize(pools, choice, count)
    ensures forall i :: 0 <= i < |words| ==> words[i] == Selection(pools, choice, count, shuffles)[final[i]]
    ensures multiset(words) == multiset(Selection(pools, choice, count, shuffles))
  {
    words := [];
    if choice.Mixed? {
      var wordsPerLevel := count / 3;
      var remainder := count % 3;
      for index := 0 to 3
        invariant words == MixedPrefix(pools, shuffles, count, index)
      {
        var level := LevelAt(index);
        var levelWords := pools.Of(level);
        var wordCount := wordsPerLevel + (if index < remainder then 1 else 0);
        var shuffled := Permute(levelWords, shuffles.Of(level));
        assert wordCount == Share(count, index);
        words := words + Take(shuffled, wordCount);
      }
    } else {
      var levelWords := pools.Of(choice.level);
      var shuffled := Permute(levelWords, shuffles.Of(choice.level));
      words := Take(shuffled, Min(count, |levelWords|));
    }
    assert words == Selection(pools, choice, count, shuffles);
    PermuteMultiset(words, final);
    words := Permute(words, final);
  }

  /** A shuffled pool's leading words are distinct words of that pool. */
  lemma TakeShuffled(pool: seq<Word>, p: seq<nat>, k: nat)
    requires IsPermutation(p, |pool|)
    ensures var r := Take(Permute(pool, p), k);
            |r| == Min(k, |pool|)
            && (forall w :: w in r ==> w in pool)
            && (UniqueIds(pool) ==> UniqueIds(r))
  {
    var s := Permute(pool, p);
    var r := Take(s, k);
    forall w | w in r ensures w in pool {
      var i :| 0 <= i < |r| && r[i] == w;
      assert s[i] == pool[p[i]];
    }
    if UniqueIds(pool) {
      forall i, j | 0 <= i < j < |r| ensures r[i].id != r[j].id {
        assert r[i] == pool[p[i]] && r[j] == pool[p[j]];
      }
    }
  }

  /**
   * One level: `min(count, |pool|)` words, all from that pool, none twice
   * when the pool's ids are distinct, each with the pool's level in the
   * shipped catalog's shape.
   */
  lemma SingleLevelWords(pools: Pools, level: Level, count: nat, shuffles: Shuffles, words: seq<Word>)
    requires ShufflesFit(pools, shuffles)
    requires multiset(words) == multiset(Selection(pools, Single(level), count, shuffles))
    ensures |words| == Min(count, |pools.Of(level)|)
    ensures forall w :: w in words ==> w in pools.Of(level)
    ensures CatalogShape(pools) ==> forall w :: w in words ==> w.level == Some(level.Key())
    ensures UniqueIds(pools.Of(level)) ==> forall i, j :: 0 <= i < j < |words| ==> words[i] != words[j]
  {
    var sel := Selection(pools, Single(level), count, shuffles);
    assert |words| == |multiset(words)| == |sel|;
    TakeShuffled(pools.Of(level), shuffles.Of(level), Min(count, |pools.Of(level)|));
    forall w | w in words ensures w in pools.Of(level) {
      assert w in multiset(sel);
    }
    if UniqueIds(pools.Of(level)) {
      forall w ensures multiset(words)[w] <= 1 {
        OnceInUnique(sel, w);
      }
      DistinctFromCounts(words);
    }
  }

  /** A list holding each word at most once has no two equal positions. */
  lemma DistinctFromCounts(words: seq<Word>)
    requires forall w :: multiset(words)[w] <= 1
    ensures forall i, j :: 0 <= i < j < |words| ==> words[i] != words[j]
  {
    forall i, j | 0 <= i < j < |words| ensures words[i] != words[j] {
      TwoPlaces(words, i, j);
    }
  }

  /** Two positions holding the same word make it occur twice. */
  lemma TwoPlaces(words: seq<Word>, i: nat, j: nat)
    requires i < j < |words|
    ensures words[i] == words[j] ==> multiset(words)[words[i]] >= 2
  {
    assert words == words[..i] + [words[i]] + words[i + 1..j] + [words[j]] + words[j + 1..];
  }

  lemma {:induction false} OnceInUnique(s: seq<Word>, w: Word)
    requires UniqueIds(s)
    ensures multiset(s)[w] <= 1
  {
    if s != [] {
      var init := s[..|s| - 1];
      assert s == init + [s[|s| - 1]];
      assert UniqueIds(init) by {
        forall i, j | 0 <= i < j < |init| ensures init[i].id != init[j].id {
          assert init[i] == s[i] && init[j] == s[j];
        }
      }
      OnceInUnique(init, w);
      if s[|s| - 1] == w {
        assert w !in init by {
          forall i | 0 <= i < |init| ensures init[i] != w {
            assert init[i] == s[i];
          }
        }
      }
    }
  }

  /**
   * Mixed mode: level `index` contributes `floor(count/3)`, plus one for the
   * first `count % 3` levels, capped by its pool; the result reorders the
   * three contributions.
   */
  lemma MixedWords(pools: Pools, count: nat, shuffles: Shuffles, words: seq<Word>)
    requires ShufflesFit(pools, shuffles)
    requires multiset(words) == multiset(Selection(pools, Mixed, count, shuffles))
    ensures multiset(words) == multiset(Contribution(pools, shuffles, count, 0))
                               + multiset(Contribution(pools, shuffles, count, 1))
                               + multiset(Contribution(pools, shuffles, count, 2))
    ensures forall index :: 0 <= index < 3 ==>
              |Contribution(pools, shuffles, count, index)| == Min(Share(count, index), |pools.Of(LevelAt(index))|)
              && forall w :: w in Contribution(pools, shuffles, count, index) ==> w in pools.Of(LevelAt(index))
  {
    var c0 := Contribution(pools, shuffles, count, 0);
    var c1 := Contribution(pools, shuffles, count, 1);
    var c2 := Contribution(pools, shuffles, count, 2);
    assert MixedPrefix(pools, shuffles, count, 1) == [] + c0;
    assert MixedPrefix(pools, shuffles, count, 3) == [] + c0 + c1 + c2;
    forall index | 0 <= index < 3
      ensures |Contribution(pools, shuffles, count, index)| == Min(Share(count, index), |pools.Of(LevelAt(index))|)
      ensures forall w :: w in Contribution(pools, shuffles, count, index) ==> w in pools.Of(LevelAt(index))
    {
      var level := LevelAt(index);
      TakeShuffled(pools.Of(level), shuffles.Of(level), Share(count, index));
    }
  }

  /** With pools of at least 30 words, a mixed request of up to 90 words is met exactly. */
  lemma FullPoolsMeetCount(pools: Pools, count: nat)
    requires |pools.beginner| >= 30 && |pools.intermediate| >= 30 && |pools.advanced| >= 30
    requires count <= 90
    ensures SelectionSize(pools, Mixed, count) == count
  {
    SharesAddUp(count);
  }

  /** Ids distinct across the three pools are distinct within each. */
  lemma PoolIdsDistinct(pools: Pools, l: Level)
    requires UniqueIds(pools.beginner + pools.intermediate + pools.advanced)
    ensures UniqueIds(pools.Of(l))
  {
    var all := pools.beginner + pools.intermediate + pools.advanced;
    var off := match l case Beginner => 0 case Intermediate => |pools.beginner|
                        case Advanced => |pools.beginner| + |pools.intermediate|;
    var pool := pools.Of(l);
    forall i, j | 0 <= i < j < |pool| ensures pool[i].id != pool[j].id {
      assert all[off + i] == pool[i] && all[off + j] == pool[j];
    }
  }

  /**
   * In the shipped catalog's shape a mixed result never repeats a word: each
   * pool's words are distinct, and a word's level names the one pool it can
   * come from.
   */
  lemma MixedDistinct(pools: Pools, count: nat, shuffles: Shuffles, words: seq<Word>)
    requires ShufflesFit(pools, shuffles) && CatalogShape(pools)
    requires multiset(words) == multiset(Selection(pools, Mixed, count, shuffles))
    ensures forall i, j :: 0 <= i < j < |words| ==> words[i] != words[j]
  {
    MixedWords(pools, count, shuffles, words);
    forall w ensures multiset(words)[w] <= 1 {
      forall index | 0 <= index < 3
        ensures multiset(Contribution(pools, shuffles, count, index))[w] <= 1
        ensures multiset(Contribution(pools, shuffles, count, index))[w] > 0 ==> w.level == Some(LevelAt(index).Key())
      {
        var level := LevelAt(index);
        var c := Contribution(pools, shuffles, count, index);
        PoolIdsDistinct(pools, level);
        TakeShuffled(pools.Of(level), shuffles.Of(level), Share(count, index));
        OnceInUnique(c, w);
      }
    }
    DistinctFromCounts(words);
  }
}
