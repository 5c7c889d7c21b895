/**
 * A backtracking matcher for the regular expressions the app uses, with
 * JavaScript's semantics.
 *
 * Every pattern in the parsers is a flat sequence of terms: a single
 * character class, a repetition `k{min,}` of one class (greedy or lazy, and
 * possibly a capture group around it), or the end anchor `$`.  For such a
 * pattern JavaScript's backtracking is exactly: a greedy repetition first
 * takes the longest run of class characters and gives back one character at
 * a time; a lazy one takes `min` characters first and then one more at a
 * time; the first combination for which the rest of the pattern matches wins.
 */
module Regex {
  import opened Wrappers
  import opened Text
  import opened Seqs

  /** Character classes. */
  datatype Class =
    | Dot               // `.` : anything but a line terminator
    | Space             // `\s`
    | NotSpace          // `\S`, also `[^\s\n]`
    | Digit             // `\d`
    | WordChar          // `\w`
    | Letter            // `[a-zA-Z]`
    | Han              // `[一-龥]`
    | Char(c: char)     // a literal character
    | Caseless(c: char) // a literal letter under the `i` flag
    | SpaceOr(c: char)  // `[\sc]`
    | Among(cs: seq<char>) // `[...]` listing characters
    | Except(c: char)   // `[^c]`

  predicate In(k: Class, d: char) {
    match k
    case Dot => !IsLineTerminator(d)
    case Space => IsSpace(d)
    case NotSpace => !IsSpace(d)
    case Digit => IsDigit(d)
    case WordChar => IsWordChar(d)
    case Letter => IsAsciiLetter(d)
    case Han => IsHan(d)
    case Char(c) => d == c
    case Caseless(c) => LowerChar(d) == LowerChar(c)
    case SpaceOr(c) => IsSpace(d) || d == c
    case Among(cs) => d in cs
    case Except(c) => d != c
  }

  datatype Term =
    | One(k: Class)
    | Rep(k: Class, min: nat, lazy: bool, capture: bool)
    | End

  /** `anchored` is a leading `^`; without it the pattern is searched for. */
  datatype Pattern = Pattern(anchored: bool, terms: seq<Term>)

  /** A match of the terms from some position: where it ends and what the groups hold. */
  datatype Hit = Hit(end: nat, caps: seq<string>)

  /** A match found by a search: where it starts and ends and what the groups hold. */
  datatype Found = Found(start: nat, end: nat, caps: seq<string>)

  function Captures(ts: seq<Term>): nat {
    if ts == [] then 0
    else (if ts[0].Rep? && ts[0].capture then 1 else 0) + Captures(ts[1..])
  }

  /** Length of the longest run of class-`k` characters starting at `pos`. */
  function Run(k: Class, s: string, pos: nat): (n: nat)
    requires pos <= |s|
    ensures pos + n <= |s|
    ensures forall i :: pos <= i < pos + n ==> In(k, s[i])
    ensures pos + n == |s| || !In(k, s[pos + n])
    decreases |s| - pos
  {
    if pos == |s| || !In(k, s[pos]) then 0 else 1 + Run(k, s, pos + 1)
  }

  /** The first match of `ts` at `pos` in JavaScript's backtracking order. */
  function Match(ts: seq<Term>, s: string, pos: nat): (r: Option<Hit>)
    requires pos <= |s|
    ensures r.Some? ==> pos <= r.value.end <= |s| && |r.value.caps| == Captures(ts)
    decreases |s| - pos, |ts|, 1
  {
    if ts == [] then Some(Hit(pos, []))
    else match ts[0]
      case End => if pos == |s| then Match(ts[1..], s, pos) else None
      case One(k) => if pos < |s| && In(k, s[pos]) then Match(ts[1..], s, pos + 1) else None
      case Rep(k, min, lazy, _) =>
        var run := Run(k, s, pos);
        if run < min then None
        else TryCount(ts, s, pos, run, if lazy then min else run)
  }

  /**
   * The repetition `ts[0]` takes `n` characters; if the rest fails, the next
   * count in backtracking order is tried: one more for a lazy repetition, one
   * fewer for a greedy one.
   */
  function TryCount(ts: seq<Term>, s: string, pos: nat, run: nat, n: nat): (r: Option<Hit>)
    requires pos <= |s| && ts != [] && ts[0].Rep? && run == Run(ts[0].k, s, pos)
    requires ts[0].min <= n <= run
    ensures r.Some? ==> pos <= r.value.end <= |s| && |r.value.caps| == Captures(ts)
    decreases |s| - pos, |ts|, 0, if ts[0].lazy then run - n else n
  {
    match Match(ts[1..], s, pos + n)
    case Some(h) =>
      Some(Hit(h.end, if ts[0].capture then [s[pos..pos + n]] + h.caps else h.caps))
    case None =>
      if ts[0].lazy then (if n < run then TryCount(ts, s, pos, run, n + 1) else None)
      else (if n > ts[0].min then TryCount(ts, s, pos, run, n - 1) else None)
  }

  /** The first position from `from` on where `ts` matches, and that match. */
  function SearchFrom(ts: seq<Term>, s: string, from: nat): (r: Option<Found>)
    requires from <= |s|
    ensures r.Some? ==> from <= r.value.start <= r.value.end <= |s|
    ensures r.Some? ==> |r.value.caps| == Captures(ts)
    decreases |s| - from
  {
    match Match(ts, s, from)
    case Some(h) => Some(Found(from, h.end, h.caps))
    case None => if from == |s| then None else SearchFrom(ts, s, from + 1)
  }

  /** `s.match(p)` for a pattern without the `g` flag (`exec` from index 0). */
  function Exec(p: Pattern, s: string): (r: Option<Found>)
    ensures r.Some? ==> r.value.start <= r.value.end <= |s|
    ensures r.Some? ==> |r.value.caps| == Captures(p.terms)
    ensures r.Some? && p.anchored ==> r.value.start == 0
  {
    if p.anchored then
      match Match(p.terms, s, 0)
      case Some(h) => Some(Found(0, h.end, h.caps))
      case None => None
    else SearchFrom(p.terms, s, 0)
  }

  /** An anchored pattern is found where its terms match from the start. */
  lemma ExecAnchored(p: Pattern, s: string, h: Hit)
    requires p.anchored && Match(p.terms, s, 0) == Some(h)
    ensures Exec(p, s) == Some(Found(0, h.end, h.caps))
  {
  }

  // ---------------------------------------------------------------------
  // What a match implies
  // ---------------------------------------------------------------------

  /** A term that consumes at least one character of its class. */
  predicate Needs(t: Term, k: Class) {
    (t.One? && t.k == k) || (t.Rep? && t.k == k && t.min >= 1)
  }

  /** Some character of `s` from `pos` on is in class `k`. */
  predicate OccursFrom(k: Class, s: string, pos: nat) {
    exists i :: pos <= i < |s| && In(k, s[i])
  }

  /**
   * A match needs one character of each class that some term consumes:
   * a string without such a character cannot match.
   */
  lemma {:induction false} MatchNeeds(ts: seq<Term>, s: string, pos: nat, j: nat, k: Class)
    requires pos <= |s| && j < |ts| && Needs(ts[j], k)
    requires Match(ts, s, pos).Some?
    ensures OccursFrom(k, s, pos)
    decreases |s| - pos, |ts|, 1
  {
    match ts[0]
    case End =>
      MatchNeeds(ts[1..], s, pos, j - 1, k);
    case One(c) =>
      if j == 0 {
        assert In(k, s[pos]);
      } else {
        MatchNeeds(ts[1..], s, pos + 1, j - 1, k);
      }
    case Rep(c, min, lazy, _) =>
      var run := Run(c, s, pos);
      TryCountNeeds(ts, s, pos, run, if lazy then min else run, j, k);
  }

  lemma {:induction false} TryCountNeeds(ts: seq<Term>, s: string, pos: nat, run: nat, n: nat, j: nat, k: Class)
    requires pos <= |s| && ts != [] && ts[0].Rep? && run == Run(ts[0].k, s, pos)
    requires ts[0].min <= n <= run
    requires j < |ts| && Needs(ts[j], k)
    requires TryCount(ts, s, pos, run, n).Some?
    ensures OccursFrom(k, s, pos)
    decreases |s| - pos, |ts|, 0, if ts[0].lazy then run - n else n
  {
    if Match(ts[1..], s, pos + n).Some? {
      if j == 0 {
        assert In(k, s[pos]);
      } else {
        MatchNeeds(ts[1..], s, pos + n, j - 1, k);
      }
    } else if ts[0].lazy {
      TryCountNeeds(ts, s, pos, run, n + 1, j, k);
    } else {
      TryCountNeeds(ts, s, pos, run, n - 1, j, k);
    }
  }

  /** A search needs the same characters as a match. */
  lemma {:induction false} SearchNeeds(ts: seq<Term>, s: string, from: nat, j: nat, k: Class)
    requires from <= |s| && j < |ts| && Needs(ts[j], k)
    requires SearchFrom(ts, s, from).Some?
    ensures OccursFrom(k, s, from)
    decreases |s| - from
  {
    if Match(ts, s, from).Some? {
      MatchNeeds(ts, s, from, j, k);
    } else {
      SearchNeeds(ts, s, from + 1, j, k);
    }
  }

  lemma ExecNeeds(p: Pattern, s: string, j: nat, k: Class)
    requires j < |p.terms| && Needs(p.terms[j], k)
    requires Exec(p, s).Some?
    ensures OccursFrom(k, s, 0)
  {
    if p.anchored {
      MatchNeeds(p.terms, s, 0, j, k);
    } else {
      SearchNeeds(p.terms, s, 0, j, k);
    }
  }

  /**
   * A leading capturing repetition captures a prefix of the text from `pos`
   * of at least `min` characters.
   */
  lemma FirstCapture(ts: seq<Term>, s: string, pos: nat)
    requires pos <= |s| && ts != [] && ts[0].Rep? && ts[0].capture
    requires Match(ts, s, pos).Some?
    ensures var h := Match(ts, s, pos).value;
            |h.caps| >= 1 && ts[0].min <= |h.caps[0]| <= Run(ts[0].k, s, pos)
            && h.caps[0] == s[pos..pos + |h.caps[0]|]
  {
    var run := Run(ts[0].k, s, pos);
    TryCountFirst(ts, s, pos, run, if ts[0].lazy then ts[0].min else run);
  }

  lemma {:induction false} TryCountFirst(ts: seq<Term>, s: string, pos: nat, run: nat, n: nat)
    requires pos <= |s| && ts != [] && ts[0].Rep? && ts[0].capture && run == Run(ts[0].k, s, pos)
    requires ts[0].min <= n <= run
    requires TryCount(ts, s, pos, run, n).Some?
    ensures var h := TryCount(ts, s, pos, run, n).value;
            |h.caps| >= 1 && ts[0].min <= |h.caps[0]| <= run
            && h.caps[0] == s[pos..pos + |h.caps[0]|]
    decreases if ts[0].lazy then run - n else n
  {
    if Match(ts[1..], s, pos + n).None? {
      if ts[0].lazy {
        assert TryCount(ts, s, pos, run, n) == TryCount(ts, s, pos, run, n + 1);
        TryCountFirst(ts, s, pos, run, n + 1);
      } else {
        assert TryCount(ts, s, pos, run, n) == TryCount(ts, s, pos, run, n - 1);
        TryCountFirst(ts, s, pos, run, n - 1);
      }
    } else {
      TryCountCaptured(ts, s, pos, run, n);
    }
  }

  /** When the other terms match after `n` characters, those characters are the first capture. */
  lemma TryCountCaptured(ts: seq<Term>, s: string, pos: nat, run: nat, n: nat)
    requires pos <= |s| && ts != [] && ts[0].Rep? && ts[0].capture && run == Run(ts[0].k, s, pos)
    requires ts[0].min <= n <= run
    requires Match(ts[1..], s, pos + n).Some?
    ensures var h := TryCount(ts, s, pos, run, n).value;
            |h.caps| >= 1 && ts[0].min <= |h.caps[0]| <= run
            && h.caps[0] == s[pos..pos + |h.caps[0]|]
  {
    var m := Match(ts[1..], s, pos + n).value;
    assert TryCount(ts, s, pos, run, n) == Some(Hit(m.end, [s[pos..pos + n]] + m.caps));
    ConsParts(s[pos..pos + n], m.caps);
  }

  // ---------------------------------------------------------------------
  // Tools for computing particular matches
  // ---------------------------------------------------------------------

  /** The terms after the first do not match from `p`. */
  predicate RestFails(ts: seq<Term>, s: string, p: nat) {
    ts != [] && p <= |s| && Match(ts[1..], s, p).None?
  }

  /**
   * `\s*` (or `\s+`) followed by a literal that is not white space: the
   * continuation fails at every count short of the whole run.
   */
  lemma SpacesShortFail(ts: seq<Term>, s: string, pos: nat, p: nat)
    requires pos <= |s| && |ts| >= 2 && ts[0].Rep? && ts[0].k == Space && ts[1].One?
    requires forall d :: In(ts[1].k, d) ==> !IsSpace(d)
    requires pos <= p < pos + Run(Space, s, pos)
    ensures RestFails(ts, s, p)
  {
    assert ts[1..][0] == ts[1];
    assert IsSpace(s[p]);
  }

  /** A greedy repetition whose continuation fails at every count from `n` down has no match. */
  lemma {:induction false} GreedyFail(ts: seq<Term>, s: string, pos: nat, run: nat, n: nat)
    requires pos <= |s| && ts != [] && ts[0].Rep? && !ts[0].lazy && run == Run(ts[0].k, s, pos)
    requires ts[0].min <= n <= run
    requires forall p :: pos + ts[0].min <= p <= pos + n ==> RestFails(ts, s, p)
    ensures TryCount(ts, s, pos, run, n).None?
    decreases n
  {
    assert RestFails(ts, s, pos + n);
    if n > ts[0].min {
      GreedyFail(ts, s, pos, run, n - 1);
    }
  }

  /**
   * A lazy repetition whose continuation fails for the counts `n` up to
   * `target - 1` reaches count `target`.
   */
  lemma {:induction false} LazySkip(ts: seq<Term>, s: string, pos: nat, run: nat, n: nat, target: nat)
    requires pos <= |s| && ts != [] && ts[0].Rep? && ts[0].lazy && run == Run(ts[0].k, s, pos)
    requires ts[0].min <= n <= target <= run
    requires forall p :: pos + n <= p < pos + target ==> RestFails(ts, s, p)
    ensures TryCount(ts, s, pos, run, n) == TryCount(ts, s, pos, run, target)
    decreases target - n
  {
    if n < target {
      assert RestFails(ts, s, pos + n);
      LazySkip(ts, s, pos, run, n + 1, target);
    }
  }

  /**
   * `\s*` (or `\s+`) followed by a literal that is not white space: the
   * repetition takes the whole run of white space, or nothing matches.
   */
  lemma SpacesThen(ts: seq<Term>, s: string, pos: nat)
    requires pos <= |s| && |ts| >= 2 && ts[0].Rep? && ts[0].k == Space && !ts[0].capture && ts[1].One?
    requires forall d :: In(ts[1].k, d) ==> !IsSpace(d)
    ensures var run := Run(Space, s, pos);
            Match(ts, s, pos) == if run < ts[0].min then None else Match(ts[1..], s, pos + run)
  {
    var run := Run(Space, s, pos);
    if run >= ts[0].min {
      forall p | pos <= p < pos + run {
        SpacesShortFail(ts, s, pos, p);
      }
      if ts[0].lazy {
        LazySkip(ts, s, pos, run, ts[0].min, run);
      } else if Match(ts[1..], s, pos + run).None? && run > ts[0].min {
        GreedyFail(ts, s, pos, run, run - 1);
      }
    }
  }

  /** `\s*` followed by a literal that is not white space and does not follow the white space. */
  lemma SpacesThenMismatch(ts: seq<Term>, s: string, pos: nat)
    requires pos <= |s| && |ts| >= 2 && ts[0].Rep? && ts[0].k == Space && !ts[0].capture && ts[1].One?
    requires forall d :: In(ts[1].k, d) ==> !IsSpace(d)
    requires var run := Run(Space, s, pos); pos + run == |s| || !In(ts[1].k, s[pos + run])
    ensures Match(ts, s, pos).None?
  {
    SpacesThen(ts, s, pos);
    assert ts[1..][0] == ts[1];
  }

  /** A single-character term that matches the character at `pos` moves on by one. */
  lemma OneStep(ts: seq<Term>, s: string, pos: nat)
    requires ts != [] && ts[0].One? && pos < |s| && In(ts[0].k, s[pos])
    ensures Match(ts, s, pos) == Match(ts[1..], s, pos + 1)
  {
  }

  /** A greedy repetition whose continuation succeeds at the full run takes the full run. */
  lemma GreedyFull(ts: seq<Term>, s: string, pos: nat)
    requires pos <= |s| && ts != [] && ts[0].Rep? && !ts[0].lazy
    requires var run := Run(ts[0].k, s, pos); ts[0].min <= run && Match(ts[1..], s, pos + run).Some?
    ensures var run := Run(ts[0].k, s, pos); var h := Match(ts[1..], s, pos + run).value;
            Match(ts, s, pos) == Some(Hit(h.end, if ts[0].capture then [s[pos..pos + run]] + h.caps else h.caps))
  {
  }

  /**
   * A lazy repetition whose continuation fails for every count below `L`
   * and succeeds at `L` takes exactly `L` characters.
   */
  lemma LazyCapture(ts: seq<Term>, s: string, pos: nat, L: nat)
    requires pos <= |s| && ts != [] && ts[0].Rep? && ts[0].lazy
    requires ts[0].min <= L <= Run(ts[0].k, s, pos)
    requires forall p :: pos + ts[0].min <= p < pos + L ==> RestFails(ts, s, p)
    requires Match(ts[1..], s, pos + L).Some?
    ensures var h := Match(ts[1..], s, pos + L).value;
            Match(ts, s, pos) == Some(Hit(h.end, if ts[0].capture then [s[pos..pos + L]] + h.caps else h.caps))
  {
    LazySkip(ts, s, pos, Run(ts[0].k, s, pos), ts[0].min, L);
  }

  /** A match that starts with a consuming term ends after its start. */
  lemma MatchConsumes(ts: seq<Term>, s: string, pos: nat)
    requires pos <= |s| && ts != [] && (ts[0].One? || (ts[0].Rep? && ts[0].min >= 1))
    requires Match(ts, s, pos).Some?
    ensures Match(ts, s, pos).value.end > pos
  {
    if ts[0].Rep? {
      var run := Run(ts[0].k, s, pos);
      TryCountEnd(ts, s, pos, run, if ts[0].lazy then ts[0].min else run);
    }
  }

  lemma {:induction false} TryCountEnd(ts: seq<Term>, s: string, pos: nat, run: nat, n: nat)
    requires pos <= |s| && ts != [] && ts[0].Rep? && run == Run(ts[0].k, s, pos)
    requires ts[0].min <= n <= run
    requires TryCount(ts, s, pos, run, n).Some?
    ensures TryCount(ts, s, pos, run, n).value.end >= pos + ts[0].min
    decreases if ts[0].lazy then run - n else n
  {
    if Match(ts[1..], s, pos + n).None? {
      if ts[0].lazy {
        TryCountEnd(ts, s, pos, run, n + 1);
      } else {
        TryCountEnd(ts, s, pos, run, n - 1);
      }
    }
  }

  /** A run of class-`k` characters is at least as long as any all-`k` stretch. */
  lemma {:induction false} RunAtLeast(k: Class, s: string, pos: nat, L: nat)
    requires pos + L <= |s|
    requires forall i :: pos <= i < pos + L ==> In(k, s[i])
    ensures Run(k, s, pos) >= L
    decreases L
  {
    if L > 0 {
      RunAtLeast(k, s, pos + 1, L - 1);
    }
  }

  /**
   * `(.+?)\s*x`, where the capture can only end right before the white space
   * preceding the first `x`: a stretch of `L` characters with no `x` and no
   * line terminator, ending in a non-white-space character, is captured whole
   * when the rest matches after it.
   */
  lemma LazyBeforeLiteral(ts: seq<Term>, s: string, pos: nat, L: nat, x: char)
    requires |ts| >= 3 && ts[0] == Rep(Dot, 1, true, true) && ts[1] == Rep(Space, 0, false, false)
    requires ts[2] == One(Char(x)) && !IsSpace(x)
    requires 1 <= L && pos + L <= |s|
    requires forall i :: pos <= i < pos + L ==> !IsLineTerminator(s[i]) && s[i] != x
    requires !IsSpace(s[pos + L - 1])
    requires Match(ts[1..], s, pos + L).Some?
    ensures var h := Match(ts[1..], s, pos + L).value;
            Match(ts, s, pos) == Some(Hit(h.end, [s[pos..pos + L]] + h.caps))
  {
    RunAtLeast(Dot, s, pos, L);
    forall p | pos + 1 <= p < pos + L
      ensures RestFails(ts, s, p)
    {
      var rest := ts[1..];
      assert rest[0] == ts[1] && rest[1] == ts[2] && rest[1..] == ts[2..];
      var run := Run(Space, s, p);
      assert p + run <= pos + L - 1;
      SpacesThenMismatch(rest, s, p);
    }
    LazyCapture(ts, s, pos, L);
  }

  /** `(.+?)x$` on a line that ends in `x`: the capture is everything before that last `x`. */
  lemma LazyThenLastLiteral(ts: seq<Term>, s: string, pos: nat, x: char)
    requires ts == [Rep(Dot, 1, true, true), One(Char(x)), End]
    requires pos + 2 <= |s| && s[|s| - 1] == x
    requires forall i :: pos <= i < |s| ==> !IsLineTerminator(s[i])
    ensures Match(ts, s, pos) == Some(Hit(|s|, [s[pos..|s| - 1]]))
  {
    var L := |s| - 1 - pos;
    RunAtLeast(Dot, s, pos, L);
    forall p | pos + 1 <= p < pos + L
      ensures RestFails(ts, s, p)
    {
      assert ts[1..] == [One(Char(x)), End];
      assert ts[1..][1..] == [End];
    }
    assert ts[1..] == [One(Char(x)), End];
    assert ts[1..][1..] == [End];
    EndMatches(s);
    assert Match(ts[1..], s, pos + L) == Some(Hit(|s|, []));
    LazyCapture(ts, s, pos, L);
    assert [s[pos..pos + L]] + [] == [s[pos..|s| - 1]];
  }

  /** `(.+?)$` on a line without line terminators: the capture is the rest of the line. */
  lemma LazyToEnd(ts: seq<Term>, s: string, pos: nat)
    requires ts == [Rep(Dot, 1, true, true), End]
    requires pos < |s|
    requires forall i :: pos <= i < |s| ==> !IsLineTerminator(s[i])
    ensures Match(ts, s, pos) == Some(Hit(|s|, [s[pos..]]))
  {
    var L := |s| - pos;
    RunAtLeast(Dot, s, pos, L);
    assert ts[1..] == [End];
    forall p | pos + 1 <= p < pos + L
      ensures RestFails(ts, s, p)
    {
    }
    EndMatches(s);
    LazyCapture(ts, s, pos, L);
    assert s[pos..pos + L] == s[pos..];
    assert [s[pos..pos + L]] + [] == [s[pos..]];
  }

  lemma EndMatches(s: string)
    ensures Match([End], s, |s|) == Some(Hit(|s|, []))
  {
    assert [End][1..] == [];
  }

  /** The run of a class that every character of `s[pos..]` belongs to is the rest of `s`. */
  /** The run is exactly `n` long when `n` characters match and the next does not. */
  lemma RunStops(k: Class, s: string, pos: nat, n: nat)
    requires pos + n <= |s|
    requires forall i :: pos <= i < pos + n ==> In(k, s[i])
    requires pos + n == |s| || !In(k, s[pos + n])
    ensures Run(k, s, pos) == n
  {
  }

  /** The run over a suffix `a + b` whose `a` matches and whose `b` does not start with a match. */
  lemma RunOver(k: Class, s: string, pos: nat, a: string, b: string)
    requires pos <= |s| && s[pos..] == a + b
    requires forall i :: 0 <= i < |a| ==> In(k, a[i])
    requires b == [] || !In(k, b[0])
    ensures Run(k, s, pos) == |a|
  {
    forall i | pos <= i < pos + |a| ensures In(k, s[i]) {
      assert s[i] == s[pos..][i - pos] == a[i - pos];
    }
    if b != [] {
      assert s[pos + |a|] == s[pos..][|a|] == b[0];
    }
    RunStops(k, s, pos, |a|);
  }

  /** Every character of the run from the start is in the class. */
  lemma RunPrefix(k: Class, s: string)
    ensures forall i :: 0 <= i < Run(k, s, 0) ==> In(k, s[..Run(k, s, 0)][i])
  {
  }

  lemma RunToEnd(k: Class, s: string, pos: nat)
    requires pos <= |s|
    requires forall i :: pos <= i < |s| ==> In(k, s[i])
    ensures Run(k, s, pos) == |s| - pos
    decreases |s| - pos
  {
    if pos < |s| {
      RunToEnd(k, s, pos + 1);
    }
  }

  // ---------------------------------------------------------------------
  // Global search (`exec` with the `g` flag)
  // ---------------------------------------------------------------------

  /** The first term consumes at least one character, so no match is empty. */
  predicate Consuming(ts: seq<Term>) {
    ts != [] && (ts[0].One? || (ts[0].Rep? && ts[0].min >= 1))
  }

  /**
   * The search from `from` finds the leftmost position where `ts` matches,
   * with the match found there.
   */
  lemma {:induction false} SearchLeftmost(ts: seq<Term>, s: string, from: nat)
    requires from <= |s| && SearchFrom(ts, s, from).Some?
    ensures var f := SearchFrom(ts, s, from).value;
            Match(ts, s, f.start) == Some(Hit(f.end, f.caps))
            && forall p :: from <= p < f.start ==> Match(ts, s, p).None?
    decreases |s| - from
  {
    if Match(ts, s, from).None? {
      SearchLeftmost(ts, s, from + 1);
    }
  }

  lemma SearchConsumes(ts: seq<Term>, s: string, from: nat)
    requires from <= |s| && Consuming(ts) && SearchFrom(ts, s, from).Some?
    ensures SearchFrom(ts, s, from).value.start < SearchFrom(ts, s, from).value.end
  {
    SearchLeftmost(ts, s, from);
    MatchConsumes(ts, s, SearchFrom(ts, s, from).value.start);
  }

  /**
   * The matches `exec` returns one after another for a global pattern whose
   * `lastIndex` starts at `from`: each search resumes where the previous
   * match ended, until a search fails.
   */
  function AllMatches(ts: seq<Term>, s: string, from: nat): (r: seq<Found>)
    requires from <= |s| && Consuming(ts)
    ensures forall i :: 0 <= i < |r| ==>
              from <= r[i].start < r[i].end <= |s| && |r[i].caps| == Captures(ts)
    ensures forall i, j :: 0 <= i < j < |r| ==> r[i].end <= r[j].start
    decreases |s| - from
  {
    match SearchFrom(ts, s, from)
    case None => []
    case Some(f) =>
      SearchConsumes(ts, s, from);
      var rest := AllMatches(ts, s, f.end);
      assert forall j :: 0 <= j < |rest| ==> f.end <= rest[j].start;
      [f] + rest
  }

  /** One step of a global search: the next match, then the search from its end. */
  lemma AllMatchesStep(ts: seq<Term>, s: string, from: nat)
    requires from <= |s| && Consuming(ts) && SearchFrom(ts, s, from).Some?
    ensures var f := SearchFrom(ts, s, from).value;
            f.end <= |s| && from < f.end && AllMatches(ts, s, from) == [f] + AllMatches(ts, s, f.end)
  {
    SearchConsumes(ts, s, from);
  }

  /** Each match of a global search is the match of `ts` at its start. */
  lemma {:induction false} AllMatchesAt(ts: seq<Term>, s: string, from: nat, i: nat)
    requires from <= |s| && Consuming(ts) && i < |AllMatches(ts, s, from)|
    ensures var f := AllMatches(ts, s, from)[i];
            Match(ts, s, f.start) == Some(Hit(f.end, f.caps))
    decreases |s| - from
  {
    var f := SearchFrom(ts, s, from).value;
    SearchConsumes(ts, s, from);
    if i == 0 {
      SearchLeftmost(ts, s, from);
    } else {
      AllMatchesAt(ts, s, f.end, i - 1);
    }
  }

  /** A leading capturing repetition captures characters of its class only. */
  lemma FirstCaptureIn(ts: seq<Term>, s: string, pos: nat)
    requires pos <= |s| && ts != [] && ts[0].Rep? && ts[0].capture
    requires Match(ts, s, pos).Some?
    ensures var c := Match(ts, s, pos).value.caps[0];
            forall i :: 0 <= i < |c| ==> In(ts[0].k, c[i])
  {
    FirstCapture(ts, s, pos);
    var c := Match(ts, s, pos).value.caps[0];
    forall i | 0 <= i < |c| ensures In(ts[0].k, c[i]) {
      assert c[i] == s[pos + i];
    }
  }

  // ---------------------------------------------------------------------
  // Words matched under the `i` flag
  // ---------------------------------------------------------------------

  /** The terms of the literal word `w` under the `i` flag. */
  function CaselessWord(w: string): (ts: seq<Term>)
    ensures |ts| == |w|
    ensures forall i :: 0 <= i < |w| ==> ts[i] == One(Caseless(w[i]))
  {
    seq(|w|, i requires 0 <= i < |w| => One(Caseless(w[i])))
  }

  /** `s` holds `w` at `pos`, letters compared without case. */
  predicate CaselessAt(s: string, pos: nat, w: string) {
    pos + |w| <= |s| && forall i :: 0 <= i < |w| ==> LowerChar(s[pos + i]) == LowerChar(w[i])
  }

  lemma CaselessWordCons(w: string)
    requires w != []
    ensures CaselessWord(w) == [One(Caseless(w[0]))] + CaselessWord(w[1..])
  {
  }

  /** A caseless word matches its own characters and leaves the rest of the pattern. */
  lemma {:induction false} CaselessPrefix(w: string, rest: seq<Term>, s: string, pos: nat)
    requires CaselessAt(s, pos, w)
    ensures Match(CaselessWord(w) + rest, s, pos) == Match(rest, s, pos + |w|)
    decreases |w|
  {
    if w != [] {
      var tail := CaselessWord(w[1..]) + rest;
      CaselessWordCons(w);
      Regroup3([One(Caseless(w[0]))], CaselessWord(w[1..]), rest);
      ConsParts(One(Caseless(w[0])), tail);
      assert LowerChar(s[pos + 0]) == LowerChar(w[0]);
      OneStep([One(Caseless(w[0]))] + tail, s, pos);
      assert CaselessAt(s, pos + 1, w[1..]) by {
        forall i | 0 <= i < |w[1..]| ensures LowerChar(s[pos + 1 + i]) == LowerChar(w[1..][i]) {
          assert LowerChar(s[pos + (i + 1)]) == LowerChar(w[i + 1]);
        }
      }
      CaselessPrefix(w[1..], rest, s, pos + 1);
    } else {
      assert CaselessWord(w) + rest == rest;
    }
  }

  /** A later match makes the search succeed. */
  lemma {:induction false} SearchFinds(ts: seq<Term>, s: string, from: nat, p: nat)
    requires from <= p <= |s| && Match(ts, s, p).Some?
    ensures SearchFrom(ts, s, from).Some?
    decreases p - from
  {
    if from < p && Match(ts, s, from).None? {
      SearchFinds(ts, s, from + 1, p);
    }
  }
}
