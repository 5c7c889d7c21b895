/**
 * `PDFFileProcessor`: checks that text extracted from a textbook PDF looks
 * like a word list, and builds the Unit -> Lesson -> Word tree from it.
 */
module PdfParser {
  import opened Wrappers
  import opened Text
  import opened Regex
  import opened Types
  import opened Seqs

  // ---------------------------------------------------------------------
  // The patterns
  // ---------------------------------------------------------------------

  /** `\s+\d+`, after `Unit` or `Lesson`. */
  const NumberTail: seq<Term> := [Rep(Space, 1, false, false), Rep(Digit, 1, false, false)]

  /** `\s+(\d+)[\s:]*(.+)$`, after `Unit` or `Lesson`. */
  const HeadingTail: seq<Term> :=
    [Rep(Space, 1, false, false), Rep(Digit, 1, false, true), Rep(SpaceOr(':'), 0, false, false),
     Rep(Dot, 1, false, true), End]

  /** `/Unit\s+\d+/i` */
  const UnitMention := Pattern(false, CaselessWord("unit") + NumberTail)

  /** `/Lesson\s+\d+/i` */
  const LessonMention := Pattern(false, CaselessWord("lesson") + NumberTail)

  /** `/\w+\s*-\s*[一-龥]+/` */
  const WordMention :=
    Pattern(false, [Rep(WordChar, 1, false, false), Rep(Space, 0, false, false), One(Char('-')),
                    Rep(Space, 0, false, false), Rep(Han, 1, false, false)])

  /** `/^Unit\s+\d+/i` */
  const UnitStart := Pattern(true, CaselessWord("unit") + NumberTail)

  /** `/^Unit\s+(\d+)[\s:]*(.+)$/i` for `w == "unit"`, `/^Lesson\s+(\d+)[\s:]*(.+)$/i` for `w == "lesson"`. */
  function HeadingPattern(w: string): Pattern {
    Pattern(true, CaselessWord(w) + HeadingTail)
  }

  // ---------------------------------------------------------------------
  // Headings
  // ---------------------------------------------------------------------

  /** The two groups of a heading: its number and its title. */
  datatype Heading = Heading(number: string, title: string)

  lemma {:induction false} CapturesAfterWord(w: string, rest: seq<Term>)
    ensures Captures(CaselessWord(w) + rest) == Captures(rest)
    decreases |w|
  {
    if w != [] {
      assert (CaselessWord(w) + rest)[1..] == CaselessWord(w[1..]) + rest;
      CapturesAfterWord(w[1..], rest);
    } else {
      assert CaselessWord(w) + rest == rest;
    }
  }

  lemma HeadingCaptures(w: string)
    ensures Captures(HeadingPattern(w).terms) == 2
  {
    CapturesAfterWord(w, HeadingTail);
    var t := HeadingTail;
    assert Captures(t[5..]) == 0;
    assert Captures(t[4..]) == 0;
    assert Captures(t[3..]) == 1;
    assert Captures(t[2..]) == 1;
    assert Captures(t[1..]) == 2;
  }

  /** `line.match(/^Unit\s+(\d+)[\s:]*(.+)$/i)` and its lesson counterpart. */
  function HeadingOf(w: string, line: string): (r: Option<Heading>)
  {
    HeadingCaptures(w);
    match Exec(HeadingPattern(w), line)
    case Some(f) => Some(Heading(f.caps[0], f.caps[1]))
    case None => None
  }

  /** The heading the match of the anchored pattern at the start gives. */
  lemma HeadingOfMatch(w: string, line: string, end: nat, number: string, title: string)
    requires Match(HeadingPattern(w).terms, line, 0) == Some(Hit(end, [number, title]))
    ensures HeadingOf(w, line) == Some(Heading(number, title))
  {
  }

  predicate AllDigits(s: string) {
    forall i :: 0 <= i < |s| ==> IsDigit(s[i])
  }

  predicate SpacesOrColons(s: string) {
    forall i :: 0 <= i < |s| ==> IsSpace(s[i]) || s[i] == ':'
  }

  /** `(.+)$` takes the rest of a line without line terminators. */
  lemma TitleToEnd(line: string, p: nat)
    requires p < |line| && forall i :: p <= i < |line| ==> !IsLineTerminator(line[i])
    ensures Match(HeadingTail[3..], line, p) == Some(Hit(|line|, [line[p..]]))
  {
    var ts := HeadingTail[3..];
    RunToEnd(Dot, line, p);
    assert ts[1..] == [End];
    EndMatches(line);
    GreedyFull(ts, line, p);
    assert line[p..p + (|line| - p)] == line[p..];
    assert [line[p..]] + [] == [line[p..]];
  }

  /** `(.+)$` needs a character. */
  lemma TitleEmpty(line: string)
    ensures Match(HeadingTail[3..], line, |line|).None?
    ensures Match(HeadingTail[2..], line, |line|).None?
  {
    var ts := HeadingTail;
    assert ts[2..][1..] == ts[3..];
    assert Run(SpaceOr(':'), line, |line|) == 0;
  }

  /** `[\s:]*(.+)$` from `p2`, the separator ending at `p3`. */
  lemma SeparatorStage(line: string, p2: nat, p3: nat)
    requires p2 <= p3 < |line|
    requires forall i :: p2 <= i < p3 ==> IsSpace(line[i]) || line[i] == ':'
    requires !IsSpace(line[p3]) && line[p3] != ':'
    requires forall i :: p3 <= i < |line| ==> !IsLineTerminator(line[i])
    ensures Match(HeadingTail[2..], line, p2) == Some(Hit(|line|, [line[p3..]]))
  {
    var ts := HeadingTail[2..];
    TitleToEnd(line, p3);
    assert Run(SpaceOr(':'), line, p2) == p3 - p2;
    assert ts[1..] == HeadingTail[3..];
    GreedyFull(ts, line, p2);
  }

  /** `(\d+)[\s:]*(.+)$` from `p1`, the digits ending at `p2`. */
  lemma DigitStage(line: string, p1: nat, p2: nat, p3: nat)
    requires p1 < p2 <= p3 < |line|
    requires forall i :: p1 <= i < p2 ==> IsDigit(line[i])
    requires !IsDigit(line[p2])
    requires forall i :: p2 <= i < p3 ==> IsSpace(line[i]) || line[i] == ':'
    requires !IsSpace(line[p3]) && line[p3] != ':'
    requires forall i :: p3 <= i < |line| ==> !IsLineTerminator(line[i])
    ensures Match(HeadingTail[1..], line, p1) == Some(Hit(|line|, [line[p1..p2], line[p3..]]))
  {
    var ts := HeadingTail[1..];
    SeparatorStage(line, p2, p3);
    assert Run(Digit, line, p1) == p2 - p1;
    assert ts[0] == Rep(Digit, 1, false, true) && ts[1..] == HeadingTail[2..];
    GreedyFull(ts, line, p1);
    assert [line[p1..p2]] + [line[p3..]] == [line[p1..p2], line[p3..]];
  }

  /** `\s+(\d+)[\s:]*(.+)$` from `p0`, the white space ending at `p1`. */
  lemma SpaceStage(line: string, p0: nat, p1: nat, p2: nat, p3: nat)
    requires p0 < p1 < p2 <= p3 < |line|
    requires forall i :: p0 <= i < p1 ==> IsSpace(line[i])
    requires forall i :: p1 <= i < p2 ==> IsDigit(line[i])
    requires !IsDigit(line[p2])
    requires forall i :: p2 <= i < p3 ==> IsSpace(line[i]) || line[i] == ':'
    requires !IsSpace(line[p3]) && line[p3] != ':'
    requires forall i :: p3 <= i < |line| ==> !IsLineTerminator(line[i])
    ensures Match(HeadingTail, line, p0) == Some(Hit(|line|, [line[p1..p2], line[p3..]]))
  {
    DigitStage(line, p1, p2, p3);
    assert Run(Space, line, p0) == p1 - p0 by { assert !IsSpace(line[p1]); }
    GreedyFull(HeadingTail, line, p0);
  }

  /** Where the pieces of a line made of a prefix and four pieces sit. */
  lemma Pieces<T>(line: seq<T>, n: nat, a: seq<T>, b: seq<T>, c: seq<T>, d: seq<T>)
    requires n <= |line| && line[n..] == a + b + c + d
    ensures var p1 := n + |a|; var p2 := p1 + |b|; var p3 := p2 + |c|;
            |line| == p3 + |d|
            && (forall i :: n <= i < p1 ==> line[i] == a[i - n])
            && (forall i :: p1 <= i < p2 ==> line[i] == b[i - p1])
            && (forall i :: p2 <= i < p3 ==> line[i] == c[i - p2])
            && (forall i :: p3 <= i < |line| ==> line[i] == d[i - p3])
            && line[p1..p2] == b && line[p3..] == d
  {
    var rest := line[n..];
    assert forall i :: n <= i < |line| ==> line[i] == rest[i - n];
  }

  /**
   * A heading line: the word, white space, the digits, white space or
   * colons, and a title that does not start with one of those.  The groups
   * are the digits and the title.
   */
  lemma HeadingParts(w: string, line: string, s1: string, d: string, sep: string, t: string)
    requires |w| <= |line| && line[|w|..] == s1 + d + sep + t
    requires CaselessAt(line, 0, w)
    requires s1 != [] && AllSpace(s1) && d != [] && AllDigits(d) && SpacesOrColons(sep)
    requires t != [] && !IsSpace(t[0]) && t[0] != ':' && (sep == [] ==> !IsDigit(t[0]))
    requires NoLineTerminator(t)
    ensures HeadingOf(w, line) == Some(Heading(d, t))
  {
    var p1 := |w| + |s1|;
    var p2 := p1 + |d|;
    var p3 := p2 + |sep|;
    Pieces(line, |w|, s1, d, sep, t);
    assert line[p3] == t[0];
    SpaceStage(line, |w|, p1, p2, p3);
    assert [line[p1..p2], line[p3..]] == [d, t];
    CaselessPrefix(w, HeadingTail, line, 0);
    assert HeadingPattern(w).terms == CaselessWord(w) + HeadingTail;
    HeadingOfMatch(w, line, |line|, d, t);
  }

  /** In `Unit 10` the greedy digits give one back, so that the title gets a character. */
  lemma TenDigits(line: string)
    requires line == "Unit 10"
    ensures Match(HeadingTail[1..], line, 5) == Some(Hit(7, ["1", "0"]))
  {
    var ts := HeadingTail[1..];
    TitleEmpty(line);
    SeparatorStage(line, 6, 6);
    assert Run(Digit, line, 5) == 2;
    assert ts[1..] == HeadingTail[2..];
    assert ts[0] == Rep(Digit, 1, false, true);
    assert Match(ts[1..], line, 6) == Some(Hit(7, [line[6..]]));
    assert TryCount(ts, line, 5, 2, 1) == Some(Hit(7, [line[5..6]] + [line[6..]]));
    assert TryCount(ts, line, 5, 2, 2) == TryCount(ts, line, 5, 2, 1);
    assert [line[5..6]] + [line[6..]] == [line[5..6], line[6..]];
    assert line[5..6] == "1" && line[6..] == "0";
  }

  /** `Unit 10` is unit `1` titled `0`: the title needs a character, so the digits give one back. */
  lemma UnitTen(line: string)
    requires line == "Unit 10"
    ensures HeadingOf("unit", line) == Some(Heading("1", "0"))
  {
    var ts := HeadingTail;
    CaselessPrefix("unit", ts, line, 0);
    TenDigits(line);
    assert ts[1..] == HeadingTail[1..];
    assert Run(Space, line, 4) == 1 by { assert !IsSpace(line[5]); }
    assert Match(ts, line, 4) == Some(Hit(7, ["1", "0"]));
    assert HeadingPattern("unit").terms == CaselessWord("unit") + HeadingTail;
    HeadingOfMatch("unit", line, 7, "1", "0");
  }

  /** A bare `Unit 1` is not a unit heading: there is no title. */
  lemma UnitBare(line: string)
    requires line == "Unit 1"
    ensures HeadingOf("unit", line).None?
  {
    CaselessPrefix("unit", HeadingTail, line, 0);
    BareTail(line);
    assert HeadingPattern("unit").terms == CaselessWord("unit") + HeadingTail;
  }

  /** After `Unit`, one space and one digit leave nothing for the title. */
  lemma BareTail(line: string)
    requires line == "Unit 1"
    ensures Match(HeadingTail, line, 4).None?
  {
    BareDigits(line);
    assert line[4] == ' ' && !IsSpace(line[5]);
    RunStops(Space, line, 4, 1);
  }

  /** The digit run `1` at the end of the line, with no title after it. */
  lemma BareDigits(line: string)
    requires line == "Unit 1"
    ensures Match(HeadingTail[1..], line, 5).None?
  {
    var ts := HeadingTail;
    TitleEmpty(line);
    assert line[5] == '1' && |line| == 6;
    RunStops(Digit, line, 5, 1);
    assert ts[1..][1..] == ts[2..];
  }

  // ---------------------------------------------------------------------
  // Word lines
  // ---------------------------------------------------------------------

  /** The groups of a word line: english, chinese and the optional pronunciation. */
  datatype WordMatch = WordMatch(english: string, chinese: string, pronunciation: Option<string>)

  /** `[一-龥]+(?:\s*[一-龥]+)*`: Chinese characters and white space, Chinese at both ends. */
  predicate HanPhrase(g: string) {
    g != [] && IsHan(g[0]) && IsHan(g[|g| - 1])
    && forall i :: 0 <= i < |g| ==> IsHan(g[i]) || IsSpace(g[i])
  }

  /** `(?:\[([^\]]+)\])?` */
  function Bracket(p: Option<string>): string {
    if p.Some? then "[" + p.value + "]" else ""
  }

  /**
   * The ways `/^(\w+)\s*-\s*([一-龥]+(?:\s*[一-龥]+)*)\s*(?:\[([^\]]+)\])?$/`
   * can match `line`: `e`, `g` and `p` are the three groups, `s1`, `s2` and
   * `s3` what the three `\s*` take.
   */
  predicate WordShape(line: string, e: string, s1: string, s2: string, g: string, s3: string, p: Option<string>) {
    line == e + s1 + "-" + s2 + g + s3 + Bracket(p)
    && e != [] && (forall i :: 0 <= i < |e| ==> IsWordChar(e[i]))
    && AllSpace(s1) && AllSpace(s2) && AllSpace(s3) && HanPhrase(g)
    && (p.Some? ==> p.value != [] && NoneIn(p.value, {']'}))
  }

  /** `(?:\[([^\]]+)\])?$`: nothing, or one bracketed pronunciation ending the line. */
  function Pronunciation(t: string): (r: Option<Option<string>>)
  {
    if t == [] then Some(None)
    else if |t| >= 3 && t[0] == '[' && t[|t| - 1] == ']' && NoneIn(t[1..|t| - 1], {']'})
    then Some(Some(t[1..|t| - 1]))
    else None
  }

  lemma PronunciationComplete(p: Option<string>)
    requires p.Some? ==> p.value != [] && NoneIn(p.value, {']'})
    ensures Pronunciation(Bracket(p)) == Some(p)
  {
    if p.Some? {
      var t := Bracket(p);
      assert t[1..|t| - 1] == p.value;
    }
  }

  lemma PronunciationSound(t: string)
    requires Pronunciation(t).Some?
    ensures var p := Pronunciation(t).value;
            t == Bracket(p) && (p.Some? ==> p.value != [] && NoneIn(p.value, {']'}))
  {
    if t != [] {
      assert t == "[" + t[1..|t| - 1] + "]";
    }
  }

  /**
   * After the dash and its white space: the Chinese phrase up to the first
   * `[` without its trailing white space, then the pronunciation.
   */
  function Phrase(rest: string): (r: Option<(string, Option<string>)>)
  {
    var b := FirstIn(rest, {'['});
    var head := rest[..b];
    var g := head[..|head| - TrailingSpaces(head)];
    if !HanPhrase(g) then None
    else
      match Pronunciation(rest[b..])
      case Some(p) => Some((g, p))
      case None => None
  }

  /**
   * The part of the word-line pattern before the phrase: the run of word
   * characters (the English word), white space, the dash and white space;
   * the English word and what follows.
   */
  function WordHead(line: string): (r: Option<(string, string)>)
  {
    var e := Run(WordChar, line, 0);
    var t1 := line[e..];
    var t2 := t1[Run(Space, t1, 0)..];
    if e == 0 || t2 == [] || t2[0] != '-' then None
    else
      var t3 := t2[1..];
      Some((line[..e], t3[Run(Space, t3, 0)..]))
  }

  /** The match of the word-line pattern, computed directly. */
  function WordLine(line: string): (r: Option<WordMatch>)
  {
    match WordHead(line)
    case None => None
    case Some((en, rest)) =>
      match Phrase(rest)
      case Some((g, p)) => Some(WordMatch(en, g, p))
      case None => None
  }

  lemma HanNotSpace(c: char)
    requires IsHan(c)
    ensures !IsSpace(c) && c != '[' && c != '-'
  {
  }

  /** A phrase and the white space after it hold no `[`. */
  lemma PhraseNoBracket(g: string, s3: string)
    requires HanPhrase(g) && AllSpace(s3)
    ensures NoneIn(g + s3, {'['})
  {
    forall k | 0 <= k < |g + s3| ensures (g + s3)[k] !in {'['} {
      if k < |g| {
        assert (g + s3)[k] == g[k];
        if IsHan(g[k]) { HanNotSpace(g[k]); }
      } else {
        assert (g + s3)[k] == s3[k - |g|];
      }
    }
  }

  /** The phrase part of every way the pattern can match. */
  lemma PhraseComplete(rest: string, g: string, s3: string, p: Option<string>)
    requires rest == g + s3 + Bracket(p) && HanPhrase(g) && AllSpace(s3)
    requires p.Some? ==> p.value != [] && NoneIn(p.value, {']'})
    ensures Phrase(rest) == Some((g, p))
  {
    var head := g + s3;
    PhraseNoBracket(g, s3);
    FirstInOver(rest, {'['}, head, Bracket(p));
    assert rest[..|head|] == head && rest[|head|..] == Bracket(p);
    HanNotSpace(g[|g| - 1]);
    TrailingOfPadded(g, s3);
    assert head[..|head| - |s3|] == g;
    PronunciationComplete(p);
  }

  /** What `Phrase` returns is the phrase part of a way the pattern matches. */
  lemma PhraseSound(rest: string) returns (s3: string)
    requires Phrase(rest).Some?
    ensures var (g, p) := Phrase(rest).value;
            rest == g + s3 + Bracket(p) && HanPhrase(g) && AllSpace(s3)
            && (p.Some? ==> p.value != [] && NoneIn(p.value, {']'}))
  {
    var b := FirstIn(rest, {'['});
    var head := rest[..b];
    var g := head[..|head| - TrailingSpaces(head)];
    s3 := head[|g|..];
    assert head == g + s3;
    var t := rest[b..];
    assert rest == head + t;
    PronunciationSound(t);
  }

  /** The pieces of a string made of a word, a run, one separator, a run and a rest. */
  lemma Uncut<T>(line: seq<T>, a: seq<T>, b: seq<T>, x: T, c: seq<T>, d: seq<T>)
    requires line == a + b + [x] + c + d
    ensures line[0..] == a + (b + ([x] + (c + d)))
    ensures line[..|a|] == a && line[|a|..] == b + ([x] + (c + d))
    ensures line[|a|..][0..] == b + ([x] + (c + d))
    ensures line[|a|..][|b|..] == [x] + (c + d)
    ensures line[|a|..][|b|..][1..] == c + d && (c + d)[0..] == c + d && (c + d)[|c|..] == d
  {
  }

  /** The part before the phrase of every way the pattern can match. */
  lemma HeadComplete(line: string, e: string, s1: string, s2: string, rest: string)
    requires line == e + s1 + "-" + s2 + rest
    requires e != [] && (forall i :: 0 <= i < |e| ==> IsWordChar(e[i])) && AllSpace(s1) && AllSpace(s2)
    requires rest != [] && !IsSpace(rest[0])
    ensures WordHead(line) == Some((e, rest))
  {
    Uncut(line, e, s1, '-', s2, rest);
    RunOver(WordChar, line, 0, e, s1 + ("-" + (s2 + rest)));
    RunOver(Space, line[|e|..], 0, s1, "-" + (s2 + rest));
    RunOver(Space, s2 + rest, 0, s2, rest);
  }

  /** Cutting a string at a word, a run, one separator and a run. */
  lemma CutHead<T>(line: seq<T>, e: nat, n1: nat, n2: nat, x: T)
    requires e + n1 < |line| && line[e + n1] == x && e + n1 + 1 + n2 <= |line|
    ensures var t3 := line[e..][n1..][1..];
            line == line[..e] + line[e..][..n1] + [x] + t3[..n2] + t3[n2..]
  {
    var t1 := line[e..];
    var t2 := t1[n1..];
    var t3 := t2[1..];
    assert t3 == t3[..n2] + t3[n2..];
    assert t2 == [x] + t3;
    assert t1 == t1[..n1] + t2;
    assert line == line[..e] + t1;
  }

  lemma SpaceRun(s: string)
    ensures AllSpace(s[..Run(Space, s, 0)])
  {
    RunPrefix(Space, s);
  }

  lemma WordRun(s: string)
    ensures forall i :: 0 <= i < |s[..Run(WordChar, s, 0)]| ==> IsWordChar(s[..Run(WordChar, s, 0)][i])
  {
    RunPrefix(WordChar, s);
  }

  /** What `WordHead` returns is the part before the phrase of a way the pattern matches. */
  lemma HeadSound(line: string) returns (s1: string, s2: string)
    requires WordHead(line).Some?
    ensures var (en, rest) := WordHead(line).value;
            line == en + s1 + "-" + s2 + rest
            && en != [] && (forall i :: 0 <= i < |en| ==> IsWordChar(en[i])) && AllSpace(s1) && AllSpace(s2)
  {
    var e := Run(WordChar, line, 0);
    var t1 := line[e..];
    var n1 := Run(Space, t1, 0);
    var t3 := t1[n1..][1..];
    var n2 := Run(Space, t3, 0);
    s1 := t1[..n1];
    s2 := t3[..n2];
    CutHead(line, e, n1, n2, '-');
    WordRun(line);
    SpaceRun(t1);
    SpaceRun(t3);
  }

  /** Regrouping the pieces of a word line. */
  lemma Regroup7<T>(line: seq<T>, a: seq<T>, b: seq<T>, x: T, c: seq<T>, g: seq<T>, s: seq<T>, t: seq<T>)
    ensures line == a + b + [x] + c + (g + s + t) <==> line == a + b + [x] + c + g + s + t
  {
    assert a + b + [x] + c + (g + s + t) == a + b + [x] + c + g + s + t;
  }

  /** `WordLine` puts together the head and the phrase. */
  lemma WordLineParts(line: string)
    ensures WordLine(line).Some? <==> WordHead(line).Some? && Phrase(WordHead(line).value.1).Some?
    ensures WordLine(line).Some? ==>
              var (g, p) := Phrase(WordHead(line).value.1).value;
              WordLine(line).value == WordMatch(WordHead(line).value.0, g, p)
  {
  }

  /**
   * Every way the pattern can match gives the groups `WordLine` computes:
   * the groups are determined by the line, so JavaScript's backtracking
   * order does not matter.
   */
  lemma WordLineComplete(line: string, e: string, s1: string, s2: string, g: string, s3: string, p: Option<string>)
    requires WordShape(line, e, s1, s2, g, s3, p)
    ensures WordLine(line) == Some(WordMatch(e, g, p))
  {
    var rest := g + s3 + Bracket(p);
    Regroup7(line, e, s1, '-', s2, g, s3, Bracket(p));
    HanNotSpace(g[0]);
    HeadComplete(line, e, s1, s2, rest);
    PhraseComplete(rest, g, s3, p);
    WordLineParts(line);
  }

  /** What `WordLine` returns is a way the pattern matches. */
  lemma WordLineSound(line: string) returns (s1: string, s2: string, s3: string)
    requires WordLine(line).Some?
    ensures var m := WordLine(line).value;
            WordShape(line, m.english, s1, s2, m.chinese, s3, m.pronunciation)
  {
    WordLineParts(line);
    var (en, rest) := WordHead(line).value;
    s1, s2 := HeadSound(line);
    s3 := PhraseSound(rest);
    var (g, p) := Phrase(rest).value;
    Regroup7(line, en, s1, '-', s2, g, s3, Bracket(p));
  }

  /** Two ways the pattern matches a line agree on the groups. */
  lemma WordShapeUnique(line: string, e: string, s1: string, s2: string, g: string, s3: string, p: Option<string>,
                        e': string, s1': string, s2': string, g': string, s3': string, p': Option<string>)
    requires WordShape(line, e, s1, s2, g, s3, p) && WordShape(line, e', s1', s2', g', s3', p')
    ensures e == e' && g == g' && p == p'
  {
    WordLineComplete(line, e, s1, s2, g, s3, p);
    WordLineComplete(line, e', s1', s2', g', s3', p');
  }

  // ---------------------------------------------------------------------
  // Format check
  // ---------------------------------------------------------------------

  datatype Validation = Validation(isValid: bool, issues: seq<string>, suggestions: seq<string>)

  const UnitIssue := "未找到Unit标题"
  const UnitSuggestion := "请确保文本包含\"Unit 1\"、\"Unit 2\"等单元标题"
  const LessonIssue := "未找到Lesson标题"
  const LessonSuggestion := "请确保文本包含\"Lesson 1\"、\"Lesson 2\"等课程标题"
  const WordIssue := "未找到标准单词格式"
  const WordSuggestion := "请确保单词格式为\"hello - 你好\"或\"hello - 你好 [həˈloʊ]\""

  /** One entry per failed check, in the order the checks run. */
  function Failed<T>(hasUnit: bool, hasLesson: bool, hasWord: bool, u: T, l: T, w: T): (r: seq<T>)
    ensures |r| <= 3 && (r == [] <==> hasUnit && hasLesson && hasWord)
  {
    (if hasUnit then [] else [u]) + (if hasLesson then [] else [l]) + (if hasWord then [] else [w])
  }

  /** The three checks of `text`. */
  predicate HasUnit(text: string) { Exec(UnitMention, text).Some? }

  predicate HasLesson(text: string) { Exec(LessonMention, text).Some? }

  predicate HasWord(text: string) { Exec(WordMention, text).Some? }

  /**
   * `validatePDFText`: one issue and one suggestion per pattern that does
   * not occur in the text, in the order of the checks; valid exactly when
   * all three occur.
   */
  method ValidatePDFText(text: string) returns (v: Validation)
    ensures v.isValid <==> HasUnit(text) && HasLesson(text) && HasWord(text)
    ensures v.issues == Failed(HasUnit(text), HasLesson(text), HasWord(text), UnitIssue, LessonIssue, WordIssue)
    ensures v.suggestions == Failed(HasUnit(text), HasLesson(text), HasWord(text), UnitSuggestion, LessonSuggestion, WordSuggestion)
  {
    var hasUnit := HasUnit(text);
    var hasLesson := HasLesson(text);
    var hasWord := HasWord(text);
    var issues: seq<string> := [];
    var suggestions: seq<string> := [];
    if !hasUnit {
      issues := issues + [UnitIssue];
      suggestions := suggestions + [UnitSuggestion];
    }
    ghost var u := if hasUnit then [] else [UnitIssue];
    ghost var us := if hasUnit then [] else [UnitSuggestion];
    assert issues == u && suggestions == us;
    if !hasLesson {
      issues := issues + [LessonIssue];
      suggestions := suggestions + [LessonSuggestion];
    }
    assert issues == u + (if hasLesson then [] else [LessonIssue]);
    assert suggestions == us + (if hasLesson then [] else [LessonSuggestion]);
    if !hasWord {
      issues := issues + [WordIssue];
      suggestions := suggestions + [WordSuggestion];
    }
    assert issues == Failed(hasUnit, hasLesson, hasWord, UnitIssue, LessonIssue, WordIssue);
    assert suggestions == Failed(hasUnit, hasLesson, hasWord, UnitSuggestion, LessonSuggestion, WordSuggestion);
    v := Validation(|issues| == 0, issues, suggestions);
  }

  /** `\d+` needs a digit: a text without digits has no Unit or Lesson heading mention. */
  lemma MentionNeedsDigit(w: string, text: string)
    requires Exec(Pattern(false, CaselessWord(w) + NumberTail), text).Some?
    ensures OccursFrom(Digit, text, 0)
  {
    var ts := CaselessWord(w) + NumberTail;
    assert ts[|w| + 1] == Rep(Digit, 1, false, false);
    ExecNeeds(Pattern(false, ts), text, |w| + 1, Digit);
  }

  /** `[一-龥]+` needs a Chinese character: a text without one has no word mention. */
  lemma WordMentionNeedsHan(text: string)
    requires Exec(WordMention, text).Some?
    ensures OccursFrom(Han, text, 0)
  {
    ExecNeeds(WordMention, text, 4, Han);
  }

  /** A text without digits is never valid, and without Chinese characters neither. */
  lemma InvalidWithout(text: string)
    requires !OccursFrom(Digit, text, 0) || !OccursFrom(Han, text, 0)
    ensures !HasWord(text) || !HasUnit(text)
  {
    if Exec(WordMention, text).Some? {
      WordMentionNeedsHan(text);
      if Exec(UnitMention, text).Some? {
        MentionNeedsDigit("unit", text);
      }
    }
  }

  /**
   * `w` (any case), white space and a digit at position `p` are a mention:
   * the search finds it.
   */
  lemma MentionAt(w: string, text: string, p: nat, q: nat)
    requires CaselessAt(text, p, w) && p + |w| < q < |text|
    requires forall i :: p + |w| <= i < q ==> IsSpace(text[i])
    requires IsDigit(text[q])
    ensures Exec(Pattern(false, CaselessWord(w) + NumberTail), text).Some?
  {
    var ts := NumberTail;
    var d := Run(Digit, text, q);
    assert Match(ts[1..][1..], text, q + d) == Some(Hit(q + d, []));
    GreedyFull(ts[1..], text, q);
    RunStops(Space, text, p + |w|, q - (p + |w|));
    GreedyFull(ts, text, p + |w|);
    CaselessPrefix(w, ts, text, p);
    SearchFinds(CaselessWord(w) + ts, text, 0, p);
  }
}
