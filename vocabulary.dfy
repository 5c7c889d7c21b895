/**
 * `VocabularyParser` and `mergeVocabularyFromSources` (utils/contentFetcher.ts):
 * a first-match-wins chain of line formats, the line and HTML extractors
 * built on it, and the de-duplicating merge.
 */
module Vocabulary {
  import opened Wrappers
  import opened Text
  import opened Regex
  import opened Types
  import opened Seqs

  /** `(.+?)` */
  const LazyAny := Rep(Dot, 1, true, true)
  /** `\s*` */
  const Spaces := Rep(Space, 0, false, false)
  /** `\s+` */
  const Spaces1 := Rep(Space, 1, false, false)

  /** `^(.+?)\s*-\s*(.+?)\s*\[(.+?)\]$`, as in `apple - 苹果 [ˈæpl]` */
  const Format1 := Pattern(true, [LazyAny, Spaces, One(Char('-')), Spaces, LazyAny, Spaces, One(Char('[')),
                                  LazyAny, One(Char(']')), End])
  /** `^(.+?)\s+(.+?)\s*\/(.+?)\/`, as in `apple 苹果 /ˈæpl/` (no end anchor) */
  const Format2 := Pattern(true, [LazyAny, Spaces1, LazyAny, Spaces, One(Char('/')), LazyAny, One(Char('/'))])
  /** `^(.+?):\s*(.+?)\s*\((.+?)\)$`, as in `apple: 苹果 (ˈæpl)` */
  const Format3 := Pattern(true, [LazyAny, One(Char(':')), Spaces, LazyAny, Spaces, One(Char('(')),
                                  LazyAny, One(Char(')')), End])
  /** `^(.+?)，(.+?)，(.+?)$` with full-width commas, as in `apple，苹果，ˈæpl` */
  const Format4 := Pattern(true, [LazyAny, One(Char('，')), LazyAny, One(Char('，')), LazyAny, End])
  /** `^(.+?)\s+(.+?)$`, as in `apple 苹果` */
  const SimpleFormat := Pattern(true, [LazyAny, Spaces1, LazyAny, End])

  /** How many groups each format captures. */
  lemma FormatCaptures()
    ensures Captures(Format1.terms) == 3 && Captures(Format2.terms) == 3
    ensures Captures(Format3.terms) == 3 && Captures(Format4.terms) == 3
    ensures Captures(SimpleFormat.terms) == 2
  {
    Format1Count();
    Format2Count();
    Format3Count();
    Format4Count();
    SimpleCount();
  }

  lemma Format1Count() ensures Captures(Format1.terms) == 3 {
    var t := Format1.terms;
    assert Captures(t[9..]) == 0;
    assert Captures(t[8..]) == 0;
    assert Captures(t[7..]) == 1;
    assert Captures(t[6..]) == 1;
    assert Captures(t[5..]) == 1;
    assert Captures(t[4..]) == 2;
    assert Captures(t[3..]) == 2;
    assert Captures(t[2..]) == 2;
    assert Captures(t[1..]) == 2;
  }

  lemma Format2Count() ensures Captures(Format2.terms) == 3 {
    var t := Format2.terms;
    assert Captures(t[6..]) == 0;
    assert Captures(t[5..]) == 1;
    assert Captures(t[4..]) == 1;
    assert Captures(t[3..]) == 1;
    assert Captures(t[2..]) == 2;
    assert Captures(t[1..]) == 2;
  }

  lemma Format3Count() ensures Captures(Format3.terms) == 3 {
    var t := Format3.terms;
    assert Captures(t[8..]) == 0;
    assert Captures(t[7..]) == 0;
    assert Captures(t[6..]) == 1;
    assert Captures(t[5..]) == 1;
    assert Captures(t[4..]) == 1;
    assert Captures(t[3..]) == 2;
    assert Captures(t[2..]) == 2;
    assert Captures(t[1..]) == 2;
  }

  lemma Format4Count() ensures Captures(Format4.terms) == 3 {
    var t := Format4.terms;
    assert Captures(t[5..]) == 0;
    assert Captures(t[4..]) == 1;
    assert Captures(t[3..]) == 1;
    assert Captures(t[2..]) == 2;
    assert Captures(t[1..]) == 2;
  }

  lemma SimpleCount() ensures Captures(SimpleFormat.terms) == 2 {
    var t := SimpleFormat.terms;
    assert Captures(t[3..]) == 0;
    assert Captures(t[2..]) == 1;
    assert Captures(t[1..]) == 1;
  }

  /** The record every parser of this file builds. */
  function ImportedWord(id: string, source: string, english: string, chinese: string, pronunciation: Option<string>): Word {
    Word(id, english, Some(chinese), pronunciation, Some("beginner"), Some("imported"), Some(source), Some("imported"), Some("imported"))
  }

  /** `line.match(format1) || line.match(format2) || line.match(format3) || line.match(format4)` */
  function FirstFormat(line: string): (r: Option<Found>)
    ensures r.Some? ==> |r.value.caps| == 3
  {
    FormatCaptures();
    if Exec(Format1, line).Some? then Exec(Format1, line)
    else if Exec(Format2, line).Some? then Exec(Format2, line)
    else if Exec(Format3, line).Some? then Exec(Format3, line)
    else Exec(Format4, line)
  }

  /** `VocabularyParser.parseWordLine(line, index, source)` */
  function ParseWordLine(line: string, index: nat, source: string): (r: Option<Word>)
    ensures r.Some? ==> r.value.id == source + "-" + NatToString(index)
    ensures r.Some? ==> r.value.level == Some("beginner") && r.value.category == Some("imported")
    ensures r.Some? ==> r.value.textbook == Some(source)
    ensures r.Some? ==> r.value.unit == Some("imported") && r.value.lesson == Some("imported")
    ensures r.Some? ==> r.value.chinese.Some?
  {
    FormatCaptures();
    var id := source + "-" + NatToString(index);
    match FirstFormat(line)
    case Some(f) => Some(ImportedWord(id, source, Trim(f.caps[0]), Trim(f.caps[1]), Some(Trim(f.caps[2]))))
    case None =>
      match Exec(SimpleFormat, line)
      case Some(f) => Some(ImportedWord(id, source, Trim(f.caps[0]), Trim(f.caps[1]), None))
      case None => None
  }

  // ---------------------------------------------------------------------
  // What parseWordLine does on particular kinds of lines
  // ---------------------------------------------------------------------

  /**
   * `english - chinese [pronunciation]` is read by the first format: english
   * and chinese come back as written and the pronunciation trimmed, whatever
   * the later formats would say.
   */
  lemma ParseFormat1(e: string, c: string, p: string, index: nat, source: string)
    requires Tight(e) && Tight(c) && p != []
    requires NoLineTerminator(e) && NoLineTerminator(c) && NoLineTerminator(p)
    requires '-' !in e && '[' !in c
    ensures ParseWordLine(e + " - " + c + " [" + p + "]", index, source)
         == Some(ImportedWord(source + "-" + NatToString(index), source, e, c, Some(Trim(p))))
  {
    var line := e + " - " + c + " [" + p + "]";
    Format1Captures(e, c, p);
    TrimOfTrimmed(e);
    TrimOfTrimmed(c);
  }

  lemma Format1Captures(e: string, c: string, p: string)
    requires Tight(e) && Tight(c) && p != []
    requires NoLineTerminator(e) && NoLineTerminator(c) && NoLineTerminator(p)
    requires '-' !in e && '[' !in c
    ensures var line := e + " - " + c + " [" + p + "]";
            Exec(Format1, line) == Some(Found(0, |line|, [e, c, p]))
  {
    var line := e + " - " + c + " [" + p + "]";
    var A := |e|;
    var C := A + 3 + |c|;
    Slices6(line, e, " - ", c, " [", p, "]");
    assert line[C + 2..|line| - 1] == p;
    Format1At(line, A, C);
    Triple(line[..A], line[A + 3..C], line[C + 2..|line| - 1], e, c, p);
  }

  /** The line as the first format reads it: english up to `A`, ` - `, chinese up to `C`, ` [`, pronunciation, `]`. */
  lemma Format1At(line: string, A: nat, C: nat)
    requires A + 4 <= C && C + 3 < |line|
    requires Tight(line[..A]) && NoLineTerminator(line[..A]) && '-' !in line[..A]
    requires line[A..A + 3] == " - "
    requires Tight(line[A + 3..C]) && NoLineTerminator(line[A + 3..C]) && '[' !in line[A + 3..C]
    requires line[C..C + 2] == " [" && line[C + 2..] == line[C + 2..|line| - 1] + "]"
    requires NoLineTerminator(line[C + 2..|line| - 1])
    ensures Exec(Format1, line) == Some(Found(0, |line|, [line[..A], line[A + 3..C], line[C + 2..|line| - 1]]))
  {
    Format1Layout(line, A, C);
    Format1Tail(line, C);
    Format1Middle(line, A, C);
    var caps := [line[A + 3..C], line[C + 2..|line| - 1]];
    LazyBeforeLiteral(Format1.terms, line, 0, A, '-');
    assert [line[0..A]] + caps == [line[..A], line[A + 3..C], line[C + 2..|line| - 1]];
    ExecAnchored(Format1, line, Hit(|line|, [line[..A]] + caps));
  }

  /** The same layout, character by character. */
  lemma Format1Layout(line: string, A: nat, C: nat)
    requires A + 4 <= C && C + 3 < |line|
    requires Tight(line[..A]) && NoLineTerminator(line[..A]) && '-' !in line[..A]
    requires line[A..A + 3] == " - "
    requires Tight(line[A + 3..C]) && NoLineTerminator(line[A + 3..C]) && '[' !in line[A + 3..C]
    requires line[C..C + 2] == " [" && line[C + 2..] == line[C + 2..|line| - 1] + "]"
    requires NoLineTerminator(line[C + 2..|line| - 1])
    ensures forall i :: 0 <= i < A ==> !IsLineTerminator(line[i]) && line[i] != '-'
    ensures !IsSpace(line[A - 1]) && line[A] == ' ' && line[A + 1] == '-' && line[A + 2] == ' '
    ensures forall i :: A + 3 <= i < C ==> !IsLineTerminator(line[i]) && line[i] != '['
    ensures !IsSpace(line[A + 3]) && !IsSpace(line[C - 1])
    ensures line[C] == ' ' && line[C + 1] == '[' && line[|line| - 1] == ']'
    ensures forall i :: C + 2 <= i < |line| - 1 ==> !IsLineTerminator(line[i])
  {
    var e, c, p := line[..A], line[A + 3..C], line[C + 2..|line| - 1];
    forall i | 0 <= i < A ensures !IsLineTerminator(line[i]) && line[i] != '-' {
      assert line[i] == e[i];
    }
    forall i | A + 3 <= i < C ensures !IsLineTerminator(line[i]) && line[i] != '[' {
      assert line[i] == c[i - A - 3];
    }
    forall i | C + 2 <= i < |line| - 1 ensures !IsLineTerminator(line[i]) {
      assert line[i] == p[i - C - 2];
    }
    assert line[A - 1] == e[A - 1];
    assert line[A] == line[A..A + 3][0] && line[A + 1] == line[A..A + 3][1] && line[A + 2] == line[A..A + 3][2];
    assert line[A + 3] == c[0] && line[C - 1] == c[|c| - 1];
    assert line[C] == line[C..C + 2][0] && line[C + 1] == line[C..C + 2][1];
    assert line[|line| - 1] == line[C + 2..][|line| - C - 3];
  }

  /** ` [pronunciation]` at the end of the line. */
  lemma Format1Tail(line: string, C: nat)
    requires C + 3 < |line| && line[C] == ' ' && line[C + 1] == '[' && line[|line| - 1] == ']'
    requires forall i :: C + 2 <= i < |line| - 1 ==> !IsLineTerminator(line[i])
    ensures Match(Format1.terms[5..], line, C) == Some(Hit(|line|, [line[C + 2..|line| - 1]]))
  {
    var ts := Format1.terms;
    assert ts[7..] == [LazyAny, One(Char(']')), End];
    LazyThenLastLiteral(ts[7..], line, C + 2, ']');
    assert ts[6..][1..] == ts[7..];
    assert ts[5..][1..] == ts[6..];
    assert Run(Space, line, C + 1) == 0;
    assert Run(Space, line, C) == 1;
    SpacesThen(ts[5..], line, C);
  }

  /** ` - chinese [pronunciation]` after the english text, which ends at `A`. */
  lemma Format1Middle(line: string, A: nat, C: nat)
    requires A + 4 <= C && C + 3 < |line|
    requires line[A] == ' ' && line[A + 1] == '-' && line[A + 2] == ' '
    requires forall i :: A + 3 <= i < C ==> !IsLineTerminator(line[i]) && line[i] != '['
    requires !IsSpace(line[A + 3]) && !IsSpace(line[C - 1])
    requires Match(Format1.terms[5..], line, C) == Some(Hit(|line|, [line[C + 2..|line| - 1]]))
    ensures Match(Format1.terms[1..], line, A) == Some(Hit(|line|, [line[A + 3..C], line[C + 2..|line| - 1]]))
  {
    Format1Chinese(line, A + 3, C);
    Format1Dash(line, A, Hit(|line|, [line[A + 3..C], line[C + 2..|line| - 1]]));
  }

  /** `chinese [pronunciation]`, with the chinese text from `B` to `C`. */
  lemma Format1Chinese(line: string, B: nat, C: nat)
    requires B + 1 <= C && C + 3 < |line|
    requires forall i :: B <= i < C ==> !IsLineTerminator(line[i]) && line[i] != '['
    requires !IsSpace(line[C - 1])
    requires Match(Format1.terms[5..], line, C) == Some(Hit(|line|, [line[C + 2..|line| - 1]]))
    ensures Match(Format1.terms[4..], line, B) == Some(Hit(|line|, [line[B..C], line[C + 2..|line| - 1]]))
  {
    var ts := Format1.terms;
    assert ts[4..][1..] == ts[5..];
    assert ts[4..][0] == LazyAny && ts[4..][1] == Spaces && ts[4..][2] == One(Char('['));
    LazyBeforeLiteral(ts[4..], line, B, C - B, '[');
    assert [line[B..C]] + [line[C + 2..|line| - 1]] == [line[B..C], line[C + 2..|line| - 1]];
  }

  /** ` - ` and then whatever follows from `A + 3`. */
  lemma Format1Dash(line: string, A: nat, h: Hit)
    requires A + 3 < |line|
    requires line[A] == ' ' && line[A + 1] == '-' && line[A + 2] == ' ' && !IsSpace(line[A + 3])
    requires Match(Format1.terms[4..], line, A + 3) == Some(h)
    ensures Match(Format1.terms[1..], line, A) == Some(h)
  {
    var ts := Format1.terms[1..];
    assert ts[..3] == [Spaces, One(Char('-')), Spaces] && ts[3..] == Format1.terms[4..];
    DashThen(ts, line, A, h);
  }

  /** `\s*-\s*` over ` - `, then `ts[3..]` from after the dash and its space. */
  lemma DashThen(ts: seq<Term>, line: string, A: nat, h: Hit)
    requires |ts| >= 3 && ts[..3] == [Spaces, One(Char('-')), Spaces]
    requires A + 3 < |line|
    requires line[A] == ' ' && line[A + 1] == '-' && line[A + 2] == ' ' && !IsSpace(line[A + 3])
    requires Match(ts[3..], line, A + 3) == Some(h)
    ensures Match(ts, line, A) == Some(h)
  {
    assert ts[0] == Spaces && ts[1..][..2] == [One(Char('-')), Spaces] && ts[1..][2..] == ts[3..];
    AfterSpace(ts[1..], line, A + 1, h);
    RunStops(Space, line, A, 1);
    SpacesThen(ts, line, A);
  }

  /** `-\s*` over `- `, then `ts[2..]` from `A + 2`. */
  lemma AfterSpace(ts: seq<Term>, line: string, A: nat, h: Hit)
    requires |ts| >= 2 && ts[..2] == [One(Char('-')), Spaces]
    requires A + 2 < |line| && line[A] == '-' && line[A + 1] == ' ' && !IsSpace(line[A + 2])
    requires Match(ts[2..], line, A + 2) == Some(h)
    ensures Match(ts, line, A) == Some(h)
  {
    var t1 := ts[1..];
    assert ts[0] == One(Char('-')) && t1[0] == Spaces && t1[1..] == ts[2..];
    RunStops(Space, line, A + 1, 1);
    GreedyFull(t1, line, A + 1);
    assert Match(t1, line, A + 1) == Some(h);
    OneStep(ts, line, A);
  }

  /** The line of the format-1 example: `hello - 你好 [həˈloʊ]`. */
  lemma ParseHelloExample(line: string, index: nat, source: string)
    requires line == "hello - 你好 [həˈloʊ]"
    ensures ParseWordLine(line, index, source)
         == Some(ImportedWord(source + "-" + NatToString(index), source, "hello", "你好", Some("həˈloʊ")))
  {
    var e, c, p := "hello", "你好", "həˈloʊ";
    assert line == e + " - " + c + " [" + p + "]";
    HelloPieces(e, c, p);
    ParseFormat1(e, c, p, index, source);
    TrimOfTrimmed(p);
  }

  lemma HelloPieces(e: string, c: string, p: string)
    requires e == "hello" && c == "你好" && p == "həˈloʊ"
    ensures Tight(e) && Tight(c) && Tight(p)
    ensures NoLineTerminator(e) && NoLineTerminator(c) && NoLineTerminator(p)
    ensures '-' !in e && '[' !in c
  {
  }

  /** A pattern that needs a character of class `k` does not match a string without one. */
  lemma ExecAbsent(p: Pattern, s: string, j: nat, k: Class)
    requires j < |p.terms| && Needs(p.terms[j], k)
    requires forall i :: 0 <= i < |s| ==> !In(k, s[i])
    ensures Exec(p, s).None?
  {
    if Exec(p, s).Some? {
      ExecNeeds(p, s, j, k);
    }
  }

  /**
   * A line with no white space and none of `-`, `:` and `，` (such as
   * `justoneword`) matches no format: it is not a word.
   */
  lemma ParseNoSeparator(line: string, index: nat, source: string)
    requires forall i :: 0 <= i < |line| ==> !IsSpace(line[i]) && line[i] !in "-:，"
    ensures ParseWordLine(line, index, source).None?
  {
    ExecAbsent(Format1, line, 2, Char('-'));
    ExecAbsent(Format2, line, 1, Space);
    ExecAbsent(Format3, line, 1, Char(':'));
    ExecAbsent(Format4, line, 1, Char('，'));
    ExecAbsent(SimpleFormat, line, 1, Space);
  }

  /**
   * `english chinese`, where english has no white space and neither has any
   * of `-`, `:`, `，` and `/`, falls through to the simple format: the word
   * has no pronunciation.
   */
  lemma ParseSimple(e: string, c: string, index: nat, source: string)
    requires e != [] && Tight(c) && NoLineTerminator(c)
    requires forall i :: 0 <= i < |e| ==> !IsSpace(e[i])
    requires forall i :: 0 <= i < |e| ==> e[i] !in "-:，/"
    requires forall i :: 0 <= i < |c| ==> c[i] !in "-:，/"
    ensures ParseWordLine(e + " " + c, index, source)
         == Some(ImportedWord(source + "-" + NatToString(index), source, e, c, None))
  {
    var line := e + " " + c;
    forall i | 0 <= i < |line|
      ensures line[i] !in "-:，/"
    {
      if i < |e| { assert line[i] == e[i]; }
      else if i > |e| { assert line[i] == c[i - |e| - 1]; }
    }
    ExecAbsent(Format1, line, 2, Char('-'));
    ExecAbsent(Format2, line, 4, Char('/'));
    ExecAbsent(Format3, line, 1, Char(':'));
    ExecAbsent(Format4, line, 1, Char('，'));
    SimpleCaptures(e, c);
    TrimOfTrimmed(e);
    TrimOfTrimmed(c);
  }

  lemma SimpleCaptures(e: string, c: string)
    requires e != [] && Tight(c) && NoLineTerminator(c)
    requires forall i :: 0 <= i < |e| ==> !IsSpace(e[i])
    ensures var line := e + " " + c;
            Exec(SimpleFormat, line) == Some(Found(0, |line|, [e, c]))
  {
    var line := e + " " + c;
    var A := |e|;
    Pieces6(line, e, " ", c, [], [], []);
    assert line[A + 1..] == c;
    SimpleAt(line, A);
    Pair(line[..A], line[A + 1..], e, c);
  }

  /** The line as the simple format reads it: english without white space up to `A`, a space, the rest. */
  lemma SimpleAt(line: string, A: nat)
    requires 1 <= A && A + 1 < |line|
    requires forall i :: 0 <= i < A ==> !IsSpace(line[i]) && !IsLineTerminator(line[i])
    requires line[A] == ' ' && !IsSpace(line[A + 1])
    requires forall i :: A + 1 <= i < |line| ==> !IsLineTerminator(line[i])
    ensures Exec(SimpleFormat, line) == Some(Found(0, |line|, [line[..A], line[A + 1..]]))
  {
    var ts := SimpleFormat.terms;
    SimpleTail(line, A);
    // the english text ends at the first white space
    forall p | 1 <= p < A
      ensures RestFails(ts, line, p)
    {
      RunStops(Space, line, p, 0);
    }
    RunAtLeast(Dot, line, 0, A);
    LazyCapture(ts, line, 0, A);
    assert [line[0..A]] + [line[A + 1..]] == [line[..A], line[A + 1..]];
    ExecAnchored(SimpleFormat, line, Hit(|line|, [line[..A], line[A + 1..]]));
  }

  /** ` chinese` to the end of the line, after the english text that ends at `A`. */
  lemma SimpleTail(line: string, A: nat)
    requires A + 1 < |line| && line[A] == ' ' && !IsSpace(line[A + 1])
    requires forall i :: A + 1 <= i < |line| ==> !IsLineTerminator(line[i])
    ensures Match(SimpleFormat.terms[1..], line, A) == Some(Hit(|line|, [line[A + 1..]]))
  {
    var ts := SimpleFormat.terms;
    assert ts[2..] == [LazyAny, End];
    LazyToEnd(ts[2..], line, A + 1);
    assert ts[1..][1..] == ts[2..];
    assert Run(Space, line, A + 1) == 0;
    assert Run(Space, line, A) == 1;
    GreedyFull(ts[1..], line, A);
  }

  /**
   * A line that starts with a non-white-space character, as
   * `extractWordsFromText` passes, never parses to an empty english: every
   * format's first group starts at column 0 and takes at least one character.
   */
  lemma ParseEnglishNonEmpty(line: string, index: nat, source: string)
    requires line != [] && !IsSpace(line[0])
    ensures ParseWordLine(line, index, source).Some? ==> ParseWordLine(line, index, source).value.english != []
  {
    if Exec(Format1, line).Some? {
      FirstGroupNonEmpty(Format1, line);
    } else if Exec(Format2, line).Some? {
      FirstGroupNonEmpty(Format2, line);
    } else if Exec(Format3, line).Some? {
      FirstGroupNonEmpty(Format3, line);
    } else if Exec(Format4, line).Some? {
      FirstGroupNonEmpty(Format4, line);
    } else if Exec(SimpleFormat, line).Some? {
      FirstGroupNonEmpty(SimpleFormat, line);
    }
  }

  lemma FirstGroupNonEmpty(p: Pattern, line: string)
    requires p.anchored && p.terms != [] && p.terms[0] == LazyAny
    requires line != [] && !IsSpace(line[0])
    requires Exec(p, line).Some?
    ensures |Exec(p, line).value.caps| >= 1 && Trim(Exec(p, line).value.caps[0]) != []
  {
    FirstCapture(p.terms, line, 0);
    var g := Exec(p, line).value.caps[0];
    assert g[0] == line[0];
    TrimEmptyIffAllSpace(g);
  }

  // ---------------------------------------------------------------------
  // extractWordsFromText
  // ---------------------------------------------------------------------

  /** A trimmed line that is neither blank nor a `#` or `//` comment. */
  predicate Kept(clean: string) {
    clean != [] && !StartsWith(clean, "#") && !StartsWith(clean, "//")
  }

  /** What line `index` contributes: its word, if it is kept and parses. */
  function LineWord(line: string, index: nat, source: string): seq<Word> {
    var clean := Trim(line);
    if Kept(clean) then
      match ParseWordLine(clean, index, source)
      case Some(w) => [w]
      case None => []
    else []
  }

  /** The word of line `index`, if any, has the id `source-index`. */
  lemma LineWordId(line: string, index: nat, source: string)
    ensures forall w :: w in LineWord(line, index, source) ==> w.id == source + "-" + NatToString(index)
  {
    var clean := Trim(line);
    if Kept(clean) {
      var r := ParseWordLine(clean, index, source);
      assert r.Some? ==> r.value.id == source + "-" + NatToString(index);
    }
  }

  /** Line `index` gives at most one word, with a non-empty english. */
  lemma LineWordShape(line: string, index: nat, source: string)
    ensures |LineWord(line, index, source)| <= 1
    ensures forall w :: w in LineWord(line, index, source) ==> w.english != []
  {
    var clean := Trim(line);
    if Kept(clean) {
      TrimmedEnds(line);
      ParseEnglishNonEmpty(clean, index, source);
    }
  }

  lemma LineWordKept(line: string, index: nat, source: string, word: Option<Word>)
    requires Kept(Trim(line)) && word == ParseWordLine(Trim(line), index, source)
    ensures LineWord(line, index, source) == if word.Some? then [word.value] else []
  {
  }

  lemma LineWordDropped(line: string, index: nat, source: string)
    requires !Kept(Trim(line))
    ensures LineWord(line, index, source) == []
  {
  }

  /** What each line of the text contributes. */
  function LineResults(lines: seq<string>, source: string): (rs: seq<seq<Word>>)
    ensures |rs| == |lines|
    ensures forall k :: 0 <= k < |lines| ==> rs[k] == LineWord(lines[k], k, source)
  {
    seq(|lines|, k requires 0 <= k < |lines| => LineWord(lines[k], k, source))
  }

  /** `VocabularyParser.extractWordsFromText(content, source)` */
  method ExtractWordsFromText(content: string, source: string) returns (words: seq<Word>)
    ensures words == Flatten(LineResults(Split(content, {'\n'}), source))
  {
    var lines := Split(content, {'\n'});
    ghost var rs := LineResults(lines, source);
    words := [];
    for index := 0 to |lines|
      invariant words == Flatten(rs[..index])
    {
      ghost var before := words;
      var cleanLine := Trim(lines[index]);
      if cleanLine != [] && !StartsWith(cleanLine, "#") && !StartsWith(cleanLine, "//") {
        var word := ParseWordLine(cleanLine, index, source);
        LineWordKept(lines[index], index, source, word);
        if word.Some? {
          words := words + [word.value];
        }
      } else {
        LineWordDropped(lines[index], index, source);
      }
      assert words == before + rs[index];
      TakeSnoc(rs, index);
      FlattenSnoc(rs[..index], rs[index]);
    }
    assert rs[..|lines|] == rs;
  }

  /**
   * Every extracted word comes from one kept line `k` (counting blank and
   * comment lines) and has a non-empty english.
   */
  lemma TextWordsOrigin(lines: seq<string>, source: string, w: Word) returns (k: nat)
    requires w in Flatten(LineResults(lines, source))
    ensures k < |lines| && Kept(Trim(lines[k])) && ParseWordLine(Trim(lines[k]), k, source) == Some(w)
    ensures w.english != []
  {
    k := FlattenMember(LineResults(lines, source), w);
    LineWordShape(lines[k], k, source);
  }

  /** The id line `k` gives its word: `source-k`. */
  function LineIds(lines: seq<string>, source: string): (ids: seq<string>)
    ensures |ids| == |lines|
    ensures forall k :: 0 <= k < |ids| ==> ids[k] == source + "-" + NatToString(k)
  {
    seq(|lines|, k requires 0 <= k < |lines| => source + "-" + NatToString(k))
  }

  lemma LineResultsNumbered(lines: seq<string>, source: string)
    ensures IdentifiedParts(LineResults(lines, source), LineIds(lines, source))
  {
    var rs := LineResults(lines, source);
    forall k | 0 <= k < |rs|
      ensures |rs[k]| <= 1 && forall w: Word :: w in rs[k] ==> w.id == LineIds(lines, source)[k]
    {
      LineWordShape(lines[k], k, source);
      LineWordId(lines[k], k, source);
    }
  }

  /** The ids of the words `extractWordsFromText` returns are pairwise distinct. */
  lemma TextWordsDistinctIds(lines: seq<string>, source: string)
    ensures UniqueIds(Flatten(LineResults(lines, source)))
  {
    var ids := LineIds(lines, source);
    forall i, j | 0 <= i < j < |ids| ensures ids[i] != ids[j] {
      NumberedDistinct(source + "-", i, j);
      assert ids[i] == (source + "-") + NatToString(i);
      assert ids[j] == (source + "-") + NatToString(j);
    }
    LineResultsNumbered(lines, source);
    FlattenUniqueIds(LineResults(lines, source), ids);
  }

  // ---------------------------------------------------------------------
  // extractWordsFromHTML
  // ---------------------------------------------------------------------

  /**
   * `s.replace(/<[^>]*>/g, ' ')`: from left to right, each `<` that has a
   * `>` after it starts a tag running to the first such `>`, and the tag
   * becomes one space.
   */
  function StripTags(s: string): (r: string)
    decreases |s|
  {
    if s == [] then []
    else
      var close := FirstIn(s[1..], {'>'});
      if s[0] == '<' && close < |s| - 1 then " " + StripTags(s[close + 2..])
      else [s[0]] + StripTags(s[1..])
  }

  /** Text without a `>` has no tag to remove. */
  lemma {:induction false} StripTagsNoClose(s: string)
    requires NoneIn(s, {'>'})
    ensures StripTags(s) == s
    decreases |s|
  {
    if s != [] {
      assert NoneIn(s[1..], {'>'});
      StripTagsNoClose(s[1..]);
    }
  }

  /** Text without a `<` has no tag to remove. */
  lemma {:induction false} StripTagsNoOpen(s: string)
    requires NoneIn(s, {'<'})
    ensures StripTags(s) == s
    decreases |s|
  {
    if s != [] {
      assert NoneIn(s[1..], {'<'});
      StripTagsNoOpen(s[1..]);
    }
  }

  /** No `<` followed somewhere by a `>`. */
  predicate NoTag(s: string) {
    forall i, j :: 0 <= i < j < |s| && s[i] == '<' ==> s[j] != '>'
  }

  /** A character in front of tag-free text leaves it tag-free, unless it is a `<` before a `>`. */
  lemma NoTagCons(c: char, r: string)
    requires NoTag(r) && (c == '<' ==> NoneIn(r, {'>'}))
    ensures NoTag([c] + r)
  {
    var t := [c] + r;
    forall i, j | 0 <= i < j < |t| && t[i] == '<' ensures t[j] != '>' {
      assert t[j] == r[j - 1];
      if i > 0 {
        assert t[i] == r[i - 1];
      }
    }
  }

  /** After the replacement no tag is left. */
  lemma {:induction false} StripTagsNoTag(s: string)
    ensures NoTag(StripTags(s))
    decreases |s|
  {
    if s != [] {
      var close := FirstIn(s[1..], {'>'});
      if s[0] == '<' && close < |s| - 1 {
        StripTagsNoTag(s[close + 2..]);
        NoTagCons(' ', StripTags(s[close + 2..]));
      } else {
        StripTagsNoTag(s[1..]);
        if s[0] == '<' {
          assert NoneIn(s[1..], {'>'});
          StripTagsNoClose(s[1..]);
        }
        NoTagCons(s[0], StripTags(s[1..]));
      }
    }
  }

  /** `s.replace(/\s+/g, ' ')`: each maximal run of white space becomes one space. */
  function CollapseSpaces(s: string): (r: string)
    ensures s == [] <==> r == []
    ensures s != [] && IsSpace(s[0]) ==> r[0] == ' '
    ensures s != [] && !IsSpace(s[0]) ==> r[0] == s[0]
    decreases |s|
  {
    if s == [] then []
    else if IsSpace(s[0]) then " " + CollapseSpaces(s[LeadingSpaces(s)..])
    else [s[0]] + CollapseSpaces(s[1..])
  }

  /** The only white space left is single spaces. */
  predicate Collapsed(s: string) {
    (forall i :: 0 <= i < |s| && IsSpace(s[i]) ==> s[i] == ' ')
    && forall i :: 0 <= i < |s| - 1 && IsSpace(s[i]) ==> !IsSpace(s[i + 1])
  }

  lemma {:induction false} CollapseSpacesCollapsed(s: string)
    ensures Collapsed(CollapseSpaces(s))
    decreases |s|
  {
    if s != [] {
      if IsSpace(s[0]) {
        var n := LeadingSpaces(s);
        var r := CollapseSpaces(s[n..]);
        CollapseSpacesCollapsed(s[n..]);
        assert r != [] ==> !IsSpace(r[0]);
        var out := " " + r;
        forall i | 0 <= i < |out| && IsSpace(out[i]) ensures out[i] == ' ' {
          if i > 0 { assert out[i] == r[i - 1]; }
        }
        forall i | 0 <= i < |out| - 1 && IsSpace(out[i]) ensures !IsSpace(out[i + 1]) {
          assert out[i + 1] == r[i];
          if i > 0 { assert out[i] == r[i - 1]; }
        }
      } else {
        var r := CollapseSpaces(s[1..]);
        CollapseSpacesCollapsed(s[1..]);
        var out := [s[0]] + r;
        forall i | 0 <= i < |out| && IsSpace(out[i]) ensures out[i] == ' ' {
          assert out[i] == r[i - 1];
        }
        forall i | 0 <= i < |out| - 1 && IsSpace(out[i]) ensures !IsSpace(out[i + 1]) {
          assert out[i + 1] == r[i];
          assert out[i] == r[i - 1];
        }
      }
    }
  }

  /** The characters of `s` that are not white space. */
  function Visible(s: string): (r: string)
    ensures |r| <= |s|
  {
    if s == [] then [] else (if IsSpace(s[0]) then [] else [s[0]]) + Visible(s[1..])
  }

  lemma {:induction false} VisibleOfSpaces(s: string)
    requires AllSpace(s)
    ensures Visible(s) == []
  {
    if s != [] {
      assert AllSpace(s[1..]) by {
        forall i | 0 <= i < |s[1..]| ensures IsSpace(s[1..][i]) { assert s[1..][i] == s[i + 1]; }
      }
      VisibleOfSpaces(s[1..]);
    }
  }

  lemma {:induction false} VisibleConcat(a: string, b: string)
    ensures Visible(a + b) == Visible(a) + Visible(b)
    decreases |a|
  {
    if a != [] {
      var head := if IsSpace(a[0]) then [] else [a[0]];
      assert (a + b)[0] == a[0] && (a + b)[1..] == a[1..] + b;
      VisibleConcat(a[1..], b);
      assert Visible(a + b) == head + Visible(a[1..] + b);
      assert Visible(a) == head + Visible(a[1..]);
    } else {
      assert a + b == b;
    }
  }

  /** Collapsing white space keeps every other character, in order. */
  lemma {:induction false} CollapseSpacesVisible(s: string)
    ensures Visible(CollapseSpaces(s)) == Visible(s)
    decreases |s|
  {
    if s != [] {
      if IsSpace(s[0]) {
        var n := LeadingSpaces(s);
        CollapseSpacesVisible(s[n..]);
        assert s == s[..n] + s[n..];
        VisibleConcat(s[..n], s[n..]);
        VisibleOfSpaces(s[..n]);
      } else {
        CollapseSpacesVisible(s[1..]);
      }
    }
  }

  /** The text `extractWordsFromHTML` searches. */
  function HtmlText(html: string): string {
    CollapseSpaces(StripTags(html))
  }

  /** `/([a-zA-Z]+)\s*[：:-]\s*([^\s\n]+)/g` */
  const PairTerms: seq<Term> :=
    [Rep(Letter, 1, false, true), Spaces, One(Among("：:-")), Spaces, Rep(NotSpace, 1, false, true)]

  /** `/([a-zA-Z]+)\s*\(([^)]+)\)/g` */
  const ParenTerms: seq<Term> :=
    [Rep(Letter, 1, false, true), Spaces, One(Char('(')), Rep(Except(')'), 1, false, true), One(Char(')'))]

  /** Both patterns start with a capture of letters and capture two groups. */
  predicate WordPattern(ts: seq<Term>) {
    Consuming(ts) && ts[0] == Rep(Letter, 1, false, true) && Captures(ts) == 2
  }

  lemma WordPatterns()
    ensures WordPattern(PairTerms) && WordPattern(ParenTerms)
  {
    var t := PairTerms;
    assert Captures(t[5..]) == 0;
    assert Captures(t[4..]) == 1;
    assert Captures(t[3..]) == 1;
    assert Captures(t[2..]) == 1;
    assert Captures(t[1..]) == 1;
    t := ParenTerms;
    assert Captures(t[5..]) == 0;
    assert Captures(t[4..]) == 0;
    assert Captures(t[3..]) == 1;
    assert Captures(t[2..]) == 1;
    assert Captures(t[1..]) == 1;
  }

  /** The matches of the patterns in `pats`, pattern by pattern. */
  function PatternMatches(pats: seq<seq<Term>>, text: string): (r: seq<Found>)
    requires forall k :: 0 <= k < |pats| ==> WordPattern(pats[k])
  {
    if pats == [] then []
    else
      var init := pats[..|pats| - 1];
      var last := pats[|pats| - 1];
      assert forall k :: 0 <= k < |init| ==> init[k] == pats[k];
      assert WordPattern(last);
      PatternMatches(init, text) + AllMatches(last, text, 0)
  }

  /** The trimmed english and chinese groups of a match. */
  function Candidate(f: Found): (string, string) {
    if |f.caps| >= 2 then (Trim(f.caps[0]), Trim(f.caps[1])) else ([], [])
  }

  /** `english.length > 1 && chinese.length > 0` */
  predicate Acceptable(c: (string, string)) {
    |c.0| > 1 && |c.1| > 0
  }

  /** The candidates of the matches that pass the length test, in order. */
  function Accepted(fs: seq<Found>): (cs: seq<(string, string)>)
    ensures forall i :: 0 <= i < |cs| ==> Acceptable(cs[i])
  {
    if fs == [] then []
    else
      var c := Candidate(fs[|fs| - 1]);
      Accepted(fs[..|fs| - 1]) + (if Acceptable(c) then [c] else [])
  }

  lemma AcceptedSnoc(fs: seq<Found>, f: Found)
    ensures Accepted(fs + [f]) == Accepted(fs) + (if Acceptable(Candidate(f)) then [Candidate(f)] else [])
  {
    assert (fs + [f])[..|fs|] == fs;
  }

  /** Every accepted candidate comes from one of the matches. */
  lemma {:induction false} AcceptedFrom(fs: seq<Found>, i: nat) returns (k: nat)
    requires i < |Accepted(fs)|
    ensures k < |fs| && Accepted(fs)[i] == Candidate(fs[k])
  {
    var init := fs[..|fs| - 1];
    if i < |Accepted(init)| {
      k := AcceptedFrom(init, i);
      assert init[k] == fs[k];
    } else {
      k := |fs| - 1;
    }
  }

  /** The words made from accepted candidates: ids `source-0`, `source-1`, ... */
  function NumberedWords(cs: seq<(string, string)>, source: string): (ws: seq<Word>)
    ensures |ws| == |cs|
  {
    if cs == [] then []
    else
      var init := cs[..|cs| - 1];
      var c := cs[|cs| - 1];
      NumberedWords(init, source) + [ImportedWord(source + "-" + NatToString(|init|), source, ToLower(c.0), c.1, None)]
  }

  lemma NumberedSnoc(cs: seq<(string, string)>, c: (string, string), source: string)
    ensures NumberedWords(cs + [c], source)
         == NumberedWords(cs, source)
            + [ImportedWord(source + "-" + NatToString(|cs|), source, ToLower(c.0), c.1, None)]
  {
    assert (cs + [c])[..|cs|] == cs;
  }

  /**
   * The body of the `forEach` in `extractWordsFromHTML`: runs one global
   * pattern over the text, appending a numbered word for each acceptable
   * match to `words0`, the words of the earlier patterns' matches `seen`.
   */
  method ExecPattern(pattern: seq<Term>, textContent: string, source: string,
                     words0: seq<Word>, wordIndex0: nat, ghost seen: seq<Found>)
    returns (words: seq<Word>, wordIndex: nat)
    requires WordPattern(pattern)
    requires words0 == NumberedWords(Accepted(seen), source) && wordIndex0 == |words0|
    ensures words == NumberedWords(Accepted(seen + AllMatches(pattern, textContent, 0)), source)
    ensures wordIndex == |words|
  {
    words, wordIndex := words0, wordIndex0;
    var lastIndex := 0;
    ghost var here: seq<Found> := [];
    assert seen + here == seen;
    while true
      invariant lastIndex <= |textContent|
      invariant here + AllMatches(pattern, textContent, lastIndex) == AllMatches(pattern, textContent, 0)
      invariant words == NumberedWords(Accepted(seen + here), source) && wordIndex == |words|
      decreases |textContent| - lastIndex
    {
      var found := SearchFrom(pattern, textContent, lastIndex);
      if found.None? {
        assert AllMatches(pattern, textContent, lastIndex) == [];
        assert here == AllMatches(pattern, textContent, 0);
        break;
      }
      var m := found.value;
      AllMatchesStep(pattern, textContent, lastIndex);
      ghost var rest := AllMatches(pattern, textContent, m.end);
      Regroup3(here, [m], rest);
      var english := Trim(m.caps[0]);
      var chinese := Trim(m.caps[1]);
      assert Candidate(m) == (english, chinese);
      ghost var acc := Accepted(seen + here);
      AcceptedSnoc(seen + here, m);
      Regroup3(seen, here, [m]);
      if |english| > 1 && |chinese| > 0 {
        assert Accepted(seen + (here + [m])) == acc + [(english, chinese)];
        NumberedSnoc(acc, (english, chinese), source);
        words := words + [ImportedWord(source + "-" + NatToString(wordIndex), source, ToLower(english), chinese, None)];
        wordIndex := wordIndex + 1;
      } else {
        assert Accepted(seen + (here + [m])) == acc;
      }
      here := here + [m];
      lastIndex := m.end;
    }
  }

  /** `wordPatterns.forEach(...)` in `extractWordsFromHTML`: the patterns in order. */
  method ExecPatterns(wordPatterns: seq<seq<Term>>, textContent: string, source: string)
    returns (words: seq<Word>)
    requires forall k :: 0 <= k < |wordPatterns| ==> WordPattern(wordPatterns[k])
    ensures words == NumberedWords(Accepted(PatternMatches(wordPatterns, textContent)), source)
  {
    words := [];
    var wordIndex := 0;
    for p := 0 to |wordPatterns|
      invariant words == NumberedWords(Accepted(PatternMatches(wordPatterns[..p], textContent)), source)
      invariant wordIndex == |words|
    {
      assert wordPatterns[..p + 1][..p] == wordPatterns[..p];
      words, wordIndex := ExecPattern(wordPatterns[p], textContent, source, words, wordIndex,
                                      PatternMatches(wordPatterns[..p], textContent));
    }
    assert wordPatterns[..|wordPatterns|] == wordPatterns;
  }

  /** The matches of the pair pattern, then those of the bracket pattern. */
  function HtmlMatches(text: string): seq<Found> {
    AllMatches(PairTerms, text, 0) + AllMatches(ParenTerms, text, 0)
  }

  /** `VocabularyParser.extractWordsFromHTML(html, source)` */
  method ExtractWordsFromHTML(html: string, source: string) returns (words: seq<Word>)
    ensures words == NumberedWords(Accepted(HtmlMatches(HtmlText(html))), source)
  {
    var textContent := CollapseSpaces(StripTags(html));
    WordPatterns();
    words := ExecPatterns([PairTerms, ParenTerms], textContent, source);
    var pats := [PairTerms, ParenTerms];
    assert pats[..1] == [PairTerms] && [PairTerms][..0] == [];
    assert PatternMatches([PairTerms], textContent) == AllMatches(PairTerms, textContent, 0);
    assert PatternMatches(pats, textContent) == HtmlMatches(textContent);
  }

  lemma {:induction false} NumberedWordAt(cs: seq<(string, string)>, source: string, i: nat)
    requires i < |cs|
    ensures NumberedWords(cs, source)[i]
         == ImportedWord(source + "-" + NatToString(i), source, ToLower(cs[i].0), cs[i].1, None)
  {
    var init := cs[..|cs| - 1];
    if i < |init| {
      NumberedWordAt(init, source, i);
      assert init[i] == cs[i];
    }
  }

  /** The words `extractWordsFromHTML` numbers have pairwise distinct ids. */
  lemma NumberedDistinctIdsHtml(cs: seq<(string, string)>, source: string)
    ensures UniqueIds(NumberedWords(cs, source))
  {
    var ws := NumberedWords(cs, source);
    forall i, j | 0 <= i < j < |ws| ensures ws[i].id != ws[j].id {
      NumberedWordAt(cs, source, i);
      NumberedWordAt(cs, source, j);
      NumberedDistinct(source + "-", i, j);
    }
  }

  /** `s` is made of lower-case ASCII letters. */
  predicate LowerLetters(s: string) {
    forall i :: 0 <= i < |s| ==> 'a' <= s[i] <= 'z'
  }

  /** An english group of ASCII letters and a chinese group with no white space at either end. */
  predicate LetterCandidate(c: (string, string)) {
    (forall i :: 0 <= i < |c.0| ==> IsAsciiLetter(c.0[i]))
    && (c.1 == [] || (!IsSpace(c.1[0]) && !IsSpace(c.1[|c.1| - 1])))
  }

  /** Each match of a word pattern yields a letter candidate. */
  lemma MatchCandidate(ts: seq<Term>, text: string, from: nat, k: nat)
    requires from <= |text| && WordPattern(ts) && k < |AllMatches(ts, text, from)|
    ensures LetterCandidate(Candidate(AllMatches(ts, text, from)[k]))
  {
    var f := AllMatches(ts, text, from)[k];
    AllMatchesAt(ts, text, from, k);
    FirstCaptureIn(ts, text, f.start);
    var e := f.caps[0];
    assert forall i :: 0 <= i < |e| ==> IsAsciiLetter(e[i]);
    TrimOfTrimmed(e);
    TrimmedEnds(f.caps[1]);
  }

  lemma HtmlCandidates(text: string)
    ensures forall k :: 0 <= k < |HtmlMatches(text)| ==> LetterCandidate(Candidate(HtmlMatches(text)[k]))
  {
    WordPatterns();
    var fs := HtmlMatches(text);
    var pairs := AllMatches(PairTerms, text, 0);
    forall k | 0 <= k < |fs| ensures LetterCandidate(Candidate(fs[k])) {
      if k < |pairs| {
        assert fs[k] == pairs[k];
        MatchCandidate(PairTerms, text, 0, k);
      } else {
        assert fs[k] == AllMatches(ParenTerms, text, 0)[k - |pairs|];
        MatchCandidate(ParenTerms, text, 0, k - |pairs|);
      }
    }
  }

  /** The words numbered from accepted letter candidates. */
  lemma AcceptedWordShape(fs: seq<Found>, source: string, w: Word)
    requires forall k :: 0 <= k < |fs| ==> LetterCandidate(Candidate(fs[k]))
    requires w in NumberedWords(Accepted(fs), source)
    ensures |w.english| > 1 && LowerLetters(w.english)
    ensures w.chinese.Some? && Tight(w.chinese.value)
  {
    var cs := Accepted(fs);
    var ws := NumberedWords(cs, source);
    var i :| 0 <= i < |ws| && ws[i] == w;
    NumberedWordAt(cs, source, i);
    var k := AcceptedFrom(fs, i);
    assert LetterCandidate(cs[i]);
  }

  /**
   * Every word `extractWordsFromHTML` returns has an english of at least two
   * lower-case ASCII letters and a non-empty chinese with no white space at
   * either end.
   */
  lemma HtmlWordShape(html: string, source: string, w: Word)
    requires w in NumberedWords(Accepted(HtmlMatches(HtmlText(html))), source)
    ensures |w.english| > 1 && LowerLetters(w.english)
    ensures w.chinese.Some? && Tight(w.chinese.value)
  {
    HtmlCandidates(HtmlText(html));
    AcceptedWordShape(HtmlMatches(HtmlText(html)), source, w);
  }

  /** The ids of the words `extractWordsFromHTML` returns are pairwise distinct. */
  lemma HtmlWordsDistinctIds(html: string, source: string)
    ensures UniqueIds(NumberedWords(Accepted(HtmlMatches(HtmlText(html))), source))
  {
    NumberedDistinctIdsHtml(Accepted(HtmlMatches(HtmlText(html))), source);
  }

  // ---------------------------------------------------------------------
  // mergeVocabularyFromSources
  // ---------------------------------------------------------------------

  /** `${word.english.toLowerCase()}-${word.chinese}`; a missing chinese prints as `undefined`. */
  function Key(w: Word): string {
    ToLower(w.english) + "-" + w.chinese.GetOr("undefined")
  }

  function Keys(ws: seq<Word>): set<string> {
    set w | w in ws :: Key(w)
  }

  /** The first word of each key, in order. */
  function Dedup(ws: seq<Word>): seq<Word> {
    if ws == [] then []
    else
      var prev := Dedup(ws[..|ws| - 1]);
      if Key(ws[|ws| - 1]) in Keys(prev) then prev else prev + [ws[|ws| - 1]]
  }

  lemma KeysSnoc(ws: seq<Word>, w: Word)
    ensures Keys(ws + [w]) == Keys(ws) + {Key(w)}
  {
    assert forall v :: v in ws + [w] <==> v in ws || v == w;
  }

  lemma DedupSnoc(ws: seq<Word>, w: Word)
    ensures Dedup(ws + [w]) == if Key(w) in Keys(Dedup(ws)) then Dedup(ws) else Dedup(ws) + [w]
  {
    assert (ws + [w])[..|ws|] == ws;
  }

  /** `mergeVocabularyFromSources(wordLists)` */
  method MergeVocabularyFromSources(wordLists: seq<seq<Word>>) returns (mergedWords: seq<Word>)
    ensures mergedWords == Dedup(Flatten(wordLists))
  {
    mergedWords := [];
    var seenWords: set<string> := {};
    for i := 0 to |wordLists|
      invariant mergedWords == Dedup(Flatten(wordLists[..i]))
      invariant seenWords == Keys(mergedWords)
    {
      var wordList := wordLists[i];
      assert Flatten(wordLists[..i]) + wordList[..0] == Flatten(wordLists[..i]);
      for j := 0 to |wordList|
        invariant mergedWords == Dedup(Flatten(wordLists[..i]) + wordList[..j])
        invariant seenWords == Keys(mergedWords)
      {
        var word := wordList[j];
        var key := ToLower(word.english) + "-" + word.chinese.GetOr("undefined");
        TakeSnoc(wordList, j);
        Regroup3(Flatten(wordLists[..i]), wordList[..j], [word]);
        assert key == Key(word);
        DedupSnoc(Flatten(wordLists[..i]) + wordList[..j], word);
        KeysSnoc(mergedWords, word);
        if key !in seenWords {
          seenWords := seenWords + {key};
          mergedWords := mergedWords + [word];
        }
      }
      assert wordList[..|wordList|] == wordList;
      TakeSnoc(wordLists, i);
      FlattenSnoc(wordLists[..i], wordList);
    }
    assert wordLists[..|wordLists|] == wordLists;
  }

  predicate DistinctKeys(ws: seq<Word>) {
    forall i, j :: 0 <= i < j < |ws| ==> Key(ws[i]) != Key(ws[j])
  }

  /** The merge keeps at most one word per key, ... */
  lemma {:induction false} DedupDistinctKeys(ws: seq<Word>)
    ensures DistinctKeys(Dedup(ws))
  {
    if ws != [] {
      var x := ws[|ws| - 1];
      var prev := Dedup(ws[..|ws| - 1]);
      DedupDistinctKeys(ws[..|ws| - 1]);
      if Key(x) !in Keys(prev) {
        var d := prev + [x];
        forall i, j | 0 <= i < j < |d| ensures Key(d[i]) != Key(d[j]) {
          assert d[i] == prev[i];
          if j == |prev| {
            assert d[j] == x && prev[i] in prev;
          } else {
            assert d[j] == prev[j];
          }
        }
        assert DistinctKeys(d);
      }
    }
  }

  /** ... represents every key of the input, ... */
  lemma {:induction false} DedupCoversKeys(ws: seq<Word>)
    ensures Keys(Dedup(ws)) == Keys(ws)
  {
    if ws != [] {
      var init := ws[..|ws| - 1];
      DedupCoversKeys(init);
      assert ws == init + [ws[|ws| - 1]];
      assert Keys(ws) == Keys(init) + {Key(ws[|ws| - 1])};
    }
  }

  /** ... and keeps the input order. */
  lemma {:induction false} DedupSubseq(ws: seq<Word>)
    ensures Subseq(Dedup(ws), ws)
  {
    if ws == [] {
    } else {
      var init := ws[..|ws| - 1];
      DedupSubseq(init);
      assert ws == init + [ws[|ws| - 1]];
      if Key(ws[|ws| - 1]) in Keys(Dedup(init)) {
        SubseqDrop(Dedup(init), init, ws[|ws| - 1]);
      } else {
        SubseqKeep(Dedup(init), init, ws[|ws| - 1]);
      }
    }
  }

  /** Position `i` holds the first word of its key. */
  predicate FirstOfKey(ws: seq<Word>, i: nat) {
    i < |ws| && forall j :: 0 <= j < i ==> Key(ws[j]) != Key(ws[i])
  }

  /** Every merged word is the first word of its key in the input, ... */
  lemma {:induction false} DedupFromFirst(ws: seq<Word>, w: Word) returns (i: nat)
    requires w in Dedup(ws)
    ensures FirstOfKey(ws, i) && ws[i] == w
  {
    var n := |ws| - 1;
    var init := ws[..n];
    if w in Dedup(init) {
      i := DedupFromFirst(init, w);
      assert forall j :: 0 <= j < i ==> ws[j] == init[j];
    } else {
      DedupCoversKeys(init);
      assert w == ws[n] && Key(w) !in Keys(init);
      forall j | 0 <= j < n ensures Key(ws[j]) != Key(w) {
        assert ws[j] == init[j] && init[j] in init;
      }
      i := n;
    }
  }

  /** ... and every first word of a key is merged. */
  lemma {:induction false} DedupHasFirst(ws: seq<Word>, i: nat)
    requires FirstOfKey(ws, i)
    ensures ws[i] in Dedup(ws)
  {
    var n := |ws| - 1;
    var init := ws[..n];
    if i < n {
      assert forall j :: 0 <= j < i ==> ws[j] == init[j];
      DedupHasFirst(init, i);
    } else {
      DedupCoversKeys(init);
      forall v | v in init ensures Key(v) != Key(ws[n]) {
        var j :| 0 <= j < n && init[j] == v;
        assert ws[j] == v;
      }
      assert Key(ws[n]) !in Keys(Dedup(init));
    }
  }
}
