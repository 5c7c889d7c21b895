/**
 * The file importers of `utils/fileParser.ts`: plain-text, CSV and JSON word
 * lists, and the choice between them by file extension.  `File.text()` is
 * the `text` parameter, `JSON.parse` the `data` parameter, and `Date.now()`
 * the `now` parameter.
 */
module FileParser {
  import opened Wrappers
  import opened Text
  import opened Types
  import opened Seqs

  // ---------------------------------------------------------------------
  // Lines and ids
  // ---------------------------------------------------------------------

  /**
   * `parts.filter(line => line.trim())`: the pieces that are not blank,
   * untrimmed, in order (`trim` leaves nothing exactly of white space,
   * `TrimEmptyIffAllSpace`).
   */
  function NonBlankLines(parts: seq<string>): seq<string>
  {
    if parts == [] then []
    else
      var ls := NonBlankLines(parts[..|parts| - 1]);
      var p := parts[|parts| - 1];
      if !AllSpace(p) then ls + [p] else ls
  }

  /** `text.split('\n').filter(line => line.trim())` */
  function FileLines(text: string): seq<string> {
    NonBlankLines(Split(text, {'\n'}))
  }

  /** The filter keeps exactly the non-blank pieces, in their order. */
  lemma {:induction false} NonBlankLinesKeep(parts: seq<string>)
    ensures Subseq(NonBlankLines(parts), parts)
    ensures forall k :: 0 <= k < |NonBlankLines(parts)| ==> !AllSpace(NonBlankLines(parts)[k])
    ensures forall p :: p in parts && !AllSpace(p) ==> p in NonBlankLines(parts)
  {
    if parts == [] {
    } else {
      var init := parts[..|parts| - 1];
      var p := parts[|parts| - 1];
      var ls := NonBlankLines(init);
      NonBlankLinesKeep(init);
      assert parts == init + [p];
      if !AllSpace(p) {
        SubseqKeep(ls, init, p);
      } else {
        SubseqDrop(ls, init, p);
      }
    }
  }

  /** Every piece is blank. */
  predicate AllBlank(parts: seq<string>) {
    forall k :: 0 <= k < |parts| ==> AllSpace(parts[k])
  }

  /** No line is left exactly when every piece is blank. */
  lemma {:induction false} NonBlankLinesEmpty(parts: seq<string>)
    ensures NonBlankLines(parts) == [] <==> AllBlank(parts)
  {
    if parts != [] {
      var init, p := parts[..|parts| - 1], parts[|parts| - 1];
      NonBlankLinesEmpty(init);
      assert forall k :: 0 <= k < |init| ==> init[k] == parts[k];
    }
  }

  /** `${prefix}${index}-${now}` */
  function FileId(prefix: string, index: nat, now: nat): string {
    prefix + NatToString(index) + "-" + NatToString(now)
  }

  /** Different indexes give different ids, whatever the clock says. */
  lemma FileIdsDistinct(prefix: string, i: nat, j: nat, now: nat)
    requires i != j
    ensures FileId(prefix, i, now) != FileId(prefix, j, now)
  {
    var tail := "-" + NatToString(now);
    StampedDistinct(prefix, i, j, tail);
    assert FileId(prefix, i, now) == prefix + NatToString(i) + tail;
    assert FileId(prefix, j, now) == prefix + NatToString(j) + tail;
  }

  /** The word an optional result contributes to a list. */
  function Part(w: Option<Word>): seq<Word> {
    if w.Some? then [w.value] else []
  }

  /** Parts whose words carry `FileId(prefix, start + k, now)` have unique ids once flattened. */
  lemma StampedUnique(rs: seq<seq<Word>>, prefix: string, start: nat, now: nat)
    requires forall k :: 0 <= k < |rs| ==>
               |rs[k]| <= 1 && forall w: Word :: w in rs[k] ==> w.id == FileId(prefix, start + k, now)
    ensures UniqueIds(Flatten(rs))
  {
    var ids := seq(|rs|, k requires 0 <= k < |rs| => FileId(prefix, start + k, now));
    forall i, j | 0 <= i < j < |ids| ensures ids[i] != ids[j] {
      FileIdsDistinct(prefix, start + i, start + j, now);
    }
    FlattenUniqueIds(rs, ids);
  }

  // ---------------------------------------------------------------------
  // Brackets: /\[(.*?)\]/
  // ---------------------------------------------------------------------

  /**
   * Where `.*?\]` ends when it starts at `j`: at the first `]`, unless a line
   * terminator, which `.` does not match, comes first.
   */
  function CloseFrom(s: string, j: nat): (r: Option<nat>)
    ensures r.Some? ==> j <= r.value < |s|
    decreases |s| - j
  {
    if j >= |s| then None
    else if s[j] == ']' then Some(j)
    else if IsLineTerminator(s[j]) then None
    else CloseFrom(s, j + 1)
  }

  /** The first match of `/\[(.*?)\]/` at or after `i`: the leftmost `[` that has a closing `]`, and that `]`. */
  function BracketFrom(s: string, i: nat): (r: Option<(nat, nat)>)
    ensures r.Some? ==> i <= r.value.0 < r.value.1 < |s|
    decreases |s| - i
  {
    if i >= |s| then None
    else if s[i] == '[' && CloseFrom(s, i + 1).Some? then Some((i, CloseFrom(s, i + 1).value))
    else BracketFrom(s, i + 1)
  }

  /**
   * `CloseFrom` finds the shortest match: the first `]` with no line
   * terminator before it, or nothing when every `]` has one before it.
   */
  lemma {:induction false} CloseFromSpec(s: string, j: nat)
    ensures var r := CloseFrom(s, j);
            (r.Some? ==> j <= r.value < |s| && s[r.value] == ']'
                         && forall m :: j <= m < r.value ==> s[m] != ']' && !IsLineTerminator(s[m]))
            && (r.None? ==> forall k :: j <= k < |s| && s[k] == ']' ==> exists m :: j <= m < k && IsLineTerminator(s[m]))
    decreases |s| - j
  {
    if j < |s| && s[j] != ']' {
      if IsLineTerminator(s[j]) {
        forall k | j <= k < |s| && s[k] == ']' ensures exists m :: j <= m < k && IsLineTerminator(s[m]) {
          assert IsLineTerminator(s[j]);
        }
      } else {
        CloseFromSpec(s, j + 1);
      }
    }
  }

  /** `BracketFrom` finds the leftmost match: no `[` before the one it finds has a closing `]`. */
  lemma {:induction false} BracketFromSpec(s: string, i: nat)
    ensures var r := BracketFrom(s, i);
            (r.Some? ==> i <= r.value.0 < r.value.1 < |s| && s[r.value.0] == '['
                         && CloseFrom(s, r.value.0 + 1) == Some(r.value.1)
                         && forall k :: i <= k < r.value.0 && s[k] == '[' ==> CloseFrom(s, k + 1).None?)
            && (r.None? ==> forall k :: i <= k < |s| && s[k] == '[' ==> CloseFrom(s, k + 1).None?)
    decreases |s| - i
  {
    if i < |s| {
      if s[i] == '[' && CloseFrom(s, i + 1).Some? {
        CloseFromSpec(s, i + 1);
      } else {
        BracketFromSpec(s, i + 1);
      }
    }
  }

  /** `s.replace(/\[.*?\]/, '')`: the first bracketed part removed. */
  function RemoveBracket(s: string): string {
    match BracketFrom(s, 0)
    case None => s
    case Some((i, j)) => s[..i] + s[j + 1..]
  }

  /** `s.match(/\[(.*?)\]/)?.[1]`: what the first bracketed part holds. */
  function BracketContent(s: string): Option<string> {
    match BracketFrom(s, 0)
    case None => None
    case Some((i, j)) => Some(s[i + 1..j])
  }

  /** A bracket closing `b` after `a`, which opens none, is the first one, whatever `c` holds. */
  lemma BracketOf(a: string, b: string, c: string)
    requires NoneIn(a, {'['}) && NoneIn(b, {']'}) && NoLineTerminator(b)
    ensures var s := a + "[" + b + "]" + c;
            RemoveBracket(s) == a + c && BracketContent(s) == Some(b)
  {
    var s := a + "[" + b + "]" + c;
    var A := |a|;
    var J := A + 1 + |b|;
    Slices6(s, a, "[", b, "]", c, []);
    assert s[A] == '[' && s[J] == ']';
    CloseOver(s, A + 1, J);
    assert forall k :: 0 <= k < A ==> s[k] == a[k];
    assert BracketFrom(s, 0) == Some((A, J)) by {
      FirstOpen(s, 0, A, J);
    }
    assert s[J + 1..] == c;
  }

  /** The same with nothing after the bracket. */
  lemma BracketAtEnd(a: string, b: string)
    requires NoneIn(a, {'['}) && NoneIn(b, {']'}) && NoLineTerminator(b)
    ensures RemoveBracket(a + "[" + b + "]") == a && BracketContent(a + "[" + b + "]") == Some(b)
  {
    BracketOf(a, b, []);
    EmptyRight(a + "[" + b + "]");
    EmptyRight(a);
  }

  /** `.*?\]` from `j` ends at `J` when only non-terminators other than `]` lie between. */
  lemma {:induction false} CloseOver(s: string, j: nat, J: nat)
    requires j <= J < |s| && s[J] == ']'
    requires forall m :: j <= m < J ==> s[m] != ']' && !IsLineTerminator(s[m])
    ensures CloseFrom(s, j) == Some(J)
    decreases J - j
  {
    if j < J {
      CloseOver(s, j + 1, J);
    }
  }

  /** The search from `i` finds the `[` at `A` when no `[` comes before it. */
  lemma {:induction false} FirstOpen(s: string, i: nat, A: nat, J: nat)
    requires i <= A < |s| && s[A] == '[' && CloseFrom(s, A + 1) == Some(J)
    requires forall k :: i <= k < A ==> s[k] != '['
    ensures BracketFrom(s, i) == Some((A, J))
    decreases A - i
  {
    if i < A {
      FirstOpen(s, i + 1, A, J);
    }
  }

  /** Text without a `[` has no bracketed part. */
  lemma NoBracket(s: string)
    requires NoneIn(s, {'['})
    ensures RemoveBracket(s) == s && BracketContent(s).None?
  {
    NoOpenFrom(s, 0);
  }

  lemma {:induction false} NoOpenFrom(s: string, i: nat)
    requires NoneIn(s, {'['})
    ensures BracketFrom(s, i).None?
    decreases |s| - i
  {
    if i < |s| {
      NoOpenFrom(s, i + 1);
    }
  }

  // ---------------------------------------------------------------------
  // parseTextFile
  // ---------------------------------------------------------------------

  /** `/[-–—]/`: hyphen, en dash and em dash. */
  const Dashes: set<char> := {'-', '–', '—'}

  /**
   * The word of line `index`: the text before the first dash, if not blank,
   * gives the english (without its first bracketed part), the text between
   * the first and the second dash the chinese, and the first bracketed part
   * of the whole line the pronunciation.
   */
  function TextWord(line: string, index: nat, now: nat): (r: Option<Word>)
    ensures r.Some? ==> r.value.id == FileId("file-", index, now)
  {
    var parts := Split(line, Dashes);
    var english := Trim(parts[0]);
    if english == [] then None
    else
      Some(Word(FileId("file-", index, now), Trim(RemoveBracket(english)),
                if |parts| > 1 then Some(Trim(RemoveBracket(parts[1]))) else None,
                BracketContent(line), Some("beginner"), None, None, None, None))
  }

  /** What each line of a text file contributes. */
  function TextParts(lines: seq<string>, now: nat): (rs: seq<seq<Word>>)
    ensures |rs| == |lines|
    ensures forall k :: 0 <= k < |lines| ==> rs[k] == Part(TextWord(lines[k], k, now))
  {
    seq(|lines|, k requires 0 <= k < |lines| => Part(TextWord(lines[k], k, now)))
  }

  /** `parseTextFile(file)` */
  method ParseTextFile(text: string, now: nat) returns (words: seq<Word>)
    ensures words == Flatten(TextParts(FileLines(text), now))
  {
    var lines := FileLines(text);
    ghost var rs := TextParts(lines, now);
    words := [];
    for index := 0 to |lines|
      invariant words == Flatten(rs[..index])
    {
      ghost var before := words;
      var parts := Split(lines[index], Dashes);
      var english := Trim(parts[0]);
      if english != [] {
        var word := Word(FileId("file-", index, now), Trim(RemoveBracket(english)),
                         None, None, Some("beginner"), None, None, None, None);
        var pronunciation := BracketContent(lines[index]);
        if pronunciation.Some? {
          word := word.(pronunciation := pronunciation);
        }
        if |parts| > 1 {
          word := word.(chinese := Some(Trim(RemoveBracket(parts[1]))));
        }
        words := words + [word];
      }
      assert words == before + rs[index];
      TakeSnoc(rs, index);
      FlattenSnoc(rs[..index], rs[index]);
    }
    assert rs[..|lines|] == rs;
  }

  /** Splitting at the one dash of `a + [d] + b` gives `a` and `b`. */
  lemma SplitOnce(a: string, d: char, b: string)
    requires d in Dashes && NoneIn(a, Dashes) && NoneIn(b, Dashes)
    ensures Split(a + [d] + b, Dashes) == [a, b]
  {
    var s := a + [d] + b;
    FirstInOver(s, Dashes, a, [d] + b);
    assert s[..|a|] == a && s[|a| + 1..] == b;
    assert FirstIn(b, Dashes) == |b|;
  }

  /** Text without a dash is one piece. */
  lemma SplitNone(s: string)
    requires NoneIn(s, Dashes)
    ensures Split(s, Dashes) == [s]
  {
    assert FirstIn(s, Dashes) == |s|;
  }

  /** `english - chinese [pronunciation]` gives back its three parts. */
  lemma TextWordFull(e: string, c: string, p: string, index: nat, now: nat)
    requires Tight(e) && NoneIn(e, Dashes) && NoneIn(e, {'['})
    requires Trim(c) == c && NoneIn(c, Dashes) && NoneIn(c, {'['})
    requires NoneIn(p, Dashes) && NoneIn(p, {']'}) && NoLineTerminator(p)
    ensures TextWord(e + " - " + c + " [" + p + "]", index, now)
            == Some(Word(FileId("file-", index, now), e, Some(c), Some(p), Some("beginner"), None, None, None, None))
  {
    var line := e + " - " + c + " [" + p + "]";
    FullSplit(e, c, p);
    FullHead(e);
    FullChinese(c, p);
    FullPronunciation(e, c, p);
  }

  lemma FullSplit(e: string, c: string, p: string)
    requires NoneIn(e, Dashes) && NoneIn(c, Dashes) && NoneIn(p, Dashes)
    ensures Split(e + " - " + c + " [" + p + "]", Dashes) == [e + " ", " " + c + " [" + p + "]"]
  {
    var x := c + " [" + p + "]";
    NoneInConcat(e, " ", Dashes);
    NoneInConcat(c, " [", Dashes);
    NoneInConcat(c + " [", p, Dashes);
    NoneInConcat(c + " [" + p, "]", Dashes);
    NoneInConcat(" ", x, Dashes);
    Nest5(e + " - ", c, " [", p, "]");
    Nest5(" ", c, " [", p, "]");
    Around(e, ' ', '-', ' ', x);
    SplitOnce(e + " ", '-', " " + x);
  }

  lemma FullHead(e: string)
    requires Tight(e) && NoneIn(e, {'['})
    ensures Trim(e + " ") == e && Trim(RemoveBracket(Trim(e + " "))) == e
  {
    TrimOfPadded([], e, " ");
    assert [] + e + " " == e + " ";
    NoBracket(e);
    TrimOfTrimmed(e);
  }

  lemma FullChinese(c: string, p: string)
    requires NoneIn(c, {'['}) && NoneIn(p, {']'}) && NoLineTerminator(p)
    ensures Trim(RemoveBracket(" " + c + " [" + p + "]")) == Trim(c)
  {
    var a := " " + c + " ";
    NoneInConcat(" ", c, {'['});
    NoneInConcat(" " + c, " ", {'['});
    Unpair(" " + c, ' ', '[', p, "]");
    BracketAtEnd(a, p);
    TrimPadded(" ", c, " ");
  }

  lemma FullPronunciation(e: string, c: string, p: string)
    requires NoneIn(e, {'['}) && NoneIn(c, {'['}) && NoneIn(p, {']'}) && NoLineTerminator(p)
    ensures BracketContent(e + " - " + c + " [" + p + "]") == Some(p)
  {
    var b := e + " - " + c + " ";
    NoneInConcat(e, " - ", {'['});
    NoneInConcat(e + " - ", c, {'['});
    NoneInConcat(e + " - " + c, " ", {'['});
    Unpair(e + " - " + c, ' ', '[', p, "]");
    BracketAtEnd(b, p);
  }

  /** A line without dash or bracket is a word with neither chinese nor pronunciation. */
  lemma TextWordPlain(line: string, index: nat, now: nat)
    requires Trim(line) != [] && NoneIn(line, Dashes) && NoneIn(line, {'['})
    ensures TextWord(line, index, now)
            == Some(Word(FileId("file-", index, now), Trim(line), None, None, Some("beginner"), None, None, None, None))
  {
    SplitNone(line);
    TrimIdempotent(line);
    TrimNoneIn(line, {'['});
    NoBracket(Trim(line));
    NoBracket(line);
  }

  /** `[x] - y`: the english is empty once its bracket is removed, yet the line still gives a word. */
  lemma TextWordBracketOnly(index: nat, now: nat)
    ensures TextWord("[x] - y", index, now)
            == Some(Word(FileId("file-", index, now), "", Some("y"), Some("x"), Some("beginner"), None, None, None, None))
  {
    BracketOnlySplit();
    BracketOnlyHead();
    BracketOnlyTail();
    BracketOnlyContent();
  }

  lemma BracketOnlySplit()
    ensures Split("[x] - y", Dashes) == ["[x] ", " y"]
  {
    assert "[x] - y" == "[x] " + ['-'] + " y";
    SplitOnce("[x] ", '-', " y");
  }

  lemma BracketOnlyHead()
    ensures Trim("[x] ") == "[x]" && Trim(RemoveBracket("[x]")) == ""
  {
    TrimOfPadded([], "[x]", " ");
    assert [] + "[x]" + " " == "[x] ";
    BracketOnlyRemoved();
  }

  lemma BracketOnlyRemoved()
    ensures RemoveBracket("[x]") == ""
  {
    BracketOf([], "x", []);
    assert [] + "[" + "x" + "]" + [] == "[x]";
  }

  lemma BracketOnlyTail()
    ensures Trim(RemoveBracket(" y")) == "y"
  {
    NoBracket(" y");
    TrimOfPadded(" ", "y", []);
    assert " " + "y" + [] == " y";
  }

  lemma BracketOnlyContent()
    ensures BracketContent("[x] - y") == Some("x")
  {
    BracketOf([], "x", " - y");
    assert [] + "[" + "x" + "]" + " - y" == "[x] - y";
  }

  /** Every word of a text file comes from line `k` and has the id `file-k-now`. */
  lemma TextWordsOrigin(lines: seq<string>, now: nat, w: Word) returns (k: nat)
    requires w in Flatten(TextParts(lines, now))
    ensures k < |lines| && TextWord(lines[k], k, now) == Some(w)
    ensures Trim(Split(lines[k], Dashes)[0]) != [] && w.id == FileId("file-", k, now)
  {
    k := FlattenMember(TextParts(lines, now), w);
  }

  /** The ids of a text file's words are pairwise distinct. */
  lemma TextWordsUnique(lines: seq<string>, now: nat)
    ensures UniqueIds(Flatten(TextParts(lines, now)))
  {
    StampedUnique(TextParts(lines, now), "file-", 0, now);
  }

  // ---------------------------------------------------------------------
  // parseCsvFile
  // ---------------------------------------------------------------------

  /** `p.replace(/^"|"$/g, '')`: one leading and one trailing `"` removed. */
  function Unquote(p: string): (r: string)
  {
    var a := if p != [] && p[0] == '"' then 1 else 0;
    var b := if |p| > a && p[|p| - 1] == '"' then 1 else 0;
    p[a..|p| - b]
  }

  /** Quoting and unquoting gives the text back. */
  lemma UnquoteQuoted(s: string)
    ensures Unquote("\"" + s + "\"") == s
  {
  }

  /** Text that neither starts nor ends with `"` is left alone. */
  lemma UnquotePlain(s: string)
    requires s == [] || (s[0] != '"' && s[|s| - 1] != '"')
    ensures Unquote(s) == s
  {
  }

  function Quote(s: string): string {
    "\"" + s + "\""
  }

  /** The cells of a CSV row: split at commas, trimmed and unquoted. */
  function CsvFields(line: string): (fs: seq<string>)
    ensures |fs| >= 1
  {
    Clean(Split(line, {','}))
  }

  /** `parts.map(part => part.trim().replace(/^"|"$/g, ''))` */
  function Clean(parts: seq<string>): (fs: seq<string>)
    ensures |fs| == |parts|
  {
    if parts == [] then [] else [Unquote(Trim(parts[0]))] + Clean(parts[1..])
  }

  lemma {:induction false} CleanAt(parts: seq<string>, k: nat)
    requires k < |parts|
    ensures Clean(parts)[k] == Unquote(Trim(parts[k]))
  {
    if k > 0 {
      CleanAt(parts[1..], k - 1);
    }
  }

  /** A row of quoted cells without commas reads back as those cells. */
  lemma CsvFieldsQuoted(cells: seq<string>)
    requires cells != []
    requires forall k :: 0 <= k < |cells| ==> NoneIn(cells[k], {','})
    ensures CsvFields(Join(seq(|cells|, k requires 0 <= k < |cells| => Quote(cells[k])), ',')) == cells
  {
    var quoted := seq(|cells|, k requires 0 <= k < |cells| => Quote(cells[k]));
    forall k | 0 <= k < |quoted| ensures NoneIn(quoted[k], {','}) {
      assert quoted[k] == "\"" + cells[k] + "\"";
    }
    JoinSplit(quoted, ',');
    var fs := CsvFields(Join(quoted, ','));
    forall k | 0 <= k < |cells| ensures fs[k] == cells[k] {
      CleanAt(quoted, k);
      QuotedCellBack(cells[k]);
    }
  }

  /** A quoted cell survives the trim and loses its quotes. */
  lemma QuotedCellBack(cell: string)
    ensures Unquote(Trim(Quote(cell))) == cell
  {
    assert Quote(cell) == "\"" + cell + "\"";
    TrimOfTrimmed(Quote(cell));
    UnquoteQuoted(cell);
  }

  /** `parts[k]`, `undefined` past the end. */
  function Cell(fs: seq<string>, k: nat): Option<string> {
    if k < |fs| then Some(fs[k]) else None
  }

  /** The word of row `i`, whose cells are `fs`: english, chinese, pronunciation, level and category. */
  function RowWord(fs: seq<string>, i: nat, now: nat): (w: Word)
    requires fs != []
  {
    var level := Cell(fs, 3);
    Word(FileId("csv-", i, now), fs[0], Cell(fs, 1), Cell(fs, 2),
         Some(if level.Some? && level.value != [] then level.value else "beginner"),
         Cell(fs, 4), None, None, None)
  }

  /** The word of row `i`, if its first cell is not empty. */
  function CsvWord(line: string, i: nat, now: nat): (r: Option<Word>)
    ensures r.Some? ==> r.value.english != [] && r.value.id == FileId("csv-", i, now)
  {
    var fs := CsvFields(line);
    if fs[0] == [] then None else Some(RowWord(fs, i, now))
  }

  /** Row 0 is a header exactly when it mentions `english` in any case. */
  function CsvStart(lines: seq<string>): nat
    requires lines != []
  {
    if Contains(ToLower(lines[0]), "english") then 1 else 0
  }

  /** What rows `start` onwards contribute. */
  function CsvParts(lines: seq<string>, start: nat, now: nat): (rs: seq<seq<Word>>)
    requires start <= |lines|
    ensures |rs| == |lines| - start
  {
    seq(|lines| - start, k requires 0 <= k < |lines| - start => Part(CsvWord(lines[start + k], start + k, now)))
  }

  lemma CsvPartWord(lines: seq<string>, start: nat, now: nat, k: nat)
    requires start + k < |lines|
    ensures CsvParts(lines, start, now)[k] == Part(CsvWord(lines[start + k], start + k, now))
  {
  }

  /** Why a file gives no word list. */
  datatype FileError =
    | UnsupportedFileType(extension: string)
      // `lines[0].toLowerCase()` on a file with no non-blank line
    | NoLines
  {
    function Message(): string {
      match this
      case UnsupportedFileType(e) => "Unsupported file type: " + e
      case NoLines => "Cannot read properties of undefined (reading 'toLowerCase')"
    }
  }

  /** What `parseCsvFile` resolves to, or why it rejects. */
  function CsvResult(text: string, now: nat): Result<seq<Word>, FileError> {
    var lines := FileLines(text);
    if lines == [] then Err(NoLines)
    else Ok(Flatten(CsvParts(lines, CsvStart(lines), now)))
  }

  /** `parseCsvFile(file)` */
  method ParseCsvFile(text: string, now: nat) returns (r: Result<seq<Word>, FileError>)
    ensures r == CsvResult(text, now)
  {
    var lines := FileLines(text);
    if |lines| == 0 {
      return Err(NoLines);
    }
    var startIndex := CsvStart(lines);
    var words := CsvRows(lines, startIndex, now);
    return Ok(words);
  }

  /** The `for` loop of `parseCsvFile` over rows `start` onwards. */
  method CsvRows(lines: seq<string>, start: nat, now: nat) returns (words: seq<Word>)
    requires start <= |lines|
    ensures words == Flatten(CsvParts(lines, start, now))
  {
    words := [];
    var i := start;
    while i < |lines|
      invariant start <= i <= |lines|
      invariant words == Flatten(CsvParts(lines, start, now)[..i - start])
    {
      var parts := CsvFields(lines[i]);
      CsvRowStep(lines, start, now, i);
      if parts[0] != [] {
        words := words + [RowWord(parts, i, now)];
      }
      i := i + 1;
    }
    assert CsvParts(lines, start, now)[..|lines| - start] == CsvParts(lines, start, now);
  }

  /** One turn of the loop adds row `i`'s word, if it has one. */
  lemma CsvRowStep(lines: seq<string>, start: nat, now: nat, i: nat)
    requires start <= i < |lines|
    ensures var rs := CsvParts(lines, start, now); var fs := CsvFields(lines[i]);
            Flatten(rs[..i + 1 - start]) == Flatten(rs[..i - start]) + (if fs[0] != [] then [RowWord(fs, i, now)] else [])
  {
    var rs := CsvParts(lines, start, now);
    var k := i - start;
    CsvPartWord(lines, start, now, k);
    TakeSnoc(rs, k);
    FlattenSnoc(rs[..k], rs[k]);
  }

  /** A file whose every line is blank is rejected, and any other is accepted. */
  lemma CsvRejectsBlank(text: string, now: nat)
    ensures CsvResult(text, now).Err? <==> AllBlank(Split(text, {'\n'}))
  {
    NonBlankLinesEmpty(Split(text, {'\n'}));
  }

  /**
   * Every CSV word comes from a row `k` at or after `CsvStart`, so never from
   * a header, and has a non-empty english and the id `csv-k-now`.
   */
  lemma CsvWordsOrigin(lines: seq<string>, now: nat, w: Word) returns (k: nat)
    requires lines != [] && w in Flatten(CsvParts(lines, CsvStart(lines), now))
    ensures CsvStart(lines) <= k < |lines| && CsvWord(lines[k], k, now) == Some(w)
    ensures w.english != [] && w.id == FileId("csv-", k, now)
  {
    k := CsvPartsOrigin(lines, CsvStart(lines), now, w);
  }

  /** The row behind a word contributed by rows `start` onwards. */
  lemma CsvPartsOrigin(lines: seq<string>, start: nat, now: nat, w: Word) returns (k: nat)
    requires start <= |lines| && w in Flatten(CsvParts(lines, start, now))
    ensures start <= k < |lines| && CsvWord(lines[k], k, now) == Some(w)
  {
    var rs := CsvParts(lines, start, now);
    var j := FlattenMember(rs, w);
    k := start + j;
    CsvPartWord(lines, start, now, j);
    var found := CsvWord(lines[k], k, now);
    assert w in Part(found);
  }

  /** Without a header, a first row with an english is the first word. */
  lemma CsvFirstRow(lines: seq<string>, now: nat)
    requires lines != [] && !Contains(ToLower(lines[0]), "english") && CsvWord(lines[0], 0, now).Some?
    ensures var ws := Flatten(CsvParts(lines, CsvStart(lines), now));
            ws != [] && ws[0] == CsvWord(lines[0], 0, now).value
  {
    CsvPartWord(lines, 0, now, 0);
    FlattenHead(CsvParts(lines, 0, now));
  }

  /** The ids of a CSV file's words are pairwise distinct. */
  lemma CsvWordsUnique(lines: seq<string>, now: nat)
    requires lines != []
    ensures UniqueIds(Flatten(CsvParts(lines, CsvStart(lines), now)))
  {
    var start := CsvStart(lines);
    var rs := CsvParts(lines, start, now);
    forall k | 0 <= k < |rs|
      ensures |rs[k]| <= 1 && forall w: Word :: w in rs[k] ==> w.id == FileId("csv-", start + k, now)
    {
      CsvPartWord(lines, start, now, k);
    }
    StampedUnique(rs, "csv-", start, now);
  }

  // ---------------------------------------------------------------------
  // parseJsonFile
  // ---------------------------------------------------------------------

  /** A parsed JSON value. */
  datatype Json =
    | JNull
    | JBool(b: bool)
    | JNumber(n: real)
    | JString(s: string)
    | JArray(items: seq<Json>)
    | JObject(fields: map<string, Json>)

  /** `item.key || undefined` for a property holding text: a non-empty string, or nothing. */
  function TextProp(fields: map<string, Json>, key: string): (r: Option<string>)
    ensures r.Some? <==> key in fields && fields[key].JString? && fields[key].s != []
    ensures r.Some? ==> r.value == fields[key].s
  {
    if key in fields && fields[key].JString? && fields[key].s != [] then Some(fields[key].s) else None
  }

  /** What one array element does: becomes a word, is skipped, or throws (`null.english`). */
  datatype ItemOutcome = Take(w: Word) | Skip | Throws

  function JsonItem(item: Json, index: nat, now: nat): ItemOutcome {
    match item
    case JString(s) => Take(Word(FileId("json-", index, now), s, None, None, Some("beginner"), None, None, None, None))
    case JNull => Throws
    case JObject(fields) =>
      var english := TextProp(fields, "english");
      if english.None? then Skip
      else
        Take(Word(TextProp(fields, "id").GetOr(FileId("json-", index, now)), english.value,
                  TextProp(fields, "chinese"), TextProp(fields, "pronunciation"),
                  Some(TextProp(fields, "level").GetOr("beginner")), TextProp(fields, "category"),
                  None, None, None))
    case _ => Skip
  }

  /** The words of an array, or `None` when reading an element throws. */
  function ArrayWords(items: seq<Json>, now: nat): Option<seq<Word>>
  {
    if items == [] then Some([])
    else
      match ArrayWords(items[..|items| - 1], now)
      case None => None
      case Some(ws) =>
        match JsonItem(items[|items| - 1], |items| - 1, now)
        case Throws => None
        case Skip => Some(ws)
        case Take(w) => Some(ws + [w])
  }

  /**
   * What `parseJsonFile` returns for the parsed value `data`, `None` when
   * `JSON.parse` throws.  A `{words: [...]}` object is read as its array,
   * which is what re-parsing `JSON.stringify(data.words)` gives back.
   */
  function JsonWords(data: Option<Json>, now: nat): seq<Word> {
    match data
    case Some(JArray(items)) => ArrayWords(items, now).GetOr([])
    case Some(JObject(fields)) =>
      if "words" in fields && fields["words"].JArray? then ArrayWords(fields["words"].items, now).GetOr([])
      else []
    case _ => []
  }

  /** The `forEach` over the elements of an array; `None` stands for the exception it throws. */
  method ParseJsonArray(items: seq<Json>, now: nat) returns (words: Option<seq<Word>>)
    ensures words == ArrayWords(items, now)
  {
    var ws := [];
    for index := 0 to |items|
      invariant ArrayWords(items[..index], now) == Some(ws)
    {
      assert items[..index + 1][..index] == items[..index];
      match JsonItem(items[index], index, now)
      case Throws =>
        NullPoisons(items, index, now);
        return None;
      case Skip =>
      case Take(w) =>
        ws := ws + [w];
    }
    assert items[..|items|] == items;
    return Some(ws);
  }

  /** Once an element throws, the whole array throws. */
  lemma {:induction false} NullPoisons(items: seq<Json>, index: nat, now: nat)
    requires index < |items| && JsonItem(items[index], index, now).Throws?
    ensures ArrayWords(items, now).None?
    decreases |items|
  {
    var init := items[..|items| - 1];
    if index < |items| - 1 {
      assert init[index] == items[index];
      NullPoisons(init, index, now);
    }
  }

  /** `parseJsonFile(file)` */
  method ParseJsonFile(data: Option<Json>, now: nat) returns (words: seq<Word>)
    ensures words == JsonWords(data, now)
  {
    match data {
      case Some(JArray(items)) =>
        var ws := ParseJsonArray(items, now);
        words := ws.GetOr([]);
      case Some(JObject(fields)) =>
        if "words" in fields && fields["words"].JArray? {
          var ws := ParseJsonArray(fields["words"].items, now);
          words := ws.GetOr([]);
        } else {
          words := [];
        }
      case _ =>
        words := [];
    }
  }

  /** An array throws exactly when it holds a `null`. */
  lemma {:induction false} ArrayThrowsIffNull(items: seq<Json>, now: nat)
    ensures ArrayWords(items, now).None? <==> JNull in items
  {
    if items != [] {
      var init := items[..|items| - 1];
      ArrayThrowsIffNull(init, now);
      assert items == init + [items[|items| - 1]];
    }
  }

  /** An array of strings gives one word per string, numbered by position. */
  lemma {:induction false} StringArrayWords(items: seq<Json>, now: nat)
    requires forall k :: 0 <= k < |items| ==> items[k].JString?
    ensures var r := ArrayWords(items, now);
            r.Some? && |r.value| == |items|
            && forall k :: 0 <= k < |items| ==>
                 r.value[k] == Word(FileId("json-", k, now), items[k].s, None, None, Some("beginner"), None, None, None, None)
  {
    if items != [] {
      var init := items[..|items| - 1];
      StringArrayWords(init, now);
    }
  }

  /** Reading an element of an object skips it unless its `english` is non-empty text. */
  lemma ObjectItem(fields: map<string, Json>, index: nat, now: nat)
    ensures JsonItem(JObject(fields), index, now).Take? <==> TextProp(fields, "english").Some?
    ensures JsonItem(JObject(fields), index, now).Take? ==> JsonItem(JObject(fields), index, now).w.english == fields["english"].s
  {
  }

  // ---------------------------------------------------------------------
  // parseFile
  // ---------------------------------------------------------------------

  /** `name.split('.').pop()?.toLowerCase()`: the text after the last dot, in lower case. */
  function Extension(name: string): string {
    var parts := Split(name, {'.'});
    ToLower(parts[|parts| - 1])
  }

  /** The last piece of `a + [d] + b` split at `seps`, `d` among them, is `b` when `b` holds none. */
  lemma {:induction false} SplitLastPiece(a: string, d: char, b: string, seps: set<char>)
    requires d in seps && NoneIn(b, seps)
    ensures var parts := Split(a + [d] + b, seps); parts[|parts| - 1] == b
    decreases |a|
  {
    var s := a + [d] + b;
    var i := FirstIn(s, seps);
    assert s[|a|] == d;
    assert i <= |a|;
    if i == |a| {
      assert s[i + 1..] == b;
      assert FirstIn(b, seps) == |b|;
    } else {
      assert s[i + 1..] == a[i + 1..] + [d] + b;
      SplitLastPiece(a[i + 1..], d, b, seps);
    }
  }

  /** `base.ext` has the extension `ext` in lower case. */
  lemma ExtensionOf(base: string, ext: string)
    requires NoneIn(ext, {'.'})
    ensures Extension(base + "." + ext) == ToLower(ext)
  {
    SplitLastPiece(base, '.', ext, {'.'});
  }

  /** `parseFile(file)`: the importer chosen by the extension of `name`. */
  method ParseFile(name: string, text: string, data: Option<Json>, now: nat) returns (r: Result<seq<Word>, FileError>)
    ensures Extension(name) == "txt" ==> r == Ok(Flatten(TextParts(FileLines(text), now)))
    ensures Extension(name) == "json" ==> r == Ok(JsonWords(data, now))
    ensures Extension(name) == "csv" ==> r == CsvResult(text, now)
    ensures Extension(name) !in {"txt", "json", "csv"} ==> r == Err(UnsupportedFileType(Extension(name)))
  {
    var extension := Extension(name);
    if extension == "txt" {
      var words := ParseTextFile(text, now);
      r := Ok(words);
    } else if extension == "json" {
      var words := ParseJsonFile(data, now);
      r := Ok(words);
    } else if extension == "csv" {
      r := ParseCsvFile(text, now);
    } else {
      r := Err(UnsupportedFileType(extension));
    }
  }
}
