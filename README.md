# english-learning-app, modelled in Dafny

A model of the logic of the React vocabulary app `english-learning-app`.
For each piece, the model states and proves what the app promises. There are three groups.

- **Text-to-word parsers.**
  - `VocabularyParser` reads one line by a first-match-wins chain of four formats, then a simple fallback format. It also has a whole-text extractor, an HTML extractor, and a merge that drops repeated words. Its module is `Vocabulary`.
  - `PDFFileProcessor` has two parts: a format validator (`PdfParser`), and the line-driven builder of the Unit → Lesson → Word tree (`PdfTextbook`).
  - The importers of `fileParser.ts` read txt, csv and json files and pick one by file extension. Their module is `FileParser`.
  - Every regular expression these parsers use runs on a backtracking matcher with JavaScript's semantics (`Regex`). Lazy and greedy repetitions are tried in JavaScript's order, `.` stops at line terminators, and `\w`, `\s`, `\d` and `[一-龥]` are character classes. The pdf word-line pattern nests repetitions, so it is computed directly instead. A uniqueness lemma shows that every way the pattern can match gives the same groups.
- **Game state machines.**
  - `MatchGame.Game` and `SpellGame.Game` are classes whose fields are the components' React state.
  - Each `setTimeout` body reads the state of the render that scheduled it, not the current state. So a scheduled body is a `Pending` value that captures that state. The `Resolve` method runs one pending body, in any order the caller picks.
  - These stale-closure effects of the code are stated and proved, not smoothed over:
    - In memory mode, a matched second card stays face-down.
    - The spelling game's retry test uses the attempt count from before the check.
    - The spelling game's completion record is built by the render that handled the last answer. So it lacks that answer's point and its difficult-word entry.
- **Scoring and bookkeeping.**
  - From `database.ts`: the score formula and its evaluation bands, computed over exact reals (not IEEE doubles) with `Math.round` as floor(x + 0.5). Also the record, wordbook and history stores, modelled as in-memory lists (`Database.Store`).
  - From `textbookDatabase.ts`: the textbook table and its word getters (`TextbookDb.Catalog`).
  - From `wordDatabase.ts`: the random selection (`WordDb`).
  - The list filters and selection state of five components: manual input, history manager, wordbook, textbook selection and learning history.

Everything the app gets from the outside world is a parameter of the operation:

- The clock (`Date.now()`) is `now`.
- Every `Math.random()` shuffle is an index permutation.
- A file's text and the value `JSON.parse` gives are the importers' inputs.

`Seqs`, `Text`, `Regex`, `Wrappers` and `Types` are shared helpers:

- `Seqs`: sub-lists and flattening.
- `Text`: JavaScript's `trim`, `split`, `includes` and ASCII `toLowerCase`.
- `Regex`: the matcher.
- `Wrappers`: `Option` and `Result`.
- `Types`: the records of `types.ts`.

Two facts about the code are worth stating plainly.

- `calculateScore` has no cap on its time term. The comment at `database.ts:72` says the time term is worth 30 points, but nothing in the code enforces that. So eight of ten words right in 80 seconds scores 90, and a perfect round in no time scores 120.
- The chapter builder has no stoplist and adds no synthetic lesson. It does not fail on text without Unit headings: it returns a textbook with no units.

## Model

| member | source | states |
|---|---|---|
| Database.Round | english-learning-app/src/utils/database.ts:73 | `Math.round`: the integer within half of x, halves rounding up |
| Database.RoundMonotone | english-learning-app/src/utils/database.ts:73 | rounding never reverses the order of two numbers |
| Database.ScoreBounds | english-learning-app/src/utils/database.ts:69-74 | with no more correct answers than words the score lies in 0..120; the time term has no upper cap |
| Database.ScoreGrowsWithCorrect | english-learning-app/src/utils/database.ts:69-74 | more correct answers never lower the score |
| Database.ScoreFallsWithTime | english-learning-app/src/utils/database.ts:69-74 | more time spent never raises the score |
| Database.ScoreExamples | english-learning-app/src/utils/database.ts:69-74 | 8 of 10 in 80 s scores 90, 10 of 10 in 0 s scores 120, 0 of 10 in 500 s scores 0 |
| Database.BandOf | english-learning-app/src/utils/database.ts:2-7 | the band of a score is the highest one whose minimum the score reaches |
| Database.GetEvaluation | english-learning-app/src/utils/database.ts:77-87 | the evaluation is the description of the score's band |
| Database.DescriptionsDistinct | english-learning-app/src/utils/database.ts:2-7 | the four bands have four different descriptions |
| Database.EvaluationNamesBand | english-learning-app/src/utils/database.ts:77-87 | the evaluation is a band's description exactly when the score is in that band |
| Database.EvaluationBoundaries | english-learning-app/src/utils/database.ts:77-87 | the thresholds 90, 75 and 60 are inclusive |
| Database.AddExisting | english-learning-app/src/utils/database.ts:131-137 | adding an existing (user, word) pair changes only that entry's translation and difficulty; all other entries are untouched |
| Database.AddNew | english-learning-app/src/utils/database.ts:138-148 | a new pair is appended after the unchanged entries: unreviewed, unmastered, no review date, added now |
| Database.AddKeepsUnique | english-learning-app/src/utils/database.ts:126-155 | adding keeps the (user, word) pairs unique, and the pair is in the wordbook afterwards |
| Database.MasteryUpdatesFirst | english-learning-app/src/utils/database.ts:176-194 | only the first entry of the pair changes: new mastery, review date now, review count up by exactly one; with no such entry, nothing changes |
| Database.RemoveExact | english-learning-app/src/utils/database.ts:197-206 | removing leaves exactly the entries of other pairs, in order; removing again changes nothing |
| Database.DeleteExact | english-learning-app/src/utils/database.ts:245-255 | deleting leaves exactly the histories with another id, in order; deleting again changes nothing |
| Database.SliceEnd | english-learning-app/src/utils/database.ts:232 | where `slice(0, limit)` stops: at min(limit, n) for a non-negative limit, and counting back from the end for a negative one |
| Database.SourceCount | english-learning-app/src/utils/database.ts:266-269 | a source's count never exceeds the number of histories |
| Database.SourceCountsTotal | english-learning-app/src/utils/database.ts:266-269 | the seven source counts add up to the number of histories |
| Database.Store.constructor | english-learning-app/src/utils/database.ts:120-123 | empty storage reads as three empty lists |
| Database.Store.SaveLearningRecord | english-learning-app/src/utils/database.ts:90-105 | appends exactly the record, stamped with id and time `now`; returns that id; earlier records and the other stores are unchanged |
| Database.Store.GetLearningRecords | english-learning-app/src/utils/database.ts:108-118 | the user's records and no others, newest first |
| Database.Store.AddToWordbook | english-learning-app/src/utils/database.ts:126-155 | the wordbook becomes `AddEntry` of the old one (see AddExisting, AddNew); the other stores are unchanged |
| Database.Store.GetWordbookEntries | english-learning-app/src/utils/database.ts:158-168 | the user's entries and no others, most recently added first |
| Database.Store.UpdateWordMastery | english-learning-app/src/utils/database.ts:176-194 | the wordbook becomes `MarkMastery` of the old one (see MasteryUpdatesFirst); the other stores are unchanged |
| Database.Store.RemoveFromWordbook | english-learning-app/src/utils/database.ts:197-206 | the wordbook keeps the entries of other pairs (see RemoveExact); the other stores are unchanged |
| Database.Store.SaveHistory | english-learning-app/src/utils/database.ts:209-224 | appends exactly the history, stamped with id and time `now`; returns that id; the rest is unchanged |
| Database.Store.GetHistoryList | english-learning-app/src/utils/database.ts:227-237 | the first `limit` histories newest first: min(limit, n) of them for a non-negative limit, all drawn from the store, and all of them when the limit reaches n |
| Database.Store.DeleteHistory | english-learning-app/src/utils/database.ts:245-255 | always reports success and keeps exactly the histories with another id |
| Database.Store.GetStatistics | english-learning-app/src/utils/database.ts:258-269 | total records is the number of histories; total words is the sum of word counts; each source's count is its number of histories, and only sources that occur are present; the counts add up to total records |
| TextbookDb.LessonInLessons | english-learning-app/src/data/textbookDatabase.ts:330-332 | a lesson's words appear unchanged, as one run, inside the words of its lessons |
| TextbookDb.UnitInUnits | english-learning-app/src/data/textbookDatabase.ts:312-316 | a unit's words appear unchanged, as one run, inside the words of all units |
| TextbookDb.UnitsWordsMember | english-learning-app/src/data/textbookDatabase.ts:307-319 | a word is in a textbook's word list exactly when some lesson of some unit holds it |
| TextbookDb.LessonsWordsMember | english-learning-app/src/data/textbookDatabase.ts:329-334 | a word is in the lessons' words exactly when some lesson holds it |
| TextbookDb.PushLessons | english-learning-app/src/data/textbookDatabase.ts:330-332 | the push loop appends the lessons' words, lesson after lesson |
| TextbookDb.Catalog.constructor | english-learning-app/src/data/textbookDatabase.ts:285-289 | the table holds the given textbooks under their ids, in order |
| TextbookDb.Catalog.GetTextbookById | english-learning-app/src/data/textbookDatabase.ts:302-304 | a textbook comes back exactly when its id is stored, and it is the stored one |
| TextbookDb.Catalog.AddPDFTextbook | english-learning-app/src/data/textbookDatabase.ts:292-294 | stores the textbook under its id, replacing any previous one in its place, so lookup of that id gives it; other ids are unaffected |
| TextbookDb.Catalog.GetAvailableTextbooks | english-learning-app/src/data/textbookDatabase.ts:297-299 | every stored textbook exactly once, in key order |
| TextbookDb.Catalog.GetAllWordsFromTextbook | english-learning-app/src/data/textbookDatabase.ts:307-319 | `[]` for an unknown id; otherwise every lesson's words, units then lessons |
| TextbookDb.Catalog.GetWordsFromUnit | english-learning-app/src/data/textbookDatabase.ts:322-335 | the lookup and push loop give the words of `UnitWords` (see UnitLookup) |
| TextbookDb.Catalog.UnitLookup | english-learning-app/src/data/textbookDatabase.ts:322-335 | `[]` when the textbook or the unit is missing; otherwise the words of the first unit with that id, lesson after lesson |
| TextbookDb.Catalog.LessonLookup | english-learning-app/src/data/textbookDatabase.ts:338-349 | `[]` when the textbook, the unit or the lesson is missing; otherwise the words of the first lesson with that id inside the first unit with that id, so a lesson id reused in another unit is never found |
| TextbookDb.Catalog.LessonWithinUnitWithinBook | english-learning-app/src/data/textbookDatabase.ts:338-348 | the lesson lookup, scoped by its unit, gives one unchanged run of the unit's words, which is one run of the textbook's words |
| WordDb.SharesAddUp | english-learning-app/src/data/wordDatabase.ts:107-112 | the three mixed-mode shares add up to the requested count |
| WordDb.MixedPrefix | english-learning-app/src/data/wordDatabase.ts:110-115 | each level contributes min(its share, its pool size) words |
| WordDb.Selection | english-learning-app/src/data/wordDatabase.ts:105-120 | the words chosen before the final shuffle number `SelectionSize` |
| WordDb.GetRandomWords | english-learning-app/src/data/wordDatabase.ts:102-122 | the result is the selection reordered by the final shuffle: same size and same multiset |
| WordDb.TakeShuffled | english-learning-app/src/data/wordDatabase.ts:118-119 | a shuffled pool's first k words are min(k, pool size) words of that pool, distinct when the pool's are |
| WordDb.SingleLevelWords | english-learning-app/src/data/wordDatabase.ts:116-119 | one level gives min(count, pool size) words, all from that pool, each carrying that level in the shipped catalog's shape, none repeated when the pool's ids are distinct |
| WordDb.DistinctFromCounts | english-learning-app/src/data/wordDatabase.ts:122 | a list holding each word at most once has no two equal positions |
| WordDb.TwoPlaces | english-learning-app/src/data/wordDatabase.ts:122 | a word at two positions occurs twice in the multiset |
| WordDb.OnceInUnique | english-learning-app/src/data/wordDatabase.ts:113-114 | a list with distinct ids holds each word at most once |
| WordDb.MixedWords | english-learning-app/src/data/wordDatabase.ts:105-115 | mixed mode reorders the three contributions; level i gives floor(count/3), plus one for the first count mod 3 levels, capped by its pool |
| WordDb.FullPoolsMeetCount | english-learning-app/src/data/wordDatabase.ts:4-99 | with pools of at least 30 words, a mixed request of up to 90 words is met exactly |
| WordDb.PoolIdsDistinct | english-learning-app/src/data/wordDatabase.ts:4-99 | ids distinct across the catalog are distinct within each pool |
| WordDb.MixedDistinct | english-learning-app/src/data/wordDatabase.ts:105-122 | in the shipped catalog's shape a mixed result never repeats a word |
| FileParser.NonBlankLinesKeep | english-learning-app/src/utils/fileParser.ts:8 | the line filter keeps exactly the non-blank lines, untrimmed and in order |
| FileParser.NonBlankLinesEmpty | english-learning-app/src/utils/fileParser.ts:88 | no line is left exactly when all lines are blank |
| FileParser.FileIdsDistinct | english-learning-app/src/utils/fileParser.ts:22 | different line indexes give different ids at any clock value |
| FileParser.StampedUnique | english-learning-app/src/utils/fileParser.ts:99 | words numbered by their position have distinct ids |
| FileParser.CloseFrom | english-learning-app/src/utils/fileParser.ts:23 | the end of `.*?\]` lies within the text |
| FileParser.BracketFrom | english-learning-app/src/utils/fileParser.ts:28 | a found bracket pair lies within the text, the `[` before the `]` |
| FileParser.CloseFromSpec | english-learning-app/src/utils/fileParser.ts:23 | `.*?\]` ends at the first `]` with no line terminator before it, or has no match when every `]` has one before it |
| FileParser.BracketFromSpec | english-learning-app/src/utils/fileParser.ts:28 | the match of `\[(.*?)\]` is the leftmost `[` that has a closing `]` |
| FileParser.BracketOf | english-learning-app/src/utils/fileParser.ts:23 | in `a[b]c`, with no `[` in a, removing the bracket leaves `ac` and its content is b |
| FileParser.BracketAtEnd | english-learning-app/src/utils/fileParser.ts:28-31 | the same with nothing after the bracket |
| FileParser.NoBracket | english-learning-app/src/utils/fileParser.ts:28-31 | text without `[` is left alone and has no pronunciation |
| FileParser.TextWord | english-learning-app/src/utils/fileParser.ts:17-36 | the word of line k carries the id `file-k-now` |
| FileParser.TextParts | english-learning-app/src/utils/fileParser.ts:10-40 | one part per line, line k giving the word of line k if any |
| FileParser.ParseTextFile | english-learning-app/src/utils/fileParser.ts:3-43 | the loop collects each kept line's word, in line order |
| FileParser.TextWordFull | english-learning-app/src/utils/fileParser.ts:17-36 | `english - chinese [pron]` gives back its three parts, trimmed, at level `beginner` |
| FileParser.TextWordPlain | english-learning-app/src/utils/fileParser.ts:17-25 | a line without dash or bracket is a word with neither chinese nor pronunciation |
| FileParser.TextWordBracketOnly | english-learning-app/src/utils/fileParser.ts:18-23 | `[x] - y` still gives a word, whose english is empty once the bracket is removed |
| FileParser.TextWordsOrigin | english-learning-app/src/utils/fileParser.ts:17-22 | every text-file word comes from a line k whose text before the first dash is not blank, and carries the id `file-k-now` |
| FileParser.TextWordsUnique | english-learning-app/src/utils/fileParser.ts:22 | the ids of a text file's words are pairwise distinct |
| FileParser.UnquoteQuoted | english-learning-app/src/utils/fileParser.ts:95 | quoting then unquoting gives the text back |
| FileParser.UnquotePlain | english-learning-app/src/utils/fileParser.ts:95 | text that neither starts nor ends with `"` is left alone |
| FileParser.CsvFields | english-learning-app/src/utils/fileParser.ts:95 | a row always has at least one cell |
| FileParser.Clean | english-learning-app/src/utils/fileParser.ts:95 | cleaning keeps one cell per piece |
| FileParser.CsvFieldsQuoted | english-learning-app/src/utils/fileParser.ts:95 | a row of quoted cells without commas reads back as those cells |
| FileParser.QuotedCellBack | english-learning-app/src/utils/fileParser.ts:95 | a quoted cell survives the trim and loses its quotes |
| FileParser.CsvWord | english-learning-app/src/utils/fileParser.ts:97-105 | a row's word has a non-empty english and the id `csv-i-now` |
| FileParser.CsvParts | english-learning-app/src/utils/fileParser.ts:94-107 | one part per row from the start row onwards |
| FileParser.ParseCsvFile | english-learning-app/src/utils/fileParser.ts:86-110 | the result is `CsvResult`: rejection for a file with no non-blank line, else the rows' words |
| FileParser.CsvRows | english-learning-app/src/utils/fileParser.ts:94-107 | the loop collects each row's word from the start row on, in order |
| FileParser.CsvRejectsBlank | english-learning-app/src/utils/fileParser.ts:88-92 | a csv file is rejected exactly when every line is blank |
| FileParser.CsvWordsOrigin | english-learning-app/src/utils/fileParser.ts:92-106 | every csv word comes from a row at or after the header check, so never from a header, and has a non-empty english and the id `csv-k-now` |
| FileParser.CsvFirstRow | english-learning-app/src/utils/fileParser.ts:92 | without a header, a first row with an english is the first word |
| FileParser.CsvWordsUnique | english-learning-app/src/utils/fileParser.ts:99 | the ids of a csv file's words are pairwise distinct |
| FileParser.TextProp | english-learning-app/src/utils/fileParser.ts:62-67 | `item.key \|\| undefined` for text: present exactly when the property is a non-empty string, and then that string |
| FileParser.ParseJsonArray | english-learning-app/src/utils/fileParser.ts:51-71 | the `forEach` over the elements computes `ArrayWords` |
| FileParser.NullPoisons | english-learning-app/src/utils/fileParser.ts:60 | once an element throws (`null.english`), the whole array throws |
| FileParser.ParseJsonFile | english-learning-app/src/utils/fileParser.ts:45-84 | the result is `JsonWords`: an array's words, a `{words: [...]}` object read as its array, `[]` for anything else or a parse error |
| FileParser.ArrayThrowsIffNull | english-learning-app/src/utils/fileParser.ts:53-80 | an array falls through to `[]` exactly when it holds a `null` |
| FileParser.StringArrayWords | english-learning-app/src/utils/fileParser.ts:54-59 | an array of strings gives one word per string, numbered by position |
| FileParser.ObjectItem | english-learning-app/src/utils/fileParser.ts:60-68 | an object element gives a word exactly when its `english` is non-empty text, and that text is the english |
| FileParser.SplitLastPiece | english-learning-app/src/utils/fileParser.ts:113 | the last piece after a separator is the text after the last separator |
| FileParser.ExtensionOf | english-learning-app/src/utils/fileParser.ts:113 | `base.ext` has the extension `ext`, lower-cased |
| FileParser.ParseFile | english-learning-app/src/utils/fileParser.ts:112-124 | txt, json and csv go to their importers; any other extension is an `Unsupported file type` error |
| Vocabulary.FormatCaptures | english-learning-app/src/utils/contentFetcher.ts:17-23 | the four formats capture three groups each, and the simple format two |
| Vocabulary.FirstFormat | english-learning-app/src/utils/contentFetcher.ts:25 | the first format that matches yields three groups |
| Vocabulary.ParseWordLine | english-learning-app/src/utils/contentFetcher.ts:15-60 | a parsed word has id `source-index`, level `beginner`, category `imported`, the source as textbook, unit and lesson `imported`, and a chinese |
| Vocabulary.ParseFormat1 | english-learning-app/src/utils/contentFetcher.ts:17-39 | `english - chinese [pron]` is read by the first format, whatever later formats would say |
| Vocabulary.ParseHelloExample | english-learning-app/src/utils/contentFetcher.ts:17-39 | `hello - 你好 [həˈloʊ]` gives `hello`, `你好`, `həˈloʊ` |
| Vocabulary.ParseNoSeparator | english-learning-app/src/utils/contentFetcher.ts:43-59 | a line with no white space and none of `-`, `:`, `，` (e.g. `justoneword`) is not a word |
| Vocabulary.ParseSimple | english-learning-app/src/utils/contentFetcher.ts:43-56 | `english chinese` that fits no format falls through to the simple format and has no pronunciation |
| Vocabulary.ParseEnglishNonEmpty | english-learning-app/src/utils/contentFetcher.ts:68-70 | a line starting with a non-space character never parses to an empty english |
| Vocabulary.LineWordId | english-learning-app/src/utils/contentFetcher.ts:67-74 | a line's word carries the id `source-index` of that line |
| Vocabulary.LineWordShape | english-learning-app/src/utils/contentFetcher.ts:67-74 | a line gives at most one word, with a non-empty english |
| Vocabulary.LineWordKept | english-learning-app/src/utils/contentFetcher.ts:68-73 | a kept line gives the word its trimmed text parses to |
| Vocabulary.LineWordDropped | english-learning-app/src/utils/contentFetcher.ts:69 | blank lines and lines starting with `#` or `//` give nothing |
| Vocabulary.LineResults | english-learning-app/src/utils/contentFetcher.ts:67-75 | one part per line, line k giving its word |
| Vocabulary.ExtractWordsFromText | english-learning-app/src/utils/contentFetcher.ts:63-78 | the loop collects the kept lines' words in line order |
| Vocabulary.TextWordsOrigin | english-learning-app/src/utils/contentFetcher.ts:63-78 | every extracted word comes from one kept line k, numbered by its index among all lines, and has a non-empty english |
| Vocabulary.LineIds | english-learning-app/src/utils/contentFetcher.ts:70 | line k's id is `source-k` |
| Vocabulary.TextWordsDistinctIds | english-learning-app/src/utils/contentFetcher.ts:63-78 | the ids of the extracted words are pairwise distinct |
| Vocabulary.StripTagsNoClose | english-learning-app/src/utils/contentFetcher.ts:83 | text without `>` has no tag to remove |
| Vocabulary.StripTagsNoOpen | english-learning-app/src/utils/contentFetcher.ts:83 | text without `<` has no tag to remove |
| Vocabulary.StripTagsNoTag | english-learning-app/src/utils/contentFetcher.ts:83 | after `replace(/<[^>]*>/g, ' ')` no tag is left |
| Vocabulary.CollapseSpaces | english-learning-app/src/utils/contentFetcher.ts:83 | collapsing keeps emptiness and the first character, or turns it into one space |
| Vocabulary.CollapseSpacesCollapsed | english-learning-app/src/utils/contentFetcher.ts:83 | after `replace(/\s+/g, ' ')` the only white space left is single spaces |
| Vocabulary.CollapseSpacesVisible | english-learning-app/src/utils/contentFetcher.ts:83 | collapsing keeps every other character, in order |
| Vocabulary.Accepted | english-learning-app/src/utils/contentFetcher.ts:99-102 | every accepted match has an english longer than one character and a non-empty chinese |
| Vocabulary.AcceptedFrom | english-learning-app/src/utils/contentFetcher.ts:98-102 | every accepted candidate comes from one of the matches |
| Vocabulary.NumberedWords | english-learning-app/src/utils/contentFetcher.ts:103-112 | one word per accepted candidate |
| Vocabulary.ExecPattern | english-learning-app/src/utils/contentFetcher.ts:97-114 | the `exec` loop of one global pattern appends a numbered word per acceptable match, after those of earlier patterns |
| Vocabulary.ExecPatterns | english-learning-app/src/utils/contentFetcher.ts:96-115 | the patterns run in order: all matches of the first before any of the second |
| Vocabulary.ExtractWordsFromHTML | english-learning-app/src/utils/contentFetcher.ts:81-118 | the words of the accepted matches of the pair pattern, then of the bracket pattern, in the tag-stripped, space-collapsed text |
| Vocabulary.NumberedWordAt | english-learning-app/src/utils/contentFetcher.ts:103-112 | the i-th accepted candidate becomes word i: id `source-i`, english lower-cased |
| Vocabulary.NumberedDistinctIdsHtml | english-learning-app/src/utils/contentFetcher.ts:104 | numbered words have pairwise distinct ids |
| Vocabulary.MatchCandidate | english-learning-app/src/utils/contentFetcher.ts:88-90 | each match's english is ASCII letters and its chinese has no white space at either end |
| Vocabulary.HtmlWordShape | english-learning-app/src/utils/contentFetcher.ts:98-112 | every HTML word has a lower-case ASCII english of at least two letters and a non-empty, trimmed chinese |
| Vocabulary.HtmlWordsDistinctIds | english-learning-app/src/utils/contentFetcher.ts:94-104 | the ids of the HTML words are pairwise distinct |
| Vocabulary.MergeVocabularyFromSources | english-learning-app/src/utils/contentFetcher.ts:177-192 | the nested loop keeps the first word of each key of the flattened lists |
| Vocabulary.DedupDistinctKeys | english-learning-app/src/utils/contentFetcher.ts:183-187 | the merged words have pairwise distinct keys |
| Vocabulary.DedupCoversKeys | english-learning-app/src/utils/contentFetcher.ts:183-187 | every key of the input is represented in the output |
| Vocabulary.DedupSubseq | english-learning-app/src/utils/contentFetcher.ts:181-189 | the merge keeps input order |
| Vocabulary.DedupFromFirst | english-learning-app/src/utils/contentFetcher.ts:183-187 | every merged word is the first word of its key in the input |
| Vocabulary.DedupHasFirst | english-learning-app/src/utils/contentFetcher.ts:183-187 | the first word of every key in the input is merged |
| PdfParser.HeadingCaptures | english-learning-app/src/utils/pdfParser.ts:84 | the heading patterns capture two groups |
| PdfParser.HeadingOfMatch | english-learning-app/src/utils/pdfParser.ts:84 | a match of the anchored pattern gives its two groups as number and title |
| PdfParser.HeadingParts | english-learning-app/src/utils/pdfParser.ts:84 | `Unit`, white space, digits, separators and a title give that number and title |
| PdfParser.UnitTen | english-learning-app/src/utils/pdfParser.ts:84 | `Unit 10` is unit `1` titled `0` |
| PdfParser.UnitBare | english-learning-app/src/utils/pdfParser.ts:84 | a bare `Unit 1` is not a unit heading |
| PdfParser.PronunciationComplete | english-learning-app/src/utils/pdfParser.ts:126 | the optional bracket group reads back the pronunciation it was written with, or none |
| PdfParser.PronunciationSound | english-learning-app/src/utils/pdfParser.ts:126 | what the bracket group reads is the bracket of that pronunciation |
| PdfParser.PhraseComplete | english-learning-app/src/utils/pdfParser.ts:126 | every way the pattern can match after the dash gives the phrase and pronunciation computed |
| PdfParser.PhraseSound | english-learning-app/src/utils/pdfParser.ts:126 | the phrase computed is the phrase part of a real match |
| PdfParser.HeadComplete | english-learning-app/src/utils/pdfParser.ts:126 | every way the pattern can match before the phrase gives the English word computed |
| PdfParser.HeadSound | english-learning-app/src/utils/pdfParser.ts:126 | the English word computed is the head part of a real match |
| PdfParser.WordLineComplete | english-learning-app/src/utils/pdfParser.ts:126 | every way the word-line pattern can match gives the groups computed |
| PdfParser.WordLineSound | english-learning-app/src/utils/pdfParser.ts:126 | the groups computed are those of a real match |
| PdfParser.WordShapeUnique | english-learning-app/src/utils/pdfParser.ts:126 | two ways the pattern matches agree on every group, so backtracking order does not matter |
| PdfParser.Failed | english-learning-app/src/utils/pdfParser.ts:21-36 | at most three entries, none exactly when all checks pass |
| PdfParser.ValidatePDFText | english-learning-app/src/utils/pdfParser.ts:12-43 | valid exactly when the Unit, Lesson and word patterns all occur; one issue and one suggestion per missing pattern, in check order |
| PdfParser.MentionNeedsDigit | english-learning-app/src/utils/pdfParser.ts:21-27 | a Unit or Lesson mention needs a digit |
| PdfParser.WordMentionNeedsHan | english-learning-app/src/utils/pdfParser.ts:33 | a word mention needs a Chinese character |
| PdfParser.InvalidWithout | english-learning-app/src/utils/pdfParser.ts:12-43 | text without digits, or without Chinese characters, is never valid |
| PdfParser.MentionAt | english-learning-app/src/utils/pdfParser.ts:21 | the word in any case, white space and a digit are found as a mention |
| PdfTextbook.NonBlankTrimmed | english-learning-app/src/utils/pdfParser.ts:64 | every line kept is non-empty and trimmed |
| PdfTextbook.Infos | english-learning-app/src/utils/pdfParser.ts:84-126 | each line is classified on its own |
| PdfTextbook.DescriptionZero | english-learning-app/src/utils/pdfParser.ts:151 | the description of a textbook without units is `<name>包含0个单元` |
| PdfTextbook.ScanPrefix | english-learning-app/src/utils/pdfParser.ts:74-137 | the fold over one more line is one more loop step |
| PdfTextbook.ParseTextbook | english-learning-app/src/utils/pdfParser.ts:63-159 | the loop computes the fold of the step over the lines, closed and assembled |
| PdfTextbook.ProcessPDFText | english-learning-app/src/utils/pdfParser.ts:46-60 | always a success carrying the built tree, with no error and no raw text |
| PdfTextbook.UnitHeadings | english-learning-app/src/utils/pdfParser.ts:84-85 | there are no more unit headings than lines |
| PdfTextbook.ScanName | english-learning-app/src/utils/pdfParser.ts:66-81 | the name is the first line unless it starts with `Unit <digits>`, else `未知教材` |
| PdfTextbook.ScanOpen | english-learning-app/src/utils/pdfParser.ts:70-123 | a unit is open once a unit heading came; a lesson is open exactly when the last counted heading is a lesson, only inside a unit; the unit number is the last unit heading's |
| PdfTextbook.ScanUnits | english-learning-app/src/utils/pdfParser.ts:84-106 | units appear in text order, one per unit heading, with id `unit-n` and name `Unit n title`; empty units are kept |
| PdfTextbook.ScanWords | english-learning-app/src/utils/pdfParser.ts:126-136 | the tree's words are the word lines that come while a lesson is open; lines before any unit, or before a unit's first lesson, are dropped |
| PdfTextbook.ScanLessons | english-learning-app/src/utils/pdfParser.ts:109-123 | the tree's lessons are the lesson headings after some unit, each under the most recent unit with id `lesson-unitN-n`; lessons without words are kept |
| PdfTextbook.BuildTree | english-learning-app/src/utils/pdfParser.ts:63-159 | the returned textbook: the name, the units, the words and the lessons as above, the fixed publisher fields and the description counting the units |
| PdfTextbook.NoHeadings | english-learning-app/src/utils/pdfParser.ts:84-123 | with no unit heading, no lesson heading counts either |
| PdfTextbook.NoUnitHeadings | english-learning-app/src/utils/pdfParser.ts:84-145 | with no unit heading there is no unit, and no word or lesson is kept |
| PdfTextbook.EmptyTextbook | english-learning-app/src/utils/pdfParser.ts:147-158 | text without unit headings still gives a textbook, with no units and `…包含0个单元` |
| ManualInput.Optional | english-learning-app/src/components/ManualInput.tsx:24-25 | `s.trim() \|\| undefined` is never an empty string |
| ManualInput.TypedWordShape | english-learning-app/src/components/ManualInput.tsx:21-27 | a typed word's english is non-empty and trimmed; its chinese and pronunciation are trimmed, and absent exactly when blank; its level is `beginner` |
| ManualInput.RemoveExact | english-learning-app/src/components/ManualInput.tsx:33-35 | removing leaves exactly the words with other ids, in order |
| ManualInput.Editor.constructor | english-learning-app/src/components/ManualInput.tsx:10-17 | no words and three empty input boxes |
| ManualInput.Editor.AddWord | english-learning-app/src/components/ManualInput.tsx:19-31 | a blank english changes nothing; otherwise the typed word is appended and the boxes are cleared |
| ManualInput.Editor.RemoveWord | english-learning-app/src/components/ManualInput.tsx:33-35 | the list loses the words with that id; the boxes are unchanged |
| ManualInput.Editor.HandleSubmit | english-learning-app/src/components/ManualInput.tsx:37-42 | a non-empty list is handed on and emptied; an empty one hands on nothing |
| ManualInput.Editor.HandleKeyPress | english-learning-app/src/components/ManualInput.tsx:44-48 | Enter does what AddWord does: with a blank english nothing changes, otherwise the typed word is appended and the boxes are cleared; any other key changes nothing |
| HistoryFilter.FilterHistoriesKeeps | english-learning-app/src/components/HistoryManager.tsx:90-108 | the shown histories are the sub-list that passes the source test and, for a non-blank term, the search |
| HistoryFilter.ShowAll | english-learning-app/src/components/HistoryManager.tsx:94-99 | the all-sources choice with a blank search term shows every history unchanged |
| WordbookView.FilteredWordsKeeps | english-learning-app/src/components/Wordbook.tsx:54-63 | the shown entries are the sub-list that the mastery filter admits and that matches the search |
| WordbookView.EmptySearchKeepsAll | english-learning-app/src/components/Wordbook.tsx:54-63 | `all` with no term shows the whole wordbook |
| WordbookView.OtherDifficulty | english-learning-app/src/components/Wordbook.tsx:65-72 | a difficulty outside the three is drawn grey and labelled `困难` |
| WordbookView.BadgesDistinct | english-learning-app/src/components/Wordbook.tsx:122-123 | each stored difficulty has its own colour and label, none of them the grey |
| TextbookSelection.ToggleFlipsOne | english-learning-app/src/components/TextbookSelection.tsx:25-33 | toggling flips that unit alone, and toggling twice restores the set |
| TextbookSelection.Emitted | english-learning-app/src/components/TextbookSelection.tsx:76-80 | words are handed on exactly when there are some |
| TextbookSelection.Selector.constructor | english-learning-app/src/components/TextbookSelection.tsx:19-23 | nothing selected and no unit expanded |
| TextbookSelection.Selector.ToggleUnit | english-learning-app/src/components/TextbookSelection.tsx:25-33 | the expanded set is toggled at that unit; the selections are unchanged |
| TextbookSelection.Selector.HandleTextbookSelect | english-learning-app/src/components/TextbookSelection.tsx:35-40 | a new textbook clears the unit, the lesson and the expanded set |
| TextbookSelection.Selector.HandleUnitSelect | english-learning-app/src/components/TextbookSelection.tsx:42-45 | a new unit clears the lesson and keeps the textbook |
| TextbookSelection.Selector.HandleLessonSelect | english-learning-app/src/components/TextbookSelection.tsx:47-49 | the lesson is set; nothing else changes |
| TextbookSelection.Selector.GoBack | english-learning-app/src/components/TextbookSelection.tsx:83-91 | clears the deepest selection that is set, and only that one |
| TextbookSelection.Selector.HandleStartLearning | english-learning-app/src/components/TextbookSelection.tsx:51-81 | nothing without a textbook; otherwise the scope's words, passed arguments taking precedence over the selection, handed on only when non-empty |
| LearningHistory.ColorMatchesBand | english-learning-app/src/components/LearningHistory.tsx:33-38 | a score's colour is its band's colour, and the colour alone tells the band |
| LearningHistory.ColorAgreesWithEvaluation | english-learning-app/src/components/LearningHistory.tsx:33-38 | a card's colour and its evaluation text always agree |
| LearningHistory.ColorBoundaries | english-learning-app/src/components/LearningHistory.tsx:33-38 | the colour thresholds 90, 75 and 60 are inclusive |
| LearningHistory.DisplayedAccuracy | english-learning-app/src/components/LearningHistory.tsx:101 | an accuracy is shown exactly when there are words |
| LearningHistory.AccuracyBounds | english-learning-app/src/components/LearningHistory.tsx:101 | the shown accuracy is the percentage to within half a point, at least 0, at most 100 when no more were right than asked, and 100 for a perfect round |
| LearningHistory.AccuracyMonotone | english-learning-app/src/components/LearningHistory.tsx:101 | more right answers never show a lower accuracy |
| LearningHistory.MinutesNearest | english-learning-app/src/components/LearningHistory.tsx:106 | the minutes shown are the seconds to the nearest minute, a half rounding up |
| LearningHistory.MinutesExamples | english-learning-app/src/components/LearningHistory.tsx:106 | 29 s shows 0, 30 s shows 1, 89 s shows 1, 90 s shows 2 |
| MatchGame.Pairs | english-learning-app/src/components/MatchGame.tsx:43-84 | two cards per word |
| MatchGame.Deal | english-learning-app/src/components/MatchGame.tsx:36-85 | the deal has 2·min(8, n) cards |
| MatchGame.PairCount | english-learning-app/src/components/MatchGame.tsx:141 | the pair count is min(8, n) |
| MatchGame.PairsAt | english-learning-app/src/components/MatchGame.tsx:43-84 | word i gives its english card at place 2i and its chinese card right after |
| MatchGame.DealShape | english-learning-app/src/components/MatchGame.tsx:38-84 | the deal holds, for each of the first min(8, n) words, its english card at an even place and its chinese card right after |
| MatchGame.DealFaces | english-learning-app/src/components/MatchGame.tsx:49-81 | every dealt card is unmatched and faces up exactly in visual mode |
| MatchGame.PushPairs | english-learning-app/src/components/MatchGame.tsx:43-84 | the push loop builds the english and chinese card of each word, in order |
| MatchGame.DealIds | english-learning-app/src/components/MatchGame.tsx:36-85 | the card ids of a deal do not depend on the mode |
| MatchGame.ShuffledDeal | english-learning-app/src/components/MatchGame.tsx:87 | shuffling only reorders: the same cards, each once, still unmatched and facing the same way |
| MatchGame.FlipUp | english-learning-app/src/components/MatchGame.tsx:111-113 | turning a card up keeps every card's id in place |
| MatchGame.MarkMatched | english-learning-app/src/components/MatchGame.tsx:134-136 | marking a word matched keeps every card's id in place |
| MatchGame.FlipDown | english-learning-app/src/components/MatchGame.tsx:151-153 | turning cards down keeps every card's id in place |
| MatchGame.SameCardNoMatch | english-learning-app/src/components/MatchGame.tsx:129 | the same card chosen twice is never a match |
| MatchGame.MatchMarksPair | english-learning-app/src/components/MatchGame.tsx:133-137 | on a match both chosen cards end up matched, every card of that word is marked, and no other card or field changes |
| MatchGame.MemoryMatchLeavesSecondDown | english-learning-app/src/components/MatchGame.tsx:134 | in memory mode a matched second card stays face-down, because the captured cards predate its flip |
| MatchGame.MismatchMatchesNothing | english-learning-app/src/components/MatchGame.tsx:146-156 | a mismatch turns the two cards down, matches nothing and leaves the other cards alone |
| MatchGame.Schedule | english-learning-app/src/components/MatchGame.tsx:124-158 | a match timer exactly when the choice is a match, carrying that render's cards and pairs and the word; otherwise a mismatch timer carrying the two ids and the mode |
| MatchGame.SameIdsSameDeck | english-learning-app/src/components/MatchGame.tsx:111-153 | card lists with the same ids are deals of the same cards |
| MatchGame.DropKeepsDecks | english-learning-app/src/components/MatchGame.tsx:133-156 | removing a timer that ran keeps every other timer's captured cards a deal of the same cards |
| MatchGame.ScheduledOutcome | english-learning-app/src/components/MatchGame.tsx:129-156 | a match's timer marks the word in the captured cards and adds it to the captured pairs, completing the game exactly when that makes every pair; a mismatch's timer turns the cards down in memory mode and leaves them alone in visual mode |
| MatchGame.ResolvedDeck | english-learning-app/src/components/MatchGame.tsx:133-156 | running a timer leaves the cards shown a deal of the same cards |
| MatchGame.ResolveKeepsDecks | english-learning-app/src/components/MatchGame.tsx:133-156 | running timer k leaves the shown list and every remaining captured list a deal of the same cards |
| MatchGame.Game.constructor | english-learning-app/src/components/MatchGame.tsx:23-34 | at mount: visual mode, nothing selected, no pairs or moves, and the first shuffled deal |
| MatchGame.Game.InitializeGame | english-learning-app/src/components/MatchGame.tsx:36-89 | the cards become the shuffled deal in the current mode; nothing else changes |
| MatchGame.Game.HandleCardClick | english-learning-app/src/components/MatchGame.tsx:92-121 | an ignored click changes nothing; otherwise the card joins the selection and turns up in memory mode; reaching two selected adds exactly one move and schedules this render's timer |
| MatchGame.Game.CheckForMatch | english-learning-app/src/components/MatchGame.tsx:124-158 | schedules exactly the timer the choice calls for, computed on the click's cards; nothing else changes |
| MatchGame.Game.Resolve | english-learning-app/src/components/MatchGame.tsx:133-156 | a timer runs: cards, pairs and completion become what its captured render computes, the timer is gone, and the selection is cleared |
| MatchGame.Game.ResetGame | english-learning-app/src/components/MatchGame.tsx:168-175 | no moves, selection or pairs, not complete, and a new deal in the current mode |
| MatchGame.Game.ToggleMode | english-learning-app/src/components/MatchGame.tsx:177-180 | the other mode, then a reset whose deal is in the new mode |
| SpellGame.PaddedAnswerCorrect | english-learning-app/src/components/SpellGame.tsx:44 | case and surrounding white space of the typed text do not matter |
| SpellGame.ExactAnswerCorrect | english-learning-app/src/components/SpellGame.tsx:44 | typing a trimmed english exactly is right |
| SpellGame.UntrimmedNeverCorrect | english-learning-app/src/components/SpellGame.tsx:44 | an english ending in white space can never be answered, because it is not trimmed |
| SpellGame.AddDifficultKeeps | english-learning-app/src/components/SpellGame.tsx:52-56 | the id is recorded, and nothing else is added or lost |
| SpellGame.AddDifficultNoRepeats | english-learning-app/src/components/SpellGame.tsx:52-56 | recording an id never makes one occur twice |
| SpellGame.Additions | english-learning-app/src/components/SpellGame.tsx:106-120 | no more entries than difficult ids |
| SpellGame.AdditionsShape | english-learning-app/src/components/SpellGame.tsx:106-120 | every saved entry is a fresh `hard` entry for a listed word's english and translation; with every id naming a word, exactly one per id |
| SpellGame.FindNamed | english-learning-app/src/components/SpellGame.tsx:107 | an id that names a word is found |
| SpellGame.TimeSpent | english-learning-app/src/components/SpellGame.tsx:90 | the whole seconds since the start |
| SpellGame.SaveLearningRecord | english-learning-app/src/components/SpellGame.tsx:88-124 | a `spell` record of every word with the calling render's score and time, then a `hard` entry per difficult id that names a word |
| SpellGame.Game.constructor | english-learning-app/src/components/SpellGame.tsx:15-23 | the first word, no input, feedback, score, attempts or difficult words |
| SpellGame.Game.SetUserInput | english-learning-app/src/components/SpellGame.tsx:166 | the input becomes the text; nothing else changes |
| SpellGame.Game.CheckAnswer | english-learning-app/src/components/SpellGame.tsx:43-66 | shows feedback and counts the attempt; a right answer scores a point, a wrong one records the word as difficult; the timer keeps this render's attempts, index, score and difficult list |
| SpellGame.Game.RecordOutcome | english-learning-app/src/components/SpellGame.tsx:45-65 | the state changes of a check once its outcome is known |
| SpellGame.Game.NextWordFrom | english-learning-app/src/components/SpellGame.tsx:68-78 | before the last word, the next word with clean input, no feedback and no attempts; on the last, the game ends and that render's record is saved |
| SpellGame.Game.Resolve | english-learning-app/src/components/SpellGame.tsx:58-65 | after a right answer, or with two or more attempts before the check, that render's next word; otherwise the feedback goes and the input is cleared |
| SpellGame.Game.SkipWord | english-learning-app/src/components/SpellGame.tsx:80-86 | records the word as difficult, no point, and moves on at once; the record saved on the last word lacks the skipped word |
| SpellGame.Game.HandleKeyPress | english-learning-app/src/components/SpellGame.tsx:126-130 | Enter checks only for non-blank input while no feedback shows; otherwise nothing changes |
| SpellGame.MissAndWait | english-learning-app/src/components/SpellGame.tsx:43-66 | a wrong answer and its timer: no point, the word is difficult, and the word stays unless two attempts came before |
| SpellGame.ThirdMissAdvances | english-learning-app/src/components/SpellGame.tsx:47-60 | the first two wrong answers keep the word and the third moves on |
| SpellGame.HitAndWait | english-learning-app/src/components/SpellGame.tsx:43-78 | a right answer and its timer: one point and the next word, or the end with that render's record |
| SpellGame.LastPointNotRecorded | english-learning-app/src/components/SpellGame.tsx:58-103 | a one-word round answered right shows a score of 1 but saves a record of 0 correct |

## Left out

- Rendering, JSX, CSS, animation, icons, sound effects (`utils/soundEffects.ts`) and speech synthesis have no logic worth modelling.
- Real time is not modelled. A `setTimeout` delay is only the order in which the `Resolve` methods run: the caller chooses which pending body runs next.
- `Date.now()` and `new Date()` are the `now` parameter. So are the ids built from them.
- `Math.random()` is not modelled. Each shuffle is a given index permutation, and the random part of a manual word's id is a given string.
- `localStorage` and JSON serialisation are left out; the stores are in-memory lists. So are dates turned into strings, and the `try`/`catch` around the storage calls.
- `getStatistics`' `recentActivity` (the last seven days) depends on the calendar and the time zone, so it is not modelled.
- `File.text()`, PDF text extraction and OCR (`utils/ocrProcessor.ts`) are I/O and are not part of this model. So are the network fetchers of `utils/contentFetcher.ts` (`fetchContent`, `processContentSource`).
- `App.tsx`, `PDFImport.tsx`, `WebContentImport.tsx`, `FileUpload.tsx` and `RandomWords.tsx` only wire the modelled operations to the screen. They are not part of this model, and neither are the history display helpers.
- `toLowerCase` is modelled for ASCII letters only; other characters are left as they are.
- The shipped word and textbook catalogs are data, not logic. They are parameters, restricted by `WordDb.CatalogShape` and by `TextbookDb.Catalog.constructor`'s requirement of distinct ids.
- FileParser.TextProp: JSON properties are read for strings only. A number, a boolean or an object counts as truthy in JavaScript, but the model treats it as absent. This has four effects:
  - an element whose `english` is not a string is skipped, while the app keeps it;
  - an `id` that is not a string gets the fallback id `json-<index>-<now>`, while the app keeps that id;
  - a `chinese`, `pronunciation` or `category` that is not a string is absent;
  - a `level` that is not a string becomes `beginner`.
- Database.CalculateScore: the app computes the score in IEEE doubles, and the model computes it in exact reals. The two can differ at a `.5` tie. `calculateScore(11, 12, 148)` is `Math.round(89.49999999999999)` = 89 (Good) in the app, but the model computes Round(89.5) = 90 (Excellent). The lemmas about the score hold for the model's exact value.
- LearningHistory.DisplayedAccuracy: the accuracy is computed in exact reals, not doubles. So `Math.round(29 / 200 * 100)` shows 14 in the app, where the model gives 15. DisplayedMinutes is unaffected, because `t / 60` is exact at a tie.
- LearningHistory.AccuracyBounds: its bound `exact < a + 0.5` is about the model's exact-real value. For the app's double value it can fail at a tie: 29 of 200 shows 14 while the exact percentage is 14.5.
- Database.Store.GetHistoryList and WordDb.GetRandomWords: the defaults of `getHistoryList(limit = 100)` and `getRandomWords(..., count = 30)` are not modelled; the limit and the count are always passed. Every caller in the app passes them.
- Database.CalculateScore: it carries no contract of its own. Its score formula is stated through ScoreBounds, ScoreGrowsWithCorrect, ScoreFallsWithTime and ScoreExamples. It requires at least one word: with none, the source's `correctCount / wordCount` is not a number.
- TextbookDb.Catalog.GetWordsFromLesson: it has no contract of its own. LessonLookup and LessonWithinUnitWithinBook state what it returns.
- SpellGame.Game.HandleKeyPress: on Enter it states only that a check happened, namely feedback shown, one more attempt and one more timer. CheckAnswer states the full effect.
- SpellGame.TimeSpent: it requires the start time to be no later than `now`, because the clock is a parameter. The source assumes a clock that does not run backwards.
- SpellGame.Game.constructor: it requires a non-empty word list. The component assumes one and reads `words[currentIndex]` without a check.
- The disabled states of the buttons are not events. They are predicates over the state: `MatchGame.Game.Ignored` for a click the handler ignores, and `SpellGame.Game.CheckEnabled` and `SpellGame.Game.SkipEnabled` for the check and skip buttons.
- FileParser.ParseCsvFile: the error for a file with no non-blank line is the JavaScript engine's `TypeError` for `lines[0].toLowerCase()`. It is modelled as the `NoLines` error with that engine's message text.
- PdfTextbook.ProcessPDFText: its error branch is unreachable, because `parseTextbook` cannot throw on a string. The model has no such branch.
