# Patois practice core, modelled in Dafny

Patois is an Android vocabulary trainer. This project models its core and proves
properties about it:

- **The practice scheduler** (`Trainer`):
  - the weighted rejection-sampling word selector, `selectWord`;
  - the per-word level transition, `updatePracticeInfo`;
  - the interval table it schedules from;
  - the star count of a level;
  - the `Direction` codec.
- **The bounded random draw** `Random.nextLong(n)`.
- **The CSV row writer** `CSVWriter`, with a parser for a record as section 2 of RFC 4180 defines it. The parser lets the model prove that what is written can be read back.
- **The word-list mark-up parser** `applyWordMarkup`.
- **The score renderer** `ScoreRenderer`.
- **The value types** `Word` and `Language`.
- **The editors' decision rules**:
  - which language a new translation row starts with;
  - which database writes saving a word, translation or language row makes;
  - the delete-confirmation flags.
- **The deferred-delivery state machine** of `PersistentTask`.

Java semantics are written out where they matter:

- `long` and `int` arithmetic wraps (`JavaInt.WrapLong`, `JavaInt.WrapInt`);
- `/` and `%` truncate toward zero (`JavaInt.JDiv`, `JavaInt.JRem`);
- `>> 1` is an arithmetic shift;
- `String.trim` strips characters at or below U+0020 (`JavaString.Trim`);
- the id hash folds the halves of a `long` (`JavaInt.FoldLong`).

Three things are parameters rather than calls:

- **The database.** Its queries are the inputs. Its writes are the results, as datatypes naming the write.
- **The clock.** It is a `now` argument.
- **The random generator.** It is an oracle:
  - for `selectWord`, `pickAt(k)` and `drawAt(k)` are the k-th `nextInt` and `nextLong` results;
  - for `nextLong`, a finite list of raw `nextLong()` outputs.

Files, one module each:

- `java_int.dfy`, `java_string.dfy`, `wrappers.dfy`: Java arithmetic, `trim`, `Option`.
- `trainer.dfy`: `Trainer`.
- `random.dfy`: `JavaRandom`.
- `csv_writer.dfy`: `Csv`.
- `spans.dfy`, `word_markup.dfy`: `Spans`, `WordMarkup`.
- `score_renderer.dfy`: `Scores`.
- `language.dfy`, `word.dfy`: `Languages`, `Words`.
- `edit_word.dfy`: `WordEditor`.
- `edit_languages.dfy`: `LanguageEditor`.
- `persistent_task.dfy`: `Tasks`.

## Scheduler behaviours worth noting

`updatePracticeInfo` (`src/ro/undef/patois/Trainer.java:88-94`) behaves as follows, and the model does the same.

1. **A success raises the level with no cap.** `level++` (`Trainer.java:91`) works on a Java `int`, so the level wraps at `Integer.MAX_VALUE` (`Trainer.LevelWrapsAtIntMax`). Only `clamp` bounds it, and only when it is read.
2. **The next practice is scheduled from the old level.** The interval is taken before the increment (`Trainer.java:89-90`). A first success from level 0 therefore waits 6 hours, not the 2 days of level 1 (`Trainer.FirstSuccessWaitsSixHours`, `Trainer.IntervalLagsLevel`).
3. **A failure keeps the next practice time.** It resets the level to 0 and leaves `nextPractice` unchanged (`Trainer.java:92-94`).

Two more behaviours of the code are modelled as written:

- **`nextLong` can return a negative value.** The comment at `src/ro/undef/patois/Random.java:28` says "positive", but `nextLong() >> 1` may be negative. With Java's truncated `%`, a draw `-n < bits < 0` is accepted and returned as it is. So the provable bound is `-n < result < n` (`JavaRandom.NextLong`, `JavaRandom.NegativeAcceptance`).
- **`selectWord` can pick a zero-weight word.** Because of the negative draws above, it can accept one (`Trainer.ZeroWeightCanBeAccepted`). Its fallback is not restricted to positive weights either.

## Model

| member | source | states |
|---|---|---|
| Trainer.Clamp | src/ro/undef/patois/Trainer.java:113-119 | the result lies in [0, MAX_LEVEL]; it is the level itself inside that range, 0 below it and MAX_LEVEL above it |
| Trainer.ClampMonotone | src/ro/undef/patois/Trainer.java:113-119 | clamping preserves order |
| Trainer.GetInterval | src/ro/undef/patois/Trainer.java:104-123 | the interval is the table entry at the clamped level, positive and at most the level-4 entry (180 days) |
| Trainer.IntervalsIncrease | src/ro/undef/patois/Trainer.java:104-111 | the interval table is strictly increasing |
| Trainer.GetIntervalMonotone | src/ro/undef/patois/Trainer.java:104-123 | a higher level never gets a shorter interval |
| Trainer.ScheduleNextPractice | src/ro/undef/patois/Trainer.java:99-101 | the result is a `long`; without overflow it is `now` plus the level's interval, hence later than `now` |
| Trainer.GetNumStars | src/ro/undef/patois/Trainer.java:125-127 | the star count lies in [0, maxStars] when (MAX_LEVEL+1)*maxStars fits an `int` |
| Trainer.NumStarsExact | src/ro/undef/patois/Trainer.java:125-127 | the star count is (clamp(level)+1)*maxStars/5 with no `int` overflow |
| Trainer.NumStarsMonotone | src/ro/undef/patois/Trainer.java:125-127 | the star count does not decrease as the level grows |
| Trainer.NumStarsFull | src/ro/undef/patois/Trainer.java:125-127 | a level at or above MAX_LEVEL shows the full maxStars |
| Trainer.FourStarsShowLevel | src/ro/undef/patois/Trainer.java:125-127 | with four stars, the star count is exactly the clamped level |
| Trainer.FindByValue | src/ro/undef/patois/Trainer.java:147-153 | a found direction is in the list and has the value; when nothing is found, no listed direction has it |
| Trainer.FindByAction | src/ro/undef/patois/Trainer.java:155-161 | a found direction is in the list and has the action; when nothing is found, no listed direction has it |
| Trainer.FromValue | src/ro/undef/patois/Trainer.java:147-153 | `None`, standing for the throw, exactly for a value other than 0 and 1; a result has the value asked for |
| Trainer.FromAction | src/ro/undef/patois/Trainer.java:155-161 | `None`, standing for the throw, exactly for a string other than the two action strings; a result has the action asked for |
| Trainer.FromValueRoundTrip | src/ro/undef/patois/Trainer.java:129-153 | `fromValue(d.getValue()) == d` for both directions |
| Trainer.FromValueDomain | src/ro/undef/patois/Trainer.java:147-153 | `fromValue` succeeds exactly for the values 0 and 1 and every other value throws; a result has the value asked for |
| Trainer.FromActionRoundTrip | src/ro/undef/patois/Trainer.java:129-161 | `fromAction(d.getAction()) == d` for both directions, whose action strings differ |
| Trainer.AfterPractice | src/ro/undef/patois/Trainer.java:88-94 | on success the level is one more (without a cap) and the next practice is `now` plus the OLD level's interval; on failure the level is 0 and the next practice is unchanged |
| Trainer.ReplayLevel | src/ro/undef/patois/Trainer.java:88-94 | after any run of outcomes, the level is the number of successes since the last failure, plus the starting level if nothing failed |
| Trainer.ReplayLevelNonNegative | src/ro/undef/patois/Trainer.java:88-94 | from a non-negative level, the level after any run stays between 0 and the starting level plus the run's length |
| Trainer.IntervalLagsLevel | src/ro/undef/patois/Trainer.java:88-91 | after a success, the interval used is that of the new level minus one |
| Trainer.FirstSuccessWaitsSixHours | src/ro/undef/patois/Trainer.java:88-91 | a success from level 0 gives level 1 and a next practice 6 hours after `now` |
| Trainer.LevelWrapsAtIntMax | src/ro/undef/patois/Trainer.java:91 | a success at `Integer.MAX_VALUE` wraps the level to `Integer.MIN_VALUE`, which the clamp reads as level 0 |
| Trainer.PracticeInfo.constructor | src/ro/undef/patois/Trainer.java:175-185 | the record holds the direction, level and next practice given |
| Trainer.UpdatePracticeInfo | src/ro/undef/patois/Trainer.java:85-97 | the record's level and next practice become `AfterPractice` of their old values; the direction is kept; the store write carries the new values, TRAINER_VERSION and the outcome |
| Trainer.TotalWeight | src/ro/undef/patois/Trainer.java:44-46 | with non-negative weights, the total is non-negative, at least every weight, and zero exactly when every weight is zero |
| Trainer.MaxWeight | src/ro/undef/patois/Trainer.java:43-48 | every weight is at most the result; the result is -1 (nothing larger seen) or some entry's weight |
| Trainer.SumAndMax | src/ro/undef/patois/Trainer.java:43-49 | the accumulating loop computes exactly `TotalWeight` and `MaxWeight` |
| Trainer.NumAttempts | src/ro/undef/patois/Trainer.java:63 | the budget `2*max*n/total + 1` lies between 1 and 2n+1 whenever 0 <= max <= total and total > 0 |
| Trainer.BudgetBound | src/ro/undef/patois/Trainer.java:63 | `2*max*n/total` lies in [0, 2n] |
| Trainer.AttemptBudget | src/ro/undef/patois/Trainer.java:63 | for a non-empty list with non-negative weights, the budget lies between 1 and 2n+1, so the loop runs at least once |
| Trainer.MaxWeightPositive | src/ro/undef/patois/Trainer.java:43-52 | with non-negative weights and a positive total, the largest weight is positive and at most the total, so `nextLong(maxWeight)` cannot throw |
| Trainer.SelectWord | src/ro/undef/patois/Trainer.java:40-83 | `EmptyException` exactly when the list is empty or the total weight is 0; otherwise it makes between 1 and budget attempts, and every attempt but the last was rejected; an accepted last attempt returns the picked id; otherwise all budget attempts ran and the result is the first-drawn entry of the highest weight drawn; the id always belongs to an entry of the list |
| Trainer.ZeroWeightCanBeAccepted | src/ro/undef/patois/Trainer.java:73-76 | for every largest weight of at least 2, some generator output makes `nextLong(maxWeight)` return a negative value, so a zero-weight word is accepted |
| JavaRandom.NextLong | src/ro/undef/patois/Random.java:24-34 | `n <= 0` gives `IllegalArgumentException` and nothing else does; a returned value is `bits % n` of the first accepted draw, every earlier draw was rejected, and the value lies in (-n, n) |
| JavaRandom.NonNegativeBitsInRange | src/ro/undef/patois/Random.java:28-31 | an accepted non-negative `bits` yields a value in [0, n) |
| JavaRandom.NonNegativeAcceptance | src/ro/undef/patois/Random.java:28-30 | a non-negative `bits` is accepted exactly when `bits - val + n` does not pass 2^63, so the 64-bit sum does not wrap |
| JavaRandom.NegativeAcceptance | src/ro/undef/patois/Random.java:28-30 | a negative `bits` is accepted exactly when `-n < bits`, and then the value is `bits` itself |
| JavaRandom.SmallNegativeAccepted | src/ro/undef/patois/Random.java:29-30 | a draw with `-n < bits < 0` is accepted and returned unchanged |
| JavaRandom.LargeNegativeRejected | src/ro/undef/patois/Random.java:29-30 | a draw with `bits <= -n` is always rejected |
| JavaRandom.NegativeValueWitness | src/ro/undef/patois/Random.java:28-31 | the raw output -1 gives `bits == -1`, is accepted for every n >= 2 and yields -1 |
| JavaRandom.AcceptedValueBound | src/ro/undef/patois/Random.java:28-31 | for any raw `long`, `bits` lies in [-2^62, 2^62), and an accepted draw yields a value in (-n, n) |
| JavaInt.ShiftRight1Range | src/ro/undef/patois/Random.java:28 | `x >> 1` of a `long` lies in [-2^62, 2^62) |
| Csv.CSVWriter.constructor | src/ro/undef/csv/CSVWriter.java:26-28 | the writer starts on the given output |
| Csv.CSVWriter.WriteRow | src/ro/undef/csv/CSVWriter.java:30-39 | the output becomes the old output followed by the escaped cells joined by commas and a CRLF; what was written before is unchanged |
| Csv.EscapeCell | src/ro/undef/csv/CSVWriter.java:41-46 | a cell without special characters is returned verbatim; any other cell is quoted, growing by 2 plus its number of quotes |
| Csv.HasSpecialChars | src/ro/undef/csv/CSVWriter.java:48-55 | true exactly when the string holds a comma, a double quote, an LF or a CR |
| Csv.EscapeQuotes | src/ro/undef/csv/CSVWriter.java:57-67 | the result is a double quote, the string with every double quote doubled, and a double quote |
| Csv.QuotedLength | src/ro/undef/csv/CSVWriter.java:57-67 | a quoted string is |s| + 2 + (number of quotes in s) long |
| Csv.DoubleQuotesLength | src/ro/undef/csv/CSVWriter.java:59-64 | doubling quotes adds one character per quote |
| Csv.PlainCellVerbatim | src/ro/undef/csv/CSVWriter.java:41-43 | a cell without special characters is emitted as it is |
| Csv.EmptyRowIsBareLineBreak | src/ro/undef/csv/CSVWriter.java:30-39 | an empty row, and a row of one empty cell, both write exactly CRLF |
| Csv.ParseQuotedDoubled | src/ro/undef/csv/CSVWriter.java:57-67 | reading a quoted field back collapses each doubled quote and stops at the closing quote (section 2, rule 7 of RFC 4180) |
| Csv.ParseUnquotedPlain | src/ro/undef/csv/CSVWriter.java:41-43 | a field without special characters reads back as itself, up to the next separator |
| Csv.ParseEscapedCell | src/ro/undef/csv/CSVWriter.java:41-46 | every escaped cell reads back as the original cell |
| Csv.ParseJoinedCells | src/ro/undef/csv/CSVWriter.java:30-37 | the comma-joined escaped cells of a non-empty row parse back to exactly those cells |
| Csv.RowRoundTrip | src/ro/undef/csv/CSVWriter.java:30-39 | a full written row of one or more cells, CRLF included, parses back to its cells |
| Csv.QuotedRoundTrip | src/ro/undef/csv/CSVWriter.java:57-67 | reading `escapeQuotes(s)` back as a field gives `s`, with nothing left over |
| WordMarkup.ApplyWordMarkup | src/ro/undef/patois/BrowseWordsActivity.java:270-307 | the text and spans built are those the escape grammar defines (`Run` from the initial state); every span lies within the output; a text with no `.` is copied unchanged with no spans |
| WordMarkup.EscapeWellFormed | src/ro/undef/patois/BrowseWordsActivity.java:279-301 | one escape keeps both start positions and every span within the output |
| WordMarkup.RunWellFormed | src/ro/undef/patois/BrowseWordsActivity.java:272-304 | reading any text keeps `0 <= start <= end <= output length` for every span and both start positions |
| WordMarkup.RunPlain | src/ro/undef/patois/BrowseWordsActivity.java:276-303 | text without a dot is appended unchanged and sets no span |
| WordMarkup.RunEscaped | src/ro/undef/patois/BrowseWordsActivity.java:279-282 | reading a string with its dots doubled outputs that string, whatever follows |
| WordMarkup.EscapeDotsRoundTrip | src/ro/undef/patois/BrowseWordsActivity.java:276-304 | any plain string, with its dots doubled, renders as itself with no spans |
| WordMarkup.RunEscapePair | src/ro/undef/patois/BrowseWordsActivity.java:278-301 | a `.` and the next character act as one escape, and reading continues after both |
| WordMarkup.DoubledDotIsDot | src/ro/undef/patois/BrowseWordsActivity.java:279-282 | `..` outputs one `.` |
| WordMarkup.NoTranslationsEscape | src/ro/undef/patois/BrowseWordsActivity.java:297-299 | `.0` outputs the "no translations" text |
| WordMarkup.UnknownEscapeIgnored | src/ro/undef/patois/BrowseWordsActivity.java:279-301 | any other escape letter produces nothing and changes nothing |
| WordMarkup.TrailingDotIgnored | src/ro/undef/patois/BrowseWordsActivity.java:278-279 | a lone `.` at the end produces nothing |
| WordMarkup.LanguageCodeSpan | src/ro/undef/patois/BrowseWordsActivity.java:283-289 | `.c` text `.C` adds one language-code span covering exactly that text's output, then moves the start to the end of the output |
| WordMarkup.UntranslatedSpan | src/ro/undef/patois/BrowseWordsActivity.java:290-296 | `.u` text `.U` adds one untranslated-word span covering exactly that text's output, then moves the start to the end of the output |
| WordMarkup.UnopenedCloseSpansFromStart | src/ro/undef/patois/BrowseWordsActivity.java:272-273 | a `.C` with no `.c` before it spans from position 0 |
| Scores.GradeOf | src/ro/undef/patois/ScoreRenderer.java:71-77 | "good" exactly when `nextPractice >= now`; when `now - ONE_WEEK` fits a `long`, "average" exactly when the next practice is at most a week overdue, and "bad" exactly when it is older |
| Scores.GradeMonotone | src/ro/undef/patois/ScoreRenderer.java:71-77 | a later next practice never gets a worse grade |
| Scores.JustPractisedIsGood | src/ro/undef/patois/ScoreRenderer.java:71-75 | a next practice just scheduled from `now` is graded good |
| Scores.GlyphsShape | src/ro/undef/patois/ScoreRenderer.java:60-69 | a score is 1 to 4 glyphs: one diamond exactly when the clamped level is 0, otherwise that many stars |
| Scores.TopLevelShowsFourStars | src/ro/undef/patois/ScoreRenderer.java:60-66 | a level at or above 4 shows four stars |
| Scores.ScoreRenderer.constructor | src/ro/undef/patois/ScoreRenderer.java:32-38 | the renderer keeps the three styles and takes `now` as its time |
| Scores.ScoreRenderer.RenderStarsTo | src/ro/undef/patois/ScoreRenderer.java:58-82 | the builder grows by exactly the score's glyphs (1 to 4 characters), plus one span over exactly those glyphs in the style of the next practice's grade |
| Scores.ScoreRenderer.RenderScores | src/ro/undef/patois/ScoreRenderer.java:47-56 | the text is the from-score, a line break, then the to-score, and each part has its own span |
| Scores.ScoreRenderer.ResetAndRenderScore | src/ro/undef/patois/ScoreRenderer.java:40-45 | the renderer's time becomes `now` before the one score is rendered, so the grade is taken against the new time |
| JavaString.Trim | src/ro/undef/patois/Word.java:30 | the trimmed text is a slice of the input whose removed prefix and suffix consist only of characters at or below U+0020; it starts and ends with characters above U+0020, and is empty exactly when every character is at or below U+0020 |
| JavaString.TrimIdempotent | src/ro/undef/patois/Language.java:34 | trimming a trimmed name changes nothing |
| JavaString.TrimKeepsClean | src/ro/undef/patois/Language.java:34 | a name with no blank at either end is stored unchanged |
| Languages.IdHashCode | src/ro/undef/patois/Language.java:60-65 | the id hash is a Java `int` |
| Languages.IdHashCodeSmall | src/ro/undef/patois/Language.java:60-65 | for ordinary non-negative ids the hash is 629 + id, so distinct ids give distinct hashes |
| Languages.IdHashCodeNotStored | src/ro/undef/patois/Language.java:60-65 | the not-stored id -1 hashes to 629 |
| Languages.Language.constructor | src/ro/undef/patois/Language.java:39-44 | the fields hold the arguments, the name untrimmed |
| Languages.Language.Blank | src/ro/undef/patois/Language.java:46-48 | a new language has id -1, empty code and name and 0 words, so it is not in the database and is empty |
| Languages.Language.SetId | src/ro/undef/patois/Language.java:26 | only the id changes |
| Languages.Language.SetCode | src/ro/undef/patois/Language.java:30 | the code is stored exactly as given; nothing else changes |
| Languages.Language.SetName | src/ro/undef/patois/Language.java:34 | the name is stored trimmed, and becomes empty exactly when it was blank; nothing else changes |
| Languages.Language.Equals | src/ro/undef/patois/Language.java:51-58 | equal exactly when the other language is not null and has the same id |
| Languages.Language.HashCode | src/ro/undef/patois/Language.java:60-65 | the hash is an `int` |
| Languages.Language.IsInDatabase | src/ro/undef/patois/Language.java:67-69 | holds exactly when the id is not -1 |
| Languages.Language.IsEmpty | src/ro/undef/patois/Language.java:71-73 | holds exactly when the code and the name are both empty |
| Languages.LanguageEqualsContract | src/ro/undef/patois/Language.java:51-65 | `equals` is reflexive, symmetric and transitive and false for null, and equal languages have equal hash codes |
| Words.Word.constructor | src/ro/undef/patois/Word.java:36-40 | the fields hold the arguments, the name untrimmed |
| Words.Word.ForLanguage | src/ro/undef/patois/Word.java:42-44 | a new word has id -1, an empty name and the given language, so it is not in the database and is empty |
| Words.Word.SetId | src/ro/undef/patois/Word.java:26 | only the id changes |
| Words.Word.SetName | src/ro/undef/patois/Word.java:30 | the name is stored trimmed, and the word is empty exactly when the name given was blank; nothing else changes |
| Words.Word.SetLanguage | src/ro/undef/patois/Word.java:34 | only the language changes |
| Words.Word.Equals | src/ro/undef/patois/Word.java:47-54 | equal exactly when the other word is not null and has the same id |
| Words.Word.HashCode | src/ro/undef/patois/Word.java:56-61 | the hash is an `int` |
| Words.Word.IsInDatabase | src/ro/undef/patois/Word.java:63-65 | holds exactly when the id is not -1 |
| Words.Word.IsEmpty | src/ro/undef/patois/Word.java:67-69 | holds exactly when the name is empty |
| Words.WordEqualsContract | src/ro/undef/patois/Word.java:47-61 | `equals` is an equivalence and false for null, and equal words have equal hash codes |
| JavaInt.FoldSmall | src/ro/undef/patois/Word.java:59 | `(int) (id ^ (id >>> 32))` is the id itself for ids in [0, `Integer.MAX_VALUE`] |
| JavaInt.FoldMinusOne | src/ro/undef/patois/Word.java:59 | `(int) (id ^ (id >>> 32))` is 0 for the id -1 |
| WordEditor.PickTranslationLanguage | src/ro/undef/patois/EditWordActivity.java:306-335 | no language only for an empty list; if some language is used neither by the main word nor by a translation row that is not deleted, the result is such a language, with the most words among them and the first on ties; otherwise it is the first language with the most words overall |
| WordEditor.UsedInPrefix | src/ro/undef/patois/EditWordActivity.java:323-326 | a language used by a row seen so far is used by the rows |
| WordEditor.WordSaveDecision | src/ro/undef/patois/EditWordActivity.java:548-560 | an empty word is not saved; a new word is inserted; a stored word is updated exactly when the row is editable |
| WordEditor.LinkSaveDecision | src/ro/undef/patois/EditWordActivity.java:669-678 | a deleted row deletes the link exactly when both words and the link are stored; a shown row inserts the link exactly when both words are stored and the link is not |
| WordEditor.WordEntry.constructor | src/ro/undef/patois/EditWordActivity.java:435-442 | the main word's row is editable |
| WordEditor.WordEntry.SyncFromView | src/ro/undef/patois/EditWordActivity.java:534-536 | an editable row takes the typed text, trimmed, as the word's name; a read-only row keeps it |
| WordEditor.WordEntry.SaveToDatabase | src/ro/undef/patois/EditWordActivity.java:548-560 | syncs the row, then makes `WordSaveDecision`'s write, judged on the synced name and the id before saving; an insert gives the word its new id |
| WordEditor.TranslationEntry.constructor | src/ro/undef/patois/EditWordActivity.java:592-598 | a row is editable exactly when its word is not stored, is not deleted, and records whether its link is stored |
| WordEditor.TranslationEntry.ForLanguage | src/ro/undef/patois/EditWordActivity.java:600-602 | a row for a language holds a fresh, empty, not-stored word of it, with no link recorded |
| WordEditor.TranslationEntry.MarkAsDeleted | src/ro/undef/patois/EditWordActivity.java:643-647 | the row becomes deleted; nothing else changes |
| WordEditor.TranslationEntry.SetIsInDatabase | src/ro/undef/patois/EditWordActivity.java:653-655 | only the link flag changes |
| WordEditor.TranslationEntry.IsEmpty | src/ro/undef/patois/EditWordActivity.java:657-667 | a deleted row, or a stored read-only word, is never empty; any other row is empty exactly when its typed text is empty |
| WordEditor.TranslationEntry.SyncFromView | src/ro/undef/patois/EditWordActivity.java:634-641 | a deleted row changes nothing; a shown row syncs like a word row |
| WordEditor.TranslationEntry.SaveToDatabase | src/ro/undef/patois/EditWordActivity.java:669-678 | a deleted row never writes its word and makes the link decision; a shown row saves its word like a word row and then makes the link decision on the words' state after that save |
| LanguageEditor.LanguageSaveDecision | src/ro/undef/patois/EditLanguagesActivity.java:356-371 | delete exactly for a deleted, stored language; update exactly for a shown, stored, modified one; insert exactly for a shown, new, non-empty one |
| LanguageEditor.DeletedRowOnlyDeletes | src/ro/undef/patois/EditLanguagesActivity.java:367-370 | a deleted row never inserts or updates |
| LanguageEditor.BlankNewLanguageNotInserted | src/ro/undef/patois/EditLanguagesActivity.java:356-371 | a new row with a blank name is inserted exactly when its code is not empty |
| LanguageEditor.LanguageEntry.constructor | src/ro/undef/patois/EditLanguagesActivity.java:248-258 | a new entry is not modified, not deleted and has no dialog open |
| LanguageEditor.LanguageEntry.Blank | src/ro/undef/patois/EditLanguagesActivity.java:260-262 | an entry for a fresh language: not stored and empty |
| LanguageEditor.LanguageEntry.OnDeleteClick | src/ro/undef/patois/EditLanguagesActivity.java:302-309 | a language with words opens the confirmation and stays undeleted; any other is deleted at once, with no dialog open |
| LanguageEditor.LanguageEntry.MarkAsDeleted | src/ro/undef/patois/EditLanguagesActivity.java:345-350 | the row is deleted and the dialog flag cleared |
| LanguageEditor.LanguageEntry.CancelDelete | src/ro/undef/patois/EditLanguagesActivity.java:352-354 | only the dialog flag is cleared |
| LanguageEditor.LanguageEntry.SyncFromView | src/ro/undef/patois/EditLanguagesActivity.java:315-326 | a deleted row changes nothing; otherwise the row becomes modified if it changed, never un-modified, the code is stored as typed and the name trimmed |
| LanguageEditor.LanguageEntry.SaveToDatabase | src/ro/undef/patois/EditLanguagesActivity.java:356-371 | syncs the row as `SyncFromView` does, keeping the dialog flag, the word count and a deleted row's code, name and modified flag; then makes `LanguageSaveDecision`'s write on the synced flags and the id before saving; an insert gives the language its new id |
| Tasks.StepValid | src/ro/undef/patois/PersistentTask.java:33-67 | a pending result is always stored, after every event |
| Tasks.RunWithoutResult | src/ro/undef/patois/PersistentTask.java:33-56 | until the task finishes, `onFinish` is never called, nothing is pending, no result appears, and the activity is the last one attached |
| Tasks.RunWithPending | src/ro/undef/patois/PersistentTask.java:33-47 | a pending result stays pending until the first `attach`, which delivers it once; later attaches deliver nothing more |
| Tasks.FinishOnPost | src/ro/undef/patois/PersistentTask.java:59-67 | `onFinishImmediate` is always called first; with an activity attached, `onFinish` follows at once and nothing is pending; otherwise the result is stored and pending |
| Tasks.ExactlyOnceDelivery | src/ro/undef/patois/PersistentTask.java:33-67 | a task that finishes once calls `onFinish` with its result exactly once if an activity is attached when it finishes or attaches later, and never otherwise |
| Tasks.PersistentTask.constructor | src/ro/undef/patois/PersistentTask.java:25-31 | the task starts with the given activity, nothing pending and no result |
| Tasks.PersistentTask.Detach | src/ro/undef/patois/PersistentTask.java:33-35 | only the activity is cleared; the pending flag and the result are kept |
| Tasks.PersistentTask.Attach | src/ro/undef/patois/PersistentTask.java:37-47 | the activity is set and a pending result is delivered by `onFinish` once, clearing the flag, as `Step` says |
| Tasks.PersistentTask.OnPreExecute | src/ro/undef/patois/PersistentTask.java:54-56 | calls `onStart` and changes nothing else |
| Tasks.PersistentTask.OnPostExecute | src/ro/undef/patois/PersistentTask.java:59-67 | calls `onFinishImmediate`, then `onFinish` if an activity is attached, or otherwise stores the result as pending, as `Step` says |

## Left out

- The `Database` class and `PatoisDatabase.java` are not part of this model. Their queries are inputs and their writes are results.
  - `Trainer.SelectWord` takes the weight list. `Trainer.UpdatePracticeInfo` takes the `PracticeInfo` object and returns the store write.
  - The editors return the write they make.
  - `Database.insertWord` and `Database.insertLanguage` are taken to give the record the id their caller passes as `insertedId`.
- `java.util.Random` is an oracle.
  - Its `nextInt(n)` is assumed to return a value in [0, n). `Trainer.SelectWord` requires this of `pickAt`.
  - Probability claims are not modelled: selection in proportion to weight, and termination of `nextLong`'s loop with probability one.
- JavaRandom.NextLong: the do-while has no bound. The model reads a finite list of draws and reports `DrawsExhausted` when every draw in it is rejected; Java would draw again.
- Trainer.SelectWord: the 64-bit product `2L * maxWeight * numWeights` and the `(int)` cast of the budget are unbounded integers here. The weights are assumed non-negative, as the store gives them. Huge weights or lists can overflow in Java but not in the model.
- Trainer.SelectWord: the `Language` and `Direction` arguments are used only by the store query, so they are not parameters.
- `System.currentTimeMillis() / 1000` is the `now` argument of `Trainer.UpdatePracticeInfo` and of the `Scores.ScoreRenderer` members.
- Android UI is not modelled: views, dialogs, focus and selection bookkeeping, and the inflating and removal of rows.
  - `TextAppearanceSpan` and `SpannableStringBuilder` are `(style, start, end)` records over a string.
  - The concrete style resources are parameters.
  - The "no translations" string resource is a parameter.
- LanguageEditor.LanguageEntry.SyncFromView: the `changed` flag stands for the reference comparison of the typed text with the stored code and name (`!=` on Java strings).
- WordEditor.PickTranslationLanguage works on id and word-count snapshots of the languages and translation rows. `Language.equals` compares ids, so this is what it decides on. The result is an index into the list.
- WordEditor: `TranslationEntry` extends `WordEntry` in Java. Here they are two classes sharing `WordSaveDecision`.
- Words.Word.Equals and Languages.Language.Equals take an argument of their own class or null. `equals` with an object of another class, which Java answers with false, is not expressible.
- `Word.getIdString` and `Language.getIdString` (`Long.toString`) are not modelled.
- `PersistentTask.doInBackground`, `getActivity` and the threading of `AsyncTask` are not modelled.
  - The hooks `onStart`, `onFinishImmediate` and `onFinish` are recorded in a trace instead of being called.
  - Activities and results are type parameters.
- `WordsExporter` and the file, backup and import tasks are not part of this model.
- Java `char` and `String.length()` count UTF-16 code units, while a Dafny `char` is one Unicode scalar value. For text holding a character outside the Basic Multilingual Plane, the model's lengths and offsets differ from Java's. This affects the span offsets of `WordMarkup.ApplyWordMarkup` and `Scores.ScoreRenderer.RenderStarsTo`, and the lengths in `Csv.QuotedLength`.
- Csv.CSVWriter.WriteRow: `writeRow` throws `IOException`, and Java can leave part of a row written. The model's output is a string, and appending to it never fails.
- Strings are never null in the model. A null cell, word name, language code or typed text makes Java throw a `NullPointerException`, which is not modelled.
