# Karaoke lyric re-timing, modelled in Dafny

This project models the re-timing engine of whisper-karaoke-video-generator.
Its input is a karaoke subtitle file in the ASS format and a corrected lyrics
text. It writes a new ASS file in which every corrected line becomes one
`Dialogue:` event, with start and end times rebuilt from the old events and
the `{\kfNN}` duration tags of their glyphs. Three source files are modelled:

- `update_lyric.py`. The centisecond timestamp class `AssTime`, and
  `replace_ass_lyrics` in its stages:
  - the header split at `[Events]`;
  - the tokenizer that turns each dialogue's text into
    `[glyph, dialogue_index, tag]` records;
  - the length check with its misalignment report and confirmation;
  - the re-glyphing that writes the corrected characters over the tokens and
    groups them into rows;
  - the start- and end-time synthesis for each row;
  - the rebuilt dialogue lines after the header.
- `utils/sequence_diff.py`. `find_misalignment_intervals`, which filters
  difflib's matching blocks and reports an interval each time the accepted
  offset changes.
- `ass_to_txt.py`. The filter that takes the text of the `Dialogue:` lines
  after `[Events]`, removes `{...}` groups, strips it and drops empty lines.

Modules, in dependency order:

- `Wrappers` (`wrappers.dfy`): `Option` and `Result`.
- `PyText` (`py_text.dfy`): the Python string operations the source uses.
  These are `strip` with Python's whitespace set, `startswith`, `find`,
  `split` with and without `maxsplit`, `join`, `replace(c, '')` and negative
  indexing.
- `Digits` (`digits.dfy`): `int()` on ASCII digit strings, `str(n)`, `:02d`
  and `re.search(r'\d+', …)`.
- `AssTimes` (`ass_time.dfy`): the class `AssTime`, with its field
  `totalHundredths` updated in place, and the pure functions `Format` and
  `ParseTime` that specify it.
- `Lyrics` (`lyric_types.dfy`): tokens, time pairs and the exceptions the
  source raises.
- `Tokenizer` (`tokenizer.dfy`): the header split and the scanner. Both are
  specified by functions and implemented by methods with loops.
- `Reglyph` (`reglyph.dfy`): the re-glyphing loop. It runs over the token
  sequence, and rows are index spans into it. The source's rows hold the same
  token objects that a later space may still change (update_lyric.py:135),
  and spans keep that sharing.
- `Boundaries` (`boundaries.dfy`): row start and end times, with the walks
  and the tag accumulation as methods.
- `SequenceDiff` (`sequence_diff.dfy`): the interval finder.
- `AssToTxt` (`ass_to_txt.dfy`): the lyric extractor.
- `ReplaceLyrics` (`replace_lyrics.dfy`): the text rebuild and the whole
  `replace_ass_lyrics` call. It is the function `Replace`, implemented step
  by step by the method `ReplaceAssLyrics`.

The call ends in one of three ways: `Written(lines)` for the new file's
lines, `Declined(intervals)` for a declined confirmation, or `Failed(e)` for
the exception raised. Python's exceptions become the `Error` values
`NoEventsSection`, `MissingField`, `BadTime`, `NoPreviousToken`,
`TagWithoutDigits`, `NoTemplateLine` and `FirstBlockShifted`.

Some behaviours of the code that the model keeps:

- **A single substituted character gives no interval.** For `abcdef`
  against `abXdef` the matching blocks are (0,0,2), (3,3,3) and (6,6,0).
  Every offset is 0, so the finder reports nothing
  (`SequenceDiff.SubstitutionBlocks`, `SequenceDiff.SubstitutionNoInterval`).
- **The recorded end is reused only before a later dialogue.** A row's end
  is the recorded end of its dialogue only when the next token belongs to a
  later dialogue (update_lyric.py:175). At the end of the song, as anywhere
  else, the end is synthesised from a start plus tag durations
  (`Boundaries.EndTimeRecorded`, `Boundaries.EndTimeOneDialogue`).
- **A one-token row counts from the token before it.** For a row of one
  token, `lyric_words[word_index - t]` with `t = 2` indexes from before the
  row, and at the start of the list it wraps to the last token
  (update_lyric.py:179-186). So in `{\kf30}A{\kf70}B`, split into the rows
  `A` and `B`, the row `A` runs from 1.00 to 2.00, counting 70 + 30, and the
  row `B` runs from 1.30 to 2.00 (`Boundaries.InteriorSplit`,
  `Boundaries.WorkedSplitFirst`, `Boundaries.WorkedSplitSecond`).
- **Times may be negative.** Nothing checks the sign of a time, and
  Python's floor division keeps `str` and the string constructor exact
  inverses for every integer. The model covers all integers
  (`AssTimes.ParseFormat`).
- **A shifted first block raises.** When the block at index 0 is accepted
  with a non-zero offset, utils/sequence_diff.py:37 reads `.a` from a dict
  and raises. The model reports this as `None` and `FirstBlockShifted`
  (`SequenceDiff.FailsExactly`).

## Model

| member | source | states |
|---|---|---|
| AssTimes.AssTime.constructor | update_lyric.py:11-12 | An `AssTime` built from an int holds exactly that number of hundredths. |
| AssTimes.AssTime.FromString | update_lyric.py:13-16 | The string constructor fails exactly when the string is not `h:m:s.c` with four integer fields. Otherwise the fresh object holds `(h*3600 + m*60 + s)*100 + c`. |
| AssTimes.AssTime.Add | update_lyric.py:18-19 | `add(x)` raises the stored value by exactly `x` and changes nothing else. |
| AssTimes.AssTime.ToString | update_lyric.py:21-30 | `str(t)` parses back through the string constructor to the current value. |
| AssTimes.AssTime.Copy | update_lyric.py:32-33 | `copy()` is a fresh object with the same value. |
| AssTimes.CopyAndAddTwice | update_lyric.py:163-167 | Two adds on a copy give the copy the original plus the sum of the two deltas, and leave the original unchanged. |
| AssTimes.ParseFormat | update_lyric.py:11-30 | For every integer `n`, parsing the formatted `n` gives back `n`. |
| AssTimes.FormatParse | update_lyric.py:14-30 | A string with unpadded hours, two-digit minutes and seconds below 60 and two-digit hundredths parses, and formats back to the same string. |
| AssTimes.FormatOf | update_lyric.py:21-30 | The formatted time of `H:M:S.C`, with `M` and `S` below 60 and `C` below 100, is the digits of `H` followed by the three two-digit fields. |
| AssTimes.FormatLacksComma | update_lyric.py:21-30 | A formatted time holds no comma, so it stays one field of a dialogue line. |
| AssTimes.SplitTime | update_lyric.py:14-15 | Splitting `h:mm:ss.cc` at `:` and then at `.` gives back its four fields when they hold no separator. |
| AssTimes.ParseTimeOf | update_lyric.py:14-16 | Joining four parseable separator-free fields parses to their time value. |
| AssTimes.ParseTimeFields | update_lyric.py:14-16 | A string that splits into three fields, the last into two, all parseable, parses to their time value. |
| AssTimes.ParsePad2 | update_lyric.py:30 | `int()` reads a `:02d` field back as its value. |
| Digits.ParseDigits | update_lyric.py:16 | `int()` of a non-empty digit string is its decimal value. |
| Digits.ParseIntToString | update_lyric.py:16 | `int(str(n)) == n` for every integer, negative ones included. |
| Digits.ParseNatString | update_lyric.py:30 | `int()` reads the decimal digits of a natural number back as that number. |
| Digits.ParseNegString | update_lyric.py:30 | `int()` reads `-` followed by the digits of `m` as `-m`. |
| Digits.NatToDigits | update_lyric.py:30 | `str(n)` of a natural number is a non-empty digit string with no leading zero. |
| Digits.ValueOfNatToDigits | update_lyric.py:30 | The digits of `n` have the value `n`. |
| Digits.NatToDigitsOfValue | update_lyric.py:30 | A digit string without a leading zero is the `str` of its value. |
| Digits.Pad2 | update_lyric.py:30 | `:02d` of a number below 100 is two digits with that value. |
| Digits.FirstDigitRun | update_lyric.py:167 | The digit search fails exactly when the tag holds no digit. |
| Digits.FirstDigitRunOf | update_lyric.py:167 | `re.search(r'\d+', …)` finds the first maximal run of digits, after a digit-free prefix. |
| Digits.DigitPrefix | update_lyric.py:167 | The leading digit run is a digit prefix that stops at the first non-digit. |
| PyText.Strip | update_lyric.py:45 | A stripped string neither starts nor ends with whitespace. |
| PyText.StripCut | update_lyric.py:45 | `strip()` removes a leading and a trailing run of whitespace and keeps the middle slice. |
| PyText.StripIdempotent | update_lyric.py:45 | Stripping twice is stripping once. |
| PyText.SplitN | update_lyric.py:70 | `split(sep, n)` gives between 1 and `n + 1` parts. |
| PyText.SplitNParts | update_lyric.py:70 | Every part but the last holds no separator, and the last holds none when fewer than `n + 1` parts came out. |
| PyText.JoinSplitN | update_lyric.py:70 | Joining the parts of `split(sep, n)` gives back the string. |
| PyText.SplitNJoin | update_lyric.py:200 | Splitting a join of separator-free fields with the right `maxsplit` gives back the fields. |
| PyText.Split | update_lyric.py:14-15 | `split(sep)` gives at least one part, and no part holds the separator. |
| PyText.SplitJoin | ass_to_txt.py:39 | Splitting a join of separator-free lines gives back the lines. |
| PyText.IndexOf | update_lyric.py:70 | `find(c)` is the first position of `c`, or fails exactly when `c` does not occur. |
| PyText.Without | update_lyric.py:102-103 | `replace(c, '')` leaves no `c` and never lengthens the string. |
| PyText.PyIndex | update_lyric.py:134 | A Python index in `[-n, n)` denotes the position `i` or `i + n`. |
| Tokenizer.FindEventsFirst | update_lyric.py:52-56 | The search finds the first line whose stripped form starts with `[Events]`, and fails exactly when there is none. |
| Tokenizer.FindEventStart | update_lyric.py:52-56 | The loop with `break` returns the index the search specifies. |
| Tokenizer.HeaderSplit | update_lyric.py:52-62 | With no `[Events]` line it raises. Otherwise header and dialogues concatenate to the file, with the header the first `event_start + 2` lines (all of them when the file is shorter). |
| Tokenizer.SplitHeader | update_lyric.py:51-62 | The imperative split returns what `HeaderSplit` specifies. |
| Tokenizer.ParseDialogueFields | update_lyric.py:70-72 | A dialogue line is accepted exactly when it has ten fields and parseable start and end times. It then yields those two times and its stripped text field. |
| Tokenizer.ParseDialogue | update_lyric.py:70-72 | A rejected dialogue line fails with a missing field or a bad time at its own index. |
| Tokenizer.SpaceAfterLast | update_lyric.py:83 | `lyric_words[-1][0] += ' '` appends a space to the last token's glyph and changes nothing else. |
| Tokenizer.BraceGroupAt | update_lyric.py:89-94 | A group's tag runs to the first `}`, and scanning resumes after it (or at the end when there is none). |
| Tokenizer.SkipTag | update_lyric.py:90-93 | The inner loop ends at the first `}` at or after `t`, or at the end of the text. |
| Tokenizer.ScanGroup | update_lyric.py:89-95 | A `{tag}` group sets the pending token's tag and emits nothing. |
| Tokenizer.LaterTagWins | update_lyric.py:89-95 | Of two groups in a row, the later one's tag is the one kept. |
| Tokenizer.ScanLine | update_lyric.py:73-98 | The character loop of one dialogue produces what the scanner function specifies. |
| Tokenizer.TokenizeDialogues | update_lyric.py:69-98 | The loop over dialogue lines produces the tokens and time rows that `Tokenize` specifies, or its error. |
| Tokenizer.ScanExtends | update_lyric.py:73-98 | Scanning a line keeps the index and tag of every earlier token and keeps its glyph non-empty. It appends only tokens of that line, each with a non-empty glyph. |
| Tokenizer.TokenizeIndexed | update_lyric.py:69-98 | Every token has a non-empty glyph and the index of a dialogue line. Indices never decrease along the tokens, and there is one time row per dialogue line. |
| Tokenizer.TokenizeTimes | update_lyric.py:69-71 | Time row `k` holds the recorded start and end of dialogue line `k`. |
| Tokenizer.ScanIgnoringSpaces | update_lyric.py:76-98 | With `ignore_space`, scanning cannot fail and appends exactly one token per non-space character outside groups, in order. Each has that character as glyph and the line's index. |
| Tokenizer.ScanSkippedSpace | update_lyric.py:79-81 | With `ignore_space`, a space yields no token. |
| Tokenizer.ScanSkippedGroup | update_lyric.py:89-95 | With `ignore_space`, a group yields no token. |
| Tokenizer.ScanLetter | update_lyric.py:96-98 | With `ignore_space`, any other character yields one token with that glyph. |
| Tokenizer.ScanTags | update_lyric.py:76-98 | With `ignore_space`, the token emitted for each non-space character outside groups carries the text of the last group since the previous such character, or no tag when there was none. |
| Tokenizer.ScanLetterTags | update_lyric.py:96-98 | With `ignore_space`, a character that is neither a space nor `{` is emitted with the pending tag, and the next token starts with no tag. |
| Reglyph.SpaceBefore | update_lyric.py:133-136 | A space in the corrected line keeps the number of tokens and leaves every glyph non-empty. |
| Reglyph.SpaceStep | update_lyric.py:133-136 | The in-place update for a space is the one `SpaceBefore` specifies. |
| Reglyph.PlaceCharsSpace | update_lyric.py:133-136 | A space consumes no token. |
| Reglyph.SpaceBeforePlaced | update_lyric.py:133-136 | A space changes no token's letters, index or tag. |
| Reglyph.NewGlyph | update_lyric.py:137-142 | The new glyph is never empty. |
| Reglyph.LettersNewGlyph | update_lyric.py:137-142 | Whatever spaces the old glyph had around it, the new glyph's only letter is the corrected character. |
| Reglyph.LetterStep | update_lyric.py:137-143 | The in-place update for a letter overwrites exactly the current token's glyph. |
| Reglyph.PlaceCharsLetter | update_lyric.py:137-144 | A letter overwrites the current token and moves on to the next. |
| Reglyph.NewGlyphPlaced | update_lyric.py:137-144 | Overwriting one token is a placement of that one letter. |
| Reglyph.PlaceLine | update_lyric.py:130-144 | The loop over one corrected line, with its `break`, computes what `PlaceChars` specifies. |
| Reglyph.PlaceCharsSpec | update_lyric.py:130-144 | One line advances the word index by its non-space count, capped at the number of tokens. The tokens in between get its letters in order, and all others keep theirs. |
| Reglyph.PlaceLinesRows | update_lyric.py:127-144 | Row `j` is the span of tokens from the capped letter count of the lines before `j` to that of the lines up to `j`. |
| Reglyph.PlaceLinesPlaced | update_lyric.py:127-144 | All lines together place their letters into consecutive tokens from the start, and excess letters are dropped. |
| Reglyph.ReplaceGlyphs | update_lyric.py:124-144 | The re-glyphing loop computes what `Regroup` specifies. |
| Reglyph.RegroupSpec | update_lyric.py:124-144 | The first `min(letters, tokens)` tokens get the corrected letters in order. Every token keeps its index and tag, and rows are as in `PlaceLinesRows`. |
| Reglyph.RowsTile | update_lyric.py:124-144 | There is one row per corrected line. The rows are consecutive spans that start at token 0 and end at `min(letters, tokens)`. |
| Boundaries.Duration | update_lyric.py:165-167 | A tag adds a non-negative amount, and the only failure is a tag without digits. |
| Boundaries.DurationSpec | update_lyric.py:165-167 | The tag lookup fails exactly when the tag is non-empty and holds no digit. |
| Boundaries.Kf | update_lyric.py:167 | `\kf` followed by digits adds their value. |
| Boundaries.KfTwo | update_lyric.py:167 | `\kf` followed by two digits adds their two-digit value. |
| Boundaries.TagKf50 | update_lyric.py:167 | `\kf50` adds 50. |
| Boundaries.TagKf30 | update_lyric.py:167 | `\kf30` adds 30. |
| Boundaries.TagKf70 | update_lyric.py:167 | `\kf70` adds 70. |
| Boundaries.TagSum | update_lyric.py:164-167 | A successful sum of tag durations is non-negative. |
| Boundaries.TagSumStops | update_lyric.py:164-167 | The first tag without digits ends the accumulation with its error. |
| Boundaries.AccumulateTags | update_lyric.py:163-167 | The copy-and-add loop yields the base plus the tag sum, or the sum's error. |
| Boundaries.RunBefore | update_lyric.py:159-161 | The backward walk stops at or before its start, at -1 at the latest. |
| Boundaries.RunBeforeSpec | update_lyric.py:159-161 | Everything after the stopping point belongs to the dialogue, and the stopping token, if any, does not. |
| Boundaries.WalkBack | update_lyric.py:159-161 | The `while t >= 0` loop stops where `RunBefore` says. |
| Boundaries.StartTimeSpec | update_lyric.py:158-170 | With no earlier token of the same dialogue, a row starts at that dialogue's recorded start. Otherwise it starts there plus the durations of the earlier same-dialogue tokens, or fails with their error. |
| Boundaries.ComputeStart | update_lyric.py:158-170 | The start-time code computes what `StartTime` specifies. |
| Boundaries.EndTimeRecorded | update_lyric.py:173-176 | When the next token belongs to a strictly later dialogue, the row ends at its last dialogue's recorded end. |
| Boundaries.Reach | update_lyric.py:179-181 | The end walk ends at `t = 2` or later, and within the row's length unless it never moved. |
| Boundaries.ReachSpec | update_lyric.py:179-181 | The tokens the end walk passes over belong to the row's last dialogue, and it stops at one that does not, or at the row's length. |
| Boundaries.WalkReach | update_lyric.py:179-181 | The `while t < len(word_row)` loop stops where `Reach` says. |
| Boundaries.EndBase | update_lyric.py:179-182 | For a one-token row the base index is the one before the row (Python index -1 at the start). For longer rows it stays inside the row. |
| Boundaries.EndBaseSpec | update_lyric.py:179-182 | From the base on, the row's tokens belong to its last dialogue, and a base inside the row is the last token of another dialogue. |
| Boundaries.ComputeEnd | update_lyric.py:173-187 | The end-time code computes what `EndTime` specifies. |
| Boundaries.EndTimeOneDialogue | update_lyric.py:178-187 | A multi-token row of one dialogue, with no later dialogue after it, ends at that dialogue's start plus the durations of all its tokens. |
| Boundaries.EndTimeSingle | update_lyric.py:178-187 | A one-token row with no later dialogue after it ends at the start of the preceding token's dialogue plus both tokens' durations. The preceding token wraps to the last one at the start of the list. |
| Boundaries.WholeDialogueRow | update_lyric.py:158-176 | A row that holds exactly one whole dialogue, followed by a later one, gets that dialogue's recorded times unchanged. |
| Boundaries.CleanEdit | update_lyric.py:158-187 | A row of both tokens of a final dialogue whose tags add up to its length keeps its recorded times. |
| Boundaries.InteriorSplit | update_lyric.py:158-187 | Splitting a two-token dialogue into two rows: the first row starts at the dialogue start and ends after both durations, and the second starts after the first duration and ends after both. |
| Boundaries.WorkedCleanEdit | update_lyric.py:158-187 | `{\kf50}A{\kf50}B` from 1.00 to 2.00, kept as one row, keeps 1.00 to 2.00. |
| Boundaries.WorkedSplitFirst | update_lyric.py:158-187 | In `{\kf30}A{\kf70}B` from 1.00 to 2.00, the row `A` runs from 1.00 to 2.00. |
| Boundaries.WorkedSplitSecond | update_lyric.py:158-187 | In the same dialogue, the row `B` runs from 1.30 to 2.00. |
| ReplaceLyrics.CleanLinesClean | update_lyric.py:45 | The corrected lines are non-empty, stripped and no more numerous than the raw lines. |
| ReplaceLyrics.CleanLinesFixed | update_lyric.py:45 | Lines that are already non-empty and stripped pass through unchanged. |
| ReplaceLyrics.CleanLinesIdempotent | update_lyric.py:45 | Cleaning the cleaned lines changes nothing. |
| ReplaceLyrics.SqueezedIsWithout | update_lyric.py:103 | Removing the spaces line by line and joining equals joining and then removing the spaces. |
| ReplaceLyrics.RenderRow | update_lyric.py:189-194 | The `StringIO` loop writes what `Render` specifies: `{tag}` for each non-empty tag, then the glyph. |
| ReplaceLyrics.VisibleGroup | update_lyric.py:192-193 | A written `{tag}` is invisible to a later scan. |
| ReplaceLyrics.RenderVisible | update_lyric.py:189-194 | With the groups removed, a rebuilt text is the row's glyphs in order. |
| ReplaceLyrics.RenderRereads | update_lyric.py:189-194 | Scanning a rebuilt text with `ignore_space` yields one token per non-space glyph character of the row. |
| ReplaceLyrics.TagsGlyph | update_lyric.py:189-193 | A written glyph of one non-space character hands the pending tag to that character. |
| ReplaceLyrics.TagsSpaces | update_lyric.py:189-193 | Written spaces leave the pending tag alone. |
| ReplaceLyrics.TagsGroup | update_lyric.py:191-192 | A written non-empty tag in braces becomes the pending tag. |
| ReplaceLyrics.RenderTags | update_lyric.py:189-193 | The tags read from a rebuilt text of one-letter glyphs are the row's tags, with an empty tag read as none. |
| ReplaceLyrics.RenderRereadsTags | update_lyric.py:189-194 | Scanning a rebuilt text of one-letter glyphs with `ignore_space` gives each token back its tag, an empty tag reading as none. |
| ReplaceLyrics.TemplateOf | update_lyric.py:147-148 | The fields of the first dialogue line form a template whose first nine fields hold no comma. |
| ReplaceLyrics.Fields | update_lyric.py:196-198 | Filling in start, end and text keeps ten fields. |
| ReplaceLyrics.EventLineFields | update_lyric.py:195-200 | A new line splits back into ten fields. Fields 1 and 2 are the formatted times, field 9 is the text, and the rest are the template's. |
| ReplaceLyrics.EventLineRereads | update_lyric.py:195-200 | A new line parses as a dialogue line to exactly its times and its stripped text. |
| ReplaceLyrics.LineRereads | update_lyric.py:196-200 | A template filled with parseable, comma-free times parses back to those times. |
| ReplaceLyrics.Lines | update_lyric.py:195-201 | There is one written line per cue, in order. |
| ReplaceLyrics.LinesParse | update_lyric.py:195-201 | Every written line parses as a dialogue line. |
| ReplaceLyrics.RowCueOf | update_lyric.py:158-198 | A row's cue is its start and end time and its rebuilt text. It fails with the start's error first, then the end's. |
| ReplaceLyrics.EventsShape | update_lyric.py:152-201 | A successful loop appends exactly one cue per non-empty row, after those already written. |
| ReplaceLyrics.EventsSkip | update_lyric.py:154-155 | An empty row is skipped and does not move the word index. |
| ReplaceLyrics.EventsStep | update_lyric.py:153-201 | A non-empty row starts at the current word index. Its cue is appended, or its error ends the loop. |
| ReplaceLyrics.NthFilled | update_lyric.py:153-155 | The non-empty row number `m` lies at or after the start and is non-empty. |
| ReplaceLyrics.NthFilledOrder | update_lyric.py:153-155 | Non-empty rows are numbered in row order. |
| ReplaceLyrics.EventsRows | update_lyric.py:152-201 | After those already written, cue number `m` is the cue of the non-empty row number `m`. |
| ReplaceLyrics.EventsRowsFirst | update_lyric.py:152-201 | The first non-empty row from the current one gives the next cue after those already written. |
| ReplaceLyrics.LinesRows | update_lyric.py:152-201 | Line number `m` written for the cues is the line of the cue of the non-empty row number `m`. |
| ReplaceLyrics.NewLinesRows | update_lyric.py:152-201 | Each new dialogue line `m` is built from the times and the rebuilt text of the non-empty row number `m`. |
| ReplaceLyrics.NewDialogues | update_lyric.py:150-201 | The loop over rows builds what `NewLines` specifies. |
| ReplaceLyrics.RegroupFits | update_lyric.py:124-144 | After re-glyphing, tokens keep their dialogue indices, and the rows tile the tokens from 0. |
| ReplaceLyrics.TokenizedFits | update_lyric.py:69-98 | Tokenizing gives indexed tokens, one time row per line, and a template from the first line. |
| ReplaceLyrics.Rewrite | update_lyric.py:124-204 | After the check the call never declines. It fails on `dialogue_lines[0]` when there are no dialogue lines. |
| ReplaceLyrics.ReplaceAssLyrics | update_lyric.py:39-204 | The stage-by-stage method returns what `Replace` specifies. |
| ReplaceLyrics.NoEventsNoOutput | update_lyric.py:57-58 | Without an `[Events]` line the call raises and writes nothing. |
| ReplaceLyrics.NoDialogueNoOutput | update_lyric.py:147 | With no dialogue lines after the header nothing is written. |
| ReplaceLyrics.ReplaceEven | update_lyric.py:106-124 | When the letter counts agree, the blocks and the answer play no part, and the call goes straight to the rewrite. |
| ReplaceLyrics.ReplaceUneven | update_lyric.py:106-124 | When they differ, the call fails on a shifted first block, rewrites if confirmed, and otherwise declines with the intervals found. |
| ReplaceLyrics.Gate | update_lyric.py:106-124 | The call declines exactly when the counts differ, the finder returns a list of intervals (possibly empty) and the answer is no, and it then reports that list. With equal counts no blocks and no answer change the result. |
| ReplaceLyrics.FindEventsAgree | update_lyric.py:52-56 | Two files that agree up to the first `[Events]` line find it at the same place. |
| ReplaceLyrics.ScanNeverFails | update_lyric.py:79-81 | With `ignore_space` no text makes the scanner fail. |
| ReplaceLyrics.RereadAll | update_lyric.py:69-98 | Dialogue lines that all parse tokenize without error under `ignore_space`. |
| ReplaceLyrics.RewriteShape | update_lyric.py:124-204 | A written file is the header followed by at most one line per corrected line, each of them parseable. |
| ReplaceLyrics.OutputRereads | update_lyric.py:51-98 | Such a file splits at the same header and tokenizes without error. |
| ReplaceLyrics.WrittenRereads | update_lyric.py:39-204 | A written file keeps the old header and holds at most one event per corrected line. Reading it again splits at the same header and tokenizes without error. |
| SequenceDiff.FindMisalignmentIntervals | utils/sequence_diff.py:20-50 | The loop over the blocks returns what `FindMisalignment` specifies. |
| SequenceDiff.FailsExactly | utils/sequence_diff.py:36-39 | The call fails exactly when the block at index 0 is accepted with a non-zero offset. |
| SequenceDiff.NeverFailsAfterFirst | utils/sequence_diff.py:36-37 | From the second block on the loop cannot fail. |
| SequenceDiff.MisalignExtends | utils/sequence_diff.py:47 | Intervals are only ever appended. |
| SequenceDiff.MisalignSum | utils/sequence_diff.py:36-48 | The reported offsets add up to the final `prev_offset`. |
| SequenceDiff.MisalignExact | utils/sequence_diff.py:26-48 | Started with `prev_offset` equal to the offset of the last accepted block so far, the loop appends exactly the gaps before the shifted blocks that remain, in block order. |
| SequenceDiff.MisalignStep | utils/sequence_diff.py:27-48 | One turn of the loop appends the gap before the block when the block is accepted and moves the offset, nothing otherwise, and leaves `prev_offset` at the offset of the last accepted block. |
| SequenceDiff.FindMisalignmentExact | utils/sequence_diff.py:20-50 | The call fails exactly when block 0 is accepted with a non-zero offset. Otherwise it returns exactly the gaps before the blocks from index 1 on that are accepted and whose offset differs from that of the last accepted block before them, in block order. |
| SequenceDiff.GapBeforeIs | utils/sequence_diff.py:36-46 | The gap before a block is fixed completely by the block, the raw block before it and the running offset. |
| SequenceDiff.GapsSound | utils/sequence_diff.py:36-47 | Every reported interval is the gap before a shifted block. |
| SequenceDiff.GapsComplete | utils/sequence_diff.py:36-47 | The gap before every shifted block from index 1 on is reported. |
| SequenceDiff.FinalIsRunning | utils/sequence_diff.py:24-48 | The final `prev_offset` is the offset of the last accepted block, or 0 when there is none. |
| SequenceDiff.FinalOffset | utils/sequence_diff.py:24-48 | The final `prev_offset` is 0 or an accepted offset, within the tolerance. |
| SequenceDiff.FindMisalignmentSpec | utils/sequence_diff.py:26-50 | The intervals have non-zero offsets whose sum is the final offset: the offset of the last accepted block, or 0, so at most the tolerance in size. An interval is reported exactly when it is the gap before a shifted block. |
| SequenceDiff.GapIsSlice | utils/sequence_diff.py:37-46 | An interval's two texts are exactly the slices of `ref` and `pred` between its bounds. |
| SequenceDiff.GapsInOrder | utils/sequence_diff.py:26-47 | When every block ends before the next one starts, the gaps from block `i` on start after block `i - 1` ends, and each ends before the next one starts, in both strings. |
| SequenceDiff.GapsCons | utils/sequence_diff.py:36-47 | The gap before block `i`, if any, bounded by blocks `i - 1` and `i`, followed by the ordered gaps after block `i`, is an ordered list starting after block `i - 1`. |
| SequenceDiff.ValidChained | utils/sequence_diff.py:21 | Matching blocks as difflib returns them are chained: each ends before every later one starts, in both strings. |
| SequenceDiff.FindMisalignmentInOrder | utils/sequence_diff.py:20-50 | For difflib's blocks the reported intervals come in block order and never overlap, in both strings. |
| SequenceDiff.SkippedBlock | utils/sequence_diff.py:27-34 | A block that is too short or too far off neither adds an interval nor changes `prev_offset`. |
| SequenceDiff.NoShiftNoInterval | utils/sequence_diff.py:26-50 | Blocks that all have offset 0 produce no interval. |
| SequenceDiff.Identical | utils/sequence_diff.py:20-50 | A string against itself, with its two blocks, gives no interval. |
| SequenceDiff.SubstitutionBlocks | utils/sequence_diff.py:21 | (0,0,2), (3,3,3) and (6,6,0) are valid matching blocks of `abcdef` against `abXdef`. |
| SequenceDiff.SubstitutionNoInterval | utils/sequence_diff.py:26-50 | With those blocks no interval is reported, whatever the two limits. |
| SequenceDiff.Slice | utils/sequence_diff.py:44-45 | Python's slice is the plain slice for ordered bounds within the string, and empty when the bounds cross. |
| AssToTxt.AssToTxtLines | ass_to_txt.py:7-35 | The loop over the lines collects what `Lyrics` specifies. |
| AssToTxt.CloseBrace | ass_to_txt.py:29 | The shortest match ends at the first `}` on the same line, and fails only when every `}` is beyond a newline. |
| AssToTxt.RemoveGroupsClean | ass_to_txt.py:29 | After `re.sub(r"\{.*?\}", "", …)` no `{` is followed on its line by a `}`. |
| AssToTxt.UnclosedStaysUnclosed | ass_to_txt.py:29 | Removing groups cannot bring a `}` into reach. |
| AssToTxt.RemoveGroupsLacks | ass_to_txt.py:29 | Removing groups brings in no character the text did not hold. |
| AssToTxt.BeforeEvents | ass_to_txt.py:13-18 | Lines before the first `[Events]` line, and that line itself, contribute nothing. |
| AssToTxt.NeverInEvents | ass_to_txt.py:13-18 | Without an `[Events]` line nothing is collected. |
| AssToTxt.InEvents | ass_to_txt.py:10-35 | Inside the events section each line contributes its lyric, if it has one, in order. |
| AssToTxt.HeaderIsNoLyric | ass_to_txt.py:13-15 | An `[Events]` line is never a lyric. |
| AssToTxt.LyricsAfterEvents | ass_to_txt.py:10-35 | The lyrics are those of the lines after the first `[Events]` line, in order. |
| AssToTxt.NoEventsNoLyrics | ass_to_txt.py:13-18 | Without an `[Events]` line the output is empty. |
| AssToTxt.TextAfterNinthComma | ass_to_txt.py:23-26 | A `Dialogue:` line yields everything after its ninth comma, commas in the text included, with groups removed and stripped. |
| AssToTxt.ShortLineNoLyric | ass_to_txt.py:23-25 | A line with fewer than ten fields yields nothing. |
| AssToTxt.TextClean | ass_to_txt.py:29-32 | A non-empty cleaned text is stripped and holds no group. |
| AssToTxt.LyricClean | ass_to_txt.py:20-35 | Every lyric is non-empty, stripped and free of groups. |
| AssToTxt.LyricsClean | ass_to_txt.py:10-35 | Every output line is non-empty, stripped and free of groups. |
| AssToTxt.LyricLacks | ass_to_txt.py:23-32 | A lyric holds no character its line did not. |
| AssToTxt.KeptAtMostDialogues | ass_to_txt.py:20-35 | Only `Dialogue:` lines yield lyrics, at most one each. |
| AssToTxt.LyricsAtMostDialogues | ass_to_txt.py:10-35 | There are at most as many lyrics as `Dialogue:` lines after `[Events]`. |
| AssToTxt.OutputLines | ass_to_txt.py:39 | When no stripped line has a line break left in it, the text written, split at newlines, gives back the lyrics. |

## Left out

- File reading and writing, and every `print`: update_lyric.py:36, 44, 48-49, 104-105, 107, 114-118, 121 and 206-210; ass_to_txt.py:4-5 and 38-41. Both files are sequences of lines here, and the result is the list of lines written.
- The `input()` prompt (update_lyric.py:119-120) is the boolean `confirm`, true for the answer `y` in either case.
- difflib's `SequenceMatcher` is a foreign library. Its matching blocks are an input of `Replace`, and `ValidBlocks` states the properties its documentation promises.
- `replace_ass` and the `__main__` blocks only fix file names and call the modelled functions.
- main.py, create_video.py and convert_chinese.py are not part of this model: speech recognition, floating-point times and the media pipeline.
- Regular expressions are explicit scanners: `FirstDigitRun` for `re.search(r'\d+', …)` and `RemoveGroups` for `re.sub(r"\{.*?\}", "", …)`.
- Digits.ParseInt: `int()` accepts ASCII digits with an optional sign and surrounding whitespace only. Unicode digits and `_` separators are not modelled, so a string holding them is rejected here.
- Digits.FirstDigitRun: `\d` on a Python `str` matches every Unicode decimal digit, but the model takes ASCII `0`-`9` only. A tag such as `\kf` followed by Arabic-Indic digits adds their value in the source and gives `TagWithoutDigits` here.
- ReplaceLyrics.RenderRereadsTags: the tags read back are stated for rows whose glyphs each hold one non-space character, as re-glyphing leaves every token it places. A glyph of several letters hands its tag to the first one only.
- PyText.IsSpace: whitespace follows `str.isspace` for the code points listed, without a Unicode database.
- Outside the `AssTime` class, times are plain integers in `TimePair`. The start and end of a row are computed with an `AssTime` object, copied and added to, only in `Boundaries.AccumulateTags`.
- Rows are index spans into the token sequence, not lists of shared token objects. A space that changes a token already placed in an earlier row (update_lyric.py:135) changes the token that span covers, as in the source.
- ReplaceLyrics.WrittenRereads: the reread of the written file is stated with `ignore_space` on, whatever flag the call itself used.
