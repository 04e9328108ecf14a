/** `replace_ass_lyrics` (update_lyric.py:38-204) from end to end: the
    corrected lines of the text file, the header split and the tokens of
    the dialogue lines, the length check and its confirmation, the
    re-glyphing, and one new dialogue line per non-empty row written after
    the header. Both files are sequences of lines here, the answer to the
    confirmation prompt is a boolean, and difflib's matching blocks are an
    input. */
module ReplaceLyrics {
  import opened Wrappers
  import opened PyText
  import opened AssTimes
  import opened Lyrics
  import opened Tokenizer
  import opened Reglyph
  import opened Boundaries
  import opened SequenceDiff

  /** How the call ends: the lines of the new file, the intervals shown
      before the user declined to go on, or the exception raised. */
  datatype Outcome =
    | Written(lines: seq<string>)
    | Declined(intervals: seq<Interval>)
    | Failed(error: Error)

  /** The arguments of the `find_misalignment_intervals` call
      (update_lyric.py:109-114). */
  const MinMatchLen: int := 3
  const OffsetTolerance: int := 10

  // ---------------------------------------------------------------------
  // The corrected lyrics and the length check
  // ---------------------------------------------------------------------

  /** `txt_lines` (update_lyric.py:44-45): every line stripped, the blank
      ones dropped. */
  function CleanLines(raw: seq<string>): seq<string>
    decreases |raw|
  {
    if raw == [] then []
    else (if Strip(raw[0]) == [] then [] else [Strip(raw[0])]) + CleanLines(raw[1..])
  }

  /** `''.join(w[0] for w in lyric_words)`. */
  function Glyphs(ws: seq<Token>): string
    decreases |ws|
  {
    if ws == [] then [] else ws[0].glyph + Glyphs(ws[1..])
  }

  /** `new_lyric_str` (update_lyric.py:104): each line without its spaces,
      the lines joined. */
  function Squeezed(lines: seq<string>): string
    decreases |lines|
  {
    if lines == [] then [] else Without(lines[0], ' ') + Squeezed(lines[1..])
  }

  lemma {:induction false} CleanLinesClean(raw: seq<string>)
    ensures |CleanLines(raw)| <= |raw|
    ensures forall k :: 0 <= k < |CleanLines(raw)| ==> CleanLines(raw)[k] != [] && Strip(CleanLines(raw)[k]) == CleanLines(raw)[k]
    decreases |raw|
  {
    if raw != [] {
      var rest := raw[1..];
      CleanLinesClean(rest);
      StripIdempotent(raw[0]);
      var r := CleanLines(raw);
      var tail := CleanLines(rest);
      if Strip(raw[0]) == [] {
        assert r == tail;
      } else {
        assert r == [Strip(raw[0])] + tail;
        forall k | 1 <= k < |r| ensures r[k] != [] && Strip(r[k]) == r[k] {
          assert r[k] == tail[k - 1];
        }
      }
    }
  }

  /** Lines that are already stripped and not blank are read as they are,
      so reading the corrected lines twice gives what reading them once
      gives. */
  lemma {:induction false} CleanLinesFixed(lines: seq<string>)
    requires forall k :: 0 <= k < |lines| ==> lines[k] != [] && Strip(lines[k]) == lines[k]
    ensures CleanLines(lines) == lines
    decreases |lines|
  {
    if lines != [] {
      var rest := lines[1..];
      assert forall k :: 0 <= k < |rest| ==> rest[k] == lines[k + 1];
      CleanLinesFixed(rest);
      assert lines == [lines[0]] + rest;
    }
  }

  lemma CleanLinesIdempotent(raw: seq<string>)
    ensures CleanLines(CleanLines(raw)) == CleanLines(raw)
  {
    CleanLinesClean(raw);
    CleanLinesFixed(CleanLines(raw));
  }

  /** Removing the spaces line by line removes them from the whole text. */
  lemma {:induction false} SqueezedIsWithout(lines: seq<string>)
    ensures Squeezed(lines) == Without(Concat(lines), ' ')
    decreases |lines|
  {
    if lines != [] {
      SqueezedIsWithout(lines[1..]);
      WithoutAppend(lines[0], Concat(lines[1..]), ' ');
    }
  }

  // ---------------------------------------------------------------------
  // One new dialogue line
  // ---------------------------------------------------------------------

  /** `'{' + w[2] + '}'` when the tag is set and not empty (`if w[2]:`). */
  function TagText(tag: Option<string>): string {
    match tag
    case None => []
    case Some(t) => if t == [] then [] else "{" + t + "}"
  }

  /** The text field written for a row (update_lyric.py:189-193): each
      token's tag in braces, then its glyph. */
  function Render(row: seq<Token>): string
    decreases |row|
  {
    if row == [] then [] else TagText(row[0].tag) + row[0].glyph + Render(row[1..])
  }

  /** The `StringIO` loop of update_lyric.py:189-193. */
  method RenderRow(row: seq<Token>) returns (text: string)
    ensures text == Render(row)
  {
    text := [];
    for k := 0 to |row|
      invariant text + Render(row[k..]) == Render(row)
    {
      var w := row[k];
      assert row[k..][1..] == row[k + 1..];
      ghost var before := text;
      if w.tag.Some? && w.tag.value != [] {
        text := text + ("{" + w.tag.value + "}");
      }
      assert text == before + TagText(w.tag);
      Assoc(before, TagText(w.tag), w.glyph);
      Assoc(before, TagText(w.tag) + w.glyph, Render(row[k + 1..]));
      text := text + w.glyph;
    }
    assert row[|row|..] == [];
  }

  /** No glyph opens a group and no tag closes one. */
  predicate Plain(row: seq<Token>) {
    forall k :: 0 <= k < |row| ==> Lacks(row[k].glyph, '{') && (row[k].tag.Some? ==> Lacks(row[k].tag.value, '}'))
  }

  lemma {:induction false} VisiblePlain(g: string, rest: string)
    requires Lacks(g, '{')
    ensures Visible(g + rest) == g + Visible(rest)
    decreases |g|
  {
    if g != [] {
      var s := g + rest;
      assert s[0] == g[0] && s[1..] == g[1..] + rest;
      VisiblePlain(g[1..], rest);
      assert Visible(s) == [g[0]] + Visible(s[1..]);
      Assoc([g[0]], g[1..], Visible(rest));
      assert [g[0]] + g[1..] == g;
    } else {
      assert g + rest == rest;
    }
  }

  lemma VisibleGroup(t: string, rest: string)
    requires Lacks(t, '}')
    ensures Visible(TagText(Some(t)) + rest) == Visible(rest)
  {
    if t != [] {
      var s := "{" + t + "}" + rest;
      assert TagText(Some(t)) + rest == s;
      assert s[1..] == t + ['}'] + rest;
      IndexOfJoin(t, '}', rest);
      assert s[|t| + 2..] == rest;
      assert s[0] == '{';
      assert Visible(s) == Visible(s[|t| + 2..]);
    } else {
      assert TagText(Some(t)) + rest == rest;
    }
  }

  /** The text outside the braces of a rendered row is the row's glyphs. */
  lemma {:induction false} RenderVisible(row: seq<Token>)
    requires Plain(row)
    ensures Visible(Render(row)) == Glyphs(row)
    decreases |row|
  {
    if row != [] {
      var w := row[0];
      var rest := row[1..];
      assert Plain(rest) by {
        forall k | 0 <= k < |rest| ensures rest[k] == row[k + 1] { }
      }
      RenderVisible(rest);
      var tail := w.glyph + Render(rest);
      Assoc(TagText(w.tag), w.glyph, Render(rest));
      assert Render(row) == TagText(w.tag) + tail;
      if w.tag.Some? {
        VisibleGroup(w.tag.value, tail);
      } else {
        assert TagText(w.tag) + tail == tail;
      }
      assert Visible(Render(row)) == Visible(tail);
      VisiblePlain(w.glyph, Render(rest));
    }
  }

  /** Read back with `ignore_space`, a rendered row gives one token per
      non-space character of its glyphs, in order. */
  lemma RenderRereads(row: seq<Token>, i: nat)
    requires Plain(row)
    ensures ScansTo(Scan(Render(row), i, true, [], Fresh), [], Without(Glyphs(row), ' '), i)
  {
    RenderVisible(row);
    ScanIgnoringSpaces(Render(row), i, [], Fresh);
  }

  /** The tag a token reads back with: an empty tag is not written. */
  function ShownTag(tag: Option<string>): Option<string> {
    if TagText(tag) == [] then None else tag
  }

  function ShownTags(row: seq<Token>): seq<Option<string>>
    decreases |row|
  {
    if row == [] then [] else [ShownTag(row[0].tag)] + ShownTags(row[1..])
  }

  /** A glyph with a single non-space character hands the tag to that
      character and leaves none for the next. */
  lemma {:induction false} TagsGlyph(g: string, rest: string, tag: Option<string>)
    requires Lacks(g, '{') && |Letters(g)| == 1
    ensures VisibleTags(g + rest, tag) == [tag] + VisibleTags(rest, None)
    decreases |g|
  {
    var s := g + rest;
    assert s[0] == g[0] && s[1..] == g[1..] + rest;
    if g[0] == ' ' {
      assert Letters(g) == Letters(g[1..]);
      TagsGlyph(g[1..], rest, tag);
    } else {
      assert Letters(g) == [g[0]] + Letters(g[1..]);
      TagsSpaces(g[1..], rest, None);
    }
  }

  /** Spaces leave the pending tag alone. */
  lemma {:induction false} TagsSpaces(g: string, rest: string, tag: Option<string>)
    requires Lacks(g, '{') && Letters(g) == []
    ensures VisibleTags(g + rest, tag) == VisibleTags(rest, tag)
    decreases |g|
  {
    if g == [] {
      assert g + rest == rest;
    } else {
      var s := g + rest;
      assert s[0] == g[0] && s[1..] == g[1..] + rest;
      assert g[0] == ' ';
      assert Letters(g) == Letters(g[1..]);
      TagsSpaces(g[1..], rest, tag);
    }
  }

  /** A written group becomes the pending tag. */
  lemma TagsGroup(t: string, rest: string, tag: Option<string>)
    requires Lacks(t, '}') && t != []
    ensures VisibleTags(TagText(Some(t)) + rest, tag) == VisibleTags(rest, Some(t))
  {
    var s := "{" + t + "}" + rest;
    assert TagText(Some(t)) + rest == s;
    assert s[1..] == t + ['}'] + rest;
    IndexOfJoin(t, '}', rest);
    assert (t + ['}'] + rest)[..|t|] == t;
    assert (t + ['}'] + rest)[|t| + 1..] == rest;
  }

  /** The tags a rendered row shows, one per glyph of one letter. */
  lemma {:induction false} RenderTags(row: seq<Token>)
    requires Plain(row) && forall k :: 0 <= k < |row| ==> |Letters(row[k].glyph)| == 1
    ensures VisibleTags(Render(row), None) == ShownTags(row)
    decreases |row|
  {
    if row != [] {
      var w := row[0];
      var rest := row[1..];
      assert Plain(rest) && forall k :: 0 <= k < |rest| ==> |Letters(rest[k].glyph)| == 1 by {
        forall k | 0 <= k < |rest| ensures rest[k] == row[k + 1] { }
      }
      RenderTags(rest);
      var tail := w.glyph + Render(rest);
      Assoc(TagText(w.tag), w.glyph, Render(rest));
      assert Render(row) == TagText(w.tag) + tail;
      TagsGlyph(w.glyph, Render(rest), ShownTag(w.tag));
      if ShownTag(w.tag).Some? {
        TagsGroup(w.tag.value, tail, None);
      } else {
        assert TagText(w.tag) + tail == tail;
      }
    }
  }

  /** Read back with `ignore_space`, a rendered row of one-letter glyphs
      gives each token its tag back, an empty tag reading as none. */
  lemma RenderRereadsTags(row: seq<Token>, i: nat)
    requires Plain(row) && forall k :: 0 <= k < |row| ==> |Letters(row[k].glyph)| == 1
    ensures TagsTo(Scan(Render(row), i, true, [], Fresh), [], ShownTags(row))
  {
    RenderTags(row);
    ScanTags(Render(row), i, [], Fresh);
  }

  /** `example_parts` with fields 1, 2 and 9 set to the two times and the
      text (update_lyric.py:195-197). */
  function Fields(template: seq<string>, tp: TimePair, text: string): (fs: seq<string>)
    requires |template| == 10
    ensures |fs| == 10
  {
    template[1 := Format(tp.start)][2 := Format(tp.end)][9 := text]
  }

  /** `','.join(example_parts) + '\n'` (update_lyric.py:199). */
  function EventLine(template: seq<string>, tp: TimePair, text: string): string
    requires |template| == 10
  {
    Join(Fields(template, tp, text), ',') + "\n"
  }

  /** A template that `strip().split(',', 9)` can produce: ten fields, no
      comma before the last one, no whitespace in front. */
  predicate Template(template: seq<string>) {
    && |template| == 10
    && (forall k :: 0 <= k < 9 ==> Lacks(template[k], ','))
    && (template[0] != [] ==> !IsSpace(template[0][0]))
  }

  /** `example_parts` (update_lyric.py:147-148) is such a template when the
      first dialogue line has all its fields. */
  lemma TemplateOf(line: string)
    requires |SplitN(Strip(line), ',', 9)| == 10
    ensures Template(SplitN(Strip(line), ',', 9))
  {
    SplitNParts(Strip(line), ',', 9);
    SplitNFirst(Strip(line), ',', 9);
  }

  /** Stripping a written dialogue line removes the line break and the
      whitespace that ends the text, and nothing in front; `a` and `b` are
      any two fields put in the places of the times. */
  lemma StripLine(template: seq<string>, a: string, b: string, text: string)
    requires Template(template)
    ensures Strip(Join(template[1 := a][2 := b][9 := text], ',') + "\n") == Join(template[1 := a][2 := b][9 := RStrip(text)], ',')
  {
    var fs := template[1 := a][2 := b][9 := text];
    var fs' := template[1 := a][2 := b][9 := RStrip(text)];
    JoinSnoc(fs, ',');
    JoinSnoc(fs', ',');
    assert fs[..9] == fs'[..9];
    var p := Join(fs[..9], ',') + [','];
    var line := Join(fs, ',') + "\n";
    Assoc(p, text, "\n");
    assert line == p + (text + "\n");
    assert Join(fs, ',') == fs[0] + [','] + Join(fs[1..], ',');
    assert LStrip(line) == line by {
      if fs[0] != [] {
        assert line[0] == template[0][0];
      } else {
        assert line[0] == ',';
      }
    }
    RStripAfter(p, text + "\n");
    assert (text + "\n")[..|text|] == text;
    assert RStrip(text + "\n") == RStrip(text);
  }

  /** The fields of a written line come apart where they were joined. */
  lemma SplitLine(template: seq<string>, a: string, b: string, text: string)
    requires Template(template) && Lacks(a, ',') && Lacks(b, ',')
    ensures SplitN(Join(template[1 := a][2 := b][9 := text], ','), ',', 9) == template[1 := a][2 := b][9 := text]
  {
    var fs := template[1 := a][2 := b][9 := text];
    forall k | 0 <= k < 9 ensures Lacks(fs[k], ',') {
    }
    SplitNJoin(fs, ',', 9);
  }

  /** A line written from the template, with two fields that read as the
      times `s` and `e`, reads back as those times and the stripped text. */
  lemma LineRereads(template: seq<string>, a: string, b: string, s: int, e: int, text: string, i: nat)
    requires Template(template) && Lacks(a, ',') && Lacks(b, ',')
    requires ParseTime(a) == Some(s) && ParseTime(b) == Some(e)
    ensures ParseDialogue(Join(template[1 := a][2 := b][9 := text], ',') + "\n", i) == Ok((TimePair(s, e), Strip(text)))
  {
    var line := Join(template[1 := a][2 := b][9 := text], ',') + "\n";
    var fs := template[1 := a][2 := b][9 := RStrip(text)];
    StripLine(template, a, b, text);
    SplitLine(template, a, b, RStrip(text));
    StripRStrip(text);
    ParseDialogueFields(line, i);
    assert fs[1] == a && fs[2] == b && fs[9] == RStrip(text);
  }

  /** A written dialogue line, read back by the tokenizer, gives back its
      two times and its text, stripped. */
  lemma EventLineRereads(template: seq<string>, tp: TimePair, text: string, i: nat)
    requires Template(template)
    ensures ParseDialogue(EventLine(template, tp, text), i) == Ok((tp, Strip(text)))
  {
    FormatLacksComma(tp.start);
    FormatLacksComma(tp.end);
    ParseFormat(tp.start);
    ParseFormat(tp.end);
    LineRereads(template, Format(tp.start), Format(tp.end), tp.start, tp.end, text, i);
  }

  /** A written dialogue line, split as the tokenizer splits it, has the
      fields of the template everywhere but in the places of the two times
      and the text, where it has the printed times and the text without
      the whitespace that ends it. */
  lemma EventLineFields(template: seq<string>, tp: TimePair, text: string)
    requires Template(template)
    ensures var parts := SplitN(Strip(EventLine(template, tp, text)), ',', 9);
      && |parts| == 10
      && (forall k :: 0 <= k < 10 && k != 1 && k != 2 && k != 9 ==> parts[k] == template[k])
      && parts[1] == Format(tp.start) && parts[2] == Format(tp.end) && parts[9] == RStrip(text)
  {
    FormatLacksComma(tp.start);
    FormatLacksComma(tp.end);
    StripLine(template, Format(tp.start), Format(tp.end), text);
    SplitLine(template, Format(tp.start), Format(tp.end), RStrip(text));
  }

  // ---------------------------------------------------------------------
  // All new dialogue lines
  // ---------------------------------------------------------------------

  /** The rows from `j` on lie inside the `n` tokens and follow one
      another, the first of them starting at `word_index == wi`. */
  predicate TiledFrom(rows: seq<Span>, j: nat, wi: nat, n: nat) {
    && j <= |rows|
    && (forall k :: j <= k < |rows| ==> rows[k].lo <= rows[k].hi <= n)
    && (j < |rows| ==> rows[j].lo == wi)
    && (forall k :: j <= k < |rows| - 1 ==> rows[k].hi == rows[k + 1].lo)
  }

  /** The times and the text of one new dialogue line. */
  datatype Cue = Cue(times: TimePair, text: string)

  /** The cue of the row `lyric_words[lo..hi)`: its two times as
      update_lyric.py:158-187 computes them, or the exception raised
      there, and its text. */
  function RowCue(ws: seq<Token>, times: seq<TimePair>, lo: nat, hi: nat): Result<Cue, Error>
    requires lo < hi <= |ws| && InRange(ws, |times|)
  {
    match RowTimes(ws, times, lo, hi)
    case Err(e) => Err(e)
    case Ok(tp) => Ok(Cue(tp, Render(ws[lo..hi])))
  }

  /** `RowCue` for the tokens `ws`, as a function of the row's bounds. */
  function CueOf(ws: seq<Token>, times: seq<TimePair>): (nat, nat) --> Result<Cue, Error>
    requires InRange(ws, |times|)
  {
    (lo: nat, hi: nat) requires lo < hi <= |ws| => RowCue(ws, times, lo, hi)
  }

  /** `cue` is defined on every non-empty row of `n` tokens. */
  ghost predicate CuesAll(cue: (nat, nat) --> Result<Cue, Error>, n: nat) {
    forall lo: nat, hi: nat :: lo < hi <= n ==> cue.requires(lo, hi)
  }

  /** The loop of update_lyric.py:152-201 from row `j` on, with
      `word_index == wi` and the cues of the lines written so far in
      `acc`: an empty row is skipped, any other gets its cue, and an
      exception stops the loop. */
  function Events(cue: (nat, nat) --> Result<Cue, Error>, rows: seq<Span>, n: nat, j: nat, wi: nat, acc: seq<Cue>)
    : Result<seq<Cue>, Error>
    requires CuesAll(cue, n) && TiledFrom(rows, j, wi, n)
    decreases |rows| - j
  {
    if j == |rows| then Ok(acc)
    else
      var row := rows[j];
      if row.lo == row.hi then Events(cue, rows, n, j + 1, wi, acc)
      else
        var next := wi + (row.hi - row.lo);
        match cue(wi, next)
        case Err(e) => Err(e)
        case Ok(c) => Events(cue, rows, n, j + 1, next, acc + [c])
  }

  /** The lines written for the cues, from the template. */
  function Lines(template: seq<string>, cues: seq<Cue>): (r: seq<string>)
    requires |template| == 10
    ensures |r| == |cues|
    ensures forall k :: 0 <= k < |cues| ==> r[k] == EventLine(template, cues[k].times, cues[k].text)
  {
    seq(|cues|, k requires 0 <= k < |cues| => EventLine(template, cues[k].times, cues[k].text))
  }

  /** `new_dialogues` after the loop, or the exception raised in it. */
  function NewLines(ws: seq<Token>, times: seq<TimePair>, rows: seq<Span>, template: seq<string>)
    : Result<seq<string>, Error>
    requires InRange(ws, |times|) && |template| == 10 && TiledFrom(rows, 0, 0, |ws|)
  {
    CuesOfAll(ws, times);
    match Events(CueOf(ws, times), rows, |ws|, 0, 0, [])
    case Err(e) => Err(e)
    case Ok(cues) => Ok(Lines(template, cues))
  }

  /** The number of non-empty rows from `j` on. */
  function Filled(rows: seq<Span>, j: nat): (r: nat)
    requires j <= |rows|
    ensures r <= |rows| - j
    decreases |rows| - j
  {
    if j == |rows| then 0 else (if rows[j].lo < rows[j].hi then 1 else 0) + Filled(rows, j + 1)
  }

  /** Every line from `i` on is accepted by `ParseDialogue` as dialogue
      line `i` and on. */
  predicate AllParse(lines: seq<string>, i: nat)
    requires i <= |lines|
    decreases |lines| - i
  {
    i == |lines| || (ParseDialogue(lines[i], i).Ok? && AllParse(lines, i + 1))
  }

  /** The tokenizer reads back every line written from a template. */
  lemma {:induction false} LinesParse(template: seq<string>, cues: seq<Cue>, i: nat)
    requires Template(template) && i <= |cues|
    ensures AllParse(Lines(template, cues), i)
    decreases |cues| - i
  {
    if i < |cues| {
      EventLineRereads(template, cues[i].times, cues[i].text, i);
      LinesParse(template, cues, i + 1);
    }
  }

  /** One more cue adds its line at the end. */
  lemma LinesSnoc(template: seq<string>, cues: seq<Cue>, c: Cue)
    requires |template| == 10
    ensures Lines(template, cues + [c]) == Lines(template, cues) + [EventLine(template, c.times, c.text)]
  {
    var l := Lines(template, cues + [c]);
    var r := Lines(template, cues) + [EventLine(template, c.times, c.text)];
    forall k | 0 <= k < |l| ensures l[k] == r[k] {
      assert (cues + [c])[k] == if k < |cues| then cues[k] else c;
    }
  }

  /** The rows after row `j` start where row `j` ends. */
  lemma TiledNext(rows: seq<Span>, j: nat, wi: nat, n: nat)
    requires TiledFrom(rows, j, wi, n) && j < |rows|
    ensures rows[j].lo == wi && rows[j].hi <= n
    ensures TiledFrom(rows, j + 1, wi + (rows[j].hi - rows[j].lo), n)
  {
  }

  lemma CuesOfAll(ws: seq<Token>, times: seq<TimePair>)
    requires InRange(ws, |times|)
    ensures CuesAll(CueOf(ws, times), |ws|)
  {
  }

  /** The cues come after those found before, one per non-empty row. */
  lemma {:induction false} EventsShape(cue: (nat, nat) --> Result<Cue, Error>, rows: seq<Span>, n: nat, j: nat, wi: nat, acc: seq<Cue>)
    requires CuesAll(cue, n) && TiledFrom(rows, j, wi, n)
    requires Events(cue, rows, n, j, wi, acc).Ok?
    ensures var cues := Events(cue, rows, n, j, wi, acc).value;
      |cues| == |acc| + Filled(rows, j) && cues[..|acc|] == acc
    decreases |rows| - j
  {
    if j < |rows| {
      TiledNext(rows, j, wi, n);
      var next := wi + (rows[j].hi - rows[j].lo);
      if rows[j].lo == rows[j].hi {
        EventsShape(cue, rows, n, j + 1, wi, acc);
      } else {
        var acc' := acc + [cue(wi, next).value];
        EventsShape(cue, rows, n, j + 1, next, acc');
        var cues := Events(cue, rows, n, j, wi, acc).value;
        assert cues[..|acc'|][..|acc|] == cues[..|acc|];
      }
    }
  }

  /** The step of `Events` at an empty row. */
  lemma EventsSkip(cue: (nat, nat) --> Result<Cue, Error>, rows: seq<Span>, n: nat, j: nat, wi: nat, acc: seq<Cue>)
    requires CuesAll(cue, n) && TiledFrom(rows, j, wi, n) && j < |rows| && rows[j].lo == rows[j].hi
    ensures TiledFrom(rows, j + 1, wi, n)
    ensures Events(cue, rows, n, j, wi, acc) == Events(cue, rows, n, j + 1, wi, acc)
  {
  }

  /** The step of `Events` at a non-empty row. */
  lemma EventsStep(cue: (nat, nat) --> Result<Cue, Error>, rows: seq<Span>, n: nat, j: nat, wi: nat, acc: seq<Cue>)
    requires CuesAll(cue, n) && TiledFrom(rows, j, wi, n) && j < |rows| && rows[j].lo < rows[j].hi
    ensures rows[j].lo == wi && wi < rows[j].hi <= n && TiledFrom(rows, j + 1, rows[j].hi, n)
    ensures cue(wi, rows[j].hi).Err? ==> Events(cue, rows, n, j, wi, acc) == Err(cue(wi, rows[j].hi).error)
    ensures cue(wi, rows[j].hi).Ok? ==>
      Events(cue, rows, n, j, wi, acc) == Events(cue, rows, n, j + 1, rows[j].hi, acc + [cue(wi, rows[j].hi).value])
  {
    TiledNext(rows, j, wi, n);
  }

  /** The index of the non-empty row number `m` (from 0) from row `j` on. */
  function NthFilled(rows: seq<Span>, j: nat, m: nat): (r: nat)
    requires j <= |rows| && m < Filled(rows, j)
    ensures j <= r < |rows| && rows[r].lo < rows[r].hi
    decreases |rows| - j
  {
    if rows[j].lo < rows[j].hi then (if m == 0 then j else NthFilled(rows, j + 1, m - 1))
    else NthFilled(rows, j + 1, m)
  }

  /** The non-empty rows are numbered in row order. */
  lemma {:induction false} NthFilledOrder(rows: seq<Span>, j: nat, m: nat)
    requires j <= |rows| && m + 1 < Filled(rows, j)
    ensures NthFilled(rows, j, m) < NthFilled(rows, j, m + 1)
    decreases |rows| - j
  {
    if rows[j].lo < rows[j].hi {
      if m > 0 {
        NthFilledOrder(rows, j + 1, m - 1);
      }
    } else {
      NthFilledOrder(rows, j + 1, m);
    }
  }

  /** Cue number `m` after those found before is the cue of the non-empty
      row number `m`. */
  lemma {:induction false} EventsRows(cue: (nat, nat) --> Result<Cue, Error>, rows: seq<Span>, n: nat, j: nat, wi: nat, acc: seq<Cue>, m: nat)
    requires CuesAll(cue, n) && TiledFrom(rows, j, wi, n)
    requires Events(cue, rows, n, j, wi, acc).Ok? && m < Filled(rows, j)
    ensures rows[NthFilled(rows, j, m)].hi <= n
    ensures |acc| + m < |Events(cue, rows, n, j, wi, acc).value|
    ensures cue(rows[NthFilled(rows, j, m)].lo, rows[NthFilled(rows, j, m)].hi) == Ok(Events(cue, rows, n, j, wi, acc).value[|acc| + m])
    decreases |rows| - j
  {
    if rows[j].lo == rows[j].hi {
      EventsSkip(cue, rows, n, j, wi, acc);
      EventsRows(cue, rows, n, j + 1, wi, acc, m);
    } else if m == 0 {
      EventsRowsFirst(cue, rows, n, j, wi, acc);
    } else {
      EventsStep(cue, rows, n, j, wi, acc);
      var c := cue(wi, rows[j].hi).value;
      EventsRows(cue, rows, n, j + 1, rows[j].hi, acc + [c], m - 1);
    }
  }

  /** The first non-empty row gives the first cue after `acc`. */
  lemma EventsRowsFirst(cue: (nat, nat) --> Result<Cue, Error>, rows: seq<Span>, n: nat, j: nat, wi: nat, acc: seq<Cue>)
    requires CuesAll(cue, n) && TiledFrom(rows, j, wi, n) && j < |rows| && rows[j].lo < rows[j].hi
    requires Events(cue, rows, n, j, wi, acc).Ok?
    ensures |acc| < |Events(cue, rows, n, j, wi, acc).value|
    ensures cue(rows[j].lo, rows[j].hi) == Ok(Events(cue, rows, n, j, wi, acc).value[|acc|])
  {
    EventsStep(cue, rows, n, j, wi, acc);
    var c := cue(wi, rows[j].hi).value;
    EventsShape(cue, rows, n, j + 1, rows[j].hi, acc + [c]);
    var cues := Events(cue, rows, n, j, wi, acc).value;
    assert cues[..|acc| + 1][|acc|] == (acc + [c])[|acc|];
  }

  /** The cue the loop body computes for a row from its start, its end and
      its text. */
  lemma RowCueOf(ws: seq<Token>, times: seq<TimePair>, lo: nat, hi: nat, start: Result<int, Error>, end: Result<int, Error>)
    requires lo < hi <= |ws| && InRange(ws, |times|)
    requires start == StartTime(ws, times, lo) && end == EndTime(ws, times, lo, hi)
    ensures start.Err? ==> CueOf(ws, times)(lo, hi) == Err(start.error)
    ensures start.Ok? && end.Err? ==> CueOf(ws, times)(lo, hi) == Err(end.error)
    ensures start.Ok? && end.Ok? ==> CueOf(ws, times)(lo, hi) == Ok(Cue(TimePair(start.value, end.value), Render(ws[lo..hi])))
  {
  }

  /** update_lyric.py:152-201, with the row times computed on `AssTime`
      objects. */
  method NewDialogues(ws: seq<Token>, times: seq<TimePair>, rows: seq<Span>, template: seq<string>)
    returns (r: Result<seq<string>, Error>)
    requires InRange(ws, |times|) && |template| == 10 && TiledFrom(rows, 0, 0, |ws|)
    ensures r == NewLines(ws, times, rows, template)
  {
    CuesOfAll(ws, times);
    ghost var cue := CueOf(ws, times);
    var newDialogues: seq<string> := [];
    ghost var cues: seq<Cue> := [];
    var wordIndex: nat := 0;
    for j := 0 to |rows|
      invariant TiledFrom(rows, j, wordIndex, |ws|)
      invariant newDialogues == Lines(template, cues)
      invariant Events(cue, rows, |ws|, j, wordIndex, cues) == Events(cue, rows, |ws|, 0, 0, [])
    {
      var row := rows[j];
      if row.lo == row.hi {
        EventsSkip(cue, rows, |ws|, j, wordIndex, cues);
        continue;
      }
      EventsStep(cue, rows, |ws|, j, wordIndex, cues);
      var start := ComputeStart(ws, times, wordIndex);
      var next := wordIndex + (row.hi - row.lo);
      var end := ComputeEnd(ws, times, wordIndex, next);
      RowCueOf(ws, times, wordIndex, next, start, end);
      assert next == row.hi;
      ghost var c := cue(wordIndex, row.hi);
      if start.Err? {
        assert Events(cue, rows, |ws|, 0, 0, []) == Err(start.error);
        return Err(start.error);
      }
      if end.Err? {
        assert c == Err(end.error);
        assert Events(cue, rows, |ws|, 0, 0, []) == Err(end.error);
        return Err(end.error);
      }
      var text := RenderRow(ws[row.lo..row.hi]);
      var tp := TimePair(start.value, end.value);
      LinesSnoc(template, cues, Cue(tp, text));
      assert c == Ok(Cue(tp, text));
      newDialogues := newDialogues + [EventLine(template, tp, text)];
      cues := cues + [Cue(tp, text)];
      wordIndex := next;
    }
    assert Events(cue, rows, |ws|, 0, 0, []) == Ok(cues);
    return Ok(newDialogues);
  }

  /** Written line `m` is the line of the cue of the non-empty row number
      `m`: its times and its rendered tokens. */
  lemma LinesRows(cue: (nat, nat) --> Result<Cue, Error>, rows: seq<Span>, n: nat, template: seq<string>, m: nat)
    requires CuesAll(cue, n) && TiledFrom(rows, 0, 0, n) && |template| == 10
    requires Events(cue, rows, n, 0, 0, []).Ok? && m < Filled(rows, 0)
    ensures var r := NthFilled(rows, 0, m); var cues := Events(cue, rows, n, 0, 0, []).value;
      && rows[r].hi <= n && m < |cues| && cue(rows[r].lo, rows[r].hi).Ok?
      && Lines(template, cues)[m] == EventLine(template, cue(rows[r].lo, rows[r].hi).value.times, cue(rows[r].lo, rows[r].hi).value.text)
  {
    EventsRows(cue, rows, n, 0, 0, [], m);
    var cues := Events(cue, rows, n, 0, 0, []).value;
    var r := NthFilled(rows, 0, m);
    var c := cue(rows[r].lo, rows[r].hi).value;
    assert c == cues[m];
    assert Lines(template, cues)[m] == EventLine(template, cues[m].times, cues[m].text);
  }

  lemma NewLinesRows(ws: seq<Token>, times: seq<TimePair>, rows: seq<Span>, template: seq<string>, m: nat)
    requires InRange(ws, |times|) && |template| == 10 && TiledFrom(rows, 0, 0, |ws|)
    requires NewLines(ws, times, rows, template).Ok? && m < Filled(rows, 0)
    ensures var r := NthFilled(rows, 0, m); var lines := NewLines(ws, times, rows, template).value;
      && rows[r].hi <= |ws| && m < |lines|
      && var c := CueOf(ws, times)(rows[r].lo, rows[r].hi);
      && c.Ok? && lines[m] == EventLine(template, c.value.times, c.value.text)
  {
    CuesOfAll(ws, times);
    var cue := CueOf(ws, times);
    var cues := Events(cue, rows, |ws|, 0, 0, []).value;
    assert NewLines(ws, times, rows, template) == Ok(Lines(template, cues));
    LinesRows(cue, rows, |ws|, template, m);
  }

  // ---------------------------------------------------------------------
  // The whole call
  // ---------------------------------------------------------------------

  /** Re-glyphing keeps every token's dialogue. */
  lemma RegroupKeeps(ws: seq<Token>, lines: seq<string>, n: nat)
    requires Indexed(ws, n)
    ensures Glyphed(ws)
    ensures var r := Regroup(ws, lines).0; InRange(r, n) && |r| == |ws|
  {
    RegroupSpec(ws, lines);
    var r := Regroup(ws, lines).0;
    assert SameSlots(r, ws);
    forall k | 0 <= k < |r| ensures r[k].dialogue < n {
      assert r[k].dialogue == ws[k].dialogue;
    }
  }

  /** The rows tile the re-glyphed tokens from the first one on. */
  lemma RegroupTiles(ws: seq<Token>, lines: seq<string>)
    requires Glyphed(ws)
    ensures var (r, rows) := Regroup(ws, lines);
      |r| == |ws| && |rows| == |lines| && TiledFrom(rows, 0, 0, |r|)
  {
    RegroupSpec(ws, lines);
    var rows := Regroup(ws, lines).1;
    assert RowsAre(rows, |ws|, 0, lines);
    forall k | 0 <= k < |rows| ensures rows[k].hi <= |ws| {
      assert rows[k].hi == Min(|ws|, Count(Concat(lines[..k + 1])));
    }
    if lines != [] {
      RowsTile(ws, lines);
    }
  }

  /** Re-glyphed tokens still name recorded dialogues, and the rows tile
      them from the first token on. */
  lemma RegroupFits(ws: seq<Token>, lines: seq<string>, n: nat)
    requires Indexed(ws, n)
    ensures Glyphed(ws)
    ensures var (r, rows) := Regroup(ws, lines);
      InRange(r, n) && |r| == |ws| && |rows| == |lines| && TiledFrom(rows, 0, 0, |r|)
  {
    RegroupKeeps(ws, lines, n);
    RegroupTiles(ws, lines);
  }

  /** What follows the length check (update_lyric.py:124-204). */
  function Rewrite(header: seq<string>, dialogues: seq<string>, ws: seq<Token>, times: seq<TimePair>, txtLines: seq<string>)
    : (o: Outcome)
    requires Indexed(ws, |dialogues|) && |times| == |dialogues|
    requires dialogues != [] ==> |SplitN(Strip(dialogues[0]), ',', 9)| == 10
    ensures !o.Declined?
    ensures dialogues == [] ==> o == Failed(NoTemplateLine)
  {
    RegroupFits(ws, txtLines, |times|);
    var (ws', rows) := Regroup(ws, txtLines);
    if dialogues == [] then Failed(NoTemplateLine)
    else
      var template := SplitN(Strip(dialogues[0]), ',', 9);
      match NewLines(ws', times, rows, template)
      case Err(e) => Failed(e)
      case Ok(events) => Written(header + events)
  }

  /** Facts about the tokens that `Rewrite` needs. */
  lemma TokenizedFits(dialogues: seq<string>, ignoreSpace: bool)
    requires Tokenize(dialogues, ignoreSpace).Ok?
    ensures var (ws, times) := Tokenize(dialogues, ignoreSpace).value;
      Indexed(ws, |dialogues|) && |times| == |dialogues|
    ensures dialogues != [] ==> Template(SplitN(Strip(dialogues[0]), ',', 9))
  {
    TokenizeIndexed(dialogues, ignoreSpace);
    if dialogues != [] {
      TokenizeTimes(dialogues, ignoreSpace, 0);
      ParseDialogueFields(dialogues[0], 0);
      TemplateOf(dialogues[0]);
    }
  }

  /** `replace_ass_lyrics(txt_path, ass_path, output_path, ignore_space)`
      on the lines of the two files, with `confirm` standing for the
      answer `y` to the prompt and `blocks` for difflib's matching blocks
      of the two lyric strings. */
  function Replace(assLines: seq<string>, txtRaw: seq<string>, ignoreSpace: bool, blocks: seq<Block>, confirm: bool): Outcome {
    var txtLines := CleanLines(txtRaw);
    match HeaderSplit(assLines)
    case Err(e) => Failed(e)
    case Ok((header, dialogues)) =>
      match Tokenize(dialogues, ignoreSpace)
      case Err(e) => Failed(e)
      case Ok((ws, times)) =>
        TokenizedFits(dialogues, ignoreSpace);
        var oldText := Without(Glyphs(ws), ' ');
        var newText := Squeezed(txtLines);
        if |oldText| != |newText| then
          match FindMisalignment(oldText, newText, blocks, MinMatchLen, OffsetTolerance)
          case None => Failed(FirstBlockShifted)
          case Some(intervals) =>
            if confirm then Rewrite(header, dialogues, ws, times, txtLines) else Declined(intervals)
        else Rewrite(header, dialogues, ws, times, txtLines)
  }

  /** update_lyric.py:38-204 step by step. */
  method ReplaceAssLyrics(assLines: seq<string>, txtRaw: seq<string>, ignoreSpace: bool, blocks: seq<Block>, confirm: bool)
    returns (r: Outcome)
    ensures r == Replace(assLines, txtRaw, ignoreSpace, blocks, confirm)
  {
    var txtLines := CleanLines(txtRaw);
    var split := SplitHeader(assLines);
    if split.Err? {
      return Failed(split.error);
    }
    var (header, dialogues) := split.value;
    var tokens := TokenizeDialogues(dialogues, ignoreSpace);
    if tokens.Err? {
      return Failed(tokens.error);
    }
    var (words, timeRows) := tokens.value;
    TokenizedFits(dialogues, ignoreSpace);
    var oldText := Without(Glyphs(words), ' ');
    var newText := Squeezed(txtLines);
    if |oldText| != |newText| {
      var intervals := FindMisalignmentIntervals(oldText, newText, blocks, MinMatchLen, OffsetTolerance);
      if intervals.None? {
        return Failed(FirstBlockShifted);
      }
      if !confirm {
        return Declined(intervals.value);
      }
    }
    RegroupFits(words, txtLines, |timeRows|);
    var lyricWords, rows := ReplaceGlyphs(words, txtLines);
    if dialogues == [] {
      return Failed(NoTemplateLine);
    }
    var template := SplitN(Strip(dialogues[0]), ',', 9);
    var events := NewDialogues(lyricWords, timeRows, rows, template);
    if events.Err? {
      return Failed(events.error);
    }
    r := Written(header + events.value);
  }

  // ---------------------------------------------------------------------
  // What the call promises
  // ---------------------------------------------------------------------

  /** Without an `[Events]` line nothing is written. */
  lemma NoEventsNoOutput(assLines: seq<string>, txtRaw: seq<string>, ignoreSpace: bool, blocks: seq<Block>, confirm: bool)
    requires FindEvents(assLines).None?
    ensures Replace(assLines, txtRaw, ignoreSpace, blocks, confirm) == Failed(NoEventsSection)
  {
  }

  /** Without a dialogue line after the header nothing is written. */
  lemma NoDialogueNoOutput(assLines: seq<string>, txtRaw: seq<string>, ignoreSpace: bool, blocks: seq<Block>, confirm: bool)
    requires HeaderSplit(assLines).Ok? && HeaderSplit(assLines).value.1 == []
    ensures !Replace(assLines, txtRaw, ignoreSpace, blocks, confirm).Written?
  {
  }

  /** With lyric strings of one length the call goes straight to the
      rewrite (update_lyric.py:106-124). */
  lemma ReplaceEven(assLines: seq<string>, txtRaw: seq<string>, ignoreSpace: bool, blocks: seq<Block>, confirm: bool,
                    header: seq<string>, dialogues: seq<string>, ws: seq<Token>, times: seq<TimePair>)
    requires HeaderSplit(assLines) == Ok((header, dialogues)) && Tokenize(dialogues, ignoreSpace) == Ok((ws, times))
    requires |Without(Glyphs(ws), ' ')| == |Squeezed(CleanLines(txtRaw))|
    requires Indexed(ws, |dialogues|) && |times| == |dialogues| && (dialogues != [] ==> Template(SplitN(Strip(dialogues[0]), ',', 9)))
    ensures
      Replace(assLines, txtRaw, ignoreSpace, blocks, confirm) == Rewrite(header, dialogues, ws, times, CleanLines(txtRaw))
  {
  }

  /** With lyric strings of different lengths the call stops when the
      first matching block is shifted, stops with the intervals when the
      answer is not `y`, and rewrites otherwise (update_lyric.py:106-122). */
  lemma ReplaceUneven(assLines: seq<string>, txtRaw: seq<string>, ignoreSpace: bool, blocks: seq<Block>, confirm: bool,
                      header: seq<string>, dialogues: seq<string>, ws: seq<Token>, times: seq<TimePair>)
    requires HeaderSplit(assLines) == Ok((header, dialogues)) && Tokenize(dialogues, ignoreSpace) == Ok((ws, times))
    requires |Without(Glyphs(ws), ' ')| != |Squeezed(CleanLines(txtRaw))|
    requires Indexed(ws, |dialogues|) && |times| == |dialogues| && (dialogues != [] ==> Template(SplitN(Strip(dialogues[0]), ',', 9)))
    ensures
      var found := FindMisalignment(Without(Glyphs(ws), ' '), Squeezed(CleanLines(txtRaw)), blocks, MinMatchLen, OffsetTolerance);
      Replace(assLines, txtRaw, ignoreSpace, blocks, confirm) ==
        if found.None? then Failed(FirstBlockShifted)
        else if confirm then Rewrite(header, dialogues, ws, times, CleanLines(txtRaw))
        else Declined(found.value)
  {
  }

  /** The prompt and the matching blocks matter only when the two lyric
      strings differ in length; then a refusal ends the call with the
      intervals and writes nothing. */
  lemma Gate(assLines: seq<string>, txtRaw: seq<string>, ignoreSpace: bool, blocks: seq<Block>, confirm: bool,
             header: seq<string>, dialogues: seq<string>, ws: seq<Token>, times: seq<TimePair>)
    requires HeaderSplit(assLines) == Ok((header, dialogues)) && Tokenize(dialogues, ignoreSpace) == Ok((ws, times))
    ensures var oldText := Without(Glyphs(ws), ' '); var newText := Squeezed(CleanLines(txtRaw));
      |oldText| == |newText| ==>
        forall blocks', confirm' :: Replace(assLines, txtRaw, ignoreSpace, blocks', confirm') == Replace(assLines, txtRaw, ignoreSpace, blocks, confirm)
    ensures var oldText := Without(Glyphs(ws), ' '); var newText := Squeezed(CleanLines(txtRaw));
      var found := FindMisalignment(oldText, newText, blocks, MinMatchLen, OffsetTolerance);
      Replace(assLines, txtRaw, ignoreSpace, blocks, confirm).Declined? <==> |oldText| != |newText| && found.Some? && !confirm
    ensures var oldText := Without(Glyphs(ws), ' '); var newText := Squeezed(CleanLines(txtRaw));
      var found := FindMisalignment(oldText, newText, blocks, MinMatchLen, OffsetTolerance);
      Replace(assLines, txtRaw, ignoreSpace, blocks, confirm).Declined? ==> Replace(assLines, txtRaw, ignoreSpace, blocks, confirm).intervals == found.value
  {
    TokenizedFits(dialogues, ignoreSpace);
    if |Without(Glyphs(ws), ' ')| == |Squeezed(CleanLines(txtRaw))| {
      forall blocks': seq<Block>, confirm': bool
        ensures Replace(assLines, txtRaw, ignoreSpace, blocks', confirm') == Replace(assLines, txtRaw, ignoreSpace, blocks, confirm)
      {
        ReplaceEven(assLines, txtRaw, ignoreSpace, blocks', confirm', header, dialogues, ws, times);
        ReplaceEven(assLines, txtRaw, ignoreSpace, blocks, confirm, header, dialogues, ws, times);
      }
    } else {
      ReplaceUneven(assLines, txtRaw, ignoreSpace, blocks, confirm, header, dialogues, ws, times);
    }
  }

  /** The first `[Events]` line of `b` is that of `a` when they agree up to
      it. */
  lemma FindEventsAgree(a: seq<string>, b: seq<string>, e: nat)
    requires FindEvents(a) == Some(e) && e < |b| && b[..e + 1] == a[..e + 1]
    ensures FindEvents(b) == Some(e)
  {
    FindEventsFirst(a);
    FindEventsFirst(b);
    assert b[e] == a[e];
    forall k | 0 <= k < e ensures !IsEventsLine(b[k]) {
      assert b[k] == a[k];
    }
  }

  /** With `ignore_space`, the scan of a text cannot fail. */
  lemma ScanNeverFails(text: string, i: nat, words: seq<Token>)
    ensures Scan(text, i, true, words, Fresh).Ok?
  {
    ScanIgnoringSpaces(text, i, words, Fresh);
  }

  /** With `ignore_space`, dialogue lines that all parse are tokenized
      without error. */
  lemma {:induction false} RereadAll(lines: seq<string>, i: nat, words: seq<Token>, times: seq<TimePair>)
    requires i <= |lines| && AllParse(lines, i)
    ensures TokenizeFrom(lines, i, true, words, times).Ok?
    decreases |lines| - i
  {
    if i < |lines| {
      var parsed := ParseDialogue(lines[i], i);
      var (tp, text) := parsed.value;
      ScanNeverFails(text, i, words);
      var ws := Scan(text, i, true, words, Fresh).value;
      var m := i + 1;
      var times' := times + [tp];
      RereadAll(lines, m, ws, times');
      assert TokenizeFrom(lines, i, true, words, times) == TokenizeFrom(lines, m, true, ws, times');
    }
  }

  /** What `Rewrite` writes is the header, then at most one line per
      corrected lyric line, each of which the tokenizer reads back. */
  lemma RewriteShape(header: seq<string>, dialogues: seq<string>, ws: seq<Token>, times: seq<TimePair>, txtLines: seq<string>)
    requires Indexed(ws, |dialogues|) && |times| == |dialogues|
    requires dialogues != [] ==> Template(SplitN(Strip(dialogues[0]), ',', 9))
    requires Rewrite(header, dialogues, ws, times, txtLines).Written?
    ensures var out := Rewrite(header, dialogues, ws, times, txtLines).lines;
      && |header| <= |out| && out[..|header|] == header
      && |out| - |header| <= |txtLines|
      && AllParse(out[|header|..], 0)
  {
    var out := Rewrite(header, dialogues, ws, times, txtLines).lines;
    RegroupFits(ws, txtLines, |times|);
    var (ws', rows) := Regroup(ws, txtLines);
    var template := SplitN(Strip(dialogues[0]), ',', 9);
    CuesOfAll(ws', times);
    var cues := Events(CueOf(ws', times), rows, |ws'|, 0, 0, []).value;
    var events := Lines(template, cues);
    assert out == header + events;
    EventsShape(CueOf(ws', times), rows, |ws'|, 0, 0, []);
    LinesParse(template, cues, 0);
    assert out[..|header|] == header && out[|header|..] == events;
  }

  /** The header of a file followed by dialogue lines that all parse is
      split off again where it was, and those lines tokenize. */
  lemma OutputRereads(assLines: seq<string>, header: seq<string>, dialogues: seq<string>, out: seq<string>)
    requires HeaderSplit(assLines) == Ok((header, dialogues)) && dialogues != []
    requires |header| <= |out| && out[..|header|] == header && AllParse(out[|header|..], 0)
    ensures HeaderSplit(out) == Ok((header, out[|header|..]))
    ensures Tokenize(out[|header|..], true).Ok?
  {
    var e := FindEvents(assLines).value;
    assert |header| == e + 2;
    assert out[..e + 1] == assLines[..e + 1];
    FindEventsAgree(assLines, out, e);
    RereadAll(out[|header|..], 0, [], []);
  }

  /** A written file starts with the header of the original, holds at most
      one dialogue line per corrected lyric line, and is a valid input
      again: its header splits off where it did, and its dialogue lines
      all tokenize. */
  lemma WrittenRereads(assLines: seq<string>, txtRaw: seq<string>, ignoreSpace: bool, blocks: seq<Block>, confirm: bool)
    requires Replace(assLines, txtRaw, ignoreSpace, blocks, confirm).Written?
    ensures HeaderSplit(assLines).Ok?
    ensures var out := Replace(assLines, txtRaw, ignoreSpace, blocks, confirm).lines;
      var header := HeaderSplit(assLines).value.0;
      && |header| <= |out| && out[..|header|] == header
      && |out| - |header| <= |CleanLines(txtRaw)|
      && HeaderSplit(out) == Ok((header, out[|header|..]))
      && Tokenize(out[|header|..], true).Ok?
  {
    var out := Replace(assLines, txtRaw, ignoreSpace, blocks, confirm).lines;
    var (header, dialogues) := HeaderSplit(assLines).value;
    var (ws, times) := Tokenize(dialogues, ignoreSpace).value;
    var txtLines := CleanLines(txtRaw);
    TokenizedFits(dialogues, ignoreSpace);
    assert Rewrite(header, dialogues, ws, times, txtLines) == Written(out);
    RewriteShape(header, dialogues, ws, times, txtLines);
    OutputRereads(assLines, header, dialogues, out);
  }
}
