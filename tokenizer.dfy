/** The first two stages of `replace_ass_lyrics` (update_lyric.py): finding
    the `[Events]` header, and scanning every dialogue line's text field
    into `lyric_words` while the recorded times go into
    `dialogue_time_rows`. */
module Tokenizer {
  import opened Wrappers
  import opened PyText
  import opened AssTimes
  import opened Lyrics

  // ---------------------------------------------------------------------
  // Header split
  // ---------------------------------------------------------------------

  predicate IsEventsLine(line: string) {
    StartsWith(Strip(line), "[Events]")
  }

  /** The first index at or after `i` whose element satisfies `p`. */
  function FirstFrom<T>(xs: seq<T>, i: nat, p: T -> bool): (r: Option<nat>)
    requires i <= |xs|
    ensures r.Some? ==> i <= r.value < |xs|
    decreases |xs| - i
  {
    if i == |xs| then None
    else if p(xs[i]) then Some(i)
    else FirstFrom(xs, i + 1, p)
  }

  lemma {:induction false} FirstFromFirst<T>(xs: seq<T>, i: nat, p: T -> bool)
    requires i <= |xs|
    ensures var r := FirstFrom(xs, i, p);
      && (r.Some? ==> p(xs[r.value]))
      && (r.Some? ==> forall k :: i <= k < r.value ==> !p(xs[k]))
      && (r.None? <==> forall k :: i <= k < |xs| ==> !p(xs[k]))
    decreases |xs| - i
  {
    if i < |xs| && !p(xs[i]) {
      FirstFromFirst(xs, i + 1, p);
    }
  }

  /** The index of the first line that opens the `[Events]` section. */
  function FindEvents(lines: seq<string>): Option<nat> {
    FirstFrom(lines, 0, IsEventsLine)
  }

  /** The search finds the first `[Events]` line, and fails only when there
      is none. */
  lemma FindEventsFirst(lines: seq<string>)
    ensures var r := FindEvents(lines);
      && (r.Some? ==> r.value < |lines| && IsEventsLine(lines[r.value]))
      && (r.Some? ==> forall k :: 0 <= k < r.value ==> !IsEventsLine(lines[k]))
      && (r.None? <==> forall k :: 0 <= k < |lines| ==> !IsEventsLine(lines[k]))
  {
    FirstFromFirst(lines, 0, IsEventsLine);
  }

  /** The `[Events]` line and the one after it (the `Format:` line) end
      the header; every later line is taken for a dialogue. */
  function HeaderSplit(lines: seq<string>): (r: Result<(seq<string>, seq<string>), Error>)
    ensures r.Err? <==> FindEvents(lines).None?
    ensures r.Err? ==> r.error == NoEventsSection
    ensures r.Ok? ==> r.value.0 + r.value.1 == lines
    ensures r.Ok? ==> var e := FindEvents(lines).value;
      |r.value.0| == if e + 2 <= |lines| then e + 2 else |lines|
  {
    match FindEvents(lines)
    case None => Err(NoEventsSection)
    case Some(e) =>
      var cut := if e + 2 <= |lines| then e + 2 else |lines|;
      CutAt(lines, cut);
      Ok((lines[..cut], lines[cut..]))
  }

  /** The loop of update_lyric.py:52-56. */
  method FindEventStart(lines: seq<string>) returns (r: Option<nat>)
    ensures r == FindEvents(lines)
  {
    var i := 0;
    while i < |lines|
      invariant 0 <= i <= |lines|
      invariant FirstFrom(lines, i, IsEventsLine) == FindEvents(lines)
    {
      if IsEventsLine(lines[i]) {
        return Some(i);
      }
      i := i + 1;
    }
    return None;
  }

  /** update_lyric.py:51-62. */
  method SplitHeader(lines: seq<string>) returns (r: Result<(seq<string>, seq<string>), Error>)
    ensures r == HeaderSplit(lines)
  {
    var eventStart := FindEventStart(lines);
    if eventStart.None? {
      return Err(NoEventsSection);
    }
    var cut := eventStart.value + 2;
    if cut > |lines| {
      cut := |lines|;
    }
    return Ok((lines[..cut], lines[cut..]));
  }

  // ---------------------------------------------------------------------
  // One dialogue line
  // ---------------------------------------------------------------------

  /** `parts = line.strip().split(',', 9)`, then the two times and the
      stripped text field, failing at the first field that is missing or
      not a time, in the order the source reads them. */
  function ParseDialogue(line: string, i: nat): (r: Result<(TimePair, string), Error>)
    ensures r.Err? ==> r.error == MissingField(i) || r.error == BadTime(i)
  {
    var parts := SplitN(Strip(line), ',', 9);
    if |parts| < 2 then Err(MissingField(i))
    else match ParseTime(parts[1])
      case None => Err(BadTime(i))
      case Some(start) =>
        if |parts| < 3 then Err(MissingField(i))
        else match ParseTime(parts[2])
          case None => Err(BadTime(i))
          case Some(end) =>
            if |parts| < 10 then Err(MissingField(i))
            else Ok((TimePair(start, end), Strip(parts[9])))
  }

  /** A dialogue line is accepted exactly when it has all ten fields and
      both times parse; the times and the stripped text are then those
      fields. */
  lemma ParseDialogueFields(line: string, i: nat)
    ensures var r := ParseDialogue(line, i); var parts := SplitN(Strip(line), ',', 9);
      && (r.Ok? <==> |parts| == 10 && ParseTime(parts[1]).Some? && ParseTime(parts[2]).Some?)
      && (r.Ok? ==> r.value == (TimePair(ParseTime(parts[1]).value, ParseTime(parts[2]).value), Strip(parts[9])))
  {
  }

  // ---------------------------------------------------------------------
  // The character scanner
  // ---------------------------------------------------------------------

  /** `current_lyric_word` between two tokens: the spaces gathered so far
      (once a tag has been seen) and the tag itself. */
  datatype Pending = Pending(glyph: Option<string>, tag: Option<string>)

  const Fresh := Pending(None, None)

  function GlyphSoFar(p: Pending): string {
    if p.glyph.Some? then p.glyph.value else ""
  }

  /** `lyric_words[-1][0] += ' '`. */
  function SpaceAfterLast(words: seq<Token>): (r: seq<Token>)
    requires words != []
    ensures |r| == |words| && r[..|words| - 1] == words[..|words| - 1]
    ensures var l := |words| - 1;
      r[l] == words[l].(glyph := words[l].glyph + " ")
  {
    words[|words| - 1 := words[|words| - 1].(glyph := words[|words| - 1].glyph + " ")]
  }

  /** A group opened at the start of `body`'s context: the tag runs to the
      first `}`, or to the end of the text when there is none, and scanning
      resumes after the `}`. */
  function BraceGroup(body: string): (r: (string, string))
    ensures |r.0| + |r.1| <= |body| && Lacks(r.0, '}')
    ensures r.0 == body[..|r.0|]
  {
    match IndexOf(body, '}')
    case None => (body, [])
    case Some(k) => (body[..k], body[k + 1..])
  }

  /** One turn of the `while j < lyric_len` loop of update_lyric.py:76-98
      at the head of what is left of the text of dialogue `i`: the text
      left after it, the tokens and the pending word, or the error the
      source raises. */
  function Step(rest: string, i: nat, ignoreSpace: bool, words: seq<Token>, cur: Pending)
    : (r: Result<(string, seq<Token>, Pending), Error>)
    requires rest != []
    ensures r.Ok? ==> |r.value.0| < |rest|
  {
    if rest[0] == ' ' then
      if ignoreSpace then Ok((rest[1..], words, cur))
      else if cur.tag.None? then
        if words == [] then Err(NoPreviousToken(i))
        else Ok((rest[1..], SpaceAfterLast(words), cur))
      else Ok((rest[1..], words, cur.(glyph := Some(GlyphSoFar(cur) + " "))))
    else if rest[0] == '{' then
      var (tag, after) := BraceGroup(rest[1..]);
      Ok((after, words, cur.(tag := Some(tag))))
    else
      Ok((rest[1..], words + [Token(GlyphSoFar(cur) + [rest[0]], i, cur.tag)], Fresh))
  }

  /** The whole loop: the tokens appended to `words`, or the error. */
  function Scan(rest: string, i: nat, ignoreSpace: bool, words: seq<Token>, cur: Pending): (r: Result<seq<Token>, Error>)
    decreases |rest|
  {
    if rest == [] then Ok(words)
    else match Step(rest, i, ignoreSpace, words, cur)
      case Err(e) => Err(e)
      case Ok((after, ws, next)) => Scan(after, i, ignoreSpace, ws, next)
  }

  /** Every dialogue line from index `i` on: its times, then its tokens. */
  function TokenizeFrom(lines: seq<string>, i: nat, ignoreSpace: bool, words: seq<Token>, times: seq<TimePair>)
    : (r: Result<(seq<Token>, seq<TimePair>), Error>)
    requires i <= |lines|
    decreases |lines| - i
  {
    if i == |lines| then Ok((words, times))
    else match ParseDialogue(lines[i], i)
      case Err(e) => Err(e)
      case Ok((tp, text)) =>
        match Scan(text, i, ignoreSpace, words, Fresh)
        case Err(e) => Err(e)
        case Ok(ws) => TokenizeFrom(lines, i + 1, ignoreSpace, ws, times + [tp])
  }

  /** `lyric_words` and `dialogue_time_rows` for the dialogue lines. */
  function Tokenize(lines: seq<string>, ignoreSpace: bool): Result<(seq<Token>, seq<TimePair>), Error> {
    TokenizeFrom(lines, 0, ignoreSpace, [], [])
  }

  function Suffix(s: string, j: nat): string {
    if j <= |s| then s[j..] else []
  }

  lemma BraceGroupAt(body: string, k: nat)
    requires k <= |body| && Lacks(body[..k], '}')
    requires k < |body| ==> body[k] == '}'
    ensures BraceGroup(body) == (body[..k], Suffix(body, k + 1))
  {
    if k < |body| {
      IndexOfAt(body, '}', k);
    } else {
      assert body[..k] == body;
    }
  }

  /** The scanner of update_lyric.py:69-98, one dialogue line after
      another. */
  method TokenizeDialogues(lines: seq<string>, ignoreSpace: bool) returns (r: Result<(seq<Token>, seq<TimePair>), Error>)
    ensures r == Tokenize(lines, ignoreSpace)
  {
    var lyricWords: seq<Token> := [];
    var timeRows: seq<TimePair> := [];
    for i := 0 to |lines|
      invariant TokenizeFrom(lines, i, ignoreSpace, lyricWords, timeRows) == Tokenize(lines, ignoreSpace)
    {
      var parsed := ParseDialogue(lines[i], i);
      if parsed.Err? {
        return Err(parsed.error);
      }
      var (recorded, text) := parsed.value;
      var scanned := ScanLine(text, i, ignoreSpace, lyricWords);
      if scanned.Err? {
        return Err(scanned.error);
      }
      timeRows := timeRows + [recorded];
      lyricWords := scanned.value;
    }
    return Ok((lyricWords, timeRows));
  }

  /** The inner loop of update_lyric.py:90-92: from just after a `{`, the
      position of the closing `}`, or the end of the text. */
  method SkipTag(text: string, t: nat) returns (j: nat)
    requires t <= |text|
    ensures t <= j <= |text|
    ensures BraceGroup(text[t..]) == (text[t..j], Suffix(text, j + 1))
  {
    j := t;
    while j < |text| && text[j] != '}'
      invariant t <= j <= |text|
      invariant forall l :: t <= l < j ==> text[l] != '}'
    {
      j := j + 1;
    }
    assert Lacks(text[t..j], '}');
    assert text[t..][..j - t] == text[t..j];
    BraceGroupAt(text[t..], j - t);
    assert Suffix(text[t..], j - t + 1) == Suffix(text, j + 1);
  }

  /** The `while j < lyric_len` loop of update_lyric.py:73-98 on the text
      of dialogue `i`, with the same in-place updates of `lyric_words`. */
  method ScanLine(text: string, i: nat, ignoreSpace: bool, words: seq<Token>) returns (r: Result<seq<Token>, Error>)
    ensures r == Scan(text, i, ignoreSpace, words, Fresh)
  {
    var lyricWords := words;
    var j := 0;
    var current := Fresh;
    while j < |text|
      invariant 0 <= j <= |text| + 1
      invariant Scan(Suffix(text, j), i, ignoreSpace, lyricWords, current) == Scan(text, i, ignoreSpace, words, Fresh)
      decreases |text| + 1 - j
    {
      var c := text[j];
      ghost var here := Suffix(text, j);
      ghost var step := Step(here, i, ignoreSpace, lyricWords, current);
      assert here[0] == c && here[1..] == Suffix(text, j + 1);
      assert Scan(here, i, ignoreSpace, lyricWords, current)
          == if step.Err? then Err(step.error) else Scan(step.value.0, i, ignoreSpace, step.value.1, step.value.2);
      j := j + 1;
      if c == ' ' {
        if ignoreSpace {
          assert step == Ok((Suffix(text, j), lyricWords, current));
          continue;
        }
        if current.tag.None? {
          if lyricWords == [] {
            assert step == Err(NoPreviousToken(i));
            return Err(NoPreviousToken(i));
          }
          lyricWords := SpaceAfterLast(lyricWords);
        } else if current.glyph.None? {
          assert GlyphSoFar(current) + " " == " ";
          current := current.(glyph := Some(" "));
        } else {
          current := current.(glyph := Some(current.glyph.value + " "));
        }
        assert step == Ok((Suffix(text, j), lyricWords, current));
        continue;
      }
      if c == '{' {
        var t := j;
        j := SkipTag(text, t);
        assert here[1..] == text[t..];
        current := current.(tag := Some(text[t..j]));
        j := j + 1;
        assert step == Ok((Suffix(text, j), lyricWords, current));
        continue;
      }
      lyricWords := lyricWords + [Token(GlyphSoFar(current) + [c], i, current.tag)];
      current := Fresh;
      assert step == Ok((Suffix(text, j), lyricWords, current));
    }
    return Ok(lyricWords);
  }

  // ---------------------------------------------------------------------
  // What the scanner promises
  // ---------------------------------------------------------------------

  /** The tokens already scanned keep their dialogue index and tag (only a
      space can be added to the last glyph), and every new token belongs
      to dialogue `i`. */
  predicate Extends(ws: seq<Token>, words: seq<Token>, i: nat) {
    && |ws| >= |words|
    && (forall k :: 0 <= k < |words| ==> ws[k].dialogue == words[k].dialogue && ws[k].tag == words[k].tag)
    && (forall k :: 0 <= k < |words| ==> (words[k].glyph != [] ==> ws[k].glyph != []))
    && (forall k :: |words| <= k < |ws| ==> ws[k].dialogue == i && ws[k].glyph != [])
  }

  lemma StepExtends(rest: string, i: nat, ignoreSpace: bool, words: seq<Token>, cur: Pending)
    requires rest != [] && Step(rest, i, ignoreSpace, words, cur).Ok?
    ensures Extends(Step(rest, i, ignoreSpace, words, cur).value.1, words, i)
  {
  }

  lemma ExtendsTrans(a: seq<Token>, b: seq<Token>, c: seq<Token>, i: nat)
    requires Extends(b, a, i) && Extends(c, b, i)
    ensures Extends(c, a, i)
  {
  }

  /** A scan of dialogue `i` only appends tokens of dialogue `i`. */
  lemma {:induction false} ScanExtends(rest: string, i: nat, ignoreSpace: bool, words: seq<Token>, cur: Pending)
    requires Scan(rest, i, ignoreSpace, words, cur).Ok?
    ensures Extends(Scan(rest, i, ignoreSpace, words, cur).value, words, i)
    decreases |rest|
  {
    if rest != [] {
      var step := Step(rest, i, ignoreSpace, words, cur);
      var (after, ws, next) := step.value;
      StepExtends(rest, i, ignoreSpace, words, cur);
      ScanExtends(after, i, ignoreSpace, ws, next);
      ExtendsTrans(words, ws, Scan(after, i, ignoreSpace, ws, next).value, i);
    }
  }

  lemma ExtendsIndexed(ws: seq<Token>, words: seq<Token>, i: nat)
    requires Indexed(words, i + 1) && Extends(ws, words, i)
    ensures Indexed(ws, i + 1)
  {
  }

  /** update_lyric.py:69-98 as a whole: when every dialogue line scans,
      `lyric_words` holds non-empty glyphs whose dialogue indices are in
      range and never decrease, and `dialogue_time_rows` holds one entry
      per line. */
  lemma TokenizeIndexed(lines: seq<string>, ignoreSpace: bool)
    requires Tokenize(lines, ignoreSpace).Ok?
    ensures var (ws, times) := Tokenize(lines, ignoreSpace).value;
      Indexed(ws, |lines|) && |times| == |lines|
  {
    TokenizeFromIndexed(lines, 0, ignoreSpace, [], []);
  }

  lemma {:induction false} TokenizeFromIndexed(lines: seq<string>, i: nat, ignoreSpace: bool, words: seq<Token>, times: seq<TimePair>)
    requires i <= |lines| && Indexed(words, i) && |times| == i
    requires TokenizeFrom(lines, i, ignoreSpace, words, times).Ok?
    ensures var (ws, ts) := TokenizeFrom(lines, i, ignoreSpace, words, times).value;
      Indexed(ws, |lines|) && |ts| == |lines|
    decreases |lines| - i
  {
    if i < |lines| {
      var (tp, text) := ParseDialogue(lines[i], i).value;
      var ws := Scan(text, i, ignoreSpace, words, Fresh).value;
      ScanExtends(text, i, ignoreSpace, words, Fresh);
      ExtendsIndexed(ws, words, i);
      var m := i + 1;
      var times' := times + [tp];
      TokenizeFromIndexed(lines, m, ignoreSpace, ws, times');
    }
  }

  /** Entry `k` of `dialogue_time_rows` holds the times read from dialogue
      line `k`. */
  lemma TokenizeTimes(lines: seq<string>, ignoreSpace: bool, k: nat)
    requires Tokenize(lines, ignoreSpace).Ok? && k < |lines|
    ensures var times := Tokenize(lines, ignoreSpace).value.1;
      ParseDialogue(lines[k], k).Ok? && k < |times| && times[k] == ParseDialogue(lines[k], k).value.0
  {
    TokenizeFromTimes(lines, 0, ignoreSpace, [], [], k);
  }

  /** The time pair read from dialogue line `k`, if it parses. */
  function TimeOf(lines: seq<string>, k: nat): Option<TimePair>
    requires k < |lines|
  {
    match ParseDialogue(lines[k], k)
    case Ok((tp, _)) => Some(tp)
    case Err(_) => None
  }

  lemma {:induction false} TokenizeFromTimes(lines: seq<string>, i: nat, ignoreSpace: bool, words: seq<Token>, times: seq<TimePair>, k: nat)
    requires i <= |lines| && k < |lines| && |times| == i
    requires TokenizeFrom(lines, i, ignoreSpace, words, times).Ok?
    ensures k < |TokenizeFrom(lines, i, ignoreSpace, words, times).value.1|
    ensures k < i ==> TokenizeFrom(lines, i, ignoreSpace, words, times).value.1[k] == times[k]
    ensures k >= i ==> TimeOf(lines, k) == Some(TokenizeFrom(lines, i, ignoreSpace, words, times).value.1[k])
    decreases |lines| - i, 1
  {
    if i < |lines| {
      TokenizeLineTimes(lines, i, ignoreSpace, words, times, k);
    }
  }

  /** `TokenizeFromTimes` when a line is left to read. */
  lemma {:induction false} TokenizeLineTimes(lines: seq<string>, i: nat, ignoreSpace: bool, words: seq<Token>, times: seq<TimePair>, k: nat)
    requires i < |lines| && k < |lines| && |times| == i
    requires TokenizeFrom(lines, i, ignoreSpace, words, times).Ok?
    ensures k < |TokenizeFrom(lines, i, ignoreSpace, words, times).value.1|
    ensures k < i ==> TokenizeFrom(lines, i, ignoreSpace, words, times).value.1[k] == times[k]
    ensures k >= i ==> TimeOf(lines, k) == Some(TokenizeFrom(lines, i, ignoreSpace, words, times).value.1[k])
    decreases |lines| - i, 0
  {
    var tp, ws := TokenizeFromStep(lines, i, ignoreSpace, words, times);
    var times' := times + [tp];
    TokenizeFromTimes(lines, i + 1, ignoreSpace, ws, times', k);
    ghost var ts := TokenizeFrom(lines, i + 1, ignoreSpace, ws, times').value.1;
    assert TokenizeFrom(lines, i, ignoreSpace, words, times).value.1 == ts;
    if k < i {
      assert times'[k] == times[k];
    } else if k == i {
      assert times'[i] == tp;
    }
  }

  /** One dialogue line read: its times appended, the tokens scanned. */
  lemma TokenizeFromStep(lines: seq<string>, i: nat, ignoreSpace: bool, words: seq<Token>, times: seq<TimePair>)
    returns (tp: TimePair, ws: seq<Token>)
    requires i < |lines| && TokenizeFrom(lines, i, ignoreSpace, words, times).Ok?
    ensures TimeOf(lines, i) == Some(tp)
    ensures Scan(ParseDialogue(lines[i], i).value.1, i, ignoreSpace, words, Fresh) == Ok(ws)
    ensures TokenizeFrom(lines, i, ignoreSpace, words, times) == TokenizeFrom(lines, i + 1, ignoreSpace, ws, times + [tp])
  {
    tp := ParseDialogue(lines[i], i).value.0;
    var text := ParseDialogue(lines[i], i).value.1;
    ws := Scan(text, i, ignoreSpace, words, Fresh).value;
  }

  /** The text the scanner shows: everything outside `{...}` groups, where
      a `{` without its `}` hides the rest of the line. */
  function Visible(s: string): string
    decreases |s|
  {
    if s == [] then []
    else if s[0] == '{' then
      match IndexOf(s[1..], '}')
      case None => []
      case Some(k) => Visible(s[k + 2..])
    else [s[0]] + Visible(s[1..])
  }

  /** The scan succeeds and appends to `words` one token per character of
      `v`, in order, whose glyph is that character and whose index is
      `i`. */
  predicate ScansTo(r: Result<seq<Token>, Error>, words: seq<Token>, v: string, i: nat) {
    && r.Ok? && |r.value| == |words| + |v| && r.value[..|words|] == words
    && forall k :: 0 <= k < |v| ==> r.value[|words| + k].glyph == [v[k]] && r.value[|words| + k].dialogue == i
  }

  /** With `ignore_space`, the scan of a line cannot fail, and it appends
      exactly one token per visible non-space character, in order, whose
      glyph is that character and whose index is the line's. */
  lemma {:induction false} ScanIgnoringSpaces(rest: string, i: nat, words: seq<Token>, cur: Pending)
    requires cur.glyph.None?
    ensures ScansTo(Scan(rest, i, true, words, cur), words, Without(Visible(rest), ' '), i)
    decreases |rest|, 1
  {
    if rest == [] {
      assert words[..|words|] == words;
    } else if rest[0] == ' ' {
      ScanSkippedSpace(rest, i, words, cur);
    } else if rest[0] == '{' {
      ScanSkippedGroup(rest, i, words, cur);
    } else {
      ScanLetter(rest, i, words, cur);
    }
  }

  /** `ScanIgnoringSpaces` when the text starts with a space. */
  lemma {:induction false} ScanSkippedSpace(rest: string, i: nat, words: seq<Token>, cur: Pending)
    requires cur.glyph.None? && rest != [] && rest[0] == ' '
    ensures ScansTo(Scan(rest, i, true, words, cur), words, Without(Visible(rest), ' '), i)
    decreases |rest|, 0
  {
    var tail := rest[1..];
    assert Step(rest, i, true, words, cur) == Ok((tail, words, cur));
    assert Scan(rest, i, true, words, cur) == Scan(tail, i, true, words, cur);
    ScanIgnoringSpaces(tail, i, words, cur);
    var vt := Visible(tail);
    assert Visible(rest) == [' '] + vt;
    assert ([' '] + vt)[1..] == vt;
    assert Without(Visible(rest), ' ') == Without(vt, ' ');
  }

  /** `ScanIgnoringSpaces` when the text starts with a `{`. */
  lemma {:induction false} ScanSkippedGroup(rest: string, i: nat, words: seq<Token>, cur: Pending)
    requires cur.glyph.None? && rest != [] && rest[0] == '{'
    ensures ScansTo(Scan(rest, i, true, words, cur), words, Without(Visible(rest), ' '), i)
    decreases |rest|, 0
  {
    var (tag, after) := BraceGroup(rest[1..]);
    assert Step(rest, i, true, words, cur) == Ok((after, words, cur.(tag := Some(tag))));
    assert Scan(rest, i, true, words, cur) == Scan(after, i, true, words, cur.(tag := Some(tag)));
    ScanIgnoringSpaces(after, i, words, cur.(tag := Some(tag)));
    VisibleAfterGroup(rest);
  }

  /** `ScanIgnoringSpaces` when the text starts with a visible letter. */
  lemma {:induction false} ScanLetter(rest: string, i: nat, words: seq<Token>, cur: Pending)
    requires cur.glyph.None? && rest != [] && rest[0] != ' ' && rest[0] != '{'
    ensures ScansTo(Scan(rest, i, true, words, cur), words, Without(Visible(rest), ' '), i)
    decreases |rest|, 0
  {
    var c := rest[0];
    var tail := rest[1..];
    var ws := words + [Token([c], i, cur.tag)];
    assert GlyphSoFar(cur) + [c] == [c];
    assert Step(rest, i, true, words, cur) == Ok((tail, ws, Fresh));
    ScanIgnoringSpaces(tail, i, ws, Fresh);
    assert Visible(rest) == [c] + Visible(tail);
    assert Without(Visible(rest), ' ') == [c] + Without(Visible(tail), ' ');
    var v := Without(Visible(rest), ' ');
    var r := Scan(tail, i, true, ws, Fresh).value;
    forall k | 0 <= k < |v|
      ensures r[|words| + k].glyph == [v[k]] && r[|words| + k].dialogue == i
    {
      if k == 0 {
        assert r[..|ws|][|words|] == ws[|words|];
      } else {
        assert v[k] == Without(Visible(tail), ' ')[k - 1];
        assert |words| + k == |ws| + (k - 1);
      }
    }
    assert r[..|words|] == r[..|ws|][..|words|];
  }

  /** The tag each visible non-space character of `s` carries when spaces
      are ignored: the text of the last `{...}` group since the character
      before it (`tag` for the first character), or `None` when there was
      no group. */
  function VisibleTags(s: string, tag: Option<string>): seq<Option<string>>
    decreases |s|
  {
    if s == [] then []
    else if s[0] == ' ' then VisibleTags(s[1..], tag)
    else if s[0] == '{' then
      var (t, after) := BraceGroup(s[1..]);
      VisibleTags(after, Some(t))
    else [tag] + VisibleTags(s[1..], None)
  }

  /** The scan succeeds and appends to `words` one token per entry of
      `tags`, in order, carrying that tag. */
  predicate TagsTo(r: Result<seq<Token>, Error>, words: seq<Token>, tags: seq<Option<string>>) {
    && r.Ok? && |r.value| == |words| + |tags|
    && forall k :: 0 <= k < |tags| ==> r.value[|words| + k].tag == tags[k]
  }

  /** With `ignore_space`, each `{...}` group becomes the tag of the next
      token emitted, a token with no group before it since the previous one
      has no tag, and `cur.tag` goes to the first token. */
  lemma {:induction false} ScanTags(rest: string, i: nat, words: seq<Token>, cur: Pending)
    requires cur.glyph.None?
    ensures TagsTo(Scan(rest, i, true, words, cur), words, VisibleTags(rest, cur.tag))
    decreases |rest|
  {
    if rest == [] {
    } else if rest[0] == ' ' {
      var tail := rest[1..];
      assert Scan(rest, i, true, words, cur) == Scan(tail, i, true, words, cur);
      ScanTags(tail, i, words, cur);
    } else if rest[0] == '{' {
      var (t, after) := BraceGroup(rest[1..]);
      assert Scan(rest, i, true, words, cur) == Scan(after, i, true, words, cur.(tag := Some(t)));
      ScanTags(after, i, words, cur.(tag := Some(t)));
    } else {
      ScanLetterTags(rest, i, words, cur);
    }
  }

  /** `ScanTags` when the text starts with a visible letter. */
  lemma {:induction false} ScanLetterTags(rest: string, i: nat, words: seq<Token>, cur: Pending)
    requires cur.glyph.None? && rest != [] && rest[0] != ' ' && rest[0] != '{'
    ensures TagsTo(Scan(rest, i, true, words, cur), words, VisibleTags(rest, cur.tag))
    decreases |rest|, 0
  {
    var tail := rest[1..];
    var ws := words + [Token([rest[0]], i, cur.tag)];
    assert GlyphSoFar(cur) + [rest[0]] == [rest[0]];
    assert Scan(rest, i, true, words, cur) == Scan(tail, i, true, ws, Fresh);
    ScanTags(tail, i, ws, Fresh);
    ScanExtends(tail, i, true, ws, Fresh);
    var tags := VisibleTags(rest, cur.tag);
    var r := Scan(tail, i, true, ws, Fresh).value;
    assert tags == [cur.tag] + VisibleTags(tail, None);
    forall k | 0 <= k < |tags|
      ensures r[|words| + k].tag == tags[k]
    {
      if k == 0 {
        assert r[|words|].tag == ws[|words|].tag;
      } else {
        assert |words| + k == |ws| + (k - 1);
      }
    }
  }

  lemma VisibleAfterGroup(s: string)
    requires s != [] && s[0] == '{'
    ensures Visible(s) == Visible(BraceGroup(s[1..]).1)
  {
  }

  /** A `{...}` group only sets the pending tag. */
  lemma ScanGroup(tag: string, rest: string, i: nat, ignoreSpace: bool, words: seq<Token>, cur: Pending)
    requires Lacks(tag, '}')
    ensures Scan("{" + tag + "}" + rest, i, ignoreSpace, words, cur)
         == Scan(rest, i, ignoreSpace, words, cur.(tag := Some(tag)))
  {
    var s := "{" + tag + "}" + rest;
    assert s[1..] == tag + ['}'] + rest;
    IndexOfJoin(tag, '}', rest);
    assert (tag + ['}'] + rest)[..|tag|] == tag;
    assert (tag + ['}'] + rest)[|tag| + 1..] == rest;
  }

  /** Of two groups in a row, only the later one reaches the next token. */
  lemma LaterTagWins(a: string, b: string, rest: string, i: nat, ignoreSpace: bool, words: seq<Token>, cur: Pending)
    requires Lacks(a, '}') && Lacks(b, '}')
    ensures Scan("{" + a + "}" + "{" + b + "}" + rest, i, ignoreSpace, words, cur)
         == Scan("{" + b + "}" + rest, i, ignoreSpace, words, cur)
  {
    assert "{" + a + "}" + "{" + b + "}" + rest == "{" + a + "}" + ("{" + b + "}" + rest);
    ScanGroup(a, "{" + b + "}" + rest, i, ignoreSpace, words, cur);
    ScanGroup(b, rest, i, ignoreSpace, words, cur.(tag := Some(a)));
    ScanGroup(b, rest, i, ignoreSpace, words, cur);
  }
}
