/** The re-glyphing stage of `replace_ass_lyrics` (update_lyric.py:124-144):
    the characters of the corrected lyric lines overwrite the token glyphs
    in order, and every corrected line becomes a row of tokens. */
module Reglyph {
  import opened Wrappers
  import opened PyText
  import opened Lyrics

  /** A row of `new_word_rows`: the tokens `lyric_words[lo..hi)`. The
      source's rows hold the very token objects of `lyric_words`, so a
      space added later to a token shows in its row too; a span into the
      final token list says exactly that. */
  datatype Span = Span(lo: nat, hi: nat)

  predicate Glyphed(ws: seq<Token>) {
    forall k :: 0 <= k < |ws| ==> ws[k].glyph != []
  }

  function Last(s: string): char
    requires s != []
  {
    s[|s| - 1]
  }

  /** A space in a corrected line (update_lyric.py:133-136): it goes after
      the previous token unless that token already ends with a space or
      the next one starts with one. `word_index - 1` is `-1` before the
      first token, which Python reads as the last one. */
  function SpaceBefore(ws: seq<Token>, wi: nat): (r: seq<Token>)
    requires wi < |ws| && Glyphed(ws)
    ensures |r| == |ws| && Glyphed(r)
  {
    var prev := PyIndex(wi - 1, |ws|);
    if ws[wi].glyph[0] != ' ' && Last(ws[prev].glyph) != ' ' then
      ws[prev := ws[prev].(glyph := ws[prev].glyph + " ")]
    else ws
  }

  /** The new glyph for character `c` (update_lyric.py:137-142): it keeps
      a leading space, or else a trailing one, of the glyph it replaces. */
  function NewGlyph(was: string, c: char): (g: string)
    requires was != []
    ensures g != []
  {
    if was[0] == ' ' then [' ', c]
    else if Last(was) == ' ' then [c, ' ']
    else [c]
  }

  /** The inner `for c in line` loop: the tokens after placing what is left
      of `line` from `word_index == wi` on, and the new `word_index`. */
  function PlaceChars(ws: seq<Token>, wi: nat, line: string): (r: (seq<Token>, nat))
    requires wi <= |ws| && Glyphed(ws)
    ensures |r.0| == |ws| && Glyphed(r.0) && wi <= r.1 <= |ws|
    decreases |line|
  {
    if line == [] || wi >= |ws| then (ws, wi)
    else if line[0] == ' ' then PlaceChars(SpaceBefore(ws, wi), wi, line[1..])
    else PlaceChars(ws[wi := ws[wi].(glyph := NewGlyph(ws[wi].glyph, line[0]))], wi + 1, line[1..])
  }

  /** The outer `for line in txt_lines` loop: one row per line. */
  function PlaceLines(ws: seq<Token>, wi: nat, lines: seq<string>, rows: seq<Span>): (r: (seq<Token>, seq<Span>))
    requires wi <= |ws| && Glyphed(ws)
    ensures |r.0| == |ws| && Glyphed(r.0) && |r.1| == |rows| + |lines|
    decreases |lines|
  {
    if lines == [] then (ws, rows)
    else
      var (ws', wi') := PlaceChars(ws, wi, lines[0]);
      PlaceLines(ws', wi', lines[1..], rows + [Span(wi, wi')])
  }

  /** `lyric_words` after re-glyphing, and `new_word_rows`. */
  function Regroup(ws: seq<Token>, lines: seq<string>): (seq<Token>, seq<Span>)
    requires Glyphed(ws)
  {
    PlaceLines(ws, 0, lines, [])
  }

  /** update_lyric.py:124-144, overwriting the glyphs of `words` in
      place. */
  method ReplaceGlyphs(words: seq<Token>, txtLines: seq<string>) returns (lyricWords: seq<Token>, rows: seq<Span>)
    requires Glyphed(words)
    ensures (lyricWords, rows) == Regroup(words, txtLines)
  {
    lyricWords := words;
    rows := [];
    var wordIndex: nat := 0;
    for li := 0 to |txtLines|
      invariant |lyricWords| == |words| && Glyphed(lyricWords) && wordIndex <= |words|
      invariant PlaceLines(lyricWords, wordIndex, txtLines[li..], rows) == Regroup(words, txtLines)
    {
      var rowStart := wordIndex;
      lyricWords, wordIndex := PlaceLine(lyricWords, wordIndex, txtLines[li]);
      assert txtLines[li..][1..] == txtLines[li + 1..];
      rows := rows + [Span(rowStart, wordIndex)];
    }
  }

  /** The step of `PlaceChars` at a space. */
  lemma PlaceCharsSpace(ws: seq<Token>, wi: nat, line: string)
    requires wi < |ws| && Glyphed(ws) && line != [] && line[0] == ' '
    ensures PlaceChars(ws, wi, line) == PlaceChars(SpaceBefore(ws, wi), wi, line[1..])
  {
  }

  /** The step of `PlaceChars` at any other character. */
  lemma PlaceCharsLetter(ws: seq<Token>, wi: nat, line: string)
    requires wi < |ws| && Glyphed(ws) && line != [] && line[0] != ' '
    ensures var ws' := ws[wi := ws[wi].(glyph := NewGlyph(ws[wi].glyph, line[0]))];
      && |ws'| == |ws| && Glyphed(ws')
      && PlaceChars(ws, wi, line) == PlaceChars(ws', wi + 1, line[1..])
  {
    var ws' := ws[wi := ws[wi].(glyph := NewGlyph(ws[wi].glyph, line[0]))];
    forall k | 0 <= k < |ws'| ensures ws'[k].glyph != [] {
      if k != wi {
        assert ws'[k] == ws[k];
      }
    }
  }

  /** A space of the corrected line (update_lyric.py:133-136), at
      `word_index == wi`. */
  method SpaceStep(words: seq<Token>, wi: nat) returns (lyricWords: seq<Token>)
    requires wi < |words| && Glyphed(words)
    ensures lyricWords == SpaceBefore(words, wi)
  {
    lyricWords := words;
    var prev := if wi >= 1 then wi - 1 else |words| - 1;
    assert prev == PyIndex(wi - 1, |words|);
    if words[wi].glyph[0] != ' ' && Last(words[prev].glyph) != ' ' {
      lyricWords := words[prev := words[prev].(glyph := words[prev].glyph + " ")];
    }
  }

  /** Any other character `c` of the corrected line
      (update_lyric.py:137-143): it becomes the glyph of the token at
      `word_index == wi`. */
  method LetterStep(words: seq<Token>, wi: nat, c: char) returns (lyricWords: seq<Token>)
    requires wi < |words| && Glyphed(words)
    ensures lyricWords == words[wi := words[wi].(glyph := NewGlyph(words[wi].glyph, c))]
  {
    var was := words[wi].glyph;
    var glyph;
    if was[0] == ' ' {
      glyph := [' ', c];
    } else if was[|was| - 1] == ' ' {
      glyph := [c, ' '];
    } else {
      glyph := [c];
    }
    lyricWords := words[wi := words[wi].(glyph := glyph)];
  }

  /** The inner loop of update_lyric.py:130-144: the characters of one
      corrected line, from `word_index` on. */
  method PlaceLine(words: seq<Token>, start: nat, line: string) returns (lyricWords: seq<Token>, wordIndex: nat)
    requires start <= |words| && Glyphed(words)
    ensures (lyricWords, wordIndex) == PlaceChars(words, start, line)
  {
    lyricWords := words;
    wordIndex := start;
    var totalWords := |lyricWords|;
    for j := 0 to |line|
      invariant |lyricWords| == totalWords && Glyphed(lyricWords) && wordIndex <= totalWords
      invariant PlaceChars(lyricWords, wordIndex, line[j..]) == PlaceChars(words, start, line)
    {
      if wordIndex >= totalWords {
        break;
      }
      var c := line[j];
      assert line[j..][1..] == line[j + 1..];
      if c == ' ' {
        PlaceCharsSpace(lyricWords, wordIndex, line[j..]);
        lyricWords := SpaceStep(lyricWords, wordIndex);
      } else {
        PlaceCharsLetter(lyricWords, wordIndex, line[j..]);
        lyricWords := LetterStep(lyricWords, wordIndex, c);
        wordIndex := wordIndex + 1;
      }
    }
  }

  // ---------------------------------------------------------------------
  // What re-glyphing promises
  // ---------------------------------------------------------------------

  /** A glyph without its spaces. */
  function Letters(g: string): string {
    Without(g, ' ')
  }

  /** The number of non-space characters of `s`. */
  function Count(s: string): nat {
    |Without(s, ' ')|
  }

  function Min(a: nat, b: nat): nat {
    if a <= b then a else b
  }

  /** Same length, and every token keeps its dialogue index and tag. */
  predicate SameSlots(a: seq<Token>, b: seq<Token>) {
    |a| == |b| && forall k :: 0 <= k < |a| ==> a[k].dialogue == b[k].dialogue && a[k].tag == b[k].tag
  }

  lemma {:induction false} WithoutAppend(a: string, b: string, c: char)
    ensures Without(a + b, c) == Without(a, c) + Without(b, c)
  {
    if a != [] {
      var t := a[1..];
      WithoutAppend(t, b, c);
      assert (a + b)[1..] == t + b;
    } else {
      assert a + b == b;
    }
  }

  lemma LettersSpaced(g: string)
    ensures Letters(g + " ") == Letters(g)
  {
    WithoutAppend(g, " ", ' ');
  }

  lemma LettersNewGlyph(was: string, c: char)
    requires was != [] && c != ' '
    ensures Letters(NewGlyph(was, c)) == [c]
  {
    assert Without([c], ' ') == [c] + Without([], ' ');
    assert Without([' ', c], ' ') == Without([c], ' ') by {
      assert [' ', c][1..] == [c];
    }
    assert Without([c, ' '], ' ') == [c] + Without([' '], ' ') by {
      assert [c, ' '][1..] == [' '];
    }
    assert Without([' '], ' ') == Without([], ' ');
  }

  /** `r` is `ws` with the tokens `[lo, hi)` given the characters of `v`,
      in order, as their letters, and nothing else changed but spaces. */
  predicate Placed(r: seq<Token>, ws: seq<Token>, lo: nat, hi: nat, v: string) {
    && lo <= hi <= |ws| && hi - lo <= |v| && SameSlots(r, ws)
    && forall k :: 0 <= k < |ws| ==>
         Letters(r[k].glyph) == if lo <= k < hi then [v[k - lo]] else Letters(ws[k].glyph)
  }

  /** Two placements one after the other, the first one complete or the
      second one empty, make one placement. */
  lemma PlacedTrans(a: seq<Token>, b: seq<Token>, c: seq<Token>, lo: nat, mid: nat, hi: nat, v1: string, v2: string)
    requires Placed(b, a, lo, mid, v1) && Placed(c, b, mid, hi, v2)
    requires mid - lo == |v1| || mid == hi
    ensures Placed(c, a, lo, hi, v1 + v2)
  {
    var v := v1 + v2;
    forall k | 0 <= k < |a|
      ensures Letters(c[k].glyph) == if lo <= k < hi then [v[k - lo]] else Letters(a[k].glyph)
    {
      if lo <= k < mid {
        assert v[k - lo] == v1[k - lo];
      } else if mid <= k < hi {
        assert v[k - lo] == v2[k - mid];
      }
    }
  }

  lemma SpaceBeforePlaced(ws: seq<Token>, wi: nat)
    requires wi < |ws| && Glyphed(ws)
    ensures Placed(SpaceBefore(ws, wi), ws, wi, wi, [])
  {
    var prev := PyIndex(wi - 1, |ws|);
    LettersSpaced(ws[prev].glyph);
  }

  lemma NewGlyphPlaced(ws: seq<Token>, wi: nat, c: char)
    requires wi < |ws| && Glyphed(ws) && c != ' '
    ensures Placed(ws[wi := ws[wi].(glyph := NewGlyph(ws[wi].glyph, c))], ws, wi, wi + 1, [c])
  {
    LettersNewGlyph(ws[wi].glyph, c);
  }

  /** Placing one line from `word_index == wi` on: `word_index` advances by
      the line's non-space characters, capped at the number of tokens, and
      the tokens passed over get those characters, in order, as their
      letters; every other token keeps its letters, and every token its
      index and tag. */
  lemma {:induction false} PlaceCharsSpec(ws: seq<Token>, wi: nat, line: string)
    requires wi <= |ws| && Glyphed(ws)
    ensures var (r, wi') := PlaceChars(ws, wi, line);
      wi' == Min(|ws|, wi + Count(line)) && Placed(r, ws, wi, wi', Without(line, ' '))
    decreases |line|, 1
  {
    if line == [] || wi >= |ws| {
      assert Placed(ws, ws, wi, wi, Without(line, ' '));
    } else if line[0] == ' ' {
      PlaceSpace(ws, wi, line);
    } else {
      PlaceLetter(ws, wi, line);
    }
  }

  /** `PlaceCharsSpec` when the line starts with a space. */
  lemma {:induction false} PlaceSpace(ws: seq<Token>, wi: nat, line: string)
    requires wi < |ws| && Glyphed(ws) && line != [] && line[0] == ' '
    ensures var (r, wi') := PlaceChars(ws, wi, line);
      wi' == Min(|ws|, wi + Count(line)) && Placed(r, ws, wi, wi', Without(line, ' '))
    decreases |line|, 0
  {
    var tail := line[1..];
    var (r, wi') := PlaceChars(ws, wi, line);
    var ws1 := SpaceBefore(ws, wi);
    SpaceBeforePlaced(ws, wi);
    PlaceCharsSpec(ws1, wi, tail);
    assert Without(line, ' ') == [] + Without(tail, ' ');
    PlacedTrans(ws, ws1, r, wi, wi, wi', [], Without(tail, ' '));
  }

  /** `PlaceCharsSpec` when the line starts with a letter. */
  lemma {:induction false} PlaceLetter(ws: seq<Token>, wi: nat, line: string)
    requires wi < |ws| && Glyphed(ws) && line != [] && line[0] != ' '
    ensures var (r, wi') := PlaceChars(ws, wi, line);
      wi' == Min(|ws|, wi + Count(line)) && Placed(r, ws, wi, wi', Without(line, ' '))
    decreases |line|, 0
  {
    var tail := line[1..];
    var (r, wi') := PlaceChars(ws, wi, line);
    var c := line[0];
    var ws1 := ws[wi := ws[wi].(glyph := NewGlyph(ws[wi].glyph, c))];
    NewGlyphPlaced(ws, wi, c);
    var next := wi + 1;
    PlaceCharsSpec(ws1, next, tail);
    assert Without(line, ' ') == [c] + Without(tail, ' ');
    PlacedTrans(ws, ws1, r, wi, next, wi', [c], Without(tail, ' '));
  }

  lemma ConcatCons(l: string, rest: seq<string>)
    ensures Concat([l] + rest) == l + Concat(rest)
  {
    assert ([l] + rest)[1..] == rest;
  }

  /** Row `j` of `rows` runs from the non-space characters of `lines`
      before line `j` to those through line `j`, counted from `wi` and
      capped at `n`. */
  predicate RowsAre(rows: seq<Span>, n: nat, wi: nat, lines: seq<string>) {
    |rows| == |lines| &&
    forall j :: 0 <= j < |rows| ==>
      rows[j] == Span(Min(n, wi + Count(Concat(lines[..j]))), Min(n, wi + Count(Concat(lines[..j + 1]))))
  }

  lemma PrefixCount(lines: seq<string>, i: nat)
    requires lines != [] && i <= |lines| - 1
    ensures Count(Concat(lines[..i + 1])) == Count(lines[0]) + Count(Concat(lines[1..][..i]))
  {
    assert lines[..i + 1] == [lines[0]] + lines[1..][..i];
    ConcatCons(lines[0], lines[1..][..i]);
    WithoutAppend(lines[0], Concat(lines[1..][..i]), ' ');
  }

  lemma RowsCons(rows: seq<Span>, n: nat, wi: nat, wi1: nat, lines: seq<string>)
    requires lines != [] && rows != [] && wi <= n
    requires wi1 == Min(n, wi + Count(lines[0])) && rows[0] == Span(wi, wi1)
    requires RowsAre(rows[1..], n, wi1, lines[1..])
    ensures RowsAre(rows, n, wi, lines)
  {
    var tail := lines[1..];
    forall j | 0 <= j < |rows|
      ensures rows[j] == Span(Min(n, wi + Count(Concat(lines[..j]))), Min(n, wi + Count(Concat(lines[..j + 1]))))
    {
      PrefixCount(lines, j);
      if j == 0 {
        assert lines[..0] == [] && tail[..0] == [];
      } else {
        PrefixCount(lines, j - 1);
        assert rows[j] == rows[1..][j - 1];
      }
    }
  }

  /** The rows the outer loop appends. */
  lemma {:induction false} PlaceLinesRows(ws: seq<Token>, wi: nat, lines: seq<string>, rows: seq<Span>)
    requires wi <= |ws| && Glyphed(ws)
    ensures var rows' := PlaceLines(ws, wi, lines, rows).1;
      rows'[..|rows|] == rows && RowsAre(rows'[|rows|..], |ws|, wi, lines)
    decreases |lines|
  {
    var rows' := PlaceLines(ws, wi, lines, rows).1;
    if lines != [] {
      var l := lines[0];
      var tail := lines[1..];
      var (ws1, wi1) := PlaceChars(ws, wi, l);
      PlaceCharsSpec(ws, wi, l);
      var rows1 := rows + [Span(wi, wi1)];
      PlaceLinesRows(ws1, wi1, tail, rows1);
      assert rows'[..|rows|] == rows'[..|rows1|][..|rows|];
      assert rows'[|rows|..][1..] == rows'[|rows1|..];
      RowsCons(rows'[|rows|..], |ws|, wi, wi1, lines);
    }
  }

  /** The placement the outer loop makes. */
  lemma {:induction false} PlaceLinesPlaced(ws: seq<Token>, wi: nat, lines: seq<string>, rows: seq<Span>)
    requires wi <= |ws| && Glyphed(ws)
    ensures Placed(PlaceLines(ws, wi, lines, rows).0, ws, wi, Min(|ws|, wi + Count(Concat(lines))), Without(Concat(lines), ' '))
    decreases |lines|
  {
    var r := PlaceLines(ws, wi, lines, rows).0;
    if lines == [] {
      assert Placed(ws, ws, wi, wi, "");
    } else {
      var l := lines[0];
      var tail := lines[1..];
      var (ws1, wi1) := PlaceChars(ws, wi, l);
      PlaceCharsSpec(ws, wi, l);
      var rows1 := rows + [Span(wi, wi1)];
      PlaceLinesPlaced(ws1, wi1, tail, rows1);
      assert lines == [l] + tail;
      ConcatCons(l, tail);
      WithoutAppend(l, Concat(tail), ' ');
      PlacedTrans(ws, ws1, r, wi, wi1, Min(|ws|, wi1 + Count(Concat(tail))), Without(l, ' '), Without(Concat(tail), ' '));
    }
  }

  /** update_lyric.py:124-144 as a whole. Row `j` is `lyric_words[lo..hi)`
      where `lo` and `hi` count the non-space characters of the corrected
      lines before and through line `j`, capped at the number of tokens.
      The first `k` tokens, `k` the smaller of the two totals, carry the
      corrected characters, in order, as their letters; the characters
      past `k` are dropped; every other token keeps its letters, and every
      token its dialogue index and tag. */
  lemma RegroupSpec(ws: seq<Token>, lines: seq<string>)
    requires Glyphed(ws)
    ensures var (r, rows) := Regroup(ws, lines);
      && Glyphed(r) && RowsAre(rows, |ws|, 0, lines)
      && Placed(r, ws, 0, Min(|ws|, Count(Concat(lines))), Without(Concat(lines), ' '))
  {
    PlaceLinesRows(ws, 0, lines, []);
    PlaceLinesPlaced(ws, 0, lines, []);
  }

  /** The rows follow one another without gap or overlap, from the first
      token to the `k`-th. */
  lemma RowsTile(ws: seq<Token>, lines: seq<string>)
    requires Glyphed(ws) && lines != []
    ensures var rows := Regroup(ws, lines).1;
      && |rows| == |lines| && rows[0].lo == 0
      && (forall j :: 0 <= j < |rows| - 1 ==> rows[j].hi == rows[j + 1].lo)
      && (forall j :: 0 <= j < |rows| ==> rows[j].lo <= rows[j].hi)
      && rows[|rows| - 1].hi == Min(|ws|, Count(Concat(lines)))
  {
    RegroupSpec(ws, lines);
    Tiled(Regroup(ws, lines).1, |ws|, lines);
  }

  /** Rows laid out by `RowsAre` from the first token on tile the tokens
      they cover. */
  lemma Tiled(rows: seq<Span>, n: nat, lines: seq<string>)
    requires RowsAre(rows, n, 0, lines) && lines != []
    ensures rows[0].lo == 0
    ensures forall j :: 0 <= j < |rows| - 1 ==> rows[j].hi == rows[j + 1].lo
    ensures forall j :: 0 <= j < |rows| ==> rows[j].lo <= rows[j].hi
    ensures rows[|rows| - 1].hi == Min(n, Count(Concat(lines)))
  {
    assert lines[..0] == [];
    assert Count(Concat([])) == 0;
    assert rows[0] == Span(Min(n, 0 + Count(Concat(lines[..0]))), Min(n, 0 + Count(Concat(lines[..1]))));
    assert lines[..|lines|] == lines;
    forall j | 0 <= j < |rows|
      ensures rows[j].lo <= rows[j].hi
    {
      PrefixGrows(lines, j);
    }
    forall j | 0 <= j < |rows| - 1
      ensures rows[j].hi == rows[j + 1].lo
    {
      var i := j + 1;
      assert rows[i] == Span(Min(n, 0 + Count(Concat(lines[..i]))), Min(n, 0 + Count(Concat(lines[..i + 1]))));
    }
  }

  lemma PrefixGrows(lines: seq<string>, j: nat)
    requires j < |lines|
    ensures Count(Concat(lines[..j])) <= Count(Concat(lines[..j + 1]))
  {
    assert lines[..j + 1] == lines[..j] + [lines[j]];
    ConcatSnoc(lines[..j], lines[j]);
    WithoutAppend(Concat(lines[..j]), lines[j], ' ');
  }

  lemma {:induction false} ConcatSnoc(a: seq<string>, l: string)
    ensures Concat(a + [l]) == Concat(a) + l
  {
    if a != [] {
      var t := a[1..];
      ConcatSnoc(t, l);
      assert (a + [l])[1..] == t + [l];
    } else {
      assert [] + [l] == [l];
      assert Concat([l]) == l + Concat([]);
    }
  }
}
