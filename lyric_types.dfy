/** The records `replace_ass_lyrics` (update_lyric.py) works on, and the
    ways it can fail. */
module Lyrics {
  import opened Wrappers

  /** One entry of `lyric_words`: `[glyph, dialogue_index, tag]`. The tag
      is the text of the last `{...}` group before the glyph, or `None`
      when there was none. */
  datatype Token = Token(glyph: string, dialogue: nat, tag: Option<string>)

  /** One entry of `dialogue_time_rows`: the recorded start and end of a
      dialogue line, in hundredths of a second. */
  datatype TimePair = TimePair(start: int, end: int)

  /** Where the source raises; the index is the dialogue line's position
      after the header. */
  datatype Error =
    | NoEventsSection        // the `ValueError` when no line starts with `[Events]`
    | MissingField(line: nat) // an `IndexError` on `parts[1]`, `parts[2]` or `parts[9]`
    | BadTime(line: nat)      // a `ValueError` from `AssTime(parts[1])` or `AssTime(parts[2])`
    | NoPreviousToken(line: nat) // `lyric_words[-1]` on an empty list
    | TagWithoutDigits(tag: string) // `re.search(r'\d+', tag)` returns `None`
    | NoTemplateLine         // `dialogue_lines[0]` on an empty list
    | FirstBlockShifted      // `.a` read from the dict that stands in for `matches[-1]`

  /** Tokens exactly as the tokenizer produces them: a non-empty glyph,
      a dialogue index below `n`, indices non-decreasing along the list. */
  predicate Indexed(ws: seq<Token>, n: nat) {
    && (forall k :: 0 <= k < |ws| ==> ws[k].glyph != [] && ws[k].dialogue < n)
    && (forall k, l :: 0 <= k < l < |ws| ==> ws[k].dialogue <= ws[l].dialogue)
  }
}
