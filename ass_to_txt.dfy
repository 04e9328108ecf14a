/** `ass_to_txt` (ass_to_txt.py): the lyric lines of a subtitle script,
    the text field of every `Dialogue:` line after `[Events]` with its
    `{...}` groups removed. */
module AssToTxt {
  import opened Wrappers
  import opened PyText

  /** Where the `}` closing a group opened just before `t` is: the first
      `}` of `t`, provided no line break comes before it (`.` in
      `\{.*?\}` does not match `\n`). */
  function CloseBrace(t: string): (r: Option<nat>)
    ensures r.Some? ==> r.value < |t| && t[r.value] == '}'
    ensures r.Some? ==> forall k :: 0 <= k < r.value ==> t[k] != '}' && t[k] != '\n'
    ensures r.None? ==> forall k :: 0 <= k < |t| && t[k] == '}' ==> BreakBefore(t, k)
  {
    if t == [] then None
    else if t[0] == '}' then Some(0)
    else if t[0] == '\n' then None
    else match CloseBrace(t[1..])
      case None => None
      case Some(k) => Some(k + 1)
  }

  /** A line break comes before position `k` of `t`. */
  predicate BreakBefore(t: string, k: nat) {
    exists l :: 0 <= l < k && l < |t| && t[l] == '\n'
  }

  /** `re.sub(r"\{.*?\}", "", s)`: scanning left to right, a `{` with a
      closing `}` on the same line goes with everything up to that `}`;
      any other character is kept. */
  function RemoveGroups(s: string): (r: string)
    ensures |r| <= |s|
    decreases |s|
  {
    if s == [] then []
    else if s[0] == '{' then
      match CloseBrace(s[1..])
      case Some(k) => RemoveGroups(s[k + 2..])
      case None => [s[0]] + RemoveGroups(s[1..])
    else [s[0]] + RemoveGroups(s[1..])
  }

  /** The number of commas in front of the text field of a `Dialogue:`
      line. */
  const TextCut: nat := 9

  /** The text field of a stripped `Dialogue:` line, or `None` when the
      line has fewer than ten fields (ass_to_txt.py:23-26). */
  function TextField(line: string): Option<string> {
    var parts := SplitN(line, ',', TextCut);
    if |parts| < 10 then None else Some(parts[9])
  }

  /** What the loop keeps of one line inside the events section. */
  function Lyric(line: string): Option<string> {
    if !StartsWith(line, "Dialogue:") then None
    else match TextField(line)
      case None => None
      case Some(text) =>
        var t := Strip(RemoveGroups(text));
        if t == [] then None else Some(t)
  }

  /** The `for line in lines` loop from line `i` on, with the flag
      `in_events` and the lyrics found so far; `keep` is what the body of
      the loop keeps of a stripped line inside the events section. */
  function Collect(keep: string -> Option<string>, lines: seq<string>, i: nat, inEvents: bool, acc: seq<string>): seq<string>
    requires i <= |lines|
    decreases |lines| - i
  {
    if i == |lines| then acc
    else
      var line := Strip(lines[i]);
      if StartsWith(line, "[Events]") then Collect(keep, lines, i + 1, true, acc)
      else if !inEvents then Collect(keep, lines, i + 1, false, acc)
      else match keep(line)
        case None => Collect(keep, lines, i + 1, true, acc)
        case Some(t) => Collect(keep, lines, i + 1, true, acc + [t])
  }

  /** The `lyrics` list at the end of the loop. */
  function Lyrics(lines: seq<string>): seq<string> {
    Collect(Lyric, lines, 0, false, [])
  }

  /** The text written: `"\n".join(lyrics)`. */
  function Output(lines: seq<string>): string {
    var ls := Lyrics(lines);
    if ls == [] then "" else Join(ls, '\n')
  }

  /** ass_to_txt.py:7-35 on the lines read. */
  method AssToTxtLines(lines: seq<string>) returns (lyrics: seq<string>)
    ensures lyrics == Lyrics(lines)
  {
    var inEvents := false;
    lyrics := [];
    for i := 0 to |lines|
      invariant Collect(Lyric, lines, i, inEvents, lyrics) == Lyrics(lines)
    {
      var line := Strip(lines[i]);
      if StartsWith(line, "[Events]") {
        inEvents := true;
        continue;
      }
      if !inEvents {
        continue;
      }
      if StartsWith(line, "Dialogue:") {
        var parts := SplitN(line, ',', TextCut);
        if |parts| < 10 {
          continue;
        }
        var text := RemoveGroups(parts[9]);
        text := Strip(text);
        if text != [] {
          lyrics := lyrics + [text];
        }
      }
    }
  }

  // ---------------------------------------------------------------------
  // What comes out
  // ---------------------------------------------------------------------

  /** No `{` is left with a `}` after it on the same line. */
  predicate NoGroup(s: string) {
    forall k :: 0 <= k < |s| && s[k] == '{' ==> CloseBrace(s[k + 1..]).None?
  }

  /** Removing groups from a text in which a `}` cannot be reached keeps it
      out of reach. */
  lemma {:induction false} UnclosedStaysUnclosed(t: string)
    requires CloseBrace(t).None?
    ensures CloseBrace(RemoveGroups(t)).None?
    decreases |t|
  {
    if t != [] && t[0] != '\n' {
      var tail := t[1..];
      assert CloseBrace(tail).None?;
      UnclosedStaysUnclosed(tail);
      assert RemoveGroups(t) == [t[0]] + RemoveGroups(tail);
      assert ([t[0]] + RemoveGroups(tail))[1..] == RemoveGroups(tail);
    }
  }

  lemma {:induction false} RemoveGroupsClean(s: string)
    ensures NoGroup(RemoveGroups(s))
    decreases |s|
  {
    if s != [] {
      var tail := s[1..];
      if s[0] == '{' && CloseBrace(tail).Some? {
        var k := CloseBrace(tail).value;
        RemoveGroupsClean(s[k + 2..]);
      } else {
        RemoveGroupsClean(tail);
        var r := RemoveGroups(s);
        var rt := RemoveGroups(tail);
        assert r == [s[0]] + rt;
        if s[0] == '{' {
          UnclosedStaysUnclosed(tail);
        }
        forall k | 0 <= k < |r| && r[k] == '{'
          ensures CloseBrace(r[k + 1..]).None?
        {
          if k > 0 {
            assert r[k + 1..] == rt[k..];
            assert rt[k - 1] == '{';
          } else {
            assert r[1..] == rt;
          }
        }
      }
    }
  }

  lemma {:induction false} CloseBracePrefix(t: string, n: nat)
    requires n <= |t| && CloseBrace(t).None?
    ensures CloseBrace(t[..n]).None?
    decreases n
  {
    if n > 0 && t[0] != '\n' {
      CloseBracePrefix(t[1..], n - 1);
      assert t[..n][1..] == t[1..][..n - 1];
    }
  }

  /** A slice of a text without groups has none either. */
  lemma NoGroupSlice(s: string, i: nat, j: nat)
    requires NoGroup(s) && i <= j <= |s|
    ensures NoGroup(s[i..j])
  {
    var u := s[i..j];
    forall k | 0 <= k < |u| && u[k] == '{'
      ensures CloseBrace(u[k + 1..]).None?
    {
      assert s[i + k] == '{';
      var t := s[i + k + 1..];
      CloseBracePrefix(t, j - (i + k + 1));
      assert u[k + 1..] == t[..j - (i + k + 1)];
    }
  }


  predicate Clean(t: string) {
    t != [] && Strip(t) == t && NoGroup(t)
  }

  /** What is left of a text field once its groups are removed and it is
      stripped has no whitespace around it and no group in it. */
  lemma TextClean(text: string)
    requires Strip(RemoveGroups(text)) != []
    ensures Clean(Strip(RemoveGroups(text)))
  {
    var g := RemoveGroups(text);
    RemoveGroupsClean(text);
    StripNoGroup(g);
    StripIdempotent(g);
  }

  lemma StripNoGroup(g: string)
    requires NoGroup(g)
    ensures NoGroup(Strip(g))
  {
    StripSlice(g);
    var t := Strip(g);
    var a := |g| - |LStrip(g)|;
    var b := a + |t|;
    assert t == g[a..b];
    NoGroupSlice(g, a, b);
  }

  /** A lyric is non-empty, has no whitespace around it and no group left
      in it. */
  lemma LyricClean(line: string)
    requires Lyric(line).Some?
    ensures Clean(Lyric(line).value)
  {
    TextClean(TextField(line).value);
  }

  /** Whatever holds of every text `keep` gives for the remaining lines,
      and of the lyrics found so far, holds of every lyric collected. */
  lemma {:induction false} CollectAll(keep: string -> Option<string>, ok: string -> bool, lines: seq<string>, i: nat, inEvents: bool, acc: seq<string>)
    requires i <= |lines|
    requires forall k :: i <= k < |lines| && keep(Strip(lines[k])).Some? ==> ok(keep(Strip(lines[k])).value)
    requires forall k :: 0 <= k < |acc| ==> ok(acc[k])
    ensures forall k :: 0 <= k < |Collect(keep, lines, i, inEvents, acc)| ==> ok(Collect(keep, lines, i, inEvents, acc)[k])
    decreases |lines| - i
  {
    if i < |lines| {
      var line := Strip(lines[i]);
      if StartsWith(line, "[Events]") {
        CollectAll(keep, ok, lines, i + 1, true, acc);
      } else if !inEvents {
        CollectAll(keep, ok, lines, i + 1, false, acc);
      } else if keep(line).Some? {
        var acc' := acc + [keep(line).value];
        assert forall k :: 0 <= k < |acc'| ==> ok(acc'[k]) by {
          forall k | 0 <= k < |acc'| ensures ok(acc'[k]) {
            if k < |acc| { assert acc'[k] == acc[k]; }
          }
        }
        CollectAll(keep, ok, lines, i + 1, true, acc');
      } else {
        CollectAll(keep, ok, lines, i + 1, true, acc);
      }
    }
  }

  /** Every line written is non-empty, has no whitespace around it and no
      `{...}` group left in it. */
  lemma LyricsClean(lines: seq<string>)
    ensures forall k :: 0 <= k < |Lyrics(lines)| ==> Clean(Lyrics(lines)[k])
  {
    forall line | Lyric(line).Some? ensures Clean(Lyric(line).value) {
      LyricClean(line);
    }
    CollectAll(Lyric, Clean, lines, 0, false, []);
  }

  lemma {:induction false} RemoveGroupsLacks(s: string, c: char)
    requires Lacks(s, c)
    ensures Lacks(RemoveGroups(s), c)
    decreases |s|
  {
    if s != [] {
      if s[0] == '{' && CloseBrace(s[1..]).Some? {
        RemoveGroupsLacks(s[CloseBrace(s[1..]).value + 2..], c);
      } else {
        RemoveGroupsLacks(s[1..], c);
      }
    }
  }

  lemma {:induction false} JoinLastLacks(parts: seq<string>, sep: char, c: char)
    requires |parts| >= 1 && Lacks(Join(parts, sep), c)
    ensures Lacks(parts[|parts| - 1], c)
  {
    if |parts| > 1 {
      var rest := Join(parts[1..], sep);
      assert Join(parts, sep) == parts[0] + [sep] + rest;
      assert forall j :: 0 <= j < |rest| ==> rest[j] == Join(parts, sep)[|parts[0]| + 1 + j];
      JoinLastLacks(parts[1..], sep, c);
    }
  }

  lemma StripLacks(s: string, c: char)
    requires Lacks(s, c)
    ensures Lacks(Strip(s), c)
  {
    StripSlice(s);
  }

  lemma TextFieldLacks(line: string, c: char)
    requires Lacks(line, c) && TextField(line).Some?
    ensures Lacks(TextField(line).value, c)
  {
    var parts := SplitN(line, ',', TextCut);
    assert |parts| == 10;
    JoinSplitN(line, ',', TextCut);
    JoinLastLacks(parts, ',', c);
  }

  /** A line without a line break gives a lyric without one. */
  lemma LyricLacks(line: string, c: char)
    requires Lacks(line, c) && Lyric(line).Some?
    ensures Lacks(Lyric(line).value, c)
  {
    var text := TextField(line).value;
    TextFieldLacks(line, c);
    RemoveGroupsLacks(text, c);
    StripLacks(RemoveGroups(text), c);
  }

  /** The text written, read back line by line, is the list of lyrics:
      when no line has a line break left inside it once stripped (a line
      from `readlines` ends in its only one), the `"\n".join` is undone by
      splitting at the line breaks. */
  lemma OutputLines(lines: seq<string>)
    requires forall k :: 0 <= k < |lines| ==> Lacks(Strip(lines[k]), '\n')
    requires Lyrics(lines) != []
    ensures Split(Output(lines), '\n') == Lyrics(lines)
  {
    var ok := (t: string) => Lacks(t, '\n');
    forall k | 0 <= k < |lines| && Lyric(Strip(lines[k])).Some?
      ensures ok(Lyric(Strip(lines[k])).value)
    {
      LyricLacks(Strip(lines[k]), '\n');
    }
    CollectAll(Lyric, ok, lines, 0, false, []);
    SplitJoin(Lyrics(lines), '\n');
  }

  /** What `keep` gives for each stripped line of `ls`, in order: the
      loop once it is inside the events section. */
  function Kept(keep: string -> Option<string>, ls: seq<string>): seq<string> {
    if ls == [] then []
    else
      match keep(Strip(ls[0]))
      case None => Kept(keep, ls[1..])
      case Some(t) => [t] + Kept(keep, ls[1..])
  }

  /** Inside the events section every line counts, a second `[Events]`
      line included, provided `keep` drops such a line. */
  lemma {:induction false} InEvents(keep: string -> Option<string>, lines: seq<string>, i: nat, acc: seq<string>)
    requires i <= |lines|
    requires forall line :: StartsWith(line, "[Events]") ==> keep(line).None?
    ensures Collect(keep, lines, i, true, acc) == acc + Kept(keep, lines[i..])
    decreases |lines| - i
  {
    if i < |lines| {
      var line := Strip(lines[i]);
      assert lines[i..][1..] == lines[i + 1..];
      assert lines[i..][0] == lines[i];
      if StartsWith(line, "[Events]") {
        InEvents(keep, lines, i + 1, acc);
      } else if keep(line).Some? {
        InEvents(keep, lines, i + 1, acc + [keep(line).value]);
      } else {
        InEvents(keep, lines, i + 1, acc);
      }
    } else {
      assert lines[i..] == [];
    }
  }

  /** Before the first `[Events]` line nothing counts. */
  lemma {:induction false} BeforeEvents(keep: string -> Option<string>, lines: seq<string>, i: nat, h: nat, acc: seq<string>)
    requires i <= h < |lines| && StartsWith(Strip(lines[h]), "[Events]")
    requires forall k :: i <= k < h ==> !StartsWith(Strip(lines[k]), "[Events]")
    ensures Collect(keep, lines, i, false, acc) == Collect(keep, lines, h + 1, true, acc)
    decreases h - i
  {
    if i < h {
      BeforeEvents(keep, lines, i + 1, h, acc);
    }
  }

  /** Without an `[Events]` line nothing counts at all. */
  lemma {:induction false} NeverInEvents(keep: string -> Option<string>, lines: seq<string>, i: nat, acc: seq<string>)
    requires i <= |lines|
    requires forall k :: i <= k < |lines| ==> !StartsWith(Strip(lines[k]), "[Events]")
    ensures Collect(keep, lines, i, false, acc) == acc
    decreases |lines| - i
  {
    if i < |lines| {
      NeverInEvents(keep, lines, i + 1, acc);
    }
  }

  /** A `[Events]` line is not a `Dialogue:` line. */
  lemma HeaderIsNoLyric(line: string)
    requires StartsWith(line, "[Events]")
    ensures Lyric(line).None?
  {
    assert line[0] == '[';
  }

  /** The lyrics are, in order, what each line after the first `[Events]`
      line yields, and there are none when no line opens the events
      section. */
  lemma LyricsAfterEvents(lines: seq<string>, h: nat)
    requires h < |lines| && StartsWith(Strip(lines[h]), "[Events]")
    requires forall k :: 0 <= k < h ==> !StartsWith(Strip(lines[k]), "[Events]")
    ensures Lyrics(lines) == Kept(Lyric, lines[h + 1..])
  {
    forall line | StartsWith(line, "[Events]") ensures Lyric(line).None? {
      HeaderIsNoLyric(line);
    }
    BeforeEvents(Lyric, lines, 0, h, []);
    InEvents(Lyric, lines, h + 1, []);
  }

  /** The number of lines of `ls` that start with `Dialogue:` once
      stripped. */
  function DialogueCount(ls: seq<string>): nat {
    if ls == [] then 0
    else (if StartsWith(Strip(ls[0]), "Dialogue:") then 1 else 0) + DialogueCount(ls[1..])
  }

  /** Only `Dialogue:` lines yield a lyric, at most one each. */
  lemma {:induction false} KeptAtMostDialogues(ls: seq<string>)
    ensures |Kept(Lyric, ls)| <= DialogueCount(ls)
  {
    if ls != [] {
      KeptAtMostDialogues(ls[1..]);
    }
  }

  /** There are no more lyrics than `Dialogue:` lines after the first
      `[Events]` line. */
  lemma LyricsAtMostDialogues(lines: seq<string>, h: nat)
    requires h < |lines| && StartsWith(Strip(lines[h]), "[Events]")
    requires forall k :: 0 <= k < h ==> !StartsWith(Strip(lines[k]), "[Events]")
    ensures |Lyrics(lines)| <= DialogueCount(lines[h + 1..])
  {
    LyricsAfterEvents(lines, h);
    KeptAtMostDialogues(lines[h + 1..]);
  }

  lemma NoEventsNoLyrics(lines: seq<string>)
    requires forall k :: 0 <= k < |lines| ==> !StartsWith(Strip(lines[k]), "[Events]")
    ensures Lyrics(lines) == [] && Output(lines) == ""
  {
    NeverInEvents(Lyric, lines, 0, []);
  }

  /** The text is everything after the ninth comma, commas included: a
      `Dialogue:` line made of nine comma-free fields and a text gives the
      text with its groups removed and stripped. */
  lemma TextAfterNinthComma(fields: seq<string>, text: string)
    requires |fields| == 9 && forall k :: 0 <= k < 9 ==> Lacks(fields[k], ',')
    requires StartsWith(Join(fields + [text], ','), "Dialogue:")
    requires Strip(RemoveGroups(text)) != []
    ensures Lyric(Join(fields + [text], ',')) == Some(Strip(RemoveGroups(text)))
  {
    var parts := fields + [text];
    SplitNJoin(parts, ',', TextCut);
  }

  /** A line with fewer than nine commas yields nothing. */
  lemma ShortLineNoLyric(fields: seq<string>)
    requires 1 <= |fields| <= 9 && forall k :: 0 <= k < |fields| ==> Lacks(fields[k], ',')
    ensures Lyric(Join(fields, ',')).None?
  {
    SplitNJoin(fields, ',', TextCut);
  }
}
