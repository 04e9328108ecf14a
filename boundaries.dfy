/** Boundary synthesis in `replace_ass_lyrics` (update_lyric.py:152-187):
    the start and end time of every row of re-glyphed tokens, either a
    dialogue's recorded boundary or a dialogue start plus the karaoke
    durations found in the tokens' tags. */
module Boundaries {
  import opened Wrappers
  import opened PyText
  import opened Digits
  import opened AssTimes
  import opened Lyrics

  /** Every token names a dialogue line that has a recorded time pair. */
  predicate InRange(ws: seq<Token>, n: nat) {
    forall k :: 0 <= k < |ws| ==> ws[k].dialogue < n
  }

  /** What one token adds under `if tag: temp.add(int(re.search(r'\d+',
      tag).group()))`: nothing for a missing or empty tag, the first run of
      digits otherwise, and the failure of `None.group()` when the tag has
      no digit. */
  function Duration(tag: Option<string>): (r: Result<int, Error>)
    ensures r.Err? ==> tag.Some? && r.error == TagWithoutDigits(tag.value)
    ensures r.Ok? ==> r.value >= 0
  {
    match tag
    case None => Ok(0)
    case Some(t) =>
      if t == [] then Ok(0)
      else match FirstDigitRun(t)
        case None => Err(TagWithoutDigits(t))
        case Some(n) => Ok(n)
  }

  /** A tag fails to give a duration exactly when it is present, not
      empty, and holds no digit. */
  lemma DurationSpec(tag: Option<string>)
    ensures Duration(tag).Err? <==> tag.Some? && tag.value != [] && forall k :: 0 <= k < |tag.value| ==> !IsDigit(tag.value[k])
  {
  }

  /** The durations of `lyric_words[p]` for `p` in `range(lo, hi)`, added
      left to right; `from` may be `-1`, which Python reads as the last
      token. The first tag without a digit stops the sum. */
  function TagSum(ws: seq<Token>, lo: int, hi: int): (r: Result<int, Error>)
    requires lo + |ws| >= 0 && lo <= hi <= |ws|
    ensures r.Ok? ==> r.value >= 0
    decreases hi - lo
  {
    if lo == hi then Ok(0)
    else match TagSum(ws, lo, hi - 1)
      case Err(e) => Err(e)
      case Ok(s) =>
        match Duration(ws[PyIndex(hi - 1, |ws|)].tag)
        case Err(e) => Err(e)
        case Ok(d) => Ok(s + d)
  }

  /** The `while t >= 0 and lyric_words[t][1] == d: t -= 1` walk: the last
      position at or before `t` that is not of dialogue `d`, or `-1`. */
  function RunBefore(ws: seq<Token>, t: int, d: nat): (r: int)
    requires -1 <= t < |ws|
    ensures -1 <= r <= t
    decreases t + 1
  {
    if t >= 0 && ws[t].dialogue == d then RunBefore(ws, t - 1, d) else t
  }

  /** The walk stops at the first position, going back, that is not of
      dialogue `d`, and passes only positions of `d`. */
  lemma {:induction false} RunBeforeSpec(ws: seq<Token>, t: int, d: nat)
    requires -1 <= t < |ws|
    ensures var r := RunBefore(ws, t, d);
      && (forall k :: r < k <= t ==> ws[k].dialogue == d)
      && (r >= 0 ==> ws[r].dialogue != d)
    decreases t + 1
  {
    if t >= 0 && ws[t].dialogue == d {
      RunBeforeSpec(ws, t - 1, d);
    }
  }

  /** update_lyric.py:158-170 for the row starting at `word_index == lo`. */
  function StartTime(ws: seq<Token>, times: seq<TimePair>, lo: nat): Result<int, Error>
    requires lo < |ws| && InRange(ws, |times|)
  {
    var d := ws[lo].dialogue;
    var t := RunBefore(ws, lo - 1, d);
    if t < lo - 1 then
      match TagSum(ws, t + 1, lo)
      case Err(e) => Err(e)
      case Ok(s) => Ok(times[ws[t + 1].dialogue].start + s)
    else Ok(times[d].start)
  }

  /** The `t = 2; while t < len(word_row) and lyric_words[word_index - t][1]
      == e: t += 1` walk of update_lyric.py:179-181, for a row of `len`
      tokens ending just before `hi`. */
  function Reach(ws: seq<Token>, hi: nat, len: nat, e: nat, t: nat): (r: nat)
    requires len <= hi <= |ws| && t >= 2
    ensures t <= r && (r <= len || r == t)
    decreases len - t
  {
    if t < len && ws[hi - t].dialogue == e then Reach(ws, hi, len, e, t + 1) else t
  }

  /** The walk passes only positions of dialogue `e` and stops, short of
      the row's start, at one that is not. */
  lemma {:induction false} ReachSpec(ws: seq<Token>, hi: nat, len: nat, e: nat, t: nat)
    requires len <= hi <= |ws| && t >= 2
    ensures var r := Reach(ws, hi, len, e, t);
      && (forall k :: hi - r < k <= hi - t ==> ws[k].dialogue == e)
      && (r < len ==> ws[hi - r].dialogue != e)
    decreases len - t
  {
    if t < len && ws[hi - t].dialogue == e {
      ReachSpec(ws, hi, len, e, t + 1);
    }
  }

  /** `word_index - t` after the walk: the position the synthesised end
      counts from. For a one-token row it is the position before the row,
      `-1` when the row starts the song. For a longer row it is the last
      position of the row, short of its last two tokens, whose dialogue
      differs from the last token's, or the row's first position when
      there is none. */
  function EndBase(ws: seq<Token>, lo: nat, hi: nat): (b: int)
    requires lo < hi <= |ws|
    ensures hi - lo == 1 ==> b == lo - 1
    ensures hi - lo >= 2 ==> lo <= b <= hi - 2
  {
    var r := Reach(ws, hi, hi - lo, ws[hi - 1].dialogue, 2);
    hi - r
  }

  /** Short of its last token, the last position of a row of two or more
      tokens whose dialogue differs from the last token's, or the row's
      first position when there is none. */
  lemma EndBaseSpec(ws: seq<Token>, lo: nat, hi: nat)
    requires lo < hi <= |ws| && hi - lo >= 2
    ensures var b := EndBase(ws, lo, hi);
      && (forall k :: b < k < hi ==> ws[k].dialogue == ws[hi - 1].dialogue)
      && (b > lo ==> ws[b].dialogue != ws[hi - 1].dialogue)
  {
    ReachSpec(ws, hi, hi - lo, ws[hi - 1].dialogue, 2);
  }

  /** update_lyric.py:173-187 for the row `lyric_words[lo..hi)`, where `hi`
      is `word_index` after the row. */
  function EndTime(ws: seq<Token>, times: seq<TimePair>, lo: nat, hi: nat): Result<int, Error>
    requires lo < hi <= |ws| && InRange(ws, |times|)
  {
    var e := ws[hi - 1].dialogue;
    if hi < |ws| && ws[hi].dialogue > e then Ok(times[e].end)
    else
      var b := EndBase(ws, lo, hi);
      match TagSum(ws, b, hi)
      case Err(e) => Err(e)
      case Ok(s) => Ok(times[ws[PyIndex(b, |ws|)].dialogue].start + s)
  }

  /** Both times of a non-empty row, start first as the source computes
      them. */
  function RowTimes(ws: seq<Token>, times: seq<TimePair>, lo: nat, hi: nat): Result<TimePair, Error>
    requires lo < hi <= |ws| && InRange(ws, |times|)
  {
    match StartTime(ws, times, lo)
    case Err(e) => Err(e)
    case Ok(s) =>
      match EndTime(ws, times, lo, hi)
      case Err(e) => Err(e)
      case Ok(t) => Ok(TimePair(s, t))
  }

  // ---------------------------------------------------------------------
  // The loops, on `AssTime` objects
  // ---------------------------------------------------------------------

  /** `for p in range(lo, hi): tag = lyric_words[p][2]; if tag:
      temp.add(...)` on a fresh copy of a recorded start. */
  method AccumulateTags(ws: seq<Token>, base: int, lo: int, hi: int) returns (r: Result<int, Error>)
    requires lo + |ws| >= 0 && lo <= hi <= |ws|
    ensures r == (match TagSum(ws, lo, hi) case Err(e) => Err(e) case Ok(s) => Ok(base + s))
  {
    var temp := new AssTime(base);
    var p := lo;
    while p < hi
      invariant lo <= p <= hi
      invariant TagSum(ws, lo, p).Ok? && temp.totalHundredths == base + TagSum(ws, lo, p).value
    {
      var tag := ws[PyIndex(p, |ws|)].tag;
      match Duration(tag)
      case Err(e) =>
        TagSumStops(ws, lo, p + 1, hi);
        return Err(e);
      case Ok(d) =>
        temp.Add(d);
      p := p + 1;
    }
    r := Ok(temp.totalHundredths);
  }

  /** Once an initial part of the sum fails, the whole sum fails in the
      same way. */
  lemma {:induction false} TagSumStops(ws: seq<Token>, lo: int, mid: int, hi: int)
    requires lo + |ws| >= 0 && lo <= mid <= hi <= |ws| && TagSum(ws, lo, mid).Err?
    ensures TagSum(ws, lo, hi) == TagSum(ws, lo, mid)
    decreases hi - mid
  {
    if mid < hi {
      TagSumStops(ws, lo, mid, hi - 1);
    }
  }

  /** The `while t >= 0 and lyric_words[t][1] == d: t -= 1` walk of
      update_lyric.py:159-161, from position `from`. */
  method WalkBack(ws: seq<Token>, from: int, d: nat) returns (t: int)
    requires -1 <= from < |ws|
    ensures t == RunBefore(ws, from, d)
  {
    t := from;
    while t >= 0 && ws[t].dialogue == d
      invariant -1 <= t <= from
      invariant RunBefore(ws, t, d) == RunBefore(ws, from, d)
      decreases t + 1
    {
      t := t - 1;
    }
  }

  /** The start-time walk and sum of update_lyric.py:158-170. */
  method ComputeStart(ws: seq<Token>, times: seq<TimePair>, wordIndex: nat) returns (r: Result<int, Error>)
    requires wordIndex < |ws| && InRange(ws, |times|)
    ensures r == StartTime(ws, times, wordIndex)
  {
    var d := ws[wordIndex].dialogue;
    var t := WalkBack(ws, wordIndex - 1, d);
    if t < wordIndex - 1 {
      r := AccumulateTags(ws, times[ws[t + 1].dialogue].start, t + 1, wordIndex);
    } else {
      r := Ok(times[d].start);
    }
  }

  /** The `t = 2; while t < len(word_row) and lyric_words[word_index - t][1]
      == e: t += 1` walk of update_lyric.py:179-181. */
  method WalkReach(ws: seq<Token>, hi: nat, len: nat, e: nat) returns (t: nat)
    requires len <= hi <= |ws|
    ensures t == Reach(ws, hi, len, e, 2)
  {
    t := 2;
    while t < len && ws[hi - t].dialogue == e
      invariant 2 <= t && (t <= len || t == 2)
      invariant Reach(ws, hi, len, e, t) == Reach(ws, hi, len, e, 2)
      decreases len - t
    {
      t := t + 1;
    }
  }

  /** The end-time test, walk and sum of update_lyric.py:173-187; `hi` is
      `word_index` after it has moved past the row. */
  method ComputeEnd(ws: seq<Token>, times: seq<TimePair>, lo: nat, hi: nat) returns (r: Result<int, Error>)
    requires lo < hi <= |ws| && InRange(ws, |times|)
    ensures r == EndTime(ws, times, lo, hi)
  {
    var e := ws[hi - 1].dialogue;
    if hi < |ws| && ws[hi].dialogue > e {
      return Ok(times[e].end);
    }
    var t := WalkReach(ws, hi, hi - lo, e);
    var b := hi - t;
    assert b == EndBase(ws, lo, hi);
    var first := if b >= 0 then b else |ws| + b;
    r := AccumulateTags(ws, times[ws[first].dialogue].start, b, hi);
  }

  // ---------------------------------------------------------------------
  // What the boundaries are
  // ---------------------------------------------------------------------

  /** The start of a row: the recorded start of its first token's
      dialogue when the token before the row is of another dialogue or
      there is none; otherwise that start plus the durations of the
      earlier tokens of the same dialogue, from the first of them up to
      the row. */
  lemma StartTimeSpec(ws: seq<Token>, times: seq<TimePair>, lo: nat)
    requires lo < |ws| && InRange(ws, |times|)
    ensures var d := ws[lo].dialogue;
      (lo == 0 || ws[lo - 1].dialogue != d) ==> StartTime(ws, times, lo) == Ok(times[d].start)
    ensures var d := ws[lo].dialogue; var f := RunBefore(ws, lo - 1, d) + 1;
      && 0 <= f <= lo
      && (forall k :: f <= k <= lo ==> ws[k].dialogue == d)
      && (f == 0 || ws[f - 1].dialogue != d)
      && StartTime(ws, times, lo) == match TagSum(ws, f, lo) case Err(e) => Err(e) case Ok(s) => Ok(times[d].start + s)
  {
    RunBeforeSpec(ws, lo - 1, ws[lo].dialogue);
  }

  /** The end of a row followed by a token of a later dialogue is the
      recorded end of the row's last dialogue. */
  lemma EndTimeRecorded(ws: seq<Token>, times: seq<TimePair>, lo: nat, hi: nat)
    requires lo < hi < |ws| && InRange(ws, |times|)
    requires ws[hi].dialogue > ws[hi - 1].dialogue
    ensures EndTime(ws, times, lo, hi) == Ok(times[ws[hi - 1].dialogue].end)
  {
  }

  /** A row holding exactly the tokens of one dialogue, followed by a
      token of a later dialogue, gets that dialogue's recorded times. */
  lemma WholeDialogueRow(ws: seq<Token>, times: seq<TimePair>, lo: nat, hi: nat)
    requires lo < hi < |ws| && InRange(ws, |times|)
    requires forall k :: lo <= k < hi ==> ws[k].dialogue == ws[lo].dialogue
    requires lo == 0 || ws[lo - 1].dialogue != ws[lo].dialogue
    requires ws[hi].dialogue > ws[lo].dialogue
    ensures RowTimes(ws, times, lo, hi) == Ok(times[ws[lo].dialogue])
  {
    StartTimeSpec(ws, times, lo);
    EndTimeRecorded(ws, times, lo, hi);
  }

  /** With indices non-decreasing, a row of two or more tokens of one
      dialogue that is not followed by a later dialogue ends at that
      dialogue's start plus the durations of the whole row. */
  lemma {:induction false} EndTimeOneDialogue(ws: seq<Token>, times: seq<TimePair>, lo: nat, hi: nat)
    requires hi - lo >= 2 && hi <= |ws| && InRange(ws, |times|)
    requires ws[lo].dialogue == ws[hi - 1].dialogue
    requires forall k, l :: 0 <= k < l < |ws| ==> ws[k].dialogue <= ws[l].dialogue
    requires hi == |ws| || ws[hi].dialogue == ws[hi - 1].dialogue
    ensures EndTime(ws, times, lo, hi)
         == match TagSum(ws, lo, hi) case Err(e) => Err(e) case Ok(s) => Ok(times[ws[lo].dialogue].start + s)
  {
    var b := EndBase(ws, lo, hi);
    EndBaseSpec(ws, lo, hi);
    assert b == lo;
  }

  /** A one-token row not followed by a later dialogue counts from the
      token before it, reading the last token of the song when the row
      starts it: its end is that token's dialogue start plus that token's
      duration and the row's own. */
  lemma EndTimeSingle(ws: seq<Token>, times: seq<TimePair>, lo: nat)
    requires lo < |ws| && InRange(ws, |times|)
    requires lo + 1 == |ws| || ws[lo + 1].dialogue <= ws[lo].dialogue
    ensures var b := PyIndex(lo - 1, |ws|);
      EndTime(ws, times, lo, lo + 1)
        == match Duration(ws[b].tag)
           case Err(e) => Err(e)
           case Ok(x) =>
             match Duration(ws[lo].tag)
             case Err(e) => Err(e)
             case Ok(y) => Ok(times[ws[b].dialogue].start + x + y)
  {
    var b := lo - 1;
    var k := PyIndex(b, |ws|);
    assert EndBase(ws, lo, lo + 1) == b;
    assert TagSum(ws, b, b) == Ok(0);
    assert TagSum(ws, b, lo) == match Duration(ws[k].tag) case Err(e) => Err(e) case Ok(x) => Ok(0 + x);
    assert PyIndex(lo, |ws|) == lo;
  }

  // ---------------------------------------------------------------------
  // Worked examples
  // ---------------------------------------------------------------------

  lemma Kf(n: nat, digits: string)
    requires |digits| >= 1 && AllDigits(digits) && DigitsValue(digits) == n
    ensures Duration(Some("\\kf" + digits)) == Ok(n)
  {
    var t := "\\kf" + digits;
    assert t == "\\kf" + digits + [];
    FirstDigitRunOf("\\kf", digits, []);
  }

  /** One dialogue holding two tokens, re-read as one row: both recorded
      times come back when the two durations fill the dialogue. */
  lemma CleanEdit(a: Token, b: Token, tp: TimePair, x: int, y: int)
    requires a.dialogue == 0 && b.dialogue == 0
    requires Duration(a.tag) == Ok(x) && Duration(b.tag) == Ok(y) && tp.start + x + y == tp.end
    ensures RowTimes([a, b], [tp], 0, 2) == Ok(tp)
  {
    var ws := [a, b];
    EndTimeOneDialogue(ws, [tp], 0, 2);
    assert TagSum(ws, 0, 1) == Ok(x);
  }

  /** One dialogue holding two tokens, split into two one-token rows. The
      second row starts after the first token's duration. The first row
      counts from position `-1`, the last token, so it ends where the two
      durations end, not after its own. */
  lemma InteriorSplit(a: Token, b: Token, tp: TimePair, x: int, y: int)
    requires a.dialogue == 0 && b.dialogue == 0
    requires Duration(a.tag) == Ok(x) && Duration(b.tag) == Ok(y)
    ensures RowTimes([a, b], [tp], 0, 1) == Ok(TimePair(tp.start, tp.start + y + x))
    ensures RowTimes([a, b], [tp], 1, 2) == Ok(TimePair(tp.start + x, tp.start + x + y))
  {
    var ws := [a, b];
    EndTimeSingle(ws, [tp], 0);
    StartTimeSpec(ws, [tp], 1);
    assert RunBefore(ws, 0, 0) == -1;
    assert TagSum(ws, 0, 1) == Ok(x);
    assert EndBase(ws, 1, 2) == 0;
  }

  lemma TwoDigits(s: string)
    requires |s| == 2 && AllDigits(s)
    ensures DigitsValue(s) == DigitValue(s[0]) * 10 + DigitValue(s[1])
  {
    var p := s[..1];
    assert p == [s[0]] && p[..0] == [];
    assert DigitsValue(p) == DigitValue(s[0]);
    assert s[..|s| - 1] == p;
  }

  /** A `\\kf` tag with two digits reads as their value. */
  lemma KfTwo(tag: string, a: char, b: char)
    requires IsDigit(a) && IsDigit(b) && tag == "\\kf" + [a, b]
    ensures Duration(Some(tag)) == Ok(DigitValue(a) * 10 + DigitValue(b))
  {
    var s := [a, b];
    TwoDigits(s);
    Kf(DigitsValue(s), s);
  }

  /** The tags of the one-row worked case last 0.50 seconds. */
  lemma TagKf50()
    ensures Duration(Some("\\kf50")) == Ok(50)
  {
    KfTwo("\\kf50", '5', '0');
  }

  /** The worked case `{\\kf50}A{\\kf50}B` at `0:00:01.00 -> 0:00:02.00`,
      kept as one row, gets the dialogue's own times back. */
  lemma WorkedCleanEdit()
    ensures RowTimes([Token("A", 0, Some("\\kf50")), Token("B", 0, Some("\\kf50"))], [TimePair(100, 200)], 0, 2)
         == Ok(TimePair(100, 200))
  {
    TagKf50();
    CleanEdit(Token("A", 0, Some("\\kf50")), Token("B", 0, Some("\\kf50")), TimePair(100, 200), 50, 50);
  }

  /** The first tag of the split worked case lasts 0.30 seconds. */
  lemma TagKf30()
    ensures Duration(Some("\\kf30")) == Ok(30)
  {
    KfTwo("\\kf30", '3', '0');
  }

  /** The second tag of the split worked case lasts 0.70 seconds. */
  lemma TagKf70()
    ensures Duration(Some("\\kf70")) == Ok(70)
  {
    KfTwo("\\kf70", '7', '0');
  }

  /** The worked case `{\\kf30}A{\\kf70}B` at `0:00:01.00 -> 0:00:02.00`,
      split into the rows `A` and `B`: the first row ends at 2.00, not at
      1.30. */
  lemma WorkedSplitFirst()
    ensures RowTimes([Token("A", 0, Some("\\kf30")), Token("B", 0, Some("\\kf70"))], [TimePair(100, 200)], 0, 1)
         == Ok(TimePair(100, 200))
  {
    TagKf30();
    TagKf70();
    InteriorSplit(Token("A", 0, Some("\\kf30")), Token("B", 0, Some("\\kf70")), TimePair(100, 200), 30, 70);
  }

  /** The same split: the second row starts at 1.30 and ends at 2.00. */
  lemma WorkedSplitSecond()
    ensures RowTimes([Token("A", 0, Some("\\kf30")), Token("B", 0, Some("\\kf70"))], [TimePair(100, 200)], 1, 2)
         == Ok(TimePair(130, 200))
  {
    TagKf30();
    TagKf70();
    InteriorSplit(Token("A", 0, Some("\\kf30")), Token("B", 0, Some("\\kf70")), TimePair(100, 200), 30, 70);
  }
}
