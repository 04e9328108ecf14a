/** The handful of Python `str` operations the scripts rely on: `strip()`,
    `startswith`, `split(sep[, maxsplit])`, `sep.join`, `''.join` and
    `replace(' ', '')`, each written out on `seq<char>`. */
module PyText {
  import opened Wrappers

  /** The characters Python's `str.strip()` removes (those for which
      `str.isspace()` holds). */
  predicate IsSpace(c: char) {
    || c == ' ' || c == '\t' || c == '\n' || c == '\r' || c == '\U{B}' || c == '\U{C}'
    || ('\U{1C}' <= c <= '\U{1F}') || c == '\U{85}' || c == '\U{A0}' || c == '\U{1680}'
    || ('\U{2000}' <= c <= '\U{200A}') || c == '\U{2028}' || c == '\U{2029}'
    || c == '\U{202F}' || c == '\U{205F}' || c == '\U{3000}'
  }

  /** `s.lstrip()`. */
  function LStrip(s: string): string {
    if s != [] && IsSpace(s[0]) then LStrip(s[1..]) else s
  }

  /** `lstrip()` removes a leading run of whitespace and stops at the first
      other character. */
  lemma {:induction false} LStripCut(s: string)
    ensures var r := LStrip(s);
      && |r| <= |s| && r == s[|s| - |r|..]
      && (r != [] ==> !IsSpace(r[0]))
      && forall k :: 0 <= k < |s| - |r| ==> IsSpace(s[k])
  {
    if s != [] && IsSpace(s[0]) {
      var t := s[1..];
      LStripCut(t);
      assert forall k :: 1 <= k < |s| ==> s[k] == t[k - 1];
    }
  }

  /** `s.rstrip()`. */
  function RStrip(s: string): string {
    if s != [] && IsSpace(s[|s| - 1]) then RStrip(s[..|s| - 1]) else s
  }

  /** `rstrip()` removes a trailing run of whitespace and stops at the last
      other character. */
  lemma {:induction false} RStripCut(s: string)
    ensures var r := RStrip(s);
      && |r| <= |s| && r == s[..|r|]
      && (r != [] ==> !IsSpace(r[|r| - 1]))
      && forall k :: |r| <= k < |s| ==> IsSpace(s[k])
  {
    if s != [] && IsSpace(s[|s| - 1]) {
      var t := s[..|s| - 1];
      RStripCut(t);
    }
  }

  /** `s.strip()`: the longest run of `s` that neither starts nor ends with
      whitespace, once the whitespace around it is removed. */
  function Strip(s: string): (r: string)
    ensures r != [] ==> !IsSpace(r[0]) && !IsSpace(r[|r| - 1])
  {
    LStripCut(s);
    RStripCut(LStrip(s));
    RStrip(LStrip(s))
  }

  /** What `strip()` removes is whitespace, from both ends, and nothing
      else. */
  lemma StripCut(s: string)
    ensures |LStrip(s)| <= |s|
    ensures var a := |s| - |LStrip(s)|; var r := Strip(s);
      && a + |r| <= |s| && r == s[a..a + |r|]
      && (forall k :: 0 <= k < a ==> IsSpace(s[k]))
      && (forall k :: a + |r| <= k < |s| ==> IsSpace(s[k]))
  {
    LStripCut(s);
    RStripCut(LStrip(s));
  }

  /** `strip()` gives a slice of its argument. */
  lemma StripSlice(s: string)
    ensures |LStrip(s)| <= |s|
    ensures var a := |s| - |LStrip(s)|;
      a + |Strip(s)| <= |s| && Strip(s) == s[a..a + |Strip(s)|]
  {
    StripCut(s);
  }

  /** A string whose ends are not whitespace is its own `strip()`. */
  lemma StripUntouched(s: string)
    requires s != [] ==> !IsSpace(s[0]) && !IsSpace(s[|s| - 1])
    ensures Strip(s) == s
  {
    assert LStrip(s) == s;
    assert RStrip(s) == s;
  }

  lemma StripIdempotent(s: string)
    ensures Strip(Strip(s)) == Strip(s)
  {
    StripUntouched(Strip(s));
  }

  /** `rstrip()` of a string with one more character in front. */
  lemma {:induction false} RStripCons(c: char, s: string)
    ensures RStrip([c] + s) == if RStrip(s) == [] && IsSpace(c) then [] else [c] + RStrip(s)
    decreases |s|
  {
    var t := [c] + s;
    if s != [] && IsSpace(s[|s| - 1]) {
      var s' := s[..|s| - 1];
      assert t[..|t| - 1] == [c] + s';
      RStripCons(c, s');
    } else if s == [] {
      assert t[..|t| - 1] == [];
    }
  }

  /** `lstrip()` and `rstrip()` commute. */
  lemma {:induction false} StripsCommute(s: string)
    ensures LStrip(RStrip(s)) == RStrip(LStrip(s))
    decreases |s|
  {
    if s != [] {
      var t := s[1..];
      assert s == [s[0]] + t;
      RStripCons(s[0], t);
      if IsSpace(s[0]) {
        StripsCommute(t);
      } else {
        RStripCut(s);
      }
    }
  }

  lemma RStripIdempotent(s: string)
    ensures RStrip(RStrip(s)) == RStrip(s)
  {
    RStripCut(s);
  }

  /** Stripping the right end first changes nothing. */
  lemma StripRStrip(s: string)
    ensures Strip(RStrip(s)) == Strip(s)
  {
    StripsCommute(s);
    StripsCommute(RStrip(s));
    RStripIdempotent(LStrip(s));
    StripsCommute(s);
  }

  /** `rstrip()` stops at a non-space character. */
  lemma {:induction false} RStripAfter(a: string, b: string)
    requires a != [] && !IsSpace(a[|a| - 1])
    ensures RStrip(a + b) == a + RStrip(b)
    decreases |b|
  {
    var t := a + b;
    if b == [] {
      assert t == a;
    } else if IsSpace(b[|b| - 1]) {
      var b' := b[..|b| - 1];
      assert t[..|t| - 1] == a + b';
      RStripAfter(a, b');
    }
  }

  predicate StartsWith(s: string, prefix: string) {
    |prefix| <= |s| && forall j :: 0 <= j < |prefix| ==> s[j] == prefix[j]
  }

  /** No occurrence of `c` in `s`. */
  predicate Lacks(s: string, c: char) {
    forall j :: 0 <= j < |s| ==> s[j] != c
  }

  /** `s.find(c)`, with `None` for -1. */
  function IndexOf(s: string, c: char): (r: Option<nat>)
    ensures r.Some? ==> r.value < |s| && s[r.value] == c && Lacks(s[..r.value], c)
    ensures r.None? ==> Lacks(s, c)
  {
    if s == [] then None
    else if s[0] == c then Some(0)
    else match IndexOf(s[1..], c)
      case None => None
      case Some(k) => Some(k + 1)
  }

  /** `s.find(c)` is the first position holding `c`. */
  lemma {:induction false} IndexOfAt(s: string, c: char, k: nat)
    requires k < |s| && s[k] == c && Lacks(s[..k], c)
    ensures IndexOf(s, c) == Some(k)
  {
    if k > 0 {
      assert s[..k][0] == s[0];
      var t := s[1..];
      var j: nat := k - 1;
      assert t[..j] == s[..k][1..];
      IndexOfAt(t, c, j);
    }
  }

  /** `sep.join(parts)` for a non-empty list of parts. */
  function Join(parts: seq<string>, sep: char): string
    requires |parts| >= 1
  {
    if |parts| == 1 then parts[0] else parts[0] + [sep] + Join(parts[1..], sep)
  }

  /** `s.split(sep, n)`: at most `n` cuts, at the leftmost separators; the
      last part keeps whatever separators remain. */
  function SplitN(s: string, sep: char, n: nat): (parts: seq<string>)
    ensures 1 <= |parts| <= n + 1
    decreases n
  {
    if n == 0 then [s]
    else match IndexOf(s, sep)
      case None => [s]
      case Some(k) => [s[..k]] + SplitN(s[k + 1..], sep, n - 1)
  }

  /** The parts `split` cuts off hold no separator, nor does the last one
      when the cut budget is not used up. */
  lemma {:induction false} SplitNParts(s: string, sep: char, n: nat)
    ensures var parts := SplitN(s, sep, n);
      && (forall k :: 0 <= k < |parts| - 1 ==> Lacks(parts[k], sep))
      && (|parts| <= n ==> Lacks(parts[|parts| - 1], sep))
    decreases n
  {
    if n > 0 && IndexOf(s, sep).Some? {
      var k := IndexOf(s, sep).value;
      var m: nat := n - 1;
      SplitNParts(s[k + 1..], sep, m);
      var rest := SplitN(s[k + 1..], sep, m);
      var parts := SplitN(s, sep, n);
      assert parts == [s[..k]] + rest;
      forall j | 0 <= j < |parts| - 1 ensures Lacks(parts[j], sep) {
        if j > 0 { assert parts[j] == rest[j - 1]; }
      }
    }
  }

  /** `s.split(sep)` with no limit: every part is free of `sep`. */
  function Split(s: string, sep: char): (parts: seq<string>)
    ensures |parts| >= 1
    ensures forall k :: 0 <= k < |parts| ==> Lacks(parts[k], sep)
  {
    SplitNParts(s, sep, |s|);
    SplitNLength(s, sep, |s|);
    SplitN(s, sep, |s|)
  }

  /** Each cut uses up a separator of `s`, and the last part is what is
      left after the last cut. */
  lemma {:induction false} SplitNLength(s: string, sep: char, n: nat)
    ensures var parts := SplitN(s, sep, n); |parts[|parts| - 1]| + |parts| - 1 <= |s|
    decreases n
  {
    if n > 0 && IndexOf(s, sep).Some? {
      var k := IndexOf(s, sep).value;
      SplitNLength(s[k + 1..], sep, n - 1);
    }
  }

  lemma IndexOfJoin(a: string, sep: char, b: string)
    requires Lacks(a, sep)
    ensures IndexOf(a + [sep] + b, sep) == Some(|a|)
  {
    var s := a + [sep] + b;
    assert s[|a|] == sep;
    assert s[..|a|] == a;
  }

  /** Splitting undoes joining whenever the parts could have come out of
      the split: no separator in the cut parts, and none in the last part
      unless the cut budget is used up. */
  lemma {:induction false} SplitNJoin(fs: seq<string>, sep: char, n: nat)
    requires 1 <= |fs| <= n + 1
    requires forall k :: 0 <= k < |fs| - 1 ==> Lacks(fs[k], sep)
    requires |fs| <= n ==> Lacks(fs[|fs| - 1], sep)
    ensures SplitN(Join(fs, sep), sep, n) == fs
    decreases n
  {
    if |fs| > 1 {
      var others := fs[1..];
      var m: nat := n - 1;
      TailLacks(fs, sep);
      SplitNJoin(others, sep, m);
      SplitNJoinStep(fs, sep, n);
    } else {
      assert Join(fs, sep) == fs[0];
      assert n > 0 ==> IndexOf(fs[0], sep).None?;
    }
  }

  lemma TailLacks(fs: seq<string>, sep: char)
    requires |fs| > 1 && forall k :: 0 <= k < |fs| - 1 ==> Lacks(fs[k], sep)
    ensures forall j :: 0 <= j < |fs| - 2 ==> Lacks(fs[1..][j], sep)
    ensures fs[1..][|fs| - 2] == fs[|fs| - 1]
  {
    forall j | 0 <= j < |fs| - 2 ensures Lacks(fs[1..][j], sep) {
      assert fs[1..][j] == fs[j + 1];
    }
  }

  lemma SplitNJoinStep(fs: seq<string>, sep: char, n: nat)
    requires 2 <= |fs| <= n + 1 && Lacks(fs[0], sep)
    requires SplitN(Join(fs[1..], sep), sep, n - 1) == fs[1..]
    ensures SplitN(Join(fs, sep), sep, n) == fs
  {
    var first := fs[0];
    var others := fs[1..];
    var rest := Join(others, sep);
    JoinCons(fs, sep);
    IndexOfJoin(first, sep, rest);
    SliceAround(first, sep, rest);
    SplitNCons(first + [sep] + rest, sep, n, |first|, first, rest, others);
    assert fs == [first] + others;
  }

  /** One step of `sep.join`: the first part, the separator, and the join
      of the others. */
  lemma JoinCons(fs: seq<string>, sep: char)
    requires |fs| >= 2
    ensures Join(fs, sep) == fs[0] + [sep] + Join(fs[1..], sep)
  {
  }

  /** The two sides of a character put between two strings. */
  lemma SliceAround(a: string, c: char, b: string)
    ensures (a + [c] + b)[..|a|] == a && (a + [c] + b)[|a| + 1..] == b
  {
  }

  /** Joining the parts of a split gives back the original string. */
  lemma {:induction false} JoinSplitN(s: string, sep: char, n: nat)
    ensures Join(SplitN(s, sep, n), sep) == s
    decreases n
  {
    var r := IndexOf(s, sep);
    if n > 0 && r.Some? {
      var k := r.value;
      var tail := s[k + 1..];
      var m: nat := n - 1;
      JoinSplitN(tail, sep, m);
      var rest := SplitN(tail, sep, m);
      SplitNCons(s, sep, n, k, s[..k], tail, rest);
      JoinAt(s, k, rest, sep);
    } else {
      assert SplitN(s, sep, n) == [s];
    }
  }

  lemma JoinAt(s: string, k: nat, rest: seq<string>, sep: char)
    requires k < |s| && s[k] == sep && |rest| >= 1
    requires Join(rest, sep) == s[k + 1..]
    ensures Join([s[..k]] + rest, sep) == s
  {
    assert ([s[..k]] + rest)[1..] == rest;
    assert s == s[..k] + [s[k]] + s[k + 1..];
  }

  lemma SplitNCons(s: string, sep: char, n: nat, k: nat, first: string, tail: string, rest: seq<string>)
    requires n > 0 && IndexOf(s, sep) == Some(k)
    requires s[..k] == first && s[k + 1..] == tail && SplitN(tail, sep, n - 1) == rest
    ensures SplitN(s, sep, n) == [first] + rest
  {
  }

  lemma SplitJoin(fs: seq<string>, sep: char)
    requires |fs| >= 1
    requires forall k :: 0 <= k < |fs| ==> Lacks(fs[k], sep)
    ensures Split(Join(fs, sep), sep) == fs
  {
    var s := Join(fs, sep);
    JoinLength(fs, sep);
    SplitNJoin(fs, sep, |s|);
  }

  lemma {:induction false} JoinLength(fs: seq<string>, sep: char)
    requires |fs| >= 1
    ensures |Join(fs, sep)| >= |fs| - 1
  {
    if |fs| > 1 {
      JoinLength(fs[1..], sep);
    }
  }

  /** The last part of a join follows the last separator. */
  lemma {:induction false} JoinSnoc(fs: seq<string>, sep: char)
    requires |fs| >= 2
    ensures Join(fs, sep) == Join(fs[..|fs| - 1], sep) + [sep] + fs[|fs| - 1]
    decreases |fs|
  {
    var init := fs[..|fs| - 1];
    if |fs| > 2 {
      var others := fs[1..];
      JoinSnoc(others, sep);
      assert others[..|others| - 1] == init[1..];
      assert init[0] == fs[0];
    } else {
      assert init == [fs[0]];
      assert fs[1..] == [fs[1]];
    }
  }

  /** The first part of a split is where the string starts. */
  lemma SplitNFirst(s: string, sep: char, n: nat)
    ensures var first := SplitN(s, sep, n)[0]; |first| <= |s| && first == s[..|first|]
  {
  }

  lemma Assoc(a: string, b: string, c: string)
    ensures (a + b) + c == a + (b + c)
  {
  }

  lemma CutAt<T>(xs: seq<T>, k: nat)
    requires k <= |xs|
    ensures xs[..k] + xs[k..] == xs
  {
  }

  /** `''.join(parts)`. */
  function Concat(parts: seq<string>): string {
    if parts == [] then "" else parts[0] + Concat(parts[1..])
  }

  /** `s.replace(c, '')`. */
  function Without(s: string, c: char): (r: string)
    ensures Lacks(r, c) && |r| <= |s|
  {
    if s == [] then "" else (if s[0] == c then "" else [s[0]]) + Without(s[1..], c)
  }

  /** Python's reading of `xs[i]` for `-len(xs) <= i < len(xs)`. */
  function PyIndex(i: int, n: nat): (k: nat)
    requires -(n as int) <= i < n
    ensures k < n && (k == i || k == i + n)
  {
    if i < 0 then i + n else i
  }
}
