/** `AssTime` (update_lyric.py): a subtitle timestamp held as a whole
    number of hundredths of a second, read from and printed as
    `H:MM:SS.CC`. */
module AssTimes {
  import opened Wrappers
  import opened PyText
  import opened Digits

  /** `str(AssTime(n))`. Python's `//` and `%` by a positive divisor agree
      with Dafny's, so negative values print as Python prints them
      (`-1` becomes `-1:59:59.99`). */
  function Format(n: int): string {
    var totalSeconds := n / 100;
    var hundredths := n % 100;
    var hours := totalSeconds / 3600;
    var remaining := totalSeconds % 3600;
    IntToString(hours) + ":" + Pad2(remaining / 60) + ":" + Pad2(remaining % 60) + "." + Pad2(hundredths)
  }

  /** The string constructor: exactly two `:`, then exactly one `.` in the
      last field, and four fields that `int()` accepts; `None` where the
      source raises `ValueError`. */
  function ParseTime(s: string): Option<int> {
    var fields := Split(s, ':');
    if |fields| != 3 then None
    else
      var rest := Split(fields[2], '.');
      if |rest| != 2 then None
      else
        match (ParseInt(fields[0]), ParseInt(fields[1]), ParseInt(rest[0]), ParseInt(rest[1]))
        case (Some(h), Some(m), Some(sec), Some(c)) => Some(TimeValue(h, m, sec, c))
        case _ => None
  }

  /** The number of hundredths that `h:m:sec.c` stands for. */
  function TimeValue(h: int, m: int, sec: int, c: int): int {
    (h * 3600 + m * 60 + sec) * 100 + c
  }

  lemma Join3(a: string, b: string, c: string, sep: char)
    ensures Join([a, b, c], sep) == a + [sep] + b + [sep] + c
  {
    assert [a, b, c][1..] == [b, c];
    Join2(b, c, sep);
  }

  lemma Join2(a: string, b: string, sep: char)
    ensures Join([a, b], sep) == a + [sep] + b
  {
    assert [a, b][1..] == [b];
  }

  lemma ParsePad2(n: nat)
    requires n < 100
    ensures ParseInt(Pad2(n)) == Some(n)
  {
    StripUntouched(Pad2(n));
  }

  lemma DivMod(n: int, d: int, q: int, r: int)
    requires d > 0 && 0 <= r < d && n == q * d + r
    ensures n / d == q && n % d == r
  {
    var q' := n / d;
    if q > q' {
      MulAtLeast(q - q', d);
    } else if q < q' {
      MulAtLeast(q' - q, d);
    }
  }

  lemma MulAtLeast(a: int, d: int)
    requires a >= 1 && d > 0
    ensures a * d >= d
  {
  }

  lemma DigitsLackSeparators(s: string)
    requires AllDigits(s)
    ensures Lacks(s, ':') && Lacks(s, '.')
  {
  }

  /** The fields of `H:MM:SS.CC` come apart at the separators. */
  lemma SplitTime(h: string, mm: string, ss: string, cc: string)
    requires Lacks(h, ':') && Lacks(mm, ':')
    requires Lacks(ss, ':') && Lacks(ss, '.') && Lacks(cc, ':') && Lacks(cc, '.')
    ensures Split(h + ":" + mm + ":" + ss + "." + cc, ':') == [h, mm, ss + "." + cc]
    ensures Split(ss + "." + cc, '.') == [ss, cc]
  {
    var tail := ss + "." + cc;
    var s := h + ":" + mm + ":" + tail;
    assert h + ":" + mm + ":" + ss + "." + cc == s;
    Join3(h, mm, tail, ':');
    assert Lacks(tail, ':') by {
      forall j | 0 <= j < |tail| ensures tail[j] != ':' {
        if j < |ss| { assert tail[j] == ss[j]; }
        else if j > |ss| { assert tail[j] == cc[j - |ss| - 1]; }
      }
    }
    SplitJoin([h, mm, tail], ':');
    Join2(ss, cc, '.');
    SplitJoin([ss, cc], '.');
  }

  /** ... and are read back one by one. */
  lemma ParseTimeOf(h: string, mm: string, ss: string, cc: string, H: int, M: int, S: int, C: int)
    requires Lacks(h, ':') && Lacks(mm, ':')
    requires Lacks(ss, ':') && Lacks(ss, '.') && Lacks(cc, ':') && Lacks(cc, '.')
    requires ParseInt(h) == Some(H) && ParseInt(mm) == Some(M)
    requires ParseInt(ss) == Some(S) && ParseInt(cc) == Some(C)
    ensures ParseTime(h + ":" + mm + ":" + ss + "." + cc) == Some(TimeValue(H, M, S, C))
  {
    SplitTime(h, mm, ss, cc);
    var fields := [h, mm, ss + "." + cc];
    ParseTimeFields(h + ":" + mm + ":" + ss + "." + cc, fields, [ss, cc], H, M, S, C);
  }

  lemma ParseTimeFields(s: string, fields: seq<string>, rest: seq<string>, H: int, M: int, S: int, C: int)
    requires Split(s, ':') == fields && |fields| == 3
    requires Split(fields[2], '.') == rest && |rest| == 2
    requires ParseInt(fields[0]) == Some(H) && ParseInt(fields[1]) == Some(M)
    requires ParseInt(rest[0]) == Some(S) && ParseInt(rest[1]) == Some(C)
    ensures ParseTime(s) == Some(TimeValue(H, M, S, C))
  {
  }

  /** A printed time holds no comma, so it fits in one field of a dialogue
      line. */
  lemma FormatLacksComma(n: int)
    ensures Lacks(Format(n), ',')
  {
    var totalSeconds := n / 100;
    var hours := totalSeconds / 3600;
    var h := IntToString(hours);
    assert Lacks(h, ',') by {
      if hours < 0 {
        var m: nat := -hours;
        assert h == "-" + NatToDigits(m);
      }
    }
  }

  /** For every integer `n`, `AssTime(str(AssTime(n)))` holds `n` again. */
  lemma ParseFormat(n: int)
    ensures ParseTime(Format(n)) == Some(n)
  {
    var totalSeconds := n / 100;
    var hundredths := n % 100;
    var hours := totalSeconds / 3600;
    var remaining := totalSeconds % 3600;
    var minutes := remaining / 60;
    var seconds := remaining % 60;
    var h := IntToString(hours);
    var mm := Pad2(minutes);
    var ss := Pad2(seconds);
    var cc := Pad2(hundredths);
    assert Format(n) == h + ":" + mm + ":" + ss + "." + cc;
    assert Lacks(h, ':') by {
      if hours < 0 {
        var m: nat := -hours;
        DigitsLackSeparators(NatToDigits(m));
      } else {
        DigitsLackSeparators(h);
      }
    }
    DigitsLackSeparators(mm);
    DigitsLackSeparators(ss);
    DigitsLackSeparators(cc);
    ParseIntToString(hours);
    ParsePad2(minutes);
    ParsePad2(seconds);
    ParsePad2(hundredths);
    ParseTimeOf(h, mm, ss, cc, hours, minutes, seconds, hundredths);
    Recombine(n, totalSeconds, hundredths, hours, remaining, minutes, seconds);
  }

  lemma Recombine(n: int, totalSeconds: int, hundredths: int, hours: int, remaining: int, minutes: int, seconds: int)
    requires totalSeconds == n / 100 && hundredths == n % 100
    requires hours == totalSeconds / 3600 && remaining == totalSeconds % 3600
    requires minutes == remaining / 60 && seconds == remaining % 60
    ensures TimeValue(hours, minutes, seconds, hundredths) == n
  {
  }

  lemma DigitCharOfValue(c: char)
    requires IsDigit(c)
    ensures DigitChar(DigitValue(c)) == c
  {
  }

  /** A two-digit field prints back as itself. */
  lemma Pad2OfValue(s: string)
    requires |s| == 2 && AllDigits(s)
    ensures DigitsValue(s) < 100 && Pad2(DigitsValue(s)) == s
  {
    var p := s[..1];
    assert p[..0] == [] && p[0] == s[0] && s[..|s| - 1] == p;
    var a, b := DigitValue(s[0]), DigitValue(s[1]);
    assert DigitsValue(p) == a;
    var v := DigitsValue(s);
    assert v == a * 10 + b;
    DivMod(v, 10, a, b);
    DigitCharOfValue(s[0]);
    DigitCharOfValue(s[1]);
  }

  /** A well-formed time string (unpadded hours, two-digit minutes and
      seconds below 60, two-digit hundredths) is printed back unchanged. */
  lemma FormatParse(h: string, mm: string, ss: string, cc: string)
    requires |h| >= 1 && AllDigits(h) && (h[0] == '0' ==> |h| == 1)
    requires |mm| == 2 && AllDigits(mm) && DigitsValue(mm) < 60
    requires |ss| == 2 && AllDigits(ss) && DigitsValue(ss) < 60
    requires |cc| == 2 && AllDigits(cc)
    ensures var s := h + ":" + mm + ":" + ss + "." + cc;
      ParseTime(s).Some? && Format(ParseTime(s).value) == s
  {
    var s := h + ":" + mm + ":" + ss + "." + cc;
    DigitsLackSeparators(h);
    DigitsLackSeparators(mm);
    DigitsLackSeparators(ss);
    DigitsLackSeparators(cc);
    var H, M, S, C := DigitsValue(h), DigitsValue(mm), DigitsValue(ss), DigitsValue(cc);
    ParseDigits(h);
    ParseDigits(mm);
    ParseDigits(ss);
    ParseDigits(cc);
    ParseTimeOf(h, mm, ss, cc, H, M, S, C);
    var n := TimeValue(H, M, S, C);
    Pad2OfValue(mm);
    Pad2OfValue(ss);
    Pad2OfValue(cc);
    NatToDigitsOfValue(h);
    FormatOf(n, H, M, S, C);
  }

  lemma FormatOf(n: int, H: nat, M: nat, S: nat, C: nat)
    requires M < 60 && S < 60 && C < 100
    requires n == TimeValue(H, M, S, C)
    ensures Format(n) == NatToDigits(H) + ":" + Pad2(M) + ":" + Pad2(S) + "." + Pad2(C)
  {
    DivMod(n, 100, H * 3600 + M * 60 + S, C);
    DivMod(H * 3600 + M * 60 + S, 3600, H, M * 60 + S);
    DivMod(M * 60 + S, 60, M, S);
  }

  /** The timestamp object; `add` changes it in place. */
  class AssTime {
    var totalHundredths: int

    /** `AssTime(n)` for an integer `n`. */
    constructor (n: int)
      ensures totalHundredths == n
    {
      totalHundredths := n;
    }

    /** `AssTime(s)` for a string: `None` where the source raises. */
    static method FromString(s: string) returns (r: Option<AssTime>)
      ensures r.None? <==> ParseTime(s).None?
      ensures r.Some? ==> fresh(r.value) && r.value.totalHundredths == ParseTime(s).value
    {
      match ParseTime(s)
      case None =>
        r := None;
      case Some(n) =>
        var t := new AssTime(n);
        r := Some(t);
    }

    /** `add`: raises the value by exactly `x`. */
    method Add(x: int)
      modifies this
      ensures totalHundredths == old(totalHundredths) + x
    {
      totalHundredths := totalHundredths + x;
    }

    /** `__str__`: the printed form always reads back as the same value. */
    function ToString(): (s: string)
      reads this
      ensures ParseTime(s) == Some(totalHundredths)
    {
      ParseFormat(totalHundredths);
      Format(totalHundredths)
    }

    /** `copy`: a new object holding the same value. */
    method Copy() returns (c: AssTime)
      ensures fresh(c) && c.totalHundredths == totalHundredths
    {
      c := new AssTime(totalHundredths);
    }
  }

  /** Adding to a copy leaves the original as it was, and two adds land
      where one add of the sum does. */
  method CopyAndAddTwice(t: AssTime, x: int, y: int) returns (c: AssTime)
    ensures fresh(c) && c.totalHundredths == t.totalHundredths + (x + y)
    ensures t.totalHundredths == old(t.totalHundredths)
  {
    c := t.Copy();
    c.Add(x);
    c.Add(y);
  }
}
