/** infra/logging/logger.go: the names of log files, printed by datedSeqPath, found again by the globs
    of logFiles, and read back by dateValueFromPath.  Names are taken without their directory. */
module LogNames {
  import opened Results

  // ---- Numbers ----

  predicate IsDigit(c: char) { '0' <= c <= '9' }

  predicate AllDigits(s: string) { forall c | c in s :: IsDigit(c) }

  function DigitOf(d: nat): char
    requires d < 10
  {
    (d + 48) as char
  }

  function Pow10(width: nat): (p: nat)
    ensures p >= 1
  {
    if width == 0 then 1 else 10 * Pow10(width - 1)
  }

  /** `n` in exactly `width` digits. */
  function Pad(n: nat, width: nat): (s: string)
    ensures |s| == width && AllDigits(s)
  {
    if width == 0 then "" else Pad(n / 10, width - 1) + [DigitOf(n % 10)]
  }

  /** %d of a positive number. */
  function Decimal(n: nat): (s: string)
    ensures |s| > 0 && AllDigits(s)
  {
    if n < 10 then [DigitOf(n)] else Decimal(n / 10) + [DigitOf(n % 10)]
  }

  function Number(s: string): nat
    requires AllDigits(s)
  {
    if s == "" then 0
    else
      assert s[|s| - 1] in s;
      Number(s[..|s| - 1]) * 10 + s[|s| - 1] as int - 48
  }

  lemma NumberMore(s: string, d: nat)
    requires AllDigits(s) && d < 10
    ensures AllDigits(s + [DigitOf(d)]) && Number(s + [DigitOf(d)]) == Number(s) * 10 + d
  {
    assert (s + [DigitOf(d)])[..|s|] == s;
  }

  lemma {:induction false} NumberOfPad(n: nat, width: nat)
    requires n < Pow10(width)
    ensures Number(Pad(n, width)) == n
  {
    if width == 0 {
    } else {
      NumberOfPad(n / 10, width - 1);
      NumberMore(Pad(n / 10, width - 1), n % 10);
    }
  }

  lemma {:induction false} NumberOfDecimal(n: nat)
    ensures Number(Decimal(n)) == n
  {
    if n < 10 {
      NumberMore("", n);
      assert "" + [DigitOf(n)] == [DigitOf(n)];
    } else {
      NumberOfDecimal(n / 10);
      NumberMore(Decimal(n / 10), n % 10);
    }
  }

  lemma {:induction false} PadOfNumber(s: string)
    requires AllDigits(s)
    ensures Number(s) < Pow10(|s|) && Pad(Number(s), |s|) == s
  {
    if s == "" {
    } else {
      var front, last := s[..|s| - 1], s[|s| - 1];
      assert last in s;
      PadOfNumber(front);
      assert s == front + [last] && DigitOf(last as int - 48) == last;
    }
  }

  // ---- Dates ----

  datatype Date = Date(year: nat, month: nat, day: nat)

  predicate Leap(year: nat) { year % 4 == 0 && (year % 100 != 0 || year % 400 == 0) }

  function DaysIn(month: nat, year: nat): nat {
    if month == 2 then if Leap(year) then 29 else 28
    else if month in {4, 6, 9, 11} then 30
    else 31
  }

  predicate IsDate(d: Date) {
    d.year <= 9999 && 1 <= d.month <= 12 && 1 <= d.day <= DaysIn(d.month, d.year)
  }

  /** Format("2006-01-02"). */
  function DayOf(d: Date): (s: string)
    ensures |s| == 10
  {
    Pad(d.year, 4) + "-" + Pad(d.month, 2) + "-" + Pad(d.day, 2)
  }

  /** time.Parse("2006-01-02", s). */
  function ParseDay(s: string): Option<Date> {
    if |s| != 10 || s[4] != '-' || s[7] != '-' then None
    else if !AllDigits(s[..4]) || !AllDigits(s[5..7]) || !AllDigits(s[8..]) then None
    else
      var d := Date(Number(s[..4]), Number(s[5..7]), Number(s[8..]));
      if IsDate(d) then Some(d) else None
  }

  lemma DayParsesBack(d: Date)
    requires IsDate(d)
    ensures ParseDay(DayOf(d)) == Some(d)
  {
    hide Pad, Number;
    NumberOfPad(d.year, 4);
    NumberOfPad(d.month, 2);
    NumberOfPad(d.day, 2);
    var s := DayOf(d);
    assert s[..4] == Pad(d.year, 4) && s[5..7] == Pad(d.month, 2) && s[8..] == Pad(d.day, 2);
  }

  lemma ParsesOnlyDays(s: string, d: Date)
    requires ParseDay(s) == Some(d)
    ensures IsDate(d) && s == DayOf(d)
  {
    hide Pad, Number;
    PadOfNumber(s[..4]);
    PadOfNumber(s[5..7]);
    PadOfNumber(s[8..]);
    assert s == s[..4] + "-" + s[5..7] + "-" + s[8..];
  }

  /** A date parses back from the day it is printed as, and nothing else parses to it. */
  lemma DayParses(s: string, d: Date)
    ensures ParseDay(s) == Some(d) <==> IsDate(d) && s == DayOf(d)
  {
    hide ParseDay, DayOf;
    if ParseDay(s) == Some(d) { ParsesOnlyDays(s, d); }
    if IsDate(d) { DayParsesBack(d); }
  }

  // ---- Names ----

  /** filepath.Ext: from the last dot on, if there is one. */
  function Ext(base: string): (e: string)
    ensures |e| <= |base| && base[|base| - |e|..] == e
    ensures e != "" ==> e[0] == '.'
  {
    if base == "" then ""
    else
      var e := Ext(base[..|base| - 1]);
      if base[|base| - 1] == '.' then "."
      else if e == "" then ""
      else
        assert base == base[..|base| - 1] + [base[|base| - 1]];
        e + [base[|base| - 1]]
  }

  function Stem(base: string): string { base[..|base| - |Ext(base)|] }

  function Suffix(seqNo: nat): string { if seqNo == 0 then "" else "." + Decimal(seqNo) }

  /** datedSeqPath. */
  function Name(base: string, d: Date, seqNo: nat): string {
    Stem(base) + "-" + DayOf(d) + Suffix(seqNo) + Ext(base)
  }

  predicate HasSuffix(s: string, end: string) { |end| <= |s| && s[|s| - |end|..] == end }

  function TrimSuffix(s: string, end: string): string {
    if HasSuffix(s, end) then s[..|s| - |end|] else s
  }

  function IndexDot(s: string): (i: nat)
    ensures i <= |s| && (i < |s| ==> s[i] == '.') && '.' !in s[..i]
  {
    if s == "" || s[0] == '.' then 0
    else
      var i := IndexDot(s[1..]);
      assert s[..1 + i] == [s[0]] + s[1..][..i];
      1 + i
  }

  /** dateValueFromPath, from what is left between the stem and the extension. */
  function ParseMiddle(s: string): Option<Date> {
    var dot := IndexDot(s);
    if dot == |s| then ParseDay(s)
    else if s[dot + 1..] == "" || !AllDigits(s[dot + 1..]) then None
    else ParseDay(s[..dot])
  }

  /** dateValueFromPath. */
  function ParseName(base: string, file: string): Option<Date> {
    var stem := Stem(base) + "-";
    if !(stem <= file) || !HasSuffix(file, Ext(base)) then None
    else ParseMiddle(TrimSuffix(file[|stem|..], Ext(base)))
  }

  /** A day, alone or with a run of digits behind a dot. */
  predicate DaySuffix(t: string) { t == "" || (|t| > 1 && t[0] == '.' && AllDigits(t[1..])) }

  lemma DashesAndDigits(d: Date)
    ensures '.' !in DayOf(d)
  {
    assert forall c | c in Pad(d.year, 4) + Pad(d.month, 2) + Pad(d.day, 2) :: IsDigit(c);
  }

  lemma DotIs(s: string, i: nat)
    requires i <= |s| && '.' !in s[..i] && (i < |s| ==> s[i] == '.')
    ensures IndexDot(s) == i
  {
  }

  lemma MiddleParses(s: string, d: Date)
    ensures ParseMiddle(s) == Some(d) <==> IsDate(d) && DayOf(d) <= s && DaySuffix(s[10..])
  {
    if IsDate(d) && DayOf(d) <= s && DaySuffix(s[10..]) {
      DashesAndDigits(d);
      assert s[..10] == DayOf(d);
      if |s| > 10 { assert s[10..][0] == s[10] && s[10..][1..] == s[11..]; }
      DotIs(s, 10);
      DayParses(s[..10], d);
      assert |s| == 10 ==> s == s[..10];
    }
    if ParseMiddle(s) == Some(d) {
      var dot := IndexDot(s);
      DayParses(s[..dot], d);
      assert dot == |s| ==> s[..dot] == s;
      assert dot == 10 && s[..10] == DayOf(d);
      if |s| > 10 { assert s[10..][1..] == s[11..]; }
    }
  }

  /** Retention reads a date from a name long enough for stem, dash and extension exactly when the name
      is that date's, with or without a run of digits; a stray `.bak` is never taken for a log file. */
  lemma ParsesExactly(base: string, file: string, d: Date)
    requires |file| >= |Stem(base)| + 1 + |Ext(base)|
    ensures ParseName(base, file) == Some(d) <==>
            IsDate(d) && exists t :: DaySuffix(t) && file == Stem(base) + "-" + DayOf(d) + t + Ext(base)
  {
    hide ParseName, DaySuffix, IsDate, DayOf, Stem, Ext;
    if ParseName(base, file) == Some(d) {
      var t := ParsedIsNamed(base, file, d);
    }
    forall t | DaySuffix(t) && IsDate(d) && file == Stem(base) + "-" + DayOf(d) + t + Ext(base)
      ensures ParseName(base, file) == Some(d)
    {
      NamedParses(base, d, t);
    }
  }

  lemma ParsedIsNamed(base: string, file: string, d: Date) returns (t: string)
    requires |file| >= |Stem(base)| + 1 + |Ext(base)| && ParseName(base, file) == Some(d)
    ensures IsDate(d) && DaySuffix(t) && file == Stem(base) + "-" + DayOf(d) + t + Ext(base)
  {
    hide DaySuffix, IsDate, DayOf, Stem, Ext, ParseMiddle, TrimSuffix, HasSuffix;
    var stem, ext := Stem(base) + "-", Ext(base);
    var middle := TrimSuffix(file[|stem|..], ext);
    WholeName(file, stem, ext);
    MiddleParses(middle, d);
    t := middle[10..];
    Regroup(stem, DayOf(d), middle, ext);
  }

  lemma WholeName(file: string, stem: string, ext: string)
    requires stem <= file && HasSuffix(file, ext) && |file| >= |stem| + |ext|
    ensures file == stem + TrimSuffix(file[|stem|..], ext) + ext
  {
    var rest := file[|stem|..];
    assert file == stem + rest;
    assert rest[|rest| - |ext|..] == file[|file| - |ext|..];
    assert rest == rest[..|rest| - |ext|] + ext;
  }

  lemma Regroup(stem: string, day: string, middle: string, ext: string)
    requires |day| == 10 && day <= middle
    ensures stem + middle + ext == stem + day + middle[10..] + ext
  {
    assert middle == day + middle[10..];
    assert stem + (day + middle[10..]) == stem + day + middle[10..];
  }

  lemma NamedParses(base: string, d: Date, t: string)
    requires DaySuffix(t) && IsDate(d)
    ensures ParseName(base, Stem(base) + "-" + DayOf(d) + t + Ext(base)) == Some(d)
  {
    hide DayOf, Stem, Ext, IsDate, DaySuffix, ParseMiddle;
    var stem, ext, middle := Stem(base) + "-", Ext(base), DayOf(d) + t;
    var file := Stem(base) + "-" + DayOf(d) + t + ext;
    assert file == stem + (middle + ext);
    assert file[|stem|..] == middle + ext;
    assert HasSuffix(middle + ext, ext) && (middle + ext)[..|middle|] == middle;
    assert HasSuffix(file, ext);
    assert middle[10..] == t;
    MiddleParses(middle, d);
  }

  lemma SuffixIsDaySuffix(seqNo: nat)
    ensures DaySuffix(Suffix(seqNo))
  {
    if seqNo > 0 { assert Suffix(seqNo)[1..] == Decimal(seqNo); }
  }

  /** Every generated name reads back as its own day. */
  lemma NameParsesBack(base: string, d: Date, seqNo: nat)
    requires IsDate(d)
    ensures ParseName(base, Name(base, d, seqNo)) == Some(d)
  {
    SuffixIsDaySuffix(seqNo);
    NamedParses(base, d, Suffix(seqNo));
  }

  /** No two files share a name. */
  lemma NamesAreUnique(base: string, d: Date, i: nat, e: Date, j: nat)
    requires IsDate(d) && IsDate(e) && Name(base, d, i) == Name(base, e, j)
    ensures d == e && i == j
  {
    NameParsesBack(base, d, i);
    NameParsesBack(base, e, j);
    var head := Stem(base) + "-" + DayOf(d);
    var s, t := Suffix(i), Suffix(j);
    assert Name(base, d, i)[|head|..|head| + |s|] == s;
    assert Name(base, d, j)[|head|..|head| + |t|] == t;
    assert |s| == |t|;
    if i > 0 && j > 0 {
      assert s[1..] == Decimal(i) && t[1..] == Decimal(j);
      NumberOfDecimal(i);
      NumberOfDecimal(j);
    }
  }

  // ---- Globs ----

  /** filepath.Match on names without a separator, for patterns without classes and escapes. */
  predicate Matches(pattern: string, name: string)
    decreases |pattern| + |name|
  {
    if pattern == "" then name == ""
    else if pattern[0] == '*' then Matches(pattern[1..], name) || (name != "" && Matches(pattern, name[1..]))
    else name != "" && (pattern[0] == '?' || pattern[0] == name[0]) && Matches(pattern[1..], name[1..])
  }

  /** Without the characters that mean something in a pattern. */
  predicate Plain(s: string) { forall c | c in s :: c !in "*?[\\" }

  function AnyDay(): string { "????-??-??" }

  function PlainGlob(base: string): string { Stem(base) + "-" + AnyDay() + Ext(base) }

  function SequencedGlob(base: string): string { Stem(base) + "-" + AnyDay() + ".*" + Ext(base) }

  predicate Globbed(base: string, file: string) {
    Matches(PlainGlob(base), file) || Matches(SequencedGlob(base), file)
  }

  /** A pattern character that stands for one character, and one it stands for. */
  predicate Fits(p: string, s: string) {
    |p| == |s| && forall i | 0 <= i < |p| :: p[i] != '*' && (p[i] == '?' || p[i] == s[i])
  }

  lemma {:induction false} MatchFront(p: string, s: string, pattern: string, name: string)
    requires Fits(p, s) && Matches(pattern, name)
    ensures Matches(p + pattern, s + name)
  {
    if p == "" {
      assert p + pattern == pattern && s + name == name;
    } else {
      assert Fits(p[1..], s[1..]);
      MatchFront(p[1..], s[1..], pattern, name);
      assert (p + pattern)[1..] == p[1..] + pattern && (s + name)[1..] == s[1..] + name;
    }
  }

  lemma {:induction false} MatchStar(skipped: string, pattern: string, name: string)
    requires Matches(pattern, name)
    ensures Matches("*" + pattern, skipped + name)
  {
    assert ("*" + pattern)[1..] == pattern;
    if skipped == "" {
      assert skipped + name == name;
    } else {
      MatchStar(skipped[1..], pattern, name);
      assert (skipped + name)[1..] == skipped[1..] + name;
    }
  }

  lemma {:induction false} MatchIsAsLong(pattern: string, name: string)
    requires Matches(pattern, name)
    ensures |name| + Stars(pattern) >= |pattern|
    decreases |pattern| + |name|
  {
    if pattern == "" {
    } else {
      if pattern[0] == '*' && !Matches(pattern[1..], name) {
        MatchIsAsLong(pattern, name[1..]);
      } else {
        MatchIsAsLong(pattern[1..], if pattern[0] == '*' then name else name[1..]);
      }
    }
  }

  function Stars(s: string): nat { if s == "" then 0 else Stars(s[1..]) + if s[0] == '*' then 1 else 0 }

  lemma {:induction false} NoStars(s: string)
    requires '*' !in s
    ensures Stars(s) == 0
  {
    if s == "" {
    } else {
      assert s[0] in s;
      NoStars(s[1..]);
    }
  }

  lemma {:induction false} StarsIn(a: string, b: string)
    requires '*' !in a && '*' !in b
    ensures Stars(a + "*" + b) == 1
  {
    if a == "" {
      assert a + "*" + b == ['*'] + b && (['*'] + b)[1..] == b;
      NoStars(b);
    } else {
      assert a[0] in a;
      assert (a + "*" + b)[1..] == a[1..] + "*" + b;
      StarsIn(a[1..], b);
    }
  }

  lemma HeadFits(stem: string, d: Date)
    requires Plain(stem)
    ensures Fits(stem + "-" + AnyDay(), stem + "-" + DayOf(d))
  {
    var day := DayOf(d);
    assert Fits(AnyDay(), day);
    hide DayOf;
    assert forall i | 0 <= i < |stem| :: stem[i] in stem;
  }

  lemma PlainMatches(s: string)
    requires Plain(s)
    ensures Matches(s, s)
  {
    assert forall i | 0 <= i < |s| :: s[i] in s;
    MatchFront(s, s, "", "");
    assert s + "" == s;
  }

  /** Retention finds every name of a date and a run of digits. */
  lemma NamedIsGlobbed(base: string, d: Date, t: string)
    requires Plain(base) && DaySuffix(t)
    ensures Globbed(base, Stem(base) + "-" + DayOf(d) + t + Ext(base))
  {
    var stem, ext := Stem(base), Ext(base);
    PlainParts(base);
    PlainMatches(ext);
    HeadFits(stem, d);
    hide Matches, Stem, Ext, DayOf, Plain, Fits, AnyDay;
    GlobParts(stem + "-" + AnyDay(), stem + "-" + DayOf(d), t, ext);
  }

  lemma GlobParts(p: string, s: string, t: string, ext: string)
    requires Fits(p, s) && DaySuffix(t) && Matches(ext, ext)
    ensures Matches(p + ext, s + t + ext) || Matches(p + ".*" + ext, s + t + ext)
  {
    hide Matches, Fits;
    if t == "" {
      MatchFront(p, s, ext, ext);
      assert s + t == s;
    } else {
      BehindDot(t, ext);
      MatchFront(p, s, ".*" + ext, t + ext);
      assert p + ".*" + ext == p + (".*" + ext);
      assert s + t + ext == s + (t + ext);
    }
  }

  lemma BehindDot(t: string, ext: string)
    requires DaySuffix(t) && t != "" && Matches(ext, ext)
    ensures Matches(".*" + ext, t + ext)
  {
    MatchStar(t[1..], ext, ext);
    MatchFront(".", ".", "*" + ext, t[1..] + ext);
    assert "." + ("*" + ext) == ".*" + ext;
    assert "." + (t[1..] + ext) == t + ext;
  }

  lemma PlainParts(base: string)
    requires Plain(base)
    ensures Plain(Stem(base)) && Plain(Ext(base)) && '*' !in Stem(base) && '*' !in Ext(base)
  {
    assert forall c | c in Stem(base) :: c in base;
    assert forall c | c in Ext(base) :: c in base;
  }

  lemma GlobbedIsLong(base: string, file: string)
    requires Plain(base) && Globbed(base, file)
    ensures |file| >= |Stem(base)| + 1 + |Ext(base)|
  {
    PlainParts(base);
    StarlessHead(Stem(base));
    hide Matches, Stem, Ext, AnyDay;
    GlobLength(Stem(base) + "-" + AnyDay(), Ext(base), file);
  }

  lemma StarlessHead(stem: string)
    requires '*' !in stem
    ensures '*' !in stem + "-" + AnyDay() && |AnyDay()| == 10
  {
    assert '*' !in AnyDay();
  }

  lemma GlobLength(p: string, ext: string, file: string)
    requires '*' !in p && '*' !in ext
    requires Matches(p + ext, file) || Matches(p + ".*" + ext, file)
    ensures |file| >= |p| + |ext|
  {
    hide Matches, Stars;
    if Matches(p + ext, file) {
      NoStars(p + ext);
      MatchIsAsLong(p + ext, file);
    } else {
      assert p + ".*" + ext == (p + ".") + "*" + ext;
      StarsIn(p + ".", ext);
      MatchIsAsLong(p + ".*" + ext, file);
    }
  }

  /** A file that retention both finds and reads a date from. */
  predicate Retained(base: string, file: string, d: Date) {
    Globbed(base, file) && ParseName(base, file) == Some(d)
  }

  /** The printer, the globs and the parser are in step: what retention sees as a log of a day is what
      is named after that day, with or without a run of digits. */
  lemma RetentionIsExact(base: string, file: string, d: Date)
    requires Plain(base)
    ensures Retained(base, file, d) <==>
            IsDate(d) && exists t :: DaySuffix(t) && file == Stem(base) + "-" + DayOf(d) + t + Ext(base)
  {
    if Retained(base, file, d) {
      GlobbedIsLong(base, file);
      ParsesExactly(base, file, d);
    }
    forall t | IsDate(d) && DaySuffix(t) && file == Stem(base) + "-" + DayOf(d) + t + Ext(base)
      ensures Retained(base, file, d)
    {
      NamedIsGlobbed(base, d, t);
      NamedParses(base, d, t);
    }
  }

  /** Whatever file the logger writes is one that retention will delete in its time. */
  lemma EveryFileIsRetained(base: string, d: Date, seqNo: nat)
    requires Plain(base) && IsDate(d)
    ensures Retained(base, Name(base, d, seqNo), d)
  {
    SuffixIsDaySuffix(seqNo);
    RetentionIsExact(base, Name(base, d, seqNo), d);
  }

  // ---- The order of reading ----

  /** The order sort.Strings gives. */
  predicate Before(a: string, b: string) {
    b != "" && (a == "" || a[0] < b[0] || (a[0] == b[0] && Before(a[1..], b[1..])))
  }

  lemma {:induction false} SameHead(head: string, a: string, b: string)
    ensures Before(head + a, head + b) <==> Before(a, b)
  {
    if head == "" {
      assert head + a == a && head + b == b;
    } else {
      SameHead(head[1..], a, b);
      assert (head + a)[1..] == head[1..] + a && (head + b)[1..] == head[1..] + b;
    }
  }

  lemma {:induction false} HeadsDecide(a: string, b: string, s: string, t: string)
    requires |a| == |b| && Before(a, b)
    ensures Before(a + s, b + t)
  {
    if a[0] < b[0] {
    } else {
      HeadsDecide(a[1..], b[1..], s, t);
      assert (a + s)[1..] == a[1..] + s && (b + t)[1..] == b[1..] + t;
    }
  }

  lemma {:induction false} PadKeepsOrder(n: nat, m: nat, width: nat)
    requires n < m < Pow10(width)
    ensures Before(Pad(n, width), Pad(m, width))
  {
    if width == 0 {
    } else if n / 10 < m / 10 {
      PadKeepsOrder(n / 10, m / 10, width - 1);
      HeadsDecide(Pad(n / 10, width - 1), Pad(m / 10, width - 1), [DigitOf(n % 10)], [DigitOf(m % 10)]);
    } else {
      SameHead(Pad(n / 10, width - 1), [DigitOf(n % 10)], [DigitOf(m % 10)]);
    }
  }

  predicate Earlier(d: Date, e: Date) {
    d.year < e.year || (d.year == e.year && (d.month < e.month || (d.month == e.month && d.day < e.day)))
  }

  // ---- The calendar ----

  /** The days before the first of a month, in the Gregorian calendar counted from March on, so that the
      leap day comes last: 365 a year, with one more every four years but for whole centuries that are not
      multiples of four, and 153 in every five months. */
  function DaysBefore(year: int, month: int): int {
    var y, m := if month <= 2 then year - 1 else year, if month <= 2 then month + 9 else month - 3;
    365 * y + y / 4 - y / 100 + y / 400 + (153 * m + 2) / 5
  }

  function DayNumber(d: Date): int { DaysBefore(d.year, d.month) + d.day }

  /** The months are as long as the calendar says. */
  lemma MonthLength(year: nat, month: nat)
    requires 1 <= month <= 12
    ensures DaysIn(month, year)
         == (if month == 12 then DaysBefore(year + 1, 1) else DaysBefore(year, month + 1)) - DaysBefore(year, month)
  {
    if month == 2 {
      YearLength(year);
    }
  }

  lemma YearLength(year: int)
    ensures var p := year - 1;
            (year / 4 - year / 100 + year / 400) - (p / 4 - p / 100 + p / 400)
            == if year % 4 == 0 && (year % 100 != 0 || year % 400 == 0) then 1 else 0
  {
    Quotients(year);
    Multiples(year);
  }

  lemma Multiples(n: int)
    ensures (n % 400 == 0 ==> n % 100 == 0) && (n % 100 == 0 ==> n % 4 == 0)
  {
  }

  lemma Quotients(n: int)
    ensures n / 4 - (n - 1) / 4 == if n % 4 == 0 then 1 else 0
    ensures n / 100 - (n - 1) / 100 == if n % 100 == 0 then 1 else 0
    ensures n / 400 - (n - 1) / 400 == if n % 400 == 0 then 1 else 0
  {
  }

  function NextDate(d: Date): Date {
    if d.day < DaysIn(d.month, d.year) then d.(day := d.day + 1)
    else if d.month < 12 then Date(d.year, d.month + 1, 1)
    else Date(d.year + 1, 1, 1)
  }

  /** The dates are all the days of the years 0 to 9999, each once: the first of January of year 0 is one,
      the next day of every one is one but for the last of December of 9999, and dates are in the order of
      their days. */
  lemma DatesAreDays(d: Date, e: Date)
    requires IsDate(d) && IsDate(e)
    ensures IsDate(Date(0, 1, 1)) && IsDate(Date(9999, 12, 31)) && DayNumber(Date(0, 1, 1)) <= DayNumber(d)
    ensures d != Date(9999, 12, 31) ==> IsDate(NextDate(d)) && DayNumber(NextDate(d)) == DayNumber(d) + 1
    ensures Earlier(d, e) <==> DayNumber(d) < DayNumber(e)
  {
    assert IsDate(Date(0, 1, 1));
    if d != Date(9999, 12, 31) { NextDateIsNext(d); }
    if Earlier(d, e) { EarlierIsLess(d, e); }
    if Earlier(e, d) { EarlierIsLess(e, d); }
    if d != Date(0, 1, 1) { EarlierIsLess(Date(0, 1, 1), d); }
    hide DaysBefore, DaysIn, NextDate;
  }

  lemma NextDateIsNext(d: Date)
    requires IsDate(d) && d != Date(9999, 12, 31)
    ensures IsDate(NextDate(d)) && DayNumber(NextDate(d)) == DayNumber(d) + 1
  {
    MonthLength(d.year, d.month);
    hide DaysBefore;
  }

  lemma EarlierIsLess(d: Date, e: Date)
    requires IsDate(d) && IsDate(e) && Earlier(d, e)
    ensures DayNumber(d) < DayNumber(e)
  {
    MonthLength(d.year, d.month);
    hide DaysBefore, DaysIn;
    if d.year == e.year && d.month == e.month {
    } else {
      var y, m := if d.month == 12 then d.year + 1 else d.year, if d.month == 12 then 1 else d.month + 1;
      MonthsGrow(y, m, e.year, e.month);
    }
  }

  lemma {:induction false} MonthsGrow(y: nat, m: nat, year: nat, month: nat)
    requires 1 <= m <= 12 && 1 <= month <= 12 && (y < year || (y == year && m <= month))
    ensures DaysBefore(y, m) <= DaysBefore(year, month)
    decreases year * 12 + month - (y * 12 + m)
  {
    hide DaysBefore;
    if y == year && m == month {
    } else {
      MonthLength(y, m);
      if m == 12 { MonthsGrow(y + 1, 1, year, month); } else { MonthsGrow(y, m + 1, year, month); }
    }
  }

  /** Days sort as their dates do. */
  lemma DayKeepsOrder(d: Date, e: Date)
    requires IsDate(d) && IsDate(e) && Earlier(d, e)
    ensures Before(DayOf(d), DayOf(e))
  {
    var y, m := Pad(d.year, 4) + "-", Pad(d.month, 2) + "-";
    assert Pow10(2) == 100 && Pow10(4) == 10000;
    assert DayOf(d) == y + (m + Pad(d.day, 2));
    assert DayOf(e) == Pad(e.year, 4) + "-" + (Pad(e.month, 2) + "-" + Pad(e.day, 2));
    if d.year < e.year {
      PadKeepsOrder(d.year, e.year, 4);
      HeadsDecide(Pad(d.year, 4), Pad(e.year, 4), "-", "-");
      HeadsDecide(y, Pad(e.year, 4) + "-", m + Pad(d.day, 2), Pad(e.month, 2) + "-" + Pad(e.day, 2));
    } else {
      SameHead(y, m + Pad(d.day, 2), Pad(e.month, 2) + "-" + Pad(e.day, 2));
      if d.month < e.month {
        PadKeepsOrder(d.month, e.month, 2);
        HeadsDecide(Pad(d.month, 2), Pad(e.month, 2), "-", "-");
        HeadsDecide(m, Pad(e.month, 2) + "-", Pad(d.day, 2), Pad(e.day, 2));
      } else {
        PadKeepsOrder(d.day, e.day, 2);
        SameHead(m, Pad(d.day, 2), Pad(e.day, 2));
      }
    }
  }

  /** Files of different days are read in the order of their days, whatever their numbers. */
  lemma DaysInOrder(base: string, d: Date, i: nat, e: Date, j: nat)
    requires IsDate(d) && IsDate(e) && Earlier(d, e)
    ensures Before(Name(base, d, i), Name(base, e, j))
  {
    DayKeepsOrder(d, e);
    hide Before, DayOf, Suffix, Ext, Stem;
    var stem, s, t := Stem(base) + "-", Suffix(i) + Ext(base), Suffix(j) + Ext(base);
    HeadsDecide(DayOf(d), DayOf(e), s, t);
    SameHead(stem, DayOf(d) + s, DayOf(e) + t);
    NameParts(base, d, i);
    NameParts(base, e, j);
  }

  lemma NameParts(base: string, d: Date, i: nat)
    ensures Name(base, d, i) == Stem(base) + "-" + (DayOf(d) + (Suffix(i) + Ext(base)))
  {
    hide DayOf, Suffix, Ext, Stem;
  }

  /** Within a day the sequence number and the extension decide. */
  lemma SameDay(base: string, d: Date, i: nat, j: nat)
    ensures Before(Name(base, d, i), Name(base, d, j)) <==> Before(Suffix(i) + Ext(base), Suffix(j) + Ext(base))
  {
    hide Before, DayOf, Suffix, Ext, Stem;
    var s, t := Suffix(i) + Ext(base), Suffix(j) + Ext(base);
    NameParts(base, d, i);
    NameParts(base, d, j);
    SameHead(Stem(base) + "-", DayOf(d) + s, DayOf(d) + t);
    SameHead(DayOf(d), s, t);
  }

  /** The extension begins at the last dot, and there is none only in a name without one. */
  lemma {:induction false} ExtHasOneDot(base: string)
    ensures Ext(base) != "" ==> '.' !in Ext(base)[1..]
    ensures Ext(base) == "" ==> '.' !in base
  {
    if base == "" {
    } else {
      ExtHasOneDot(base[..|base| - 1]);
      var e := Ext(base[..|base| - 1]);
      if base[|base| - 1] != '.' && e != "" {
        assert (e + [base[|base| - 1]])[1..] == e[1..] + [base[|base| - 1]];
      }
    }
  }

  /** Extensions that sort before the sequence numbers: none, a dot alone, or one that goes on with a
      character below '1'; or with "1" and then a character below the dot. */
  predicate SortsLow(ext: string) {
    |ext| <= 1 || ext[1] < '1' || (ext[1] == '1' && (|ext| == 2 || ext[2] < '.'))
  }

  lemma OneDigit(i: nat)
    requires 0 < i < 10
    ensures Suffix(i) == ['.', DigitOf(i)]
  {
  }

  lemma NumbersInOrder(ext: string, i: nat, j: nat)
    requires 0 < i < j < 10
    ensures Before(Suffix(i) + ext, Suffix(j) + ext)
  {
    OneDigit(i);
    OneDigit(j);
    SameHead(".", [DigitOf(i)] + ext, [DigitOf(j)] + ext);
    assert Suffix(i) + ext == "." + ([DigitOf(i)] + ext) && Suffix(j) + ext == "." + ([DigitOf(j)] + ext);
  }

  lemma RestAgainst(rest: string, j: nat)
    requires '.' !in rest && 0 < j < 10
    ensures Before(rest, [DigitOf(j)] + ("." + rest)) <==>
            rest == "" || rest[0] < DigitOf(j) || (rest[0] == DigitOf(j) && (|rest| == 1 || rest[1] < '.'))
  {
    var t, u := [DigitOf(j)] + ("." + rest), "." + rest;
    assert t[0] == DigitOf(j) && t[1..] == u && u[0] == '.';
    if |rest| > 1 {
      assert rest[1] in rest && rest[1..][0] == rest[1];
    }
  }

  /** The first file against a numbered one. */
  lemma FirstAgainst(base: string, j: nat)
    requires 0 < j < 10
    ensures var ext := Ext(base);
            && (SortsLow(ext) ==> Before(ext, Suffix(j) + ext))
            && (j == 1 && Before(ext, Suffix(j) + ext) ==> SortsLow(ext))
  {
    var ext := Ext(base);
    ExtHasOneDot(base);
    OneDigit(j);
    if ext == "" {
      assert Suffix(j) + ext != "";
    } else {
      var rest := ext[1..];
      RestAgainst(rest, j);
      var t := [DigitOf(j)] + ("." + rest);
      assert ext == "." + rest && Suffix(j) + ext == "." + t;
      SameHead(".", rest, t);
      hide Before, Ext, Suffix;
      assert |ext| > 1 ==> rest[0] == ext[1];
      assert |ext| > 2 ==> rest[1] == ext[2];
    }
  }

  /** A tenth file is read before the second. */
  lemma TenBeforeTwo(ext: string)
    ensures !Before(Suffix(2) + ext, Suffix(10) + ext)
  {
    OneDigit(2);
    assert Decimal(10) == Decimal(1) + [DigitOf(0)] && Decimal(1) == [DigitOf(1)];
    var s, t := [DigitOf(2)] + ext, [DigitOf(1)] + ([DigitOf(0)] + ext);
    assert Suffix(2) + ext == "." + s && Suffix(10) + ext == "." + t;
    SameHead(".", s, t);
  }

  ghost predicate DayInOrder(base: string, d: Date, n: nat) {
    forall i: nat, j: nat | i < j < n :: Before(Name(base, d, i), Name(base, d, j))
  }

  predicate FewEnough(ext: string, n: nat) { n <= 1 || (n <= 10 && SortsLow(ext)) }

  /** A day's files are read in the order they were written in exactly when there is only one, or no
      more than ten under an extension that sorts low. */
  lemma DayOrder(base: string, d: Date, n: nat)
    ensures DayInOrder(base, d, n) <==> FewEnough(Ext(base), n)
  {
    var ext := Ext(base);
    hide Name, Ext, Before, Suffix, SortsLow;
    if FewEnough(ext, n) {
      forall i: nat, j: nat | i < j < n ensures Before(Name(base, d, i), Name(base, d, j)) {
        SameDay(base, d, i, j);
        if i == 0 {
          FirstAgainst(base, j);
          NoSuffix(ext);
        } else {
          NumbersInOrder(ext, i, j);
        }
      }
    } else if n > 10 {
      SameDay(base, d, 2, 10);
      TenBeforeTwo(ext);
    } else {
      SameDay(base, d, 0, 1);
      FirstAgainst(base, 1);
      NoSuffix(ext);
    }
  }

  lemma NoSuffix(ext: string)
    ensures Suffix(0) + ext == ext
  {
  }

  /** The files on disk, by the number of each day's: read in the order of names, they are read in the
      order of writing. */
  ghost predicate ReadAsWritten(base: string, days: map<Date, nat>) {
    forall d, e, i: nat, j: nat | d in days && e in days && i < days[d] && j < days[e] ::
      (Earlier(d, e) || (d == e && i < j)) ==> Before(Name(base, d, i), Name(base, e, j))
  }

  /** It is so exactly when it is so of every day. */
  lemma ReadingOrder(base: string, days: map<Date, nat>)
    requires forall d | d in days :: IsDate(d)
    ensures ReadAsWritten(base, days) <==> forall d | d in days :: FewEnough(Ext(base), days[d])
  {
    hide Name, Ext, Before, FewEnough, IsDate;
    forall d | d in days ensures DayInOrder(base, d, days[d]) <==> FewEnough(Ext(base), days[d]) {
      DayOrder(base, d, days[d]);
    }
    if forall d | d in days :: FewEnough(Ext(base), days[d]) {
      forall d, e, i: nat, j: nat | d in days && e in days && i < days[d] && j < days[e]
                                    && (Earlier(d, e) || (d == e && i < j))
        ensures Before(Name(base, d, i), Name(base, e, j))
      {
        if Earlier(d, e) { DaysInOrder(base, d, i, e, j); } else { assert DayInOrder(base, d, days[d]); }
      }
    } else {
      var d :| d in days && !FewEnough(Ext(base), days[d]);
      assert !DayInOrder(base, d, days[d]);
    }
  }

  /** For an extension that goes on with a letter: exactly when no day has a second file. */
  lemma UsualReadingOrder(base: string, days: map<Date, nat>)
    requires (forall d | d in days :: IsDate(d)) && |Ext(base)| > 1 && Ext(base)[1] > '9'
    ensures ReadAsWritten(base, days) <==> forall d | d in days :: days[d] <= 1
  {
    ReadingOrder(base, days);
  }

  /** In such a name a day's first file even comes after all its later ones. */
  lemma FirstFileIsReadLast(base: string, d: Date, seqNo: nat)
    requires |Ext(base)| > 1 && Ext(base)[1] > '9' && seqNo > 0
    ensures Before(Name(base, d, seqNo), Name(base, d, 0))
  {
    SameDay(base, d, seqNo, 0);
    NoSuffix(Ext(base));
    NumberSortsLow(Ext(base), Decimal(seqNo));
    hide Name, Ext, Before, Decimal;
    assert Suffix(seqNo) + Ext(base) == "." + Decimal(seqNo) + Ext(base);
  }

  lemma NumberSortsLow(ext: string, digits: string)
    requires |ext| > 1 && ext[0] == '.' && ext[1] > '9' && digits != "" && AllDigits(digits)
    ensures Before("." + digits + ext, ext)
  {
    var t := digits + ext;
    SameHead(".", t, ext[1..]);
    assert ext == "." + ext[1..] && "." + digits + ext == "." + t;
    assert t[0] == digits[0] && digits[0] in digits;
  }
}
