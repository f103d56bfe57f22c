/**
  The date key both tools sort section labels by: `parse_date_for_sorting`
  tries eight `datetime.strptime` formats in order and falls back to the far
  future date 9999-12-31. The formats are parsed here as `strptime` parses
  them: a space in the format matches a run of whitespace, `%d` is one or two
  digits naming a day 1..31 (a single digit may carry one leading space when
  it opens the label), `%b`/`%B` are English month names in any letter case,
  `%Y` is exactly four digits, nothing may be left over, and the date must
  exist (a label without a year is dated 1900, so `Feb 29` is rejected).
 */
module Dates {
  import opened Text

  /** The fields of a `datetime` that the sort compares. */
  datatype DateKey = DateKey(year: int, month: int, day: int)

  /** `datetime(9999, 12, 31)`, the key of a label no format matches. */
  const Sentinel := DateKey(9999, 12, 31)

  /** Strict chronological order: the order `datetime` values compare in. */
  predicate Earlier(a: DateKey, b: DateKey) {
    a.year < b.year
    || (a.year == b.year && a.month < b.month)
    || (a.year == b.year && a.month == b.month && a.day < b.day)
  }

  predicate IsLeap(y: int) {
    y % 4 == 0 && (y % 100 != 0 || y % 400 == 0)
  }

  function DaysInMonth(y: int, m: int): int {
    if m == 2 then (if IsLeap(y) then 29 else 28)
    else if m == 4 || m == 6 || m == 9 || m == 11 then 30
    else 31
  }

  /** A date `datetime` can represent. */
  predicate ValidKey(k: DateKey) {
    1 <= k.year <= 9999 && 1 <= k.month <= 12 && 1 <= k.day <= DaysInMonth(k.year, k.month)
  }

  /**
    One format: the day before or after the month, the month abbreviated
    (`%b`) or in full (`%B`), and whether a `%Y` year follows.
   */
  datatype Format = Format(dayFirst: bool, full: bool, withYear: bool)

  /** `%d %b %Y`, `%b %d %Y`, `%d %B %Y`, `%B %d %Y`, `%b %d`, `%d %b`, `%B %d`, `%d %B`, in the order tried. */
  const Formats: seq<Format> := [
    Format(true, false, true), Format(false, false, true),
    Format(true, true, true), Format(false, true, true),
    Format(false, false, false), Format(true, false, false),
    Format(false, true, false), Format(true, true, false)
  ]

  const AbbrNames: seq<string> := ["jan", "feb", "mar", "apr", "may", "jun", "jul", "aug", "sep", "oct", "nov", "dec"]
  const FullNames: seq<string> := ["january", "february", "march", "april", "may", "june", "july",
                                   "august", "september", "october", "november", "december"]

  predicate IsDigit(c: char) {
    '0' <= c <= '9'
  }

  predicate AllDigits(s: string) {
    forall i :: 0 <= i < |s| ==> IsDigit(s[i])
  }

  /** The decimal value of a string of digits. */
  function DigitsValue(s: string): nat {
    if s == [] then 0
    else DigitsValue(s[..|s| - 1]) * 10 + (if IsDigit(s[|s| - 1]) then s[|s| - 1] as int - '0' as int else 0)
  }

  /** `%d`: `3[01]|[12]\d|0[1-9]|[1-9]`, that is one or two digits worth 1..31. */
  function DayValue(tok: string): (r: Option<int>)
    ensures r.Some? ==> 1 <= r.value <= 31
  {
    if 1 <= |tok| <= 2 && AllDigits(tok) && 1 <= DigitsValue(tok) <= 31 then Some(DigitsValue(tok)) else None
  }

  /** `%Y`: exactly four digits. */
  function YearValue(tok: string): Option<int> {
    if |tok| == 4 && AllDigits(tok) then Some(DigitsValue(tok)) else None
  }

  function NameIndex(tok: string, names: seq<string>): (r: Option<nat>)
    ensures r.Some? ==> r.value < |names| && names[r.value] == tok
    ensures r.None? ==> tok !in names
  {
    if names == [] then None
    else if names[0] == tok then Some(0)
    else match NameIndex(tok, names[1..])
      case Some(i) => Some(i + 1)
      case None => None
  }

  /** `%b` or `%B`: a month name, compared without regard to letter case. */
  function MonthValue(tok: string, full: bool): (r: Option<int>)
    ensures r.Some? ==> 1 <= r.value <= 12
  {
    match NameIndex(Lower(tok), if full then FullNames else AbbrNames)
    case Some(i) => Some(i + 1)
    case None => None
  }

  /** The length of the run of non-whitespace that opens `s`. */
  function WordLen(s: string): (n: nat)
    requires s != [] && !IsSpace(s[0])
    ensures 1 <= n <= |s| && (n == |s| || IsSpace(s[n]))
    ensures forall k :: 0 <= k < n ==> !IsSpace(s[k])
  {
    if |s| == 1 || IsSpace(s[1]) then 1 else 1 + WordLen(s[1..])
  }

  /** A non-empty run of non-whitespace. */
  predicate IsWord(s: string) {
    s != [] && forall k :: 0 <= k < |s| ==> !IsSpace(s[k])
  }

  /** The maximal runs of non-whitespace in `s`, in order. */
  function Words(s: string): (ws: seq<string>)
    decreases |s|
  {
    if s == [] then []
    else if IsSpace(s[0]) then Words(s[1..])
    else var n := WordLen(s); [s[..n]] + Words(s[n..])
  }

  /** The `' [1-9]'` alternative of `%d`: a single digit behind one space at the start of the label. */
  predicate LeadingSpaceDay(s: string) {
    |s| >= 2 && s[0] == ' ' && '1' <= s[1] <= '9' && (|s| == 2 || IsSpace(s[2]))
  }

  /** The words of a label, read as the fields of format `f`. */
  function ReadFields(ws: seq<string>, f: Format): (r: Option<DateKey>)
    ensures r.Some? ==> ValidKey(r.value)
  {
    if |ws| != (if f.withYear then 3 else 2) then None
    else
      var d := DayValue(ws[if f.dayFirst then 0 else 1]);
      var m := MonthValue(ws[if f.dayFirst then 1 else 0], f.full);
      var y := if f.withYear then YearValue(ws[2]) else Some(1900);
      if d.Some? && m.Some? && y.Some? && ValidKey(DateKey(y.value, m.value, d.value))
      then Some(DateKey(y.value, m.value, d.value))
      else None
  }

  /**
    The words a format reads: the label must have no leading or trailing
    whitespace, except the one space `%d` admits before a single digit when
    the day comes first.
   */
  function Tokens(s: string, dayFirst: bool): Option<seq<string>> {
    var t := if dayFirst && LeadingSpaceDay(s) then s[1..] else s;
    if t == [] || IsSpace(t[0]) || IsSpace(t[|t| - 1]) then None else Some(Words(t))
  }

  /** `datetime.strptime(s, fmt)`, or None where it raises `ValueError`. */
  function ParseWith(s: string, f: Format): (r: Option<DateKey>)
    ensures r.Some? ==> ValidKey(r.value)
  {
    match Tokens(s, f.dayFirst)
    case None => None
    case Some(ws) => ReadFields(ws, f)
  }

  /** What `strptime` makes of the label under each format, in the order they are tried. */
  function Readings(s: string): (rs: seq<Option<DateKey>>)
    ensures |rs| == |Formats|
    ensures forall i :: 0 <= i < |Formats| ==> rs[i] == ParseWith(s, Formats[i])
  {
    seq(|Formats|, i requires 0 <= i < |Formats| => ParseWith(s, Formats[i]))
  }

  /** The first reading that succeeded, or 9999-12-31 when none did. */
  function FirstDate(rs: seq<Option<DateKey>>): DateKey {
    if rs == [] then Sentinel
    else match rs[0]
      case Some(k) => k
      case None => FirstDate(rs[1..])
  }

  /** `parse_date_for_sorting`: the first format that parses the label, else 9999-12-31. */
  function ParseDateForSorting(s: string): DateKey {
    FirstDate(Readings(s))
  }

  lemma {:induction false} FirstDateIsFirst(rs: seq<Option<DateKey>>)
    ensures var r := FirstDate(rs);
            || (r == Sentinel && forall j :: 0 <= j < |rs| ==> rs[j].None?)
            || (exists i :: 0 <= i < |rs| && rs[i] == Some(r) && forall j :: 0 <= j < i ==> rs[j].None?)
  {
    if rs != [] && rs[0].None? {
      FirstDateIsFirst(rs[1..]);
      var r := FirstDate(rs);
      if r == Sentinel && forall j :: 0 <= j < |rs| - 1 ==> rs[1..][j].None? {
        forall j | 0 <= j < |rs| ensures rs[j].None? {
          if j > 0 {
            assert rs[j] == rs[1..][j - 1];
          }
        }
      } else {
        var i :| 0 <= i < |rs| - 1 && rs[1..][i] == Some(r) && forall j :: 0 <= j < i ==> rs[1..][j].None?;
        assert rs[i + 1] == Some(r);
        forall j | 0 <= j < i + 1 ensures rs[j].None? {
          if j > 0 {
            assert rs[j] == rs[1..][j - 1];
          }
        }
      }
    }
  }

  lemma {:induction false} FirstDatePicks(rs: seq<Option<DateKey>>, i: nat)
    requires i < |rs| && rs[i].Some?
    requires forall j :: 0 <= j < i ==> rs[j].None?
    ensures FirstDate(rs) == rs[i].value
  {
    if i > 0 {
      assert rs[0].None?;
      assert rs[1..][i - 1] == rs[i];
      FirstDatePicks(rs[1..], i - 1);
    }
  }

  /**
    The key is the date the first matching format reads, in the order the
    formats are tried, and 9999-12-31 exactly when none matches (or the
    label names that very day).
   */
  lemma ParseDateFirstMatch(s: string)
    ensures var r := ParseDateForSorting(s);
            || (r == Sentinel && forall j :: 0 <= j < |Formats| ==> ParseWith(s, Formats[j]).None?)
            || (exists i :: 0 <= i < |Formats| && ParseWith(s, Formats[i]) == Some(r)
                            && forall j :: 0 <= j < i ==> ParseWith(s, Formats[j]).None?)
  {
    FirstDateIsFirst(Readings(s));
  }

  lemma {:induction false} FirstDateValid(rs: seq<Option<DateKey>>)
    requires forall j :: 0 <= j < |rs| && rs[j].Some? ==> ValidKey(rs[j].value)
    ensures ValidKey(FirstDate(rs))
  {
    if rs != [] && rs[0].None? {
      FirstDateValid(rs[1..]);
    }
  }

  /**
    Every key is a real date no later than the fallback, so in a
    most-recent-first order the labels no format matches come first.
   */
  lemma SentinelIsLatest(s: string)
    ensures ValidKey(ParseDateForSorting(s))
    ensures !Earlier(Sentinel, ParseDateForSorting(s))
  {
    FirstDateValid(Readings(s));
  }

  /** 29 February has no year-less reading: 1900 is not a leap year. */
  lemma NoYearlessLeapDay(s: string, f: Format)
    requires !f.withYear && ParseWith(s, f).Some?
    ensures ParseWith(s, f).value.month == 2 ==> ParseWith(s, f).value.day <= 28
  {
  }

  lemma {:induction false} WordLenOf(a: string, rest: string)
    requires IsWord(a)
    requires rest == [] || IsSpace(rest[0])
    ensures WordLen(a + rest) == |a|
    decreases |a|
  {
    if |a| > 1 {
      assert (a + rest)[1..] == a[1..] + rest;
      WordLenOf(a[1..], rest);
    }
  }

  /** A word followed by whitespace (or nothing) is the first of the words. */
  lemma WordsCons(a: string, rest: string)
    requires IsWord(a)
    requires rest == [] || IsSpace(rest[0])
    ensures Words(a + rest) == [a] + Words(rest)
  {
    WordLenOf(a, rest);
    assert (a + rest)[..|a|] == a;
    assert (a + rest)[|a|..] == rest;
  }

  /** A label with no whitespace at all is one word, which no format accepts. */
  lemma OneWordIsSentinel(s: string)
    requires IsWord(s)
    ensures ParseDateForSorting(s) == Sentinel
  {
    WordsCons(s, []);
    assert s + [] == s;
    assert Words(s) == [s];
    assert !LeadingSpaceDay(s);
    var rs := Readings(s);
    assert forall j :: 0 <= j < |rs| ==> rs[j].None?;
    FirstDateIsFirst(rs);
  }

  lemma MiscIsSentinel()
    ensures ParseDateForSorting("Misc") == Sentinel
  {
    OneWordIsSentinel("Misc");
  }

  function DigitChar(n: int): char
    requires 0 <= n <= 9
  {
    ('0' as int + n) as char
  }

  function Pow10(n: nat): nat {
    if n == 0 then 1 else 10 * Pow10(n - 1)
  }

  lemma DigitsSnoc(s: string, c: char)
    requires IsDigit(c)
    ensures DigitsValue(s + [c]) == DigitsValue(s) * 10 + (c as int - '0' as int)
  {
    assert (s + [c])[..|s|] == s;
  }

  /** `n` written in exactly `width` digits, zero padded, as `strftime` writes `%d` and `%Y`. */
  function PadDigits(n: nat, width: nat): (r: string)
    requires n < Pow10(width)
    ensures |r| == width && AllDigits(r) && DigitsValue(r) == n
  {
    if width == 0 then []
    else
      var r := PadDigits(n / 10, width - 1) + [DigitChar(n % 10)];
      DigitsSnoc(PadDigits(n / 10, width - 1), DigitChar(n % 10));
      r
  }

  function UpperChar(c: char): char {
    if 'a' <= c <= 'z' then (c as int - 'a' as int + 'A' as int) as char else c
  }

  /** `%b` as `strftime` writes it in English: `Jan`, ..., `Dec`. */
  function MonthAbbr(m: int): (r: string)
    requires 1 <= m <= 12
    ensures Lower(r) == AbbrNames[m - 1]
    ensures |r| == 3 && IsWord(r)
  {
    var name := AbbrNames[m - 1];
    var r := [UpperChar(name[0])] + name[1..];
    assert forall k :: 0 <= k < 3 ==> 'a' <= name[k] <= 'z';
    assert Lower(r) == name;
    r
  }

  /** A date as the `%d %b %Y` format writes it, for example `07 Sep 2025`. */
  function FormatDate(k: DateKey): (s: string)
    requires ValidKey(k)
  {
    PadDigits(k.day, 2) + " " + MonthAbbr(k.month) + " " + PadDigits(k.year, 4)
  }

  /** A year-less date as the `%b %d` format writes it, for example `Sep 07`. */
  function FormatYearless(k: DateKey): (s: string)
    requires ValidKey(k)
  {
    MonthAbbr(k.month) + " " + PadDigits(k.day, 2)
  }

  lemma WordsSpace(rest: string)
    ensures Words(" " + rest) == Words(rest)
  {
    assert (" " + rest)[1..] == rest;
  }

  lemma DigitsAreWord(s: string)
    requires s != [] && AllDigits(s)
    ensures IsWord(s)
  {
    forall k | 0 <= k < |s| ensures !IsSpace(s[k]) {
      assert IsDigit(s[k]);
    }
  }

  lemma AbbrIndex(m: int)
    requires 1 <= m <= 12
    ensures NameIndex(AbbrNames[m - 1], AbbrNames) == Some(m - 1)
  {
    var r := NameIndex(AbbrNames[m - 1], AbbrNames);
    assert r.Some?;
    AbbrNamesDistinct();
  }

  lemma AbbrNamesDistinct()
    ensures forall i, j :: 0 <= i < j < |AbbrNames| ==> AbbrNames[i] != AbbrNames[j]
  {
  }

  /** `%b` reads back the month `strftime` wrote. */
  lemma MonthAbbrValue(m: int)
    requires 1 <= m <= 12
    ensures MonthValue(MonthAbbr(m), false) == Some(m)
  {
    AbbrIndex(m);
  }

  /** `%d` reads back the day `strftime` wrote. */
  lemma PadDayValue(d: int)
    requires 1 <= d <= 31
    ensures DayValue(PadDigits(d, 2)) == Some(d)
  {
  }

  lemma WordsOfOne(a: string)
    requires IsWord(a)
    ensures Words(a) == [a]
  {
    WordsCons(a, []);
    assert a + [] == a;
  }

  lemma WordsConsSpace(a: string, rest: string)
    requires IsWord(a)
    ensures Words(a + " " + rest) == [a] + Words(rest)
  {
    var tail := " " + rest;
    assert tail[0] == ' ';
    WordsCons(a, tail);
    WordsSpace(rest);
    assert a + " " + rest == a + tail;
  }

  /** Words separated by single spaces are read back as they were. */
  lemma WordsOfTwo(a: string, b: string)
    requires IsWord(a)
    requires IsWord(b)
    ensures Words(a + " " + b) == [a, b]
  {
    WordsConsSpace(a, b);
    WordsOfOne(b);
  }

  lemma WordsOfThree(a: string, b: string, c: string)
    requires IsWord(a)
    requires IsWord(b)
    requires IsWord(c)
    ensures Words(a + " " + b + " " + c) == [a, b, c]
  {
    var bc := b + " " + c;
    WordsConsSpace(a, bc);
    WordsOfTwo(b, c);
    ConcatAssoc(a + " " + b, " ", c);
    ConcatAssoc(a + " ", b, " " + c);
    ConcatAssoc(b, " ", c);
  }

  lemma FormatDateTokens(k: DateKey)
    requires ValidKey(k)
    ensures Tokens(FormatDate(k), true) == Some([PadDigits(k.day, 2), MonthAbbr(k.month), PadDigits(k.year, 4)])
  {
    var d := PadDigits(k.day, 2);
    var y := PadDigits(k.year, 4);
    var s := FormatDate(k);
    DigitsAreWord(d);
    DigitsAreWord(y);
    WordsOfThree(d, MonthAbbr(k.month), y);
    assert IsDigit(s[0]) && IsDigit(s[|s| - 1]);
  }

  lemma FormatDateFields(k: DateKey)
    requires ValidKey(k)
    ensures ReadFields([PadDigits(k.day, 2), MonthAbbr(k.month), PadDigits(k.year, 4)], Formats[0]) == Some(k)
  {
    PadDayValue(k.day);
    MonthAbbrValue(k.month);
  }

  /** Round trip: a date written as `%d %b %Y` sorts by that very date. */
  lemma FormatDateRoundTrip(k: DateKey)
    requires ValidKey(k)
    ensures ParseDateForSorting(FormatDate(k)) == k
  {
    var s := FormatDate(k);
    FormatDateTokens(k);
    FormatDateFields(k);
    assert ParseWith(s, Formats[0]) == Some(k);
    FirstDatePicks(Readings(s), 0);
  }

  /** A label whose words no format reads differently: no leading space to drop, no whitespace at its ends. */
  lemma PlainTokens(s: string)
    requires s != [] && !IsSpace(s[0]) && !IsSpace(s[|s| - 1])
    ensures Tokens(s, true) == Some(Words(s)) && Tokens(s, false) == Some(Words(s))
  {
    assert !LeadingSpaceDay(s);
  }

  /** A two-word label fails every format with a year; `%b %d` is the first without one. */
  lemma YearlessPicked(s: string, ws: seq<string>)
    requires Tokens(s, true) == Some(ws) && Tokens(s, false) == Some(ws) && |ws| == 2
    requires ReadFields(ws, Formats[4]).Some?
    ensures ParseDateForSorting(s) == ReadFields(ws, Formats[4]).value
  {
    var rs := Readings(s);
    forall j | 0 <= j < 4 ensures rs[j].None? {
      assert Formats[j].withYear;
    }
    assert rs[4] == ReadFields(ws, Formats[4]);
    FirstDatePicks(rs, 4);
  }

  lemma FormatYearlessTokens(k: DateKey)
    requires ValidKey(k)
    ensures Words(FormatYearless(k)) == [MonthAbbr(k.month), PadDigits(k.day, 2)]
    ensures var s := FormatYearless(k); s != [] && !IsSpace(s[0]) && !IsSpace(s[|s| - 1])
  {
    var d := PadDigits(k.day, 2);
    var s := FormatYearless(k);
    DigitsAreWord(d);
    WordsOfTwo(MonthAbbr(k.month), d);
    assert IsDigit(s[|s| - 1]);
  }

  /** Round trip without a year: a date written as `%b %d` sorts as that day of 1900. */
  lemma FormatYearlessRoundTrip(k: DateKey)
    requires ValidKey(k) && ValidKey(DateKey(1900, k.month, k.day))
    ensures ParseDateForSorting(FormatYearless(k)) == DateKey(1900, k.month, k.day)
  {
    var ws := [MonthAbbr(k.month), PadDigits(k.day, 2)];
    FormatYearlessTokens(k);
    PlainTokens(FormatYearless(k));
    FormatYearlessFields(k);
    YearlessPicked(FormatYearless(k), ws);
  }

  lemma FormatYearlessFields(k: DateKey)
    requires ValidKey(DateKey(1900, k.month, k.day))
    ensures ReadFields([MonthAbbr(k.month), PadDigits(k.day, 2)], Formats[4]) == Some(DateKey(1900, k.month, k.day))
  {
    PadDayValue(k.day);
    MonthAbbrValue(k.month);
    ReadMonthDay([MonthAbbr(k.month), PadDigits(k.day, 2)], k.month, k.day);
  }

  /** `%b %d` reads a month and a day as that day of 1900. */
  lemma ReadMonthDay(ws: seq<string>, m: int, d: int)
    requires |ws| == 2 && MonthValue(ws[0], false) == Some(m) && DayValue(ws[1]) == Some(d)
    requires ValidKey(DateKey(1900, m, d))
    ensures ReadFields(ws, Formats[4]) == Some(DateKey(1900, m, d))
  {
    assert Formats[4] == Format(false, false, false);
  }

  lemma ExampleMonth()
    ensures MonthValue("Dec", false) == Some(12)
  {
    assert Lower("Dec") == "dec";
    assert AbbrNames[11] == "dec";
    AbbrIndex(12);
  }

  lemma ExampleYear()
    ensures YearValue("2025") == Some(2025)
  {
    assert DigitsValue("2") == 2 by { assert "2"[..0] == []; }
    assert DigitsValue("20") == 20 by { assert "20"[..1] == "2"; }
    assert DigitsValue("202") == 202 by { assert "202"[..2] == "20"; }
    assert DigitsValue("2025") == 2025 by { assert "2025"[..3] == "202"; }
    assert AllDigits("2025");
  }

  lemma ExampleDay()
    ensures DayValue("15") == Some(15)
  {
    assert DigitsValue("1") == 1 by { assert "1"[..0] == []; }
    assert DigitsValue("15") == 15 by { assert "15"[..1] == "1"; }
    assert AllDigits("15");
  }

  lemma ExampleDatedTokens()
    ensures Tokens("15 Dec 2025", true) == Some(["15", "Dec", "2025"])
  {
    ExampleDatedWords();
    PlainTokens("15 Dec 2025");
  }

  lemma ExampleDatedWords()
    ensures Words("15 Dec 2025") == ["15", "Dec", "2025"]
  {
    assert IsWord("15") && IsWord("Dec") && IsWord("2025");
    WordsOfThree("15", "Dec", "2025");
    assert "15" + " " + "Dec" + " " + "2025" == "15 Dec 2025";
  }

  lemma ExampleYearlessTokens()
    ensures Tokens("Dec 15", true) == Some(["Dec", "15"]) && Tokens("Dec 15", false) == Some(["Dec", "15"])
  {
    assert IsWord("15") && IsWord("Dec");
    WordsOfTwo("Dec", "15");
    assert "Dec" + " " + "15" == "Dec 15";
    PlainTokens("Dec 15");
  }

  /** A heading with a year, as the archive's sections are labelled. */
  lemma ExampleDated()
    ensures ParseDateForSorting("15 Dec 2025") == DateKey(2025, 12, 15)
  {
    ExampleDay();
    ExampleMonth();
    ExampleYear();
    ExampleDatedTokens();
    var s := "15 Dec 2025";
    assert ReadFields(["15", "Dec", "2025"], Formats[0]) == Some(DateKey(2025, 12, 15));
    assert Readings(s)[0] == Some(DateKey(2025, 12, 15));
    FirstDatePicks(Readings(s), 0);
  }

  /** A heading without a year is dated in 1900. */
  lemma ExampleYearless()
    ensures ParseDateForSorting("Dec 15") == DateKey(1900, 12, 15)
  {
    ExampleYearlessTokens();
    ExampleYearlessFields();
    YearlessPicked("Dec 15", ["Dec", "15"]);
  }

  lemma ExampleYearlessFields()
    ensures ReadFields(["Dec", "15"], Formats[4]) == Some(DateKey(1900, 12, 15))
  {
    ExampleDay();
    ExampleMonth();
    assert ValidKey(DateKey(1900, 12, 15));
    ReadMonthDay(["Dec", "15"], 12, 15);
  }

  /*
   * `list.sort(key=..., reverse=True)`: most recent first, and stable, so
   * labels with equal keys keep the order they had.
   */

  /** Puts `x` after every element whose key is not earlier than its own. */
  function InsertDesc<T>(xs: seq<T>, x: T, key: T -> DateKey): (r: seq<T>)
    ensures |r| == |xs| + 1
  {
    if xs == [] || Earlier(key(xs[0]), key(x)) then [x] + xs
    else [xs[0]] + InsertDesc(xs[1..], x, key)
  }

  function SortDesc<T>(xs: seq<T>, key: T -> DateKey): (r: seq<T>)
    ensures |r| == |xs|
  {
    if xs == [] then [] else InsertDesc(SortDesc(xs[..|xs| - 1], key), xs[|xs| - 1], key)
  }

  predicate Descending<T>(xs: seq<T>, key: T -> DateKey) {
    forall i, j :: 0 <= i < j < |xs| ==> !Earlier(key(xs[i]), key(xs[j]))
  }

  /** The elements of `xs` whose key is `k`, in order. */
  function WithKey<T>(xs: seq<T>, key: T -> DateKey, k: DateKey): seq<T> {
    if xs == [] then []
    else (if key(xs[0]) == k then [xs[0]] else []) + WithKey(xs[1..], key, k)
  }

  lemma {:induction false} InsertDescPerm<T>(xs: seq<T>, x: T, key: T -> DateKey)
    ensures multiset(InsertDesc(xs, x, key)) == multiset(xs) + multiset{x}
  {
    if xs != [] && !Earlier(key(xs[0]), key(x)) {
      InsertDescPerm(xs[1..], x, key);
      assert xs == [xs[0]] + xs[1..];
    }
  }

  /** A key no earlier than the first of a descending sequence is no earlier than any of it. */
  lemma DescendingHead<T>(xs: seq<T>, key: T -> DateKey, k: DateKey)
    requires Descending(xs, key) && xs != [] && !Earlier(k, key(xs[0]))
    ensures forall j :: 0 <= j < |xs| ==> !Earlier(k, key(xs[j]))
  {
  }

  lemma {:induction false} InsertDescSorted<T>(xs: seq<T>, x: T, key: T -> DateKey)
    requires Descending(xs, key)
    ensures Descending(InsertDesc(xs, x, key), key)
  {
    if xs == [] {
    } else if Earlier(key(xs[0]), key(x)) {
      DescendingHead(xs, key, key(x));
    } else {
      var tail := InsertDesc(xs[1..], x, key);
      InsertDescSorted(xs[1..], x, key);
      InsertDescPerm(xs[1..], x, key);
      DescendingHead(xs, key, key(xs[0]));
      forall j | 0 <= j < |tail| ensures !Earlier(key(xs[0]), key(tail[j])) {
        assert tail[j] in multiset(tail);
        assert tail[j] == x || tail[j] in xs[1..];
      }
      assert InsertDesc(xs, x, key) == [xs[0]] + tail;
    }
  }

  lemma {:induction false} SortDescSorted<T>(xs: seq<T>, key: T -> DateKey)
    ensures Descending(SortDesc(xs, key), key)
    ensures multiset(SortDesc(xs, key)) == multiset(xs)
  {
    if xs != [] {
      SortDescSorted(xs[..|xs| - 1], key);
      InsertDescSorted(SortDesc(xs[..|xs| - 1], key), xs[|xs| - 1], key);
      InsertDescPerm(SortDesc(xs[..|xs| - 1], key), xs[|xs| - 1], key);
      assert xs == xs[..|xs| - 1] + [xs[|xs| - 1]];
    }
  }

  lemma {:induction false} WithKeyAppend<T>(a: seq<T>, b: seq<T>, key: T -> DateKey, k: DateKey)
    ensures WithKey(a + b, key, k) == WithKey(a, key, k) + WithKey(b, key, k)
  {
    if a != [] {
      assert (a + b)[1..] == a[1..] + b;
      WithKeyAppend(a[1..], b, key, k);
    } else {
      assert a + b == b;
    }
  }

  lemma {:induction false} WithKeyNone<T>(xs: seq<T>, key: T -> DateKey, k: DateKey)
    requires forall i :: 0 <= i < |xs| ==> key(xs[i]) != k
    ensures WithKey(xs, key, k) == []
  {
    if xs != [] {
      WithKeyNone(xs[1..], key, k);
    }
  }

  /** A descending sequence whose first key is earlier than `k` has no element with key `k`. */
  lemma NoneAtLaterKey<T>(xs: seq<T>, key: T -> DateKey, k: DateKey)
    requires Descending(xs, key) && xs != [] && Earlier(key(xs[0]), k)
    ensures WithKey(xs, key, k) == []
  {
    forall i | 0 <= i < |xs| ensures key(xs[i]) != k {
      assert i == 0 || !Earlier(key(xs[0]), key(xs[i]));
    }
    WithKeyNone(xs, key, k);
  }

  lemma {:induction false} InsertDescStable<T>(xs: seq<T>, x: T, key: T -> DateKey, k: DateKey)
    requires Descending(xs, key)
    ensures WithKey(InsertDesc(xs, x, key), key, k) == WithKey(xs, key, k) + WithKey([x], key, k)
  {
    assert WithKey([x], key, k) == (if key(x) == k then [x] else []) + WithKey([], key, k);
    if xs == [] {
    } else if Earlier(key(xs[0]), key(x)) {
      WithKeyAppend([x], xs, key, k);
      if key(x) == k {
        NoneAtLaterKey(xs, key, k);
      }
    } else {
      InsertDescStable(xs[1..], x, key, k);
    }
  }

  /** The sort is stable: among labels with equal keys the original order is kept. */
  lemma {:induction false} SortDescStable<T>(xs: seq<T>, key: T -> DateKey, k: DateKey)
    ensures WithKey(SortDesc(xs, key), key, k) == WithKey(xs, key, k)
  {
    if xs != [] {
      var init := xs[..|xs| - 1];
      SortDescStable(init, key, k);
      SortDescSorted(init, key);
      InsertDescStable(SortDesc(init, key), xs[|xs| - 1], key, k);
      assert xs == init + [xs[|xs| - 1]];
      WithKeyAppend(init, [xs[|xs| - 1]], key, k);
    }
  }

  /**
    The labels no format reads sort before every dated label: the fallback
    key is the latest there is, and the order is most recent first.
   */
  lemma UnparseableFirst(labels: seq<string>, i: int, j: int)
    requires var r := SortDesc(labels, ParseDateForSorting); 0 <= i < j < |r| && ParseDateForSorting(r[j]) == Sentinel
    ensures ParseDateForSorting(SortDesc(labels, ParseDateForSorting)[i]) == Sentinel
  {
    var r := SortDesc(labels, ParseDateForSorting);
    SortDescSorted(labels, ParseDateForSorting);
    SentinelIsLatest(r[i]);
  }
}
