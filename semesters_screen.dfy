/** Helpers of the semesters screen (src/ui/screens/SemestersScreen.tsx): titles such
    as "1.º Semestre - 2.º Ano" are generated from a year and a semester number and
    parsed back by a regular-expression search, and semesters are sorted into the
    current, past and future tabs by their dates. */
module SemestersScreen {
  import opened Wrappers
  import opened DbTypes
  import Mappers

  /** `ORDINALS`, indexed by the number; an index outside the array gives JavaScript's
      `undefined`, which a template literal writes as "undefined". */
  function Ordinal(i: int): (r: string)
    ensures 1 <= i <= 5 ==> r == [('0' as int + i) as char, '.', 'º']
    ensures i == 0 ==> r == ""
  {
    if i == 0 then ""
    else if i == 1 then "1.º"
    else if i == 2 then "2.º"
    else if i == 3 then "3.º"
    else if i == 4 then "4.º"
    else if i == 5 then "5.º"
    else "undefined"
  }

  /** `generateTitle` */
  function GenerateTitle(year: int, sem: int): string {
    Ordinal(sem) + " Semestre - " + Ordinal(year) + " Ano"
  }

  predicate IsDigit(c: char) {
    '0' <= c <= '9'
  }

  function DigitValue(c: char): nat
    requires IsDigit(c)
  {
    (c as int) - ('0' as int)
  }

  /** The length of the run of digits that starts `s`. */
  function DigitRun(s: string): (n: nat)
    ensures n <= |s|
    ensures forall i :: 0 <= i < n ==> IsDigit(s[i])
    ensures n == |s| || !IsDigit(s[n])
  {
    if |s| > 0 && IsDigit(s[0]) then 1 + DigitRun(s[1..]) else 0
  }

  /** `Number(d)` for a string of decimal digits. */
  function DecimalValue(d: string): nat
    requires forall i :: 0 <= i < |d| ==> IsDigit(d[i])
  {
    if |d| == 0 then 0 else 10 * DecimalValue(d[..|d| - 1]) + DigitValue(d[|d| - 1])
  }

  /** The text between the semester digits and the year digits. */
  const SemesterInfix: string := ".º Semestre - "
  /** The text after the year digits. */
  const YearSuffix: string := ".º Ano"

  /** The two captured numbers of a match. */
  datatype Captures = Captures(sem: nat, year: nat)

  /** A match of `(\d+)\.º Semestre - (\d+)\.º Ano` at the very start of `s`. Each
      `\d+` is followed by a '.', so the greedy run is the only one that can succeed
      and backtracking never finds another. */
  function MatchPrefix(s: string): (m: Option<Captures>)
    ensures m.Some? ==> |s| > 0 && IsDigit(s[0])
  {
    var n1 := DigitRun(s);
    if n1 == 0 then None
    else
      var rest := s[n1..];
      if !(SemesterInfix <= rest) then None
      else
        var rest2 := rest[|SemesterInfix|..];
        var n2 := DigitRun(rest2);
        if n2 == 0 || !(YearSuffix <= rest2[n2..]) then None
        else Some(Captures(DecimalValue(s[..n1]), DecimalValue(rest2[..n2])))
  }

  /** `title.match(…)`: the pattern is not anchored, so the leftmost position where it
      matches wins. */
  function Search(s: string): Option<Captures> {
    match MatchPrefix(s)
    case Some(c) => Some(c)
    case None => if |s| == 0 then None else Search(s[1..])
  }

  /** The result of `parseTitleToYearSem`. */
  datatype YearSem = YearSem(year: nat, semesterNum: nat)

  /** `parseTitleToYearSem`: the numbers of the leftmost match, provided the semester is
      1 or 2 and the year 1 to 5; a match with numbers out of range is not retried
      further along the title. */
  function ParseTitleToYearSem(title: string): (r: Option<YearSem>)
    ensures r.Some? ==> 1 <= r.value.semesterNum <= 2 && 1 <= r.value.year <= 5
    ensures r.Some? <==> Search(title).Some? && 1 <= Search(title).value.sem <= 2 && 1 <= Search(title).value.year <= 5
    ensures r.Some? ==> r.value == YearSem(Search(title).value.year, Search(title).value.sem)
  {
    match Search(title)
    case None => None
    case Some(m) =>
      if m.sem < 1 || m.sem > 2 || m.year < 1 || m.year > 5 then None
      else Some(YearSem(m.year, m.sem))
  }

  function Digit(i: nat): (c: char)
    requires i <= 9
    ensures IsDigit(c) && DigitValue(c) == i
  {
    ('0' as int + i) as char
  }

  /** A generated title is one digit, the infix, one digit and the suffix. */
  lemma GeneratedShape(year: int, sem: int)
    requires 1 <= year <= 5 && 1 <= sem <= 2
    ensures GenerateTitle(year, sem) == [Digit(sem)] + SemesterInfix + [Digit(year)] + YearSuffix
  {
  }

  /** A generated title, followed by anything, matches at its start with the
      semester and the year it was generated from. */
  lemma MatchGenerated(year: int, sem: int, rest: string)
    requires 1 <= year <= 5 && 1 <= sem <= 2
    ensures MatchPrefix(GenerateTitle(year, sem) + rest) == Some(Captures(sem, year))
  {
    GeneratedShape(year, sem);
    var s := GenerateTitle(year, sem) + rest;
    var tail := YearSuffix + rest;
    var rest2 := [Digit(year)] + tail;
    assert s == [Digit(sem)] + (SemesterInfix + rest2);
    assert DigitRun(s) == 1 by {
      assert s[1..] == SemesterInfix + rest2;
      assert !IsDigit(s[1..][0]);
    }
    assert s[1..] == SemesterInfix + rest2;
    assert s[1..][|SemesterInfix|..] == rest2;
    assert DigitRun(rest2) == 1 by {
      assert rest2[1..] == tail;
      assert !IsDigit(tail[0]);
    }
    assert rest2[1..] == tail;
    assert s[..1] == [Digit(sem)] && rest2[..1] == [Digit(year)];
    OneDigitValue(sem);
    OneDigitValue(year);
  }

  /** Text without digits cannot start a match, so the search passes over it. */
  lemma {:induction false} SearchSkipsDigitFree(pre: string, s: string)
    requires forall i :: 0 <= i < |pre| ==> !IsDigit(pre[i])
    ensures Search(pre + s) == Search(s)
    decreases |pre|
  {
    if |pre| > 0 {
      assert (pre + s)[0] == pre[0];
      assert (pre + s)[1..] == pre[1..] + s;
      SearchSkipsDigitFree(pre[1..], s);
    } else {
      assert pre + s == s;
    }
  }

  /** A match at the start of a title decides the parse. */
  lemma ParseOfLeadingMatch(s: string, c: Captures)
    requires MatchPrefix(s) == Some(c)
    ensures ParseTitleToYearSem(s) == if 1 <= c.sem <= 2 && 1 <= c.year <= 5 then Some(YearSem(c.year, c.sem)) else None
  {
  }

  /** Generating a title and parsing it back gives the year and semester again. */
  lemma TitleRoundTrip(year: int, sem: int)
    requires 1 <= year <= 5 && 1 <= sem <= 2
    ensures ParseTitleToYearSem(GenerateTitle(year, sem)) == Some(YearSem(year, sem))
  {
    var t := GenerateTitle(year, sem);
    MatchGenerated(year, sem, []);
    assert t + [] == t;
    ParseOfLeadingMatch(t, Captures(sem, year));
  }

  /** The search is not anchored: a generated title is still found inside digit-free
      text before it and any text after it. */
  lemma TitleFoundInText(year: int, sem: int, pre: string, post: string)
    requires 1 <= year <= 5 && 1 <= sem <= 2
    requires forall i :: 0 <= i < |pre| ==> !IsDigit(pre[i])
    ensures ParseTitleToYearSem(pre + GenerateTitle(year, sem) + post) == Some(YearSem(year, sem))
  {
    var t := GenerateTitle(year, sem);
    var u := t + post;
    assert pre + t + post == pre + u;
    var c := Captures(sem, year);
    assert Search(u) == Some(c) by {
      MatchGenerated(year, sem, post);
    }
    assert Search(pre + u) == Some(c) by {
      SearchSkipsDigitFree(pre, u);
    }
    ParseOfFoundMatch(pre + u, c);
  }

  /** The leftmost match decides the parse. */
  lemma ParseOfFoundMatch(s: string, c: Captures)
    requires Search(s) == Some(c)
    ensures ParseTitleToYearSem(s) == if 1 <= c.sem <= 2 && 1 <= c.year <= 5 then Some(YearSem(c.year, c.sem)) else None
  {
  }

  /** A title without any digit never parses. */
  lemma DigitFreeTitleRejected(title: string)
    requires forall i :: 0 <= i < |title| ==> !IsDigit(title[i])
    ensures ParseTitleToYearSem(title) == None
  {
    SearchSkipsDigitFree(title, []);
    assert title + [] == title;
  }

  /** A digit written just before a generated title joins the semester number, which
      then exceeds 2; the title is rejected rather than parsed from the later digit. */
  lemma LeadingDigitRejected(d: nat, year: int, sem: int)
    requires 1 <= d <= 9 && 1 <= year <= 5 && 1 <= sem <= 2
    ensures ParseTitleToYearSem([Digit(d)] + GenerateTitle(year, sem)) == None
  {
    LeadingDigitMatch(d, year, sem);
    ParseOfLeadingMatch([Digit(d)] + GenerateTitle(year, sem), Captures(10 * d + sem, year));
  }

  /** With an extra digit in front, the match starts at that digit and captures a
      two-digit semester number. */
  lemma LeadingDigitMatch(d: nat, year: int, sem: int)
    requires d <= 9 && 1 <= year <= 5 && 1 <= sem <= 2
    ensures MatchPrefix([Digit(d)] + GenerateTitle(year, sem)) == Some(Captures(10 * d + sem, year))
  {
    GeneratedShape(year, sem);
    var s := [Digit(d)] + GenerateTitle(year, sem);
    var rest2 := [Digit(year)] + YearSuffix;
    assert s == [Digit(d), Digit(sem)] + (SemesterInfix + rest2);
    assert DigitRun(s) == 2 by {
      assert s[1..] == [Digit(sem)] + (SemesterInfix + rest2);
      assert s[2..] == SemesterInfix + rest2;
      assert !IsDigit(s[2..][0]);
    }
    assert s[..2] == [Digit(d), Digit(sem)];
    TwoDigitValue(d, sem);
    assert s[2..] == SemesterInfix + rest2;
    assert s[2..][|SemesterInfix|..] == rest2;
    assert DigitRun(rest2) == 1 by {
      assert rest2[1..] == YearSuffix;
    }
    assert rest2[..1] == [Digit(year)];
    assert rest2[1..] == YearSuffix;
    OneDigitValue(year);
  }

  lemma OneDigitValue(d: nat)
    requires d <= 9
    ensures DecimalValue([Digit(d)]) == d
  {
    assert [Digit(d)][..0] == [];
  }

  lemma TwoDigitValue(d: nat, e: nat)
    requires d <= 9 && e <= 9
    ensures DecimalValue([Digit(d), Digit(e)]) == 10 * d + e
  {
    var two := [Digit(d), Digit(e)];
    assert two[..|two| - 1] == [Digit(d)];
    OneDigitValue(d);
  }

  /** `getSemesterStatus`: the same decision as the database layer's status mapper,
      on the record's own dates. */
  function GetSemesterStatus(s: SemesterRecord, now: int, parseDate: string -> Option<int>): (r: SemesterStatus)
    ensures r == Futuro <==> parseDate(s.startDate).Some? && now < parseDate(s.startDate).value
    ensures r == Passado <==> !(parseDate(s.startDate).Some? && now < parseDate(s.startDate).value)
                              && parseDate(s.endDate).Some? && now > parseDate(s.endDate).value
  {
    Mappers.MapSemesterStatus(s.startDate, s.endDate, now, parseDate)
  }

  /** The semesters shown under one tab, in list order. */
  function SemestersWithStatus(list: seq<SemesterRecord>, tab: SemesterStatus, now: int, parseDate: string -> Option<int>): (r: seq<SemesterRecord>)
    ensures |r| <= |list|
    ensures forall x :: x in r <==> x in list && GetSemesterStatus(x, now, parseDate) == tab
  {
    if |list| == 0 then []
    else
      var init := SemestersWithStatus(list[..|list| - 1], tab, now, parseDate);
      var last := list[|list| - 1];
      assert list == list[..|list| - 1] + [last];
      if GetSemesterStatus(last, now, parseDate) == tab then init + [last] else init
  }

  /** A tab of two lists shown one after the other is the first list's tab followed by
      the second's: the filter keeps list order. */
  lemma {:induction false} SemestersWithStatusConcat(xs: seq<SemesterRecord>, ys: seq<SemesterRecord>, tab: SemesterStatus,
                                                     now: int, parseDate: string -> Option<int>)
    ensures SemestersWithStatus(xs + ys, tab, now, parseDate)
         == SemestersWithStatus(xs, tab, now, parseDate) + SemestersWithStatus(ys, tab, now, parseDate)
    decreases |ys|
  {
    if ys == [] {
      assert xs + ys == xs;
    } else {
      var init := ys[..|ys| - 1];
      assert (xs + ys)[..|xs + ys| - 1] == xs + init;
      SemestersWithStatusConcat(xs, init, tab, now, parseDate);
    }
  }

  /** A semester under the tab appears there exactly as often as in the list; any other
      semester not at all. */
  lemma {:induction false} SemestersWithStatusMultiplicity(list: seq<SemesterRecord>, tab: SemesterStatus,
                                                           now: int, parseDate: string -> Option<int>)
    ensures forall x :: multiset(SemestersWithStatus(list, tab, now, parseDate))[x]
                     == if GetSemesterStatus(x, now, parseDate) == tab then multiset(list)[x] else 0
    decreases |list|
  {
    if list != [] {
      var init, last := list[..|list| - 1], list[|list| - 1];
      assert list == init + [last];
      assert multiset(list) == multiset(init) + multiset{last};
      SemestersWithStatusMultiplicity(init, tab, now, parseDate);
      if GetSemesterStatus(last, now, parseDate) == tab {
        assert multiset(SemestersWithStatus(list, tab, now, parseDate))
            == multiset(SemestersWithStatus(init, tab, now, parseDate)) + multiset{last};
      }
    }
  }

  /** The three tab counts add up to the number of semesters: every semester is under
      exactly one tab. */
  lemma {:induction false} TabCountsPartition(list: seq<SemesterRecord>, now: int, parseDate: string -> Option<int>)
    ensures |SemestersWithStatus(list, Atual, now, parseDate)| + |SemestersWithStatus(list, Passado, now, parseDate)|
            + |SemestersWithStatus(list, Futuro, now, parseDate)| == |list|
  {
    if |list| > 0 {
      TabCountsPartition(list[..|list| - 1], now, parseDate);
    }
  }
}
