/** Form input helpers (src/utils/formUtils.ts): reading an optional decimal number
    typed with either a decimal comma or point, and showing a `YYYY-MM-DD` date as
    `DD/MM/YYYY`. */
module FormUtils {
  import opened Wrappers
  import opened JsText

  /** `parseNullableNumber`. `toNumber` stands for JavaScript's `Number(...)` followed by
      the `Number.isFinite` test: it is `None` where the text converts to `NaN` or an
      infinity. Blank input is no number; otherwise only the first comma becomes a
      decimal point before conversion. */
  function ParseNullableNumber(value: string, toNumber: string -> Option<real>): (r: Option<real>)
    ensures AllWhitespace(value) ==> r == None
    ensures !AllWhitespace(value) ==> r == toNumber(ReplaceFirst(value, ',', '.'))
  {
    TrimEmptyIffBlank(value);
    if Trim(value) == [] then None
    else toNumber(ReplaceFirst(value, ',', '.'))
  }

  /** A decimal comma is read as a decimal point; any later comma is left as it is
      (and so makes the text no number, for `Number`). */
  lemma DecimalCommaRead(intPart: string, rest: string, toNumber: string -> Option<real>)
    requires forall i :: 0 <= i < |intPart| ==> intPart[i] != ','
    ensures ParseNullableNumber(intPart + "," + rest, toNumber) == toNumber(intPart + "." + rest)
  {
    var s := intPart + "," + rest;
    assert s[|intPart|] == ',';
    ReplaceFirstOnlyFirst(s, ',', '.', |intPart|);
    assert s[..|intPart|] == intPart && s[|intPart| + 1..] == rest;
    assert !IsJsWhitespace(s[|intPart|]);
  }

  /** Text without a comma is converted as typed. */
  lemma CommaFreeRead(value: string, toNumber: string -> Option<real>)
    requires forall i :: 0 <= i < |value| ==> value[i] != ','
    requires !AllWhitespace(value)
    ensures ParseNullableNumber(value, toNumber) == toNumber(value)
  {
    ReplaceFirstAbsent(value, ',', '.');
  }

  /** JavaScript's `undefined` written into a template literal. */
  const Undefined: string := "undefined"

  /** `formatDateDisplay`: the empty string stays empty; otherwise the first three
      '-'-separated fields are written day/month/year, a missing field as "undefined". */
  function FormatDateDisplay(dateStr: string): (r: string)
    ensures dateStr == "" <==> r == ""
  {
    if dateStr == "" then ""
    else
      var parts := Split(dateStr, '-');
      var year := parts[0];
      var month := if |parts| > 1 then parts[1] else Undefined;
      var day := if |parts| > 2 then parts[2] else Undefined;
      day + "/" + month + "/" + year
  }

  predicate DashFree(s: string) {
    forall i :: 0 <= i < |s| ==> s[i] != '-'
  }

  /** The field that starts `day + extra` is `day`. */
  lemma FirstFieldOf(day: string, extra: string)
    requires DashFree(day)
    requires extra == "" || extra[0] == '-'
    ensures Split(day + extra, '-')[0] == day
  {
    if extra == "" {
      SplitNoSeparator(day, '-');
      assert day + extra == day;
    } else {
      SplitAtSeparator(day, '-', extra[1..]);
      assert day + extra == day + ['-'] + extra[1..];
    }
  }

  /** Two leading dash-free fields are split off in order. */
  lemma SplitTwoFields(year: string, month: string, tail: string)
    requires DashFree(year) && DashFree(month)
    ensures Split(year + "-" + month + "-" + tail, '-') == [year, month] + Split(tail, '-')
  {
    var rest := month + ['-'] + tail;
    var fields := Split(tail, '-');
    assert Split(rest, '-') == [month] + fields by {
      SplitAtSeparator(month, '-', tail);
    }
    assert Split(year + ['-'] + rest, '-') == [year] + Split(rest, '-') by {
      SplitAtSeparator(year, '-', rest);
    }
    assert year + "-" + month + "-" + tail == year + ['-'] + rest;
    assert [year] + ([month] + fields) == [year, month] + fields;
  }

  /** An ISO calendar date `year-month-day` is shown as `day/month/year`; anything after
      a further '-' is dropped. */
  lemma FormatIsoDate(year: string, month: string, day: string, extra: string)
    requires DashFree(year) && DashFree(month) && DashFree(day)
    requires extra == "" || extra[0] == '-'
    ensures FormatDateDisplay(year + "-" + month + "-" + day + extra) == day + "/" + month + "/" + year
  {
    var tail := day + extra;
    var s := year + "-" + month + "-" + tail;
    assert year + "-" + month + "-" + day + extra == s;
    FirstFieldOf(day, extra);
    SplitTwoFields(year, month, tail);
    var parts := Split(s, '-');
    assert parts[0] == year && parts[1] == month && parts[2] == day;
    assert s != "" by { assert |s| > |year|; }
  }

  /** Text without any '-' is taken for the year alone. */
  lemma FormatWithoutDashes(dateStr: string)
    requires dateStr != "" && DashFree(dateStr)
    ensures FormatDateDisplay(dateStr) == Undefined + "/" + Undefined + "/" + dateStr
  {
    SplitNoSeparator(dateStr, '-');
  }
}
