/**
 * Date normalisation of history-brief/utils/date-utils.js: the French month
 * table, `parseFrenchDate`, `extractDateFromText` and the recency predicates
 * `isWithinMonths` / `isWithinWeeks`.
 *
 * Everything the source takes from the JavaScript runtime or from date-fns
 * (the clock, `new Date(string)`, the local-time meaning of
 * `new Date(year, month, day)`, `subMonths`, `subWeeks`, `subDays`) is a
 * field of `Platform`, so every result here is a function of its arguments.
 */
module DateUtils {
  import opened Wrappers
  import opened Text
  import opened DatePatterns

  /** A JavaScript `Date` as far as the pipeline can tell dates apart. */
  datatype Date =
    | Civil(year: int, monthIndex: int, day: int)  // `new Date(year, monthIndex, day)`, fields as passed (not normalised)
    | Instant(ms: int)                            // a valid Date from the clock or from `new Date(string)`
    | Invalid                                     // an Invalid Date: its time value is NaN

  /** The runtime services the source calls: all times are milliseconds since the epoch. */
  datatype Platform = Platform(
    now: int,                          // `new Date()` during the run
    parse: string -> Option<int>,      // `new Date(text)`; None for an Invalid Date
    civil: (int, int, int) -> int,     // the time value of `new Date(year, monthIndex, day)` in local time
    monthsBefore: (int, int) -> int,   // date-fns `subMonths(t, n)`
    weeksBefore: (int, int) -> int,    // date-fns `subWeeks(t, n)`
    daysBefore: (int, int) -> int)     // date-fns `subDays(t, n)`

  /** `date.getTime()`: None stands for NaN. */
  function TimeValue(d: Date, p: Platform): Option<int> {
    match d
    case Civil(y, m, day) => Some(p.civil(y, m, day))
    case Instant(ms) => Some(ms)
    case Invalid => None
  }

  /** `new Date(text)`. */
  function DateObject(text: string, parse: string -> Option<int>): (d: Date)
    ensures d.Invalid? <==> parse(text).None?
    ensures parse(text).Some? ==> d == Instant(parse(text).value)
  {
    match parse(text)
    case Some(ms) => Instant(ms)
    case None => Invalid
  }

  // ---------------------------------------------------------------------
  // FRENCH_MONTHS
  // ---------------------------------------------------------------------

  /** The own entries of the FRENCH_MONTHS object literal. */
  const MonthTable: map<string, nat> := map[
    "janvier" := 1, "jan" := 1,
    "f\U{E9}vrier" := 2, "f\U{E9}v" := 2, "fevrier" := 2, "fev" := 2,
    "mars" := 3, "mar" := 3,
    "avril" := 4, "avr" := 4,
    "mai" := 5,
    "juin" := 6, "jun" := 6,
    "juillet" := 7, "juil" := 7,
    "ao\U{FB}t" := 8, "aout" := 8, "ao\U{FB}" := 8,
    "septembre" := 9, "sept" := 9, "sep" := 9,
    "octobre" := 10, "oct" := 10,
    "novembre" := 11, "nov" := 11,
    "d\U{E9}cembre" := 12, "d\U{E9}c" := 12, "dec" := 12
  ]

  /** The table keys that contain an accented letter. */
  const AccentedKeys: set<string> :=
    {"f\U{E9}vrier", "f\U{E9}v", "ao\U{FB}t", "ao\U{FB}", "d\U{E9}cembre", "d\U{E9}c"}

  /**
   * The lower-case names made of `\w` characters that a plain object
   * inherits from `Object.prototype`; `FRENCH_MONTHS[key]` yields a truthy
   * non-number for them.
   */
  const InheritedKeys: set<string> := {"constructor", "__proto__"}

  /** What `FRENCH_MONTHS[key]` yields: a month number, an inherited (truthy, non-numeric) value, or `undefined`. */
  datatype Lookup = Month(number: nat) | Inherited | Absent

  function MonthLookup(key: string): (r: Lookup)
    ensures key in MonthTable ==> r == Month(MonthTable[key]) && 1 <= r.number <= 12
    ensures key !in MonthTable && key in InheritedKeys ==> r == Inherited
    ensures r.Absent? <==> key !in MonthTable && key !in InheritedKeys
  {
    if key in MonthTable then Month(MonthTable[key])
    else if key in InheritedKeys then Inherited
    else Absent
  }

  /** `new Date(year, month - 1, day)` for a truthy table value; `NaN - 1` makes an Invalid Date. */
  function CivilDate(year: int, month: Lookup, day: int): Date
    requires !month.Absent?
  {
    if month.Month? then Civil(year, month.number - 1, day) else Invalid
  }

  // ---------------------------------------------------------------------
  // Captures
  // ---------------------------------------------------------------------

  /** `parseInt(s.slice(i, j))` for a run of digits. */
  function Number(s: string, i: nat, j: nat): nat
    requires Digits(s, i, j)
  {
    assert Digits(s[i..j], 0, j - i) by {
      forall k | 0 <= k < j - i ensures IsDigit(s[i..j][k]) { assert s[i..j][k] == s[i + k]; }
    }
    DigitsValue(s[i..j])
  }

  function DmyDay(s: string, m: DmyMatch): nat requires IsDmyMatch(s, m) { Number(s, m.start, m.dayEnd) }
  function DmyMonth(s: string, m: DmyMatch): string requires IsDmyMatch(s, m) { s[m.monthStart..m.monthEnd] }
  function DmyYear(s: string, m: DmyMatch): nat requires IsDmyMatch(s, m) { Number(s, m.yearStart, m.yearStart + 4) }
  function MyMonth(s: string, m: MyMatch): string requires IsMyMatch(s, m) { s[m.start..m.monthEnd] }
  function MyYear(s: string, m: MyMatch): nat requires IsMyMatch(s, m) { Number(s, m.yearStart, m.yearStart + 4) }
  function SlashDay(s: string, m: SlashMatch): nat requires IsSlashMatch(s, m) { Number(s, m.start, m.dayEnd) }
  function SlashMonth(s: string, m: SlashMatch): nat requires IsSlashMatch(s, m) { Number(s, m.dayEnd + 1, m.monthEnd) }
  function SlashYear(s: string, m: SlashMatch): nat requires IsSlashMatch(s, m) { Number(s, m.monthEnd + 1, m.monthEnd + 5) }

  // ---------------------------------------------------------------------
  // parseFrenchDate
  // ---------------------------------------------------------------------

  /** `dateStr.toLowerCase().trim()`. */
  function Normalize(s: string): string { Trim(Lower(s)) }

  /** The first attempt: the leftmost `D mois YYYY`, if its month word has a truthy table value. */
  function DayMonthYear(n: string): Option<Date> {
    match FindDmy(n, 0)
    case None => None
    case Some(m) =>
      var month := MonthLookup(DmyMonth(n, m));
      if month.Absent? then None else Some(CivilDate(DmyYear(n, m), month, DmyDay(n, m)))
  }

  /** The second attempt: the leftmost `mois YYYY`, if its month word has a truthy table value; day 1. */
  function MonthYear(n: string): Option<Date> {
    match FindMy(n, 0)
    case None => None
    case Some(m) =>
      var month := MonthLookup(MyMonth(n, m));
      if month.Absent? then None else Some(CivilDate(MyYear(n, m), month, 1))
  }

  /** The third attempt: the whole normalised text is a year; January 1st. */
  function BareYear(n: string): Option<Date> {
    if IsBareYear(n) then Some(Civil(Number(n, 0, 4), 0, 1)) else None
  }

  /** The last attempt: `new Date(dateStr)` on the text as given, kept only when valid. */
  function NativeDate(s: string, parse: string -> Option<int>): (r: Option<Date>)
    ensures r.Some? <==> parse(s).Some?
    ensures r.Some? ==> r.value == Instant(parse(s).value)
  {
    var d := DateObject(s, parse);
    if d.Invalid? then None else Some(d)
  }

  /** `parseFrenchDate(dateStr)`: the four attempts in order, the first one that yields a date wins. */
  function ParseFrenchDate(dateStr: string, parse: string -> Option<int>): (r: Option<Date>)
    ensures dateStr == "" ==> r.None?
  {
    if dateStr == "" then None
    else
      var n := Normalize(dateStr);
      var first := DayMonthYear(n);
      if first.Some? then first
      else
        var second := MonthYear(n);
        if second.Some? then second
        else
          var third := BareYear(n);
          if third.Some? then third else NativeDate(dateStr, parse)
  }

  // ---------------------------------------------------------------------
  // extractDateFromText
  // ---------------------------------------------------------------------

  /** `extractDateFromText(text)`: the leftmost `D/M/YYYY` read as day/month/year, otherwise `parseFrenchDate(text)`. */
  function ExtractDateFromText(text: string, parse: string -> Option<int>): (r: Option<Date>)
    ensures text == "" ==> r.None?
  {
    if text == "" then None
    else
      match FindSlash(text, 0)
      case Some(m) => Some(Civil(SlashYear(text, m), SlashMonth(text, m) - 1, SlashDay(text, m)))
      case None => ParseFrenchDate(text, parse)
  }

  /** `extractDateFromText` as a value, for the adapters that only pass texts to it. */
  function Extractor(parse: string -> Option<int>): string -> Option<Date> {
    text => ExtractDateFromText(text, parse)
  }

  // ---------------------------------------------------------------------
  // isWithinMonths / isWithinWeeks
  // ---------------------------------------------------------------------

  /** `isWithinMonths(date, months)`: a date strictly after `subMonths(now, months)`. */
  predicate IsWithinMonths(date: Option<Date>, months: int, p: Platform) {
    date.Some? && var t := TimeValue(date.value, p); t.Some? && t.value > p.monthsBefore(p.now, months)
  }

  /** `isWithinWeeks(date, weeks)`: a date strictly after `subWeeks(now, weeks)`. */
  predicate IsWithinWeeks(date: Option<Date>, weeks: int, p: Platform) {
    date.Some? && var t := TimeValue(date.value, p); t.Some? && t.value > p.weeksBefore(p.now, weeks)
  }

  // =====================================================================
  // Properties
  // =====================================================================

  /** No month word a `\w+` group captures contains an accented letter. */
  lemma WordsAreNotAccentedKeys(w: string)
    requires Words(w, 0, |w|)
    ensures w !in AccentedKeys
  {
    forall k | k in AccentedKeys ensures !Words(k, 0, |k|) {
      assert !IsWord(k[1]) || !IsWord(k[2]);
    }
  }

  /**
   * The accented table keys (`février`, `fév`, `août`, `aoû`, `décembre`,
   * `déc`) are never looked up: the month group of either French pattern
   * only ever captures `\w` characters, which are ASCII.
   */
  lemma AccentedKeysUnreachable(s: string)
    ensures forall m :: IsDmyMatch(s, m) ==> DmyMonth(s, m) !in AccentedKeys
    ensures forall m :: IsMyMatch(s, m) ==> MyMonth(s, m) !in AccentedKeys
  {
    forall m | IsDmyMatch(s, m) ensures DmyMonth(s, m) !in AccentedKeys {
      var w := DmyMonth(s, m);
      assert forall k | 0 <= k < |w| :: w[k] == s[m.monthStart + k];
      WordsAreNotAccentedKeys(w);
    }
    forall m | IsMyMatch(s, m) ensures MyMonth(s, m) !in AccentedKeys {
      var w := MyMonth(s, m);
      assert forall k | 0 <= k < |w| :: w[k] == s[m.start + k];
      WordsAreNotAccentedKeys(w);
    }
  }

  /** Consequently an accented key never decides the month: the lookups that succeed are on ASCII keys. */
  lemma AccentedKeysNeverDecide(s: string)
    ensures forall m :: IsDmyMatch(s, m) && MonthLookup(DmyMonth(s, m)).Month? ==> DmyMonth(s, m) in MonthTable.Keys - AccentedKeys
    ensures forall m :: IsMyMatch(s, m) && MonthLookup(MyMonth(s, m)).Month? ==> MyMonth(s, m) in MonthTable.Keys - AccentedKeys
  {
    AccentedKeysUnreachable(s);
  }

  /**
   * The leftmost `D mois YYYY` match decides the result when its month word
   * has a truthy table value: (year, month - 1, day) from that match.
   */
  lemma DayMonthYearFirst(s: string, parse: string -> Option<int>, m: DmyMatch)
    requires s != ""
    requires LeftmostDmy(Normalize(s), m)
    requires !MonthLookup(DmyMonth(Normalize(s), m)).Absent?
    ensures ParseFrenchDate(s, parse) ==
      Some(CivilDate(DmyYear(Normalize(s), m), MonthLookup(DmyMonth(Normalize(s), m)), DmyDay(Normalize(s), m)))
  {
    FindDmyLeftmost(Normalize(s));
  }

  /**
   * Only the leftmost `D mois YYYY` match is tried: when its month word is
   * unknown (or there is none), the leftmost `mois YYYY` match with a
   * truthy month decides, with day 1, even if a later `D mois YYYY` has a
   * known month.
   */
  lemma MonthYearSecond(s: string, parse: string -> Option<int>, m: MyMatch)
    requires s != ""
    requires forall d :: LeftmostDmy(Normalize(s), d) ==> MonthLookup(DmyMonth(Normalize(s), d)).Absent?
    requires LeftmostMy(Normalize(s), m)
    requires !MonthLookup(MyMonth(Normalize(s), m)).Absent?
    ensures ParseFrenchDate(s, parse) ==
      Some(CivilDate(MyYear(Normalize(s), m), MonthLookup(MyMonth(Normalize(s), m)), 1))
  {
    var n := Normalize(s);
    FindDmyLeftmost(n);
    FindMyLeftmost(n);
    if FindDmy(n, 0).Some? {
      assert LeftmostDmy(n, FindDmy(n, 0).value);
    }
  }

  /** A trimmed, lower-cased text of exactly four digits is January 1st of that year. */
  lemma BareYearThird(s: string, parse: string -> Option<int>)
    requires s != "" && IsBareYear(Normalize(s))
    ensures ParseFrenchDate(s, parse) == Some(Civil(Number(Normalize(s), 0, 4), 0, 1))
  {
    BareYearHasNoWordedMatch(Normalize(s));
  }

  /** When no pattern yields a date, the result is `new Date(dateStr)` on the text as given, if that is valid. */
  lemma NativeDateLast(s: string, parse: string -> Option<int>)
    requires s != ""
    requires forall d :: LeftmostDmy(Normalize(s), d) ==> MonthLookup(DmyMonth(Normalize(s), d)).Absent?
    requires forall m :: LeftmostMy(Normalize(s), m) ==> MonthLookup(MyMonth(Normalize(s), m)).Absent?
    requires !IsBareYear(Normalize(s))
    ensures ParseFrenchDate(s, parse) == NativeDate(s, parse)
  {
    var n := Normalize(s);
    FindDmyLeftmost(n);
    FindMyLeftmost(n);
    if FindDmy(n, 0).Some? {
      assert LeftmostDmy(n, FindDmy(n, 0).value);
    }
    if FindMy(n, 0).Some? {
      assert LeftmostMy(n, FindMy(n, 0).value);
    }
  }

  /**
   * The `D/M/YYYY` pattern comes before every French form: its leftmost
   * match decides, read as day/month/year, with no range check on day or
   * month.
   */
  lemma SlashFirst(text: string, parse: string -> Option<int>, m: SlashMatch)
    requires LeftmostSlash(text, m)
    ensures ExtractDateFromText(text, parse) ==
      Some(Civil(SlashYear(text, m), SlashMonth(text, m) - 1, SlashDay(text, m)))
  {
    FindSlashLeftmost(text);
  }

  /** Without a `D/M/YYYY` match, `extractDateFromText(text)` is exactly `parseFrenchDate(text)`. */
  lemma FrenchWithoutSlash(text: string, parse: string -> Option<int>)
    requires forall m :: !IsSlashMatch(text, m)
    ensures ExtractDateFromText(text, parse) == ParseFrenchDate(text, parse)
  {
    FindSlashLeftmost(text);
  }

  /** `isWithinMonths` / `isWithinWeeks` reject a missing date, an Invalid Date and a date equal to the threshold. */
  lemma RecencyBoundaryExcluded(d: Date, n: int, p: Platform)
    ensures !IsWithinMonths(None, n, p) && !IsWithinWeeks(None, n, p)
    ensures !IsWithinMonths(Some(Invalid), n, p) && !IsWithinWeeks(Some(Invalid), n, p)
    ensures TimeValue(d, p) == Some(p.monthsBefore(p.now, n)) ==> !IsWithinMonths(Some(d), n, p)
    ensures TimeValue(d, p) == Some(p.weeksBefore(p.now, n)) ==> !IsWithinWeeks(Some(d), n, p)
  {
  }

  /** A later date is recent whenever an earlier one is; a wider window admits every date a narrower one does. */
  lemma RecencyMonotone(d: Date, e: Date, m: int, n: int, p: Platform)
    requires TimeValue(d, p).Some? && TimeValue(e, p).Some? && TimeValue(d, p).value <= TimeValue(e, p).value
    requires p.monthsBefore(p.now, n) <= p.monthsBefore(p.now, m)
    ensures IsWithinMonths(Some(d), m, p) ==> IsWithinMonths(Some(e), m, p)
    ensures IsWithinMonths(Some(d), m, p) ==> IsWithinMonths(Some(d), n, p)
  {
  }
}
