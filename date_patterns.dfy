/**
 * The three regular expressions of history-brief/utils/date-utils.js, each as
 * a declarative predicate (what a match IS: a split of the text into the
 * pattern's parts) and a matcher that scans from the left the way
 * `String.prototype.match` without the `g` flag does.
 *
 *   `(\d{1,2})\s+(\w+)\s+(\d{4})`   day month year   (DmyMatch)
 *   `(\w+)\s+(\d{4})`                month year       (MyMatch)
 *   `(\d{1,2})\/(\d{1,2})\/(\d{4})`  day/month/year   (SlashMatch)
 *
 * For each pattern the split at a given start position is unique, so the
 * backtracking order of the regex engine never has a choice to make: the
 * lemmas `*AtComplete` prove it, and `Find*Leftmost` prove that the scan
 * returns the match with the smallest start.
 */
module DatePatterns {
  import opened Wrappers
  import opened Text

  // ---------------------------------------------------------------------
  // `(\d{1,2})\s+(\w+)\s+(\d{4})`
  // ---------------------------------------------------------------------

  /** Capture boundaries: day `s[start..dayEnd]`, month `s[monthStart..monthEnd]`, year `s[yearStart..yearStart + 4]`. */
  datatype DmyMatch = DmyMatch(start: nat, dayEnd: nat, monthStart: nat, monthEnd: nat, yearStart: nat)

  /** `s[m.start..m.yearStart + 4]` is one or two digits, white space, word characters, white space and four digits. */
  predicate IsDmyMatch(s: string, m: DmyMatch) {
    && m.start < m.dayEnd <= m.start + 2
    && m.dayEnd < m.monthStart < m.monthEnd < m.yearStart
    && m.yearStart + 4 <= |s|
    && Digits(s, m.start, m.dayEnd)
    && Spaces(s, m.dayEnd, m.monthStart)
    && Words(s, m.monthStart, m.monthEnd)
    && Spaces(s, m.monthEnd, m.yearStart)
    && Digits(s, m.yearStart, m.yearStart + 4)
  }

  /** The match of the pattern that starts exactly at `i`, if any. */
  function DmyAt(s: string, i: nat): (r: Option<DmyMatch>)
    requires i <= |s|
    ensures r.Some? ==> r.value.start == i && IsDmyMatch(s, r.value)
  {
    if !(i < |s| && IsDigit(s[i])) then None
    else
      var dayEnd := if i + 1 < |s| && IsDigit(s[i + 1]) then i + 2 else i + 1;
      var monthStart := SpaceEnd(s, dayEnd);
      var monthEnd := WordEnd(s, monthStart);
      var yearStart := SpaceEnd(s, monthEnd);
      if dayEnd < monthStart < monthEnd < yearStart && yearStart + 4 <= |s| && Digits(s, yearStart, yearStart + 4)
      then Some(DmyMatch(i, dayEnd, monthStart, monthEnd, yearStart))
      else None
  }

  /** Every match starting at `m.start` is the one `DmyAt` finds: the split is unique. */
  lemma DmyAtComplete(s: string, m: DmyMatch)
    requires IsDmyMatch(s, m)
    ensures DmyAt(s, m.start) == Some(m)
  {
    var i := m.start;
    assert IsDigit(s[i]);
    assert IsSpace(s[m.dayEnd]);
    SpaceEndUnique(s, m.dayEnd, m.monthStart);
    WordEndUnique(s, m.monthStart, m.monthEnd);
    SpaceEndUnique(s, m.monthEnd, m.yearStart);
  }

  /** The leftmost match at or after `from`. */
  function FindDmy(s: string, from: nat): (r: Option<DmyMatch>)
    requires from <= |s|
    ensures r.Some? ==> from <= r.value.start && IsDmyMatch(s, r.value)
    ensures r.Some? ==> forall j :: from <= j < r.value.start ==> DmyAt(s, j).None?
    ensures r.None? ==> forall j :: from <= j <= |s| ==> DmyAt(s, j).None?
    decreases |s| - from
  {
    var here := DmyAt(s, from);
    if here.Some? then here
    else if from == |s| then None
    else FindDmy(s, from + 1)
  }

  /** `m` is a match and no match starts further left. */
  ghost predicate LeftmostDmy(s: string, m: DmyMatch) {
    IsDmyMatch(s, m) && forall m' :: IsDmyMatch(s, m') ==> m.start <= m'.start
  }

  /** What `s.match(/(\d{1,2})\s+(\w+)\s+(\d{4})/)` returns: the leftmost match, or null when there is none. */
  lemma FindDmyLeftmost(s: string)
    ensures forall m :: FindDmy(s, 0) == Some(m) <==> LeftmostDmy(s, m)
    ensures FindDmy(s, 0).None? <==> forall m :: !IsDmyMatch(s, m)
  {
    var r := FindDmy(s, 0);
    forall m | IsDmyMatch(s, m)
      ensures r.Some? && r.value.start <= m.start
    {
      DmyAtComplete(s, m);
    }
    forall m | LeftmostDmy(s, m)
      ensures r == Some(m)
    {
      DmyAtComplete(s, m);
      DmyAtComplete(s, r.value);
    }
  }

  // ---------------------------------------------------------------------
  // `(\w+)\s+(\d{4})`
  // ---------------------------------------------------------------------

  /** Capture boundaries: month `s[start..monthEnd]`, year `s[yearStart..yearStart + 4]`. */
  datatype MyMatch = MyMatch(start: nat, monthEnd: nat, yearStart: nat)

  /** `s[m.start..m.yearStart + 4]` is word characters, white space and four digits. */
  predicate IsMyMatch(s: string, m: MyMatch) {
    && m.start < m.monthEnd < m.yearStart
    && m.yearStart + 4 <= |s|
    && Words(s, m.start, m.monthEnd)
    && Spaces(s, m.monthEnd, m.yearStart)
    && Digits(s, m.yearStart, m.yearStart + 4)
  }

  /** The match of the pattern that starts exactly at `i`, if any. */
  function MyAt(s: string, i: nat): (r: Option<MyMatch>)
    requires i <= |s|
    ensures r.Some? ==> r.value.start == i && IsMyMatch(s, r.value)
  {
    var monthEnd := WordEnd(s, i);
    var yearStart := SpaceEnd(s, monthEnd);
    if i < monthEnd < yearStart && yearStart + 4 <= |s| && Digits(s, yearStart, yearStart + 4)
    then Some(MyMatch(i, monthEnd, yearStart))
    else None
  }

  /** Every match starting at `m.start` is the one `MyAt` finds: the split is unique. */
  lemma MyAtComplete(s: string, m: MyMatch)
    requires IsMyMatch(s, m)
    ensures MyAt(s, m.start) == Some(m)
  {
    WordEndUnique(s, m.start, m.monthEnd);
    SpaceEndUnique(s, m.monthEnd, m.yearStart);
  }

  /** The leftmost match at or after `from`. */
  function FindMy(s: string, from: nat): (r: Option<MyMatch>)
    requires from <= |s|
    ensures r.Some? ==> from <= r.value.start && IsMyMatch(s, r.value)
    ensures r.Some? ==> forall j :: from <= j < r.value.start ==> MyAt(s, j).None?
    ensures r.None? ==> forall j :: from <= j <= |s| ==> MyAt(s, j).None?
    decreases |s| - from
  {
    var here := MyAt(s, from);
    if here.Some? then here
    else if from == |s| then None
    else FindMy(s, from + 1)
  }

  /** `m` is a match and no match starts further left. */
  ghost predicate LeftmostMy(s: string, m: MyMatch) {
    IsMyMatch(s, m) && forall m' :: IsMyMatch(s, m') ==> m.start <= m'.start
  }

  /** What `s.match(/(\w+)\s+(\d{4})/)` returns: the leftmost match, or null when there is none. */
  lemma FindMyLeftmost(s: string)
    ensures forall m :: FindMy(s, 0) == Some(m) <==> LeftmostMy(s, m)
    ensures FindMy(s, 0).None? <==> forall m :: !IsMyMatch(s, m)
  {
    var r := FindMy(s, 0);
    forall m | IsMyMatch(s, m)
      ensures r.Some? && r.value.start <= m.start
    {
      MyAtComplete(s, m);
    }
    forall m | LeftmostMy(s, m)
      ensures r == Some(m)
    {
      MyAtComplete(s, m);
      MyAtComplete(s, r.value);
    }
  }

  // ---------------------------------------------------------------------
  // `(\d{1,2})\/(\d{1,2})\/(\d{4})`
  // ---------------------------------------------------------------------

  /** Capture boundaries: day `s[start..dayEnd]`, month `s[dayEnd + 1..monthEnd]`, year `s[monthEnd + 1..monthEnd + 5]`. */
  datatype SlashMatch = SlashMatch(start: nat, dayEnd: nat, monthEnd: nat)

  /** `s[m.start..m.monthEnd + 5]` is one or two digits, `/`, one or two digits, `/` and four digits. */
  predicate IsSlashMatch(s: string, m: SlashMatch) {
    && m.start < m.dayEnd <= m.start + 2
    && m.dayEnd + 1 < m.monthEnd <= m.dayEnd + 3
    && m.monthEnd + 5 <= |s|
    && Digits(s, m.start, m.dayEnd)
    && s[m.dayEnd] == '/'
    && Digits(s, m.dayEnd + 1, m.monthEnd)
    && s[m.monthEnd] == '/'
    && Digits(s, m.monthEnd + 1, m.monthEnd + 5)
  }

  /** The end of `\d{1,2}` matched greedily at `i` (`i` itself when there is no digit). */
  function DigitPairEnd(s: string, i: nat): (j: nat)
    requires i <= |s|
    ensures i <= j <= i + 2 && j <= |s| && Digits(s, i, j)
  {
    if i < |s| && IsDigit(s[i]) then
      if i + 1 < |s| && IsDigit(s[i + 1]) then i + 2 else i + 1
    else i
  }

  /** The match of the pattern that starts exactly at `i`, if any. */
  function SlashAt(s: string, i: nat): (r: Option<SlashMatch>)
    requires i <= |s|
    ensures r.Some? ==> r.value.start == i && IsSlashMatch(s, r.value)
  {
    var dayEnd := DigitPairEnd(s, i);
    if i < dayEnd && dayEnd < |s| && s[dayEnd] == '/' then
      var monthEnd := DigitPairEnd(s, dayEnd + 1);
      if dayEnd + 1 < monthEnd && monthEnd + 5 <= |s| && s[monthEnd] == '/' && Digits(s, monthEnd + 1, monthEnd + 5)
      then Some(SlashMatch(i, dayEnd, monthEnd))
      else None
    else None
  }

  /** Every match starting at `m.start` is the one `SlashAt` finds: the split is unique. */
  lemma SlashAtComplete(s: string, m: SlashMatch)
    requires IsSlashMatch(s, m)
    ensures SlashAt(s, m.start) == Some(m)
  {
    assert IsDigit(s[m.start]) && IsDigit(s[m.dayEnd + 1]);
  }

  /** The leftmost match at or after `from`. */
  function FindSlash(s: string, from: nat): (r: Option<SlashMatch>)
    requires from <= |s|
    ensures r.Some? ==> from <= r.value.start && IsSlashMatch(s, r.value)
    ensures r.Some? ==> forall j :: from <= j < r.value.start ==> SlashAt(s, j).None?
    ensures r.None? ==> forall j :: from <= j <= |s| ==> SlashAt(s, j).None?
    decreases |s| - from
  {
    var here := SlashAt(s, from);
    if here.Some? then here
    else if from == |s| then None
    else FindSlash(s, from + 1)
  }

  /** `m` is a match and no match starts further left. */
  ghost predicate LeftmostSlash(s: string, m: SlashMatch) {
    IsSlashMatch(s, m) && forall m' :: IsSlashMatch(s, m') ==> m.start <= m'.start
  }

  /** What `s.match(/(\d{1,2})\/(\d{1,2})\/(\d{4})/)` returns: the leftmost match, or null when there is none. */
  lemma FindSlashLeftmost(s: string)
    ensures forall m :: FindSlash(s, 0) == Some(m) <==> LeftmostSlash(s, m)
    ensures FindSlash(s, 0).None? <==> forall m :: !IsSlashMatch(s, m)
  {
    var r := FindSlash(s, 0);
    forall m | IsSlashMatch(s, m)
      ensures r.Some? && r.value.start <= m.start
    {
      SlashAtComplete(s, m);
    }
    forall m | LeftmostSlash(s, m)
      ensures r == Some(m)
    {
      SlashAtComplete(s, m);
      SlashAtComplete(s, r.value);
    }
  }

  // ---------------------------------------------------------------------
  // `^(\d{4})$`
  // ---------------------------------------------------------------------

  /** The whole text is exactly four digits. */
  predicate IsBareYear(s: string) { |s| == 4 && Digits(s, 0, 4) }

  /** A four-character text is too short for either French pattern. */
  lemma BareYearHasNoWordedMatch(s: string)
    requires IsBareYear(s)
    ensures FindDmy(s, 0).None? && FindMy(s, 0).None?
  {
    FindDmyLeftmost(s);
    FindMyLeftmost(s);
  }
}
