/**
 * Worked examples of the date normaliser on literal texts: each one shows a
 * behaviour of history-brief/utils/date-utils.js that its comments do not
 * announce.
 */
module DateExamples {
  import opened Wrappers
  import opened Text
  import opened DatePatterns
  import opened DateUtils

  /** Lower-casing and trimming leave alone a text without ASCII capitals or Kelvin signs and without surrounding white space. */
  lemma NormalizeKeeps(s: string)
    requires s != [] && !IsSpace(s[0]) && !IsSpace(s[|s| - 1])
    requires forall k :: 0 <= k < |s| ==> !('A' <= s[k] <= 'Z') && s[k] != '\U{212A}'
    ensures Normalize(s) == s
  {
    assert Lower(s) == s;
  }

  /** The text of the next example, and its only `D mois YYYY` match. */
  const ConstructorText: string := "1 constructor 2024"
  const ConstructorMatch: DmyMatch := DmyMatch(0, 1, 2, 13, 14)

  lemma ConstructorTextNormalized()
    ensures Normalize(ConstructorText) == ConstructorText
  {
    var s := ConstructorText;
    assert forall k :: 0 <= k < |s| ==> !('A' <= s[k] <= 'Z');
    NormalizeKeeps(s);
  }

  lemma ConstructorTextMatch()
    ensures LeftmostDmy(ConstructorText, ConstructorMatch)
  {
    var s, m := ConstructorText, ConstructorMatch;
    assert Digits(s, 0, 1) && Spaces(s, 1, 2) && Spaces(s, 13, 14) && Digits(s, 14, 18);
    assert Words(s, 2, 13);
  }

  lemma ConstructorMonth()
    ensures IsDmyMatch(ConstructorText, ConstructorMatch)
    ensures MonthLookup(DmyMonth(ConstructorText, ConstructorMatch)) == Inherited
  {
    ConstructorTextMatch();
    assert DmyMonth(ConstructorText, ConstructorMatch) == "constructor";
  }

  /**
   * `FRENCH_MONTHS["constructor"]` is the inherited `Object` function, a
   * truthy value: "1 constructor 2024" yields an Invalid Date instead of
   * falling through to the later patterns.
   */
  lemma InheritedKeyGivesInvalidDate(parse: string -> Option<int>)
    ensures ParseFrenchDate(ConstructorText, parse) == Some(Invalid)
  {
    ConstructorTextNormalized();
    ConstructorTextMatch();
    ConstructorMonth();
    DayMonthYearFirst(ConstructorText, parse, ConstructorMatch);
  }

  /** The text of the next example, and its `D/M/YYYY` match. */
  const SlashText: string := "45/99/2024"
  const SlashTextMatch: SlashMatch := SlashMatch(0, 2, 5)

  lemma SlashTextLeftmost()
    ensures LeftmostSlash(SlashText, SlashTextMatch)
  {
    assert IsSlashMatch(SlashText, SlashTextMatch);
  }

  lemma SlashTextFields()
    requires IsSlashMatch(SlashText, SlashTextMatch)
    ensures SlashDay(SlashText, SlashTextMatch) == 45
    ensures SlashMonth(SlashText, SlashTextMatch) == 99
    ensures SlashYear(SlashText, SlashTextMatch) == 2024
  {
    var s := SlashText;
    assert s[0..2] == "45" && s[3..5] == "99" && s[6..10] == "2024";
    assert DigitsValue("45") == 45 by { assert "45"[..1] == "4"; }
    assert DigitsValue("99") == 99 by { assert "99"[..1] == "9"; }
    assert DigitsValue("2024") == 2024 by {
      assert "2024"[..3] == "202" && "202"[..2] == "20" && "20"[..1] == "2";
      assert DigitsValue("20") == 20;
      assert DigitsValue("202") == 202;
    }
  }

  /** "45/99/2024" is read as day 45 of month 99: nothing checks the ranges. */
  lemma SlashWithoutRangeCheck(parse: string -> Option<int>)
    ensures ExtractDateFromText(SlashText, parse) == Some(Civil(2024, 98, 45))
  {
    SlashTextLeftmost();
    SlashTextFields();
    SlashFirst(SlashText, parse, SlashTextMatch);
  }
}
