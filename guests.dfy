/**
 * Guest extraction of history-brief/scrapers/podcasts-scraper.js: the first
 * capture of `/avec\s+([^.!?]+)/i` (episode descriptions) and of
 * `/avec\s+([^-:]+)/i` (feed item titles), trimmed.
 *
 * Unlike the date patterns, a match starting at a given position is not
 * unique here: white space belongs both to `\s+` and to the negated class,
 * so the engine's preference decides. `AvecAt` makes the engine's choice —
 * the longest `\s+`, then the longest capture, and when the capture cannot
 * start after the whole white-space run, one white-space character handed
 * back to it — and `AvecAtPreferred` proves it is the preferred one.
 */
module Guests {
  import opened Wrappers
  import opened Text

  /** Which negated class follows `avec\s+`: `[^.!?]` in descriptions, `[^-:]` in titles. */
  datatype Stops = Sentence | TitlePart

  /** `c` is excluded from the capture's class. */
  predicate IsStop(k: Stops, c: char) {
    match k
    case Sentence => c == '.' || c == '!' || c == '?'
    case TitlePart => c == '-' || c == ':'
  }

  /** Every character of `s[i..j]` belongs to the capture's class. */
  predicate NoStops(s: string, k: Stops, i: nat, j: nat) {
    i <= j <= |s| && forall p :: i <= p < j ==> !IsStop(k, s[p])
  }

  /** `avec` under the `i` flag: each letter in either ASCII case (no other character folds onto them). */
  predicate IsAvec(s: string, i: nat) {
    i + 4 <= |s|
    && (s[i] == 'a' || s[i] == 'A') && (s[i + 1] == 'v' || s[i + 1] == 'V')
    && (s[i + 2] == 'e' || s[i + 2] == 'E') && (s[i + 3] == 'c' || s[i + 3] == 'C')
  }

  /** The end of the run of capture-class characters that starts at `i`. */
  function StopEnd(s: string, k: Stops, i: nat): (j: nat)
    requires i <= |s|
    ensures i <= j <= |s| && NoStops(s, k, i, j)
    ensures j < |s| ==> IsStop(k, s[j])
    decreases |s| - i
  {
    if i < |s| && !IsStop(k, s[i]) then StopEnd(s, k, i + 1) else i
  }

  /** `avec` at `start`, white space up to `captureStart`, the capture `s[captureStart..captureEnd]`. */
  datatype AvecMatch = AvecMatch(start: nat, captureStart: nat, captureEnd: nat)

  /** Every way the pattern can match: any non-empty white-space part, any non-empty capture. */
  predicate IsAvecMatch(s: string, k: Stops, m: AvecMatch) {
    && IsAvec(s, m.start)
    && m.start + 4 < m.captureStart < m.captureEnd
    && Spaces(s, m.start + 4, m.captureStart)
    && NoStops(s, k, m.captureStart, m.captureEnd)
  }

  /** The match the backtracking engine settles on at `i`, if any. */
  function AvecAt(s: string, k: Stops, i: nat): (r: Option<AvecMatch>)
    requires i <= |s|
    ensures r.Some? ==> r.value.start == i && IsAvecMatch(s, k, r.value)
  {
    if !IsAvec(s, i) then None
    else
      var e := SpaceEnd(s, i + 4);
      var c := StopEnd(s, k, e);
      if e == i + 4 then None
      else if e < c then Some(AvecMatch(i, e, c))
      else if i + 5 < e then Some(AvecMatch(i, e - 1, e))
      else None
  }

  /** The engine's preference: `\s+` as long as possible, then the capture as long as possible. */
  predicate Preferred(m: AvecMatch, m': AvecMatch) {
    m'.captureStart < m.captureStart || (m'.captureStart == m.captureStart && m'.captureEnd <= m.captureEnd)
  }

  /** `AvecAt` finds a match at `i` exactly when there is one, and the one it finds is preferred to every other. */
  lemma AvecAtPreferred(s: string, k: Stops, m': AvecMatch)
    requires IsAvecMatch(s, k, m')
    ensures AvecAt(s, k, m'.start).Some?
    ensures Preferred(AvecAt(s, k, m'.start).value, m')
  {
    var i := m'.start;
    var e := SpaceEnd(s, i + 4);
    assert IsSpace(s[i + 4]);
    assert !IsStop(k, s[m'.captureStart]);
    if m'.captureStart < e {
      assert IsSpace(s[m'.captureStart]);
    } else {
      SpaceEndStops(s, i + 4, m'.captureStart, e);
    }
  }

  /** The white space of a match never runs past the end of the white-space run. */
  lemma SpaceEndStops(s: string, i: nat, j: nat, e: nat)
    requires Spaces(s, i, j) && i <= |s| && e == SpaceEnd(s, i)
    ensures j <= e
  {
  }

  /** The leftmost match at or after `from`. */
  function FindAvec(s: string, k: Stops, from: nat): (r: Option<AvecMatch>)
    requires from <= |s|
    ensures r.Some? ==> from <= r.value.start && IsAvecMatch(s, k, r.value)
    ensures r.Some? ==> r == AvecAt(s, k, r.value.start)
    ensures r.Some? ==> forall j :: from <= j < r.value.start ==> AvecAt(s, k, j).None?
    ensures r.None? ==> forall j :: from <= j <= |s| ==> AvecAt(s, k, j).None?
    decreases |s| - from
  {
    var here := AvecAt(s, k, from);
    if here.Some? then here
    else if from == |s| then None
    else FindAvec(s, k, from + 1)
  }

  /** What `s.match(/avec\s+(...)/i)` returns: the preferred match at the leftmost position where one exists. */
  lemma FindAvecLeftmost(s: string, k: Stops)
    ensures FindAvec(s, k, 0).None? <==> forall m :: !IsAvecMatch(s, k, m)
    ensures FindAvec(s, k, 0).Some? ==>
      forall m :: IsAvecMatch(s, k, m) ==>
        var r := FindAvec(s, k, 0).value;
        r.start < m.start || (r.start == m.start && Preferred(r, m))
  {
    var r := FindAvec(s, k, 0);
    forall m | IsAvecMatch(s, k, m)
      ensures r.Some? && (r.value.start < m.start || (r.value.start == m.start && Preferred(r.value, m)))
    {
      AvecAtPreferred(s, k, m);
    }
  }

  /** The match `s.match(...)` reports: it starts leftmost, and among the matches there it is the preferred one. */
  ghost predicate EngineMatch(s: string, k: Stops, m: AvecMatch) {
    IsAvecMatch(s, k, m)
    && forall m' :: IsAvecMatch(s, k, m') ==> m.start < m'.start || (m.start == m'.start && Preferred(m, m'))
  }

  /** The leftmost scan finds the engine's match, and no other match is the engine's. */
  lemma FindAvecIsEngineMatch(s: string, k: Stops)
    ensures FindAvec(s, k, 0).None? <==> forall m :: !IsAvecMatch(s, k, m)
    ensures FindAvec(s, k, 0).Some? ==> EngineMatch(s, k, FindAvec(s, k, 0).value)
    ensures forall m :: EngineMatch(s, k, m) ==> FindAvec(s, k, 0) == Some(m)
  {
    FindAvecLeftmost(s, k);
    forall m | EngineMatch(s, k, m)
      ensures FindAvec(s, k, 0) == Some(m)
    {
      var r := FindAvec(s, k, 0).value;
      assert r.start <= m.start && m.start <= r.start;
      assert Preferred(r, m) && Preferred(m, r);
    }
  }

  /** Whenever the pattern matches somewhere, the engine has a match to report. */
  lemma EngineMatchExists(s: string, k: Stops, m: AvecMatch)
    requires IsAvecMatch(s, k, m)
    ensures exists e :: EngineMatch(s, k, e) && e.start <= m.start
  {
    FindAvecIsEngineMatch(s, k);
    var e := FindAvec(s, k, 0).value;
    assert EngineMatch(s, k, e);
  }

  /** `match[1].trim()` when the pattern matches: the trimmed capture of the engine's match, and none iff nothing matches. */
  function Capture(s: string, k: Stops): (r: Option<string>)
    ensures r.None? <==> forall m :: !IsAvecMatch(s, k, m)
    ensures forall m :: EngineMatch(s, k, m) ==> r == Some(Trim(s[m.captureStart..m.captureEnd]))
  {
    FindAvecIsEngineMatch(s, k);
    match FindAvec(s, k, 0)
    case Some(m) => Some(Trim(s[m.captureStart..m.captureEnd]))
    case None => None
  }

  /** The trimmed capture never holds one of the characters that end it. */
  lemma CaptureHasNoStops(s: string, k: Stops)
    requires Capture(s, k).Some?
    ensures NoStops(Capture(s, k).value, k, 0, |Capture(s, k).value|)
  {
    FindAvecIsEngineMatch(s, k);
    var m := FindAvec(s, k, 0).value;
    var piece := s[m.captureStart..m.captureEnd];
    assert Capture(s, k).value == Trim(piece);
    assert NoStops(piece, k, 0, |piece|) by {
      forall p | 0 <= p < |piece| ensures !IsStop(k, piece[p]) { assert piece[p] == s[m.captureStart + p]; }
    }
    TrimKeeps(piece, k);
  }

  /** Trimming keeps only characters of the capture's class. */
  lemma TrimKeeps(piece: string, k: Stops)
    requires NoStops(piece, k, 0, |piece|)
    ensures NoStops(Trim(piece), k, 0, |Trim(piece)|)
  {
    var front := TrimStart(piece);
    var a := |piece| - |front|;
    var r := TrimEnd(front);
    assert r == Trim(piece);
    forall p | 0 <= p < |r|
      ensures !IsStop(k, r[p])
    {
      assert r[p] == front[p] == piece[a + p];
    }
  }

  /** With nothing but white space between `avec` and a stop, the engine hands one white-space character to the capture, and trimming leaves nothing. */
  lemma OnlySpaceBeforeStop()
    ensures Capture("avec  .", Sentence) == Some("")
  {
    var s := "avec  .";
    assert SpaceEnd(s, 6) == 6;
    assert SpaceEnd(s, 5) == 6;
    assert SpaceEnd(s, 4) == 6;
    assert StopEnd(s, Sentence, 6) == 6;
    assert AvecAt(s, Sentence, 0) == Some(AvecMatch(0, 5, 6));
    assert s[5..6] == " ";
    assert TrimStart(" ") == "";
  }
}
