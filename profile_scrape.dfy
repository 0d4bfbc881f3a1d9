/** `fetch_ig_rate` once the page has been fetched and decoded (usd.py:25-39):
    strip the page, search it for
        (2020) (..:..) (AM|PM) (PROMEDI(C|O) Bs. )([0-9.,]*)
    keep what follows the first "Bs." in the match, strip it and hand it to
    `parse_rate`; a missing match or a missing "Bs." is caught and gives
    `D()`, the zero sentinel. */
module ProfileScrape {
  import opened Outcomes
  import opened Text
  import opened RateParsing

  /** The pattern's fixed-width head, "2020 ..:.. AM PROMEDIO Bs. ", is 27
      characters long; the greedy `[0-9.,]*` group follows it. */
  const HeadLength := 27

  /** What the regex `.` accepts: anything but a newline. */
  predicate Wild(c: char) { c != '\n' }

  /** A 27-character window has the shape of the head. */
  predicate IsHead(w: string)
    requires |w| == HeadLength
  {
    // (2020) and a space
    && w[0] == '2' && w[1] == '0' && w[2] == '2' && w[3] == '0' && w[4] == ' '
    // (..:..) and a space
    && Wild(w[5]) && Wild(w[6]) && w[7] == ':' && Wild(w[8]) && Wild(w[9]) && w[10] == ' '
    // (AM|PM) and a space
    && ((w[11] == 'A' && w[12] == 'M') || (w[11] == 'P' && w[12] == 'M')) && w[13] == ' '
    // (PROMEDI(C|O) Bs. )
    && w[14] == 'P' && w[15] == 'R' && w[16] == 'O' && w[17] == 'M' && w[18] == 'E'
    && w[19] == 'D' && w[20] == 'I' && (w[21] == 'C' || w[21] == 'O')
    && w[22] == ' ' && w[23] == 'B' && w[24] == 's' && Wild(w[25]) && w[26] == ' '
  }

  /** The head of the pattern matches `s` at position `i`. */
  predicate HeadAt(s: string, i: nat) {
    i + HeadLength <= |s| && IsHead(s[i..i + HeadLength])
  }

  /** The pattern matches at `i` and at no earlier position: where
      `re.search` reports its match. */
  predicate LeftmostAt(s: string, i: nat) {
    HeadAt(s, i) && forall j: nat :: j < i ==> !HeadAt(s, j)
  }

  /** The end of the longest run of `[0-9.,]` that starts at `k`: the
      greedy group. */
  function RunEnd(s: string, k: nat): (e: nat)
    requires k <= |s|
    decreases |s| - k
    ensures k <= e <= |s|
    ensures OverRateChars(s[k..e])
    ensures e == |s| || !IsRateChar(s[e])
  {
    if k == |s| || !IsRateChar(s[k]) then k
    else
      var e := RunEnd(s, k + 1);
      assert s[k..e] == [s[k]] + s[k + 1..e];
      e
  }

  function SearchFrom(s: string, from: nat): (r: Option<nat>)
    decreases |s| - from
    ensures r.Some? ==> from <= r.value && HeadAt(s, r.value)
    ensures r.Some? ==> forall j: nat :: from <= j < r.value ==> !HeadAt(s, j)
    ensures r.None? ==> forall j: nat :: from <= j ==> !HeadAt(s, j)
  {
    if from + HeadLength > |s| then None
    else if HeadAt(s, from) then Some(from)
    else SearchFrom(s, from + 1)
  }

  /** `re.search(regex, s)`: the start of the leftmost match, `None` when
      the pattern occurs nowhere. The `[0-9.,]*` tail always matches, so a
      match starts wherever the head does. */
  function Search(s: string): (r: Option<nat>)
    ensures r.Some? ==> LeftmostAt(s, r.value)
    ensures r.None? <==> forall j: nat :: !HeadAt(s, j)
  {
    SearchFrom(s, 0)
  }

  /** `m.group(0)` for the match that starts at `i`: the head and the whole run. */
  function MatchAt(s: string, i: nat): (m: string)
    requires HeadAt(s, i)
    ensures |m| >= HeadLength && HeadAt(m, 0)
    ensures m[..HeadLength] == s[i..i + HeadLength]
    ensures m[HeadLength..] == s[i + HeadLength..RunEnd(s, i + HeadLength)]
  {
    var m := s[i..RunEnd(s, i + HeadLength)];
    assert m[..HeadLength] == s[i..i + HeadLength];
    m
  }

  /** The characters of an occurrence of "Bs.". */
  lemma BsChars(m: string, k: nat)
    requires OccursAt(m, "Bs.", k)
    ensures m[k] == 'B' && m[k + 1] == 's' && m[k + 2] == '.'
  {
    var t := m[k..k + 3];
    assert t[0] == m[k] && t[1] == m[k + 1] && t[2] == m[k + 2];
  }

  /** The fixed characters of a head at the start of `m`. */
  lemma HeadChars(m: string)
    requires HeadAt(m, 0)
    ensures m[0] == '2' && m[1] == '0' && m[2] == '2' && m[3] == '0' && m[4] == ' '
    ensures m[7] == ':' && m[10] == ' ' && m[12] == 'M' && m[13] == ' '
    ensures m[14] == 'P' && m[15] == 'R' && m[16] == 'O' && m[17] == 'M' && m[18] == 'E'
    ensures m[19] == 'D' && m[20] == 'I' && m[22] == ' ' && m[23] == 'B' && m[24] == 's'
    ensures m[26] == ' ' && (m[21] == 'C' || m[21] == 'O') && (m[11] == 'A' || m[11] == 'P')
  {
    var w := m[..HeadLength];
    assert IsHead(w);
    assert forall k :: 0 <= k < HeadLength ==> m[k] == w[k];
  }

  /** In a match, "Bs." can only start at offset 23, and does exactly when
      the wildcard after "Bs" is a literal '.': every other offset of the
      head holds a fixed character that rules it out, and the run holds no 'B'. */
  lemma BsOffset(m: string)
    requires HeadAt(m, 0) && OverRateChars(m[HeadLength..])
    ensures IndexOf(m, "Bs.") == if m[25] == '.' then Some(23) else None
  {
    HeadChars(m);
    forall k: nat | k != 23
      ensures !OccursAt(m, "Bs.", k)
    {
      if HeadLength <= k < |m| {
        assert IsRateChar(m[HeadLength..][k - HeadLength]);
      }
      if OccursAt(m, "Bs.", k) {
        BsChars(m, k);
        assert false;
      }
    }
    if m[25] == '.' {
      assert m[23..26] == [m[23], m[24], m[25]] == "Bs.";
      assert OccursAt(m, "Bs.", 23);
    } else {
      assert m[23..26][2] == m[25];
      assert !OccursAt(m, "Bs.", 23);
    }
  }

  /** What follows "Bs." in a match is a space and then the run; strip()
      leaves the run. */
  lemma SpaceThenRun(run: string)
    requires OverRateChars(run)
    ensures Strip([' '] + run) == run
  {
    var x := [' '] + run;
    assert x[1..] == run;
    StripDropsSpace(x);
    if run != [] {
      assert IsRateChar(run[0]) && IsRateChar(run[|run| - 1]);
    }
    StripKeeps(run);
  }

  /** The body of the `try` once `re.search` has matched (usd.py:32-36):
      slice off everything up to the first "Bs." and strip; when "Bs." is
      missing, `index` raises and the `except` returns `D()`. */
  function RateFromMatch(m: string): (r: Option<Decimal>)
    requires HeadAt(m, 0) && OverRateChars(m[HeadLength..])
    ensures r == if m[25] == '.' then ParseRate(m[HeadLength..]) else Some(Zero)
  {
    BsOffset(m);
    match IndexOf(m, "Bs.")
    case None => Some(Zero)
    case Some(k) =>
      assert m[k + 3..] == [' '] + m[HeadLength..];
      SpaceThenRun(m[HeadLength..]);
      ParseRate(Strip(m[k + 3..]))
  }

  /** The leftmost match is the only one. */
  lemma LeftmostUnique(html: string, i: nat)
    requires LeftmostAt(html, i)
    ensures forall j: nat :: LeftmostAt(html, j) ==> j == i
  {
  }

  /** The `try` block of `fetch_ig_rate` on the stripped page text
      (usd.py:29-39): the zero sentinel when the pattern occurs nowhere;
      otherwise the run after "Bs. " of the leftmost match read by
      `parse_rate`, or the zero sentinel when the character after "Bs" is
      not a '.'. */
  function RateInPage(html: string): (r: Option<Decimal>)
    ensures (forall j: nat :: !HeadAt(html, j)) ==> r == Some(Zero)
    ensures forall i: nat :: LeftmostAt(html, i) ==>
      r == if html[i + 25] == '.' then ParseRate(html[i + HeadLength..RunEnd(html, i + HeadLength)]) else Some(Zero)
  {
    match Search(html)
    case None => Some(Zero)
    case Some(i) =>
      var m := MatchAt(html, i);
      LeftmostUnique(html, i);
      assert m[..HeadLength][25] == html[i..i + HeadLength][25];
      RateFromMatch(m)
  }

  /** `fetch_ig_rate(username)` given the page text the fetch returned
      (usd.py:25-39): the text is stripped before the search. `None` is
      Python's `None`, which `parse_rate` passes straight through when the
      matched run is not a number. */
  function FetchIgRate(page: string): (r: Option<Decimal>)
    ensures (forall j: nat :: !HeadAt(Strip(page), j)) ==> r == Some(Zero)
    ensures forall i: nat :: LeftmostAt(Strip(page), i) ==>
      var html := Strip(page);
      r == if html[i + 25] == '.' then ParseRate(html[i + HeadLength..RunEnd(html, i + HeadLength)]) else Some(Zero)
  {
    RateInPage(Strip(page))
  }

  /** A run that is not a number (empty, or with two commas) reaches the
      caller as `None`, not as the zero sentinel: `parse_rate`'s failure
      value is returned as it is. */
  lemma NonNumericRunGivesNone(page: string, i: nat)
    requires LeftmostAt(Strip(page), i) && Strip(page)[i + 25] == '.'
    requires var html := Strip(page);
      var run := html[i + HeadLength..RunEnd(html, i + HeadLength)];
      run == [] || Count(run, ',') >= 2
    ensures FetchIgRate(page) == None
  {
  }

  lemma PostHead(page: string)
    requires page == "2020 09:00 AM PROMEDIO Bs. 6,43"
    ensures LeftmostAt(page, 0) && RunEnd(page, HeadLength) == |page|
    ensures page[HeadLength..] == "6,43" && page[25] == '.'
  {
    var w := page[..HeadLength];
    assert w == "2020 09:00 AM PROMEDIO Bs. ";
    assert IsHead(w);
    assert RunEnd(page, 31) == 31;
    assert RunEnd(page, 30) == 31;
    assert RunEnd(page, 29) == 31;
    assert RunEnd(page, 28) == 31;
  }

  /** A profile post in the expected shape yields the rate after "Bs. ". */
  lemma PostExample()
    ensures FetchIgRate("2020 09:00 AM PROMEDIO Bs. 6,43") == Some(Decimal(643, 2))
  {
    var page := "2020 09:00 AM PROMEDIO Bs. 6,43";
    StripKeeps(page);
    PostHead(page);
    CommaDecimalExample();
  }

  /** When the character after "Bs" is not a '.', the regex still matches
      but `str_m.index('Bs.')` fails, and the result is the zero sentinel
      even though a well-formed rate follows. */
  lemma PostWithoutDotExample()
    ensures FetchIgRate("2020 09:00 AM PROMEDIO Bs: 6,43") == Some(Zero)
  {
    var page := "2020 09:00 AM PROMEDIO Bs: 6,43";
    StripKeeps(page);
    ColonHead(page);
  }

  lemma ColonHead(page: string)
    requires page == "2020 09:00 AM PROMEDIO Bs: 6,43"
    ensures LeftmostAt(page, 0) && page[25] == ':'
  {
    var w := page[..HeadLength];
    assert w == "2020 09:00 AM PROMEDIO Bs: ";
    assert IsHead(w);
  }

  /** A page without the pattern (a login wall, say) gives the zero sentinel. */
  lemma LoginPageExample()
    ensures FetchIgRate("Login - Instagram") == Some(Zero)
  {
    StripKeeps("Login - Instagram");
  }
}
