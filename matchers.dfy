/**
 * The eight patterns of the rulebase (backend/app.py:50-61), each as a
 * matcher over ASCII text: given a position `p`, the length of the match
 * Python's `re` finds when it tries the pattern at `p` (leftmost-first
 * alternation, greedy repetition with backtracking), or None.
 *
 * Where a pattern backtracks through a repetition, the matcher searches the
 * counts from the greediest down (the `...Backtrack` functions, which
 * return the end position of the repetition). Optional single characters
 * and groups whose omission can never let the rest of the pattern match are
 * taken whenever present; the comment of each matcher says why.
 */
module Matchers {

  import opened Wrappers
  import opened Text

  /** A match found at `p` is nonempty and lies inside the text. */
  predicate Fits(text: string, p: nat, r: Option<nat>) {
    r.Some? ==> 1 <= r.value && p + r.value <= |text|
  }

  /** The largest `e`, `lo < e <= top`, at which `ok` holds: a bounded
      greedy repetition ending at `top`, given back one character at a time
      until the rest of the pattern matches. */
  function LastWhere(lo: nat, top: nat, ok: nat -> bool): (r: Option<nat>)
    ensures r.Some? ==> lo < r.value <= top && ok(r.value)
    ensures r.Some? ==> forall e :: r.value < e <= top ==> !ok(e)
    ensures r.None? ==> forall e :: lo < e <= top ==> !ok(e)
    decreases top
  {
    if top <= lo then None
    else if ok(top) then Some(top)
    else LastWhere(lo, top - 1, ok)
  }

  // ---------------------------------------------------------------- AGE
  // A run of non-whitespace characters, then one of four suffixes: " years old",
  // "-years-old", " year old" or "-year-old" (case-sensitive).

  const AgeSuffixes: seq<string> := [" years old", "-years-old", " year old", "-year-old"]

  /** Backtracking through `\S+` before `suffix`: the largest end `e` of
      the repetition, `p < e <= top`, at which `suffix` occurs. */
  function NonSpaceBacktrack(text: string, p: nat, top: nat, suffix: string): (r: Option<nat>)
    ensures r.Some? ==> p < r.value <= top && LitAt(text, r.value, suffix, false)
    ensures r.Some? ==> forall e :: r.value < e <= top ==> !LitAt(text, e, suffix, false)
    ensures r.None? ==> forall e :: p < e <= top ==> !LitAt(text, e, suffix, false)
  {
    var ok := (e: nat) => LitAt(text, e, suffix, false);
    assert forall e: nat :: ok(e) == LitAt(text, e, suffix, false);
    LastWhere(p, top, ok)
  }

  /** `\S+` followed by `suffix`: the greedy run of non-whitespace characters,
      given back one at a time until `suffix` follows it. */
  function NonSpaceThen(text: string, p: nat, suffix: string): (r: Option<nat>)
    ensures r.Some? ==> |suffix| < r.value && p + r.value <= |text|
    ensures r.Some? ==> LitAt(text, p + r.value - |suffix|, suffix, false)
    ensures r.Some? ==> forall k :: p <= k < p + r.value - |suffix| ==> !IsSpace(text[k])
    ensures r.Some? ==> forall e :: p + r.value - |suffix| < e <= p + NonSpaceRun(text, p) ==> !LitAt(text, e, suffix, false)
    ensures r.None? ==> forall e :: p < e <= p + NonSpaceRun(text, p) ==> !LitAt(text, e, suffix, false)
  {
    match NonSpaceBacktrack(text, p, p + NonSpaceRun(text, p), suffix)
    case Some(e) => Some(e - p + |suffix|)
    case None => None
  }

  /** The first alternative `\S+<suffix>`, in `suffixes` order, that matches at `p`. */
  function FirstNonSpaceThen(text: string, p: nat, suffixes: seq<string>): (r: Option<nat>)
    ensures Fits(text, p, r)
    ensures r.Some? ==> exists i :: 0 <= i < |suffixes| && NonSpaceThen(text, p, suffixes[i]) == r
                          && forall j :: 0 <= j < i ==> NonSpaceThen(text, p, suffixes[j]).None?
    ensures r.None? ==> forall i :: 0 <= i < |suffixes| ==> NonSpaceThen(text, p, suffixes[i]).None?
    decreases |suffixes|
  {
    if suffixes == [] then None
    else
      var first := NonSpaceThen(text, p, suffixes[0]);
      if first.Some? then first
      else
        var r := FirstNonSpaceThen(text, p, suffixes[1..]);
        assert forall i :: 1 <= i < |suffixes| ==> suffixes[i] == suffixes[1..][i - 1];
        r
  }

  /** AGE: the first of the four alternatives that matches at `p`; the match
      is a run of non-whitespace characters followed by one of the suffixes. */
  function MatchAge(text: string, p: nat): (r: Option<nat>)
    ensures Fits(text, p, r)
    ensures r.Some? ==> exists i :: 0 <= i < |AgeSuffixes| && NonSpaceThen(text, p, AgeSuffixes[i]) == r
                          && forall j :: 0 <= j < i ==> NonSpaceThen(text, p, AgeSuffixes[j]).None?
    ensures r.None? ==> forall i :: 0 <= i < |AgeSuffixes| ==> NonSpaceThen(text, p, AgeSuffixes[i]).None?
  {
    FirstNonSpaceThen(text, p, AgeSuffixes)
  }

  // ----------------------------------------------------- STREET_ADDRESS
  // One to four digits, a space, one to twenty word or space characters, a
  // space and one of 23 street types (case-insensitive).

  const StreetTypes: seq<string> :=
    ["street", "st", "avenue", "ave", "road", "rd", "highway", "hwy", "square", "sq", "trail", "trl",
     "drive", "dr", "court", "ct", "park", "parkway", "pkwy", "circle", "cir", "boulevard", "blvd"]

  /** ` (?:street|st|...)` at `q`: a space, then the first street type, in
      the order written, that occurs there (nothing follows it in the pattern). */
  function StreetTypeAt(text: string, q: nat, types: seq<string>): (r: Option<nat>)
    ensures r.Some? ==> 1 <= r.value && q + r.value <= |text| && text[q] == ' '
    ensures r.Some? ==> exists i :: 0 <= i < |types| && LitAt(text, q + 1, types[i], true)
  {
    if q < |text| && text[q] == ' ' then
      match FirstLitAt(text, q + 1, types, true)
      case Some(n) => Some(1 + n)
      case None => None
    else None
  }

  /** Backtracking through `[\w\s]{1,20}`: the largest end `e`,
      `q < e <= top`, followed by a space and a street type. */
  function StreetWordsBacktrack(text: string, q: nat, top: nat, types: seq<string>): (r: Option<nat>)
    ensures r.Some? ==> q < r.value <= top && StreetTypeAt(text, r.value, types).Some?
    ensures r.Some? ==> forall e :: r.value < e <= top ==> StreetTypeAt(text, e, types).None?
    ensures r.None? ==> forall e :: q < e <= top ==> StreetTypeAt(text, e, types).None?
  {
    var ok := (e: nat) => StreetTypeAt(text, e, types).Some?;
    assert forall e: nat :: ok(e) == StreetTypeAt(text, e, types).Some?;
    LastWhere(q, top, ok)
  }

  /** `[\w\s]{1,20} (?:...)` at `q`: at most 20 word or space characters,
      given back until a space and a street type follow; the words end at
      the largest such point, and there is no match when no point works. */
  function StreetWordsAt(text: string, q: nat, types: seq<string>): (r: Option<nat>)
    ensures r.Some? ==> 2 <= r.value && q + r.value <= |text|
    ensures r.Some? ==> exists e :: q < e <= q + Min(20, WordOrSpaceRun(text, q)) && e < q + r.value
                                    && StreetTypeAt(text, e, types) == Some(q + r.value - e)
                                    && forall e' :: e < e' <= q + Min(20, WordOrSpaceRun(text, q)) ==>
                                         StreetTypeAt(text, e', types).None?
    ensures r.None? <==> forall e :: q < e <= q + Min(20, WordOrSpaceRun(text, q)) ==> StreetTypeAt(text, e, types).None?
  {
    match StreetWordsBacktrack(text, q, q + Min(20, WordOrSpaceRun(text, q)), types)
    case Some(e) => Some(e - q + StreetTypeAt(text, e, types).value)
    case None => None
  }

  /** ` [\w\s]{1,20} (?:...)` right after the house number, at `q`. */
  function AfterHouseNumber(text: string, q: nat, types: seq<string>): (r: Option<nat>)
    ensures r.Some? ==> 3 <= r.value && q + r.value <= |text| && text[q] == ' '
  {
    if q < |text| && text[q] == ' ' then
      match StreetWordsAt(text, q + 1, types)
      case Some(n) => Some(1 + n)
      case None => None
    else None
  }

  /** Backtracking through `\d{1,4}`: the largest end `e`, `p < e <= top`,
      after which the rest of the street pattern matches. */
  function HouseNumberBacktrack(text: string, p: nat, top: nat, types: seq<string>): (r: Option<nat>)
    ensures r.Some? ==> p < r.value <= top && AfterHouseNumber(text, r.value, types).Some?
    ensures r.Some? ==> forall e :: r.value < e <= top ==> AfterHouseNumber(text, e, types).None?
    ensures r.None? ==> forall e :: p < e <= top ==> AfterHouseNumber(text, e, types).None?
  {
    var ok := (e: nat) => AfterHouseNumber(text, e, types).Some?;
    assert forall e: nat :: ok(e) == AfterHouseNumber(text, e, types).Some?;
    LastWhere(p, top, ok)
  }

  /** The house number form for a list of street types: one to four
      digits, given back until a space and the street words follow. */
  function StreetMatchWith(text: string, p: nat, types: seq<string>): (r: Option<nat>)
    ensures Fits(text, p, r)
    ensures r.Some? ==> IsDigit(text[p])
  {
    match HouseNumberBacktrack(text, p, p + Min(4, DigitRun(text, p)), types)
    case Some(e) => Some(e - p + AfterHouseNumber(text, e, types).value)
    case None => None
  }

  /** STREET_ADDRESS (house number form), with the street types of the
      pattern. */
  function MatchStreet(text: string, p: nat): (r: Option<nat>)
    ensures Fits(text, p, r)
    ensures r.Some? ==> IsDigit(text[p])
  {
    StreetMatchWith(text, p, StreetTypes)
  }

  // ------------------------------------------------ STREET_ADDRESS (PO box)
  // `P`, an optional dot, an optional space, `O`, an optional dot, ` Box `
  // and digits (case-insensitive).

  function Count(b: bool): nat {
    if b then 1 else 0
  }

  /** Where ` box ` starts when the optional `.`, space and `.` are taken
      as `dot1`, `space` and `dot2` say. */
  function BoxAt(p: nat, dot1: bool, space: bool, dot2: bool): nat {
    p + 1 + Count(dot1) + Count(space) + 1 + Count(dot2)
  }

  /** The PO box pattern matches at `p` with these choices of the optional
      characters: `p`, the chosen `.` and space, `o`, the chosen `.`, then
      ` box ` (any case) and at least one digit. */
  predicate PoBoxWith(text: string, p: nat, dot1: bool, space: bool, dot2: bool) {
    var j := p + 1 + Count(dot1) + Count(space);
    && LitAt(text, p, "p", true)
    && (dot1 ==> LitAt(text, p + 1, ".", false))
    && (space ==> LitAt(text, p + 1 + Count(dot1), " ", false))
    && LitAt(text, j, "o", true)
    && (dot2 ==> LitAt(text, j + 1, ".", false))
    && LitAt(text, BoxAt(p, dot1, space, dot2), " box ", true)
    && DigitRun(text, BoxAt(p, dot1, space, dot2) + 5) >= 1
  }

  /** STREET_ADDRESS (post office box form). Each optional character is a
      dot or a space and what must follow it is a letter or a digit, so
      leaving out a character that is present never lets the rest match:
      every optional character present is taken, and only that choice
      needs trying. `\d+` ends the pattern and takes the whole run of
      digits. */
  function MatchPoBox(text: string, p: nat): (r: Option<nat>)
    ensures Fits(text, p, r)
    ensures r.Some? ==> Lower(text[p]) == 'p' && IsDigit(text[p + r.value - 1])
    ensures r.Some? ==> p + r.value == |text| || !IsDigit(text[p + r.value])
  {
    var dot1 := Opt(text, p + 1, '.') == 1;
    var space := Opt(text, p + 1 + Count(dot1), ' ') == 1;
    var dot2 := Opt(text, p + 2 + Count(dot1) + Count(space), '.') == 1;
    if PoBoxWith(text, p, dot1, space, dot2) then
      var k := BoxAt(p, dot1, space, dot2);
      PoBoxWithBounds(text, p, dot1, space, dot2);
      Some(k + 5 + DigitRun(text, k + 5) - p)
    else None
  }

  /** A PO box match starts with `p` and its digits start after ` box `. */
  lemma PoBoxWithBounds(text: string, p: nat, dot1: bool, space: bool, dot2: bool)
    requires PoBoxWith(text, p, dot1, space, dot2)
    ensures p < |text| && Lower(text[p]) == 'p'
    ensures p < BoxAt(p, dot1, space, dot2) + 5 < |text| && IsDigit(text[BoxAt(p, dot1, space, dot2) + 5])
  {
    LitAtChar(text, p, "p", true, 0);
    LitAtChar(text, BoxAt(p, dot1, space, dot2), " box ", true, 4);
  }

  /** The choices that make the pattern match are the characters present:
      a dot or space left out is followed by itself, not by `o` or ` `. */
  lemma PoBoxChoicesForced(text: string, p: nat, d1: bool, sp: bool, d2: bool)
    requires d1 <==> p + 1 < |text| && text[p + 1] == '.'
    requires sp <==> p + 1 + Count(d1) < |text| && text[p + 1 + Count(d1)] == ' '
    requires d2 <==> p + 2 + Count(d1) + Count(sp) < |text| && text[p + 2 + Count(d1) + Count(sp)] == '.'
    ensures forall dot1, space, dot2 :: PoBoxWith(text, p, dot1, space, dot2) ==>
      dot1 == d1 && space == sp && dot2 == d2
  {
    forall dot1, space, dot2 | PoBoxWith(text, p, dot1, space, dot2)
      ensures dot1 == d1 && space == sp && dot2 == d2
    {
      var j := p + 1 + Count(dot1) + Count(space);
      assert LitAt(text, j, "o", true);
      assert Lower(text[j]) == 'o';
      assert LitAt(text, BoxAt(p, dot1, space, dot2), " box ", true);
      assert text[BoxAt(p, dot1, space, dot2)] == ' ';
    }
  }

  /** The PO box matcher against the pattern read as a choice of the
      optional characters: with any choice that makes the pattern match,
      the match runs to the end of the digits after ` box `. */
  lemma PoBoxMatchEnd(text: string, p: nat)
    ensures forall dot1, space, dot2 :: PoBoxWith(text, p, dot1, space, dot2) ==>
      var k := BoxAt(p, dot1, space, dot2);
      MatchPoBox(text, p).Some? && MatchPoBox(text, p).value == k + 5 + DigitRun(text, k + 5) - p
  {
    var d1 := Opt(text, p + 1, '.') == 1;
    var sp := Opt(text, p + 1 + Count(d1), ' ') == 1;
    var d2 := Opt(text, p + 2 + Count(d1) + Count(sp), '.') == 1;
    PoBoxChoicesForced(text, p, d1, sp, d2);
  }

  /** The PO box matcher finds no match exactly when no choice of the
      optional characters makes the pattern match. */
  lemma PoBoxNoMatch(text: string, p: nat)
    ensures MatchPoBox(text, p).None? <==> forall dot1, space, dot2 :: !PoBoxWith(text, p, dot1, space, dot2)
  {
    var d1 := Opt(text, p + 1, '.') == 1;
    var sp := Opt(text, p + 1 + Count(d1), ' ') == 1;
    var d2 := Opt(text, p + 2 + Count(d1) + Count(sp), '.') == 1;
    PoBoxChoicesForced(text, p, d1, sp, d2);
    assert MatchPoBox(text, p).None? <==> !PoBoxWith(text, p, d1, sp, d2);
  }

  // ------------------------------------------------------------- GOVT_ID
  // Unless `000`, `666` or `333` starts here: zeros, a three-digit area in one
  // of three ranges, a `-` or space, a two-digit group other than `00`, a
  // `-` or space, and a four-digit serial other than `0000`.

  predicate IsIdSep(c: char) {
    c == '-' || c == ' '
  }

  /** The three-digit area alternatives. */
  predicate AreaDigits(a: char, b: char, c: char) {
    || ('0' <= a <= '6' && IsDigit(b) && IsDigit(c))
    || ('0' <= a <= '7' && '0' <= b <= '6' && IsDigit(c))
    || ('0' <= a <= '7' && '0' <= b <= '7' && '0' <= c <= '2')
  }

  /** Area, group and serial from position `a`: eleven characters
      `AAA[- ]GG[- ]SSSS` with the group not `00` and the serial not `0000`. */
  predicate IdGroupsAt(text: string, a: nat) {
    && a + 11 <= |text|
    && AreaDigits(text[a], text[a + 1], text[a + 2])
    && IsIdSep(text[a + 3])
    && IsDigit(text[a + 4]) && IsDigit(text[a + 5]) && text[a + 4..a + 6] != "00"
    && IsIdSep(text[a + 6])
    && IsDigit(text[a + 7]) && IsDigit(text[a + 8]) && IsDigit(text[a + 9]) && IsDigit(text[a + 10])
    && text[a + 7..a + 11] != "0000"
  }

  /** The negative lookahead `(?!000|666|333)` at `p` fails. */
  predicate ExcludedArea(text: string, p: nat) {
    LitAt(text, p, "000", false) || LitAt(text, p, "666", false) || LitAt(text, p, "333", false)
  }

  function ZeroRun(text: string, p: nat): (n: nat)
    ensures n > 0 ==> p + n <= |text|
    ensures forall i :: p <= i < p + n ==> text[i] == '0'
    decreases |text| - p
  {
    if p < |text| && text[p] == '0' then 1 + ZeroRun(text, p + 1) else 0
  }

  /** Backtracking through `0*`: the largest start `a`, `p <= a <= top`, of
      the eleven-character id. */
  function ZerosBacktrack(text: string, p: nat, top: nat): (r: Option<nat>)
    requires p <= top
    ensures r.Some? ==> p <= r.value <= top && IdGroupsAt(text, r.value)
    ensures r.Some? ==> forall a :: r.value < a <= top ==> !IdGroupsAt(text, a)
    ensures r.None? ==> forall a :: p <= a <= top ==> !IdGroupsAt(text, a)
    decreases top
  {
    if IdGroupsAt(text, top) then Some(top)
    else if top == p then None
    else ZerosBacktrack(text, p, top - 1)
  }

  /** GOVT_ID: after the lookahead at `p`, the greedy `0*` gives back zeros
      until the eleven-character id follows; the match is the zeros kept
      plus the id. */
  function MatchGovtId(text: string, p: nat): (r: Option<nat>)
    ensures Fits(text, p, r)
    ensures r.Some? ==> 11 <= r.value && !ExcludedArea(text, p) && IdGroupsAt(text, p + r.value - 11)
    ensures r.Some? ==> forall i :: p <= i < p + r.value - 11 ==> text[i] == '0'
    ensures r.Some? ==> forall a :: p + r.value - 11 < a <= p + ZeroRun(text, p) ==> !IdGroupsAt(text, a)
    ensures r.Some? <==> !ExcludedArea(text, p) && exists a :: p <= a <= p + ZeroRun(text, p) && IdGroupsAt(text, a)
  {
    if ExcludedArea(text, p) then None
    else
      match ZerosBacktrack(text, p, p + ZeroRun(text, p))
      case Some(a) => Some(a - p + 11)
      case None => None
  }

  // ------------------------------------------------------ DISEASE, NORP
  // Seven disease terms and four social-class phrases (case-insensitive).

  const Diseases: seq<string> := ["diabetes", "cancer", "hiv", "aids", "alzheimer's", "alzheimer", "heart disease"]

  const Classes: seq<string> := ["upper class", "middle class", "working class", "lower class"]

  /** DISEASE: the first term, in the order written, that occurs at `p`
      ignoring case; so `Alzheimer's` wins over `Alzheimer`. */
  function MatchDisease(text: string, p: nat): (r: Option<nat>)
    ensures Fits(text, p, r)
    ensures r.Some? <==> exists i :: 0 <= i < |Diseases| && LitAt(text, p, Diseases[i], true)
    ensures r.Some? ==> exists i :: 0 <= i < |Diseases| && LitAt(text, p, Diseases[i], true) && r.value == |Diseases[i]|
  {
    assert NoneEmpty(Diseases);
    FirstLitAt(text, p, Diseases, true)
  }

  /** NORP: the first social-class phrase that occurs at `p`, ignoring case. */
  function MatchNorp(text: string, p: nat): (r: Option<nat>)
    ensures Fits(text, p, r)
    ensures r.Some? <==> exists i :: 0 <= i < |Classes| && LitAt(text, p, Classes[i], true)
    ensures r.Some? ==> exists i :: 0 <= i < |Classes| && LitAt(text, p, Classes[i], true) && r.value == |Classes[i]|
  {
    assert NoneEmpty(Classes);
    FirstLitAt(text, p, Classes, true)
  }

  // ---------------------------------------------------- BIRTH_DEATH_DATE
  // Either `born `, a day and a month in either order, an optional comma,
  // whitespace and an optional year; or a numeric date of three digit groups
  // separated by `-`, `.` or `/` (case-insensitive). The day's two negative
  // lookbehinds (no `:` or `:` and a digit before it) always hold where the
  // day can stand: after `born ` or after whitespace.

  /** The month alternation with each `xxx\.?` written out in the order the
      matcher tries it: with the dot first, then without. */
  const Months: seq<string> :=
    ["jan.", "jan", "january", "feb.", "feb", "february", "mar.", "mar", "march",
     "apr.", "apr", "april", "may", "jun.", "jun", "june", "jul.", "jul", "july",
     "aug.", "aug", "august", "sep.", "sep", "september", "oct.", "oct", "october",
     "nov.", "nov", "november", "dec.", "dec", "december"]

  const Ordinals: seq<string> := ["st", "nd", "rd", "th"]

  /** `[0-3]?\d`: two characters when a digit 0-3 is followed by a digit,
      else one digit, else 0 (no match). Wherever the day is used, what must
      follow it is not a digit, so keeping one digit when two were possible
      never lets the rest match. The lookbehinds before the day always hold:
      the day follows `born ` or whitespace, never a colon. */
  function DayLen(text: string, i: nat): (n: nat)
    ensures n <= 2 && (n > 0 ==> i + n <= |text|)
    ensures n > 0 <==> i < |text| && IsDigit(text[i])
    ensures n > 0 ==> IsDigit(text[i + n - 1])
    ensures n == 2 <==> i + 1 < |text| && '0' <= text[i] <= '3' && IsDigit(text[i + 1])
  {
    if i + 1 < |text| && '0' <= text[i] <= '3' && IsDigit(text[i + 1]) then 2
    else if i < |text| && IsDigit(text[i]) then 1
    else 0
  }

  /** `(?:st|nd|rd|th)?`, taken when present (what must follow is whitespace
      or nothing). */
  function OrdinalLen(text: string, i: nat): (n: nat)
    ensures n == 0 || (n == 2 && i + 2 <= |text|)
  {
    if FirstLitAt(text, i, Ordinals, true).Some? then 2 else 0
  }

  /** `(?:\,)?\s*(?:\d{4})?`: the end of the first alternative, which always
      matches, so its greedy first choice is the one kept. */
  function DateTailLen(text: string, t: nat): (n: nat)
    ensures t <= |text| ==> t + n <= |text|
  {
    var t1 := t + Opt(text, t, ',');
    var t2 := t1 + SpaceRun(text, t1);
    t2 + (if DigitRun(text, t2) >= 4 then 4 else 0) - t
  }

  /** `DAY\s+(?:of\s+)?MONTH` at `q`. Nothing after the month is required,
      so the first month alternative that occurs is kept: `jan` is taken
      before `january` is tried. */
  function DayMonthAt(text: string, q: nat, months: seq<string>): (r: Option<nat>)
    ensures r.Some? ==> 2 <= r.value && q + r.value <= |text| && IsDigit(text[q])
  {
    var d := DayLen(text, q);
    if d == 0 then None
    else
      var i := q + d + OrdinalLen(text, q + d);
      var s := SpaceRun(text, i);
      if s == 0 then None
      else
        var j := i + s;
        var m := if LitAt(text, j, "of", true) && SpaceRun(text, j + 2) > 0 then j + 2 + SpaceRun(text, j + 2) else j;
        match FirstLitAt(text, m, months, true)
        case Some(n) => Some(m + n - q)
        case None => None
  }

  /** `\s+DAY` right after a month, at `i`. */
  function DayAfterMonth(text: string, i: nat): (r: Option<nat>)
    ensures r.Some? ==> 2 <= r.value && i + r.value <= |text|
  {
    var s := SpaceRun(text, i);
    if s == 0 then None
    else
      var d := DayLen(text, i + s);
      if d == 0 then None else Some(s + d + OrdinalLen(text, i + s + d))
  }

  /** `MONTH\s+DAY` at `q`: the first month alternative, in `months` order,
      that occurs and is followed by whitespace and a day. */
  function MonthDayAt(text: string, q: nat, months: seq<string>): (r: Option<nat>)
    ensures r.Some? ==> 2 <= r.value && q + r.value <= |text|
    ensures r.Some? ==> exists i :: 0 <= i < |months| && LitAt(text, q, months[i], true)
    decreases |months|
  {
    if months == [] then None
    else
      var rest := MonthDayAt(text, q, months[1..]);
      assert rest.Some? ==> exists i :: 1 <= i < |months| && LitAt(text, q, months[i], true) by {
        if rest.Some? {
          var i :| 0 <= i < |months[1..]| && LitAt(text, q, months[1..][i], true);
          assert months[1..][i] == months[i + 1];
        }
      }
      if LitAt(text, q, months[0], true) then
        match DayAfterMonth(text, q + |months[0]|)
        case Some(n) => Some(|months[0]| + n)
        case None => rest
      else rest
  }

  /** `[0-3]?\d[-\./][0-3]?\d[-\./]\d{2,4}` at `p`. */
  function NumericDateAt(text: string, p: nat): (r: Option<nat>)
    ensures r.Some? ==> 6 <= r.value && p + r.value <= |text| && IsDigit(text[p])
  {
    var d1 := DayLen(text, p);
    if d1 > 0 && p + d1 < |text| && text[p + d1] in "-./" then
      var q := p + d1 + 1;
      var d2 := DayLen(text, q);
      if d2 > 0 && q + d2 < |text| && text[q + d2] in "-./" then
        var y := DigitRun(text, q + d2 + 1);
        if y >= 2 then Some(d1 + d2 + 2 + Min(y, 4)) else None
      else None
    else None
  }

  /** BIRTH_DEATH_DATE: `born ` and a day-month or month-day date, then the
      optional comma, spaces and year; else the numeric date. A date in
      words is only found after `born `. */
  function MatchBirthDate(text: string, p: nat): (r: Option<nat>)
    ensures Fits(text, p, r)
    ensures r.Some? ==> LitAt(text, p, "born ", true) || IsDigit(text[p])
  {
    var born :=
      if LitAt(text, p, "born ", true) then
        match DayMonthAt(text, p + 5, Months)
        case Some(n) => Some(5 + n)
        case None =>
          match MonthDayAt(text, p + 5, Months)
          case Some(n) => Some(5 + n)
          case None => None
      else None;
    match born
    case Some(n) => Some(n + DateTailLen(text, p + n))
    case None => NumericDateAt(text, p)
  }

  // --------------------------------------------------------------- PHONE
  // One capturing group around the whole pattern: unless a digit or `-`
  // precedes, an optional country code (`+`, one to three digits, optional
  // separator), an optional area code (three digits, optionally in
  // parentheses, optional separator), three digits, an optional separator
  // and four digits. A separator is `-`, `.`, `*` or whitespace.

  predicate IsPhoneSep(c: char) {
    c == '-' || c == '.' || c == '*' || IsSpace(c)
  }

  /** `[-.\s*]?`. A separator present is always taken: what must follow it is
      a digit or `(`. */
  function OptSep(text: string, i: nat): (n: nat)
    ensures n <= 1 && (n == 1 <==> i < |text| && IsPhoneSep(text[i]))
  {
    if i < |text| && IsPhoneSep(text[i]) then 1 else 0
  }

  /** `\d{3}[-.\s*]?\d{4}` at `m`. */
  function PhoneMainAt(text: string, m: nat): (r: Option<nat>)
    ensures r.Some? ==> 7 <= r.value <= 8 && m + r.value <= |text|
    ensures r.Some? ==> forall i :: m + r.value - 4 <= i < m + r.value ==> IsDigit(text[i])
  {
    if DigitRun(text, m) >= 3 then
      var s := m + 3 + OptSep(text, m + 3);
      if DigitRun(text, s) >= 4 then Some(s + 4 - m) else None
    else None
  }

  /** `\(?\d{3}\)?[-.\s*]?` at `a`: parentheses and separator taken when present. */
  function PhoneAreaAt(text: string, a: nat): (r: Option<nat>)
    ensures r.Some? ==> 3 <= r.value && a + r.value <= |text|
  {
    var i := a + Opt(text, a, '(');
    if DigitRun(text, i) >= 3 then
      var j := i + 3 + Opt(text, i + 3, ')');
      Some(j + OptSep(text, j) - a)
    else None
  }

  /** `(?:AREA)?MAIN` at `a`: with the area code first, then without it. */
  function PhoneAfterCountry(text: string, a: nat): (r: Option<nat>)
    ensures r.Some? ==> 7 <= r.value && a + r.value <= |text|
    ensures r.Some? ==> forall i :: a + r.value - 4 <= i < a + r.value ==> IsDigit(text[i])
  {
    match PhoneAreaAt(text, a)
    case Some(n) =>
      (match PhoneMainAt(text, a + n)
       case Some(m) => Some(n + m)
       case None => PhoneMainAt(text, a))
    case None => PhoneMainAt(text, a)
  }

  /** `[-.\s*]?(?:AREA)?MAIN` after the country code digits, which end at `e`. */
  function AfterCountryCode(text: string, e: nat): (r: Option<nat>)
    ensures r.Some? ==> 7 <= r.value && e + r.value <= |text|
    ensures r.Some? ==> forall i :: e + r.value - 4 <= i < e + r.value ==> IsDigit(text[i])
  {
    var s := OptSep(text, e);
    match PhoneAfterCountry(text, e + s)
    case Some(n) => Some(s + n)
    case None => None
  }

  /** Backtracking through `\d{1,3}` of the country code: the largest end
      `e`, `c < e <= top`, after which the rest of the phone pattern matches. */
  function CountryBacktrack(text: string, c: nat, top: nat): (r: Option<nat>)
    ensures r.Some? ==> c < r.value <= top && AfterCountryCode(text, r.value).Some?
    ensures r.Some? ==> forall e :: r.value < e <= top ==> AfterCountryCode(text, e).None?
    ensures r.None? ==> forall e :: c < e <= top ==> AfterCountryCode(text, e).None?
  {
    var ok := (e: nat) => AfterCountryCode(text, e).Some?;
    assert forall e: nat :: ok(e) == AfterCountryCode(text, e).Some?;
    LastWhere(c, top, ok)
  }

  /** PHONE: unless a digit or `-` precedes `p`, the country code group is
      tried with three, two, then one digit, then left out; for each choice
      the area code group is tried present, then absent. The capturing group
      spans the whole pattern, so `findall` reports the whole match. */
  function MatchPhone(text: string, p: nat): (r: Option<nat>)
    ensures Fits(text, p, r)
    ensures r.Some? ==> 7 <= r.value && (p == 0 || !(IsDigit(text[p - 1]) || text[p - 1] == '-'))
    ensures r.Some? ==> forall i :: p + r.value - 4 <= i < p + r.value ==> IsDigit(text[i])
  {
    if 0 < p <= |text| && (IsDigit(text[p - 1]) || text[p - 1] == '-') then None
    else
      var c := p + Opt(text, p, '+');
      match CountryBacktrack(text, c, c + Min(3, DigitRun(text, c)))
      case Some(e) => Some(e - p + AfterCountryCode(text, e).value)
      case None => PhoneAfterCountry(text, p)
  }
}
