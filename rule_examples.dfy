/**
 * What the patterns of the rulebase (backend/app.py:50-61) match on sample
 * inputs, worked out from the matchers: the whole sample where the pattern
 * is written to find it, and the alternative leftmost-first alternation
 * picks where two of them occur.
 *
 * Each sample is a parameter pinned by `requires t == "..."`; the
 * backtracking over the long list of street types is proved for any list
 * whose first match is the one at hand, then used at the list itself.
 */
module RuleExamples {

  import opened Wrappers
  import opened Text
  import opened Matchers

  // ---------------------------------------------------------------- AGE

  lemma YearsOldRun(t: string)
    requires t == "35 years old"
    ensures NonSpaceRun(t, 0) == 2
  {
    assert IsSpace(t[2]);
    assert NonSpaceRun(t, 2) == 0;
  }

  lemma YearsOldSuffix(t: string)
    requires t == "35 years old"
    ensures LitAt(t, 2, " years old", false)
  {
    assert t[2..12] == " years old";
    LitAtSlice(t, 2, " years old");
  }

  /** When the suffix follows the whole run of non-space characters, no
      backtracking is needed: `\S+` keeps the whole run. */
  lemma NonSpaceThenWholeRun(text: string, p: nat, suffix: string)
    requires 0 < NonSpaceRun(text, p) && LitAt(text, p + NonSpaceRun(text, p), suffix, false)
    ensures NonSpaceThen(text, p, suffix) == Some(NonSpaceRun(text, p) + |suffix|)
  {
    assert NonSpaceBacktrack(text, p, p + NonSpaceRun(text, p), suffix) == Some(p + NonSpaceRun(text, p));
  }

  /** The first suffix that matches decides the AGE match. */
  lemma AgeFirstSuffix(text: string, p: nat, n: nat)
    requires NonSpaceThen(text, p, AgeSuffixes[0]) == Some(n)
    ensures MatchAge(text, p) == Some(n)
  {
  }

  /** `35 years old` is one AGE match: the digits, then the first suffix. */
  lemma AgeYearsOld(t: string)
    requires t == "35 years old"
    ensures MatchAge(t, 0) == Some(12)
  {
    YearsOldRun(t);
    YearsOldSuffix(t);
    NonSpaceThenWholeRun(t, 0, AgeSuffixes[0]);
    AgeFirstSuffix(t, 0, 12);
  }

  // ----------------------------------------------------- STREET_ADDRESS

  lemma StAt(t: string)
    requires t == "12 Elm st"
    ensures !LitAt(t, 7, "street", true) && LitAt(t, 7, "st", true)
  {
    LitAtFolded(t, 7, "st");
  }

  lemma StreetTypesAt(t: string)
    requires t == "12 Elm st"
    ensures FirstLitAt(t, 7, StreetTypes, true) == Some(2)
  {
    StAt(t);
    assert StreetTypes[0] == "street" && StreetTypes[1] == "st";
    FirstLitAtIsFirst(t, 7, StreetTypes, true, 1);
  }

  /** The backtracking in `12 Elm st`, for a street-type list whose first
      match after the last space is two characters long: the words run gives
      back `st` and stops at the space before it. */
  lemma StreetBacktracking(t: string, types: seq<string>)
    requires t == "12 Elm st"
    requires FirstLitAt(t, 7, types, true) == Some(2)
    ensures HouseNumberBacktrack(t, 0, 2, types) == Some(2)
    ensures AfterHouseNumber(t, 2, types) == Some(7)
  {
    assert WordOrSpaceRun(t, 9) == 0;
    assert WordOrSpaceRun(t, 8) == 1;
    assert WordOrSpaceRun(t, 7) == 2;
    assert WordOrSpaceRun(t, 6) == 3;
    assert WordOrSpaceRun(t, 5) == 4;
    assert WordOrSpaceRun(t, 4) == 5;
    assert WordOrSpaceRun(t, 3) == 6;
    assert StreetTypeAt(t, 9, types) == None;
    assert StreetTypeAt(t, 8, types) == None;
    assert StreetTypeAt(t, 7, types) == None;
    assert StreetTypeAt(t, 6, types) == Some(3);
    assert StreetWordsBacktrack(t, 3, 6, types) == Some(6);
    assert StreetWordsBacktrack(t, 3, 7, types) == Some(6);
    assert StreetWordsBacktrack(t, 3, 8, types) == Some(6);
    assert StreetWordsBacktrack(t, 3, 9, types) == Some(6);
    assert StreetWordsAt(t, 3, types) == Some(6);
  }

  /** `12 Elm st` is one STREET_ADDRESS match, although the greedy words
      run first swallows the street type. */
  lemma StreetWithType(t: string)
    requires t == "12 Elm st"
    ensures MatchStreet(t, 0) == Some(9)
  {
    StreetTypesAt(t);
    StreetBacktracking(t, StreetTypes);
    assert DigitRun(t, 2) == 0;
    assert DigitRun(t, 1) == 1;
    assert DigitRun(t, 0) == 2;
  }

  /** `P.O. Box 12` is one STREET_ADDRESS match, dots and all. */
  lemma PoBoxWithDots(t: string)
    requires t == "P.O. Box 12"
    ensures MatchPoBox(t, 0) == Some(11)
  {
    assert DigitRun(t, 11) == 0;
    assert LitAt(t, 4, " box ", true) by { LitAtFolded(t, 4, " box "); }
  }

  // ------------------------------------------------------------ DISEASE

  /** In `Alzheimer's`, the first four disease terms do not occur at the
      start and the fifth, `alzheimer's`, does. */
  lemma AlzheimersAt(t: string)
    requires t == "Alzheimer's"
    ensures !LitAt(t, 0, Diseases[0], true) && !LitAt(t, 0, Diseases[1], true)
    ensures !LitAt(t, 0, Diseases[2], true) && !LitAt(t, 0, Diseases[3], true)
    ensures LitAt(t, 0, Diseases[4], true)
  {
    LitAtFolded(t, 0, Diseases[4]);
  }

  /** Leftmost-first alternation: in `Alzheimer's` the alternative
      `Alzheimer's`, written before `Alzheimer`, is the one taken. */
  lemma DiseaseTakesFirstAlternative(t: string)
    requires t == "Alzheimer's"
    ensures MatchDisease(t, 0) == Some(11)
  {
    AlzheimersAt(t);
    assert forall j :: 0 <= j < 4 ==> !LitAt(t, 0, Diseases[j], true) by {
      forall j | 0 <= j < 4 ensures !LitAt(t, 0, Diseases[j], true) {
        if j == 0 {} else if j == 1 {} else if j == 2 {} else {}
      }
    }
    FirstLitAtIsFirst(t, 0, Diseases, true, 4);
  }

  // --------------------------------------------------------------- NORP

  lemma MiddleClassAt(t: string)
    requires t == "Middle Class"
    ensures !LitAt(t, 0, Classes[0], true) && LitAt(t, 0, Classes[1], true)
  {
    LitAtFolded(t, 0, Classes[1]);
  }

  /** Capitalised as `Middle Class`, the class name is still a NORP match. */
  lemma NorpIgnoresCase(t: string)
    requires t == "Middle Class"
    ensures MatchNorp(t, 0) == Some(12)
  {
    MiddleClassAt(t);
    FirstLitAtIsFirst(t, 0, Classes, true, 1);
  }

  // ---------------------------------------------------- BIRTH_DEATH_DATE

  /** `01/02/1990` is one numeric BIRTH_DEATH_DATE match. */
  lemma NumericDate(t: string)
    requires t == "01/02/1990"
    ensures MatchBirthDate(t, 0) == Some(10)
  {
    assert DigitRun(t, 10) == 0;
    assert DigitRun(t, 6) == 4;
  }
}
