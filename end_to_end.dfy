/**
 * The rulebase on a whole sentence and on a flattened CSV upload: what
 * `pattern.findall` gives for each rule of backend/app.py:50-61, and what
 * `find_pii` (backend/app.py:64-71) returns, worked out from the matchers
 * and the leftmost, non-overlapping scan.
 *
 * Each sample is a parameter pinned by `requires`. The positions where a
 * rule cannot match are ruled out by what every match of the rule needs:
 * a `y` right after the first character of the AGE suffix, after a run of
 * non-whitespace; a digit first for STREET_ADDRESS, and a street type
 * after a space for its words to end. The other six rules need a letter,
 * or two letters side by side, that the sentence lacks (ignoring case),
 * two digits three places apart, or a date separator just after a digit.
 */
module EndToEnd {

  import opened Wrappers
  import opened Text
  import opened Matchers
  import opened Scanner
  import opened Extraction
  import opened RuleExamples

  // ---------------------------------------------------------------- AGE

  /** Every AGE suffix is at least nine characters long, with `y` second. */
  lemma AgeSuffixesYear()
    ensures forall i :: 0 <= i < |AgeSuffixes| ==> |AgeSuffixes[i]| >= 9 && AgeSuffixes[i][1] == 'y'
  {
    assert AgeSuffixes[0] == " years old" && AgeSuffixes[1] == "-years-old";
    assert AgeSuffixes[2] == " year old" && AgeSuffixes[3] == "-year-old";
  }

  /** `\S+` then a suffix, matching at `q`: the suffix starts at some point
      past `q` reached over non-whitespace only, and fits in the text. */
  lemma NonSpaceThenAt(text: string, q: nat, suffix: string)
    requires |suffix| > 1 && NonSpaceThen(text, q, suffix).Some?
    ensures exists j :: q + 1 < j && j + |suffix| - 1 <= |text| && text[j] == suffix[1]
                        && forall k :: q <= k < j - 1 ==> !IsSpace(text[k])
  {
    var e := q + NonSpaceThen(text, q, suffix).value - |suffix|;
    LitAtChar(text, e, suffix, false, 1);
  }

  /** For suffixes of at least nine characters with `y` second, a match
      of the first alternative that matches at `q` needs such a `y`. */
  lemma FirstNeedsYear(text: string, q: nat, suffixes: seq<string>)
    requires forall i :: 0 <= i < |suffixes| ==> |suffixes[i]| >= 9 && suffixes[i][1] == 'y'
    ensures FirstNonSpaceThen(text, q, suffixes).Some? ==>
      exists j :: q + 1 < j && j + 8 <= |text| && text[j] == 'y' && forall k :: q <= k < j - 1 ==> !IsSpace(text[k])
  {
    if FirstNonSpaceThen(text, q, suffixes).Some? {
      var i :| 0 <= i < |suffixes| && NonSpaceThen(text, q, suffixes[i]) == FirstNonSpaceThen(text, q, suffixes);
      NonSpaceThenAt(text, q, suffixes[i]);
    }
  }

  /** An AGE match at `q` needs a `y`, with at least seven characters after
      it, that only non-whitespace separates from `q` but for the one
      character before it. */
  lemma AgeNeedsYear(text: string, q: nat)
    ensures MatchAge(text, q).Some? ==>
      exists j :: q + 1 < j && j + 8 <= |text| && text[j] == 'y' && forall k :: q <= k < j - 1 ==> !IsSpace(text[k])
  {
    AgeSuffixesYear();
    FirstNeedsYear(text, q, AgeSuffixes);
  }

  /** With no `y` past `lo` that could start `year`, AGE matches nowhere
      from `lo` on. */
  lemma AgeNoMatchFrom(text: string, lo: nat)
    requires forall j :: lo < j && j + 8 <= |text| ==> text[j] != 'y'
    ensures forall q :: lo <= q < |text| ==> MatchAge(text, q).None?
  {
    forall q | lo <= q < |text|
      ensures MatchAge(text, q).None?
    {
      AgeNeedsYear(text, q);
    }
  }

  /** Up to a whitespace character at `sp`, with no `y` up to the one after
      it, AGE matches nowhere: a run of non-whitespace from there stops at
      `sp`. */
  lemma AgeNoMatchBefore(text: string, sp: nat)
    requires sp < |text| && IsSpace(text[sp])
    requires forall j :: 0 <= j < sp + 2 && j < |text| ==> text[j] != 'y'
    ensures forall q: nat :: q <= sp ==> MatchAge(text, q).None?
  {
    forall q: nat | q <= sp
      ensures MatchAge(text, q).None?
    {
      AgeNeedsYear(text, q);
    }
  }

  lemma {:induction false} NonSpaceRunIs(text: string, p: nat, n: nat)
    requires p + n < |text| && IsSpace(text[p + n])
    requires forall k :: p <= k < p + n ==> !IsSpace(text[k])
    ensures NonSpaceRun(text, p) == n
    decreases n
  {
    if n > 0 {
      NonSpaceRunIs(text, p + 1, n - 1);
    }
  }

  lemma YearsOldSuffixAt(text: string, q: nat)
    requires q + 10 <= |text| && text[q..q + 10] == " years old"
    ensures IsSpace(text[q]) && LitAt(text, q, AgeSuffixes[0], false)
  {
    assert text[q] == text[q..q + 10][0];
    assert AgeSuffixes[0] == " years old";
    LitAtSlice(text, q, AgeSuffixes[0]);
  }

  /** `n` non-whitespace characters followed by ` years old` make one AGE
      match: the first suffix, after the whole run. */
  lemma AgeYearsOldAt(text: string, p: nat, n: nat)
    requires 1 <= n && p + n + 10 <= |text|
    requires forall k :: p <= k < p + n ==> !IsSpace(text[k])
    requires text[p + n..p + n + 10] == " years old"
    ensures MatchAge(text, p) == Some(n + 10)
  {
    YearsOldSuffixAt(text, p + n);
    NonSpaceRunIs(text, p, n);
    NonSpaceThenWholeRun(text, p, AgeSuffixes[0]);
    AgeFirstSuffix(text, p, n + 10);
  }

  // ------------------------------------------------------------ sentence

  /** `John is 34 years old and lives at 123 Main St.`, in the pieces the
      findings are cut from. */
  predicate IsSentence(s: string) {
    s == "John is " + "34 years old" + " and lives at " + "123 Main St" + "."
  }

  lemma SentencePieces(s: string)
    requires IsSentence(s)
    ensures |s| == 46
    ensures s[8..20] == "34 years old" && s[34..45] == "123 Main St"
  {
    var a, b, c, d, e := "John is ", "34 years old", " and lives at ", "123 Main St", ".";
    assert s == a + (b + (c + (d + e)));
    assert s[8..20] == b;
    assert s[34..45] == d;
  }

  lemma SentenceAgeFacts(s: string)
    requires IsSentence(s)
    ensures |s| == 46 && IsSpace(s[7])
    ensures forall j :: 0 <= j < 9 ==> s[j] != 'y'
    ensures forall j :: 20 < j < 46 ==> s[j] != 'y'
    ensures !IsSpace(s[8]) && !IsSpace(s[9]) && s[10..20] == " years old"
  {
    SentencePieces(s);
    assert s[10..20] == s[8..20][2..];
  }

  /** The AGE scan of any text laid out like the sentence: no `y` before
      the age, a space before it, the age `n n years old` at 8, and no `y`
      after it. */
  lemma AgeInSentenceLayout(text: string)
    requires |text| == 46 && IsSpace(text[7])
    requires forall j :: 0 <= j < 9 ==> text[j] != 'y'
    requires forall j :: 20 < j < 46 ==> text[j] != 'y'
    requires !IsSpace(text[8]) && !IsSpace(text[9]) && text[10..20] == " years old"
    ensures FindAll(MatchAge, text) == [text[8..20]]
  {
    AgeNoMatchBefore(text, 7);
    AgeYearsOldAt(text, 8, 2);
    AgeNoMatchFrom(text, 20);
    FindAllSingle(MatchAge, text, 8, 20);
  }

  /** AGE finds exactly `34 years old` in the sentence. */
  lemma SentenceAge(s: string)
    requires IsSentence(s)
    ensures FindAll(MatchAge, s) == ["34 years old"]
  {
    SentenceAgeFacts(s);
    AgeInSentenceLayout(s);
    SentencePieces(s);
  }

  // ----------------------------------------------------- STREET_ADDRESS

  /** Where a literal occurs, its `i`-th character stands at its place. */
  lemma LitAtCharIf(text: string, p: nat, lit: string, fold: bool, i: nat)
    requires i < |lit|
    ensures LitAt(text, p, lit, fold) ==>
      p + i < |text| && (if fold then Lower(text[p + i]) else text[p + i]) == lit[i]
  {
    if LitAt(text, p, lit, fold) {
      LitAtChar(text, p, lit, fold, i);
    }
  }

  /** No type in `types` starts with `o` or `l`, and those starting with
      `a` continue with `v`. */
  predicate InitialsAvoidOLA(types: seq<string>) {
    forall i :: 0 <= i < |types| ==>
      && |types[i]| >= 2 && types[i][0] != 'o' && types[i][0] != 'l'
      && (types[i][0] == 'a' ==> types[i][1] == 'v')
  }

  lemma StreetTypesInitials()
    ensures InitialsAvoidOLA(StreetTypes)
  {
  }

  /** No type of such a list follows a position whose next characters are
      `o`, `l`, or `a` then anything but `v`. */
  lemma NoStreetTypeAfter(text: string, e: nat, types: seq<string>)
    requires InitialsAvoidOLA(types) && e + 2 < |text|
    requires Lower(text[e + 1]) == 'o' || Lower(text[e + 1]) == 'l' ||
             (Lower(text[e + 1]) == 'a' && Lower(text[e + 2]) != 'v')
    ensures StreetTypeAt(text, e, types).None?
  {
    forall i | 0 <= i < |types|
      ensures !LitAt(text, e + 1, types[i], true)
    {
      LitAtCharIf(text, e + 1, types[i], true, 0);
      LitAtCharIf(text, e + 1, types[i], true, 1);
    }
  }

  /** ` st` not followed by `r` (any case) is the street type `st`, in a
      list that starts with `street` and `st`. */
  lemma StreetStAt(text: string, e: nat, types: seq<string>)
    requires e + 3 < |text| && text[e] == ' '
    requires Lower(text[e + 1]) == 's' && Lower(text[e + 2]) == 't' && Lower(text[e + 3]) != 'r'
    requires |types| >= 2 && types[0] == "street" && types[1] == "st"
    ensures FirstLitAt(text, e + 1, types, true).Some? && FirstLitAt(text, e + 1, types, true).value == 2
  {
    LitAtCharIf(text, e + 1, "street", true, 2);
    LitAtFolded(text, e + 1, "st");
    FirstLitAtIsFirst(text, e + 1, types, true, 1);
  }

  /** In the sentence's layout the words after `34 ` reach no street type:
      the spaces among them are followed by `o`, `a` then `n`, `l`, and `a`
      then `t`. */
  lemma StreetWordsMissInLayout(text: string, types: seq<string>)
    requires InitialsAvoidOLA(types) && |text| == 46
    requires forall e :: 11 < e <= 31 && e != 16 && e != 20 && e != 24 && e != 30 ==> text[e] != ' '
    requires text[17] == 'o' && text[21] == 'a' && text[22] == 'n' && text[25] == 'l'
    requires text[31] == 'a' && text[32] == 't'
    ensures StreetWordsAt(text, 11, types).None?
  {
    forall e | 11 < e <= 31
      ensures StreetTypeAt(text, e, types).None?
    {
      if e == 16 || e == 20 || e == 24 || e == 30 {
        NoStreetTypeAfter(text, e, types);
      }
    }
  }

  /** In the sentence's layout the digits `34` start no STREET_ADDRESS
      match: after the house number the words reach no street type. */
  lemma HouseNumberMissInLayout(text: string)
    requires |text| == 46 && text[9] != ' ' && text[10] == ' ' && !IsDigit(text[10])
    requires StreetWordsAt(text, 11, StreetTypes).None?
    ensures MatchStreet(text, 8).None? && MatchStreet(text, 9).None?
  {
    assert AfterHouseNumber(text, 9, StreetTypes).None?;
    assert AfterHouseNumber(text, 10, StreetTypes).None?;
  }

  /** In the sentence's layout, for a type list whose first match after the
      space at 42 is two long, the words run to the `.` and give back the
      type: the house number `123` keeps all its digits. */
  lemma StreetMatchInLayout(text: string, types: seq<string>)
    requires |text| == 46
    requires forall k :: 34 <= k < 37 ==> IsDigit(text[k])
    requires text[37] == ' '
    requires forall k :: 38 <= k < 45 ==> IsWord(text[k]) || IsSpace(text[k])
    requires text[42] == ' ' && text[43] != ' ' && text[44] != ' ' && !IsWord(text[45]) && !IsSpace(text[45])
    requires FirstLitAt(text, 43, types, true).Some? && FirstLitAt(text, 43, types, true).value == 2
    ensures HouseNumberBacktrack(text, 34, 37, types) == Some(37)
    ensures AfterHouseNumber(text, 37, types) == Some(8)
  {
    assert StreetTypeAt(text, 42, types).Some? && StreetTypeAt(text, 42, types).value == 3;
    assert StreetWordsBacktrack(text, 38, 45, types).Some? && StreetWordsBacktrack(text, 38, 45, types).value == 42;
    assert StreetWordsAt(text, 38, types).Some? && StreetWordsAt(text, 38, types).value == 7;
  }

  /** Before `123`, only `34` are digits, and they start no match. */
  lemma StreetMissBefore(text: string)
    requires |text| == 46
    requires forall q :: 0 <= q < 34 && q != 8 && q != 9 ==> !IsDigit(text[q])
    requires MatchStreet(text, 8).None? && MatchStreet(text, 9).None?
    ensures forall q :: 0 <= q < 34 ==> MatchStreet(text, q).None?
  {
  }

  /** Three digits then a space are a run of three digits. */
  lemma DigitRunThree(text: string, p: nat)
    requires p + 3 < |text| && text[p + 3] == ' '
    requires forall k :: p <= k < p + 3 ==> IsDigit(text[k])
    ensures DigitRun(text, p) == 3
  {
    assert DigitRun(text, p + 3) == 0;
  }

  /** A STREET_ADDRESS match from its parts: the house number the
      backtracking keeps, then the rest of the pattern after it. */
  lemma StreetMatchFromParts(text: string, p: nat, e: nat, n: nat, types: seq<string>)
    requires DigitRun(text, p) == 3
    requires HouseNumberBacktrack(text, p, p + 3, types) == Some(e)
    requires AfterHouseNumber(text, e, types) == Some(n)
    ensures StreetMatchWith(text, p, types).Some? && StreetMatchWith(text, p, types).value == e - p + n
  {
  }

  /** In the sentence's layout, for a type list that starts with `street`
      and `st`, `123 Main St` is one match of eleven characters. */
  lemma StreetAtHouseNumberWith(text: string, types: seq<string>)
    requires |text| == 46
    requires forall k :: 34 <= k < 37 ==> IsDigit(text[k])
    requires text[37] == ' '
    requires forall k :: 38 <= k < 45 ==> IsWord(text[k]) || IsSpace(text[k])
    requires text[42] == ' ' && text[43] == 'S' && text[44] == 't' && text[45] == '.'
    requires |types| >= 2 && types[0] == "street" && types[1] == "st"
    ensures StreetMatchWith(text, 34, types).Some? && StreetMatchWith(text, 34, types).value == 11
  {
    StreetStAt(text, 42, types);
    DigitRunThree(text, 34);
    StreetMatchInLayout(text, types);
    StreetMatchFromParts(text, 34, 37, 8, types);
  }

  /** `123 Main St` at 34, with the list of street types itself. */
  lemma StreetAtHouseNumber(text: string)
    requires |text| == 46
    requires forall k :: 34 <= k < 37 ==> IsDigit(text[k])
    requires text[37] == ' '
    requires forall k :: 38 <= k < 45 ==> IsWord(text[k]) || IsSpace(text[k])
    requires text[42] == ' ' && text[43] == 'S' && text[44] == 't' && text[45] == '.'
    ensures MatchStreet(text, 34).Some? && MatchStreet(text, 34).value == 11
  {
    assert StreetTypes[0] == "street" && StreetTypes[1] == "st";
    StreetAtHouseNumberWith(text, StreetTypes);
  }

  /** Nothing before `123` starts a STREET_ADDRESS match in the sentence's
      layout. */
  lemma StreetMissBeforeInLayout(text: string)
    requires |text| == 46
    requires forall q :: 0 <= q < 34 && q != 8 && q != 9 ==> !IsDigit(text[q])
    requires text[9] != ' ' && text[10] == ' '
    requires forall e :: 11 < e <= 31 && e != 16 && e != 20 && e != 24 && e != 30 ==> text[e] != ' '
    requires text[17] == 'o' && text[21] == 'a' && text[22] == 'n' && text[25] == 'l'
    requires text[31] == 'a' && text[32] == 't'
    ensures forall q :: 0 <= q < 34 ==> MatchStreet(text, q).None?
  {
    StreetTypesInitials();
    StreetWordsMissInLayout(text, StreetTypes);
    HouseNumberMissInLayout(text);
    StreetMissBefore(text);
  }

  lemma StreetIsMatcher()
    ensures IsMatcher(MatchStreet)
  {
  }

  /** The STREET_ADDRESS scan passes over the positions before 34 where
      nothing matches. */
  lemma {:induction false} StreetScanSkip(text: string, p: nat)
    requires |text| == 46 && p <= 34
    requires forall q :: p <= q < 34 ==> MatchStreet(text, q).None?
    ensures ScanFrom(MatchStreet, text, p) == ScanFrom(MatchStreet, text, 34)
    decreases 34 - p
  {
    StreetIsMatcher();
    if p < 34 {
      StreetScanSkip(text, p + 1);
    }
  }

  /** An eleven-character match at 34 is reported, and the scan resumes
      after it. */
  lemma StreetScanAt(text: string)
    requires |text| == 46
    requires MatchStreet(text, 34).Some? && MatchStreet(text, 34).value == 11
    ensures ScanFrom(MatchStreet, text, 34) == [Span(34, 45)] + ScanFrom(MatchStreet, text, 45)
  {
    StreetIsMatcher();
  }

  /** A last character that is not a digit starts no match. */
  lemma StreetScanLast(text: string)
    requires |text| == 46 && !IsDigit(text[45])
    ensures ScanFrom(MatchStreet, text, 45) == []
  {
    StreetIsMatcher();
    assert MatchStreet(text, 45).None?;
  }

  /** The three steps of the scan make one span, `34..45`. */
  lemma StreetScanSteps(text: string)
    requires |text| == 46
    requires ScanFrom(MatchStreet, text, 0) == ScanFrom(MatchStreet, text, 34)
    requires ScanFrom(MatchStreet, text, 34) == [Span(34, 45)] + ScanFrom(MatchStreet, text, 45)
    requires ScanFrom(MatchStreet, text, 45) == []
    ensures FindAll(MatchStreet, text) == [text[34..45]]
  {
    StreetIsMatcher();
    assert Scan(MatchStreet, text) == [Span(34, 45)];
  }

  /** A STREET_ADDRESS scan that meets one match only: none before 34, the
      match `34..45`, and a non-digit after it. */
  lemma StreetScanSingle(text: string)
    requires |text| == 46 && !IsDigit(text[45])
    requires forall q :: 0 <= q < 34 ==> MatchStreet(text, q).None?
    requires MatchStreet(text, 34).Some? && MatchStreet(text, 34).value == 11
    ensures FindAll(MatchStreet, text) == [text[34..45]]
  {
    StreetScanSkip(text, 0);
    StreetScanAt(text);
    StreetScanLast(text);
    StreetScanSteps(text);
  }

  /** The STREET_ADDRESS scan of any text laid out like the sentence. */
  lemma StreetInSentenceLayout(text: string)
    requires |text| == 46
    requires forall q :: 0 <= q < 34 && q != 8 && q != 9 ==> !IsDigit(text[q])
    requires text[9] != ' ' && text[10] == ' '
    requires forall e :: 11 < e <= 31 && e != 16 && e != 20 && e != 24 && e != 30 ==> text[e] != ' '
    requires text[17] == 'o' && text[21] == 'a' && text[22] == 'n' && text[25] == 'l'
    requires text[31] == 'a' && text[32] == 't'
    requires forall k :: 34 <= k < 37 ==> IsDigit(text[k])
    requires text[37] == ' '
    requires forall k :: 38 <= k < 45 ==> IsWord(text[k]) || IsSpace(text[k])
    requires text[42] == ' ' && text[43] == 'S' && text[44] == 't' && text[45] == '.'
    ensures FindAll(MatchStreet, text) == [text[34..45]]
  {
    StreetMissBeforeInLayout(text);
    StreetAtHouseNumber(text);
    StreetScanSingle(text);
  }

  lemma SentenceStreetFacts(s: string)
    requires IsSentence(s)
    ensures |s| == 46
    ensures forall q :: 0 <= q < 34 && q != 8 && q != 9 ==> !IsDigit(s[q])
    ensures s[9] != ' ' && s[10] == ' '
    ensures forall e :: 11 < e <= 31 && e != 16 && e != 20 && e != 24 && e != 30 ==> s[e] != ' '
    ensures s[17] == 'o' && s[21] == 'a' && s[22] == 'n' && s[25] == 'l'
    ensures s[31] == 'a' && s[32] == 't'
    ensures forall k :: 34 <= k < 37 ==> IsDigit(s[k])
    ensures s[37] == ' '
    ensures forall k :: 38 <= k < 45 ==> IsWord(s[k]) || IsSpace(s[k])
    ensures s[42] == ' ' && s[43] == 'S' && s[44] == 't' && s[45] == '.'
  {
  }

  /** STREET_ADDRESS (house number form) finds exactly `123 Main St` in the
      sentence: `34 years old and lives at` reaches no street type. */
  lemma SentenceStreet(s: string)
    requires IsSentence(s)
    ensures FindAll(MatchStreet, s) == ["123 Main St"]
  {
    SentenceStreetFacts(s);
    StreetInSentenceLayout(s);
    SentencePieces(s);
  }

  // ------------------------------------------------- the other six rules

  /** No character folds to `x`. */
  predicate NoFolded(text: string, x: char) {
    forall k :: 0 <= k < |text| ==> Lower(text[k]) != x
  }

  /** No two characters `d` apart fold to `x` and then `y`. */
  predicate NoPairApart(text: string, x: char, y: char, d: nat) {
    forall k :: 0 <= k && k + d < |text| ==> !(Lower(text[k]) == x && Lower(text[k + d]) == y)
  }

  /** No two digits stand three apart. */
  predicate NoDigitsThreeApart(text: string) {
    forall k :: 0 <= k && k + 3 < |text| ==> !(IsDigit(text[k]) && IsDigit(text[k + 3]))
  }

  /** Every digit has two more characters after it, neither a date
      separator. */
  predicate NoDateSepNearDigit(text: string) {
    forall k :: 0 <= k < |text| && IsDigit(text[k]) ==>
      k + 2 < |text| && !(text[k + 1] in "-./") && !(text[k + 2] in "-./")
  }

  /** A literal holding a character that nothing in the text folds to
      occurs nowhere in it, ignoring case. */
  lemma LitNowhereChar(text: string, lit: string, i: nat)
    requires i < |lit| && NoFolded(text, lit[i])
    ensures forall p: nat :: !LitAt(text, p, lit, true)
  {
    forall p: nat
      ensures !LitAt(text, p, lit, true)
    {
      LitAtCharIf(text, p, lit, true, i);
    }
  }

  /** A literal whose characters `i` and `j` never stand `j - i` apart in
      the folded text occurs nowhere in it, ignoring case. */
  lemma LitNowhere(text: string, lit: string, i: nat, j: nat)
    requires i < j < |lit| && NoPairApart(text, lit[i], lit[j], j - i)
    ensures forall p: nat :: !LitAt(text, p, lit, true)
  {
    forall p: nat
      ensures !LitAt(text, p, lit, true)
    {
      LitAtCharIf(text, p, lit, true, i);
      LitAtCharIf(text, p, lit, true, j);
      assert p + i + (j - i) == p + j;
    }
  }

  /** STREET_ADDRESS (post office box form) matches nowhere in a text
      without `p`. */
  lemma PoBoxNowhere(text: string)
    requires NoFolded(text, 'p')
    ensures forall p :: 0 <= p < |text| ==> MatchPoBox(text, p).None?
  {
  }

  /** The serial of an id starts and ends with digits three apart. */
  lemma IdSerialDigits(text: string, a: nat)
    ensures IdGroupsAt(text, a) ==> a + 7 + 3 < |text| && IsDigit(text[a + 7]) && IsDigit(text[a + 7 + 3])
  {
  }

  /** GOVT_ID matches nowhere when no two digits stand three apart. */
  lemma GovtIdNowhere(text: string)
    requires NoDigitsThreeApart(text)
    ensures forall p :: 0 <= p < |text| ==> MatchGovtId(text, p).None?
  {
    forall a: nat
      ensures !IdGroupsAt(text, a)
    {
      IdSerialDigits(text, a);
    }
  }

  /** DISEASE matches nowhere when the text has no `b`, `c` or `z` and no
      `hi`, `id` or `he`. */
  lemma DiseaseNowhere(text: string)
    requires NoFolded(text, 'b') && NoFolded(text, 'c') && NoFolded(text, 'z')
    requires NoPairApart(text, 'h', 'i', 1) && NoPairApart(text, 'i', 'd', 1) && NoPairApart(text, 'h', 'e', 1)
    ensures forall p :: 0 <= p < |text| ==> MatchDisease(text, p).None?
  {
    forall i | 0 <= i < |Diseases|
      ensures forall p: nat :: !LitAt(text, p, Diseases[i], true)
    {
      if i == 0 {
        LitNowhereChar(text, "diabetes", 3);
      } else if i == 1 {
        LitNowhereChar(text, "cancer", 0);
      } else if i == 2 {
        LitNowhere(text, "hiv", 0, 1);
      } else if i == 3 {
        LitNowhere(text, "aids", 1, 2);
      } else if i == 4 {
        LitNowhereChar(text, "alzheimer's", 2);
      } else if i == 5 {
        LitNowhereChar(text, "alzheimer", 2);
      } else {
        LitNowhere(text, "heart disease", 0, 1);
      }
    }
  }

  /** NORP matches nowhere in a text without `c`: every phrase ends in
      `class`. */
  lemma NorpNowhere(text: string)
    requires NoFolded(text, 'c')
    ensures forall p :: 0 <= p < |text| ==> MatchNorp(text, p).None?
  {
    forall i | 0 <= i < |Classes|
      ensures forall p: nat :: !LitAt(text, p, Classes[i], true)
    {
      assert Classes[i][|Classes[i]| - 5] == 'c';
      LitNowhereChar(text, Classes[i], |Classes[i]| - 5);
    }
  }

  /** The day of a numeric date is one or two digits, then a separator. */
  lemma NumericDateStart(text: string, p: nat)
    ensures NumericDateAt(text, p).Some? ==>
      p < |text| && IsDigit(text[p]) && ((p + 1 < |text| && text[p + 1] in "-./") || (p + 2 < |text| && text[p + 2] in "-./"))
  {
  }

  /** BIRTH_DEATH_DATE matches nowhere without `born ` (the text has no `b`)
      and without a numeric date (no separator right after a digit or
      one place further). */
  lemma BirthDateNowhere(text: string)
    requires NoFolded(text, 'b') && NoDateSepNearDigit(text)
    ensures forall p :: 0 <= p < |text| ==> MatchBirthDate(text, p).None?
  {
    LitNowhereChar(text, "born ", 0);
    forall p | 0 <= p < |text|
      ensures MatchBirthDate(text, p).None?
    {
      NumericDateStart(text, p);
    }
  }

  /** PHONE ends in four digits. */
  lemma PhoneLastDigits(text: string, p: nat)
    ensures MatchPhone(text, p).Some? ==>
      var e := p + MatchPhone(text, p).value;
      4 <= e <= |text| && IsDigit(text[e - 4]) && IsDigit(text[e - 4 + 3])
  {
  }

  /** PHONE matches nowhere when no two digits stand three apart. */
  lemma PhoneNowhere(text: string)
    requires NoDigitsThreeApart(text)
    ensures forall p :: 0 <= p < |text| ==> MatchPhone(text, p).None?
  {
    forall p | 0 <= p < |text|
      ensures MatchPhone(text, p).None?
    {
      PhoneLastDigits(text, p);
    }
  }

  /** A text none of whose characters is `b`, `c`, `z` or `p`, in either
      case, has none that folds to them. */
  lemma LettersAbsent(text: string)
    requires forall k :: 0 <= k < |text| ==> text[k] !in "bBcCzZpP"
    ensures NoFolded(text, 'b') && NoFolded(text, 'c') && NoFolded(text, 'z') && NoFolded(text, 'p')
  {
  }

  /** Where `h` and `i` stand in a text laid out like the sentence, and
      what follows them. */
  lemma PairsInLayout(text: string)
    requires |text| == 46
    requires forall k :: 0 <= k < |text| && text[k] in "hH" ==> k == 2
    requires forall k :: 0 <= k < |text| && text[k] in "iI" ==> k == 5 || k == 26 || k == 40
    requires text[3] == 'n' && text[6] == 's' && text[27] == 'v' && text[41] == 'n'
    ensures NoPairApart(text, 'h', 'i', 1) && NoPairApart(text, 'i', 'd', 1) && NoPairApart(text, 'h', 'e', 1)
  {
  }

  /** Where the digits and the date separators stand in a text laid out
      like the sentence. */
  lemma DigitsInLayout(text: string)
    requires |text| == 46
    requires forall k :: 0 <= k < |text| && IsDigit(text[k]) ==> k == 8 || k == 9 || 34 <= k <= 36
    requires forall k :: 0 <= k < |text| && text[k] in "-./" ==> k == 45
    ensures NoDigitsThreeApart(text) && NoDateSepNearDigit(text)
  {
  }

  lemma SentenceLetterFacts(s: string)
    requires IsSentence(s)
    ensures forall k :: 0 <= k < |s| ==> s[k] !in "bBcCzZpP"
  {
  }

  lemma SentencePairFacts(s: string)
    requires IsSentence(s)
    ensures |s| == 46
    ensures forall k :: 0 <= k < |s| && s[k] in "hH" ==> k == 2
    ensures forall k :: 0 <= k < |s| && s[k] in "iI" ==> k == 5 || k == 26 || k == 40
    ensures s[3] == 'n' && s[6] == 's' && s[27] == 'v' && s[41] == 'n'
  {
  }

  lemma SentenceDigitFacts(s: string)
    requires IsSentence(s)
    ensures |s| == 46
    ensures forall k :: 0 <= k < |s| && IsDigit(s[k]) ==> k == 8 || k == 9 || 34 <= k <= 36
    ensures forall k :: 0 <= k < |s| && s[k] in "-./" ==> k == 45
  {
  }

  /** In the sentence the post office box, GOVT_ID, DISEASE, NORP,
      BIRTH_DEATH_DATE and PHONE rules find nothing. */
  lemma SentenceOthersNone(s: string)
    requires IsSentence(s)
    ensures FindAll(MatchPoBox, s) == [] && FindAll(MatchGovtId, s) == []
    ensures FindAll(MatchDisease, s) == [] && FindAll(MatchNorp, s) == []
    ensures FindAll(MatchBirthDate, s) == [] && FindAll(MatchPhone, s) == []
  {
    SentenceLetterFacts(s);
    LettersAbsent(s);
    SentencePairFacts(s);
    PairsInLayout(s);
    SentenceDigitFacts(s);
    DigitsInLayout(s);
    PoBoxNowhere(s);
    FindAllNoMatch(MatchPoBox, s);
    GovtIdNowhere(s);
    FindAllNoMatch(MatchGovtId, s);
    DiseaseNowhere(s);
    FindAllNoMatch(MatchDisease, s);
    NorpNowhere(s);
    FindAllNoMatch(MatchNorp, s);
    BirthDateNowhere(s);
    FindAllNoMatch(MatchBirthDate, s);
    PhoneNowhere(s);
    FindAllNoMatch(MatchPhone, s);
  }

  // ----------------------------------------------------------- find_pii

  /** Rules that match nowhere contribute no findings. */
  lemma {:induction false} FindingsNoMatches(rules: seq<Rule>, text: string, fileName: string)
    requires ValidRules(rules)
    requires forall j :: 0 <= j < |rules| ==> FindAll(rules[j].matcher, text) == []
    ensures Findings(rules, text, fileName) == []
    decreases |rules|
  {
    if rules != [] {
      FindingsNoMatches(rules[..|rules| - 1], text, fileName);
    }
  }

  /** A rule finding one value contributes one finding. */
  lemma RuleFindingsSingle(rule: Rule, text: string, fileName: string, a: string)
    requires IsMatcher(rule.matcher) && FindAll(rule.matcher, text) == [a]
    ensures RuleFindings(rule, text, fileName) == [Finding(fileName, rule.category.Label(), a)]
  {
  }

  /** Two rules finding one value each give two findings, in rule order. */
  lemma FindingsOfPair(rules: seq<Rule>, text: string, fileName: string, a: string, b: string)
    requires ValidRules(rules) && |rules| == 2
    requires FindAll(rules[0].matcher, text) == [a] && FindAll(rules[1].matcher, text) == [b]
    ensures Findings(rules, text, fileName) ==
      [Finding(fileName, rules[0].category.Label(), a), Finding(fileName, rules[1].category.Label(), b)]
  {
    RuleFindingsSingle(rules[0], text, fileName, a);
    RuleFindingsSingle(rules[1], text, fileName, b);
    assert rules[..1][..0] == [] && rules[..1] == [rules[0]];
    assert Findings(rules[..1], text, fileName) == RuleFindings(rules[0], text, fileName);
  }

  /** Two rules finding one value each, then rules finding nothing: two
      findings, in rule order. */
  lemma FindingsTwoThenNone(rules: seq<Rule>, text: string, fileName: string, a: string, b: string)
    requires ValidRules(rules) && |rules| >= 2
    requires FindAll(rules[0].matcher, text) == [a] && FindAll(rules[1].matcher, text) == [b]
    requires forall j :: 2 <= j < |rules| ==> FindAll(rules[j].matcher, text) == []
    ensures Findings(rules, text, fileName) ==
      [Finding(fileName, rules[0].category.Label(), a), Finding(fileName, rules[1].category.Label(), b)]
  {
    var front, back := rules[..2], rules[2..];
    assert front + back == rules;
    FindingsAppend(front, back, text, fileName);
    FindingsNoMatches(back, text, fileName);
    FindingsOfPair(front, text, fileName, a, b);
  }

  /** The matchers of the rulebase, in order. */
  lemma RulebaseMatchers()
    ensures |Rulebase[0].0| == 8
    ensures Rulebase[0].0[0].matcher == MatchAge && Rulebase[0].0[1].matcher == MatchStreet
    ensures Rulebase[0].0[2].matcher == MatchPoBox && Rulebase[0].0[3].matcher == MatchGovtId
    ensures Rulebase[0].0[4].matcher == MatchDisease && Rulebase[0].0[5].matcher == MatchNorp
    ensures Rulebase[0].0[6].matcher == MatchBirthDate && Rulebase[0].0[7].matcher == MatchPhone
  {
  }

  /** `find_pii` on a text where AGE and the house number form of
      STREET_ADDRESS find one value each and the other six rules nothing. */
  lemma RulebaseTwoFindings(text: string, fileName: string, a: string, b: string)
    requires FindAll(MatchAge, text) == [a] && FindAll(MatchStreet, text) == [b]
    requires FindAll(MatchPoBox, text) == [] && FindAll(MatchGovtId, text) == []
    requires FindAll(MatchDisease, text) == [] && FindAll(MatchNorp, text) == []
    requires FindAll(MatchBirthDate, text) == [] && FindAll(MatchPhone, text) == []
    ensures ValidRules(Rulebase[0].0)
    ensures Findings(Rulebase[0].0, text, fileName) ==
      [Finding(fileName, "AGE", a), Finding(fileName, "STREET_ADDRESS", b)]
  {
    RulebaseValid();
    RulebaseLabels();
    RulebaseMatchers();
    var rules := Rulebase[0].0;
    forall j | 2 <= j < |rules|
      ensures FindAll(rules[j].matcher, text) == []
    {
      if j == 2 {
        assert rules[j].matcher == MatchPoBox;
      } else if j == 3 {
        assert rules[j].matcher == MatchGovtId;
      } else if j == 4 {
        assert rules[j].matcher == MatchDisease;
      } else if j == 5 {
        assert rules[j].matcher == MatchNorp;
      } else if j == 6 {
        assert rules[j].matcher == MatchBirthDate;
      } else {
        assert rules[j].matcher == MatchPhone;
      }
    }
    FindingsTwoThenNone(rules, text, fileName, a, b);
  }

  /** `find_pii` on the sentence: the age, then the street address, and
      nothing from the other six rules. */
  lemma SentenceFindings(s: string, fileName: string)
    requires IsSentence(s)
    ensures ValidRules(Rulebase[0].0)
    ensures Findings(Rulebase[0].0, s, fileName) ==
      [Finding(fileName, "AGE", "34 years old"), Finding(fileName, "STREET_ADDRESS", "123 Main St")]
  {
    SentenceAge(s);
    SentenceStreet(s);
    SentenceOthersNone(s);
    RulebaseTwoFindings(s, fileName, "34 years old", "123 Main St");
  }

  // ----------------------------------------------------------------- CSV

  /** A CSV upload of a header row and one data row flattens to the cells
      joined by spaces, the rows by a newline. */
  lemma CsvSampleFlatten()
    ensures Flatten([["a", "b", "c"], ["34 years old", "x", "y"]]) == "a b c" + "\n" + "34 years old x y"
  {
    var rows := [["a", "b", "c"], ["34 years old", "x", "y"]];
    assert Join(rows[0], " ") == "a b c";
    assert Join(rows[1], " ") == "34 years old x y";
    var lines := RowLines(rows);
    assert lines == ["a b c", "34 years old x y"];
    assert lines[1..] == ["34 years old x y"];
  }

  lemma CsvAgeFacts(t: string)
    requires t == "a b c\n" + "34 years old" + " x y"
    ensures |t| == 22 && IsSpace(t[5])
    ensures forall j :: 0 <= j < 7 ==> t[j] != 'y'
    ensures !IsSpace(t[6]) && !IsSpace(t[7]) && t[8..18] == " years old"
  {
    var a, b, c := "a b c\n", "34 years old", " x y";
    assert t == a + (b + c);
    assert t[6..18] == b;
    assert t[8..18] == t[6..18][2..];
  }

  /** AGE finds the age in the second row of the flattened text; the
      newline between the rows ends the run of non-whitespace before it. */
  lemma CsvTextAge(t: string)
    requires t == "a b c" + "\n" + "34 years old x y"
    ensures FindAll(MatchAge, t) == ["34 years old"]
  {
    assert t == "a b c\n" + "34 years old" + " x y";
    CsvAgeFacts(t);
    AgeNoMatchBefore(t, 5);
    AgeYearsOldAt(t, 6, 2);
    AgeNoMatchFrom(t, 18);
    FindAllSingle(MatchAge, t, 6, 18);
    assert t[6..18] == "34 years old";
  }

  /** AGE finds the age in the second row of the flattened CSV upload. */
  lemma CsvAge()
    ensures FindAll(MatchAge, Flatten([["a", "b", "c"], ["34 years old", "x", "y"]])) == ["34 years old"]
  {
    CsvSampleFlatten();
    CsvTextAge("a b c" + "\n" + "34 years old x y");
  }
}
