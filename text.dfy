/**
 * Character classes and literal matching over ASCII text, as Python's `re`
 * module sees them for the patterns of the rulebase.
 */
module Text {

  import opened Wrappers

  /** `\d` restricted to ASCII. */
  predicate IsDigit(c: char) {
    '0' <= c <= '9'
  }

  /** `\s`: space, \t \n \v \f \r, and the separators 0x1C-0x1F that Python's
      `str.isspace` also counts. */
  predicate IsSpace(c: char) {
    c == ' ' || ('\t' <= c <= '\r') || (28 <= c as int <= 31)
  }

  /** `\w` restricted to ASCII. */
  predicate IsWord(c: char) {
    ('a' <= c <= 'z') || ('A' <= c <= 'Z') || IsDigit(c) || c == '_'
  }

  /** ASCII lower-casing, the case folding of `re.IGNORECASE` on ASCII text. */
  function Lower(c: char): (r: char)
    ensures ('A' <= c <= 'Z') ==> r as int == c as int + 32
    ensures !('A' <= c <= 'Z') ==> r == c
  {
    if 'A' <= c <= 'Z' then (c as int + 32) as char else c
  }

  /** Whether the characters of `lit` occur in `text` from position `p` on;
      under `fold`, the text is lower-cased first (`lit` is written in lower case). */
  predicate LitAt(text: string, p: nat, lit: string, fold: bool)
    ensures LitAt(text, p, lit, fold) ==> p + |lit| <= |text|
    decreases |lit|
  {
    if lit == [] then p <= |text|
    else p < |text| && (if fold then Lower(text[p]) else text[p]) == lit[0]
         && LitAt(text, p + 1, lit[1..], fold)
  }

  /** Without folding, a literal occurs exactly when the slice equals it. */
  lemma {:induction false} LitAtSlice(text: string, p: nat, lit: string)
    ensures LitAt(text, p, lit, false) <==> (p + |lit| <= |text| && text[p..p + |lit|] == lit)
    decreases |lit|
  {
    if lit != [] {
      LitAtSlice(text, p + 1, lit[1..]);
      if p + |lit| <= |text| {
        assert text[p..p + |lit|] == [text[p]] + text[p + 1..p + 1 + |lit[1..]|];
      }
    }
  }

  /** Where a literal occurs, each of its characters stands at its place
      (lower-cased first under folding). */
  lemma {:induction false} LitAtChar(text: string, p: nat, lit: string, fold: bool, i: nat)
    requires LitAt(text, p, lit, fold) && i < |lit|
    ensures p + i < |text|
    ensures (if fold then Lower(text[p + i]) else text[p + i]) == lit[i]
    decreases i
  {
    if i > 0 {
      LitAtChar(text, p + 1, lit[1..], fold, i - 1);
    }
  }

  /** Under folding, a literal occurs when each character of the text,
      lower-cased, is the literal's character. */
  lemma {:induction false} LitAtFolded(text: string, p: nat, lit: string)
    requires p + |lit| <= |text|
    requires forall i :: 0 <= i < |lit| ==> Lower(text[p + i]) == lit[i]
    ensures LitAt(text, p, lit, true)
    decreases |lit|
  {
    if lit != [] {
      assert Lower(text[p + 0]) == lit[0];
      forall i | 0 <= i < |lit[1..]|
        ensures Lower(text[p + 1 + i]) == lit[1..][i]
      {
        assert Lower(text[p + (i + 1)]) == lit[i + 1];
      }
      LitAtFolded(text, p + 1, lit[1..]);
    }
  }

  /** Length of the run of digits starting at `p`. */
  function DigitRun(text: string, p: nat): (n: nat)
    ensures n > 0 ==> p + n <= |text|
    ensures forall i :: p <= i < p + n ==> IsDigit(text[i])
    ensures p + n < |text| ==> !IsDigit(text[p + n])
    decreases |text| - p
  {
    if p < |text| && IsDigit(text[p]) then 1 + DigitRun(text, p + 1) else 0
  }

  /** Length of the run of `\s` characters starting at `p`. */
  function SpaceRun(text: string, p: nat): (n: nat)
    ensures n > 0 ==> p + n <= |text|
    ensures forall i :: p <= i < p + n ==> IsSpace(text[i])
    ensures p + n < |text| ==> !IsSpace(text[p + n])
    decreases |text| - p
  {
    if p < |text| && IsSpace(text[p]) then 1 + SpaceRun(text, p + 1) else 0
  }

  /** Length of the run of `\S` characters starting at `p`. */
  function NonSpaceRun(text: string, p: nat): (n: nat)
    ensures n > 0 ==> p + n <= |text|
    ensures forall i :: p <= i < p + n ==> !IsSpace(text[i])
    ensures p + n < |text| ==> IsSpace(text[p + n])
    decreases |text| - p
  {
    if p < |text| && !IsSpace(text[p]) then 1 + NonSpaceRun(text, p + 1) else 0
  }

  /** Length of the run of `[\w\s]` characters starting at `p`. */
  function WordOrSpaceRun(text: string, p: nat): (n: nat)
    ensures n > 0 ==> p + n <= |text|
    ensures forall i :: p <= i < p + n ==> IsWord(text[i]) || IsSpace(text[i])
    ensures p + n < |text| ==> !(IsWord(text[p + n]) || IsSpace(text[p + n]))
    decreases |text| - p
  {
    if p < |text| && (IsWord(text[p]) || IsSpace(text[p])) then 1 + WordOrSpaceRun(text, p + 1) else 0
  }

  predicate NoneEmpty(alts: seq<string>) {
    forall i :: 0 <= i < |alts| ==> alts[i] != []
  }

  /** Leftmost-first alternation of literals: the length of the first of
      `alts` that occurs at `p`. */
  function FirstLitAt(text: string, p: nat, alts: seq<string>, fold: bool): (r: Option<nat>)
    ensures r.Some? <==> exists i :: 0 <= i < |alts| && LitAt(text, p, alts[i], fold)
    ensures r.Some? ==> exists i :: 0 <= i < |alts| && LitAt(text, p, alts[i], fold) && |alts[i]| == r.value
    ensures r.Some? ==> p + r.value <= |text|
    ensures r.Some? && NoneEmpty(alts) ==> 1 <= r.value
    decreases |alts|
  {
    if alts == [] then None
    else if LitAt(text, p, alts[0], fold) then Some(|alts[0]|)
    else
      var r := FirstLitAt(text, p, alts[1..], fold);
      assert forall i :: 1 <= i < |alts| ==> alts[i] == alts[1..][i - 1];
      r
  }

  /** Leftmost-first, not longest: the alternative chosen is the first one
      that occurs, whatever later ones might match. */
  lemma {:induction false} FirstLitAtIsFirst(text: string, p: nat, alts: seq<string>, fold: bool, k: nat)
    requires k < |alts| && LitAt(text, p, alts[k], fold)
    requires forall j :: 0 <= j < k ==> !LitAt(text, p, alts[j], fold)
    ensures FirstLitAt(text, p, alts, fold) == Some(|alts[k]|)
    decreases k
  {
    if k > 0 {
      assert !LitAt(text, p, alts[0], fold);
      assert forall j :: 0 <= j < k - 1 ==> alts[1..][j] == alts[j + 1];
      FirstLitAtIsFirst(text, p, alts[1..], fold, k - 1);
    }
  }

  /** 1 when `c` stands at position `i`: an optional single character `c?`
      (greedy; backtracking out of it never helps where it is used). */
  function Opt(text: string, i: nat, c: char): (n: nat)
    ensures n <= 1 && (n == 1 <==> i < |text| && text[i] == c)
  {
    if i < |text| && text[i] == c then 1 else 0
  }

  function Min(a: nat, b: nat): nat {
    if a <= b then a else b
  }
}
