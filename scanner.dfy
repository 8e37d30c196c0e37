/**
 * The rule-based scanner: the rulebase (backend/app.py:50-61), `findall`
 * as a leftmost, non-overlapping scan, and `find_pii` (backend/app.py:64-71).
 */
module Scanner {

  import opened Wrappers
  import opened Text
  import opened Matchers

  /** The PII categories of the rulebase. */
  datatype Category = Age | StreetAddress | GovtId | Disease | Norp | BirthDeathDate | Phone {

    /** The label stored in a finding's `pii_type`. */
    function Label(): string {
      match this
      case Age => "AGE"
      case StreetAddress => "STREET_ADDRESS"
      case GovtId => "GOVT_ID"
      case Disease => "DISEASE"
      case Norp => "NORP"
      case BirthDeathDate => "BIRTH_DEATH_DATE"
      case Phone => "PHONE"
    }
  }

  /** A compiled pattern: tried at a position of a text, the length of the
      match found there, or None. */
  type Matcher = (string, nat) -> Option<nat>

  /** No match is empty or runs past the end of the text. */
  ghost predicate IsMatcher(m: Matcher) {
    forall text, p :: Fits(text, p, m(text, p))
  }

  /** A rule pairs a category with its compiled pattern. */
  datatype Rule = Rule(category: Category, matcher: Matcher)

  ghost predicate ValidRules(rules: seq<Rule>) {
    forall j :: 0 <= j < |rules| ==> IsMatcher(rules[j].matcher)
  }

  /** The rulebase as declared: a one-element list holding the pair
      (rules, 1); the scanner reads the rules as `rulebase[0][0]`. */
  const Rulebase: seq<(seq<Rule>, int)> := [([
    Rule(Age, MatchAge),
    Rule(StreetAddress, MatchStreet),
    Rule(StreetAddress, MatchPoBox),
    Rule(GovtId, MatchGovtId),
    Rule(Disease, MatchDisease),
    Rule(Norp, MatchNorp),
    Rule(BirthDeathDate, MatchBirthDate),
    Rule(Phone, MatchPhone)
  ], 1)]

  /** The rulebase holds one list of eight rules, labelled in the order
      they are declared; two of them report street addresses. */
  lemma RulebaseLabels()
    ensures |Rulebase| == 1 && |Rulebase[0].0| == 8 && Rulebase[0].1 == 1
    ensures forall j :: 0 <= j < 8 ==>
      Rulebase[0].0[j].category.Label() ==
      ["AGE", "STREET_ADDRESS", "STREET_ADDRESS", "GOVT_ID", "DISEASE", "NORP", "BIRTH_DEATH_DATE", "PHONE"][j]
  {
  }

  /** One finding of `find_pii`: a dictionary with exactly the keys
      `file_name`, `pii_type` and `pii_value` (no id: the store assigns one). */
  datatype Finding = Finding(fileName: string, piiType: string, piiValue: string)

  /** A match occupies `text[start..end]`. */
  datatype Span = Span(start: nat, end: nat)

  /** `findall` from position `p`: at each position the pattern is tried;
      a match of `n` characters is reported and the scan resumes after it,
      otherwise the scan moves on by one. At the end of the text only the
      empty match could be tried, and no pattern matches the empty string. */
  function ScanFrom(m: Matcher, text: string, p: nat): (spans: seq<Span>)
    requires IsMatcher(m) && p <= |text|
    ensures forall i :: 0 <= i < |spans| ==> p <= spans[i].start < spans[i].end <= |text|
    ensures forall i :: 0 <= i < |spans| ==> m(text, spans[i].start) == Some(spans[i].end - spans[i].start)
    ensures forall i :: 0 < i < |spans| ==> spans[i - 1].end <= spans[i].start
    decreases |text| - p
  {
    if p == |text| then []
    else
      match m(text, p)
      case Some(n) =>
        assert Fits(text, p, m(text, p));
        [Span(p, p + n)] + ScanFrom(m, text, p + n)
      case None => ScanFrom(m, text, p + 1)
  }

  /** The spans of `pattern.findall(text)`. */
  function Scan(m: Matcher, text: string): seq<Span>
    requires IsMatcher(m)
  {
    ScanFrom(m, text, 0)
  }

  /** The strings `pattern.findall(text)` returns: the matched text of each
      span, in order. */
  function FindAll(m: Matcher, text: string): (matches: seq<string>)
    requires IsMatcher(m)
    ensures |matches| == |Scan(m, text)|
  {
    var spans := Scan(m, text);
    seq(|spans|, i requires 0 <= i < |spans| => text[spans[i].start..spans[i].end])
  }

  /** The findings one rule contributes: one per match, in match order. */
  function RuleFindings(rule: Rule, text: string, fileName: string): (fs: seq<Finding>)
    requires IsMatcher(rule.matcher)
    ensures |fs| == |Scan(rule.matcher, text)|
  {
    var matches := FindAll(rule.matcher, text);
    seq(|matches|, i requires 0 <= i < |matches| => Finding(fileName, rule.category.Label(), matches[i]))
  }

  /** The findings of `rules` taken in order, each rule's findings after
      those of the rules before it. */
  function Findings(rules: seq<Rule>, text: string, fileName: string): (fs: seq<Finding>)
    requires ValidRules(rules)
    ensures forall i :: 0 <= i < |fs| ==> fs[i].fileName == fileName
    ensures forall i :: 0 <= i < |fs| ==> exists j :: 0 <= j < |rules| && fs[i].piiType == rules[j].category.Label()
    decreases |rules|
  {
    if rules == [] then []
    else Findings(rules[..|rules| - 1], text, fileName) + RuleFindings(rules[|rules| - 1], text, fileName)
  }

  /** find_pii's loop over a list of rules: for each rule in order, append
      one finding per `findall` match. */
  method ScanRules(rules: seq<Rule>, text: string, fileName: string) returns (piiData: seq<Finding>)
    requires ValidRules(rules)
    ensures piiData == Findings(rules, text, fileName)
  {
    piiData := [];
    for r := 0 to |rules|
      invariant piiData == Findings(rules[..r], text, fileName)
    {
      var rule := rules[r];
      var matches := FindAll(rule.matcher, text);
      for k := 0 to |matches|
        invariant piiData == Findings(rules[..r], text, fileName) + RuleFindings(rule, text, fileName)[..k]
      {
        piiData := piiData + [Finding(fileName, rule.category.Label(), matches[k])];
      }
      assert rules[..r + 1][..r] == rules[..r];
    }
    assert rules[..|rules|] == rules;
  }

  /** Every compiled pattern of the rulebase yields only nonempty matches
      inside the text. */
  lemma RulebaseValid()
    ensures ValidRules(Rulebase[0].0)
  {
  }

  /** find_pii: the rules of `rulebase[0][0]`, scanned in order. */
  method FindPii(text: string, fileName: string) returns (piiData: seq<Finding>)
    ensures ValidRules(Rulebase[0].0) && piiData == Findings(Rulebase[0].0, text, fileName)
  {
    RulebaseValid();
    piiData := ScanRules(Rulebase[0].0, text, fileName);
  }

  // ------------------------------------------------------------- findall

  /** Nothing is skipped: every position `q` from `p` on where the pattern
      matches lies inside a reported span, the `i`-th. */
  lemma {:induction false} ScanFromCovers(m: Matcher, text: string, p: nat, q: nat) returns (i: nat)
    requires IsMatcher(m) && p <= q < |text| && m(text, q).Some?
    ensures i < |ScanFrom(m, text, p)| && ScanFrom(m, text, p)[i].start <= q < ScanFrom(m, text, p)[i].end
    decreases |text| - p
  {
    var spans := ScanFrom(m, text, p);
    match m(text, p)
    case Some(n) =>
      assert Fits(text, p, m(text, p));
      var rest := ScanFrom(m, text, p + n);
      assert spans == [Span(p, p + n)] + rest;
      if q < p + n {
        i := 0;
      } else {
        var k := ScanFromCovers(m, text, p + n, q);
        i := k + 1;
        assert spans[i] == rest[k];
      }
    case None =>
      assert spans == ScanFrom(m, text, p + 1);
      i := ScanFromCovers(m, text, p + 1, q);
  }

  /** `findall` reports leftmost matches: every position where the pattern
      matches is covered by a reported span, so no match is missed except
      one overlapping a match reported before it. */
  lemma ScanCovers(m: Matcher, text: string)
    requires IsMatcher(m)
    ensures forall q :: 0 <= q < |text| && m(text, q).Some? ==>
      exists i :: 0 <= i < |Scan(m, text)| && Scan(m, text)[i].start <= q < Scan(m, text)[i].end
  {
    forall q | 0 <= q < |text| && m(text, q).Some?
      ensures exists i :: 0 <= i < |Scan(m, text)| && Scan(m, text)[i].start <= q < Scan(m, text)[i].end
    {
      var i := ScanFromCovers(m, text, 0, q);
      assert Scan(m, text)[i] == ScanFrom(m, text, 0)[i];
    }
  }

  /** A property of every match of the pattern holds of every string
      `findall` returns. */
  lemma FindAllValues(m: Matcher, text: string, P: string -> bool)
    requires IsMatcher(m)
    requires forall p :: 0 <= p < |text| && m(text, p).Some? ==>
      Fits(text, p, m(text, p)) && P(text[p..p + m(text, p).value])
    ensures forall v :: v in FindAll(m, text) ==> P(v)
  {
    var spans := Scan(m, text);
    var vs := FindAll(m, text);
    forall k | 0 <= k < |vs|
      ensures P(vs[k])
    {
      assert m(text, spans[k].start) == Some(spans[k].end - spans[k].start);
    }
  }

  /** Where the pattern matches at no position from `p` on, the scan from
      `p` finds nothing. */
  lemma {:induction false} ScanFromNoMatch(m: Matcher, text: string, p: nat)
    requires IsMatcher(m) && p <= |text|
    requires forall q :: p <= q < |text| ==> m(text, q).None?
    ensures ScanFrom(m, text, p) == []
    decreases |text| - p
  {
    if p < |text| {
      ScanFromNoMatch(m, text, p + 1);
    }
  }

  /** Positions where the pattern does not match are skipped: the scan from
      `p` is the scan from the first later position that may match. */
  lemma {:induction false} ScanFromSkip(m: Matcher, text: string, p: nat, q: nat)
    requires IsMatcher(m) && p <= q <= |text|
    requires forall k :: p <= k < q ==> m(text, k).None?
    ensures ScanFrom(m, text, p) == ScanFrom(m, text, q)
    decreases q - p
  {
    if p < q {
      ScanFromSkip(m, text, p + 1, q);
    }
  }

  /** Where the pattern matches at `p`, ending at `e`, and at no position
      before `p` or from `e` on, `findall` returns that one match. */
  lemma FindAllSingle(m: Matcher, text: string, p: nat, e: nat)
    requires IsMatcher(m) && p < e <= |text|
    requires forall q :: 0 <= q < p ==> m(text, q).None?
    requires m(text, p).Some? && m(text, p).value == e - p
    requires forall q :: e <= q < |text| ==> m(text, q).None?
    ensures Scan(m, text) == [Span(p, e)]
    ensures FindAll(m, text) == [text[p..e]]
  {
    ScanFromSkip(m, text, 0, p);
    ScanFromNoMatch(m, text, e);
  }

  /** Where the pattern matches nowhere, `findall` returns nothing. */
  lemma FindAllNoMatch(m: Matcher, text: string)
    requires IsMatcher(m)
    requires forall p :: 0 <= p < |text| ==> m(text, p).None?
    ensures FindAll(m, text) == []
  {
    ScanFromNoMatch(m, text, 0);
  }

  // ------------------------------------------------------------ find_pii

  /** The findings of a concatenation of rule lists are the findings of the
      first list followed by those of the second. */
  lemma {:induction false} FindingsAppend(a: seq<Rule>, b: seq<Rule>, text: string, fileName: string)
    requires ValidRules(a) && ValidRules(b)
    ensures ValidRules(a + b)
    ensures Findings(a + b, text, fileName) == Findings(a, text, fileName) + Findings(b, text, fileName)
    decreases |b|
  {
    if b == [] {
      assert a + b == a;
    } else {
      assert (a + b)[..|a + b| - 1] == a + b[..|b| - 1];
      FindingsAppend(a, b[..|b| - 1], text, fileName);
    }
  }

  /** Rule-major order: the findings of rule `j` form one contiguous block,
      in match order, after the blocks of the rules before it. */
  lemma FindingsRuleMajor(rules: seq<Rule>, text: string, fileName: string, j: nat)
    requires ValidRules(rules) && j < |rules|
    ensures
      var before := |Findings(rules[..j], text, fileName)|;
      before + |RuleFindings(rules[j], text, fileName)| <= |Findings(rules, text, fileName)| &&
      Findings(rules, text, fileName)[before..before + |RuleFindings(rules[j], text, fileName)|]
        == RuleFindings(rules[j], text, fileName)
  {
    FindingsAppend(rules[..j], [rules[j]], text, fileName);
    FindingsAppend(rules[..j] + [rules[j]], rules[j + 1..], text, fileName);
    assert rules[..j] + [rules[j]] + rules[j + 1..] == rules;
    assert [rules[j]][..0] == [];
  }

  /** `f` is the text of a match of `rule` in `text`, labelled with the
      rule's category and the file name. */
  ghost predicate FoundBy(rule: Rule, text: string, fileName: string, f: Finding) {
    && f.fileName == fileName
    && f.piiType == rule.category.Label()
    && exists a :: 0 <= a < |text| && rule.matcher(text, a).Some? &&
         a + rule.matcher(text, a).value <= |text| &&
         f.piiValue == text[a..a + rule.matcher(text, a).value]
  }

  lemma RuleFindingsFoundBy(rule: Rule, text: string, fileName: string)
    requires IsMatcher(rule.matcher)
    ensures forall f :: f in RuleFindings(rule, text, fileName) ==> FoundBy(rule, text, fileName, f)
  {
    var spans := Scan(rule.matcher, text);
    var fs := RuleFindings(rule, text, fileName);
    forall k | 0 <= k < |fs|
      ensures FoundBy(rule, text, fileName, fs[k])
    {
      var a := spans[k].start;
      assert fs[k].piiValue == text[a..spans[k].end];
    }
  }

  /** Provenance: every finding carries the file name and is the text of a
      match of one of the rules, labelled with that rule's category. */
  lemma {:induction false} FindingsProvenance(rules: seq<Rule>, text: string, fileName: string)
    requires ValidRules(rules)
    ensures forall f :: f in Findings(rules, text, fileName) ==>
      exists j :: 0 <= j < |rules| && FoundBy(rules[j], text, fileName, f)
    decreases |rules|
  {
    if rules != [] {
      var init := rules[..|rules| - 1];
      FindingsProvenance(init, text, fileName);
      RuleFindingsFoundBy(rules[|rules| - 1], text, fileName);
      forall f | f in Findings(rules, text, fileName)
        ensures exists j :: 0 <= j < |rules| && FoundBy(rules[j], text, fileName, f)
      {
        if f in Findings(init, text, fileName) {
          var j :| 0 <= j < |init| && FoundBy(init[j], text, fileName, f);
          assert rules[j] == init[j];
        } else {
          assert FoundBy(rules[|rules| - 1], text, fileName, f);
        }
      }
    }
  }

  /** The total number of `findall` matches over the rules. */
  function MatchCount(rules: seq<Rule>, text: string): nat
    requires ValidRules(rules)
  {
    if rules == [] then 0 else |Scan(rules[0].matcher, text)| + MatchCount(rules[1..], text)
  }

  /** No deduplication and no filtering: one finding per match of each
      rule, so overlapping matches of different rules are all kept. */
  lemma {:induction false} FindingsCount(rules: seq<Rule>, text: string, fileName: string)
    requires ValidRules(rules)
    ensures |Findings(rules, text, fileName)| == MatchCount(rules, text)
    decreases |rules|
  {
    if rules != [] {
      FindingsAppend([rules[0]], rules[1..], text, fileName);
      assert [rules[0]] + rules[1..] == rules;
      assert [rules[0]][..0] == [];
      FindingsCount(rules[1..], text, fileName);
    }
  }

  /** An empty text yields no findings. */
  lemma {:induction false} FindingsOfEmptyText(rules: seq<Rule>, fileName: string)
    requires ValidRules(rules)
    ensures Findings(rules, "", fileName) == []
    decreases |rules|
  {
    if rules != [] {
      FindingsOfEmptyText(rules[..|rules| - 1], fileName);
    }
  }

  // ------------------------------------------------------------- GOVT_ID

  /** The shape of a GOVT_ID match: at least eleven characters, leading
      zeros, then an id `AAA[- ]GG[- ]SSSS` whose group is not `00` and
      serial not `0000`; and it never begins with `000`, `666` or `333`. */
  predicate GovtIdShape(v: string) {
    && 11 <= |v|
    && v[..3] != "000" && v[..3] != "666" && v[..3] != "333"
    && (forall i :: 0 <= i < |v| - 11 ==> v[i] == '0')
    && IdGroupsAt(v, |v| - 11)
  }

  /** The id group conditions carry over to a slice that holds the id. */
  lemma IdGroupsAtSlice(text: string, s: nat, e: nat)
    requires s + 11 <= e <= |text| && IdGroupsAt(text, e - 11)
    ensures IdGroupsAt(text[s..e], e - s - 11)
  {
    var v := text[s..e];
    var a := e - 11;
    var b := e - s - 11;
    assert v[b + 4..b + 6] == text[a + 4..a + 6];
    assert v[b + 7..b + 11] == text[a + 7..a + 11];
  }

  /** The lookahead at the start of the match excludes the three areas. */
  lemma NotExcludedPrefix(text: string, s: nat, e: nat)
    requires s + 3 <= e <= |text| && !ExcludedArea(text, s)
    ensures text[s..e][..3] != "000" && text[s..e][..3] != "666" && text[s..e][..3] != "333"
  {
    LitAtSlice(text, s, "000");
    LitAtSlice(text, s, "666");
    LitAtSlice(text, s, "333");
    assert text[s..e][..3] == text[s..s + 3];
  }

  /** Every match of the GOVT_ID pattern has the shape of an id. */
  lemma GovtIdMatchShape(text: string, p: nat)
    requires MatchGovtId(text, p).Some?
    ensures p + MatchGovtId(text, p).value <= |text|
    ensures GovtIdShape(text[p..p + MatchGovtId(text, p).value])
  {
    var e := p + MatchGovtId(text, p).value;
    IdGroupsAtSlice(text, p, e);
    NotExcludedPrefix(text, p, e);
    var v := text[p..e];
    assert forall i :: 0 <= i < |v| - 11 ==> v[i] == text[p + i];
  }

  /** Every value the GOVT_ID rule reports has the shape of an id. */
  lemma GovtIdValues(text: string)
    ensures forall v :: v in FindAll(MatchGovtId, text) ==> GovtIdShape(v)
  {
    forall p | 0 <= p < |text| && MatchGovtId(text, p).Some?
      ensures Fits(text, p, MatchGovtId(text, p)) && GovtIdShape(text[p..p + MatchGovtId(text, p).value])
    {
      GovtIdMatchShape(text, p);
    }
    FindAllValues(MatchGovtId, text, GovtIdShape);
  }

  /** `412-69-1089` is reported whole. */
  lemma GovtIdAccepts()
    ensures FindAll(MatchGovtId, "412-69-1089") == ["412-69-1089"]
  {
    var t := "412-69-1089";
    assert !ExcludedArea(t, 0);
    assert ZeroRun(t, 0) == 0;
    assert IdGroupsAt(t, 0);
    assert MatchGovtId(t, 0) == Some(11);
    assert ScanFrom(MatchGovtId, t, 11) == [];
    assert Scan(MatchGovtId, t) == [Span(0, 11)];
    assert t[0..11] == t;
  }

  /** `000-12-3456` yields nothing: the lookahead rejects it at its start,
      and every later position leaves fewer than eleven characters. */
  lemma GovtIdRejectsZeroArea()
    ensures FindAll(MatchGovtId, "000-12-3456") == []
  {
    var t := "000-12-3456";
    forall p | 0 <= p < |t|
      ensures MatchGovtId(t, p).None?
    {
      if p == 0 {
        assert LitAt(t, 0, "000", false);
      }
    }
    FindAllNoMatch(MatchGovtId, t);
  }
}
