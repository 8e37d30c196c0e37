/**
 * The conversion of analyzer results into `PiiData` records in the scanML
 * handler (backend/app.py:107-121; the record type at backend/app.py:78-82).
 * The analyzer itself is not modelled: its results are an input, each an
 * entity type and a span of the analysed text.
 */
module Normalise {

  /** One analyzer result: the entity type and `text[start..end]`. */
  datatype AnalyzerResult = AnalyzerResult(entityType: string, start: nat, end: nat)

  /** The scanML response record. */
  datatype PiiData = PiiData(id: string, fileName: string, piiType: string, piiValue: string)

  /** Every span lies inside the analysed text. */
  predicate SpansInside(results: seq<AnalyzerResult>, text: string) {
    forall i :: 0 <= i < |results| ==> results[i].start <= results[i].end <= |text|
  }

  // ------------------------------------------------------ decimal strings

  function DigitChar(d: nat): char
    requires d < 10
  {
    ('0' as int + d) as char
  }

  /** `str(n)` for a natural number: its decimal digits, without leading
      zeros, and "0" for zero. */
  function NatToString(n: nat): (s: string)
    ensures 1 <= |s|
    ensures forall i :: 0 <= i < |s| ==> '0' <= s[i] <= '9'
    ensures |s| > 1 ==> s[0] != '0'
    decreases n
  {
    if n < 10 then [DigitChar(n)]
    else NatToString(n / 10) + [DigitChar(n % 10)]
  }

  /** The value of a string of decimal digits. */
  function DecimalValue(s: string): nat
    requires forall i :: 0 <= i < |s| ==> '0' <= s[i] <= '9'
    decreases |s|
  {
    if |s| == 0 then 0
    else 10 * DecimalValue(s[..|s| - 1]) + (s[|s| - 1] as int - '0' as int)
  }

  /** Reading the decimal string back gives the number. */
  lemma {:induction false} DecimalRoundTrip(n: nat)
    ensures DecimalValue(NatToString(n)) == n
    decreases n
  {
    if n >= 10 {
      DecimalRoundTrip(n / 10);
      var s := NatToString(n);
      assert s[..|s| - 1] == NatToString(n / 10);
    }
  }

  /** Distinct numbers have distinct decimal strings. */
  lemma NatToStringInjective(a: nat, b: nat)
    ensures NatToString(a) == NatToString(b) <==> a == b
  {
    if NatToString(a) == NatToString(b) {
      DecimalRoundTrip(a);
      DecimalRoundTrip(b);
    }
  }

  // ---------------------------------------------------------- conversion

  /** The record made from one analyzer result: the id is the decimal start
      offset, the value the text of the span. */
  function ToPiiData(text: string, fileName: string, r: AnalyzerResult): (d: PiiData)
    requires r.start <= r.end <= |text|
    ensures forall i :: 0 <= i < |d.id| ==> '0' <= d.id[i] <= '9'
    ensures DecimalValue(d.id) == r.start
    ensures |d.piiValue| == r.end - r.start
    ensures forall i :: 0 <= i < |d.piiValue| ==> d.piiValue[i] == text[r.start + i]
  {
    DecimalRoundTrip(r.start);
    PiiData(NatToString(r.start), fileName, r.entityType, text[r.start..r.end])
  }

  /** The records made from all results, in order. */
  function Normalised(text: string, fileName: string, results: seq<AnalyzerResult>): (data: seq<PiiData>)
    requires SpansInside(results, text)
    ensures |data| == |results|
  {
    seq(|results|, i requires 0 <= i < |results| => ToPiiData(text, fileName, results[i]))
  }

  /** The scanML loop: no results give no records; otherwise one record is
      appended per result. */
  method NormaliseResults(text: string, fileName: string, results: seq<AnalyzerResult>) returns (piiDataList: seq<PiiData>)
    requires SpansInside(results, text)
    ensures piiDataList == Normalised(text, fileName, results)
  {
    if |results| == 0 {
      return [];
    }
    piiDataList := [];
    for i := 0 to |results|
      invariant piiDataList == Normalised(text, fileName, results[..i])
    {
      var r := results[i];
      piiDataList := piiDataList + [PiiData(NatToString(r.start), fileName, r.entityType, text[r.start..r.end])];
    }
    assert results[..|results|] == results;
  }

  /** One record per result, in the same order, carrying the file name, the
      entity type, the text of the span and the start offset as its id. */
  lemma NormalisedRecords(text: string, fileName: string, results: seq<AnalyzerResult>, i: nat)
    requires SpansInside(results, text) && i < |results|
    ensures var d := Normalised(text, fileName, results)[i];
      && d.fileName == fileName
      && d.piiType == results[i].entityType
      && d.piiValue == text[results[i].start..results[i].end]
      && |d.piiValue| == results[i].end - results[i].start
      && DecimalValue(d.id) == results[i].start
  {
    DecimalRoundTrip(results[i].start);
  }

  /** Two records share an id exactly when their spans share a start offset,
      whatever their types and ends. */
  lemma IdsCollideIffSameStart(text: string, fileName: string, results: seq<AnalyzerResult>, i: nat, j: nat)
    requires SpansInside(results, text) && i < |results| && j < |results|
    ensures Normalised(text, fileName, results)[i].id == Normalised(text, fileName, results)[j].id
      <==> results[i].start == results[j].start
  {
    NatToStringInjective(results[i].start, results[j].start);
  }
}
