/**
 * The two scanning handlers as far as they compute (backend/app.py:86-127
 * and backend/app.py:156-183): extract the text, then detect with the
 * rulebase (scanFile) or turn the analyzer's results into records (scanML).
 * Storing the findings and reading them back are not modelled.
 */
module Pipeline {

  import opened Wrappers
  import opened Bytes
  import opened Scanner
  import opened Extraction
  import opened Normalise

  /** The analyzer, as a function of the text; its spans lie inside it. */
  type Analyzer = string -> seq<AnalyzerResult>

  ghost predicate AnalyzerSpansInside(analyze: Analyzer) {
    forall text :: SpansInside(analyze(text), text)
  }

  /** scan_file up to the store: the findings of the rulebase in the
      extracted text, or, when extraction fails, that error. */
  method ScanFile(fileName: string, content: seq<byte>, decode: Decoder, parse: CsvReader)
    returns (r: Result<seq<Finding>, ExtractError>)
    ensures ValidRules(Rulebase[0].0)
    ensures ExtractText(fileName, content, decode, parse).Failure? ==>
      r == Failure(ExtractText(fileName, content, decode, parse).error)
    ensures ExtractText(fileName, content, decode, parse).Success? ==>
      r == Success(Findings(Rulebase[0].0, ExtractText(fileName, content, decode, parse).value, fileName))
  {
    RulebaseValid();
    match ExtractText(fileName, content, decode, parse)
    case Failure(e) =>
      r := Failure(e);
    case Success(text) =>
      var piiData := FindPii(text, fileName);
      r := Success(piiData);
  }

  /** scan_pii up to the store: the records made from the analyzer's results
      for the extracted text, or the extraction error (the analyzer is not
      called then). */
  method ScanMl(fileName: string, content: seq<byte>, decode: Decoder, parse: CsvReader, analyze: Analyzer)
    returns (r: Result<seq<PiiData>, ExtractError>)
    requires AnalyzerSpansInside(analyze)
    ensures ExtractText(fileName, content, decode, parse).Failure? ==>
      r == Failure(ExtractText(fileName, content, decode, parse).error)
    ensures ExtractText(fileName, content, decode, parse).Success? ==>
      var text := ExtractText(fileName, content, decode, parse).value;
      r == Success(Normalised(text, fileName, analyze(text)))
  {
    match ExtractText(fileName, content, decode, parse)
    case Failure(e) =>
      r := Failure(e);
    case Success(text) =>
      var results := analyze(text);
      var piiDataList := NormaliseResults(text, fileName, results);
      r := Success(piiDataList);
  }
}
