/**
 * Text extraction from an upload (backend/app.py:89-98, repeated at
 * 161-170, and backend/app.py:131-145): the file name's suffix selects how
 * the text is obtained, and a CSV upload is flattened to lines of
 * space-joined fields.
 *
 * Reading the upload, `bytes.decode("utf-8")` and `csv.reader` are library
 * calls; they are parameters here: `decode` yields None where the bytes are
 * not valid UTF-8, and `parse` yields None where the reader raises.
 */
module Extraction {

  import opened Wrappers
  import opened Bytes

  type Decoder = seq<byte> -> Option<string>
  type CsvReader = string -> Option<seq<seq<string>>>

  /** The four supported kinds of upload. */
  datatype FileKind = Txt | Pdf | Docx | Csv

  /** Why no text could be obtained. */
  datatype ExtractError =
    | UnsupportedFileType
    | NotImplemented(message: string)
    | DecodeFailure
    | CsvFailure
  {
    /** The HTTP status of the response: the unsupported-type error is raised
        as a client error; the others escape the handler as server errors. */
    function Status(): int {
      if UnsupportedFileType? then 400 else 500
    }
  }

  /** `str.endswith`: case-sensitive. */
  predicate EndsWith(s: string, suffix: string) {
    |suffix| <= |s| && s[|s| - |suffix|..] == suffix
  }

  /** The suffix that selects each kind. */
  function Suffix(k: FileKind): string {
    match k
    case Txt => ".txt"
    case Pdf => ".pdf"
    case Docx => ".docx"
    case Csv => ".csv"
  }

  /** The if/elif chain over the file name, tried in the order `.txt`,
      `.pdf`, `.docx`, `.csv`. */
  function Classify(fileName: string): (r: Result<FileKind, ExtractError>)
    ensures r.Failure? ==> r.error == UnsupportedFileType
  {
    if EndsWith(fileName, ".txt") then Success(Txt)
    else if EndsWith(fileName, ".pdf") then Success(Pdf)
    else if EndsWith(fileName, ".docx") then Success(Docx)
    else if EndsWith(fileName, ".csv") then Success(Csv)
    else Failure(UnsupportedFileType)
  }

  /** A name ends with at most one of the four suffixes: their last
      characters differ. */
  lemma SuffixesExclusive(fileName: string, j: FileKind, k: FileKind)
    requires EndsWith(fileName, Suffix(j)) && EndsWith(fileName, Suffix(k))
    ensures j == k
  {
    assert fileName[|fileName| - 1] == Suffix(j)[|Suffix(j)| - 1];
    assert fileName[|fileName| - 1] == Suffix(k)[|Suffix(k)| - 1];
  }

  /** The order of the chain does not matter: a name is of kind `k` exactly
      when it ends with `k`'s suffix, and it is refused exactly when it ends
      with none of them. */
  lemma ClassifyBySuffix(fileName: string)
    ensures forall k :: Classify(fileName) == Success(k) <==> EndsWith(fileName, Suffix(k))
    ensures Classify(fileName) == Failure(UnsupportedFileType) <==>
      forall k :: !EndsWith(fileName, Suffix(k))
  {
    forall k | EndsWith(fileName, Suffix(k))
      ensures Classify(fileName) == Success(k)
    {
      forall j | EndsWith(fileName, Suffix(j))
        ensures j == k
      {
        SuffixesExclusive(fileName, j, k);
      }
      assert !EndsWith(fileName, ".txt") || k == Txt by {
        if EndsWith(fileName, ".txt") { assert EndsWith(fileName, Suffix(Txt)); }
      }
      assert !EndsWith(fileName, ".pdf") || k == Pdf by {
        if EndsWith(fileName, ".pdf") { assert EndsWith(fileName, Suffix(Pdf)); }
      }
      assert !EndsWith(fileName, ".docx") || k == Docx by {
        if EndsWith(fileName, ".docx") { assert EndsWith(fileName, Suffix(Docx)); }
      }
    }
    if Classify(fileName) == Failure(UnsupportedFileType) {
      assert forall k :: !EndsWith(fileName, Suffix(k));
    } else {
      assert EndsWith(fileName, Suffix(Classify(fileName).value));
    }
  }

  /** A name ending with the suffix of `k` is of kind `k`. */
  lemma ClassifiedBySuffix(fileName: string, k: FileKind)
    requires EndsWith(fileName, Suffix(k))
    ensures Classify(fileName) == Success(k)
  {
    ClassifyBySuffix(fileName);
  }

  /** The check is case-sensitive: an upper-case suffix is refused. */
  lemma UpperCaseSuffixRefused()
    ensures Classify("notes.TXT") == Failure(UnsupportedFileType)
  {
    assert "notes.TXT"[5..] == ".TXT";
  }

  // ------------------------------------------------------------------ CSV

  /** `sep.join(parts)`. */
  function Join(parts: seq<string>, sep: string): string
    decreases |parts|
  {
    if |parts| == 0 then ""
    else if |parts| == 1 then parts[0]
    else parts[0] + sep + Join(parts[1..], sep)
  }

  /** `s.split(c)`: the pieces between occurrences of `c`; always at least one. */
  function Split(s: string, c: char): (parts: seq<string>)
    ensures |parts| >= 1
    decreases |s|
  {
    if |s| == 0 then [""]
    else if s[0] == c then [""] + Split(s[1..], c)
    else
      var rest := Split(s[1..], c);
      [[s[0]] + rest[0]] + rest[1..]
  }

  /** Splitting a piece without `c` gives the piece back. */
  lemma {:induction false} SplitNoSeparator(s: string, c: char)
    requires c !in s
    ensures Split(s, c) == [s]
    decreases |s|
  {
    if |s| > 0 {
      SplitNoSeparator(s[1..], c);
      assert [s[0]] + s[1..] == s;
    }
  }

  /** Splitting stops at the first separator. */
  lemma {:induction false} SplitAtFirst(a: string, c: char, b: string)
    requires c !in a
    ensures Split(a + [c] + b, c) == [a] + Split(b, c)
    decreases |a|
  {
    if |a| == 0 {
      assert a + [c] + b == [c] + b;
      assert ([c] + b)[1..] == b;
    } else {
      SplitAtFirst(a[1..], c, b);
      assert (a + [c] + b)[1..] == a[1..] + [c] + b;
      assert [a[0]] + a[1..] == a;
    }
  }

  /** Joining with a one-character separator that no part contains is
      undone by splitting on it. */
  lemma {:induction false} SplitJoin(parts: seq<string>, c: char)
    requires |parts| >= 1
    requires forall i :: 0 <= i < |parts| ==> c !in parts[i]
    ensures Split(Join(parts, [c]), c) == parts
    decreases |parts|
  {
    if |parts| == 1 {
      SplitNoSeparator(parts[0], c);
    } else {
      SplitJoin(parts[1..], c);
      SplitAtFirst(parts[0], c, Join(parts[1..], [c]));
      assert [parts[0]] + parts[1..] == parts;
    }
  }

  /** The lines of the flattened text: each row's fields joined by one space. */
  function RowLines(rows: seq<seq<string>>): (lines: seq<string>)
    ensures |lines| == |rows|
  {
    seq(|rows|, i requires 0 <= i < |rows| => Join(rows[i], " "))
  }

  /** What the CSV extractor returns for the parsed rows. */
  function Flatten(rows: seq<seq<string>>): (text: string)
    ensures |rows| == 1 ==> text == Join(rows[0], " ")
    ensures |rows| >= 1 ==> |text| >= |rows| - 1
    ensures |rows| >= 1 ==> multiset(text)['\n'] >= |rows| - 1
  {
    JoinLength(RowLines(rows), "\n");
    JoinSeparatorCount(RowLines(rows), '\n');
    Join(RowLines(rows), "\n")
  }

  /** A join on a one-character separator holds that character at least
      once between each two parts. */
  lemma {:induction false} JoinSeparatorCount(parts: seq<string>, c: char)
    ensures |parts| >= 1 ==> multiset(Join(parts, [c]))[c] >= |parts| - 1
    decreases |parts|
  {
    if |parts| > 1 {
      JoinSeparatorCount(parts[1..], c);
      assert Join(parts, [c]) == parts[0] + [c] + Join(parts[1..], [c]);
    }
  }

  /** A join is at least as long as its separators. */
  lemma {:induction false} JoinLength(parts: seq<string>, sep: string)
    ensures |parts| >= 1 ==> |Join(parts, sep)| >= (|parts| - 1) * |sep|
    decreases |parts|
  {
    if |parts| > 1 {
      JoinLength(parts[1..], sep);
    }
  }

  /** extract_text_from_csv after parsing: one line per row, built in a
      loop, then joined by newlines. */
  method FlattenRows(rows: seq<seq<string>>) returns (text: string)
    ensures text == Flatten(rows)
  {
    var lines: seq<string> := [];
    for i := 0 to |rows|
      invariant lines == RowLines(rows[..i])
    {
      lines := lines + [Join(rows[i], " ")];
    }
    assert rows[..|rows|] == rows;
    text := Join(lines, "\n");
  }

  /** No rows give the empty text. */
  lemma FlattenNoRows()
    ensures Flatten([]) == ""
  {
  }

  /** Flattening loses nothing when no field holds a space or a newline and
      no row is empty: splitting the text into lines, and each line into
      fields, gives back the rows in order. */
  lemma FlattenRoundTrip(rows: seq<seq<string>>)
    requires |rows| >= 1
    requires forall i :: 0 <= i < |rows| ==> |rows[i]| >= 1
    requires forall i, j :: 0 <= i < |rows| && 0 <= j < |rows[i]| ==> ' ' !in rows[i][j] && '\n' !in rows[i][j]
    ensures |Split(Flatten(rows), '\n')| == |rows|
    ensures forall i :: 0 <= i < |rows| ==> Split(Split(Flatten(rows), '\n')[i], ' ') == rows[i]
  {
    var lines := RowLines(rows);
    forall i | 0 <= i < |rows|
      ensures '\n' !in lines[i] && Split(lines[i], ' ') == rows[i]
    {
      JoinAvoids(rows[i], " ", '\n');
      SplitJoin(rows[i], ' ');
    }
    SplitJoin(lines, '\n');
  }

  /** A join holds a character only if a part or the separator does. */
  lemma {:induction false} JoinAvoids(parts: seq<string>, sep: string, c: char)
    requires c !in sep
    requires forall i :: 0 <= i < |parts| ==> c !in parts[i]
    ensures c !in Join(parts, sep)
    decreases |parts|
  {
    if |parts| > 1 {
      JoinAvoids(parts[1..], sep, c);
    }
  }

  // ------------------------------------------------------------ extraction

  /** The text an upload yields, or why it yields none: `.txt` is decoded,
      `.pdf` and `.docx` always raise NotImplementedError, `.csv` is decoded,
      parsed and flattened, anything else is refused. */
  function ExtractText(fileName: string, content: seq<byte>, decode: Decoder, parse: CsvReader): (r: Result<string, ExtractError>)
    ensures r.Success? ==> decode(content).Some? && (Classify(fileName) == Success(Txt) || Classify(fileName) == Success(Csv))
    ensures r == Failure(UnsupportedFileType) <==> Classify(fileName).Failure?
    ensures r == Failure(CsvFailure) ==> Classify(fileName) == Success(Csv)
  {
    match Classify(fileName)
    case Failure(e) => Failure(e)
    case Success(Txt) =>
      (match decode(content)
       case None => Failure(DecodeFailure)
       case Some(text) => Success(text))
    case Success(Pdf) => Failure(NotImplemented("PDF extraction logic not implemented"))
    case Success(Docx) => Failure(NotImplemented("DOCX extraction logic not implemented"))
    case Success(Csv) =>
      (match decode(content)
       case None => Failure(DecodeFailure)
       case Some(text) =>
         (match parse(text)
          case None => Failure(CsvFailure)
          case Some(rows) => Success(Flatten(rows))))
  }

  /** The outcome of each supported kind of upload, whatever the bytes and
      the library functions: a `.txt` name gives the decoded text, a `.pdf`
      or `.docx` name always fails as not implemented, and a `.csv` name
      gives the flattened rows. */
  lemma ExtractOutcomes(fileName: string, content: seq<byte>, decode: Decoder, parse: CsvReader)
    ensures EndsWith(fileName, ".txt") ==>
      ExtractText(fileName, content, decode, parse) ==
        (if decode(content).Some? then Success(decode(content).value) else Failure(DecodeFailure))
    ensures EndsWith(fileName, ".pdf") ==>
      ExtractText(fileName, content, decode, parse) == Failure(NotImplemented("PDF extraction logic not implemented"))
    ensures EndsWith(fileName, ".docx") ==>
      ExtractText(fileName, content, decode, parse) == Failure(NotImplemented("DOCX extraction logic not implemented"))
    ensures EndsWith(fileName, ".csv") && decode(content).Some? && parse(decode(content).value).Some? ==>
      ExtractText(fileName, content, decode, parse) == Success(Flatten(parse(decode(content).value).value))
  {
    if EndsWith(fileName, ".pdf") {
      ClassifiedBySuffix(fileName, Pdf);
    } else if EndsWith(fileName, ".docx") {
      ClassifiedBySuffix(fileName, Docx);
    } else if EndsWith(fileName, ".csv") {
      ClassifiedBySuffix(fileName, Csv);
    }
  }

  /** Text comes only from `.txt` and `.csv` names, and an upload fails with
      status 400 exactly when its name ends with none of the four suffixes
      (an upper-case suffix included). */
  lemma ExtractRefusals(fileName: string, content: seq<byte>, decode: Decoder, parse: CsvReader)
    ensures ExtractText(fileName, content, decode, parse).Success? ==>
      EndsWith(fileName, ".txt") || EndsWith(fileName, ".csv")
    ensures ExtractText(fileName, content, decode, parse).Failure? &&
            ExtractText(fileName, content, decode, parse).error.Status() == 400 <==>
      !EndsWith(fileName, ".txt") && !EndsWith(fileName, ".pdf") &&
      !EndsWith(fileName, ".docx") && !EndsWith(fileName, ".csv")
  {
    ClassifyBySuffix(fileName);
    var c := Classify(fileName);
    if c.Success? {
      assert EndsWith(fileName, Suffix(c.value));
    } else {
      assert forall k :: !EndsWith(fileName, Suffix(k));
      assert !EndsWith(fileName, Suffix(Txt)) && !EndsWith(fileName, Suffix(Pdf));
      assert !EndsWith(fileName, Suffix(Docx)) && !EndsWith(fileName, Suffix(Csv));
    }
  }
}
