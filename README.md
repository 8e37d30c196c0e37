# PII scanner backend — a Dafny model of its detection pipeline

The backend accepts an uploaded file and returns the personal data (PII)
found in it. It has two scanning endpoints:

- `/scanFile` obtains the text of the upload from the file name's suffix.
  It then runs a fixed rulebase of eight regular expressions over the text
  (`find_pii`). Each match becomes a finding `{file_name, pii_type,
  pii_value}`. The findings are stored, read back and rewritten with
  `serialize_mongo_record`, which moves the store's `_id` to `id`.
- `/scanML` obtains the text the same way, then hands it to an external
  entity analyzer. It turns each result span into a `PiiData` record whose
  `id` is the decimal start offset.

The model covers the deterministic part of both paths:

- the rulebase and `find_pii`: one matcher per rule, and `re.findall` as a
  leftmost, non-overlapping scan;
- the suffix dispatch, the CSV flattening and the two extractors that always
  raise;
- the conversion of analyzer spans into records;
- the in-place rewriting of stored records.

Modules, one per file:

| module | file | contents |
|---|---|---|
| `Wrappers` | wrappers.dfy | `Option`, `Result` |
| `Bytes` | bytes.dfy | bytes and the hexadecimal spelling of an ObjectId |
| `Text` | text.dfy | ASCII character classes, literal matching with and without case folding, leftmost-first alternation of literals |
| `Matchers` | matchers.dfy | the eight patterns as matchers `(text, p) -> Option<length>` |
| `RuleExamples` | rule_examples.dfy | what the patterns match on sample inputs |
| `EndToEnd` | end_to_end.dfy | what `findall` and `find_pii` return on a whole sentence, and what the AGE rule finds in a flattened CSV upload |
| `Scanner` | scanner.dfy | the rulebase, `findall`, `find_pii`, and the GOVT_ID properties |
| `Extraction` | extraction.dfy | suffix dispatch, CSV flattening, extraction errors and their status codes |
| `Normalise` | normalise.dfy | analyzer results to `PiiData`, decimal ids |
| `Records` | records.dfy | stored records as objects whose field map the helpers rewrite in place |
| `Pipeline` | pipeline.dfy | the two handlers up to the store |

A matcher returns the length of the match Python's `re` finds when it tries
the pattern at position `p`. It follows the engine's rules: alternatives
are tried left to right, and repetitions are greedy and give characters
back one at a time (`Matchers.LastWhere`). Optional characters are taken
whenever present; each matcher's comment says why leaving one out could
never let the rest of the pattern match.

The imperative parts of `find_pii`, the CSV extractor and the scanML loop
are methods with loops (`Scanner.ScanRules`, `Extraction.FlattenRows`,
`Normalise.NormaliseResults`). Each is proved equal to a function of its
inputs, and the properties are proved about that function. The two record
helpers mutate a dictionary in place, so they are methods of the class
`Records.Record`, which reassign its `fields` map.

## Model

| member | source | states |
|---|---|---|
| Text.FirstLitAt | backend/app.py:56-57 | Leftmost-first alternation of literals: a match exists iff some alternative occurs at `p`, and its length is that of an alternative that occurs there |
| Text.FirstLitAtIsFirst | backend/app.py:56 | The alternative chosen is the first one written that occurs, whatever later ones would match |
| Matchers.LastWhere | backend/app.py:53 | Backtracking out of a greedy bounded repetition: the largest end at which the rest matches, and no larger end in range works; None iff no end in range works |
| Matchers.NonSpaceThen | backend/app.py:51 | `\S+` then a suffix: the match is a run of non-space characters ending right before the suffix, and no later end inside the run is followed by the suffix; None iff no end in the run is |
| Matchers.MatchAge | backend/app.py:51 | AGE: a match is that of the first of the four suffixes, in order, for which `\S+suffix` matches; None iff none does |
| Matchers.StreetWordsBacktrack | backend/app.py:53 | `[\w\s]{1,20}` gives back characters until a space and a street type follow; the end chosen is the largest such |
| Matchers.HouseNumberBacktrack | backend/app.py:53 | `\d{1,4}` gives back digits until the rest of the street pattern matches; the end chosen is the largest such |
| Matchers.StreetWordsAt | backend/app.py:53 | The words part ends at a space followed by a street type that occurs there, at the largest end within `{1,20}` where one does; None iff no end in range is followed by a street type |
| Matchers.MatchStreet | backend/app.py:52-53 | STREET_ADDRESS: a match is nonempty, inside the text and starts with a digit |
| Matchers.MatchPoBox | backend/app.py:54 | PO box: a match starts with `p` or `P`, ends with a digit, and takes the whole run of digits |
| Matchers.PoBoxWithBounds | backend/app.py:54 | Where the pattern matches, the text starts with `p` or `P` and a digit follows ` box ` |
| Matchers.PoBoxChoicesForced | backend/app.py:54 | Leaving out an optional dot or space that is present never lets the pattern match: the only choice that can match takes each one that is there |
| Matchers.PoBoxMatchEnd | backend/app.py:54 | Whenever some choice of the optional dots and space puts `p`, `o` and ` box ` (any case) in place with digits after them, the match ends after the whole run of those digits |
| Matchers.PoBoxNoMatch | backend/app.py:54 | There is no match iff no choice of the optional dots and space makes the pattern match |
| Matchers.ZerosBacktrack | backend/app.py:55 | `0*` gives back zeros until the eleven-character id follows; the start chosen is the largest such |
| Matchers.MatchGovtId | backend/app.py:55 | GOVT_ID: a match exists iff the lookahead passes and the id follows some prefix of the run of zeros; it ends with the id, everything before it is a zero, and no later start in the run has an id |
| Matchers.MatchDisease | backend/app.py:56 | DISEASE: a match exists iff one of the seven terms occurs at `p`, ignoring case; its length is that of a term that occurs |
| Matchers.MatchNorp | backend/app.py:57 | NORP: a match exists iff one of the four class phrases occurs at `p`, ignoring case; its length is that of a phrase that occurs |
| Matchers.DayLen | backend/app.py:59 | `[0-3]?\d`: the day takes one or two characters, ending with a digit; it is present iff a digit stands there, and takes two iff a digit from 0 to 3 is followed by a digit |
| Matchers.MonthDayAt | backend/app.py:59 | A month-day date starts with one of the month spellings |
| Matchers.MatchBirthDate | backend/app.py:58-59 | BIRTH_DEATH_DATE: a match is inside the text and starts either with `born ` (any case) or with a digit, so a date in words is found only after `born ` |
| Matchers.CountryBacktrack | backend/app.py:60 | The country code's `\d{1,3}` gives back digits until the rest of the phone pattern matches; the end chosen is the largest such |
| Matchers.MatchPhone | backend/app.py:60 | PHONE: a match has at least seven characters, is not preceded by a digit or `-`, and ends with four digits |
| RuleExamples.AgeYearsOld | backend/app.py:51 | `35 years old` is matched whole |
| RuleExamples.StreetBacktracking | backend/app.py:53 | In `12 Elm st` the words run first takes `Elm st`, then gives back to the space before `st` |
| RuleExamples.StreetWithType | backend/app.py:52-53 | `12 Elm st` is matched whole |
| RuleExamples.PoBoxWithDots | backend/app.py:54 | `P.O. Box 12` is matched whole, dots included |
| RuleExamples.DiseaseTakesFirstAlternative | backend/app.py:56 | In `Alzheimer's` the alternative `Alzheimer's`, written before `Alzheimer`, is the one taken |
| RuleExamples.NorpIgnoresCase | backend/app.py:57 | `Middle Class`, capitalised, is matched whole |
| RuleExamples.NumericDate | backend/app.py:59 | `01/02/1990` is matched whole |
| Scanner.ScanFrom | backend/app.py:68 | `findall` spans: each is a match of the pattern at its start with the match's length, they lie inside the text, and each starts at or after the end of the one before |
| Scanner.FindAll | backend/app.py:68 | `findall` returns one string per span |
| Scanner.ScanFromSkip | backend/app.py:68 | Positions where the pattern does not match are passed over: with no match anywhere in `[p, q)`, the scan from `p` is the scan from `q` |
| Scanner.FindAllSingle | backend/app.py:68 | A pattern that matches at one position only, or only inside the one match found there, yields exactly that match |
| Scanner.RulebaseLabels | backend/app.py:50-61 | The rulebase is one pair of eight rules and the count 1; the rules carry the labels AGE, STREET_ADDRESS twice, GOVT_ID, DISEASE, NORP, BIRTH_DEATH_DATE and PHONE, in that order |
| Scanner.Findings | backend/app.py:65-71 | Every finding carries the file name and the label of one of the rules |
| Scanner.RuleFindings | backend/app.py:69-70 | One finding per match of the rule |
| Scanner.ScanFromCovers | backend/app.py:68 | Nothing is skipped: every position at which the pattern matches lies inside some reported span |
| Scanner.ScanCovers | backend/app.py:68 | Every position at which the pattern matches is covered by a span of `findall` |
| Scanner.FindAllValues | backend/app.py:68 | A property of every match holds of every string `findall` returns |
| Scanner.ScanFromNoMatch | backend/app.py:68 | Where the pattern matches at no position from `p` on, the scan from `p` reports nothing |
| Scanner.FindAllNoMatch | backend/app.py:68 | Where the pattern matches nowhere, `findall` returns nothing |
| Scanner.ScanRules | backend/app.py:64-71 | The nested loop of `find_pii` yields, for each rule in order, one finding per match |
| Scanner.RulebaseValid | backend/app.py:50-61 | Every pattern of the rulebase yields only nonempty matches inside the text |
| Scanner.FindPii | backend/app.py:64-71 | `find_pii` scans the rules of `rulebase[0][0]` in their declared order |
| Scanner.FindingsAppend | backend/app.py:67-70 | The findings of two rule lists in sequence are the findings of the first followed by those of the second |
| Scanner.FindingsRuleMajor | backend/app.py:67-70 | Rule-major order: the findings of rule `j` form one contiguous block, in match order, after the findings of all rules before it |
| Scanner.RuleFindingsFoundBy | backend/app.py:69-70 | Each finding of a rule carries the file name and the rule's label, and its value is the text of a match of the rule |
| Scanner.FindingsProvenance | backend/app.py:67-70 | Every finding carries the file name, and its value is the text of a match of some rule, labelled with that rule's category |
| Scanner.FindingsCount | backend/app.py:65-71 | No deduplication: the number of findings is the sum of the rules' match counts |
| Scanner.FindingsOfEmptyText | backend/app.py:65-71 | An empty text yields no findings |
| Scanner.GovtIdMatchShape | backend/app.py:55 | Every GOVT_ID match is zeros followed by `AAA[- ]GG[- ]SSSS` with the group not `00` and the serial not `0000`, and does not begin with `000`, `666` or `333` |
| Scanner.GovtIdValues | backend/app.py:55 | Every value the GOVT_ID rule reports has that shape |
| Scanner.GovtIdAccepts | backend/app.py:55 | `412-69-1089` is reported whole |
| Scanner.GovtIdRejectsZeroArea | backend/app.py:55 | Nothing is reported in `000-12-3456` |
| Extraction.Classify | backend/app.py:89-98 | The if/elif chain fails only with the unsupported-type error |
| Extraction.SuffixesExclusive | backend/app.py:89-98 | A name ends with at most one of the four suffixes |
| Extraction.ClassifyBySuffix | backend/app.py:89-98 | The order of the chain does not matter: a name is of a kind iff it ends with that kind's suffix, and it is refused iff it ends with none |
| Extraction.ClassifiedBySuffix | backend/app.py:161-170 | A name ending with a kind's suffix is of that kind |
| Extraction.UpperCaseSuffixRefused | backend/app.py:89 | The suffix test is case-sensitive: `notes.TXT` is refused |
| Extraction.RowLines | backend/app.py:135-136 | One line per row |
| Extraction.Flatten | backend/app.py:136-137 | A single row gives its fields joined by spaces (so no newline unless a field holds one); `n` rows give a text at least `n - 1` characters long that holds at least `n - 1` newlines |
| Extraction.JoinLength | backend/app.py:137 | A join of `n` parts is at least as long as its `n - 1` separators |
| Extraction.JoinSeparatorCount | backend/app.py:137 | A join of `n` parts on a one-character separator holds that character at least `n - 1` times |
| Extraction.FlattenRows | backend/app.py:131-137 | The CSV loop and join produce the rows' fields joined by one space, rows joined by newlines |
| Extraction.FlattenNoRows | backend/app.py:134-137 | No rows give the empty text |
| Extraction.SplitNoSeparator | backend/app.py:137 | Splitting a piece that lacks the separator gives the piece back |
| Extraction.SplitAtFirst | backend/app.py:137 | Splitting stops at the first separator |
| Extraction.SplitJoin | backend/app.py:136-137 | Joining with a one-character separator that no part contains is undone by splitting on it |
| Extraction.JoinAvoids | backend/app.py:136-137 | A join contains a character only if a part or the separator does |
| Extraction.FlattenRoundTrip | backend/app.py:131-137 | When no field holds a space or newline and no row is empty, splitting the text into lines and each line into fields gives back the rows, in order (so there is no trailing newline) |
| Extraction.ExtractText | backend/app.py:89-98 | Text is obtained only from a decodable upload named `.txt` or `.csv`; the unsupported-type error is returned iff the name has none of the four suffixes; the CSV error comes only from a `.csv` name |
| Extraction.ExtractOutcomes | backend/app.py:89-98 | `.txt` gives the decoded text or a decode error; `.pdf` and `.docx` always fail with their not-implemented messages; `.csv` gives the flattened rows |
| Extraction.ExtractRefusals | backend/app.py:89-98 | Text comes only from `.txt` and `.csv` names, and a request fails with status 400 iff the name ends with none of the four suffixes |
| Bytes.Hex | backend/app.py:46 | The spelling of an ObjectId has two hexadecimal digits per byte |
| Bytes.UnhexHex | backend/app.py:46 | The hexadecimal spelling loses nothing: reading it back gives the bytes |
| Bytes.HexInjective | backend/app.py:46 | Two byte strings have the same spelling iff they are equal |
| Normalise.NatToString | backend/app.py:116 | `str(start)` is a nonempty string of decimal digits without a leading zero |
| Normalise.DecimalRoundTrip | backend/app.py:116 | Reading the decimal string back gives the number |
| Normalise.NatToStringInjective | backend/app.py:116 | Two offsets have the same string iff they are equal |
| Normalise.ToPiiData | backend/app.py:115-120 | One record: its id is a string of decimal digits whose value is the span's start, and its value is the text of the span, character for character |
| Normalise.Normalised | backend/app.py:114-121 | One record per analyzer result |
| Normalise.NormaliseResults | backend/app.py:107-121 | The scanML loop, early return included, produces exactly the records of `Normalised` |
| Normalise.NormalisedRecords | backend/app.py:114-121 | Record `i` carries the file name, result `i`'s entity type, the text of its span, and an id whose decimal value is its start |
| Normalise.IdsCollideIffSameStart | backend/app.py:116 | Two records share an id iff their spans share a start offset |
| Records.ToStrObjectIds | backend/app.py:151 | `str` keeps ObjectIds apart, and an ObjectId's string has twice as many characters as it has bytes |
| Records.Record.SerializeMongoRecord | backend/app.py:149-153 | The record is rewritten in place and returned; its new fields are `Serialized` of the old ones |
| Records.Record.ObjectIdToStr | backend/app.py:44-47 | The record is rewritten in place and returned; its new fields are `IdAsString` of the old ones |
| Records.Serialized | backend/app.py:149-153 | Afterwards there is no `_id`; with `_id` present, the keys are the old ones with `_id` swapped for `id` |
| Records.IdAsString | backend/app.py:44-47 | The keys are kept, and `_id`, if present, no longer holds an ObjectId |
| Records.SerializedMovesId | backend/app.py:150-152 | With `_id` present: afterwards there is no `_id`, `id` holds the string of the old `_id`, the keys are the old ones with `_id` swapped for `id`, and every other key keeps its value |
| Records.SerializedWithoutId | backend/app.py:150 | Without `_id` the record is untouched |
| Records.SerializedIdempotent | backend/app.py:149-153 | Serializing twice is serializing once |
| Records.IdAsStringFacts | backend/app.py:44-47 | The keys are kept, `_id` holds its string, no other key changes, and a second call changes nothing |
| Records.SerializedAfterIdAsString | backend/app.py:149-153 | Converting `_id` to a string first does not change what `serialize_mongo_record` produces |
| EndToEnd.SentenceAge | backend/app.py:51 | In `John is 34 years old and lives at 123 Main St.` the AGE rule finds exactly `34 years old` |
| EndToEnd.AgeInSentenceLayout | backend/app.py:51 | Any text shaped like that sentence (no `y` before the age, a space before it, `nn years old` at 8, no `y` after) yields exactly the age |
| EndToEnd.AgeNeedsYear | backend/app.py:51 | Every AGE match needs a `y`, after a run of non-whitespace, with room for the rest of a suffix after it |
| EndToEnd.AgeYearsOldAt | backend/app.py:51 | A run of `n` non-whitespace characters followed by ` years old` is one AGE match of `n + 10` characters |
| EndToEnd.SentenceStreet | backend/app.py:53 | In the same sentence the STREET_ADDRESS rule (house number form) finds exactly `123 Main St` |
| EndToEnd.StreetInSentenceLayout | backend/app.py:53 | Any text shaped like that sentence yields exactly the address: the digits of `34` reach no street type, and `123 Main St` is matched whole |
| EndToEnd.StreetAtHouseNumber | backend/app.py:53 | In the sentence's layout, `123 Main St` followed by `.` is one STREET_ADDRESS match of eleven characters: the house number keeps its three digits and the words give back to the space before `St` |
| EndToEnd.StreetScanSingle | backend/app.py:68 | A STREET_ADDRESS scan with no match before 34, an eleven-character match at 34 and a non-digit last character returns exactly that match |
| EndToEnd.LitNowhereChar | backend/app.py:56-57 | A literal matched ignoring case, holding a character that nothing in the text folds to, occurs at no position |
| EndToEnd.LitNowhere | backend/app.py:56-57 | A literal matched ignoring case, whose characters `i` and `j` never stand `j - i` apart in the folded text, occurs at no position |
| EndToEnd.PoBoxNowhere | backend/app.py:54 | In a text with no `p` in either case the PO box rule matches at no position |
| EndToEnd.IdSerialDigits | backend/app.py:55 | The four-digit serial of an id has digits three places apart |
| EndToEnd.GovtIdNowhere | backend/app.py:55 | In a text where no two digits stand three apart GOVT_ID matches at no position |
| EndToEnd.DiseaseNowhere | backend/app.py:56 | In a text with no `b`, `c` or `z` in either case and no `hi`, `id` or `he` ignoring case, DISEASE matches at no position |
| EndToEnd.NorpNowhere | backend/app.py:57 | In a text with no `c` in either case NORP matches at no position: every phrase ends in `class` |
| EndToEnd.NumericDateStart | backend/app.py:59 | A numeric date starts with a digit and has `-`, `.` or `/` one or two places after it |
| EndToEnd.BirthDateNowhere | backend/app.py:58-59 | In a text with no `b` in either case, where every digit is followed by two characters that are not `-`, `.` or `/`, BIRTH_DEATH_DATE matches at no position |
| EndToEnd.PhoneLastDigits | backend/app.py:60 | A PHONE match ends in digits, among them two three places apart |
| EndToEnd.PhoneNowhere | backend/app.py:60 | In a text where no two digits stand three apart PHONE matches at no position |
| EndToEnd.SentenceOthersNone | backend/app.py:54-60 | In the sentence the PO box, GOVT_ID, DISEASE, NORP, BIRTH_DEATH_DATE and PHONE rules find nothing |
| EndToEnd.FindingsNoMatches | backend/app.py:67-70 | Rules that find nothing contribute no findings |
| EndToEnd.RuleFindingsSingle | backend/app.py:68-70 | A rule that finds one value contributes exactly one finding: the file name, the rule's label and that value |
| EndToEnd.FindingsOfPair | backend/app.py:67-70 | Two rules that find one value each give exactly two findings, the first rule's first |
| EndToEnd.FindingsTwoThenNone | backend/app.py:67-70 | Two rules finding one value each, followed by rules finding nothing, give exactly those two findings in rule order |
| EndToEnd.RulebaseMatchers | backend/app.py:50-61 | The rulebase holds eight rules whose patterns are, in order, AGE, the two STREET_ADDRESS forms, GOVT_ID, DISEASE, NORP, BIRTH_DEATH_DATE and PHONE |
| EndToEnd.RulebaseTwoFindings | backend/app.py:64-71 | `find_pii` on any text where AGE and the house number form of STREET_ADDRESS find one value each, and the other six rules nothing, returns exactly an AGE finding and then a STREET_ADDRESS finding |
| EndToEnd.SentenceFindings | backend/app.py:64-71 | `find_pii` on `John is 34 years old and lives at 123 Main St.` returns exactly two findings: `AGE` with `34 years old`, then `STREET_ADDRESS` with `123 Main St`, both with the given file name |
| EndToEnd.CsvSampleFlatten | backend/app.py:131-137 | The rows `a,b,c` and `34 years old,x,y` flatten to `a b c`, a newline, and `34 years old x y` |
| EndToEnd.CsvAge | backend/app.py:131-137 | In that flattened CSV upload the AGE rule finds exactly `34 years old`: the newline between the rows ends the run of non-whitespace |
| Pipeline.ScanFile | backend/app.py:156-183 | `/scanFile` up to the store: an extraction error is returned unchanged, so the result is that error; otherwise the result is the rulebase findings of the extracted text |
| Pipeline.ScanMl | backend/app.py:84-128 | `/scanML` up to the store: an extraction error is returned unchanged; otherwise the result is the records of the analyzer's results for the extracted text |

## Left out

- The FastAPI application, CORS middleware, logging and server start-up are framework plumbing.
- The MongoDB store is left out: inserting, finding, listing up to 1000 records, and deleting. The two handlers are modelled up to the point where they store their results. The store assigns `_id`, and `find` with `$in` does not promise order, so the order of the findings need not survive into the `/scanFile` response.
- `/retrieveAll` and the two delete endpoints depend only on store results. In `/delete/`, the 400 and 404 errors raised inside the `try` are caught by the generic handler and re-raised as 500.
- The entity analyzer is an external machine-learning library. Its results are an input (`Pipeline.Analyzer`), required only to give spans inside the text.
- `bytes.decode("utf-8")` and `csv.reader` are library calls. They are parameters (`Extraction.Decoder`, `Extraction.CsvReader`) that return None where the library would raise. CSV quoting and dialects are not modelled; flattening starts from the parsed rows.
- Reading the upload is left out; its bytes are an input.
- Unicode is left out. `\d`, `\w` and `\s` are their ASCII versions, with `\s` also covering the separators 0x1C-0x1F that Python counts as whitespace. `re.IGNORECASE` is ASCII lower-casing.
- The regular-expression engine is not modelled in general. Each pattern has a hand-written matcher that follows the engine's order of trying alternatives and repetitions. The cost of backtracking is not modelled.
- The client script under testing/ sends files over HTTP to an endpoint the backend does not define, so it is left out.
- Matchers.MatchStreet: the contract states only that a match is nonempty, inside the text and starts with a digit. The full structure is in the backtracking functions it calls. Because `park` is written before `parkway`, the street type `parkway` is only ever matched as `park`; no lemma states this.
- Matchers.MatchBirthDate: the contract states only where a match can start. Because `jan` is written before `january` and nothing after the month is required, `born 5 January` is matched as `born 5 Jan`; no lemma states this.
- Matchers.MatchPhone: the contract states the length, the preceding character and the last four digits, not the full structure of the match.
- Matchers.MonthDayAt: states only that the date starts with a month spelling, not which spelling is taken.
- `Pipeline.ScanFile` returns the findings, not the stored records: `serialize_mongo_record` on the records read back is modelled on its own in `Records`.
