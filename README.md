# DDOT file parsing, modelled in Dafny

A DDOT file is the fixed-width text format in which site data is submitted to
the monitoring-location ingester. Its first line is a header. Every later
line holds a 20-character site key, made of a 5-character agency code and a
15-character site number, then a space at index 20, then a run of component
tokens. Each token is `CODE=VALUE*` or `CODE#VALUE$`, optionally followed by
whitespace.

`parse` turns such a file into one record per site-table transaction. It
does this in stages:

1. It splits the text into lines on `\r\n` or `\n` and drops the header and
   one trailing empty line.
2. It validates the line lengths and the separator at index 20.
3. It groups consecutive lines with the same site key into transactions. An
   `R=` token at the start of a payload opens a new transaction.
4. It refuses more than 30000 transactions.
5. It tokenises each transaction's payload into key/value pairs.
6. It checks the pairs: a station name given only once, exactly one `T`
   component, and only known component codes.
7. It translates the codes to attribute names.
8. It adds the agency code and site number and checks that the transaction
   type is `A` or `M`.
9. It cleans up a few values: it strips the quotes around a station name,
   signs latitude and longitude, zero-pads the longitude and turns web-ready
   code `C` into `Y`.
10. It keeps only the site-table records (`databaseTableIdentifier` `0`) and
    refuses two of them for the same site.

The modules follow those stages:

- `Wrappers`: Option and Result, and `Collect`, which takes every value or the first failure.
- `Text`: Python slicing and `join`.
- `Errors`: one constructor per failure the pipeline reports.
- `CodeTable`: the code-to-attribute table.
- `Lines`: `get_lines`, `validate_lines`.
- `Transactions`: `get_transactions`.
- `Tokens`: `parse_key_value_pairs`.
- `Semantics`: the per-pair checks, the translation and the value clean-ups.
- `Pipeline`: `parse`.

Where the source works by updating variables in a loop, the model is a method
with the same loop. Each such method is proved equal to a specification
function:

- `ReadDataLines`
- `ValidateLines`
- `GetTransactions`
- `ParseKeyValuePairs`
- `HasDuplicateStationNameKeys`
- `Normalise`
- `ParseTransaction`
- `ParseTransactions`
- `Parse`

What the source promises is then proved about those functions as lemmas.

## Model

| member | source | states |
|---|---|---|
| CodeTable.StationNameCodes | ddot_utils.py:4-57 | exactly the codes `900` and `12` name the station name |
| CodeTable.FirstStationNameCodes | ddot_utils.py:4-57 | within the first part of the table the station-name codes are `900` and `12` |
| CodeTable.LaterCodesNoStationName | ddot_utils.py:4-57 | no code in the rest of the table names the station name, nor is `900` or `12` |
| Lines.SplitLines | ddot_utils.py:82 | splitting gives at least one piece, no piece holds a line feed, and there is a single piece exactly when the text has no line feed |
| Lines.SplitJoin | ddot_utils.py:82 | lines without terminators joined by `\n` or `\r\n` split back into the same lines |
| Lines.SplitJoinTerminated | ddot_utils.py:82 | a terminator after the last line adds one empty last piece |
| Lines.Fault | ddot_utils.py:110-117 | a line has no fault exactly when it is 21 to 80 characters long with a space at index 20 |
| Lines.LinesWithMembers | ddot_utils.py:110-117 | a category lists the 1-based file line number n exactly when data line n-2 has that fault; the numbers are in strictly increasing order |
| Lines.ValidationCategories | ddot_utils.py:110-117 | a line is reported as too long, else as too short, else as having a bad site-number separator, and in no other category |
| Lines.ValidationMessage | ddot_utils.py:118-125 | the message lists only non-empty categories, in the order too long, too short, bad site number |
| Lines.ValidationMessageEmpty | ddot_utils.py:98-127 | the message is empty exactly when every line is well formed |
| Lines.ValidateLines | ddot_utils.py:98-127 | the loop over the lines builds exactly the validation message |
| Lines.ReadDataLines | ddot_utils.py:72-96 | the steps of `get_lines`, with the validation loop, give exactly the specified lines or failure |
| Lines.GetLinesEmpty | ddot_utils.py:79-86 | empty content fails with "no contents"; non-empty content without a line feed fails with "no transactions"; neither happens otherwise |
| Lines.GetLinesOk | ddot_utils.py:82-96 | returned lines are well formed and hold no line feed; they are the pieces after the header, less at most one empty last piece |
| Lines.GetLinesInvalid | ddot_utils.py:92-96 | with at least one line feed, the file fails exactly when some data line is malformed, and then with that validation message |
| Lines.FileTextDataLines | ddot_utils.py:82-89 | a header plus non-empty lines, joined and optionally terminated, has exactly those lines as data lines |
| Lines.GetLinesRoundTrip | ddot_utils.py:72-96 | a header plus well-formed lines, joined by either terminator with or without a final one, reads back as exactly those lines |
| Transactions.OpensTableIsToken | ddot_utils.py:59 | the character test for a new transaction is the `R=` prefix test |
| Transactions.CutAt | ddot_utils.py:143-162 | each cut lies inside the lines, starts a transaction and holds no boundary; consecutive cuts meet |
| Transactions.CutNumbers | ddot_utils.py:141-169 | the cuts from s onward cover the line numbers s+2..\|lines\|+1 in order |
| Transactions.KeysConstant | ddot_utils.py:143 | lines inside one group share its site key |
| Transactions.TransactionsPartition | ddot_utils.py:129-169 | the transactions' line numbers, in order, are exactly 2..\|lines\|+1; each transaction is well grouped; there are none exactly when there are no lines |
| Transactions.TransactionWellGrouped | ddot_utils.py:143-169 | a transaction is a run of consecutive lines with one site key and no boundary inside, whose agency code and site number come from that key and whose payload is the lines' payloads joined by spaces |
| Transactions.TransactionNumbers | ddot_utils.py:141-169 | the k-th transaction's line numbers are those of the k-th cut |
| Transactions.TransactionsMeetAtBoundaries | ddot_utils.py:143-162 | a transaction starts on the line after the previous one ends, and that line changes the site key or opens with `R=` |
| Transactions.AppendGroup | ddot_utils.py:143-169 | one group adds the transactions its cuts describe; every line it takes has the site key of its first line, and it stops at the first line with another key |
| Transactions.GetTransactions | ddot_utils.py:129-169 | the grouping loop returns exactly the transactions of the lines |
| Tokens.FindLeftmost | ddot_utils.py:180-181 | a search finds the leftmost character of its class, or reports none exactly when there is none |
| Tokens.SpaceEndRun | ddot_utils.py:181 | the whitespace skipped after an ending token is all whitespace and stops at the first other character |
| Tokens.ParseKeyValuePairs | ddot_utils.py:172-203 | the scanning loop returns exactly the pairs, or the fault, of the payload |
| Tokens.ScanRender | ddot_utils.py:188-201 | readable tokens written one after another are read back as their keys and values, in order |
| Tokens.KeyValuePairsRender | ddot_utils.py:172-203 | a non-empty run of readable tokens parses back to its pairs |
| Tokens.ScanSound | ddot_utils.py:188-201 | every key has no separator and every value no ending token |
| Tokens.KeyValuePairsSound | ddot_utils.py:172-203 | every key returned has no separator and every value no ending token |
| Tokens.ScanFaults | ddot_utils.py:190-198 | a failure names a non-empty rest of the text: without a separator, or with a separator and no ending token |
| Tokens.KeyValuePairsFaults | ddot_utils.py:185-198 | "no key value pairs" is reported exactly for the empty payload; every other failure names a non-empty rest of the payload with the missing delimiter absent from it |
| Tokens.NoEndingAtAll | ddot_utils.py:194-198 | a payload with a separator and no ending token fails on the first pass, naming all of it |
| Tokens.NoSeparatorAtAll | ddot_utils.py:190-192 | a non-empty payload without a separator fails on the first pass, naming all of it |
| Tokens.TokenThenNoEnding | ddot_utils.py:188-201 | after one good token, a rest with a separator and no ending token is reported as it stands |
| Tokens.ExamplePairs | tests/test_ddot_utils.py:74-77 | `12=Test* 13#Another test$` gives the pairs (12, Test) and (13, Another test) |
| Tokens.ExampleMissingSeparator | tests/test_ddot_utils.py:79-86 | `12=Test* 13` fails for want of a separator in `13` |
| Tokens.ExampleMissingEnding | tests/test_ddot_utils.py:79-86 | `12=Test* 13=This` fails for want of an ending token in `13=This` |
| Semantics.CountZero | ddot_utils.py:228 | a value occurs zero times exactly when it is absent |
| Semantics.CountOnce | ddot_utils.py:228 | a value occurs once exactly when exactly one index holds it |
| Semantics.CountTwice | ddot_utils.py:355 | a value occurs at least twice exactly when two distinct indices hold it |
| Semantics.HasDuplicateStationNameKeys | ddot_utils.py:206-220 | the loop answers true exactly when two pairs, an earlier and a later one, both have codes naming the station name |
| Semantics.StationNameTwiceByCodes | ddot_utils.py:206-220 | when only `900` and `12` name the station name, a duplicate means two pairs keyed `900` or `12` |
| Semantics.StationNameTwiceCodes | ddot_utils.py:4-57 | with the source's table, a duplicate station name means two pairs keyed `900` or `12` |
| Semantics.HasTransactionTypeUnique | ddot_utils.py:223-228 | the check passes exactly when one pair, and only one, is keyed `T` |
| Semantics.InvalidKeyCodesCount | ddot_utils.py:231-236 | a known code is never reported; an unknown one is reported as often as it occurs |
| Semantics.InvalidKeyCodesAppend | ddot_utils.py:231-236 | the unknown codes of two runs of pairs are those of the first run followed by those of the second, so the report keeps the order of the pairs |
| Semantics.InvalidKeyCodesMembers | ddot_utils.py:231-236 | a code is reported exactly when it is unknown and some pair has it |
| Semantics.TranslateDomain | ddot_utils.py:239-245 | the translation has an attribute exactly when some pair's code names it |
| Semantics.TranslateLastWins | ddot_utils.py:239-245 | an attribute takes the value of the last pair whose code names it |
| Semantics.TranslateIgnoresUnknown | ddot_utils.py:243 | a pair with an unknown code does not change the translation |
| Semantics.RemoveQuotesRoundTrip | ddot_utils.py:248-258 | a value wrapped in single quotes loses exactly those quotes |
| Semantics.RemoveQuotesOtherwise | ddot_utils.py:248-258 | anything else comes back unchanged, except that a lone quote becomes empty |
| Semantics.StationNameExamples | tests/test_ddot_utils.py:324-336 | a station name quoted on one side only keeps its quote; one quoted on both sides loses both |
| Semantics.UpdateCCodeToYCodeProperties | ddot_utils.py:260-267 | the code `C` becomes `Y`, every other value is kept, so the result is never `C`, and applying it twice changes nothing more |
| Semantics.AddLeadingSpaceProperties | ddot_utils.py:270-277 | the result is empty exactly when the value is; a non-empty result starts with a space or `-`; it is the value or the value after a space; applying it twice changes nothing more |
| Semantics.LatitudeExamples | tests/test_ddot_utils.py:386-396 | an unsigned latitude gains a space; one starting with a space or dash is kept |
| Semantics.AddLeadingZeroProperties | ddot_utils.py:279-286 | the function fails exactly on one-character values, where the source raises an IndexError; otherwise the second character is `0` or `1`, the first is kept, removing an inserted zero restores the value, and applying it twice changes nothing more |
| Semantics.NormaliseLongitudeProperties | ddot_utils.py:341-343 | the clean-up fails exactly on a lone space or dash; otherwise a non-empty longitude becomes signed with `0` or `1` after the sign |
| Semantics.LongitudeKeptExamples | tests/test_ddot_utils.py:402-440 | an unsigned 100-degree longitude gains only a space, an unsigned padded one gains a space, a signed one already padded is kept, and an empty one stays empty |
| Semantics.LongitudeZeroExamples | tests/test_ddot_utils.py:406-412 | a 90-degree longitude without its zero gains it after the sign |
| Pipeline.Apply | ddot_utils.py:334-346 | a clean-up changes only its own attribute, and only when present |
| Pipeline.ZeroLongitude | ddot_utils.py:341-343 | zero-padding the longitude changes nothing else |
| Pipeline.Normalise | ddot_utils.py:334-346 | the in-place clean-ups of the record give exactly the normalised record |
| Pipeline.NormalisedProperties | ddot_utils.py:334-346 | the clean-ups fail exactly on a longitude that is a lone space or dash; otherwise the record keeps its attributes, untouched attributes keep their values, the station name is unquoted, the latitude is signed with a leading space where it had no sign, the longitude is signed that way and then zero-padded, so both are signed and the longitude has `0` or `1` after its sign, and the web-ready code is the cleaned-up one, so `C` has become `Y` |
| Pipeline.TransactionRecordErrors | ddot_utils.py:312-325 | the tokenising, station-name, transaction-type and component-code checks run in this order, each failing exactly when the earlier ones pass and its own fails, and carrying the transaction's line numbers |
| Pipeline.TransactionRecordLateErrors | ddot_utils.py:327-343 | after those checks, the record fails on the transaction type exactly when it is not `A` or `M`, and then on the longitude exactly when it is a lone space or dash |
| Pipeline.RecordOfTranslation | ddot_utils.py:327-346 | a normalised record carries the given agency code and site number, the attributes of the translation plus those two, and the translation's value for every attribute the clean-ups leave alone |
| Pipeline.TransactionRecordOk | ddot_utils.py:312-348 | a transaction's record carries its agency code and site number, a transaction type `A` or `M`, and exactly the attributes its known codes name |
| Pipeline.TransactionRecordNotTooMany | ddot_utils.py:312-348 | no transaction fails with the transaction-count error |
| Pipeline.TransactionRecordNoDuplicateSites | ddot_utils.py:312-348 | no transaction fails with the duplicate-sites error |
| Pipeline.ParseTransaction | ddot_utils.py:312-348 | the body of the loop computes exactly the record of one transaction |
| Pipeline.SiteRecordsAppend | ddot_utils.py:351 | the site-table filter keeps the order of the records |
| Pipeline.SiteRecordsMembers | ddot_utils.py:351 | a record survives the filter exactly when it is present and is for the site table |
| Pipeline.RepeatedSitesMembers | ddot_utils.py:355 | a site is repeated exactly when two distinct indices hold it |
| Pipeline.SiteCheckOk | ddot_utils.py:350-359 | the site check passes exactly when the site records name pairwise distinct sites, and then returns them |
| Pipeline.SiteCheckDuplicates | ddot_utils.py:354-357 | a site-check failure names a non-empty set holding exactly the sites that two site records share |
| Pipeline.ParseTransactions | ddot_utils.py:312-359 | the loop over the transactions and the site check give exactly the file's result past the cap |
| Pipeline.Parse | ddot_utils.py:296-359 | the whole parse gives exactly the specified result for the source's code table |
| Pipeline.ParsedTooManyTransactions | ddot_utils.py:288-310 | the file fails on the cap exactly when its lines are valid and make more than 30000 transactions |
| Pipeline.ParsedFirstFailure | ddot_utils.py:312-348 | within the cap, the file fails with the failure of its first failing transaction; when none fails, the site check decides |
| Pipeline.CollectedOrigin | ddot_utils.py:312-348 | every collected record is the record of some transaction and carries its agency code and site number |
| Pipeline.ParsedOk | ddot_utils.py:296-359 | a parsed file gives site-table records only, for pairwise distinct sites and in transaction order, each the record of one of its transactions with that transaction's agency code and site number |
| Pipeline.ParsedDuplicateSites | ddot_utils.py:350-357 | a file fails on duplicate sites only once every transaction has its record |
| Wrappers.CollectOk | ddot_utils.py:312-348 | collecting succeeds exactly when every transaction does, and keeps every record in place |
| Wrappers.CollectFirstFailure | ddot_utils.py:312-348 | a failed collection fails with the first failing result |

## Left out

- There is no message text. The source raises one exception class with a formatted message. Here each failure is an `Errors` constructor that carries what the message would show: line numbers, offending codes, the rest of the payload, or the validation clauses.
- The validation message is a list of clauses, one per non-empty category, each with its line numbers. Its English wording is not modelled.
- The regular expressions are written as character scans with the same meaning:
  - `\r\n|\n` in `get_lines`;
  - `[=#]` and `[*$]\s*` in `parse_key_value_pairs`.
- `\s` is the whitespace class of Python 3 strings, written out as a list of characters (`Text.IsSpace`).
- Semantics.TranslateKeysToAttributes: it returns a map, so the source dict's insertion order is not modelled. When two codes name the same attribute, the later pair still wins.
- Python's `dict.get` and `in` tests are written with Dafny maps. `transaction.get(...)` on a transaction record is field access, because those keys are always present.
- Pipeline.TransactionRecord: the IndexError that `add_leading_zero` raises on a one-character longitude is modelled as the failure `LongitudeIndexError`. In the source it is not a ParseError and escapes `parse` unwrapped.
- Pipeline.SiteCheck: the duplicate-sites failure carries the set of duplicate sites rather than the printed Python set.
- The `Semantics` and `Pipeline` functions take the code table as a parameter. `Parse`, and so the model of the whole file, uses the source's table `KEY_TO_ATTR_MAPPING` (`CodeTable.KeyToAttrMapping`). Properties of that particular table are stated in `CodeTable` and in `Semantics.StationNameTwiceCodes`.
- Reading the file and the web service around `parse` are not modelled. Neither is the `ParseError` class's string conversion (`ddot_utils.py:63-69`).
- `too_many_transactions` is the predicate `Semantics.TooManyTransactions`. Its property is stated through Pipeline.ParsedTooManyTransactions.
