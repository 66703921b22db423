/**
  The failures of the pipeline. The source raises a single exception class
  carrying a formatted message; here each kind of failure is a constructor,
  carrying the line numbers, codes or text its message would show.
*/
module Errors {

  /** One clause of the line-validation message, with 1-based line numbers. */
  datatype Clause =
    | LinesTooLong(lineNumbers: seq<nat>)
    | LinesTooShort(lineNumbers: seq<nat>)
    | BadSiteNumberFormat(lineNumbers: seq<nat>)

  /** Why a transaction's payload could not be split into key/value pairs. */
  datatype TokenFault =
    | NoKeyValuePairs
    | MissingSeparator(remaining: string)
    | MissingEndingToken(remaining: string)

  datatype ParseError =
    | NoContents
    | NoTransactions
    | InvalidLines(message: seq<Clause>)
    | TooManyTransactions
    | TokenError(lineNumbers: seq<int>, fault: TokenFault)
    | DuplicateStationName(lineNumbers: seq<int>)
    | MissingTransactionType(lineNumbers: seq<int>)
    | InvalidComponentCodes(lineNumbers: seq<int>, codes: seq<string>)
    | InvalidTransactionType(lineNumbers: seq<int>)
    | DuplicateSites(sites: set<(string, string)>)
      /** The IndexError `add_leading_zero` raises on a one-character longitude;
          it is not a ParseError in the source and escapes `parse` unwrapped. */
    | LongitudeIndexError
}
