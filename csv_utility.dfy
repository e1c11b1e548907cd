/**
 * The CSV upload helpers: the mimetype and size predicates and the row
 * loop of `parseCSV`. The tokenizer is outside the model: its output is
 * given as the list of records (trimmed, comments and blank lines
 * dropped), and an error event of the parser as the number of records
 * delivered before it. An error of the file stream is not forwarded
 * through the pipe; with no listener on the stream, Node raises it as an
 * uncaught exception. It is not modelled.
 */
module CsvUtility {
  import opened Wrappers
  import opened Text

  const HeaderMismatch := "Header does not match."
  const EmptyFile := "Invalid/Empty csv file."
  const InvalidFile := "Invalid csv file."

  /** `isCSV`: only "text/csv" passes; "application/vnd.ms-excel", which the upload route admits, does not. */
  function IsCsv(mimetype: string): (r: bool)
    ensures r <==> mimetype == "text/csv"
  {
    if mimetype != "text/csv" then false else true
  }

  /** `csvFileSizeCheck`: the size lies between the bounds, both inclusive. */
  function CsvFileSizeCheck(size: int, minFileSize: int, maxFileSize: int): (r: bool)
    ensures r <==> minFileSize <= size <= maxFileSize
  {
    if size < minFileSize || size > maxFileSize then false else true
  }

  /** What the promise of `parseCSV` resolves with: the data rows or `{error}`. */
  datatype ParseResult = Rows(rows: seq<string>) | ParseError(message: string)

  /** A promise keeps the first value it is resolved with. */
  function Resolve(settled: Option<ParseResult>, v: ParseResult): Option<ParseResult> {
    if settled.Some? then settled else Some(v)
  }

  /** The first record, joined with "," and lower-cased, equals the lower-cased header. */
  predicate HeaderMatches(record: seq<string>, header: string) {
    Lower(JoinComma(record)) == Lower(header)
  }

  /** The header check ignores the case of the expected header. */
  lemma HeaderCheckIgnoresCase(record: seq<string>, header: string)
    ensures HeaderMatches(record, Lower(header)) <==> HeaderMatches(record, header)
  {
    LowerIdempotent(header);
  }

  /** How many records the `data` handler sees before the parser ends or errors. */
  function Delivered(records: seq<seq<string>>, failAfter: Option<nat>): nat {
    if failAfter.Some? && failAfter.value < |records| then failAfter.value else |records|
  }

  /**
   * The event handlers of `parseCSV` over the records. The first record is
   * checked against the header; a mismatch resolves the promise with an
   * error, later records are still consumed but the first resolve stands.
   * On `end`, no data rows resolve "Invalid/Empty csv file." and otherwise
   * the data rows in input order, each joined with ","; a parser error
   * resolves "Invalid csv file." unless the header check has resolved first.
   */
  method ParseCsv(records: seq<seq<string>>, header: string, failAfter: Option<nat>) returns (r: ParseResult)
    ensures var n := Delivered(records, failAfter);
      n >= 1 && !HeaderMatches(records[0], header) ==> r == ParseError(HeaderMismatch)
    ensures var n := Delivered(records, failAfter);
      failAfter.Some? && !(n >= 1 && !HeaderMatches(records[0], header)) ==> r == ParseError(InvalidFile)
    ensures failAfter.None? && |records| <= 1 && !(|records| == 1 && !HeaderMatches(records[0], header)) ==>
      r == ParseError(EmptyFile)
    ensures failAfter.None? && |records| > 1 && HeaderMatches(records[0], header) ==>
      r.Rows? && |r.rows| == |records| - 1 &&
      forall k :: 0 <= k < |r.rows| ==> r.rows[k] == JoinComma(records[k + 1])
  {
    var n := Delivered(records, failAfter);
    var rowCount := 0;
    var rows: seq<string> := [];
    var settled: Option<ParseResult> := None;
    var i := 0;
    while i < n
      invariant 0 <= i <= n <= |records|
      invariant rowCount == i
      invariant |rows| == (if i == 0 then 0 else i - 1)
      invariant forall k :: 0 <= k < |rows| ==> rows[k] == JoinComma(records[k + 1])
      invariant settled == if i >= 1 && !HeaderMatches(records[0], header) then Some(ParseError(HeaderMismatch)) else None
    {
      rowCount := rowCount + 1;
      if rowCount == 1 {
        if Lower(JoinComma(records[i])) != Lower(header) {
          settled := Resolve(settled, ParseError(HeaderMismatch));
        }
      } else {
        rows := rows + [JoinComma(records[i])];
      }
      i := i + 1;
    }
    if failAfter.Some? {
      settled := Resolve(settled, ParseError(InvalidFile));
    } else {
      if |rows| == 0 {
        settled := Resolve(settled, ParseError(EmptyFile));
      }
      settled := Resolve(settled, Rows(rows));
    }
    r := settled.value;
  }
}
